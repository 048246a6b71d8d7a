/** The cache re-key tool (src/rekey_cache.rs:257-377) over a directory of
    plain files. */
module Rekey {
  import opened Text
  import opened FileCache

  datatype MappingRow = MappingRow(driveFileId: string, canonicalId: string, parserVersion: int)

  datatype File = File(bytes: string, mtime: int)

  type Files = map<string, File>

  // ---------- groups ----------

  /** The rows of one drive file id, in input order. */
  datatype Group = Group(id: string, rows: seq<MappingRow>)

  predicate Ascending(groups: seq<Group>) {
    forall i, j | 0 <= i < j < |groups| :: StrLess(groups[i].id, groups[j].id)
  }

  function RowsFor(rows: seq<MappingRow>, id: string): seq<MappingRow> {
    if rows == [] then []
    else RowsFor(rows[..|rows| - 1], id)
         + if rows[|rows| - 1].driveFileId == id then [rows[|rows| - 1]] else []
  }

  /** The ids in order, each with its rows. */
  ghost predicate Grouped(groups: seq<Group>, rows: seq<MappingRow>) {
    && Ascending(groups)
    && (forall i | 0 <= i < |groups| :: groups[i].rows == RowsFor(rows, groups[i].id) && groups[i].rows != [])
    && Covers(groups, rows)
  }

  method AddRow(groups: seq<Group>, row: MappingRow, ghost rows: seq<MappingRow>) returns (r: seq<Group>)
    requires Grouped(groups, rows)
    ensures Grouped(r, rows + [row])
  {
    var k := 0;
    while k < |groups| && StrLess(groups[k].id, row.driveFileId)
      invariant 0 <= k <= |groups|
      invariant forall i | 0 <= i < k :: StrLess(groups[i].id, row.driveFileId)
    {
      k := k + 1;
    }
    var all := rows + [row];
    assert all[..|all| - 1] == rows;
    if k < |groups| && groups[k].id == row.driveFileId {
      r := groups[k := Group(row.driveFileId, groups[k].rows + [row])];
      Replaced(groups, r, k, row, rows);
    } else {
      r := groups[..k] + [Group(row.driveFileId, [row])] + groups[k..];
      Inserted(groups, r, k, row, rows);
    }
  }

  lemma IdsDiffer(groups: seq<Group>)
    requires Ascending(groups)
    ensures forall i, j | 0 <= i < |groups| && 0 <= j < |groups| && i != j :: groups[i].id != groups[j].id
  {
    forall i, j | 0 <= i < j < |groups| ensures groups[i].id != groups[j].id {
      StrLessIrreflexive(groups[i].id);
    }
  }

  lemma Replaced(groups: seq<Group>, r: seq<Group>, k: nat, row: MappingRow, rows: seq<MappingRow>)
    requires Grouped(groups, rows) && k < |groups| && groups[k].id == row.driveFileId
    requires r == groups[k := Group(row.driveFileId, groups[k].rows + [row])]
    ensures Grouped(r, rows + [row])
  {
    var all := rows + [row];
    assert all[..|all| - 1] == rows;
    IdsDiffer(groups);
    forall x | x in all ensures exists i | 0 <= i < |r| :: r[i].id == x.driveFileId {
      if x == row { assert r[k].id == x.driveFileId; }
      else {
        assert x in rows;
        var i :| 0 <= i < |groups| && groups[i].id == x.driveFileId;
        assert r[i].id == x.driveFileId;
      }
    }
  }

  lemma Inserted(groups: seq<Group>, r: seq<Group>, k: nat, row: MappingRow, rows: seq<MappingRow>)
    requires Grouped(groups, rows) && k <= |groups|
    requires forall i | 0 <= i < k :: StrLess(groups[i].id, row.driveFileId)
    requires k < |groups| ==> !StrLess(groups[k].id, row.driveFileId) && groups[k].id != row.driveFileId
    requires r == groups[..k] + [Group(row.driveFileId, [row])] + groups[k..]
    ensures Grouped(r, rows + [row])
  {
    Above(groups, k, row.driveFileId);
    InsertedAscends(groups, r, k, row);
    InsertedRows(groups, r, k, row, rows);
    InsertedCovers(groups, r, k, row, rows);
    hide StrLess, Ascending, RowsFor;
  }

  ghost predicate Covers(groups: seq<Group>, rows: seq<MappingRow>) {
    forall r | r in rows :: exists i | 0 <= i < |groups| :: groups[i].id == r.driveFileId
  }

  lemma InsertedCovers(groups: seq<Group>, r: seq<Group>, k: nat, row: MappingRow, rows: seq<MappingRow>)
    requires Covers(groups, rows) && k <= |groups|
    requires r == groups[..k] + [Group(row.driveFileId, [row])] + groups[k..]
    ensures Covers(r, rows + [row])
  {
    forall x | x in rows + [row] ensures exists i | 0 <= i < |r| :: r[i].id == x.driveFileId {
      if x in rows {
        var i :| 0 <= i < |groups| && groups[i].id == x.driveFileId;
        assert r[if i < k then i else i + 1].id == x.driveFileId;
      } else {
        assert r[k].id == x.driveFileId;
      }
    }
  }

  lemma Above(groups: seq<Group>, k: nat, id: string)
    requires Ascending(groups) && k <= |groups|
    requires k < |groups| ==> !StrLess(groups[k].id, id) && groups[k].id != id
    ensures forall i | k <= i < |groups| :: StrLess(id, groups[i].id)
  {
    forall i | k <= i < |groups| ensures StrLess(id, groups[i].id) {
      StrLessTotal(groups[k].id, id);
      if i > k { StrLessTransitive(id, groups[k].id, groups[i].id); }
    }
  }

  lemma InsertedAscends(groups: seq<Group>, r: seq<Group>, k: nat, row: MappingRow)
    requires Ascending(groups) && k <= |groups|
    requires forall i | 0 <= i < k :: StrLess(groups[i].id, row.driveFileId)
    requires forall i | k <= i < |groups| :: StrLess(row.driveFileId, groups[i].id)
    requires r == groups[..k] + [Group(row.driveFileId, [row])] + groups[k..]
    ensures Ascending(r)
  {
    hide StrLess;
    forall i, j | 0 <= i < j < |r| ensures StrLess(r[i].id, r[j].id) {
      assert i < k ==> r[i] == groups[i];
      assert j > k ==> r[j] == groups[j - 1];
      assert i > k ==> r[i] == groups[i - 1];
      assert j < k ==> r[j] == groups[j];
    }
  }

  lemma InsertedRows(groups: seq<Group>, r: seq<Group>, k: nat, row: MappingRow, rows: seq<MappingRow>)
    requires Grouped(groups, rows) && k <= |groups|
    requires forall i | 0 <= i < k :: StrLess(groups[i].id, row.driveFileId)
    requires forall i | k <= i < |groups| :: StrLess(row.driveFileId, groups[i].id)
    requires r == groups[..k] + [Group(row.driveFileId, [row])] + groups[k..]
    ensures forall i | 0 <= i < |r| :: r[i].rows == RowsFor(rows + [row], r[i].id) && r[i].rows != []
  {
    var all, id := rows + [row], row.driveFileId;
    assert all[..|all| - 1] == rows;
    StrLessIrreflexive(id);
    NoRows(groups, rows, id);
    hide StrLess, Ascending;
    forall i | 0 <= i < |r| ensures r[i].rows == RowsFor(all, r[i].id) && r[i].rows != [] {
      if i < k { assert r[i] == groups[i]; } else if i > k { assert r[i] == groups[i - 1]; }
    }
  }

  /** An id without a group has no rows. */
  lemma {:induction false} NoRowsIn(rows: seq<MappingRow>, id: string)
    requires forall r | r in rows :: r.driveFileId != id
    ensures RowsFor(rows, id) == []
  {
    if rows != [] {
      assert rows[|rows| - 1] in rows;
      NoRowsIn(rows[..|rows| - 1], id);
    }
  }

  lemma NoRows(groups: seq<Group>, rows: seq<MappingRow>, id: string)
    requires Grouped(groups, rows) && forall i | 0 <= i < |groups| :: groups[i].id != id
    ensures RowsFor(rows, id) == []
  {
    NoRowsIn(rows, id);
  }

  // ---------- choosing a source ----------

  predicate Present(files: Files, row: MappingRow) {
    CachePath(row.canonicalId).Some? && CachePath(row.canonicalId).value in files
  }

  /** The last of the highest parser versions among the rows whose file is there. */
  function Chosen(files: Files, rows: seq<MappingRow>): Option<MappingRow> {
    if rows == [] then None
    else
      var last, best := rows[|rows| - 1], Chosen(files, rows[..|rows| - 1]);
      if Present(files, last) && (best.None? || last.parserVersion >= best.value.parserVersion) then Some(last) else best
  }

  /** Row `k` has the highest version of those present, and no later one ties. */
  ghost predicate IsBest(files: Files, rows: seq<MappingRow>, k: nat) {
    && k < |rows| && Present(files, rows[k])
    && (forall j | 0 <= j < |rows| && Present(files, rows[j]) :: rows[j].parserVersion <= rows[k].parserVersion)
    && (forall j | k < j < |rows| && Present(files, rows[j]) :: rows[j].parserVersion < rows[k].parserVersion)
  }

  lemma {:induction false} ChosenIsBest(files: Files, rows: seq<MappingRow>)
    ensures Chosen(files, rows).None? <==> forall j | 0 <= j < |rows| :: !Present(files, rows[j])
    ensures Chosen(files, rows).Some? ==> exists k: nat | k < |rows| :: IsBest(files, rows, k) && rows[k] == Chosen(files, rows).value
  {
    hide Present, IsBest;
    if rows != [] {
      var init := rows[..|rows| - 1];
      ChosenIsBest(files, init);
      assert forall j | 0 <= j < |init| :: init[j] == rows[j];
      if Chosen(files, init).Some? {
        var k: nat :| k < |init| && IsBest(files, init, k) && init[k] == Chosen(files, init).value;
        BestExtends(files, rows, k);
        var last := |rows| - 1;
        var best := if Present(files, rows[last]) && rows[last].parserVersion >= rows[k].parserVersion then last else k;
        assert IsBest(files, rows, best) && rows[best] == Chosen(files, rows).value;
      } else if Present(files, rows[|rows| - 1]) {
        OnlyBest(files, rows);
      }
    }
  }

  lemma BestExtends(files: Files, rows: seq<MappingRow>, k: nat)
    requires rows != [] && IsBest(files, rows[..|rows| - 1], k)
    ensures var last := |rows| - 1;
      IsBest(files, rows, if Present(files, rows[last]) && rows[last].parserVersion >= rows[k].parserVersion then last else k)
  {
    hide Present;
    var init := rows[..|rows| - 1];
    assert forall j | 0 <= j < |init| :: init[j] == rows[j];
  }

  lemma OnlyBest(files: Files, rows: seq<MappingRow>)
    requires rows != [] && Present(files, rows[|rows| - 1])
    requires forall j | 0 <= j < |rows| - 1 :: !Present(files, rows[j])
    ensures IsBest(files, rows, |rows| - 1)
  {
  }

  // ---------- one drive file id ----------

  datatype Outcome = Missing | Skipped | Mapped(row: MappingRow)

  function OutcomeOf(files: Files, group: Group): Outcome {
    if !IsSafeFileId(group.id) then Missing
    else match Chosen(files, group.rows)
      case None => Missing
      case Some(row) => if group.id + SUFFIX in files then Skipped else Mapped(row)
  }

  /** How the run is made: renaming or copying, for real or not, at what time,
      and for which destinations the source's time cannot be carried over. */
  datatype Mode = Mode(copy: bool, dryRun: bool, now: int, keepsTime: string -> bool)

  function Moved(files: Files, source: string, dest: string, mode: Mode): Files
    requires source in files
  {
    if mode.dryRun then files
    else if mode.copy then
      files[dest := File(files[source].bytes, if mode.keepsTime(dest) then files[source].mtime else mode.now)]
    else (files - {source})[dest := files[source]]
  }

  lemma {:induction false} ChosenPresent(files: Files, rows: seq<MappingRow>)
    ensures Chosen(files, rows).Some? ==> Present(files, Chosen(files, rows).value) && Chosen(files, rows).value in rows
  {
    if rows != [] { ChosenPresent(files, rows[..|rows| - 1]); }
  }

  function AfterGroup(files: Files, group: Group, mode: Mode): Files {
    match OutcomeOf(files, group)
    case Mapped(row) =>
      ChosenPresent(files, group.rows);
      Moved(files, row.canonicalId + SUFFIX, group.id + SUFFIX, mode)
    case _ => files
  }

  // ---------- the report ----------

  datatype MappedFile = MappedFile(driveFileId: string, canonicalId: string, parserVersion: int)

  datatype Report = Report(
    mappingRows: nat, driveFileIds: nat, copied: bool, dryRun: bool,
    mapped: seq<MappedFile>, skipped: seq<string>, missing: seq<string>,
    orphans: seq<string>, warnings: seq<string>)

  /** The part of the report one id adds. */
  function Noted(report: Report, group: Group, outcome: Outcome, mode: Mode): Report {
    match outcome
    case Missing => report.(missing := report.missing + [group.id])
    case Skipped => report.(skipped := report.skipped + [group.id])
    case Mapped(row) =>
      report.(mapped := report.mapped + [MappedFile(group.id, row.canonicalId, row.parserVersion)],
              warnings := if !mode.dryRun && mode.copy && !mode.keepsTime(group.id + SUFFIX)
                          then report.warnings + [group.id + SUFFIX] else report.warnings)
  }

  function FilesAfter(files: Files, groups: seq<Group>, mode: Mode): Files {
    if groups == [] then files
    else AfterGroup(FilesAfter(files, groups[..|groups| - 1], mode), groups[|groups| - 1], mode)
  }

  function ReportAfter(files: Files, groups: seq<Group>, mode: Mode, start: Report): Report {
    if groups == [] then start
    else
      var init, last := groups[..|groups| - 1], groups[|groups| - 1];
      Noted(ReportAfter(files, init, mode, start), last, OutcomeOf(FilesAfter(files, init, mode), last), mode)
  }

  /** An `.xlsx` file no mapping row names, as a destination or as a source. */
  ghost predicate IsOrphan(files: Files, rows: seq<MappingRow>, name: string) {
    && name in files && |name| >= |SUFFIX| && name[|name| - |SUFFIX|..] == SUFFIX
    && forall r | r in rows ::
         !(IsSafeFileId(r.driveFileId) && name == r.driveFileId + SUFFIX) && name != r.canonicalId + SUFFIX
  }

  predicate Sorted(names: seq<string>) { forall i, j | 0 <= i < j < |names| :: StrLess(names[i], names[j]) }

  ghost predicate AreOrphans(names: seq<string>, files: Files, rows: seq<MappingRow>) {
    Sorted(names) && forall name :: name in names <==> IsOrphan(files, rows, name)
  }

  /** A whole run: the groups determine the files and the report after it. */
  ghost predicate Ran(files: Files, rows: seq<MappingRow>, mode: Mode, files': Files, report: Report) {
    exists groups | Grouped(groups, rows) ::
      && files' == FilesAfter(files, groups, mode)
      && report.(orphans := []) == ReportAfter(files, groups, mode, StartOf(rows, groups, mode))
      && AreOrphans(report.orphans, files', rows)
  }

  function StartOf(rows: seq<MappingRow>, groups: seq<Group>, mode: Mode): Report {
    Report(|rows|, |groups|, mode.copy, mode.dryRun, [], [], [], [], [])
  }

  method InsertName(names: seq<string>, name: string) returns (r: seq<string>)
    requires Sorted(names) && name !in names
    ensures Sorted(r) && forall x :: x in r <==> x in names || x == name
  {
    var k := 0;
    while k < |names| && StrLess(names[k], name)
      invariant 0 <= k <= |names|
      invariant forall i | 0 <= i < k :: StrLess(names[i], name)
    {
      k := k + 1;
    }
    r := names[..k] + [name] + names[k..];
    NameInserted(names, name, k);
  }

  lemma NameInserted(names: seq<string>, name: string, k: nat)
    requires Sorted(names) && name !in names && k <= |names|
    requires forall i | 0 <= i < k :: StrLess(names[i], name)
    requires k < |names| ==> !StrLess(names[k], name)
    ensures var r := names[..k] + [name] + names[k..];
      Sorted(r) && forall x :: x in r <==> x in names || x == name
  {
    forall i | k <= i < |names| ensures StrLess(name, names[i]) {
      StrLessTotal(names[k], name);
      if i > k { StrLessTransitive(name, names[k], names[i]); }
    }
    hide StrLess;
    forall x ensures x in names[..k] + [name] + names[k..] <==> x in names || x == name {
      assert names == names[..k] + names[k..];
    }
  }

  class CacheDir {
    var files: Files

    method Rekey(rows: seq<MappingRow>, mode: Mode) returns (report: Report)
      modifies this
      ensures Ran(old(files), rows, mode, files, report)
    {
      hide OutcomeOf, AfterGroup, Grouped, FilesAfter, ReportAfter, AreOrphans;
      var groups := GroupRows(rows);
      report := StartOf(rows, groups, mode);
      ghost var start := report;
      RunStart(files, mode, start);
      for k := 0 to |groups|
        invariant files == FilesAfter(old(files), groups[..k], mode)
        invariant report == ReportAfter(old(files), groups[..k], mode, start)
        invariant report.orphans == []
      {
        RunStep(old(files), groups, k, mode, start);
        var outcome := Place(groups[k], mode);
        report := Noted(report, groups[k], outcome, mode);
      }
      assert groups[..|groups|] == groups;
      var orphans := Orphans(rows);
      ghost var counted := report;
      report := report.(orphans := orphans);
      assert report.(orphans := []) == counted;
    }

    /** One id: nothing, or one file renamed or copied. */
    method Place(group: Group, mode: Mode) returns (outcome: Outcome)
      modifies this
      ensures outcome == OutcomeOf(old(files), group) && files == AfterGroup(old(files), group, mode)
    {
      var dest := CachePath(group.id);
      if dest.None? { return Missing; }
      var chosen := Choose(group.rows);
      if chosen.None? { return Missing; }
      if dest.value in files { return Skipped; }
      ChosenPresent(files, group.rows);
      var source := chosen.value.canonicalId + SUFFIX;
      if !mode.dryRun {
        if mode.copy {
          files := files[dest.value := File(files[source].bytes, mode.now)];
          if mode.keepsTime(dest.value) {
            files := files[dest.value := files[dest.value].(mtime := files[source].mtime)];
          }
        } else {
          files := (files - {source})[dest.value := files[source]];
        }
      }
      return Mapped(chosen.value);
    }

    method Choose(rows: seq<MappingRow>) returns (best: Option<MappingRow>)
      ensures best == Chosen(files, rows)
    {
      best := None;
      for k := 0 to |rows|
        invariant best == Chosen(files, rows[..k])
      {
        assert rows[..k + 1][..k] == rows[..k];
        if Present(files, rows[k]) && (best.None? || rows[k].parserVersion >= best.value.parserVersion) {
          best := Some(rows[k]);
        }
      }
      assert rows[..|rows|] == rows;
    }

    method Orphans(rows: seq<MappingRow>) returns (orphans: seq<string>)
      ensures AreOrphans(orphans, files, rows)
    {
      orphans := [];
      var pending := files.Keys;
      while pending != {}
        invariant pending <= files.Keys && Sorted(orphans)
        invariant forall name :: name in orphans <==> name !in pending && IsOrphan(files, rows, name)
        decreases |pending|
      {
        ghost var some := Member(pending);
        var name :| name in pending;
        var known := Known(rows, name);
        if |name| >= |SUFFIX| && name[|name| - |SUFFIX|..] == SUFFIX && !known {
          orphans := InsertName(orphans, name);
        }
        pending := pending - {name};
      }
    }
  }

  method Known(rows: seq<MappingRow>, name: string) returns (known: bool)
    ensures known <==> exists r | r in rows ::
      (IsSafeFileId(r.driveFileId) && name == r.driveFileId + SUFFIX) || name == r.canonicalId + SUFFIX
  {
    for k := 0 to |rows|
      invariant forall i | 0 <= i < k ::
        !(IsSafeFileId(rows[i].driveFileId) && name == rows[i].driveFileId + SUFFIX) && name != rows[i].canonicalId + SUFFIX
    {
      var r := rows[k];
      if (IsSafeFileId(r.driveFileId) && name == r.driveFileId + SUFFIX) || name == r.canonicalId + SUFFIX {
        assert r in rows;
        return true;
      }
    }
    return false;
  }

  method GroupRows(rows: seq<MappingRow>) returns (groups: seq<Group>)
    ensures Grouped(groups, rows)
  {
    groups := [];
    hide Grouped;
    NoGroups();
    for k := 0 to |rows|
      invariant Grouped(groups, rows[..k])
    {
      assert rows[..k + 1] == rows[..k] + [rows[k]];
      groups := AddRow(groups, rows[k], rows[..k]);
    }
    assert rows[..|rows|] == rows;
  }

  lemma NoGroups()
    ensures Grouped([], [])
  {
  }

  lemma RunStart(files: Files, mode: Mode, start: Report)
    ensures FilesAfter(files, [], mode) == files && ReportAfter(files, [], mode, start) == start
  {
  }

  lemma RunStep(files: Files, groups: seq<Group>, k: nat, mode: Mode, start: Report)
    requires k < |groups|
    ensures FilesAfter(files, groups[..k + 1], mode) == AfterGroup(FilesAfter(files, groups[..k], mode), groups[k], mode)
    ensures ReportAfter(files, groups[..k + 1], mode, start)
         == Noted(ReportAfter(files, groups[..k], mode, start), groups[k],
                  OutcomeOf(FilesAfter(files, groups[..k], mode), groups[k]), mode)
  {
    hide OutcomeOf, AfterGroup;
    assert groups[..k + 1][..k] == groups[..k];
  }
}
