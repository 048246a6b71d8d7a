/** Exactly which mapping rows make a second run idle and a dry run truthful in
    every directory (src/rekey_cache.rs:265-377). */
module RekeyExact {
  import opened Text
  import opened FileCache
  import opened Rekey
  import opened RekeyLaws

  // ---------- directories by the ids they hold ----------

  /** The directory holds the files of exactly these ids, among ids. */
  ghost predicate Holds(files: Files, ids: set<string>) { forall id :: id + SUFFIX in files <==> id in ids }

  function Directory(ids: set<string>): Files {
    map id | id in ids :: id + SUFFIX := File("", 0)
  }

  lemma DirectoryHolds(ids: set<string>)
    ensures Holds(Directory(ids), ids)
  {
    forall id ensures id + SUFFIX in Directory(ids) <==> id in ids {
      if other :| other in ids && other + SUFFIX == id + SUFFIX { NamesDiffer(other, id); }
    }
  }

  predicate Takes(group: Group, id: string) { exists r | r in group.rows :: r.canonicalId == id }

  /** A source that can be there, by the ids. */
  predicate Sourced(group: Group, ids: set<string>) {
    exists r | r in group.rows :: IsSafeFileId(r.canonicalId) && r.canonicalId in ids
  }

  lemma OutcomeByIds(files: Files, ids: set<string>, group: Group)
    requires Holds(files, ids)
    ensures OutcomeOf(files, group).Mapped? <==> IsSafeFileId(group.id) && group.id !in ids && Sourced(group, ids)
    ensures OutcomeOf(files, group).Skipped? <==> IsSafeFileId(group.id) && group.id in ids && Sourced(group, ids)
    ensures OutcomeOf(files, group).Mapped? ==>
      var row := OutcomeOf(files, group).row;
      row in group.rows && row.canonicalId in ids && IsSafeFileId(row.canonicalId)
  {
    ChosenIsBest(files, group.rows);
    ChosenPresent(files, group.rows);
    hide IsSafeFileId;
    assert forall r | r in group.rows :: exists j | 0 <= j < |group.rows| :: group.rows[j] == r;
    assert forall r :: Present(files, r) <==> IsSafeFileId(r.canonicalId) && r.canonicalId in ids;
  }

  /** The ids after one step. */
  function IdsAfter(ids: set<string>, group: Group, outcome: Outcome, mode: Mode): set<string> {
    if !outcome.Mapped? || mode.dryRun then ids
    else if mode.copy then ids + {group.id}
    else ids - {outcome.row.canonicalId} + {group.id}
  }

  lemma StepByIds(files: Files, ids: set<string>, group: Group, mode: Mode)
    requires Holds(files, ids)
    ensures Holds(AfterGroup(files, group, mode), IdsAfter(ids, group, OutcomeOf(files, group), mode))
  {
    if OutcomeOf(files, group).Mapped? && !mode.dryRun {
      MapsFrom(files, group);
      var row := OutcomeOf(files, group).row;
      hide OutcomeOf;
      forall id ensures id + SUFFIX == group.id + SUFFIX <==> id == group.id { NamesDiffer(id, group.id); }
      forall id ensures id + SUFFIX == row.canonicalId + SUFFIX <==> id == row.canonicalId { NamesDiffer(id, row.canonicalId); }
    }
  }

  /** The groups are those of the rows, in order, and the run is for real. */
  ghost predicate Live(groups: seq<Group>, mode: Mode) { Ascending(groups) && !mode.dryRun }

  function Before(files: Files, groups: seq<Group>, k: nat, mode: Mode): Files
    requires k <= |groups|
  {
    FilesAfter(files, groups[..k], mode)
  }

  lemma BeforeNext(files: Files, groups: seq<Group>, k: nat, mode: Mode)
    requires k < |groups|
    ensures Before(files, groups, 0, mode) == files
    ensures Before(files, groups, k + 1, mode) == AfterGroup(Before(files, groups, k, mode), groups[k], mode)
    ensures Before(files, groups, |groups|, mode) == FilesAfter(files, groups, mode)
  {
    assert groups[..0] == [] && groups[..k + 1][..k] == groups[..k] && groups[..|groups|] == groups;
    hide AfterGroup;
  }

  // ---------- when reports agree ----------

  /** Every id fares as if it were handled first. */
  ghost predicate OutcomesAgree(files: Files, groups: seq<Group>, mode: Mode) {
    forall k | 0 <= k < |groups| :: OutcomeOf(Before(files, groups, k, mode), groups[k]) == OutcomeOf(files, groups[k])
  }

  ghost predicate OwnRows(groups: seq<Group>) {
    forall k, r | 0 <= k < |groups| && r in groups[k].rows :: r.driveFileId == groups[k].id
  }

  lemma GroupedOwnRows(groups: seq<Group>, rows: seq<MappingRow>)
    requires Grouped(groups, rows)
    ensures OwnRows(groups)
  {
    GroupsFromRows(groups, rows);
    forall k, r | 0 <= k < |groups| && r in groups[k].rows ensures r.driveFileId == groups[k].id {
      assert FromRows(groups[k], rows);
    }
  }

  function EntryOf(group: Group, row: MappingRow): MappedFile {
    MappedFile(group.id, row.canonicalId, row.parserVersion)
  }

  /** The report says of this id just what came of it. */
  ghost predicate Tells(report: Report, group: Group, outcome: Outcome) {
    && (group.id in report.missing <==> outcome.Missing?)
    && (group.id in report.skipped <==> outcome.Skipped?)
    && (outcome.Mapped? ==> EntryOf(group, outcome.row) in report.mapped)
    && forall m | m in report.mapped && m.driveFileId == group.id :: outcome.Mapped? && m == EntryOf(group, outcome.row)
  }

  ghost predicate Silent(report: Report, id: string) {
    id !in report.missing && id !in report.skipped && forall m | m in report.mapped :: m.driveFileId != id
  }

  ghost predicate NoneYet(report: Report) { report.mapped == [] && report.skipped == [] && report.missing == [] }

  lemma {:induction false} ReportTells(files: Files, groups: seq<Group>, n: nat, k: nat, mode: Mode, start: Report)
    requires n <= |groups| && k < |groups| && Ascending(groups) && NoneYet(start)
    ensures k >= n ==> Silent(ReportAfter(files, groups[..n], mode, start), groups[k].id)
    ensures k < n ==> Tells(ReportAfter(files, groups[..n], mode, start), groups[k], OutcomeOf(Before(files, groups, k, mode), groups[k]))
    decreases n
  {
    hide OutcomeOf, FilesAfter;
    if n == 0 {
      assert groups[..0] == [];
    } else {
      ReportTells(files, groups, n - 1, k, mode, start);
      IdsDiffer(groups);
      RunStep(files, groups, n - 1, mode, start);
      hide Ascending, ReportAfter, Noted, Tells, Silent;
      var report, outcome := ReportAfter(files, groups[..n - 1], mode, start), OutcomeOf(Before(files, groups, n - 1, mode), groups[n - 1]);
      if k == n - 1 {
        NotedOwn(report, groups[k], outcome, mode);
      } else {
        NotedOther(report, groups[n - 1], outcome, mode, groups[k], OutcomeOf(Before(files, groups, k, mode), groups[k]));
      }
    }
  }

  lemma NotedOwn(report: Report, group: Group, outcome: Outcome, mode: Mode)
    requires Silent(report, group.id)
    ensures Tells(Noted(report, group, outcome, mode), group, outcome)
  {
  }

  lemma NotedOther(report: Report, other: Group, theirs: Outcome, mode: Mode, group: Group, outcome: Outcome)
    requires other.id != group.id
    ensures Silent(report, group.id) ==> Silent(Noted(report, other, theirs, mode), group.id)
    ensures Tells(report, group, outcome) ==> Tells(Noted(report, other, theirs, mode), group, outcome)
  {
  }

  lemma WholeReportTells(files: Files, groups: seq<Group>, k: nat, mode: Mode, start: Report)
    requires k < |groups| && Ascending(groups) && NoneYet(start)
    ensures Tells(ReportAfter(files, groups, mode, start), groups[k], OutcomeOf(Before(files, groups, k, mode), groups[k]))
  {
    assert groups[..|groups|] == groups;
    hide Tells, OutcomeOf;
    ReportTells(files, groups, |groups|, k, mode, start);
  }

  /** A report tells only one outcome of an id. */
  lemma TellsOne(report: Report, report': Report, group: Group, outcome: Outcome, outcome': Outcome)
    requires Tells(report, group, outcome) && Tells(report', group, outcome') && Plain(report) == Plain(report')
    requires outcome.Mapped? ==> outcome.row.driveFileId == group.id
    requires outcome'.Mapped? ==> outcome'.row.driveFileId == group.id
    ensures outcome == outcome'
  {
    assert report.mapped == Plain(report).mapped && report.skipped == Plain(report).skipped && report.missing == Plain(report).missing;
    assert report'.mapped == Plain(report').mapped && report'.skipped == Plain(report').skipped
        && report'.missing == Plain(report').missing;
  }

  lemma {:induction false} SamePrefix(files: Files, groups: seq<Group>, n: nat, live: Mode, dry: Mode, start: Report, start': Report)
    requires n <= |groups| && OutcomesAgree(files, groups, live) && dry.dryRun && Plain(start) == Plain(start')
    ensures Plain(ReportAfter(files, groups[..n], live, start)) == Plain(ReportAfter(files, groups[..n], dry, start'))
    decreases n
  {
    hide OutcomeOf, FilesAfter, ReportAfter;
    if n == 0 {
      assert groups[..0] == [];
      RunStart(files, live, start);
      RunStart(files, dry, start');
    } else {
      SamePrefix(files, groups, n - 1, live, dry, start, start');
      RunStep(files, groups, n - 1, live, start);
      RunStep(files, groups, n - 1, dry, start');
      DryRunStays(files, groups[..n - 1], dry);
      assert OutcomeOf(Before(files, groups, n - 1, live), groups[n - 1]) == OutcomeOf(files, groups[n - 1]);
    }
  }

  /** The dry run's report is the real one exactly when every outcome is the
      same as it would be at the start. */
  lemma ReportsAgree(files: Files, groups: seq<Group>, live: Mode, dry: Mode, start: Report, start': Report)
    requires Ascending(groups) && OwnRows(groups) && dry.dryRun && NoneYet(start) && Plain(start) == Plain(start')
    ensures Plain(ReportAfter(files, groups, live, start)) == Plain(ReportAfter(files, groups, dry, start'))
       <==> OutcomesAgree(files, groups, live)
  {
    hide Ascending, ReportAfter, FilesAfter;
    if OutcomesAgree(files, groups, live) {
      assert groups[..|groups|] == groups;
      SamePrefix(files, groups, |groups|, live, dry, start, start');
    }
    if Plain(ReportAfter(files, groups, live, start)) == Plain(ReportAfter(files, groups, dry, start')) {
      forall k | 0 <= k < |groups| ensures OutcomeOf(Before(files, groups, k, live), groups[k]) == OutcomeOf(files, groups[k]) {
        OneOutcome(files, groups, k, live, dry, start, start');
      }
    }
  }

  lemma OneOutcome(files: Files, groups: seq<Group>, k: nat, live: Mode, dry: Mode, start: Report, start': Report)
    requires k < |groups| && Ascending(groups) && OwnRows(groups) && dry.dryRun && NoneYet(start) && NoneYet(start')
    requires Plain(ReportAfter(files, groups, live, start)) == Plain(ReportAfter(files, groups, dry, start'))
    ensures OutcomeOf(Before(files, groups, k, live), groups[k]) == OutcomeOf(files, groups[k])
  {
    WholeReportTells(files, groups, k, live, start);
    WholeReportTells(files, groups, k, dry, start');
    DryRunStays(files, groups[..k], dry);
    ChosenPresent(Before(files, groups, k, live), groups[k].rows);
    ChosenPresent(files, groups[k].rows);
    hide Tells, ReportAfter, FilesAfter, Ascending, Plain;
    TellsOne(ReportAfter(files, groups, live, start), ReportAfter(files, groups, dry, start'), groups[k],
             OutcomeOf(Before(files, groups, k, live), groups[k]), OutcomeOf(files, groups[k]));
  }

  // ---------- dry runs of renaming ----------

  /** Ids `i` and `j` get in each other's way over the file `c`: both take it,
      or `i` takes `j`'s own file while `j` has another source or comes later. */
  ghost predicate Clash(groups: seq<Group>, i: nat, j: nat, c: string) {
    && i < |groups| && j < |groups| && i != j
    && IsSafeFileId(groups[i].id) && IsSafeFileId(groups[j].id) && IsSafeFileId(c) && Takes(groups[j], c)
    && (|| (Takes(groups[i], c) && c != groups[i].id && c != groups[j].id)
        || (Takes(groups[i], groups[j].id) && (c != groups[j].id || i < j)))
  }

  ghost predicate NoClash(groups: seq<Group>) { forall i, j, c :: !Clash(groups, i, j, c) }

  predicate HasSource(group: Group) { exists r | r in group.rows :: IsSafeFileId(r.canonicalId) }

  /** What decides the outcome of an id that has any is as at the start. */
  ghost predicate AlikeIfAny(files: Files, files': Files, group: Group) {
    IsSafeFileId(group.id) && HasSource(group) ==> Alike(files, files', group)
  }

  lemma AlikeIfAnyOutcome(files: Files, files': Files, group: Group)
    requires AlikeIfAny(files, files', group)
    ensures OutcomeOf(files, group) == OutcomeOf(files', group)
  {
    if IsSafeFileId(group.id) {
      if HasSource(group) {
        AlikeOutcome(files, files', group);
      } else {
        ChosenPresent(files, group.rows);
        ChosenPresent(files', group.rows);
      }
    }
  }

  lemma UnclashedStep(files: Files, groups: seq<Group>, i: nat, k: nat, mode: Mode)
    requires i < k < |groups| && groups[i].id != groups[k].id && !mode.copy && NoClash(groups)
    ensures AlikeIfAny(files, AfterGroup(files, groups[i], mode), groups[k])
  {
    var a, after := groups[i].id, AfterGroup(files, groups[i], mode);
    if OutcomeOf(files, groups[i]).Mapped? && !mode.dryRun && IsSafeFileId(groups[k].id) && HasSource(groups[k]) {
      MapsFrom(files, groups[i]);
      ChosenPresent(files, groups[i].rows);
      var s := OutcomeOf(files, groups[i]).row.canonicalId;
      assert IsSafeFileId(a) && IsSafeFileId(s) && Takes(groups[i], s) && s != a;
      var c :| IsSafeFileId(c) && Takes(groups[k], c);
      hide OutcomeOf, IsSafeFileId;
      assert !Clash(groups, i, k, c) && !Clash(groups, i, k, s) && !Clash(groups, k, i, s);
      NamesDiffer(s, groups[k].id);
      NamesDiffer(a, groups[k].id);
      forall r | r in groups[k].rows ensures Present(files, r) == Present(after, r) {
        assert Takes(groups[k], r.canonicalId);
        NamesDiffer(r.canonicalId, s);
        NamesDiffer(r.canonicalId, a);
      }
    }
  }

  lemma {:induction false} UnclashedBefore(files: Files, groups: seq<Group>, m: nat, k: nat, mode: Mode)
    requires m <= k < |groups| && Ascending(groups) && !mode.copy && NoClash(groups)
    ensures AlikeIfAny(files, Before(files, groups, m, mode), groups[k])
    decreases m
  {
    hide AfterGroup, NoClash, FilesAfter, Present, HasSource;
    if m == 0 {
      BeforeNext(files, groups, k, mode);
    } else {
      UnclashedBefore(files, groups, m - 1, k, mode);
      BeforeNext(files, groups, m - 1, mode);
      IdsDiffer(groups);
      UnclashedStep(Before(files, groups, m - 1, mode), groups, m - 1, k, mode);
    }
  }

  /** From one single file, at most one id is mapped when outcomes agree. */
  lemma {:induction false} SingleFile(s: string, groups: seq<Group>, m: nat, mode: Mode)
    requires m <= |groups| && Live(groups, mode) && !mode.copy && OutcomesAgree(Directory({s}), groups, mode)
    ensures var files := Directory({s});
      || (Holds(Before(files, groups, m, mode), {s}) && forall k | 0 <= k < m :: !Mappable(files, groups[k]))
      || exists k | 0 <= k < m :: Mappable(files, groups[k]) && Holds(Before(files, groups, m, mode), {groups[k].id})
           && forall l | 0 <= l < m && l != k :: !Mappable(files, groups[l])
    decreases m
  {
    var files := Directory({s});
    DirectoryHolds({s});
    hide OutcomeOf, AfterGroup, FilesAfter, Directory, Holds, Ascending;
    BeforeStart(files, groups, mode);
    if m > 0 {
      SingleFile(s, groups, m - 1, mode);
      BeforeNext(files, groups, m - 1, mode);
      var before := Before(files, groups, m - 1, mode);
      assert OutcomeOf(before, groups[m - 1]) == OutcomeOf(files, groups[m - 1]);
      OutcomeByIds(files, {s}, groups[m - 1]);
      if Holds(before, {s}) && forall k | 0 <= k < m - 1 :: !Mappable(files, groups[k]) {
        StepByIds(before, {s}, groups[m - 1], mode);
        if Mappable(files, groups[m - 1]) {
          assert IdsAfter({s}, groups[m - 1], OutcomeOf(files, groups[m - 1]), mode) == {groups[m - 1].id};
        }
      } else {
        var k :| 0 <= k < m - 1 && Mappable(files, groups[k]) && Holds(before, {groups[k].id})
          && forall l | 0 <= l < m - 1 && l != k :: !Mappable(files, groups[l]);
        OutcomeByIds(files, {s}, groups[k]);
        OutcomeByIds(before, {groups[k].id}, groups[m - 1]);
        StepByIds(before, {groups[k].id}, groups[m - 1], mode);
        assert !Mappable(files, groups[m - 1]);
      }
    }
  }

  lemma BeforeStart(files: Files, groups: seq<Group>, mode: Mode)
    ensures Before(files, groups, 0, mode) == files
  {
    assert groups[..0] == [];
  }

  /** `i` cannot take the file of a later `j` that is to be skipped. */
  lemma TakenThenSkipped(files: Files, ids: set<string>, groups: seq<Group>, i: nat, j: nat, mode: Mode)
    requires i < j < |groups| && Live(groups, mode) && !mode.copy && Holds(files, ids)
    requires Mappable(files, groups[i]) && OutcomeOf(files, groups[i]).row.canonicalId == groups[j].id
    requires OutcomeOf(files, groups[j]).Skipped?
    ensures !OutcomesAgree(files, groups, mode)
  {
    if OutcomesAgree(files, groups, mode) {
      AgreesAt(files, groups, i, mode);
      AgreesAt(files, groups, j, mode);
      var before := Before(files, groups, i, mode);
      BeforeNext(files, groups, i, mode);
      MapsFrom(before, groups[i]);
      IdsDiffer(groups);
      NamesDiffer(groups[i].id, groups[j].id);
      assert groups[j].id + SUFFIX !in Before(files, groups, i + 1, mode);
      NotBack(files, groups, i + 1, j, j, mode);
    }
  }

  lemma AgreesAt(files: Files, groups: seq<Group>, k: nat, mode: Mode)
    requires k < |groups| && OutcomesAgree(files, groups, mode)
    ensures OutcomeOf(Before(files, groups, k, mode), groups[k]) == OutcomeOf(files, groups[k])
  {
  }

  /** Only an id's own step brings its file. */
  lemma {:induction false} NotBack(files: Files, groups: seq<Group>, m: nat, n: nat, j: nat, mode: Mode)
    requires m <= n <= |groups| && j < |groups| && Ascending(groups) && (j >= n || j < m)
    requires groups[j].id + SUFFIX !in Before(files, groups, m, mode)
    ensures groups[j].id + SUFFIX !in Before(files, groups, n, mode)
    decreases n
  {
    hide OutcomeOf, FilesAfter, Ascending;
    if m < n {
      NotBack(files, groups, m, n - 1, j, mode);
      BeforeNext(files, groups, n - 1, mode);
      IdsDiffer(groups);
      NamesDiffer(groups[n - 1].id, groups[j].id);
    }
  }

  /** A directory in which the two clash. */
  lemma SharedClash(groups: seq<Group>, i: nat, j: nat, c: string, mode: Mode)
    requires Live(groups, mode) && !mode.copy && Clash(groups, i, j, c)
    requires Takes(groups[i], c) && c != groups[i].id && c != groups[j].id
    ensures !OutcomesAgree(Directory({c}), groups, mode)
  {
    var files := Directory({c});
    DirectoryHolds({c});
    OutcomeByIds(files, {c}, groups[i]);
    OutcomeByIds(files, {c}, groups[j]);
    hide Directory, OutcomeOf, Holds, IsSafeFileId, Ascending;
    if OutcomesAgree(files, groups, mode) { SingleFile(c, groups, |groups|, mode); }
  }

  /** Two ids, each the other's source: the first takes the second's file, and
      the second takes it back. */
  lemma CycleClash(groups: seq<Group>, i: nat, j: nat, mode: Mode)
    requires i < |groups| && j < |groups| && i < j && Live(groups, mode) && !mode.copy
    requires IsSafeFileId(groups[i].id) && IsSafeFileId(groups[j].id)
    requires Takes(groups[i], groups[j].id) && Takes(groups[j], groups[i].id)
    ensures !OutcomesAgree(Directory({groups[j].id}), groups, mode)
  {
    var b := groups[j].id;
    var files := Directory({b});
    DirectoryHolds({b});
    IdsDiffer(groups);
    OutcomeByIds(files, {b}, groups[i]);
    OutcomeByIds(files, {b}, groups[j]);
    hide Directory, OutcomeOf, Holds, IsSafeFileId, Ascending;
    if OutcomesAgree(files, groups, mode) {
      AgreesAt(files, groups, j, mode);
      assert Mappable(files, groups[i]);
      SingleFile(b, groups, j, mode);
      OutcomeByIds(Before(files, groups, j, mode), {groups[i].id}, groups[j]);
    }
  }

  /** `j` comes first and places the file that `i` then takes. */
  lemma LaterTakes(groups: seq<Group>, i: nat, j: nat, c: string, mode: Mode)
    requires Live(groups, mode) && !mode.copy && Clash(groups, i, j, c) && j < i
    requires Takes(groups[i], groups[j].id) && c != groups[j].id && (c == groups[i].id || !Takes(groups[i], c))
    ensures !OutcomesAgree(Directory({c}), groups, mode)
  {
    var files := Directory({c});
    DirectoryHolds({c});
    IdsDiffer(groups);
    OutcomeByIds(files, {c}, groups[i]);
    OutcomeByIds(files, {c}, groups[j]);
    hide Directory, OutcomeOf, Holds, IsSafeFileId, Ascending;
    if OutcomesAgree(files, groups, mode) {
      AgreesAt(files, groups, i, mode);
      assert Mappable(files, groups[j]);
      SingleFile(c, groups, i, mode);
      OutcomeByIds(Before(files, groups, i, mode), {groups[j].id}, groups[i]);
    }
  }

  /** `i` comes first and takes the file that `j` would be skipped for. */
  lemma EarlierTakes(groups: seq<Group>, i: nat, j: nat, c: string, mode: Mode)
    requires Live(groups, mode) && !mode.copy && Clash(groups, i, j, c) && i < j
    requires Takes(groups[i], groups[j].id) && c != groups[i].id && (c == groups[j].id || !Takes(groups[i], c))
    ensures !OutcomesAgree(Directory({groups[j].id, c}), groups, mode)
  {
    var ids := {groups[j].id, c};
    var files := Directory(ids);
    DirectoryHolds(ids);
    IdsDiffer(groups);
    OutcomeByIds(files, ids, groups[i]);
    OutcomeByIds(files, ids, groups[j]);
    hide Directory, OutcomeOf, Holds, IsSafeFileId, Ascending;
    TakenThenSkipped(files, ids, groups, i, j, mode);
  }

  lemma ClashShows(groups: seq<Group>, i: nat, j: nat, c: string, mode: Mode)
    requires Live(groups, mode) && !mode.copy && Clash(groups, i, j, c)
    ensures exists files :: !OutcomesAgree(files, groups, mode)
  {
    hide OutcomesAgree, Directory, IsSafeFileId;
    if Takes(groups[i], c) && c != groups[i].id && c != groups[j].id {
      SharedClash(groups, i, j, c, mode);
    } else if j < i {
      LaterTakes(groups, i, j, c, mode);
    } else if c == groups[i].id {
      CycleClash(groups, i, j, mode);
    } else {
      EarlierTakes(groups, i, j, c, mode);
    }
  }

  lemma UnclashedAgree(files: Files, groups: seq<Group>, mode: Mode)
    requires Ascending(groups) && !mode.copy && NoClash(groups)
    ensures OutcomesAgree(files, groups, mode)
  {
    hide NoClash, OutcomeOf, FilesAfter, Before, AlikeIfAny, Ascending;
    forall k | 0 <= k < |groups| ensures OutcomeOf(Before(files, groups, k, mode), groups[k]) == OutcomeOf(files, groups[k]) {
      UnclashedBefore(files, groups, k, k, mode);
      AlikeIfAnyOutcome(files, Before(files, groups, k, mode), groups[k]);
    }
  }

  /** The dry run reports what the real run will, flag and warnings aside. */
  ghost predicate Foretells(files: Files, rows: seq<MappingRow>, live: Mode, dry: Mode) {
    forall files', report, files'', report'
      | Ran(files, rows, live, files', report) && Ran(files, rows, dry, files'', report') :: Plain(report) == Plain(report')
  }

  lemma {:induction false} SortedNames(names: set<string>) returns (sorted: seq<string>)
    ensures Sorted(sorted) && forall name :: name in sorted <==> name in names
    decreases |names|
  {
    if names == {} {
      sorted := [];
    } else {
      var last := Member(names);
      var rest := SortedNames(names - {last});
      sorted := WithName(rest, last, |rest|);
    }
  }

  lemma {:induction false} WithName(names: seq<string>, name: string, k: nat) returns (sorted: seq<string>)
    requires Sorted(names) && name !in names && k <= |names| && forall i | k <= i < |names| :: StrLess(name, names[i])
    ensures Sorted(sorted) && forall x :: x in sorted <==> x in names || x == name
    decreases k
  {
    if k > 0 { StrLessTotal(names[k - 1], name); }
    if k > 0 && StrLess(name, names[k - 1]) {
      sorted := WithName(names, name, k - 1);
    } else {
      sorted := names[..k] + [name] + names[k..];
      forall i | 0 <= i < k ensures StrLess(names[i], name) {
        if i < k - 1 { StrLessTransitive(names[i], names[k - 1], name); }
      }
      hide StrLess;
      forall x ensures x in sorted <==> x in names || x == name { assert names == names[..k] + names[k..]; }
    }
  }

  /** Every run ends, with the files and the report that its groups determine. */
  lemma RunOf(files: Files, rows: seq<MappingRow>, groups: seq<Group>, mode: Mode) returns (report: Report)
    requires Grouped(groups, rows)
    ensures Ran(files, rows, mode, FilesAfter(files, groups, mode), report)
    ensures report.(orphans := []) == ReportAfter(files, groups, mode, StartOf(rows, groups, mode))
  {
    hide Grouped, FilesAfter, ReportAfter, StrLess;
    var after := FilesAfter(files, groups, mode);
    var names := set name | name in after && IsOrphan(after, rows, name);
    var orphans := SortedNames(names);
    var counted := ReportAfter(files, groups, mode, StartOf(rows, groups, mode));
    NoOrphansYet(files, groups, mode, StartOf(rows, groups, mode));
    report := counted.(orphans := orphans);
    assert report.(orphans := []) == counted;
    hide IsOrphan;
  }

  lemma {:induction false} NoOrphansYet(files: Files, groups: seq<Group>, mode: Mode, start: Report)
    requires start.orphans == []
    ensures ReportAfter(files, groups, mode, start).orphans == []
    decreases |groups|
  {
    hide OutcomeOf, FilesAfter;
    if groups != [] { NoOrphansYet(files, groups[..|groups| - 1], mode, start); }
  }

  /** What any run's report is, but for the orphans. */
  lemma ReportOf(files: Files, rows: seq<MappingRow>, groups: seq<Group>, mode: Mode, files': Files, report: Report)
    requires Grouped(groups, rows) && Ran(files, rows, mode, files', report)
    ensures files' == FilesAfter(files, groups, mode)
    ensures report.(orphans := []) == ReportAfter(files, groups, mode, StartOf(rows, groups, mode))
    ensures AreOrphans(report.orphans, files, rows)
  {
    hide Grouped, ReportAfter, IsOrphan, StrLess, FilesAfter;
    var own := RanWith(files, rows, mode, files', report);
    GroupsUnique(groups, own, rows);
    GroupsFromRows(groups, rows);
    hide FromRows;
    forall name ensures IsOrphan(files', rows, name) <==> IsOrphan(files, rows, name) {
      OrphansStay(files, groups, rows, mode, name);
    }
  }

  lemma ForetellsWhenAgree(files: Files, groups: seq<Group>, rows: seq<MappingRow>, live: Mode, dry: Mode)
    requires Grouped(groups, rows) && live.copy == dry.copy && dry.dryRun
    ensures Foretells(files, rows, live, dry) <==> OutcomesAgree(files, groups, live)
  {
    GroupedOwnRows(groups, rows);
    GroupedAscending(groups, rows);
    var start, start' := StartOf(rows, groups, live), StartOf(rows, groups, dry);
    hide OutcomesAgree, ReportAfter, OwnRows, Ascending, Ran, Grouped, FilesAfter;
    ReportsAgree(files, groups, live, dry, start, start');
    var told, foretold := ReportAfter(files, groups, live, start), ReportAfter(files, groups, dry, start');
    if Plain(told) == Plain(foretold) {
      forall files', report, files'', report'
        | Ran(files, rows, live, files', report) && Ran(files, rows, dry, files'', report')
        ensures Plain(report) == Plain(report')
      {
        ReportOf(files, rows, groups, live, files', report);
        ReportOf(files, rows, groups, dry, files'', report');
        SamePlain(report, report', files, rows);
      }
    } else {
      var report := RunOf(files, rows, groups, live);
      var report' := RunOf(files, rows, groups, dry);
      assert Plain(report).(orphans := []) == Plain(told) && Plain(report').(orphans := []) == Plain(foretold);
    }
  }

  lemma SamePlain(report: Report, report': Report, files: Files, rows: seq<MappingRow>)
    requires AreOrphans(report.orphans, files, rows) && AreOrphans(report'.orphans, files, rows)
    requires Plain(report.(orphans := [])) == Plain(report'.(orphans := []))
    ensures Plain(report) == Plain(report')
  {
    hide IsOrphan;
    SortedUnique(report.orphans, report'.orphans);
    assert Plain(report).(orphans := []) == Plain(report.(orphans := []));
    assert Plain(report').(orphans := []) == Plain(report'.(orphans := []));
  }

  /** Renaming does in every directory what its dry run reports exactly when no
      two ids get in each other's way. */
  lemma DryRenameExactly(groups: seq<Group>, rows: seq<MappingRow>, live: Mode, dry: Mode)
    requires Grouped(groups, rows) && !live.copy && !live.dryRun && !dry.copy && dry.dryRun
    ensures (forall files :: Foretells(files, rows, live, dry)) <==> NoClash(groups)
  {
    hide Clash, OutcomesAgree, Foretells;
    forall files ensures Foretells(files, rows, live, dry) <==> OutcomesAgree(files, groups, live) {
      ForetellsWhenAgree(files, groups, rows, live, dry);
    }
    if i, j, c :| Clash(groups, i, j, c) {
      ClashShows(groups, i, j, c, live);
    } else {
      forall files ensures OutcomesAgree(files, groups, live) { UnclashedAgree(files, groups, live); }
    }
  }

  /** For safe rows that are not chained, that means that no source is shared. */
  lemma UnchainedClash(groups: seq<Group>, rows: seq<MappingRow>)
    requires Grouped(groups, rows) && Unchained(rows)
    requires forall r | r in rows :: IsSafeFileId(r.driveFileId) && IsSafeFileId(r.canonicalId)
    ensures NoClash(groups) <==> Unshared(rows)
  {
    hide IsSafeFileId;
    if !NoClash(groups) {
      var i: nat, j: nat, c: string :| Clash(groups, i, j, c);
      ClashShares(groups, rows, i, j, c);
    }
    if r, q :| r in rows && q in rows && r.driveFileId != q.driveFileId && r.canonicalId == q.canonicalId {
      var i := GroupOf(groups, rows, r);
      var j := GroupOf(groups, rows, q);
      assert Takes(groups[i], r.canonicalId) && Takes(groups[j], r.canonicalId);
      assert Clash(groups, i, j, r.canonicalId);
    }
  }

  lemma ClashShares(groups: seq<Group>, rows: seq<MappingRow>, i: nat, j: nat, c: string)
    requires Grouped(groups, rows) && Unchained(rows) && Clash(groups, i, j, c)
    ensures !Unshared(rows)
  {
    GroupsFromRows(groups, rows);
    GroupConditions(groups, rows);
    assert FromRows(groups[i], rows) && FromRows(groups[j], rows);
    hide IsSafeFileId, Grouped;
    var q :| q in groups[j].rows && q.canonicalId == c;
    assert !Takes(groups[i], groups[j].id);
    var r :| r in groups[i].rows && r.canonicalId == c;
    assert NoChains(groups) && q.driveFileId == groups[j].id && r.driveFileId == groups[i].id;
    hide Unchained;
    GroupIdsDiffer(groups, rows, i, j);
  }

  lemma GroupIdsDiffer(groups: seq<Group>, rows: seq<MappingRow>, i: nat, j: nat)
    requires Grouped(groups, rows) && i < |groups| && j < |groups| && i != j
    ensures groups[i].id != groups[j].id
  {
    IdsDiffer(groups);
  }

  // ---------- dry runs of copying ----------

  /** Some row for the source `id` wins over all rows for the source `c`: the
      last of the highest versions is chosen. */
  ghost predicate Prefers(group: Group, id: string, c: string) {
    exists p | 0 <= p < |group.rows| && group.rows[p].canonicalId == id ::
      forall q | 0 <= q < |group.rows| && group.rows[q].canonicalId == c :: Loses(group.rows, q, p)
  }

  predicate Loses(rows: seq<MappingRow>, q: nat, p: nat)
    requires q < |rows| && p < |rows|
  {
    rows[q].parserVersion < rows[p].parserVersion || (rows[q].parserVersion == rows[p].parserVersion && q < p)
  }

  /** `k` takes the file of the earlier `i`, which has another source `c`, rather
      than take `c` itself. */
  ghost predicate Feeds(groups: seq<Group>, i: nat, k: nat, c: string) {
    && i < k < |groups| && IsSafeFileId(groups[i].id) && IsSafeFileId(groups[k].id) && IsSafeFileId(c)
    && Takes(groups[k], groups[i].id) && Takes(groups[i], c) && c != groups[i].id
    && (!Takes(groups[k], c) || (c != groups[k].id && Prefers(groups[k], groups[i].id, c)))
  }

  lemma CopyStepIds(files: Files, groups: seq<Group>, i: nat, mode: Mode)
    requires i < |groups| && mode.copy
    ensures forall name | name in files :: name in AfterGroup(files, groups[i], mode)
    ensures forall id | id != groups[i].id :: id + SUFFIX in AfterGroup(files, groups[i], mode) <==> id + SUFFIX in files
  {
    if OutcomeOf(files, groups[i]).Mapped? {
      MapsFrom(files, groups[i]);
      forall id | id != groups[i].id ensures id + SUFFIX != groups[i].id + SUFFIX { NamesDiffer(id, groups[i].id); }
    }
  }

  /** Two best rows are the same. */
  lemma BestUnique(files: Files, rows: seq<MappingRow>, k: nat, l: nat)
    requires IsBest(files, rows, k) && IsBest(files, rows, l)
    ensures k == l
  {
  }

  /** A new file that is not preferred to one already there is not chosen. */
  lemma NewSourceIgnored(files: Files, files': Files, group: Group, id: string, s: string)
    requires forall r | r in group.rows :: Present(files', r) <==> Present(files, r) || r.canonicalId == id
    requires forall r | r in group.rows && r.canonicalId == s :: Present(files, r)
    requires Takes(group, s) && !Prefers(group, id, s)
    ensures Chosen(files', group.rows) == Chosen(files, group.rows)
  {
    var rows := group.rows;
    ChosenIsBest(files, rows);
    ChosenIsBest(files', rows);
    hide Present, Chosen;
    var r :| r in rows && r.canonicalId == s;
    var at :| 0 <= at < |rows| && rows[at] == r;
    var k: nat :| k < |rows| && IsBest(files, rows, k) && rows[k] == Chosen(files, rows).value;
    forall j | 0 <= j < |rows| && Present(files', rows[j]) && j != k ensures Loses(rows, j, k) {
      if !Present(files, rows[j]) {
        assert rows[j] in rows && rows[j].canonicalId == id;
        var q :| 0 <= q < |rows| && rows[q].canonicalId == s && !Loses(rows, q, j);
        assert rows[q] in rows;
      }
    }
    assert rows[k] in rows && IsBest(files', rows, k);
    var l: nat :| l < |rows| && IsBest(files', rows, l) && rows[l] == Chosen(files', rows).value;
    BestUnique(files', rows, k, l);
  }

  lemma UnfedStep(files: Files, groups: seq<Group>, i: nat, k: nat, mode: Mode)
    requires i < k < |groups| && groups[i].id != groups[k].id && mode.copy && forall c :: !Feeds(groups, i, k, c)
    ensures OutcomeOf(AfterGroup(files, groups[i], mode), groups[k]) == OutcomeOf(files, groups[k])
  {
    CopyStepIds(files, groups, i, mode);
    var files' := AfterGroup(files, groups[i], mode);
    if OutcomeOf(files, groups[i]).Mapped? && !mode.dryRun && IsSafeFileId(groups[k].id) {
      MapsFrom(files, groups[i]);
      ChosenPresent(files, groups[i].rows);
      var s, a := OutcomeOf(files, groups[i]).row.canonicalId, groups[i].id;
      assert !Feeds(groups, i, k, s) && Takes(groups[i], s) && IsSafeFileId(a) && IsSafeFileId(s) && s != a;
      hide OutcomeOf, AfterGroup, Prefers, Feeds;
      forall r | r in groups[k].rows ensures Present(files', r) <==> Present(files, r) || r.canonicalId == a {}
      hide IsSafeFileId;
      if !Takes(groups[k], a) {
        AlikeOutcome(files, files', groups[k]);
      } else if s == groups[k].id {
        StaysSkipped(files, files', groups[k]);
      } else {
        NewSourceIgnored(files, files', groups[k], a, s);
        SameChoice(files, files', groups[k]);
      }
    }
  }

  lemma StaysSkipped(files: Files, files': Files, group: Group)
    requires IsSafeFileId(group.id) && Takes(group, group.id) && group.id + SUFFIX in files && group.id + SUFFIX in files'
    ensures OutcomeOf(files, group) == OutcomeOf(files', group) == Skipped
  {
    NotMissing(files, group, group.id);
    NotMissing(files', group, group.id);
  }

  lemma SameChoice(files: Files, files': Files, group: Group)
    requires Chosen(files, group.rows) == Chosen(files', group.rows)
    requires group.id + SUFFIX in files <==> group.id + SUFFIX in files'
    ensures OutcomeOf(files, group) == OutcomeOf(files', group)
  {
  }

  lemma {:induction false} UnfedBefore(files: Files, groups: seq<Group>, m: nat, k: nat, mode: Mode)
    requires m <= k < |groups| && Ascending(groups) && mode.copy && forall i, c :: !Feeds(groups, i, k, c)
    ensures OutcomeOf(Before(files, groups, m, mode), groups[k]) == OutcomeOf(files, groups[k])
    decreases m
  {
    hide AfterGroup, FilesAfter, OutcomeOf, Feeds;
    if m == 0 {
      BeforeNext(files, groups, k, mode);
    } else {
      UnfedBefore(files, groups, m - 1, k, mode);
      BeforeNext(files, groups, m - 1, mode);
      IdsDiffer(groups);
      UnfedStep(Before(files, groups, m - 1, mode), groups, m - 1, k, mode);
    }
  }

  lemma {:induction false} CopyKeepsIds(files: Files, groups: seq<Group>, m: nat, n: nat, mode: Mode)
    requires m <= n <= |groups| && mode.copy
    ensures forall name | name in Before(files, groups, m, mode) :: name in Before(files, groups, n, mode)
    decreases n
  {
    hide AfterGroup, FilesAfter, Before;
    if m < n {
      CopyKeepsIds(files, groups, m, n - 1, mode);
      BeforeNext(files, groups, n - 1, mode);
      CopyStepIds(Before(files, groups, n - 1, mode), groups, n - 1, mode);
    }
  }

  lemma FeedsShows(groups: seq<Group>, i: nat, k: nat, c: string, mode: Mode)
    requires Live(groups, mode) && mode.copy && Feeds(groups, i, k, c)
    ensures !OutcomesAgree(Directory({c}), groups, mode)
  {
    var files := Directory({c});
    DirectoryHolds({c});
    OutcomeByIds(files, {c}, groups[i]);
    OutcomeByIds(files, {c}, groups[k]);
    if OutcomesAgree(files, groups, mode) {
      AgreesAt(files, groups, i, mode);
      AgreesAt(files, groups, k, mode);
      BeforeNext(files, groups, i, mode);
      CopyKeepsIds(files, groups, i + 1, k, mode);
      var before := Before(files, groups, k, mode);
      hide OutcomeOf, FilesAfter, Directory, IsSafeFileId, Holds, Before, OutcomesAgree;
      NotMissing(before, groups[k], groups[i].id);
      if Takes(groups[k], c) { ChoosesPreferred(before, groups[k], groups[i].id, c); }
    }
  }

  lemma ChoosesPreferred(files: Files, group: Group, id: string, c: string)
    requires Prefers(group, id, c) && IsSafeFileId(id) && id + SUFFIX in files && OutcomeOf(files, group).Mapped?
    ensures OutcomeOf(files, group).row.canonicalId != c
  {
    ChosenIsBest(files, group.rows);
    hide IsSafeFileId, Chosen;
  }

  lemma NotMissing(files: Files, group: Group, id: string)
    requires IsSafeFileId(group.id) && IsSafeFileId(id) && Takes(group, id) && id + SUFFIX in files
    ensures !OutcomeOf(files, group).Missing?
  {
    ChosenIsBest(files, group.rows);
    var r :| r in group.rows && r.canonicalId == id;
    var j :| 0 <= j < |group.rows| && group.rows[j] == r;
  }

  /** Copying does in every directory what its dry run reports exactly when no id
      feeds a later one. */
  lemma DryCopyExactly(groups: seq<Group>, rows: seq<MappingRow>, live: Mode, dry: Mode)
    requires Grouped(groups, rows) && live.copy && !live.dryRun && dry.copy && dry.dryRun
    ensures (forall files :: Foretells(files, rows, live, dry)) <==> forall i, k, c :: !Feeds(groups, i, k, c)
  {
    hide Feeds, OutcomesAgree, Foretells, Directory;
    forall files ensures Foretells(files, rows, live, dry) <==> OutcomesAgree(files, groups, live) {
      ForetellsWhenAgree(files, groups, rows, live, dry);
    }
    if i, k, c :| Feeds(groups, i, k, c) {
      FeedsShows(groups, i, k, c, live);
    } else {
      forall files ensures OutcomesAgree(files, groups, live) { UnfedAgree(files, groups, live); }
    }
  }

  lemma UnfedAgree(files: Files, groups: seq<Group>, mode: Mode)
    requires Ascending(groups) && mode.copy && forall i, k, c :: !Feeds(groups, i, k, c)
    ensures OutcomesAgree(files, groups, mode)
  {
    hide Feeds, OutcomeOf, FilesAfter, Before, Ascending;
    forall k | 0 <= k < |groups| ensures OutcomeOf(Before(files, groups, k, mode), groups[k]) == OutcomeOf(files, groups[k]) {
      UnfedBefore(files, groups, k, k, mode);
    }
  }

  // ---------- second runs ----------

  /** Any second run over what the first left changes no file and reports no mapping. */
  ghost predicate Settles(files: Files, rows: seq<MappingRow>, first: Mode) {
    forall files', report, second, files'', report'
      | Ran(files, rows, first, files', report) && Ran(files', rows, second, files'', report') ::
        files'' == files' && report'.mapped == []
  }

  /** Nothing can be mapped in what a run leaves. */
  ghost predicate Idle(files: Files, groups: seq<Group>, mode: Mode) { NoneMappable(FilesAfter(files, groups, mode), groups) }

  lemma SettlesWhenIdle(files: Files, groups: seq<Group>, rows: seq<MappingRow>, first: Mode)
    requires Grouped(groups, rows)
    ensures Settles(files, rows, first) <==> Idle(files, groups, first)
  {
    hide Ran, Grouped, FilesAfter, ReportAfter, NoneMappable, IsOrphan, StrLess;
    var after := FilesAfter(files, groups, first);
    if Idle(files, groups, first) {
      forall files', report, second, files'', report'
        | Ran(files, rows, first, files', report) && Ran(files', rows, second, files'', report')
        ensures files'' == files' && report'.mapped == []
      {
        ReportOf(files, rows, groups, first, files', report);
        ReportOf(files', rows, groups, second, files'', report');
        MapsNothing(files', groups, second, StartOf(rows, groups, second));
        assert report'.(orphans := []).mapped == report'.mapped;
      }
    } else {
      var report := RunOf(files, rows, groups, first);
      var report' := RunOf(after, rows, groups, first);
      MapsNothing(after, groups, first, StartOf(rows, groups, first));
      assert report'.(orphans := []).mapped == report'.mapped;
    }
  }

  /** Each id has one source, as in a database whose games are keyed by id
      (src/rekey_cache.rs:429-440). */
  ghost predicate OneSource(groups: seq<Group>) {
    forall k, r, q | 0 <= k < |groups| && r in groups[k].rows && q in groups[k].rows :: r.canonicalId == q.canonicalId
  }

  /** `i` takes the file of `j`, which has another source `c`. */
  ghost predicate Chained(groups: seq<Group>, i: nat, j: nat, c: string) {
    && i < |groups| && j < |groups| && i != j && IsSafeFileId(groups[i].id) && IsSafeFileId(groups[j].id) && IsSafeFileId(c)
    && Takes(groups[i], groups[j].id) && Takes(groups[j], c) && c != groups[j].id
  }

  ghost predicate NoneChained(groups: seq<Group>) { forall i, j, c :: !Chained(groups, i, j, c) }

  lemma DoneStays(files: Files, groups: seq<Group>, i: nat, k: nat, mode: Mode)
    requires i < |groups| && k < |groups| && i != k && groups[i].id != groups[k].id
    requires NoneChained(groups) && Done(files, groups[k])
    ensures Done(AfterGroup(files, groups[i], mode), groups[k])
  {
    if OutcomeOf(files, groups[i]).Mapped? && IsSafeFileId(groups[k].id) && !mode.dryRun {
      MapsFrom(files, groups[i]);
      ChosenPresent(files, groups[i].rows);
      var a, s, b := groups[i].id, OutcomeOf(files, groups[i]).row.canonicalId, groups[k].id;
      var after := AfterGroup(files, groups[i], mode);
      assert Takes(groups[i], s) && s != a;
      assert !Chained(groups, k, i, s);
      hide OutcomeOf;
      NamesDiffer(a, b);
      NamesDiffer(s, b);
      if b + SUFFIX !in after {
        forall r | r in groups[k].rows ensures !Present(after, r) {
          NamesDiffer(r.canonicalId, a);
          NamesDiffer(r.canonicalId, s);
          assert Takes(groups[k], r.canonicalId);
          assert !Chained(groups, i, k, r.canonicalId);
        }
      }
    }
  }

  lemma {:induction false} UnchainedDone(files: Files, groups: seq<Group>, m: nat, k: nat, mode: Mode)
    requires k < m <= |groups| && Live(groups, mode) && NoneChained(groups)
    ensures Done(Before(files, groups, m, mode), groups[k])
    decreases m
  {
    hide AfterGroup, FilesAfter, Present, NoneChained, Done;
    BeforeNext(files, groups, m - 1, mode);
    if k == m - 1 {
      OwnStepIsDone(Before(files, groups, m - 1, mode), groups[k], mode);
    } else {
      UnchainedDone(files, groups, m - 1, k, mode);
      IdsDiffer(groups);
      DoneStays(Before(files, groups, m - 1, mode), groups, m - 1, k, mode);
    }
  }

  lemma UnchainedIdle(files: Files, groups: seq<Group>, mode: Mode)
    requires Live(groups, mode) && NoneChained(groups)
    ensures Idle(files, groups, mode)
  {
    hide NoneChained, Done, Mappable, FilesAfter, Ascending;
    forall k | 0 <= k < |groups| ensures !Mappable(FilesAfter(files, groups, mode), groups[k]) {
      UnchainedDone(files, groups, |groups|, k, mode);
      BeforeNext(files, groups, k, mode);
      DoneIsUnmappable(FilesAfter(files, groups, mode), groups[k]);
    }
  }

  function SafeIds(groups: seq<Group>): set<string> { set g | g in groups && IsSafeFileId(g.id) :: g.id }

  /** The id would stay as it is in a directory of these ids. */
  predicate Rests(group: Group, ids: set<string>) {
    !IsSafeFileId(group.id) || group.id in ids || !Sourced(group, ids)
  }

  lemma {:induction false} RestsThrough(files: Files, ids: set<string>, groups: seq<Group>, m: nat, n: nat, mode: Mode)
    requires m <= n <= |groups| && Holds(Before(files, groups, m, mode), ids)
    requires forall k | m <= k < n :: Rests(groups[k], ids)
    ensures Holds(Before(files, groups, n, mode), ids)
    decreases n
  {
    hide OutcomeOf, AfterGroup, FilesAfter, Before, Holds, Sourced, IsSafeFileId;
    if m < n {
      RestsThrough(files, ids, groups, m, n - 1, mode);
      BeforeNext(files, groups, n - 1, mode);
      OutcomeByIds(Before(files, groups, n - 1, mode), ids, groups[n - 1]);
      StepByIds(Before(files, groups, n - 1, mode), ids, groups[n - 1], mode);
    }
  }

  /** One step that renames `c`, the id's only source. */
  lemma Renames(files: Files, ids: set<string>, groups: seq<Group>, k: nat, c: string, mode: Mode)
    requires k < |groups| && Holds(Before(files, groups, k, mode), ids) && OneSource(groups) && !mode.copy && !mode.dryRun
    requires IsSafeFileId(groups[k].id) && groups[k].id !in ids && IsSafeFileId(c) && Takes(groups[k], c) && c in ids
    ensures Holds(Before(files, groups, k + 1, mode), ids - {c} + {groups[k].id})
  {
    BeforeNext(files, groups, k, mode);
    OutcomeByIds(Before(files, groups, k, mode), ids, groups[k]);
    StepByIds(Before(files, groups, k, mode), ids, groups[k], mode);
    hide OutcomeOf, AfterGroup, FilesAfter, Before, Holds, IsSafeFileId;
  }

  lemma EndsMappable(files: Files, ids: set<string>, groups: seq<Group>, k: nat, c: string, mode: Mode)
    requires k < |groups| && Holds(Before(files, groups, |groups|, mode), ids)
    requires IsSafeFileId(groups[k].id) && groups[k].id !in ids && IsSafeFileId(c) && Takes(groups[k], c) && c in ids
    ensures !Idle(files, groups, mode)
  {
    BeforeNext(files, groups, k, mode);
    OutcomeByIds(FilesAfter(files, groups, mode), ids, groups[k]);
    hide OutcomeOf, Holds, IsSafeFileId;
    assert Mappable(FilesAfter(files, groups, mode), groups[k]);
  }

  lemma OnlySource(groups: seq<Group>, k: nat, c: string, ids: set<string>)
    requires k < |groups| && OneSource(groups) && Takes(groups[k], c) && c !in ids
    ensures !Sourced(groups[k], ids)
  {
  }

  lemma StartHolds(ids: set<string>, groups: seq<Group>, mode: Mode)
    ensures Holds(Before(Directory(ids), groups, 0, mode), ids)
  {
    BeforeStart(Directory(ids), groups, mode);
    DirectoryHolds(ids);
  }

  /** Whoever has its own file stays as it is. */
  lemma PresentRest(groups: seq<Group>, ids: set<string>, absent: set<string>)
    requires SafeIds(groups) - absent <= ids
    ensures forall k | 0 <= k < |groups| && groups[k].id !in absent :: Rests(groups[k], ids)
  {
    hide IsSafeFileId, Sourced;
    forall k | 0 <= k < |groups| && groups[k].id !in absent ensures Rests(groups[k], ids) {
      if IsSafeFileId(groups[k].id) { assert groups[k].id in SafeIds(groups); }
    }
  }

  /** The id `k` is mapped from `c`; before and after nothing moves, up to `n`. */
  lemma OneMove(files: Files, ids: set<string>, groups: seq<Group>, m: nat, k: nat, n: nat, c: string, mode: Mode)
    requires m <= k < n <= |groups| && Live(groups, mode) && !mode.copy && OneSource(groups)
    requires Holds(Before(files, groups, m, mode), ids)
    requires IsSafeFileId(groups[k].id) && groups[k].id !in ids && IsSafeFileId(c) && Takes(groups[k], c) && c in ids
    requires forall l | m <= l < k :: Rests(groups[l], ids)
    requires forall l | k < l < n :: Rests(groups[l], ids - {c} + {groups[k].id})
    ensures Holds(Before(files, groups, n, mode), ids - {c} + {groups[k].id})
  {
    hide OneSource, Ascending, Rests, Holds, Before, IsSafeFileId, Takes;
    RestsThrough(files, ids, groups, m, k, mode);
    Renames(files, ids, groups, k, c, mode);
    RestsThrough(files, ids - {c} + {groups[k].id}, groups, k + 1, n, mode);
  }

  /** `j` comes first and is skipped; `i` then takes its file. */
  lemma TakenAfterSkip(groups: seq<Group>, i: nat, j: nat, c: string, mode: Mode) returns (ids: set<string>)
    requires Live(groups, mode) && !mode.copy && OneSource(groups) && Chained(groups, i, j, c) && j < i && c != groups[i].id
    ensures !Idle(Directory(ids), groups, mode)
  {
    var a, b := groups[i].id, groups[j].id;
    ids := SafeIds(groups) + {c} - {a};
    var files := Directory(ids);
    var after := ids - {b} + {a};
    IdsDiffer(groups);
    PresentRest(groups, ids, {a});
    PresentRest(groups, after, {b});
    assert b in SafeIds(groups);
    hide OneSource, Ascending, Rests, SafeIds, Holds, Directory, Before, Idle, IsSafeFileId, Takes;
    StartHolds(ids, groups, mode);
    OneMove(files, ids, groups, 0, i, |groups|, b, mode);
    EndsMappable(files, after, groups, j, c, mode);
  }

  /** Each is the other's source. */
  lemma CycleRepeats(groups: seq<Group>, i: nat, j: nat, mode: Mode) returns (ids: set<string>)
    requires Live(groups, mode) && !mode.copy && OneSource(groups) && i < j < |groups|
    requires IsSafeFileId(groups[i].id) && IsSafeFileId(groups[j].id)
    requires Takes(groups[i], groups[j].id) && Takes(groups[j], groups[i].id)
    ensures !Idle(Directory(ids), groups, mode)
  {
    var a, b := groups[i].id, groups[j].id;
    ids := SafeIds(groups) - {a};
    var files := Directory(ids);
    var mid := ids - {b} + {a};
    IdsDiffer(groups);
    PresentRest(groups, ids, {a});
    PresentRest(groups, mid, {b});
    assert b in SafeIds(groups);
    assert mid - {a} + {b} == ids;
    hide OneSource, Ascending, Rests, SafeIds, Holds, Directory, Before, Idle, IsSafeFileId, Takes;
    StartHolds(ids, groups, mode);
    OneMove(files, ids, groups, 0, i, j, b, mode);
    OneMove(files, mid, groups, j, j, |groups|, a, mode);
    EndsMappable(files, ids, groups, i, b, mode);
  }

  /** `i` comes first, without its source; `j` then places it. */
  lemma PlacedTooLate(groups: seq<Group>, i: nat, j: nat, c: string, mode: Mode) returns (ids: set<string>)
    requires Live(groups, mode) && !mode.copy && OneSource(groups) && Chained(groups, i, j, c) && i < j && c != groups[i].id
    requires forall l, d | j < l < |groups| && groups[l].id == c && Takes(groups[l], d) && IsSafeFileId(d) :: d == c
    ensures !Idle(Directory(ids), groups, mode)
  {
    var a, b := groups[i].id, groups[j].id;
    ids := SafeIds(groups) + {c} - {a, b};
    var files := Directory(ids);
    TooLateRests(groups, i, j, c, ids);
    assert c in ids && a !in ids && b !in ids && a !in ids - {c} + {b} by { IdsDiffer(groups); }
    hide OneSource, Ascending, Rests, SafeIds, Holds, Directory, Before, Idle, IsSafeFileId, Takes;
    StartHolds(ids, groups, mode);
    OneMove(files, ids, groups, 0, j, |groups|, c, mode);
    EndsMappable(files, ids - {c} + {b}, groups, i, b, mode);
  }

  /** Nothing but `j` moves: `i` lacks its source, and others have their files. */
  lemma TooLateRests(groups: seq<Group>, i: nat, j: nat, c: string, ids: set<string>)
    requires Ascending(groups) && OneSource(groups) && Chained(groups, i, j, c) && i < j && c != groups[i].id
    requires forall l, d | j < l < |groups| && groups[l].id == c && Takes(groups[l], d) && IsSafeFileId(d) :: d == c
    requires ids == SafeIds(groups) + {c} - {groups[i].id, groups[j].id}
    ensures forall l | 0 <= l < j :: Rests(groups[l], ids)
    ensures forall l | j < l < |groups| :: Rests(groups[l], ids - {c} + {groups[j].id})
  {
    var a, b := groups[i].id, groups[j].id;
    var after := ids - {c} + {b};
    IdsDiffer(groups);
    PresentRest(groups, ids, {a, b});
    OnlySource(groups, i, b, ids);
    assert Rests(groups[i], ids);
    PresentRest(groups, after, {a, c});
    LostSourceRests(groups, j, c, after);
    hide OneSource, Ascending, Rests, SafeIds, IsSafeFileId, Takes;
  }

  /** A later id that only its own file could feed stays as it is without it. */
  lemma LostSourceRests(groups: seq<Group>, j: nat, c: string, ids: set<string>)
    requires c !in ids
    requires forall l, d | j < l < |groups| && groups[l].id == c && Takes(groups[l], d) && IsSafeFileId(d) :: d == c
    ensures forall l | j < l < |groups| && groups[l].id == c :: Rests(groups[l], ids)
  {
    hide IsSafeFileId;
    forall l | j < l < |groups| && groups[l].id == c ensures !Sourced(groups[l], ids) {
      forall r | r in groups[l].rows && IsSafeFileId(r.canonicalId) ensures r.canonicalId !in ids {
        assert Takes(groups[l], r.canonicalId);
      }
    }
  }

  lemma {:induction false} ChainRepeats(groups: seq<Group>, i: nat, j: nat, c: string, mode: Mode) returns (ids: set<string>)
    requires Live(groups, mode) && !mode.copy && OneSource(groups) && Chained(groups, i, j, c)
    ensures !Idle(Directory(ids), groups, mode)
    decreases |groups| - j
  {
    hide OneSource, Ascending, Idle, Directory, IsSafeFileId, Takes;
    if c == groups[i].id {
      if i < j { ids := CycleRepeats(groups, i, j, mode); } else { ids := CycleRepeats(groups, j, i, mode); }
    } else if j < i {
      ids := TakenAfterSkip(groups, i, j, c, mode);
    } else if l, d :| j < l < |groups| && groups[l].id == c && Takes(groups[l], d) && IsSafeFileId(d) && d != c {
      ids := ChainRepeats(groups, j, l, d, mode);
    } else {
      ids := PlacedTooLate(groups, i, j, c, mode);
    }
  }

  /** After renaming, every second run changes nothing in any directory if no ids
      are chained; with one source for each id, exactly then. */
  lemma SecondRenameExactly(groups: seq<Group>, rows: seq<MappingRow>, mode: Mode)
    requires Grouped(groups, rows) && !mode.copy && !mode.dryRun
    ensures NoneChained(groups) ==> forall files :: Settles(files, rows, mode)
    ensures OneSource(groups) ==> ((forall files :: Settles(files, rows, mode)) <==> NoneChained(groups))
  {
    hide Chained, Idle, OneSource, Directory, Settles;
    GroupedAscending(groups, rows);
    forall files ensures Settles(files, rows, mode) <==> Idle(files, groups, mode) { SettlesWhenIdle(files, groups, rows, mode); }
    hide Grouped, Ascending;
    if i, j, c :| Chained(groups, i, j, c) {
      if OneSource(groups) { var ids := ChainRepeats(groups, i, j, c, mode); }
    } else {
      forall files ensures Idle(files, groups, mode) { UnchainedIdle(files, groups, mode); }
    }
  }

  /** With several sources a chain can be harmless: `a` takes the file of `b` or
      `c`, and `b` that of `c`, yet every second run is idle. */
  lemma ChainedYetIdle(files: Files, groups: seq<Group>, a: string, b: string, c: string, v: int, w: int, x: int, mode: Mode)
    requires IsSafeFileId(a) && IsSafeFileId(b) && IsSafeFileId(c) && a != b && b != c && a != c && !mode.copy && !mode.dryRun
    requires groups == [Group(a, [MappingRow(a, b, v), MappingRow(a, c, w)]), Group(b, [MappingRow(b, c, x)])]
    ensures Chained(groups, 0, 1, c) && Idle(files, groups, mode)
  {
    var once, ids := Before(files, groups, 1, mode), IdsIn(files);
    IdsHeld(files);
    SourcesOf(groups[0], a, b, c, v, w);
    OnlySourceOf(groups[1], b, c, x);
    BeforeNext(files, groups, 0, mode);
    BeforeNext(files, groups, 1, mode);
    hide OutcomeOf, FilesAfter, Holds, IsSafeFileId, Sourced, IdsIn, Before, AfterGroup;
    var ids1 := OneRename(files, ids, groups[0], mode);
    var ids2 := OneRename(once, ids1, groups[1], mode);
    var after := FilesAfter(files, groups, mode);
    OutcomeByIds(after, ids2, groups[0]);
    OutcomeByIds(after, ids2, groups[1]);
    assert forall k | 0 <= k < |groups| :: !Mappable(after, groups[k]);
  }

  /** What one step of renaming does to the ids. */
  lemma OneRename(files: Files, ids: set<string>, group: Group, mode: Mode) returns (after: set<string>)
    requires Holds(files, ids) && IsSafeFileId(group.id) && !mode.copy && !mode.dryRun
    ensures Holds(AfterGroup(files, group, mode), after)
    ensures group.id in ids || !Sourced(group, ids) ==> after == ids
    ensures group.id !in ids && Sourced(group, ids) ==>
      exists s :: s in ids && Takes(group, s) && after == ids - {s} + {group.id}
  {
    OutcomeByIds(files, ids, group);
    StepByIds(files, ids, group, mode);
    after := IdsAfter(ids, group, OutcomeOf(files, group), mode);
    hide OutcomeOf, AfterGroup, Holds, Sourced, IsSafeFileId;
    if group.id !in ids && Sourced(group, ids) {
      var s := OutcomeOf(files, group).row.canonicalId;
      assert s in ids && Takes(group, s) && after == ids - {s} + {group.id};
    }
  }

  lemma OnlySourceOf(group: Group, b: string, c: string, x: int)
    requires group.rows == [MappingRow(b, c, x)] && IsSafeFileId(c)
    ensures forall ids :: Sourced(group, ids) <==> c in ids
    ensures forall s :: Takes(group, s) <==> s == c
  {
    assert group.rows[0] in group.rows;
  }

  lemma SourcesOf(group: Group, a: string, b: string, c: string, v: int, w: int)
    requires group.rows == [MappingRow(a, b, v), MappingRow(a, c, w)] && IsSafeFileId(b) && IsSafeFileId(c)
    ensures forall ids :: Sourced(group, ids) <==> b in ids || c in ids
    ensures forall s :: Takes(group, s) <==> s == b || s == c
  {
    assert group.rows[0] in group.rows && group.rows[1] in group.rows;
  }

  // ---------- second runs of copying ----------

  /** The ids of the files there. */
  function IdsIn(files: Files): set<string> {
    set name | name in files && |name| >= |SUFFIX| && name[|name| - |SUFFIX|..] == SUFFIX :: name[..|name| - |SUFFIX|]
  }

  lemma IdsHeld(files: Files)
    ensures Holds(files, IdsIn(files))
  {
    forall id ensures id + SUFFIX in files <==> id in IdsIn(files) {
      var name := id + SUFFIX;
      assert name[|name| - |SUFFIX|..] == SUFFIX && name[..|name| - |SUFFIX|] == id;
      if other :| other in files && |other| >= |SUFFIX| && other[|other| - |SUFFIX|..] == SUFFIX && other[..|other| - |SUFFIX|] == id {
        assert other == id + SUFFIX;
      }
    }
  }

  /** Each id of the trail comes after the one before and takes its file, the
      first that of `c`. */
  ghost predicate IsTrail(groups: seq<Group>, c: string, trail: seq<nat>) {
    && IsSafeFileId(c) && (forall t | 0 <= t < |trail| :: trail[t] < |groups| && IsSafeFileId(groups[trail[t]].id))
    && (trail != [] ==> Takes(groups[trail[0]], c))
    && (forall t | 0 <= t < |trail| - 1 :: trail[t] < trail[t + 1] && Takes(groups[trail[t + 1]], groups[trail[t]].id))
  }

  /** From the file of `c` alone, the first `n` ids bring about the file of `id`. */
  ghost predicate LeadsTo(groups: seq<Group>, c: string, n: nat, id: string) {
    id == c || exists trail :: EndsAt(groups, c, trail, n, id)
  }

  ghost predicate EndsAt(groups: seq<Group>, c: string, trail: seq<nat>, n: nat, id: string) {
    IsTrail(groups, c, trail) && trail != [] && trail[|trail| - 1] < n && groups[trail[|trail| - 1]].id == id
  }

  /** A source of `i` is brought about by then. */
  ghost predicate Fed(groups: seq<Group>, i: nat, c: string, n: nat)
    requires i < |groups|
  {
    exists id :: IsSafeFileId(id) && Takes(groups[i], id) && LeadsTo(groups, c, n, id)
  }

  /** From the file of `c`, a source of `i` is there only after the turn of `i`. */
  ghost predicate Late(groups: seq<Group>, i: nat, c: string) {
    i < |groups| && IsSafeFileId(groups[i].id) && groups[i].id != c && !Fed(groups, i, c, i) && Fed(groups, i, c, |groups|)
  }

  /** The ids there after the first `n` were copied. */
  function CopiedIds(groups: seq<Group>, ids: set<string>, n: nat): set<string>
    requires n <= |groups|
  {
    if n == 0 then ids
    else
      var before := CopiedIds(groups, ids, n - 1);
      if IsSafeFileId(groups[n - 1].id) && Sourced(groups[n - 1], before) then before + {groups[n - 1].id} else before
  }

  lemma {:induction false} CopyHolds(files: Files, ids: set<string>, groups: seq<Group>, n: nat, mode: Mode)
    requires n <= |groups| && mode.copy && !mode.dryRun && Holds(files, ids)
    ensures Holds(Before(files, groups, n, mode), CopiedIds(groups, ids, n))
    decreases n
  {
    hide OutcomeOf, AfterGroup, FilesAfter, Before, Holds, Sourced, IsSafeFileId;
    if n == 0 {
      BeforeStart(files, groups, mode);
    } else {
      CopyHolds(files, ids, groups, n - 1, mode);
      BeforeNext(files, groups, n - 1, mode);
      var before, held := Before(files, groups, n - 1, mode), CopiedIds(groups, ids, n - 1);
      OutcomeByIds(before, held, groups[n - 1]);
      StepByIds(before, held, groups[n - 1], mode);
      assert IdsAfter(held, groups[n - 1], OutcomeOf(before, groups[n - 1]), mode) == CopiedIds(groups, ids, n);
    }
  }

  lemma {:induction false} CopiesGrow(groups: seq<Group>, ids: set<string>, m: nat, n: nat)
    requires m <= n <= |groups|
    ensures CopiedIds(groups, ids, m) <= CopiedIds(groups, ids, n)
    decreases n
  {
    hide Sourced, IsSafeFileId;
    if m < n { CopiesGrow(groups, ids, m, n - 1); }
  }

  lemma {:induction false} MoreCopies(groups: seq<Group>, some: set<string>, ids: set<string>, n: nat)
    requires n <= |groups| && some <= ids
    ensures CopiedIds(groups, some, n) <= CopiedIds(groups, ids, n)
  {
    hide IsSafeFileId;
    if n > 0 { MoreCopies(groups, some, ids, n - 1); }
  }

  /** Every copy goes back to one of the files. */
  lemma {:induction false} CopyFromOne(groups: seq<Group>, ids: set<string>, n: nat, x: string) returns (c: string)
    requires n <= |groups| && x in CopiedIds(groups, ids, n)
    ensures c in ids && x in CopiedIds(groups, {c}, n)
    decreases n
  {
    if n == 0 {
      c := x;
    } else if x in CopiedIds(groups, ids, n - 1) {
      c := CopyFromOne(groups, ids, n - 1, x);
    } else {
      var r :| r in groups[n - 1].rows && IsSafeFileId(r.canonicalId) && r.canonicalId in CopiedIds(groups, ids, n - 1);
      hide IsSafeFileId;
      c := CopyFromOne(groups, ids, n - 1, r.canonicalId);
      assert Sourced(groups[n - 1], CopiedIds(groups, {c}, n - 1));
    }
  }

  lemma {:induction false} CopiedHasTrail(groups: seq<Group>, c: string, n: nat, id: string)
    requires n <= |groups| && id in CopiedIds(groups, {c}, n)
    ensures LeadsTo(groups, c, n, id)
    decreases n
  {
    if n > 0 && id != c {
      if id in CopiedIds(groups, {c}, n - 1) {
        CopiedHasTrail(groups, c, n - 1, id);
        var trail :| EndsAt(groups, c, trail, n - 1, id);
        assert EndsAt(groups, c, trail, n, id);
      } else {
        var r :| r in groups[n - 1].rows && IsSafeFileId(r.canonicalId) && r.canonicalId in CopiedIds(groups, {c}, n - 1);
        CopiedHasTrail(groups, c, n - 1, r.canonicalId);
        assert Takes(groups[n - 1], r.canonicalId);
        hide IsSafeFileId, Takes, CopiedIds;
        if r.canonicalId == c {
          assert EndsAt(groups, c, [n - 1], n, id);
        } else {
          var trail :| EndsAt(groups, c, trail, n - 1, r.canonicalId);
          TrailGrows(groups, c, trail, n - 1, r.canonicalId);
        }
      }
    }
  }

  lemma TrailGrows(groups: seq<Group>, c: string, trail: seq<nat>, k: nat, id: string)
    requires EndsAt(groups, c, trail, k, id) && k < |groups| && IsSafeFileId(groups[k].id) && Takes(groups[k], id)
    ensures EndsAt(groups, c, trail + [k], k + 1, groups[k].id)
  {
    hide IsSafeFileId, Takes;
    var longer := trail + [k];
    assert forall t | 0 <= t < |trail| :: longer[t] == trail[t];
  }

  lemma TrailInit(groups: seq<Group>, c: string, trail: seq<nat>)
    requires IsTrail(groups, c, trail) && |trail| > 1
    ensures IsTrail(groups, c, trail[..|trail| - 1])
  {
    hide IsSafeFileId, Takes;
    var init := trail[..|trail| - 1];
    assert forall t | 0 <= t < |init| :: init[t] == trail[t];
  }

  lemma {:induction false} TrailIsCopied(groups: seq<Group>, c: string, trail: seq<nat>)
    requires IsTrail(groups, c, trail) && trail != []
    ensures groups[trail[|trail| - 1]].id in CopiedIds(groups, {c}, trail[|trail| - 1] + 1)
    decreases |trail|
  {
    var last := trail[|trail| - 1];
    if |trail| == 1 {
      CopiesGrow(groups, {c}, 0, last);
      TakesOne(groups[last], c, CopiedIds(groups, {c}, last));
    } else {
      var init := trail[..|trail| - 1];
      var before := trail[|trail| - 2];
      TrailInit(groups, c, trail);
      TrailIsCopied(groups, c, init);
      assert init[|init| - 1] == before < last && Takes(groups[last], groups[before].id);
      CopiesGrow(groups, {c}, before + 1, last);
      TakesOne(groups[last], groups[before].id, CopiedIds(groups, {c}, last));
    }
    hide IsSafeFileId, Takes, IsTrail;
  }

  lemma TakesOne(group: Group, id: string, ids: set<string>)
    requires Takes(group, id) && IsSafeFileId(id) && id in ids
    ensures Sourced(group, ids)
  {
    hide IsSafeFileId;
  }

  lemma LeadsExactly(groups: seq<Group>, c: string, n: nat, id: string)
    requires n <= |groups|
    ensures LeadsTo(groups, c, n, id) <==> id in CopiedIds(groups, {c}, n)
  {
    hide IsTrail, CopiedIds;
    NoneCopied(groups, {c});
    CopiesGrow(groups, {c}, 0, n);
    if id in CopiedIds(groups, {c}, n) {
      CopiedHasTrail(groups, c, n, id);
    } else if trail :| EndsAt(groups, c, trail, n, id) {
      TrailIsCopied(groups, c, trail);
      CopiesGrow(groups, {c}, trail[|trail| - 1] + 1, n);
    }
  }

  lemma NoneCopied(groups: seq<Group>, ids: set<string>)
    ensures CopiedIds(groups, ids, 0) == ids
  {
  }

  lemma FedExactly(groups: seq<Group>, i: nat, c: string, n: nat)
    requires i < |groups| && n <= |groups|
    ensures Fed(groups, i, c, n) <==> Sourced(groups[i], CopiedIds(groups, {c}, n))
  {
    hide IsSafeFileId, LeadsTo, CopiedIds;
    forall id ensures LeadsTo(groups, c, n, id) <==> id in CopiedIds(groups, {c}, n) { LeadsExactly(groups, c, n, id); }
    if r :| r in groups[i].rows && IsSafeFileId(r.canonicalId) && r.canonicalId in CopiedIds(groups, {c}, n) {
      assert Takes(groups[i], r.canonicalId) && LeadsTo(groups, c, n, r.canonicalId);
    }
  }

  /** Only its own step brings an id's file. */
  lemma {:induction false} OwnCopyOnly(groups: seq<Group>, ids: set<string>, i: nat, n: nat)
    requires Ascending(groups) && i < |groups| && n <= |groups| && groups[i].id !in ids
    requires !Sourced(groups[i], CopiedIds(groups, ids, i))
    ensures groups[i].id !in CopiedIds(groups, ids, n)
    decreases n
  {
    hide Sourced, IsSafeFileId;
    if n > 0 {
      OwnCopyOnly(groups, ids, i, n - 1);
      IdsDiffer(groups);
    }
  }

  lemma LateShows(groups: seq<Group>, i: nat, c: string, mode: Mode)
    requires Live(groups, mode) && mode.copy && Late(groups, i, c)
    ensures !Idle(Directory({c}), groups, mode)
  {
    var files, n := Directory({c}), |groups|;
    hide Directory, Holds, Fed, CopiedIds, Ascending, IsSafeFileId;
    DirectoryHolds({c});
    CopyHolds(files, {c}, groups, n, mode);
    FedExactly(groups, i, c, i);
    FedExactly(groups, i, c, n);
    OwnCopyOnly(groups, {c}, i, n);
    BeforeNext(files, groups, i, mode);
    var after := FilesAfter(files, groups, mode);
    OutcomeByIds(after, CopiedIds(groups, {c}, n), groups[i]);
    hide OutcomeOf, FilesAfter, Sourced, Before;
    assert Mappable(after, groups[i]);
  }

  lemma LateWhenShown(files: Files, groups: seq<Group>, i: nat, mode: Mode) returns (c: string)
    requires Live(groups, mode) && mode.copy && i < |groups| && Mappable(FilesAfter(files, groups, mode), groups[i])
    ensures Late(groups, i, c)
  {
    var ids, n, after := IdsIn(files), |groups|, FilesAfter(files, groups, mode);
    hide IdsIn, Holds, Fed, CopiedIds, Ascending, IsSafeFileId;
    IdsHeld(files);
    CopyHolds(files, ids, groups, n, mode);
    BeforeNext(files, groups, i, mode);
    OutcomeByIds(after, CopiedIds(groups, ids, n), groups[i]);
    hide OutcomeOf, FilesAfter, Before;
    var r :| r in groups[i].rows && IsSafeFileId(r.canonicalId) && r.canonicalId in CopiedIds(groups, ids, n);
    c := CopyFromOne(groups, ids, n, r.canonicalId);
    MoreCopies(groups, {c}, ids, n);
    FedExactly(groups, i, c, i);
    FedExactly(groups, i, c, n);
    OwnStepCopies(groups, i, c);
  }

  lemma OwnStepCopies(groups: seq<Group>, i: nat, c: string)
    requires i < |groups| && IsSafeFileId(groups[i].id)
    ensures Sourced(groups[i], CopiedIds(groups, {c}, i)) ==> groups[i].id in CopiedIds(groups, {c}, |groups|)
    ensures c in CopiedIds(groups, {c}, |groups|)
  {
    NoneCopied(groups, {c});
    CopiesGrow(groups, {c}, 0, |groups|);
    CopiesGrow(groups, {c}, i + 1, |groups|);
    hide Sourced, IsSafeFileId;
  }

  /** After copying, every second run changes nothing in any directory exactly
      when no single file reaches an id's source only after that id's turn. */
  lemma SecondCopyExactly(groups: seq<Group>, rows: seq<MappingRow>, mode: Mode)
    requires Grouped(groups, rows) && mode.copy && !mode.dryRun
    ensures (forall files :: Settles(files, rows, mode)) <==> forall i, c :: !Late(groups, i, c)
  {
    hide Late, Idle, Directory, Settles;
    GroupedAscending(groups, rows);
    forall files ensures Settles(files, rows, mode) <==> Idle(files, groups, mode) { SettlesWhenIdle(files, groups, rows, mode); }
    hide Grouped, Ascending;
    if i, c :| Late(groups, i, c) {
      LateShows(groups, i, c, mode);
    } else {
      forall files ensures Idle(files, groups, mode) { UnlateIdle(files, groups, mode); }
    }
  }

  lemma UnlateIdle(files: Files, groups: seq<Group>, mode: Mode)
    requires Live(groups, mode) && mode.copy && forall i, c :: !Late(groups, i, c)
    ensures Idle(files, groups, mode)
  {
    hide Late, Mappable, FilesAfter, Ascending;
    forall k | 0 <= k < |groups| ensures !Mappable(FilesAfter(files, groups, mode), groups[k]) {
      if Mappable(FilesAfter(files, groups, mode), groups[k]) { var c := LateWhenShown(files, groups, k, mode); }
    }
  }

  // ---------- what a second run reports ----------

  lemma {:induction false} RowsForAll(rows: seq<MappingRow>, id: string)
    ensures forall r | r in rows && r.driveFileId == id :: r in RowsFor(rows, id)
  {
    if rows != [] { RowsForAll(rows[..|rows| - 1], id); }
  }

  lemma {:induction false} RestingBefore(files: Files, groups: seq<Group>, k: nat, mode: Mode)
    requires k <= |groups| && NoneMappable(files, groups)
    ensures Before(files, groups, k, mode) == files
    decreases k
  {
    hide OutcomeOf, FilesAfter;
    BeforeStart(files, groups, mode);
    if k > 0 {
      RestingBefore(files, groups, k - 1, mode);
      BeforeNext(files, groups, k - 1, mode);
      assert !Mappable(files, groups[k - 1]);
    }
  }

  /** After renaming unchained rows, an id that was mapped is reported missing by
      the next run exactly when none of its sources is left, and as skipped
      exactly when one is; its destination is there either way. */
  lemma RenamedThenMissing(files: Files, rows: seq<MappingRow>, first: Mode, files': Files, report: Report,
                           second: Mode, files'': Files, report': Report, m: MappedFile)
    requires Unchained(rows) && !first.copy && !first.dryRun
    requires Ran(files, rows, first, files', report) && Ran(files', rows, second, files'', report') && m in report.mapped
    ensures m.driveFileId + SUFFIX in files'
    ensures m.driveFileId in report'.missing <==> forall r | r in rows && r.driveFileId == m.driveFileId :: !Present(files', r)
    ensures m.driveFileId in report'.skipped <==> m.driveFileId !in report'.missing
  {
    ReportedHappened(files, rows, first, files', report);
    RunTwice(files, rows, first, files', report, second, files'', report');
    var groups := RanWith(files', rows, second, files'', report');
    var row := MappingRow(m.driveFileId, m.canonicalId, m.parserVersion);
    var k := GroupOf(groups, rows, row);
    hide Unchained, Ran, Grouped;
    RestingReport(files', groups, rows, k, second, report');
    SafeWhenMapped(files, rows, first, files', report, m);
    LeftSources(files', groups[k]);
  }

  lemma RanWith(files: Files, rows: seq<MappingRow>, mode: Mode, files': Files, report: Report) returns (groups: seq<Group>)
    requires Ran(files, rows, mode, files', report)
    ensures Grouped(groups, rows) && files' == FilesAfter(files, groups, mode)
    ensures report.(orphans := []) == ReportAfter(files, groups, mode, StartOf(rows, groups, mode))
  {
    hide Grouped, FilesAfter, ReportAfter, AreOrphans;
    groups :| Grouped(groups, rows) && files' == FilesAfter(files, groups, mode)
      && report.(orphans := []) == ReportAfter(files, groups, mode, StartOf(rows, groups, mode));
  }

  lemma GroupOf(groups: seq<Group>, rows: seq<MappingRow>, row: MappingRow) returns (k: nat)
    requires Grouped(groups, rows) && row in rows
    ensures k < |groups| && groups[k].id == row.driveFileId
    ensures forall r :: r in groups[k].rows <==> r in rows && r.driveFileId == row.driveFileId
  {
    k :| k < |groups| && groups[k].id == row.driveFileId;
    RowsForAll(rows, row.driveFileId);
    RowsAreOf(rows, row.driveFileId);
  }

  /** A run that maps nothing reports every id by what is there. */
  lemma RestingReport(files: Files, groups: seq<Group>, rows: seq<MappingRow>, k: nat, mode: Mode, report: Report)
    requires k < |groups| && Grouped(groups, rows) && report.mapped == []
    requires report.(orphans := []) == ReportAfter(files, groups, mode, StartOf(rows, groups, mode))
    ensures groups[k].id in report.missing <==> OutcomeOf(files, groups[k]).Missing?
    ensures groups[k].id in report.skipped <==> OutcomeOf(files, groups[k]).Skipped?
  {
    var start := StartOf(rows, groups, mode);
    assert report.(orphans := []).mapped == report.mapped && report.(orphans := []).missing == report.missing
        && report.(orphans := []).skipped == report.skipped;
    hide ReportAfter, OutcomeOf, Grouped, FilesAfter;
    MapsNothing(files, groups, mode, start);
    RestingBefore(files, groups, k, mode);
    assert Ascending(groups) by { GroupedAscending(groups, rows); }
    WholeReportTells(files, groups, k, mode, start);
  }

  lemma GroupedAscending(groups: seq<Group>, rows: seq<MappingRow>)
    requires Grouped(groups, rows)
    ensures Ascending(groups)
  {
  }

  lemma LeftSources(files: Files, group: Group)
    requires IsSafeFileId(group.id) && group.id + SUFFIX in files
    ensures OutcomeOf(files, group).Missing? <==> forall r | r in group.rows :: !Present(files, r)
    ensures OutcomeOf(files, group).Skipped? <==> !OutcomeOf(files, group).Missing?
  {
    ChosenIsBest(files, group.rows);
    hide Present, IsSafeFileId;
    assert forall r | r in group.rows :: exists j | 0 <= j < |group.rows| :: group.rows[j] == r;
  }

  /** Only safe ids are ever mapped. */
  lemma SafeWhenMapped(files: Files, rows: seq<MappingRow>, mode: Mode, files': Files, report: Report, m: MappedFile)
    requires Ran(files, rows, mode, files', report) && m in report.mapped
    requires MappingRow(m.driveFileId, m.canonicalId, m.parserVersion) in rows
    ensures IsSafeFileId(m.driveFileId)
  {
    var groups := RanWith(files, rows, mode, files', report);
    var k := GroupOf(groups, rows, MappingRow(m.driveFileId, m.canonicalId, m.parserVersion));
    GroupedAscending(groups, rows);
    assert report.(orphans := []).mapped == report.mapped;
    hide ReportAfter, Grouped, FilesAfter;
    WholeReportTells(files, groups, k, mode, StartOf(rows, groups, mode));
  }
}
