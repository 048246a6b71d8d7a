/** Conservation, counting, repetition and dry runs of the re-key tool. */
module RekeyLaws {
  import opened Text
  import opened FileCache
  import opened Rekey

  // ---------- what a step touches ----------

  lemma NamesDiffer(a: string, b: string)
    ensures a + SUFFIX == b + SUFFIX <==> a == b
  {
    assert (a + SUFFIX)[..|a|] == a && (b + SUFFIX)[..|b|] == b;
  }

  /** A mapped id moves the file of one of its rows, which is there, to its own
      name, which is not. */
  lemma MapsFrom(files: Files, group: Group)
    requires OutcomeOf(files, group).Mapped?
    ensures var row := OutcomeOf(files, group).row;
      row in group.rows && row.canonicalId + SUFFIX in files && group.id + SUFFIX !in files
  {
    ChosenPresent(files, group.rows);
  }

  // ---------- conservation ----------

  ghost function Contents(files: Files): multiset<File>
    decreases |files|
  {
    if files == map[] then multiset{}
    else
      var name :| name in files;
      multiset{files[name]} + Contents(files - {name})
  }

  lemma ContentsPick(files: Files) returns (name: string)
    requires files != map[]
    ensures name in files && Contents(files) == multiset{files[name]} + Contents(files - {name})
  {
    name :| name in files && Contents(files) == multiset{files[name]} + Contents(files - {name});
  }

  lemma {:induction false} ContentsWithout(files: Files, name: string)
    requires name in files
    ensures Contents(files) == multiset{files[name]} + Contents(files - {name})
    decreases |files|
  {
    hide Contents;
    var first := ContentsPick(files);
    if first != name {
      SmallerWithout(files, first);
      SmallerWithout(files, name);
      ContentsWithout(files - {first}, name);
      ContentsWithout(files - {name}, first);
      assert files - {first} - {name} == files - {name} - {first};
    }
  }

  lemma SmallerWithout(files: Files, name: string)
    requires name in files
    ensures |files - {name}| < |files|
  {
    assert (files - {name}).Keys == files.Keys - {name};
  }

  lemma RenameMoves(files: Files, source: string, dest: string)
    requires source in files && dest !in files
    ensures Contents((files - {source})[dest := files[source]]) == Contents(files)
  {
    hide Contents;
    var after := (files - {source})[dest := files[source]];
    ContentsWithout(files, source);
    ContentsWithout(after, dest);
    assert after - {dest} == files - {source};
  }

  /** Renaming loses, duplicates and changes no file. */
  lemma {:induction false} RenameConserves(files: Files, groups: seq<Group>, mode: Mode)
    requires !mode.copy
    ensures Contents(FilesAfter(files, groups, mode)) == Contents(files)
    decreases |groups|
  {
    if groups != [] {
      var init, last := groups[..|groups| - 1], groups[|groups| - 1];
      RenameConserves(files, init, mode);
      var before := FilesAfter(files, init, mode);
      if OutcomeOf(before, last).Mapped? && !mode.dryRun {
        MapsFrom(before, last);
        hide OutcomeOf, Contents;
        RenameMoves(before, OutcomeOf(before, last).row.canonicalId + SUFFIX, last.id + SUFFIX);
      }
    }
  }

  ghost predicate KeepsTimes(mode: Mode) { forall dest :: mode.keepsTime(dest) }

  /** A file with the bytes of one of `files`, and its time when times can be kept. */
  ghost predicate CopyOf(files: Files, file: File, mode: Mode) {
    exists was | was in files :: file.bytes == files[was].bytes && (KeepsTimes(mode) ==> file == files[was])
  }

  /** Every old file is still there, and every file is a copy of an old one. */
  ghost predicate OnlyCopies(files: Files, after: Files, mode: Mode) {
    && (forall name | name in files :: name in after && after[name] == files[name])
    && (forall name | name in after :: CopyOf(files, after[name], mode))
  }

  lemma AddCopy(files: Files, before: Files, dest: string, file: File, mode: Mode)
    requires OnlyCopies(files, before, mode) && dest !in before && CopyOf(files, file, mode)
    ensures OnlyCopies(files, before[dest := file], mode)
  {
    hide CopyOf;
  }

  lemma CopiedFile(files: Files, file: File, dest: string, mode: Mode)
    requires CopyOf(files, file, mode)
    ensures CopyOf(files, File(file.bytes, if mode.keepsTime(dest) then file.mtime else mode.now), mode)
  {
    var copy := File(file.bytes, if mode.keepsTime(dest) then file.mtime else mode.now);
    var was :| was in files && file.bytes == files[was].bytes && (KeepsTimes(mode) ==> file == files[was]);
    assert KeepsTimes(mode) ==> copy == file;
    assert copy.bytes == files[was].bytes;
  }

  lemma FileIsCopy(files: Files, before: Files, name: string, mode: Mode)
    requires OnlyCopies(files, before, mode) && name in before
    ensures CopyOf(files, before[name], mode)
  {
    hide CopyOf;
  }

  lemma CopyStep(files: Files, before: Files, group: Group, mode: Mode)
    requires mode.copy && OnlyCopies(files, before, mode)
    ensures OnlyCopies(files, AfterGroup(before, group, mode), mode)
  {
    hide OnlyCopies, OutcomeOf, CopyOf, KeepsTimes;
    if OutcomeOf(before, group).Mapped? && !mode.dryRun {
      MapsFrom(before, group);
      var source, dest := OutcomeOf(before, group).row.canonicalId + SUFFIX, group.id + SUFFIX;
      var file := before[source];
      FileIsCopy(files, before, source, mode);
      CopiedFile(files, file, dest, mode);
      AddCopy(files, before, dest, File(file.bytes, if mode.keepsTime(dest) then file.mtime else mode.now), mode);
    }
  }

  lemma {:induction false} CopyKeeps(files: Files, groups: seq<Group>, mode: Mode)
    requires mode.copy
    ensures OnlyCopies(files, FilesAfter(files, groups, mode), mode)
    decreases |groups|
  {
    if groups != [] {
      hide OnlyCopies, AfterGroup;
      CopyKeeps(files, groups[..|groups| - 1], mode);
      CopyStep(files, FilesAfter(files, groups[..|groups| - 1], mode), groups[|groups| - 1], mode);
    } else {
      SameOnlyCopies(files, mode);
    }
  }

  lemma SameOnlyCopies(files: Files, mode: Mode)
    ensures OnlyCopies(files, files, mode)
  {
    forall name | name in files ensures CopyOf(files, files[name], mode) {
      assert files[name].bytes == files[name].bytes;
    }
  }

  // ---------- counting ----------

  function MappedIds(mapped: seq<MappedFile>): seq<string> {
    seq(|mapped|, i requires 0 <= i < |mapped| => mapped[i].driveFileId)
  }

  function Ids(groups: seq<Group>): seq<string> {
    seq(|groups|, i requires 0 <= i < |groups| => groups[i].id)
  }

  function Reported(report: Report): multiset<string> {
    multiset(MappedIds(report.mapped)) + multiset(report.skipped) + multiset(report.missing)
  }

  lemma NotedReports(report: Report, group: Group, outcome: Outcome, mode: Mode)
    ensures Reported(Noted(report, group, outcome, mode)) == Reported(report) + multiset{group.id}
  {
    if outcome.Mapped? {
      assert MappedIds(Noted(report, group, outcome, mode).mapped) == MappedIds(report.mapped) + [group.id];
    }
  }

  /** Every id is reported once: as mapped, skipped or missing. */
  lemma {:induction false} ReportsEachOnce(files: Files, groups: seq<Group>, mode: Mode, start: Report)
    requires start.mapped == [] && start.skipped == [] && start.missing == []
    ensures var report := ReportAfter(files, groups, mode, start);
      && Reported(report) == multiset(Ids(groups))
      && |report.mapped| + |report.skipped| + |report.missing| == |groups|
    decreases |groups|
  {
    hide OutcomeOf, FilesAfter;
    if groups != [] {
      var init, last := groups[..|groups| - 1], groups[|groups| - 1];
      ReportsEachOnce(files, init, mode, start);
      assert Ids(groups) == Ids(init) + [last.id];
      NotedReports(ReportAfter(files, init, mode, start), last, OutcomeOf(FilesAfter(files, init, mode), last), mode);
      hide Reported;
    }
  }

  ghost function DriveIds(rows: seq<MappingRow>): set<string> { set r | r in rows :: r.driveFileId }

  lemma {:induction false} RowsAreOf(rows: seq<MappingRow>, id: string)
    ensures forall r | r in RowsFor(rows, id) :: r in rows && r.driveFileId == id
  {
    if rows != [] {
      RowsAreOf(rows[..|rows| - 1], id);
      assert rows[|rows| - 1] in rows;
    }
  }

  /** There are as many groups as distinct drive file ids. */
  lemma GroupCount(groups: seq<Group>, rows: seq<MappingRow>)
    requires Grouped(groups, rows)
    ensures |groups| == |DriveIds(rows)|
    ensures forall id :: id in DriveIds(rows) <==> exists i | 0 <= i < |groups| :: groups[i].id == id
  {
    IdsDiffer(groups);
    forall id ensures id in DriveIds(rows) <==> exists i | 0 <= i < |groups| :: groups[i].id == id {
      if i :| 0 <= i < |groups| && groups[i].id == id {
        RowsAreOf(rows, id);
        assert groups[i].rows[0] in rows;
      }
    }
    hide Grouped;
    DistinctCount(groups, DriveIds(rows));
  }

  lemma {:induction false} DistinctCount(groups: seq<Group>, ids: set<string>)
    requires forall i, j | 0 <= i < |groups| && 0 <= j < |groups| && i != j :: groups[i].id != groups[j].id
    requires forall id :: id in ids <==> exists i | 0 <= i < |groups| :: groups[i].id == id
    ensures |groups| == |ids|
    decreases |groups|
  {
    if groups == [] {
      assert ids == {};
    } else {
      var init, last := groups[..|groups| - 1], groups[|groups| - 1].id;
      assert last in ids;
      forall id ensures id in ids - {last} <==> exists i | 0 <= i < |init| :: init[i].id == id {
        if id in ids - {last} {
          var i :| 0 <= i < |groups| && groups[i].id == id;
          assert init[i].id == id;
        }
        if i :| 0 <= i < |init| && init[i].id == id { assert groups[i].id == id; }
      }
      DistinctCount(init, ids - {last});
    }
  }

  // ---------- orphans ----------

  /** No run makes or removes an orphan. */
  lemma {:induction false} OrphansStay(files: Files, groups: seq<Group>, rows: seq<MappingRow>, mode: Mode, name: string)
    requires forall i | 0 <= i < |groups| :: FromRows(groups[i], rows)
    ensures IsOrphan(FilesAfter(files, groups, mode), rows, name) <==> IsOrphan(files, rows, name)
    decreases |groups|
  {
    if groups != [] {
      var init, last := groups[..|groups| - 1], groups[|groups| - 1];
      OrphansStay(files, init, rows, mode, name);
      var before := FilesAfter(files, init, mode);
      if OutcomeOf(before, last).Mapped? { MapsFrom(before, last); }
      assert FromRows(last, rows);
    }
  }

  ghost predicate FromRows(group: Group, rows: seq<MappingRow>) {
    forall r | r in group.rows :: r in rows && r.driveFileId == group.id
  }

  lemma GroupsFromRows(groups: seq<Group>, rows: seq<MappingRow>)
    requires Grouped(groups, rows)
    ensures forall i | 0 <= i < |groups| :: FromRows(groups[i], rows)
  {
    forall i | 0 <= i < |groups| ensures FromRows(groups[i], rows) { RowsAreOf(rows, groups[i].id); }
  }

  // ---------- when ids do not meet ----------

  /** No row's canonical id is another row's drive file id. */
  ghost predicate NoChains(groups: seq<Group>) {
    forall i, j, r | 0 <= i < |groups| && 0 <= j < |groups| && i != j && r in groups[i].rows :: r.canonicalId != groups[j].id
  }

  predicate Mappable(files: Files, group: Group) { OutcomeOf(files, group).Mapped? }

  /** What decides an outcome: the destination, and which sources are there. */
  ghost predicate Alike(files: Files, files': Files, group: Group) {
    && (group.id + SUFFIX in files <==> group.id + SUFFIX in files')
    && forall r | r in group.rows :: Present(files, r) == Present(files', r)
  }

  lemma {:induction false} AlikeChooses(files: Files, files': Files, rows: seq<MappingRow>)
    requires forall r | r in rows :: Present(files, r) == Present(files', r)
    ensures Chosen(files, rows) == Chosen(files', rows)
  {
    hide Present;
    if rows != [] {
      assert rows[|rows| - 1] in rows;
      AlikeChooses(files, files', rows[..|rows| - 1]);
    }
  }

  lemma AlikeOutcome(files: Files, files': Files, group: Group)
    requires Alike(files, files', group)
    ensures OutcomeOf(files, group) == OutcomeOf(files', group)
  {
    AlikeChooses(files, files', group.rows);
  }

  // ---------- a second run ----------

  ghost predicate NoneMappable(files: Files, groups: seq<Group>) {
    forall i | 0 <= i < |groups| :: !Mappable(files, groups[i])
  }

  lemma NoneMappableSplit(files: Files, groups: seq<Group>)
    requires groups != []
    ensures NoneMappable(files, groups)
       <==> NoneMappable(files, groups[..|groups| - 1]) && !Mappable(files, groups[|groups| - 1])
  {
    hide Mappable;
    assert forall i | 0 <= i < |groups| - 1 :: groups[..|groups| - 1][i] == groups[i];
  }

  /** A run maps nothing exactly when no id can be mapped where it starts; then
      it changes nothing either. */
  lemma {:induction false} MapsNothing(files: Files, groups: seq<Group>, mode: Mode, start: Report)
    requires start.mapped == []
    ensures ReportAfter(files, groups, mode, start).mapped == [] <==> NoneMappable(files, groups)
    ensures ReportAfter(files, groups, mode, start).mapped == [] ==> FilesAfter(files, groups, mode) == files
    decreases |groups|
  {
    hide OutcomeOf, NoneMappable;
    if groups == [] {
      NothingMappable(files);
    } else {
      MapsNothing(files, groups[..|groups| - 1], mode, start);
      NoneMappableSplit(files, groups);
    }
  }

  lemma NothingMappable(files: Files)
    ensures NoneMappable(files, [])
  {
  }

  /** The destination of an id outlives the steps of other ids. */
  lemma DestStays(files: Files, groups: seq<Group>, i: nat, k: nat, mode: Mode)
    requires i < |groups| && k < |groups| && i != k && NoChains(groups)
    requires groups[k].id + SUFFIX in files
    ensures groups[k].id + SUFFIX in AfterGroup(files, groups[i], mode)
  {
    if OutcomeOf(files, groups[i]).Mapped? {
      MapsFrom(files, groups[i]);
      NamesDiffer(OutcomeOf(files, groups[i]).row.canonicalId, groups[k].id);
    }
  }

  /** No other id brings a source of this one back. */
  lemma SourcesStayAway(files: Files, groups: seq<Group>, i: nat, k: nat, mode: Mode)
    requires i < |groups| && k < |groups| && i != k && NoChains(groups)
    requires forall r | r in groups[k].rows :: !Present(files, r)
    ensures forall r | r in groups[k].rows :: !Present(AfterGroup(files, groups[i], mode), r)
  {
    if OutcomeOf(files, groups[i]).Mapped? {
      MapsFrom(files, groups[i]);
      forall r | r in groups[k].rows ensures !Present(AfterGroup(files, groups[i], mode), r) {
        NamesDiffer(r.canonicalId, groups[i].id);
      }
    }
  }

  /** An id is done: it has a destination, or no source, or cannot have one. */
  ghost predicate Done(files: Files, group: Group) {
    || !IsSafeFileId(group.id)
    || group.id + SUFFIX in files
    || forall r | r in group.rows :: !Present(files, r)
  }

  lemma DoneIsUnmappable(files: Files, group: Group)
    requires Done(files, group)
    ensures !Mappable(files, group)
  {
    ChosenPresent(files, group.rows);
  }

  lemma OwnStepIsDone(files: Files, group: Group, mode: Mode)
    requires !mode.dryRun
    ensures Done(AfterGroup(files, group, mode), group)
  {
    if OutcomeOf(files, group).Missing? {
      ChosenIsBest(files, group.rows);
      assert forall r | r in group.rows :: exists j | 0 <= j < |group.rows| :: group.rows[j] == r;
    }
  }

  lemma {:induction false} RunIsDone(files: Files, groups: seq<Group>, m: nat, k: nat, mode: Mode)
    requires k < m <= |groups| && NoChains(groups) && !mode.dryRun
    ensures Done(FilesAfter(files, groups[..m], mode), groups[k])
    decreases m
  {
    assert groups[..m][..m - 1] == groups[..m - 1];
    var before := FilesAfter(files, groups[..m - 1], mode);
    if k == m - 1 {
      OwnStepIsDone(before, groups[k], mode);
    } else {
      RunIsDone(files, groups, m - 1, k, mode);
      if groups[k].id + SUFFIX in before {
        DestStays(before, groups, m - 1, k, mode);
      } else if IsSafeFileId(groups[k].id) {
        SourcesStayAway(before, groups, m - 1, k, mode);
      }
    }
    hide AfterGroup, Present;
  }

  /** When no canonical id is another row's drive id, a second run, in either
      mode, maps nothing and changes nothing. */
  lemma SecondRunIsIdle(files: Files, groups: seq<Group>, first: Mode, second: Mode, start: Report)
    requires NoChains(groups) && !first.dryRun && start.mapped == []
    ensures var after := FilesAfter(files, groups, first);
      ReportAfter(after, groups, second, start).mapped == [] && FilesAfter(after, groups, second) == after
  {
    var after := FilesAfter(files, groups, first);
    assert groups[..|groups|] == groups;
    forall k | 0 <= k < |groups| ensures !Mappable(after, groups[k]) {
      RunIsDone(files, groups, |groups|, k, first);
      DoneIsUnmappable(after, groups[k]);
    }
    MapsNothing(after, groups, second, start);
  }

  // ---------- dry runs ----------

  /** The report without the flag and the warnings. */
  function Plain(report: Report): Report { report.(dryRun := false, warnings := []) }

  lemma {:induction false} DryRunStays(files: Files, groups: seq<Group>, mode: Mode)
    requires mode.dryRun
    ensures FilesAfter(files, groups, mode) == files
    decreases |groups|
  {
    if groups != [] { DryRunStays(files, groups[..|groups| - 1], mode); }
    hide OutcomeOf;
  }

  // ---------- where the conditions are needed ----------

  function Pair(id: string, canonical: string): Group { Group(id, [MappingRow(id, canonical, 0)]) }

  lemma PairOutcome(files: Files, id: string, canonical: string)
    requires IsSafeFileId(id) && IsSafeFileId(canonical)
    ensures OutcomeOf(files, Pair(id, canonical)) ==
      if canonical + SUFFIX !in files then Missing
      else if id + SUFFIX in files then Skipped
      else Mapped(MappingRow(id, canonical, 0))
  {
    var rows := [MappingRow(id, canonical, 0)];
    assert rows[..0] == [];
    assert Chosen(files, rows) == if canonical + SUFFIX in files then Some(rows[0]) else None;
  }

  lemma TwoSteps(files: Files, a: Group, b: Group, mode: Mode)
    ensures FilesAfter(files, [a, b], mode) == AfterGroup(AfterGroup(files, a, mode), b, mode)
    ensures forall start ::
      ReportAfter(files, [a, b], mode, start)
      == Noted(Noted(start, a, OutcomeOf(files, a), mode), b, OutcomeOf(AfterGroup(files, a, mode), b), mode)
  {
    hide OutcomeOf, AfterGroup, Noted;
    var groups := [a, b];
    assert groups[..1] == [a] && [a][..0] == [];
    assert FilesAfter(files, [a], mode) == AfterGroup(files, a, mode) by { assert FilesAfter(files, [], mode) == files; }
    forall start ensures ReportAfter(files, [a], mode, start) == Noted(start, a, OutcomeOf(files, a), mode) {
      assert ReportAfter(files, [], mode, start) == start;
    }
  }

  /** A chain `a` from `b`, `b` from `c` with only `c` there: the second run
      moves what the first one placed. */
  lemma ChainedRunsAgain(file: File, mode: Mode)
    requires !mode.copy && !mode.dryRun
    ensures var groups, files := [Pair("a", "b"), Pair("b", "c")], map["c" + SUFFIX := file];
      var once := FilesAfter(files, groups, mode);
      once == map["b" + SUFFIX := file] && FilesAfter(once, groups, mode) == map["a" + SUFFIX := file]
  {
    var a, b := Pair("a", "b"), Pair("b", "c");
    var files, once, twice := map["c" + SUFFIX := file], map["b" + SUFFIX := file], map["a" + SUFFIX := file];
    NamesDiffer("a", "b");
    NamesDiffer("b", "c");
    NamesDiffer("a", "c");
    TwoSteps(files, a, b, mode);
    TwoSteps(once, a, b, mode);
    PairOutcome(files, "a", "b");
    PairOutcome(files, "b", "c");
    PairOutcome(once, "a", "b");
    PairOutcome(twice, "b", "c");
    hide OutcomeOf, FilesAfter;
    assert AfterGroup(files, a, mode) == files && AfterGroup(files, b, mode) == once;
    assert AfterGroup(once, a, mode) == twice && AfterGroup(twice, b, mode) == twice;
  }

  /** Two ids from one source: the dry run announces both, renaming gives one. */
  lemma SharedSourceMisleads(file: File, live: Mode, dry: Mode, start: Report)
    requires !live.copy && !live.dryRun && dry.dryRun && start.mapped == []
    ensures var groups, files := [Pair("a", "c"), Pair("b", "c")], map["c" + SUFFIX := file];
      |ReportAfter(files, groups, dry, start).mapped| == 2 && |ReportAfter(files, groups, live, start).mapped| == 1
  {
    var a, b := Pair("a", "c"), Pair("b", "c");
    var files, once := map["c" + SUFFIX := file], map["a" + SUFFIX := file];
    NamesDiffer("a", "c");
    NamesDiffer("b", "c");
    TwoSteps(files, a, b, live);
    TwoSteps(files, a, b, dry);
    PairOutcome(files, "a", "c");
    PairOutcome(files, "b", "c");
    PairOutcome(once, "b", "c");
    hide OutcomeOf, ReportAfter;
    assert AfterGroup(files, a, live) == once && AfterGroup(files, a, dry) == files;
  }

  // ---------- whole runs, by their rows ----------

  ghost predicate HasId(groups: seq<Group>, id: string) { exists i | 0 <= i < |groups| :: groups[i].id == id }

  lemma LastIsGreatest(groups: seq<Group>, id: string)
    requires Ascending(groups) && HasId(groups, id)
    ensures id == groups[|groups| - 1].id || StrLess(id, groups[|groups| - 1].id)
  {
  }

  lemma InitHasId(groups: seq<Group>, id: string)
    requires groups != [] && Ascending(groups)
    ensures HasId(groups[..|groups| - 1], id) <==> HasId(groups, id) && id != groups[|groups| - 1].id
  {
    hide StrLess;
    IdsDiffer(groups);
    var init := groups[..|groups| - 1];
    if HasId(groups, id) && id != groups[|groups| - 1].id {
      var i :| 0 <= i < |groups| && groups[i].id == id;
      assert init[i].id == id;
    }
    if i :| 0 <= i < |init| && init[i].id == id { assert groups[i].id == id; }
  }

  lemma {:induction false} SameIds(a: seq<Group>, b: seq<Group>)
    requires Ascending(a) && Ascending(b) && forall id :: HasId(a, id) <==> HasId(b, id)
    ensures |a| == |b| && forall i | 0 <= i < |a| :: a[i].id == b[i].id
    decreases |a|
  {
    if a != [] && b != [] {
      var x, y := a[|a| - 1].id, b[|b| - 1].id;
      assert HasId(a, x) && HasId(b, y);
      LastIsGreatest(a, y);
      LastIsGreatest(b, x);
      if x != y {
        StrLessTransitive(x, y, x);
        StrLessIrreflexive(x);
      }
      var a', b' := a[..|a| - 1], b[..|b| - 1];
      forall id ensures HasId(a', id) <==> HasId(b', id) {
        InitHasId(a, id);
        InitHasId(b, id);
      }
      hide StrLess, HasId;
      SameIds(a', b');
      assert forall i | 0 <= i < |a| - 1 :: a[i] == a'[i] && b[i] == b'[i];
    } else {
      EmptyHasNone(a);
      EmptyHasNone(b);
    }
  }

  lemma EmptyHasNone(groups: seq<Group>)
    ensures groups == [] <==> forall id :: !HasId(groups, id)
  {
    if groups != [] { assert HasId(groups, groups[0].id); }
  }

  /** The mapping rows determine the groups. */
  lemma GroupsUnique(a: seq<Group>, b: seq<Group>, rows: seq<MappingRow>)
    requires Grouped(a, rows) && Grouped(b, rows)
    ensures a == b
  {
    GroupCount(a, rows);
    GroupCount(b, rows);
    forall id ensures HasId(a, id) <==> HasId(b, id) {
      assert id in DriveIds(rows) <==> HasId(a, id);
    }
    hide StrLess, HasId;
    SameIds(a, b);
    assert forall i | 0 <= i < |a| :: a[i] == b[i];
  }

  /** No row's canonical id is the drive file id of another file's row. */
  ghost predicate Unchained(rows: seq<MappingRow>) {
    forall r, q | r in rows && q in rows && r.driveFileId != q.driveFileId :: r.canonicalId != q.driveFileId
  }

  ghost predicate Unshared(rows: seq<MappingRow>) {
    forall r, q | r in rows && q in rows && r.driveFileId != q.driveFileId :: r.canonicalId != q.canonicalId
  }

  lemma GroupConditions(groups: seq<Group>, rows: seq<MappingRow>)
    requires Grouped(groups, rows)
    ensures Unchained(rows) ==> NoChains(groups)
  {
    GroupsFromRows(groups, rows);
    IdsDiffer(groups);
    forall i | 0 <= i < |groups| ensures groups[i].rows[0] in rows && groups[i].rows[0].driveFileId == groups[i].id {
      assert FromRows(groups[i], rows);
      assert groups[i].rows[0] in groups[i].rows;
    }
    hide Grouped, Ascending;
  }

  /** What any run keeps, and how its report adds up. */
  lemma RunAccounts(files: Files, rows: seq<MappingRow>, mode: Mode, files': Files, report: Report)
    requires Ran(files, rows, mode, files', report)
    ensures !mode.copy ==> Contents(files') == Contents(files)
    ensures mode.copy ==> OnlyCopies(files, files', mode)
    ensures mode.dryRun ==> files' == files
    ensures |report.mapped| + |report.skipped| + |report.missing| == report.driveFileIds == |DriveIds(rows)|
    ensures report.mappingRows == |rows| && report.copied == mode.copy && report.dryRun == mode.dryRun
  {
    var groups :| Grouped(groups, rows)
      && files' == FilesAfter(files, groups, mode)
      && report.(orphans := []) == ReportAfter(files, groups, mode, StartOf(rows, groups, mode))
      && AreOrphans(report.orphans, files', rows);
    hide Grouped, FilesAfter, Contents, OnlyCopies, AreOrphans, Reported;
    if mode.copy { CopyKeeps(files, groups, mode); } else { RenameConserves(files, groups, mode); }
    if mode.dryRun { DryRunStays(files, groups, mode); }
    ReportsEachOnce(files, groups, mode, StartOf(rows, groups, mode));
    GroupCount(groups, rows);
    CountsKept(files, groups, mode, StartOf(rows, groups, mode));
    hide ReportAfter;
  }

  lemma {:induction false} CountsKept(files: Files, groups: seq<Group>, mode: Mode, start: Report)
    ensures var report := ReportAfter(files, groups, mode, start);
      && report.driveFileIds == start.driveFileIds && report.mappingRows == start.mappingRows
      && report.copied == start.copied && report.dryRun == start.dryRun
    decreases |groups|
  {
    hide OutcomeOf, FilesAfter;
    if groups != [] { CountsKept(files, groups[..|groups| - 1], mode, start); }
  }

  /** A file is warned of exactly when it was really copied for an id and its
      source's time could not be carried over. */
  lemma WarnsExactly(files: Files, rows: seq<MappingRow>, mode: Mode, files': Files, report: Report, name: string)
    requires Ran(files, rows, mode, files', report)
    ensures name in report.warnings <==>
      mode.copy && !mode.dryRun && !mode.keepsTime(name) && exists m :: m in report.mapped && name == m.driveFileId + ".xlsx"
  {
    var groups :| Grouped(groups, rows)
      && files' == FilesAfter(files, groups, mode)
      && report.(orphans := []) == ReportAfter(files, groups, mode, StartOf(rows, groups, mode))
      && AreOrphans(report.orphans, files', rows);
    hide Grouped, FilesAfter, AreOrphans;
    WarnedOf(files, groups, mode, StartOf(rows, groups, mode), name);
    hide ReportAfter;
  }

  lemma {:induction false} WarnedOf(files: Files, groups: seq<Group>, mode: Mode, start: Report, name: string)
    requires start.mapped == [] && start.warnings == []
    ensures var report := ReportAfter(files, groups, mode, start);
      name in report.warnings <==>
        mode.copy && !mode.dryRun && !mode.keepsTime(name) && exists m :: m in report.mapped && name == m.driveFileId + ".xlsx"
    decreases |groups|
  {
    hide OutcomeOf, FilesAfter;
    if groups != [] {
      var init, last := groups[..|groups| - 1], groups[|groups| - 1];
      WarnedOf(files, init, mode, start, name);
      WarnedNext(ReportAfter(files, init, mode, start), last, OutcomeOf(FilesAfter(files, init, mode), last), mode, name);
    }
  }

  lemma WarnedNext(report: Report, group: Group, outcome: Outcome, mode: Mode, name: string)
    requires name in report.warnings <==>
      mode.copy && !mode.dryRun && !mode.keepsTime(name) && exists m :: m in report.mapped && name == m.driveFileId + ".xlsx"
    ensures var next := Noted(report, group, outcome, mode);
      name in next.warnings <==>
        mode.copy && !mode.dryRun && !mode.keepsTime(name) && exists m :: m in next.mapped && name == m.driveFileId + ".xlsx"
  {
    if outcome.Mapped? {
      var m := MappedFile(group.id, outcome.row.canonicalId, outcome.row.parserVersion);
      assert Noted(report, group, outcome, mode).mapped == report.mapped + [m];
      assert m in report.mapped + [m];
    }
  }

  /** Run twice over the same unchained rows: the second run changes no file. */
  lemma RunTwice(files: Files, rows: seq<MappingRow>, first: Mode, files': Files, report: Report,
                 second: Mode, files'': Files, report': Report)
    requires Unchained(rows) && !first.dryRun
    requires Ran(files, rows, first, files', report) && Ran(files', rows, second, files'', report')
    ensures files'' == files' && report'.mapped == []
  {
    var groups :| Grouped(groups, rows) && files' == FilesAfter(files, groups, first);
    var again :| Grouped(again, rows) && files'' == FilesAfter(files', again, second)
      && report'.(orphans := []) == ReportAfter(files', again, second, StartOf(rows, again, second));
    GroupsUnique(groups, again, rows);
    GroupConditions(groups, rows);
    hide Grouped, FilesAfter, ReportAfter;
    SecondRunIsIdle(files, groups, first, second, StartOf(rows, groups, second));
  }

  /** Two strictly sorted lists of the same names are the same. */
  lemma SortedUnique(a: seq<string>, b: seq<string>)
    requires Sorted(a) && Sorted(b) && forall name :: name in a <==> name in b
    ensures a == b
  {
    var x, y := seq(|a|, i requires 0 <= i < |a| => Group(a[i], [])), seq(|b|, i requires 0 <= i < |b| => Group(b[i], []));
    forall id ensures HasId(x, id) <==> HasId(y, id) {
      assert HasId(x, id) ==> id in a;
      assert HasId(y, id) ==> id in b;
      if i :| 0 <= i < |a| && a[i] == id { assert x[i].id == id; }
      if i :| 0 <= i < |b| && b[i] == id { assert y[i].id == id; }
    }
    hide StrLess, HasId;
    SameIds(x, y);
    assert forall i | 0 <= i < |a| :: a[i] == x[i].id && b[i] == y[i].id;
  }

  // ---------- what the report says happened ----------

  /** A reported mapping comes from one of the rows, and the id now has the
      source's file: the very file after a rename, its bytes after a copy. */
  ghost predicate Happened(files: Files, files': Files, rows: seq<MappingRow>, mode: Mode, m: MappedFile) {
    && MappingRow(m.driveFileId, m.canonicalId, m.parserVersion) in rows
    && m.canonicalId + SUFFIX in files && m.driveFileId + SUFFIX !in files
    && m.driveFileId + SUFFIX in files'
    && files'[m.driveFileId + SUFFIX].bytes == files[m.canonicalId + SUFFIX].bytes
    && (m.canonicalId + SUFFIX in files' <==> mode.copy)
    && (!mode.copy ==> files'[m.driveFileId + SUFFIX] == files[m.canonicalId + SUFFIX])
  }

  /** Until an id's own turn its destination is as it was, and so is any source
      of its rows that is still there. */
  lemma {:induction false} EarlierSteps(files: Files, groups: seq<Group>, m: nat, k: nat, mode: Mode)
    requires m <= k < |groups| && Ascending(groups) && NoChains(groups)
    ensures var before := FilesAfter(files, groups[..m], mode);
      && (groups[k].id + SUFFIX in before <==> groups[k].id + SUFFIX in files)
      && forall r | r in groups[k].rows && r.canonicalId + SUFFIX in before ::
           r.canonicalId + SUFFIX in files && before[r.canonicalId + SUFFIX] == files[r.canonicalId + SUFFIX]
    decreases m
  {
    if m == 0 {
      assert groups[..0] == [];
    } else {
      EarlierSteps(files, groups, m - 1, k, mode);
      assert groups[..m][..m - 1] == groups[..m - 1];
      IdsDiffer(groups);
      OtherStep(FilesAfter(files, groups[..m - 1], mode), groups, m - 1, k, mode);
    }
    hide AfterGroup;
  }

  lemma OtherStep(files: Files, groups: seq<Group>, i: nat, k: nat, mode: Mode)
    requires i < |groups| && k < |groups| && i != k && groups[i].id != groups[k].id && NoChains(groups)
    ensures var after := AfterGroup(files, groups[i], mode);
      && (groups[k].id + SUFFIX in after <==> groups[k].id + SUFFIX in files)
      && (groups[k].id + SUFFIX in files ==> after[groups[k].id + SUFFIX] == files[groups[k].id + SUFFIX])
      && forall r | r in groups[k].rows && r.canonicalId + SUFFIX in after ::
           r.canonicalId + SUFFIX in files && after[r.canonicalId + SUFFIX] == files[r.canonicalId + SUFFIX]
  {
    if OutcomeOf(files, groups[i]).Mapped? {
      MapsFrom(files, groups[i]);
      NamesDiffer(OutcomeOf(files, groups[i]).row.canonicalId, groups[k].id);
      NamesDiffer(groups[i].id, groups[k].id);
      forall r | r in groups[k].rows ensures r.canonicalId + SUFFIX != groups[i].id + SUFFIX {
        NamesDiffer(r.canonicalId, groups[i].id);
      }
    }
  }

  lemma OwnStepHappens(files: Files, groups: seq<Group>, k: nat, rows: seq<MappingRow>, mode: Mode)
    requires k < |groups| && Grouped(groups, rows) && NoChains(groups) && !mode.dryRun
    requires OutcomeOf(FilesAfter(files, groups[..k], mode), groups[k]).Mapped?
    ensures var before := FilesAfter(files, groups[..k], mode);
      var row := OutcomeOf(before, groups[k]).row;
      && row.driveFileId == groups[k].id
      && Happened(files, AfterGroup(before, groups[k], mode), rows, mode, MappedFile(groups[k].id, row.canonicalId, row.parserVersion))
  {
    var before := FilesAfter(files, groups[..k], mode);
    MapsFrom(before, groups[k]);
    EarlierSteps(files, groups, k, k, mode);
    GroupsFromRows(groups, rows);
    assert FromRows(groups[k], rows);
    hide Grouped, NoChains, FilesAfter, OutcomeOf;
    NamesDiffer(OutcomeOf(before, groups[k]).row.canonicalId, groups[k].id);
  }

  lemma LaterStepKeeps(files: Files, now: Files, groups: seq<Group>, i: nat, k: nat, rows: seq<MappingRow>,
    mode: Mode, m: MappedFile)
    requires i < |groups| && k < |groups| && groups[i].id != groups[k].id && NoChains(groups)
    requires Happened(files, now, rows, mode, m) && m.driveFileId == groups[k].id
    requires exists r | r in groups[k].rows :: r.canonicalId == m.canonicalId
    ensures Happened(files, AfterGroup(now, groups[i], mode), rows, mode, m)
  {
    OtherStep(now, groups, i, k, mode);
    NamesDiffer(m.canonicalId, groups[i].id);
    if OutcomeOf(now, groups[i]).Mapped? { MapsFrom(now, groups[i]); }
    hide OutcomeOf, NoChains;
  }

  /** The entry stems from group `k`. */
  ghost predicate From(group: Group, m: MappedFile) {
    m.driveFileId == group.id && exists r | r in group.rows :: r.canonicalId == m.canonicalId
  }

  ghost predicate FromSome(groups: seq<Group>, n: nat, m: MappedFile) { exists k | 0 <= k < n && k < |groups| :: From(groups[k], m) }

  /** The entries reported so far have happened, each for one of the first `n` ids. */
  ghost predicate AllHappened(files: Files, now: Files, groups: seq<Group>, n: nat, rows: seq<MappingRow>, mode: Mode,
    mapped: seq<MappedFile>)
  {
    forall m | m in mapped :: Happened(files, now, rows, mode, m) && FromSome(groups, n, m)
  }

  lemma KnownKept(files: Files, now: Files, groups: seq<Group>, i: nat, rows: seq<MappingRow>, mode: Mode, m: MappedFile)
    requires i < |groups| && Ascending(groups) && NoChains(groups)
    requires Happened(files, now, rows, mode, m) && FromSome(groups, i, m)
    ensures Happened(files, AfterGroup(now, groups[i], mode), rows, mode, m) && FromSome(groups, i + 1, m)
  {
    IdsDiffer(groups);
    hide AfterGroup, NoChains, Happened, Ascending;
    var k :| 0 <= k < i && From(groups[k], m);
    LaterStepKeeps(files, now, groups, i, k, rows, mode, m);
  }

  lemma NewHappened(files: Files, groups: seq<Group>, k: nat, rows: seq<MappingRow>, mode: Mode)
    requires k < |groups| && Grouped(groups, rows) && NoChains(groups) && !mode.dryRun
    requires OutcomeOf(FilesAfter(files, groups[..k], mode), groups[k]).Mapped?
    ensures var before := FilesAfter(files, groups[..k], mode);
      var row := OutcomeOf(before, groups[k]).row;
      var m := MappedFile(groups[k].id, row.canonicalId, row.parserVersion);
      Happened(files, AfterGroup(before, groups[k], mode), rows, mode, m) && FromSome(groups, k + 1, m)
  {
    MapsFrom(FilesAfter(files, groups[..k], mode), groups[k]);
    hide AfterGroup, NoChains, Happened, FilesAfter, OutcomeOf, Grouped;
    OwnStepHappens(files, groups, k, rows, mode);
    var row := OutcomeOf(FilesAfter(files, groups[..k], mode), groups[k]).row;
    assert From(groups[k], MappedFile(groups[k].id, row.canonicalId, row.parserVersion));
  }

  lemma AllKept(files: Files, now: Files, groups: seq<Group>, i: nat, rows: seq<MappingRow>, mode: Mode,
    known: seq<MappedFile>)
    requires i < |groups| && Ascending(groups) && NoChains(groups)
    requires AllHappened(files, now, groups, i, rows, mode, known)
    ensures AllHappened(files, AfterGroup(now, groups[i], mode), groups, i + 1, rows, mode, known)
  {
    hide AfterGroup, NoChains, Happened, FromSome, Ascending;
    forall m | m in known
      ensures Happened(files, AfterGroup(now, groups[i], mode), rows, mode, m) && FromSome(groups, i + 1, m)
    {
      KnownKept(files, now, groups, i, rows, mode, m);
    }
  }

  lemma {:induction false} PrefixHappened(files: Files, groups: seq<Group>, n: nat, rows: seq<MappingRow>, mode: Mode, start: Report)
    requires n <= |groups| && Grouped(groups, rows) && NoChains(groups) && !mode.dryRun && start.mapped == []
    ensures AllHappened(files, FilesAfter(files, groups[..n], mode), groups, n, rows, mode,
                        ReportAfter(files, groups[..n], mode, start).mapped)
    decreases n
  {
    hide OutcomeOf, AfterGroup, FilesAfter, ReportAfter, NoChains, Happened, FromSome;
    if n == 0 {
      assert groups[..0] == [];
      RunStart(files, mode, start);
    } else {
      PrefixHappened(files, groups, n - 1, rows, mode, start);
      RunStep(files, groups, n - 1, mode, start);
      var before := FilesAfter(files, groups[..n - 1], mode);
      AllKept(files, before, groups, n - 1, rows, mode, ReportAfter(files, groups[..n - 1], mode, start).mapped);
      if OutcomeOf(before, groups[n - 1]).Mapped? { NewHappened(files, groups, n - 1, rows, mode); }
      hide Grouped;
    }
  }

  /** Every mapping a real run reports has happened. */
  lemma ReportedHappened(files: Files, rows: seq<MappingRow>, mode: Mode, files': Files, report: Report)
    requires Unchained(rows) && !mode.dryRun && Ran(files, rows, mode, files', report)
    ensures forall m | m in report.mapped :: Happened(files, files', rows, mode, m)
  {
    var groups :| Grouped(groups, rows) && files' == FilesAfter(files, groups, mode)
      && report.(orphans := []) == ReportAfter(files, groups, mode, StartOf(rows, groups, mode));
    GroupConditions(groups, rows);
    assert groups[..|groups|] == groups;
    hide Grouped, FilesAfter, ReportAfter, Happened;
    PrefixHappened(files, groups, |groups|, rows, mode, StartOf(rows, groups, mode));
  }
}
