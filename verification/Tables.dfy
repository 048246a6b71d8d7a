/** The ingest tables and the transactions that change them
    (src/ingest/statsbook_index.rs, statsbook_parse.rs, resolve.rs).

    Every row of `statsbook_games`, `statsbook_sides`, `statsbook_skaters`,
    `statsbook_summary` and `game_matches` hangs off one `statsbooks` row by a
    foreign key with ON DELETE CASCADE, so the rows of one Drive file form one
    record and deleting the file deletes all of it. */
module Tables {
  import opened Text
  import opened Matching

  const PARSER_VERSION := 24

  type FileId = string

  datatype Status = Pending | Parsed | Failed | Skipped
  datatype Side = Home | Away

  datatype Skater = Skater(number: string, name: string)
  datatype SideData = SideData(league: Option<string>, team: Option<string>, skaters: seq<Skater>)

  /** A parsed statsbook, reduced to what the tables keep of it. */
  datatype GameData = GameData(
    date: Option<int>, jams: nat, penalties: nat, homeScore: i16, awayScore: i16,
    home: SideData, away: SideData, hasSummary: bool)

  datatype Book = Book(
    modifiedTime: Option<int>, lastSeen: int, status: Status, parserVersion: Option<int>, parseError: Option<string>)

  datatype SideRow = SideRow(wftdaTeam: Option<int>, league: Option<string>, team: Option<string>)

  datatype MatchTag = ByMethod(how: MatchMethod) | Duplicate

  datatype MatchRow = MatchRow(gameId: Option<int>, tag: MatchTag, similarity: real, delta: i16, offset: int)

  /** All rows of one Drive file. */
  datatype FileRows = FileRows(
    book: Book,
    game: Option<GameData>,
    sides: map<Side, SideRow>,
    skaters: map<(Side, string), string>,
    summaries: set<Side>,
    matched: Option<MatchRow>)

  type Db = map<FileId, FileRows>

  // ---------- what the rows of a file must look like ----------

  predicate NoRows(rows: FileRows) {
    rows.game.None? && rows.sides == map[] && rows.skaters == map[] && rows.summaries == {}
  }

  function SideOfData(data: GameData, side: Side): SideData {
    if side == Home then data.home else data.away
  }

  /** The file's rows are exactly those of the game it holds. */
  ghost predicate Complete(rows: FileRows) {
    && rows.game.Some?
    && var data := rows.game.value;
    && !HasNoGameData(data) && data.date.Some?
    && rows.sides.Keys == {Home, Away}
    && (forall side :: side in rows.sides ==>
          rows.sides[side].league == SideOfData(data, side).league && rows.sides[side].team == SideOfData(data, side).team)
    && (forall side, number {:trigger (side, number) in rows.skaters} :: (side, number) in rows.skaters ==>
          Skater(number, rows.skaters[(side, number)]) in SideOfData(data, side).skaters && rows.skaters[(side, number)] != "")
    && (forall side, k: Skater {:trigger k in SideOfData(data, side).skaters} :: k in SideOfData(data, side).skaters && k.name != "" ==>
          (side, k.number) in rows.skaters && rows.skaters[(side, k.number)] == k.name)
    && rows.summaries == (if data.hasSummary then {Home, Away} else {})
  }

  predicate Assigned(rows: FileRows, side: Side) {
    side in rows.sides && rows.sides[side].wftdaTeam.Some?
  }

  predicate VisibleAt(rows: FileRows, game: int) {
    rows.matched.Some? && rows.matched.value.gameId == Some(game)
  }

  predicate Visible(rows: FileRows) {
    rows.matched.Some? && rows.matched.value.gameId.Some?
  }

  ghost predicate FileInv(rows: FileRows) {
    && (Complete(rows) || NoRows(rows))
    && (rows.book.status == Parsed ==> Complete(rows))
    && (rows.book.status == Skipped ==> NoRows(rows))
    && (rows.book.parserVersion.None? ==> rows.book.status in {Pending, Failed})
    && (Assigned(rows, Home) <==> Assigned(rows, Away))
    && (Assigned(rows, Home) ==> Visible(rows))
  }

  ghost predicate Inv(db: Db) { forall id :: id in db ==> FileInv(db[id]) }

  /** The parse queue's SQL filter; a NULL version makes the comparison false. */
  predicate NeedsParse(book: Book) {
    || book.status in {Pending, Failed}
    || (book.parserVersion.Some? && book.parserVersion.value < PARSER_VERSION)
  }

  // ---------- the transactions ----------

  function NewBook(modified: int, now: int): Book { Book(Some(modified), now, Pending, None, None) }

  /** A file seen in the Drive listing; a new revision asks for a new parse. */
  function Upsert(db: Db, id: FileId, modified: int, now: int): Db {
    if id !in db then
      db[id := FileRows(NewBook(modified, now), None, map[], map[], {}, None)]
    else
      var book := db[id].book;
      var changed := book.modifiedTime != Some(modified);
      db[id := db[id].(book := Book(
        Some(modified), now,
        if changed then Pending else book.status,
        if changed then None else book.parserVersion,
        book.parseError))]
  }

  /** Files not seen since `marker` are retracted with everything they hold. */
  function RemoveUnseen(db: Db, marker: int): Db {
    map id | id in db && db[id].book.lastSeen >= marker :: db[id]
  }

  predicate HasNoGameData(data: GameData) {
    data.jams == 0 && data.penalties == 0 && data.homeScore == 0 && data.awayScore == 0
  }

  /** The named skaters of a side, one row each; a repeated number violates the key. */
  function SkaterRows(side: Side, skaters: seq<Skater>): Option<map<(Side, string), string>> {
    if skaters == [] then Some(map[])
    else
      var rest := SkaterRows(side, skaters[..|skaters| - 1]);
      var last := skaters[|skaters| - 1];
      if rest.None? || last.name == "" then rest
      else if (side, last.number) in rest.value then None
      else Some(rest.value[(side, last.number) := last.name])
  }

  /** Whether the file's data can be stored at all. */
  predicate Storable(data: GameData) {
    && data.date.Some?
    && SkaterRows(Home, data.home.skaters).Some? && SkaterRows(Away, data.away.skaters).Some?
  }

  function Stored(rows: FileRows, data: GameData): FileRows
    requires Storable(data)
  {
    FileRows(
      rows.book.(status := Parsed, parserVersion := Some(PARSER_VERSION), parseError := None),
      Some(data),
      map[Home := SideRow(None, data.home.league, data.home.team), Away := SideRow(None, data.away.league, data.away.team)],
      SkaterRows(Home, data.home.skaters).value + SkaterRows(Away, data.away.skaters).value,
      if data.hasSummary then {Home, Away} else {},
      rows.matched)
  }

  function SkippedRows(rows: FileRows): FileRows {
    FileRows(rows.book.(status := Skipped, parserVersion := Some(PARSER_VERSION), parseError := None),
      None, map[], map[], {}, rows.matched)
  }

  function FailedRows(rows: FileRows, error: string): FileRows {
    rows.(book := rows.book.(status := Failed, parseError := Some(error)))
  }

  /** The database's answer to a commit. */
  datatype Commit = Committed | Retryable | Fatal

  const MAX_RETRIES := 5

  /** Whether a write that is retried on serialization failures gets through;
      beyond the given answers every commit succeeds. */
  predicate Commits(answers: seq<Commit>, attempt: nat)
    decreases MAX_RETRIES + 1 - attempt
  {
    attempt >= |answers| || answers[attempt] == Committed ||
    (answers[attempt] == Retryable && attempt < MAX_RETRIES && Commits(answers, attempt + 1))
  }

  predicate CommitsAtOnce(answers: seq<Commit>) { answers == [] || answers[0] == Committed }

  /** What downloading and parsing one file came to, and how its commits fare. */
  datatype Outcome = Unreadable(error: string) | Content(data: GameData, answers: seq<Commit>)

  predicate Succeeds(outcome: Outcome) {
    && outcome.Content?
    && if HasNoGameData(outcome.data) then CommitsAtOnce(outcome.answers)
       else Storable(outcome.data) && Commits(outcome.answers, 0)
  }

  const STORE_ERROR := "store failed"

  /** One file of a parse batch, as committed. */
  function ParsedRows(rows: FileRows, outcome: Outcome): FileRows {
    if !Succeeds(outcome) then FailedRows(rows, if outcome.Unreadable? then outcome.error else STORE_ERROR)
    else if HasNoGameData(outcome.data) then SkippedRows(rows)
    else Stored(rows, outcome.data)
  }

  function ParseFile(db: Db, id: FileId, outcome: Outcome): Db {
    if id in db then db[id := ParsedRows(db[id], outcome)] else db
  }

  /** What does not fit, on either side, is stored as the largest value. */
  function Clamp16(x: int): (r: i16)
    ensures r == x || (r == 32767 && !(-32768 <= x <= 32767))
  {
    if x > 0x7FFF then 0x7FFF else if x < -0x8000 then 0x7FFF else x
  }

  /** One statsbook's match row and side assignment. */
  function Resolved(rows: FileRows, r: Resolution): FileRows {
    rows.(
      matched := Some(MatchRow(r.gameId, ByMethod(r.how), r.similarity, Clamp16(r.delta), r.offset)),
      sides := map side | side in rows.sides ::
        rows.sides[side].(wftdaTeam := if side == Home then r.homeTeam else r.awayTeam))
  }

  /** A write batch; a file that has vanished violates the foreign key and the
      whole transaction is rolled back. */
  function WriteBatch(db: Db, batch: map<FileId, Resolution>): Db {
    if batch.Keys <= db.Keys then
      map id | id in db :: if id in batch then Resolved(db[id], batch[id]) else db[id]
    else db
  }

  /** A batch is written as a whole, or not at all when one of its files has vanished. */
  lemma BatchIsAtomic(db: Db, batch: map<FileId, Resolution>)
    ensures (exists id :: id in batch && id !in db) ==> WriteBatch(db, batch) == db
    ensures (forall id :: id in batch ==> id in db) ==>
              forall id :: id in batch ==> id in WriteBatch(db, batch) && WriteBatch(db, batch)[id] == Resolved(db[id], batch[id])
    ensures forall id :: id !in batch ==>
              (id in WriteBatch(db, batch) <==> id in db) && (id in db ==> WriteBatch(db, batch)[id] == db[id])
  {
    hide Resolved;
  }

  function HiddenRows(rows: FileRows): FileRows {
    rows.(
      matched := if rows.matched.None? then None else Some(rows.matched.value.(gameId := None, tag := Duplicate)),
      sides := map side | side in rows.sides :: rows.sides[side].(wftdaTeam := None))
  }

  function Hide(db: Db, losers: set<FileId>): Db {
    map id | id in db :: if id in losers then HiddenRows(db[id]) else db[id]
  }

  // ---------- runs ----------

  datatype Step =
    | DoUpsert(id: FileId, modified: int, now: int)
    | DoRemove(marker: int)
    | DoParse(file: FileId, outcome: Outcome)
    | DoWrite(batch: map<FileId, Resolution>)
    | DoHide(losers: set<FileId>)

  /** Assigned teams come in pairs and only with a game. */
  ghost predicate WellShaped(r: Resolution) {
    (r.homeTeam.Some? <==> r.awayTeam.Some?) && (r.homeTeam.Some? ==> r.gameId.Some?)
  }

  ghost predicate LegalStep(step: Step) {
    step.DoWrite? ==> forall id :: id in step.batch ==> WellShaped(step.batch[id])
  }

  function Apply(db: Db, step: Step): Db {
    match step
    case DoUpsert(id, modified, now) => Upsert(db, id, modified, now)
    case DoRemove(marker) => RemoveUnseen(db, marker)
    case DoParse(id, outcome) => ParseFile(db, id, outcome)
    case DoWrite(batch) => WriteBatch(db, batch)
    case DoHide(losers) => Hide(db, losers)
  }

  function Run(db: Db, steps: seq<Step>): Db
    decreases |steps|
  {
    if steps == [] then db else Run(Apply(db, steps[0]), steps[1..])
  }

  lemma {:induction false} SkaterRowsMeaning(side: Side, skaters: seq<Skater>)
    requires SkaterRows(side, skaters).Some?
    ensures var rows := SkaterRows(side, skaters).value;
            && (forall key :: key in rows ==> key.0 == side && Skater(key.1, rows[key]) in skaters && rows[key] != "")
            && (forall k :: k in skaters && k.name != "" ==> (side, k.number) in rows && rows[(side, k.number)] == k.name)
  {
    if skaters != [] {
      var most, last := skaters[..|skaters| - 1], skaters[|skaters| - 1];
      SkaterRowsMeaning(side, most);
      assert skaters == most + [last];
    }
  }

  /** Two named skaters of the side have the same number. */
  ghost predicate Repeats(skaters: seq<Skater>) {
    exists i, j :: 0 <= i < j < |skaters| && skaters[i].name != "" && skaters[j].name != "" && skaters[i].number == skaters[j].number
  }

  lemma RepeatsLast(skaters: seq<Skater>)
    requires skaters != []
    ensures var most, last := skaters[..|skaters| - 1], skaters[|skaters| - 1];
      Repeats(skaters) <==>
        (Repeats(most) || (last.name != "" && exists k :: k in most && k.name != "" && k.number == last.number))
  {
    var n := |skaters| - 1;
    if i, j :| 0 <= i < j < |skaters| && skaters[i].name != "" && skaters[j].name != "" && skaters[i].number == skaters[j].number {
      assert skaters[..n][i] == skaters[i];
      if j < n { assert skaters[..n][j] == skaters[j]; }
    }
    if i, j :| 0 <= i < j < n && skaters[..n][i].name != "" && skaters[..n][j].name != "" && skaters[..n][i].number == skaters[..n][j].number {
      assert skaters[..n][i] == skaters[i] && skaters[..n][j] == skaters[j];
    }
    if k :| k in skaters[..n] && k.name != "" && k.number == skaters[n].number {
      var i :| 0 <= i < n && skaters[i] == k;
      assert 0 <= i < n < |skaters|;
    }
  }

  /** The rows violate their key exactly when a number is repeated. */
  lemma {:induction false} SkaterRowsExactly(side: Side, skaters: seq<Skater>)
    ensures SkaterRows(side, skaters).None? <==> Repeats(skaters)
  {
    if skaters != [] {
      RepeatsLast(skaters);
      var most, last := skaters[..|skaters| - 1], skaters[|skaters| - 1];
      SkaterRowsExactly(side, most);
      hide Repeats;
      if SkaterRows(side, most).Some? {
        SkaterRowsMeaning(side, most);
        if (side, last.number) in SkaterRows(side, most).value {
          assert Skater(last.number, SkaterRows(side, most).value[(side, last.number)]) in most;
        }
      }
    }
  }

  /** Commits succeed at the `k`-th attempt, after nothing but retryable answers. */
  ghost predicate ThroughAt(answers: seq<Commit>, k: nat) {
    && (forall i: nat :: i < k ==> i < |answers| && answers[i] == Retryable)
    && (k >= |answers| || answers[k] == Committed)
  }

  /** A retried write gets through exactly within five retries of the first attempt. */
  lemma CommitsExactly(answers: seq<Commit>)
    ensures Commits(answers, 0) <==> exists k: nat :: k <= 5 && ThroughAt(answers, k)
  {
    if Commits(answers, 0) { var k := CommitsReach(answers, 0); }
    if k: nat :| k <= 5 && ThroughAt(answers, k) { ReachedCommits(answers, 0, k); }
  }

  lemma {:induction false} CommitsReach(answers: seq<Commit>, attempt: nat) returns (k: nat)
    requires attempt <= 5 && Commits(answers, attempt)
    requires forall i: nat :: i < attempt ==> i < |answers| && answers[i] == Retryable
    ensures k <= 5 && ThroughAt(answers, k)
    decreases 6 - attempt
  {
    if attempt >= |answers| || answers[attempt] == Committed { k := attempt; } else { k := CommitsReach(answers, attempt + 1); }
  }

  lemma {:induction false} ReachedCommits(answers: seq<Commit>, attempt: nat, k: nat)
    requires attempt <= k <= 5 && ThroughAt(answers, k)
    ensures Commits(answers, attempt)
    decreases k - attempt
  {
    if attempt < k { ReachedCommits(answers, attempt + 1, k); }
  }

  /** A file is skipped, parsed or failed by what it holds and how its commits fare. */
  lemma ParsedExactly(rows: FileRows, outcome: Outcome)
    ensures var status := ParsedRows(rows, outcome).book.status;
      if outcome.Unreadable? then status == Failed
      else
        var data, answers := outcome.data, outcome.answers;
        if data.jams == 0 && data.penalties == 0 && data.homeScore == 0 && data.awayScore == 0
        then status == if answers == [] || answers[0] == Committed then Skipped else Failed
        else (status == Parsed <==>
                && data.date.Some? && !Repeats(data.home.skaters) && !Repeats(data.away.skaters)
                && exists k: nat :: k <= 5 && ThroughAt(answers, k))
             && (status != Parsed ==> status == Failed)
  {
    if outcome.Content? {
      SkaterRowsExactly(Home, outcome.data.home.skaters);
      SkaterRowsExactly(Away, outcome.data.away.skaters);
      CommitsExactly(outcome.answers);
    }
    hide SkaterRows, Repeats, Commits, ThroughAt;
  }

  lemma StoredIsComplete(rows: FileRows, data: GameData)
    requires Storable(data) && !HasNoGameData(data)
    ensures Complete(Stored(rows, data))
  {
    SkaterRowsMeaning(Home, data.home.skaters);
    SkaterRowsMeaning(Away, data.away.skaters);
    var stored := Stored(rows, data);
    forall side, k: Skater | k in SideOfData(data, side).skaters && k.name != ""
      ensures (side, k.number) in stored.skaters && stored.skaters[(side, k.number)] == k.name
    {
      assert side == Home || side == Away;
    }
  }

  lemma SameRowsComplete(rows: FileRows, rows': FileRows)
    requires rows'.game == rows.game && rows'.skaters == rows.skaters && rows'.summaries == rows.summaries
    requires rows'.sides.Keys == rows.sides.Keys
    requires forall side :: side in rows.sides ==>
               rows'.sides[side].league == rows.sides[side].league && rows'.sides[side].team == rows.sides[side].team
    ensures Complete(rows) ==> Complete(rows')
    ensures NoRows(rows) ==> NoRows(rows')
  {}

  lemma ParseKeeps(rows: FileRows, outcome: Outcome)
    requires FileInv(rows)
    ensures FileInv(ParsedRows(rows, outcome))
  {
    if Succeeds(outcome) {
      hide Complete;
      if !HasNoGameData(outcome.data) { StoredIsComplete(rows, outcome.data); }
    } else {
      SameRowsComplete(rows, ParsedRows(rows, outcome));
      hide Complete;
    }
  }

  lemma WriteKeeps(rows: FileRows, r: Resolution)
    requires FileInv(rows) && WellShaped(r)
    ensures FileInv(Resolved(rows, r))
  {
    SameRowsComplete(rows, Resolved(rows, r));
    assert Complete(rows) ==> Home in rows.sides && Away in rows.sides;
    hide Complete;
  }

  lemma HideKeeps(rows: FileRows)
    requires FileInv(rows)
    ensures FileInv(HiddenRows(rows))
  {
    SameRowsComplete(rows, HiddenRows(rows));
    hide Complete;
  }

  lemma BookKeeps(rows: FileRows, book: Book)
    requires FileInv(rows)
    requires book.status == Pending || (book.status == rows.book.status && book.parserVersion == rows.book.parserVersion)
    ensures FileInv(rows.(book := book))
  {
    SameRowsComplete(rows, rows.(book := book));
    hide Complete;
  }

  lemma NewFileInv(modified: int, now: int)
    ensures FileInv(FileRows(NewBook(modified, now), None, map[], map[], {}, None))
  {}

  lemma UpsertKeepsInv(db: Db, id: FileId, modified: int, now: int)
    requires Inv(db)
    ensures Inv(Upsert(db, id, modified, now))
  {
    if id in db { BookKeeps(db[id], Upsert(db, id, modified, now)[id].book); } else { NewFileInv(modified, now); }
    hide FileInv;
  }

  lemma ParseKeepsInv(db: Db, id: FileId, outcome: Outcome)
    requires Inv(db)
    ensures Inv(ParseFile(db, id, outcome))
  {
    if id in db { ParseKeeps(db[id], outcome); }
    hide FileInv, ParsedRows;
  }

  lemma WriteBatchKeepsInv(db: Db, batch: map<FileId, Resolution>)
    requires Inv(db) && forall id :: id in batch ==> WellShaped(batch[id])
    ensures Inv(WriteBatch(db, batch))
  {
    hide FileInv, Resolved, WellShaped;
    forall id | id in db && id in batch ensures FileInv(Resolved(db[id], batch[id])) {
      WriteKeeps(db[id], batch[id]);
    }
  }

  lemma HideKeepsInv(db: Db, losers: set<FileId>)
    requires Inv(db)
    ensures Inv(Hide(db, losers))
  {
    hide FileInv, HiddenRows;
    forall id | id in db ensures FileInv(HiddenRows(db[id])) { HideKeeps(db[id]); }
  }

  /** Every transaction keeps the invariant. */
  lemma StepKeepsInv(db: Db, step: Step)
    requires Inv(db) && LegalStep(step)
    ensures Inv(Apply(db, step))
  {
    match step
    case DoUpsert(id, modified, now) => UpsertKeepsInv(db, id, modified, now);
    case DoRemove(marker) => hide FileInv;
    case DoParse(id, outcome) => ParseKeepsInv(db, id, outcome);
    case DoWrite(batch) => WriteBatchKeepsInv(db, batch);
    case DoHide(losers) => HideKeepsInv(db, losers);
  }

  /** Every run from an empty database, in any interleaving, satisfies it. */
  lemma {:induction false} RunKeepsInv(db: Db, steps: seq<Step>)
    requires Inv(db) && forall i :: 0 <= i < |steps| ==> LegalStep(steps[i])
    ensures Inv(Run(db, steps))
    decreases |steps|
  {
    hide Inv, LegalStep, Apply;
    if steps != [] {
      StepKeepsInv(db, steps[0]);
      RunKeepsInv(Apply(db, steps[0]), steps[1..]);
    }
  }

  // ---------- what the parse queue leaves out ----------

  /** What a reader of each revision of each file would find. */
  type Revisions = (FileId, int) -> GameData

  /** Parsing reads the revision the row names. */
  ghost predicate ReadsRevision(db: Db, step: Step, revisions: Revisions) {
    step.DoParse? && step.outcome.Content? && step.file in db ==>
      && db[step.file].book.modifiedTime.Some?
      && step.outcome.data == revisions(step.file, db[step.file].book.modifiedTime.value)
  }

  /** A row the queue's filter skips holds what its current revision holds. */
  ghost predicate UpToDate(id: FileId, rows: FileRows, revisions: Revisions) {
    && (rows.book.parserVersion.Some? ==> rows.book.parserVersion.value <= 24)
    && (!NeedsParse(rows.book) ==>
          && rows.book.parserVersion == Some(24) && rows.book.modifiedTime.Some?
          && var data := revisions(id, rows.book.modifiedTime.value);
          && if HasNoGameData(data) then NoRows(rows) && rows.book.status == Skipped
             else rows.game == Some(data) && rows.book.status == Parsed)
  }

  ghost predicate AllUpToDate(db: Db, revisions: Revisions) {
    forall id :: id in db ==> UpToDate(id, db[id], revisions)
  }

  lemma StepKeepsUpToDate(db: Db, step: Step, revisions: Revisions)
    requires Inv(db) && ReadsRevision(db, step, revisions) && AllUpToDate(db, revisions)
    ensures AllUpToDate(Apply(db, step), revisions)
  {
    hide Complete, SkaterRows;
  }

  ghost predicate AllReadRevisions(db: Db, steps: seq<Step>, revisions: Revisions)
    decreases |steps|
  {
    steps == [] || (ReadsRevision(db, steps[0], revisions) && AllReadRevisions(Apply(db, steps[0]), steps[1..], revisions))
  }

  /** After any run, every row outside the parse queue is complete and current. */
  lemma {:induction false} FilteredOutIsCurrent(db: Db, steps: seq<Step>, revisions: Revisions)
    requires Inv(db) && forall i :: 0 <= i < |steps| ==> LegalStep(steps[i])
    requires AllReadRevisions(db, steps, revisions) && AllUpToDate(db, revisions)
    ensures AllUpToDate(Run(db, steps), revisions) && Inv(Run(db, steps))
    decreases |steps|
  {
    if steps != [] {
      StepKeepsInv(db, steps[0]);
      StepKeepsUpToDate(db, steps[0], revisions);
      hide AllUpToDate, Inv, Apply, LegalStep, ReadsRevision;
      FilteredOutIsCurrent(Apply(db, steps[0]), steps[1..], revisions);
    }
  }
}
