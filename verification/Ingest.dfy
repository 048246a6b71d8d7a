/** The stages that fill the tables: indexing the Drive listing
    (src/ingest/statsbook_index.rs), parsing what is pending
    (src/ingest/statsbook_parse.rs) and draining the queue (src/ingest/mod.rs).
    Each method runs statement by statement and is proved to amount to the
    transactions of `Tables`. */
module Ingest {
  import opened Text
  import opened Tables

  const PARSE_BATCH_LIMIT: nat := 500

  // ---------- what indexing does ----------

  /** One listed Drive file; the time is absent when it cannot be parsed. */
  datatype Listed = Listed(id: FileId, modified: Option<int>)

  datatype IndexStats = IndexStats(seen: nat, removed: nat)

  /** The first `n` listed files upserted; `clock(i)` is the i-th reading of now(). */
  function Upserted(db: Db, tree: seq<Listed>, clock: nat -> int, n: nat): Db
    requires n <= |tree| && Usable(tree, n)
  {
    if n == 0 then db
    else Upsert(Upserted(db, tree, clock, n - 1), tree[n - 1].id, tree[n - 1].modified.value, clock(n))
  }

  predicate Usable(tree: seq<Listed>, n: nat)
    requires n <= |tree|
  {
    forall i :: 0 <= i < n ==> tree[i].modified.Some?
  }

  /** Where the upserts stop: at an unusable time, at a failing statement or at
      the end. `fails(i)` says whether the database refuses the i-th statement. */
  function StopAt(tree: seq<Listed>, fails: nat -> bool, n: nat := 0): (stop: nat)
    requires n <= |tree|
    ensures n <= stop <= |tree| && forall i :: n <= i < stop ==> tree[i].modified.Some? && !fails(i)
    ensures stop < |tree| ==> tree[stop].modified.None? || fails(stop)
    decreases |tree| - n
  {
    if n == |tree| || tree[n].modified.None? || fails(n) then n else StopAt(tree, fails, n + 1)
  }

  lemma StopLater(tree: seq<Listed>, fails: nat -> bool, n: nat)
    requires n < |tree| && tree[n].modified.Some? && !fails(n)
    ensures StopAt(tree, fails, n) == StopAt(tree, fails, n + 1)
  {
  }

  lemma StopHere(tree: seq<Listed>, fails: nat -> bool, n: nat)
    requires n <= |tree| && (n < |tree| ==> tree[n].modified.None? || fails(n))
    ensures StopAt(tree, fails, n) == n
  {
  }

  lemma NoUpserts(db: Db, tree: seq<Listed>, clock: nat -> int)
    ensures Upserted(db, tree, clock, 0) == db
  {
  }

  lemma UpsertNext(db: Db, tree: seq<Listed>, clock: nat -> int, n: nat)
    requires n < |tree| && Usable(tree, n + 1)
    ensures Upserted(db, tree, clock, n + 1)
         == Upsert(Upserted(db, tree, clock, n), tree[n].id, tree[n].modified.value, clock(n + 1))
  {
    hide Upsert;
  }

  lemma {:induction false} UpsertedKeys(db: Db, tree: seq<Listed>, clock: nat -> int, n: nat)
    requires n <= |tree| && Usable(tree, n)
    ensures Upserted(db, tree, clock, n).Keys == db.Keys + ListedIds(tree, n)
  {
    if n > 0 { UpsertedKeys(db, tree, clock, n - 1); }
  }

  // ---------- the parse queue ----------

  ghost function Queue(db: Db): set<FileId> { set id | id in db && NeedsParse(db[id].book) }

  /** Not tried yet, tried in vain, or parsed by an older version of the parser. */
  predicate Waits(book: Book) {
    book.status == Pending || book.status == Failed || (book.parserVersion.Some? && book.parserVersion.value < 24)
  }

  /** Oldest revision first, unknown times before all others, then by id. */
  predicate QueueBefore(x: Option<int>, idX: FileId, y: Option<int>, idY: FileId) {
    if x == y then StrLess(idX, idY)
    else x.None? || (y.Some? && x.value < y.value)
  }

  predicate Ahead(db: Db, x: FileId, y: FileId)
    requires x in db && y in db
  {
    QueueBefore(db[x].book.modifiedTime, x, db[y].book.modifiedTime, y)
  }

  /** `x` is no newer than `y`, an unknown time being the oldest; at equal times
      it has the smaller id. */
  predicate NoNewer(db: Db, x: FileId, y: FileId)
    requires x in db && y in db
  {
    var time, other := db[x].book.modifiedTime, db[y].book.modifiedTime;
    && (other.None? ==> time.None?)
    && (time.Some? && other.Some? ==> time.value <= other.value)
    && (time == other ==> StrLess(x, y))
  }

  lemma AheadExactly(db: Db, x: FileId, y: FileId)
    requires x in db && y in db
    ensures Ahead(db, x, y) <==> NoNewer(db, x, y)
  {}

  lemma AheadIsStrictTotal(db: Db, x: FileId, y: FileId, z: FileId)
    requires x in db && y in db && z in db
    ensures !Ahead(db, x, x)
    ensures x != y ==> Ahead(db, x, y) != Ahead(db, y, x)
    ensures Ahead(db, x, y) && Ahead(db, y, z) ==> Ahead(db, x, z)
  {
    StrLessIrreflexive(x);
    StrLessTotal(x, y);
    if StrLess(x, y) && StrLess(y, x) { StrLessTransitive(x, y, x); }
    if StrLess(x, y) && StrLess(y, z) { StrLessTransitive(x, y, z); }
  }

  lemma {:induction false} QueueHead(db: Db, ids: set<FileId>) returns (head: FileId)
    requires ids != {} && ids <= db.Keys
    ensures head in ids && forall id :: id in ids && id != head ==> Ahead(db, head, id)
  {
    var id :| id in ids;
    if ids == {id} {
      head := id;
    } else {
      var rest := ids - {id};
      head := QueueHead(db, rest);
      AheadIsStrictTotal(db, head, id, id);
      if Ahead(db, id, head) {
        forall other | other in rest && other != head ensures Ahead(db, id, other) {
          AheadIsStrictTotal(db, id, head, other);
        }
        head := id;
      }
      hide Ahead;
      assert ids == rest + {id};
    }
  }

  /** `batch` is what SELECT .. ORDER BY .. LIMIT returns: the front of the queue. */
  ghost predicate IsFront(db: Db, batch: set<FileId>, limit: nat) {
    && batch <= Queue(db)
    && |batch| == (if |Queue(db)| < limit then |Queue(db)| else limit)
    && forall x, y :: x in batch && y in Queue(db) - batch ==> Ahead(db, x, y)
  }

  /** All files of a batch parsed, whatever the order they finished in. */
  ghost function ParsedBatch(db: Db, batch: set<FileId>, outcomes: FileId -> Outcome): Db {
    map id | id in db :: if id in batch then ParsedRows(db[id], outcomes(id)) else db[id]
  }

  ghost function Successes(batch: set<FileId>, outcomes: FileId -> Outcome): set<FileId> {
    set id | id in batch && Succeeds(outcomes(id))
  }

  function IdsOf(rows: seq<FileId>): set<FileId> { set id | id in rows }

  class Database {
    var files: Db
    /** Files with bytes in the on-disk cache. */
    var cached: set<FileId>

    constructor ()
      ensures files == map[] && cached == {}
    {
      files, cached := map[], {};
    }

    // ---------- stage 3 ----------

    method UpsertStatsbook(id: FileId, modified: int, now: int)
      modifies this`files
      ensures files == Upsert(old(files), id, modified, now)
    {
      if id !in files {
        files := files[id := FileRows(NewBook(modified, now), None, map[], map[], {}, None)];
      } else {
        var book := files[id].book;
        if book.modifiedTime != Some(modified) {
          book := book.(status := Pending, parserVersion := None);
        }
        files := files[id := files[id].(book := book.(modifiedTime := Some(modified), lastSeen := now))];
      }
    }

    /** Deletes what was not seen and the bytes cached for it. */
    method MarkRemoved(seenBefore: int) returns (removed: nat)
      modifies this
      ensures files == RemoveUnseen(old(files), seenBefore)
      ensures cached == old(cached) - (old(files).Keys - files.Keys)
      ensures removed == |old(files).Keys - files.Keys|
    {
      var doomed := set id | id in files && files[id].book.lastSeen < seenBefore;
      files := files - doomed;
      removed := |doomed|;
      assert old(files).Keys - files.Keys == doomed;
      RemoveCached(doomed);
    }

    method RemoveCached(ids: set<FileId>)
      modifies this`cached
      ensures cached == old(cached) - ids
    {
      var todo := ids;
      while todo != {}
        invariant todo <= ids && cached == old(cached) - (ids - todo)
      {
        var id :| id in todo;
        cached := cached - {id};
        todo := todo - {id};
      }
    }

    /** Stage 3: upsert every listed file, then retract the rest; any failure
        before that returns early. */
    method SyncStatsbookIndex(listing: Result<seq<Listed>, string>, clock: nat -> int, fails: nat -> bool)
      returns (r: Result<IndexStats, string>)
      modifies this
      ensures r.Ok? <==> listing.Ok? && StopAt(listing.value, fails) == |listing.value| && !fails(|listing.value|)
      ensures listing.Err? ==> files == old(files)
      ensures listing.Ok? ==>
                var tree := listing.value;
                var upserted := Upserted(old(files), tree, clock, StopAt(tree, fails));
                files == if r.Ok? then RemoveUnseen(upserted, clock(0)) else upserted
      ensures r.Err? ==> cached == old(cached)
      ensures r.Ok? ==> cached == old(cached) - (old(files).Keys + ListedIds(listing.value, |listing.value|) - files.Keys)
      ensures r.Ok? ==> r.value.seen == |listing.value|
    {
      var marker := clock(0);
      if listing.Err? { return Err(listing.error); }
      var tree := listing.value;
      var seen := UpsertListed(tree, clock, fails);
      hide Upserted, ListedIds, StopAt, Usable;
      if seen < |tree| {
        return Err(if tree[seen].modified.None? then "unparsable modifiedTime" else "upserting statsbook");
      }
      if fails(seen) { return Err("removing unseen statsbooks"); }
      var removed := MarkRemoved(marker);
      r := Ok(IndexStats(seen, removed));
    }

    /** The upserts of the listed files, up to the first that cannot be made. */
    method UpsertListed(tree: seq<Listed>, clock: nat -> int, fails: nat -> bool) returns (seen: nat)
      modifies this`files
      ensures seen == StopAt(tree, fails) && files == Upserted(old(files), tree, clock, seen)
      ensures files.Keys == old(files).Keys + ListedIds(tree, seen)
    {
      seen := 0;
      NoUpserts(files, tree, clock);
      hide Upsert, Upserted, ListedIds, StopAt;
      while seen < |tree| && tree[seen].modified.Some? && !fails(seen)
        invariant 0 <= seen <= |tree| && StopAt(tree, fails) == StopAt(tree, fails, seen)
        invariant Usable(tree, seen) && files == Upserted(old(files), tree, clock, seen)
      {
        StopLater(tree, fails, seen);
        UpsertNext(old(files), tree, clock, seen);
        UpsertStatsbook(tree[seen].id, tree[seen].modified.value, clock(seen + 1));
        seen := seen + 1;
      }
      StopHere(tree, fails, seen);
      UpsertedKeys(old(files), tree, clock, seen);
    }

    // ---------- stage 4 ----------

    method DeleteParsedRows(id: FileId)
      requires id in files
      modifies this`files
      ensures files == old(files)[id := FileRows(old(files)[id].book, None, map[], map[], {}, old(files)[id].matched)]
    {
      // Deleting the sides cascades to the skaters, deleting the game to the summary.
      files := files[id := files[id].(sides := map[], skaters := map[])];
      files := files[id := files[id].(summaries := {})];
      files := files[id := files[id].(game := None, summaries := {})];
    }

    method MarkSkipped(id: FileId, answers: seq<Commit>) returns (ok: bool)
      requires id in files
      modifies this`files
      ensures ok == CommitsAtOnce(answers)
      ensures files == if ok then old(files)[id := SkippedRows(old(files)[id])] else old(files)
    {
      var snapshot := files;
      DeleteParsedRows(id);
      files := files[id := files[id].(book := files[id].book.(
        status := Skipped, parserVersion := Some(PARSER_VERSION), parseError := None))];
      ok := CommitsAtOnce(answers);
      if !ok { files := snapshot; }
    }

    /** The statements of one write transaction, before its commit. */
    method ReplaceParsedRows(id: FileId, data: GameData) returns (ok: bool)
      requires id in files && data.date.Some?
      modifies this`files
      ensures ok == Storable(data)
      ensures ok ==> files == old(files)[id := Stored(old(files)[id], data)]
    {
      DeleteParsedRows(id);
      var rows := files[id];
      rows := rows.(game := Some(data));
      rows := rows.(sides := rows.sides[Home := SideRow(None, data.home.league, data.home.team)]);
      rows := rows.(sides := rows.sides[Away := SideRow(None, data.away.league, data.away.team)]);
      var homeRows, awayRows := SkaterRows(Home, data.home.skaters), SkaterRows(Away, data.away.skaters);
      if homeRows.None? || awayRows.None? { return false; }
      rows := rows.(skaters := homeRows.value + awayRows.value);
      if data.hasSummary { rows := rows.(summaries := {Home, Away}); }
      rows := rows.(book := rows.book.(status := Parsed, parserVersion := Some(PARSER_VERSION), parseError := None));
      files := files[id := rows];
      ok := true;
    }

    /** Writes one parsed game, retrying the whole transaction when the database
        asks for it; a failed insert or commit leaves nothing behind. */
    method StoreParsedGame(id: FileId, data: GameData, answers: seq<Commit>) returns (ok: bool)
      requires id in files
      modifies this`files
      ensures ok == Succeeds(Content(data, answers))
      ensures files == if ok then old(files)[id := ParsedRows(old(files)[id], Content(data, answers))] else old(files)
    {
      if HasNoGameData(data) {
        ok := MarkSkipped(id, answers);
        return;
      }
      if data.date.None? { return false; }
      hide Stored, Storable, SkippedRows, HasNoGameData;
      var attempt := 0;
      while true
        invariant 0 <= attempt <= MAX_RETRIES
        invariant files == old(files)
        invariant Commits(answers, 0) == Commits(answers, attempt)
        decreases MAX_RETRIES - attempt
      {
        var snapshot := files;
        var inserted := ReplaceParsedRows(id, data);
        if !inserted {
          files := snapshot;
          return false;
        }
        var answer := if attempt < |answers| then answers[attempt] else Committed;
        if answer == Committed { return true; }
        files := snapshot;
        if answer == Fatal || attempt == MAX_RETRIES { return false; }
        attempt := attempt + 1;
      }
    }

    /** The error is recorded and the file tried again, its earlier parse kept. */
    method SetFailed(id: FileId, error: string)
      requires id in files
      modifies this`files
      ensures files == old(files)[id := FailedRows(old(files)[id], error)]
      ensures Queue(files) == Queue(old(files)) + {id} && files[id].book.parseError == Some(error)
      ensures files[id].(book := old(files)[id].book) == old(files)[id]
      ensures forall other :: other in old(files) && other != id ==>
                other in files && files[other] == old(files)[other]
                && (Ahead(files, id, other) <==> Ahead(old(files), id, other))
    {
      files := files[id := files[id].(book := files[id].book.(status := Failed, parseError := Some(error)))];
    }

    /** One row of a parse batch, from download to committed result. */
    method ParseRow(id: FileId, outcome: Outcome) returns (ok: bool)
      requires id in files
      modifies this`files
      ensures ok == Succeeds(outcome)
      ensures files == ParseFile(old(files), id, outcome)
    {
      match outcome
      case Unreadable(error) =>
        SetFailed(id, error);
        ok := false;
      case Content(data, answers) =>
        ok := StoreParsedGame(id, data, answers);
        if !ok { SetFailed(id, STORE_ERROR); }
    }

    /** The front of the queue, in queue order. */
    method SelectPending(limit: nat) returns (rows: seq<FileId>)
      ensures IsFront(files, IdsOf(rows), limit)
      ensures |rows| == |IdsOf(rows)|
      ensures forall id :: id in Queue(files) <==> id in files && Waits(files[id].book)
      ensures forall id :: id in rows ==> id in files
      ensures forall i, j :: 0 <= i < j < |rows| ==> NoNewer(files, rows[i], rows[j])
      ensures forall id, other :: id in rows && other in Queue(files) && other !in rows ==> NoNewer(files, id, other)
    {
      var rest := set id | id in files && NeedsParse(files[id].book);
      rows := [];
      while rest != {} && |rows| < limit
        invariant |rows| <= limit && Taken(files, rows, rest)
      {
        ghost var head := QueueHead(files, rest);
        TakeNext(files, rows, rest, head);
        hide Ahead, NeedsParse, Taken, IsFront;
        var id :| id in rest && forall other :: other in rest && other != id ==> Ahead(files, id, other);
        HeadUnique(files, rest, head, id);
        rows := rows + [id];
        rest := rest - {id};
      }
      TakenIsFront(files, rows, rest, limit);
      TakenIsOldest(files, rows, rest);
      assert forall id :: id in Queue(files) <==> id in files && Waits(files[id].book);
      hide NeedsParse, Ahead, IsFront, NoNewer;
    }

    /** Stage 4: parse up to `limit` rows; failures never abort the batch. The
        rows run concurrently, so they may finish in any order. */
    method ParsePending(limit: nat, outcomes: FileId -> Outcome) returns (selected: nat, succeeded: nat, ghost batch: set<FileId>)
      modifies this`files
      ensures IsFront(old(files), batch, limit)
      ensures files == ParsedBatch(old(files), batch, outcomes)
      ensures selected == |batch| && succeeded == |Successes(batch, outcomes)|
    {
      hide NoNewer, Waits;
      var rows := SelectPending(limit);
      selected := |rows|;
      var todo := IdsOf(rows);
      batch := todo;
      succeeded := 0;
      ghost var done: set<FileId> := {};
      hide ParsedBatch, IsFront, Ahead;
      NothingParsed(files, outcomes);
      while todo != {}
        invariant done == batch - todo && todo <= batch && batch <= old(files).Keys
        invariant files == ParsedBatch(old(files), done, outcomes) && files.Keys == old(files).Keys
        invariant succeeded == |Successes(done, outcomes)|
      {
        var id :| id in todo;
        BatchStep(old(files), done, id, outcomes);
        var ok := ParseRow(id, outcomes(id));
        if ok { succeeded := succeeded + 1; }
        done := done + {id};
        todo := todo - {id};
      }
      assert done == batch;
    }

    /** Parses batch after batch until a batch is short or succeeds on nothing.
        Each round downloads again, so a file may fare differently in each. */
    method DrainPending(outcomes: Rounds) returns (succeeded: nat, ghost batches: seq<set<FileId>>)
      modifies this`files
      ensures IsDrain(old(files), batches, outcomes)
      ensures files == AfterRounds(old(files), batches, outcomes)
      ensures succeeded == |Queue(old(files))| - |Queue(files)|
    {
      hide Queue, IsFront, ParsedBatch, Successes, AllFront, AfterRounds;
      succeeded, batches := 0, [];
      var round := 0;
      NoRounds(files, outcomes);
      while true
        invariant round == |batches| && AllFront(old(files), batches, outcomes)
        invariant forall r | 0 <= r < |batches| :: GoesOn(batches[r], outcomes(r))
        invariant files == AfterRounds(old(files), batches, outcomes)
        invariant succeeded == |Queue(old(files))| - |Queue(files)|
        decreases |Queue(files)|
      {
        ghost var before := files;
        var selected, ok, batch := ParsePending(PARSE_BATCH_LIMIT, outcomes(round));
        FrontIsQueued(before, batch, PARSE_BATCH_LIMIT);
        BatchQueue(before, batch, outcomes(round));
        NextRound(old(files), batches, batch, outcomes);
        batches := batches + [batch];
        succeeded := succeeded + ok;
        if selected < PARSE_BATCH_LIMIT || ok == 0 { break; }
        assert Successes(batch, outcomes(round)) != {};
        round := round + 1;
      }
    }
  }

  // ---------- the rounds of a drain ----------

  /** What each file comes to in each round. */
  type Rounds = nat -> FileId -> Outcome

  ghost function AfterRounds(db: Db, batches: seq<set<FileId>>, outcomes: Rounds): Db
    decreases |batches|
  {
    if batches == [] then db
    else
      var last := |batches| - 1;
      ParsedBatch(AfterRounds(db, batches[..last], outcomes), batches[last], outcomes(last))
  }

  /** Each batch is the front of the queue that the rounds before it left. */
  ghost predicate AllFront(db: Db, batches: seq<set<FileId>>, outcomes: Rounds)
    decreases |batches|
  {
    batches != [] ==>
      var last := |batches| - 1;
      AllFront(db, batches[..last], outcomes)
      && IsFront(AfterRounds(db, batches[..last], outcomes), batches[last], PARSE_BATCH_LIMIT)
  }

  lemma NoRounds(db: Db, outcomes: Rounds)
    ensures AllFront(db, [], outcomes) && AfterRounds(db, [], outcomes) == db
  {
  }

  lemma NextRound(db: Db, batches: seq<set<FileId>>, batch: set<FileId>, outcomes: Rounds)
    requires AllFront(db, batches, outcomes) && IsFront(AfterRounds(db, batches, outcomes), batch, PARSE_BATCH_LIMIT)
    ensures AllFront(db, batches + [batch], outcomes)
    ensures AfterRounds(db, batches + [batch], outcomes)
         == ParsedBatch(AfterRounds(db, batches, outcomes), batch, outcomes(|batches|))
  {
    assert (batches + [batch])[..|batches|] == batches;
    hide IsFront, ParsedBatch;
  }

  ghost predicate GoesOn(batch: set<FileId>, outcomes: FileId -> Outcome) {
    |batch| >= PARSE_BATCH_LIMIT && Successes(batch, outcomes) != {}
  }

  /** The last round, and only it, is short or succeeds on nothing. */
  ghost predicate IsDrain(db: Db, batches: seq<set<FileId>>, outcomes: Rounds) {
    && batches != [] && AllFront(db, batches, outcomes)
    && forall r | 0 <= r < |batches| :: GoesOn(batches[r], outcomes(r)) <==> r < |batches| - 1
  }

  /** Every round takes the oldest revisions that are queued then. */
  lemma {:induction false} RoundsTakeOldest(db: Db, batches: seq<set<FileId>>, outcomes: Rounds, round: nat, x: FileId, y: FileId)
    requires AllFront(db, batches, outcomes) && round < |batches|
    requires var before := AfterRounds(db, batches[..round], outcomes);
      x in batches[round] && y in Queue(before) - batches[round]
    ensures var before := AfterRounds(db, batches[..round], outcomes); x in before && NoNewer(before, x, y)
    decreases |batches|
  {
    var last := |batches| - 1;
    if round == last {
      AheadExactly(AfterRounds(db, batches[..last], outcomes), x, y);
    } else {
      assert batches[..last][..round] == batches[..round];
      RoundsTakeOldest(db, batches[..last], outcomes, round, x, y);
    }
  }

  /** The rows the last round tried in vain. */
  ghost function FailedLast(batches: seq<set<FileId>>, outcomes: Rounds): set<FileId>
    requires batches != []
  {
    var last := |batches| - 1;
    batches[last] - Successes(batches[last], outcomes(last))
  }

  ghost function FailedAhead(db: Db, batches: seq<set<FileId>>, outcomes: Rounds, id: FileId): set<FileId>
    requires batches != [] && id in db
  {
    set f | f in FailedLast(batches, outcomes) && f in db && Ahead(db, f, id)
  }

  /** However files fare from round to round: what stays queued was tried in the
      last round in vain, except for what has a full batch of such rows ahead. */
  lemma LastRoundExactly(db: Db, batches: seq<set<FileId>>, outcomes: Rounds, id: FileId)
    requires IsDrain(db, batches, outcomes) && id in Queue(AfterRounds(db, batches, outcomes))
    ensures FailedLast(batches, outcomes) <= Queue(AfterRounds(db, batches, outcomes))
    ensures id in FailedLast(batches, outcomes)
       <==> |FailedAhead(AfterRounds(db, batches, outcomes), batches, outcomes, id)| < 500
  {
    var last := |batches| - 1;
    var before, batch, outcome := AfterRounds(db, batches[..last], outcomes), batches[last], outcomes(last);
    var after := AfterRounds(db, batches, outcomes);
    assert !GoesOn(batch, outcome);
    SameRanks(before, batch, outcome);
    LastBatch(before, batch, outcome, id);
    hide AfterRounds, ParsedBatch, Ahead, Queue, IsFront;
    assert FailedAhead(after, batches, outcomes, id) == set f | f in batch - Successes(batch, outcome) && f in before && Ahead(before, f, id);
  }

  /** A row that the last batch had no room for waits behind a full batch, all failed. */
  lemma WaitsBehind(db: Db, batch: set<FileId>, outcomes: FileId -> Outcome, id: FileId)
    requires IsFront(db, batch, PARSE_BATCH_LIMIT) && !GoesOn(batch, outcomes) && id in Queue(db) - batch
    ensures |batch| == PARSE_BATCH_LIMIT && Successes(batch, outcomes) == {}
    ensures forall f | f in batch :: f in db && Ahead(db, f, id)
  {
    hide NeedsParse, Succeeds, Ahead;
    SizeSplit(Queue(db), batch);
    SizeSplit(Queue(db) - batch, {id});
  }

  /** What a batch that ends the drain fails on, seen from a row left queued. */
  lemma LastBatch(db: Db, batch: set<FileId>, outcomes: FileId -> Outcome, id: FileId)
    requires IsFront(db, batch, PARSE_BATCH_LIMIT) && !GoesOn(batch, outcomes)
    requires id in Queue(ParsedBatch(db, batch, outcomes))
    ensures batch - Successes(batch, outcomes) <= Queue(ParsedBatch(db, batch, outcomes)) && id in db
    ensures var ahead := set f | f in batch - Successes(batch, outcomes) && f in db && Ahead(db, f, id);
            id in batch - Successes(batch, outcomes) <==> |ahead| < PARSE_BATCH_LIMIT
  {
    BatchQueue(db, batch, outcomes);
    InQueueInDb(db, id);
    if id in batch {
      BatchHasRoom(db, batch, outcomes, id);
      hide ParsedBatch, Ahead, Queue, GoesOn, IsFront;
    } else {
      WaitsBehind(db, batch, outcomes, id);
      hide ParsedBatch, Ahead, Queue, GoesOn, IsFront, Successes;
      assert batch == set f | f in batch - Successes(batch, outcomes) && f in db && Ahead(db, f, id);
    }
  }

  /** Fewer than a batch are ahead of a row within it. */
  lemma BatchHasRoom(db: Db, batch: set<FileId>, outcomes: FileId -> Outcome, id: FileId)
    requires |batch| <= PARSE_BATCH_LIMIT && id in batch && id in db
    ensures |set f | f in batch - Successes(batch, outcomes) && f in db && Ahead(db, f, id)| < PARSE_BATCH_LIMIT
  {
    AheadIsStrictTotal(db, id, id, id);
    hide Ahead, Successes;
    SizeSplit(batch - {id}, set f | f in batch - Successes(batch, outcomes) && f in db && Ahead(db, f, id));
    SizeSplit(batch, {id});
  }

  lemma SameRanks(db: Db, batch: set<FileId>, outcomes: FileId -> Outcome)
    ensures forall x, y | x in db && y in db :: Ahead(ParsedBatch(db, batch, outcomes), x, y) == Ahead(db, x, y)
  {
    forall x | x in db ensures ParsedBatch(db, batch, outcomes)[x].book.modifiedTime == db[x].book.modifiedTime {
      ParsedQueue(db[x], outcomes(x));
    }
    hide ParsedRows, QueueBefore;
  }

  /** If fewer than a batch failed in the last round, nothing else stays queued. */
  lemma FewLastFailures(db: Db, batches: seq<set<FileId>>, outcomes: Rounds)
    requires IsDrain(db, batches, outcomes) && batches != [] && |FailedLast(batches, outcomes)| < 500
    ensures Queue(AfterRounds(db, batches, outcomes)) <= FailedLast(batches, outcomes)
  {
    hide IsDrain, Queue, AfterRounds, FailedLast, Ahead;
    var after := AfterRounds(db, batches, outcomes);
    forall id | id in Queue(after) ensures id in FailedLast(batches, outcomes) {
      InQueueInDb(after, id);
      LastRoundExactly(db, batches, outcomes, id);
      SizeSplit(FailedLast(batches, outcomes), FailedAhead(after, batches, outcomes, id));
    }
  }

  lemma InQueueInDb(db: Db, id: FileId)
    requires id in Queue(db)
    ensures id in db
  {}

  // ---------- what draining achieves ----------

  /** The failing files that are before `id` in the queue. */
  ghost function FailingAhead(db: Db, id: FileId, outcomes: FileId -> Outcome): set<FileId>
    requires id in db
  {
    set f | f in db && f in Queue(db) && !Succeeds(outcomes(f)) && Ahead(db, f, id)
  }

  ghost predicate Draining(db: Db, db': Db, outcomes: FileId -> Outcome) {
    && db'.Keys == db.Keys
    && (forall id :: id in db ==> db'[id] == db[id] || (id in Queue(db) && db'[id] == ParsedRows(db[id], outcomes(id))))
    && (forall id :: id in Queue(db) && !Succeeds(outcomes(id)) ==> id in Queue(db'))
    && (forall id :: id in Queue(db) && id !in Queue(db') ==> |FailingAhead(db, id, outcomes)| < PARSE_BATCH_LIMIT)
  }

  /** Only queued files changed, each to its parse result; what fails stays
      queued; and a file that can be parsed is left behind exactly when a full
      batch of failing files is queued before it. */
  ghost predicate Drained(db: Db, db': Db, outcomes: FileId -> Outcome) {
    && Draining(db, db', outcomes)
    && forall id :: id in Queue(db) && Succeeds(outcomes(id)) ==>
         (id in Queue(db') <==> |FailingAhead(db, id, outcomes)| >= PARSE_BATCH_LIMIT)
  }

  lemma StartDraining(db: Db, outcomes: FileId -> Outcome)
    ensures Draining(db, db, outcomes)
  {}

  lemma ParsedQueue(rows: FileRows, outcome: Outcome)
    ensures NeedsParse(ParsedRows(rows, outcome).book) <==> !Succeeds(outcome)
    ensures ParsedRows(rows, outcome).book.modifiedTime == rows.book.modifiedTime
    ensures !Succeeds(outcome) ==> ParsedRows(ParsedRows(rows, outcome), outcome) == ParsedRows(rows, outcome)
  {
    hide Succeeds;
  }

  lemma FrontIsQueued(db: Db, batch: set<FileId>, limit: nat)
    requires IsFront(db, batch, limit)
    ensures batch <= Queue(db)
  {}

  /** A batch takes exactly its successes off the queue. */
  lemma BatchQueue(db: Db, batch: set<FileId>, outcomes: FileId -> Outcome)
    requires batch <= Queue(db)
    ensures Queue(ParsedBatch(db, batch, outcomes)) == Queue(db) - Successes(batch, outcomes)
    ensures |Queue(ParsedBatch(db, batch, outcomes))| == |Queue(db)| - |Successes(batch, outcomes)|
  {
    var db' := ParsedBatch(db, batch, outcomes);
    forall id | id in db ensures id in Queue(db') <==> id in Queue(db) - Successes(batch, outcomes) {
      ParsedQueue(db[id], outcomes(id));
      hide Succeeds, ParsedRows, NeedsParse;
    }
    assert Queue(db') == Queue(db) - Successes(batch, outcomes);
    SizeSplit(Queue(db), Successes(batch, outcomes));
  }

  lemma SameOrder(db: Db, db': Db, outcomes: FileId -> Outcome, x: FileId, y: FileId)
    requires Draining(db, db', outcomes) && x in db && y in db
    ensures Ahead(db', x, y) <==> Ahead(db, x, y)
  {
    ParsedQueue(db[x], outcomes(x));
    ParsedQueue(db[y], outcomes(y));
    hide ParsedRows, QueueBefore, Queue, Succeeds;
  }

  /** A file in the front batch has fewer than a batch of failing files ahead. */
  lemma FrontHasRoom(db0: Db, db: Db, batch: set<FileId>, outcomes: FileId -> Outcome, id: FileId)
    requires Draining(db0, db, outcomes) && IsFront(db, batch, PARSE_BATCH_LIMIT)
    requires id in batch && id in Queue(db0)
    ensures |FailingAhead(db0, id, outcomes)| < PARSE_BATCH_LIMIT
  {
    var failing := FailingAhead(db0, id, outcomes);
    forall f | f in failing ensures f in batch - {id} {
      SameOrder(db0, db, outcomes, f, id);
      AheadIsStrictTotal(db, id, f, id);
      AheadIsStrictTotal(db, id, id, id);
      hide Ahead, Queue, Succeeds;
    }
    SizeSplit(batch - {id}, failing);
    SizeSplit(batch, {id});
  }

  lemma DrainRound(db0: Db, db: Db, batch: set<FileId>, outcomes: FileId -> Outcome)
    requires Draining(db0, db, outcomes) && IsFront(db, batch, PARSE_BATCH_LIMIT)
    ensures var db' := ParsedBatch(db, batch, outcomes);
            var ok := |Successes(batch, outcomes)|;
            && Draining(db0, db', outcomes)
            && |Queue(db')| == |Queue(db)| - ok
            && (|batch| < PARSE_BATCH_LIMIT || ok == 0 ==> Drained(db0, db', outcomes))
  {
    var db' := ParsedBatch(db, batch, outcomes);
    RoundKeepsDraining(db0, db, batch, outcomes);
    assert batch <= Queue(db);
    hide ParsedBatch, Draining, IsFront, Queue, Succeeds, Ahead;
    BatchQueue(db, batch, outcomes);
    QueueShrinks(db0, db, outcomes);
    if |batch| < PARSE_BATCH_LIMIT || |Successes(batch, outcomes)| == 0 {
      forall id | id in Queue(db0) && Succeeds(outcomes(id))
        ensures id in Queue(db') <==> |FailingAhead(db0, id, outcomes)| >= PARSE_BATCH_LIMIT
      {
        if id in Queue(db') {
          LeftBehind(db0, db, batch, outcomes, id);
        } else {
          TakenHadRoom(db0, db', outcomes, id);
        }
      }
    }
  }

  lemma TakenHadRoom(db: Db, db': Db, outcomes: FileId -> Outcome, id: FileId)
    requires Draining(db, db', outcomes) && id in Queue(db) && id !in Queue(db')
    ensures |FailingAhead(db, id, outcomes)| < PARSE_BATCH_LIMIT
  {}

  lemma RoundKeepsDraining(db0: Db, db: Db, batch: set<FileId>, outcomes: FileId -> Outcome)
    requires Draining(db0, db, outcomes) && IsFront(db, batch, PARSE_BATCH_LIMIT)
    ensures Draining(db0, ParsedBatch(db, batch, outcomes), outcomes)
  {
    BatchQueue(db, batch, outcomes);
    QueueShrinks(db0, db, outcomes);
    RoundChanges(db0, db, batch, outcomes);
    hide NeedsParse, Succeeds, Ahead, ParsedBatch, ParsedRows;
    forall id | id in Queue(db0) && id !in Queue(ParsedBatch(db, batch, outcomes))
      ensures |FailingAhead(db0, id, outcomes)| < PARSE_BATCH_LIMIT
    {
      if id in Queue(db) { FrontHasRoom(db0, db, batch, outcomes, id); } else { TakenHadRoom(db0, db, outcomes, id); }
      hide FailingAhead, IsFront;
    }
    hide FailingAhead, IsFront;
  }

  /** A round changes no row otherwise than the drain may. */
  lemma RoundChanges(db0: Db, db: Db, batch: set<FileId>, outcomes: FileId -> Outcome)
    requires Draining(db0, db, outcomes) && batch <= Queue(db) && Queue(db) <= Queue(db0)
    ensures var db' := ParsedBatch(db, batch, outcomes);
      db'.Keys == db0.Keys && forall id | id in db0 ::
        db'[id] == db0[id] || (id in Queue(db0) && db'[id] == ParsedRows(db0[id], outcomes(id)))
  {
    hide NeedsParse, Succeeds, Ahead, FailingAhead;
    forall id | id in db0 ensures !Succeeds(outcomes(id)) ==>
      ParsedRows(ParsedRows(db0[id], outcomes(id)), outcomes(id)) == ParsedRows(db0[id], outcomes(id))
    {
      ParsedQueue(db0[id], outcomes(id));
    }
    forall id | id in batch && Succeeds(outcomes(id)) ensures db[id] == db0[id] {
      QueueShrinks(db0, db, outcomes);
    }
    hide ParsedRows;
  }

  lemma QueueShrinks(db0: Db, db: Db, outcomes: FileId -> Outcome)
    requires Draining(db0, db, outcomes)
    ensures Queue(db) <= Queue(db0)
    ensures forall id :: id in Queue(db) && Succeeds(outcomes(id)) ==> db[id] == db0[id]
  {
    forall id | id in Queue(db) ensures id in Queue(db0) && (Succeeds(outcomes(id)) ==> db[id] == db0[id]) {
      ParsedQueue(db0[id], outcomes(id));
      hide ParsedRows, NeedsParse, Succeeds;
    }
  }

  lemma LeftBehind(db0: Db, db: Db, batch: set<FileId>, outcomes: FileId -> Outcome, id: FileId)
    requires Draining(db0, db, outcomes) && IsFront(db, batch, PARSE_BATCH_LIMIT)
    requires |batch| < PARSE_BATCH_LIMIT || |Successes(batch, outcomes)| == 0
    requires id in Queue(db) - Successes(batch, outcomes) && Succeeds(outcomes(id))
    ensures |FailingAhead(db0, id, outcomes)| >= PARSE_BATCH_LIMIT
  {
    QueueShrinks(db0, db, outcomes);
    SizeSplit(Queue(db), batch);
    assert id in Queue(db) - batch;
    assert Successes(batch, outcomes) == {};
    forall f | f in batch ensures f in FailingAhead(db0, id, outcomes) {
      SameOrder(db0, db, outcomes, f, id);
      assert Succeeds(outcomes(f)) ==> f in Successes(batch, outcomes);
    }
    SizeSplit(FailingAhead(db0, id, outcomes), batch);
  }

  /** When every round fares alike, a drain leaves a parsable file behind exactly
      when a full batch of failing files is queued before it. */
  lemma SteadyDrain(db: Db, batches: seq<set<FileId>>, outcomes: Rounds)
    requires IsDrain(db, batches, outcomes) && forall r | 0 <= r < |batches| :: outcomes(r) == outcomes(0)
    ensures Drained(db, AfterRounds(db, batches, outcomes), outcomes(0))
  {
    var last := |batches| - 1;
    SteadyRounds(db, batches[..last], outcomes);
    assert !GoesOn(batches[last], outcomes(last));
    hide Drained, Draining, IsFront, ParsedBatch, Successes;
    DrainRound(db, AfterRounds(db, batches[..last], outcomes), batches[last], outcomes(0));
  }

  lemma {:induction false} SteadyRounds(db: Db, batches: seq<set<FileId>>, outcomes: Rounds)
    requires AllFront(db, batches, outcomes) && forall r | 0 <= r < |batches| :: outcomes(r) == outcomes(0)
    ensures Draining(db, AfterRounds(db, batches, outcomes), outcomes(0))
    decreases |batches|
  {
    hide Drained, Draining, IsFront, ParsedBatch;
    if batches == [] {
      StartDraining(db, outcomes(0));
    } else {
      var last := |batches| - 1;
      SteadyRounds(db, batches[..last], outcomes);
      DrainRound(db, AfterRounds(db, batches[..last], outcomes), batches[last], outcomes(0));
    }
  }

  /** With fewer than a batch of failing files nothing parsable stays behind. */
  lemma FewFailuresDrainAll(db: Db, db': Db, outcomes: FileId -> Outcome)
    requires Drained(db, db', outcomes)
    requires |set id | id in Queue(db) && !Succeeds(outcomes(id))| < 500
    ensures forall id :: id in Queue(db') ==> !Succeeds(outcomes(id))
  {
    QueueShrinks(db, db', outcomes);
    var failing := set id | id in Queue(db) && !Succeeds(outcomes(id));
    forall id | id in Queue(db') && Succeeds(outcomes(id)) ensures false {
      SizeSplit(failing, FailingAhead(db, id, outcomes));
    }
  }

  lemma NothingParsed(db: Db, outcomes: FileId -> Outcome)
    ensures ParsedBatch(db, {}, outcomes) == db && Successes({}, outcomes) == {}
  {}

  lemma BatchStep(db: Db, done: set<FileId>, id: FileId, outcomes: FileId -> Outcome)
    requires id in db && id !in done
    ensures ParseFile(ParsedBatch(db, done, outcomes), id, outcomes(id)) == ParsedBatch(db, done + {id}, outcomes)
    ensures ParsedBatch(db, done, outcomes).Keys == db.Keys
    ensures |Successes(done + {id}, outcomes)| == |Successes(done, outcomes)| + (if Succeeds(outcomes(id)) then 1 else 0)
  {
    hide Succeeds, ParsedRows;
    assert Successes(done + {id}, outcomes) ==
      if Succeeds(outcomes(id)) then Successes(done, outcomes) + {id} else Successes(done, outcomes);
  }

  /** `rows` is the front of the queue in order and `rest` what follows it. */
  ghost predicate Taken(db: Db, rows: seq<FileId>, rest: set<FileId>) {
    && (forall i :: 0 <= i < |rows| ==> rows[i] in Queue(db)) && rest == Queue(db) - IdsOf(rows)
    && |rows| == |IdsOf(rows)|
    && (forall x, y :: x in rows && y in rest ==> Ahead(db, x, y))
    && (forall i, j :: 0 <= i < j < |rows| ==> Ahead(db, rows[i], rows[j]))
  }

  lemma TakenIsFront(db: Db, rows: seq<FileId>, rest: set<FileId>, limit: nat)
    requires Taken(db, rows, rest) && |rows| <= limit && (rest == {} || |rows| == limit)
    ensures IsFront(db, IdsOf(rows), limit)
  {
    hide Ahead, NeedsParse;
    assert IdsOf(rows) <= Queue(db);
    SizeSplit(Queue(db), IdsOf(rows));
  }

  lemma TakenIsOldest(db: Db, rows: seq<FileId>, rest: set<FileId>)
    requires Taken(db, rows, rest)
    ensures forall id :: id in rows ==> id in db
    ensures forall i, j :: 0 <= i < j < |rows| ==> NoNewer(db, rows[i], rows[j])
    ensures forall id, other :: id in rows && other in Queue(db) && other !in rows ==> NoNewer(db, id, other)
  {
    forall x, y | x in db && y in db && Ahead(db, x, y) ensures NoNewer(db, x, y) { AheadExactly(db, x, y); }
    hide Ahead, NoNewer, NeedsParse;
  }

  lemma TakeNext(db: Db, rows: seq<FileId>, rest: set<FileId>, head: FileId)
    requires Taken(db, rows, rest) && head in rest
    requires forall id :: id in rest && id != head ==> Ahead(db, head, id)
    ensures Taken(db, rows + [head], rest - {head})
  {
    hide Ahead, NeedsParse;
    assert IdsOf(rows + [head]) == IdsOf(rows) + {head};
  }

  lemma HeadUnique(db: Db, rest: set<FileId>, x: FileId, y: FileId)
    requires rest <= db.Keys && x in rest && y in rest
    requires forall id :: id in rest && id != x ==> Ahead(db, x, id)
    requires forall id :: id in rest && id != y ==> Ahead(db, y, id)
    ensures x == y
  {
    AheadIsStrictTotal(db, x, y, x);
  }

  lemma SizeSplit(whole: set<FileId>, part: set<FileId>)
    requires part <= whole
    ensures |whole| == |part| + |whole - part|
  {
    assert whole == part + (whole - part);
  }

  // ---------- what an index run achieves ----------

  function ListedIds(tree: seq<Listed>, n: nat): set<FileId>
    requires n <= |tree|
  {
    if n == 0 then {} else ListedIds(tree, n - 1) + {tree[n - 1].id}
  }

  /** The revision the listing names for a file; a later entry counts last. */
  function LastListed(tree: seq<Listed>, n: nat, id: FileId): Option<int>
    requires n <= |tree|
  {
    if n == 0 then None
    else if tree[n - 1].id == id then tree[n - 1].modified
    else LastListed(tree, n - 1, id)
  }

  /** Every entry for the file names the revision already recorded. */
  predicate Unchanged(tree: seq<Listed>, n: nat, id: FileId, modified: Option<int>)
    requires n <= |tree|
  {
    forall i :: 0 <= i < n && tree[i].id == id ==> tree[i].modified == modified
  }

  predicate FreshRows(rows: FileRows) {
    NoRows(rows) && rows.matched.None? && rows.book.status == Pending && rows.book.parserVersion.None? && rows.book.parseError.None?
  }

  /** What upserting a listing does to one listed file. */
  ghost predicate IndexedFile(db: Db, tree: seq<Listed>, n: nat, id: FileId, rows: FileRows)
    requires n <= |tree|
  {
    && rows.book.modifiedTime == LastListed(tree, n, id)
    && if id !in db then FreshRows(rows)
       else
         && rows == db[id].(book := rows.book) && rows.book.parseError == db[id].book.parseError
         && if Unchanged(tree, n, id, db[id].book.modifiedTime)
            then rows.book.status == db[id].book.status && rows.book.parserVersion == db[id].book.parserVersion
            else rows.book.status == Pending && rows.book.parserVersion.None?
  }

  lemma {:induction false} UpsertedFile(db: Db, tree: seq<Listed>, clock: nat -> int, n: nat, id: FileId)
    requires n <= |tree| && Usable(tree, n)
    ensures var db' := Upserted(db, tree, clock, n);
            && (id in db' <==> id in db || id in ListedIds(tree, n))
            && (id in ListedIds(tree, n) ==>
                  IndexedFile(db, tree, n, id, db'[id]) && exists i :: 1 <= i <= n && db'[id].book.lastSeen == clock(i))
            && (id !in ListedIds(tree, n) ==>
                  (id in db ==> db'[id] == db[id]) && forall i :: 0 <= i < n ==> tree[i].id != id)
  {
    if n > 0 {
      UpsertedFile(db, tree, clock, n - 1, id);
      var before, after := Upserted(db, tree, clock, n - 1), Upserted(db, tree, clock, n);
      if tree[n - 1].id == id {
        assert after[id].book.lastSeen == clock(n);
        hide FreshRows;
        if id !in before { NewRowsFresh(tree[n - 1].modified.value, clock(n)); }
        if id in before && FreshRows(before[id]) { StillFresh(before[id], after[id]); }
        if id in ListedIds(tree, n - 1) { LastIsListed(tree, n - 1, id); }
      }
    }
  }

  lemma {:induction false} LastIsListed(tree: seq<Listed>, n: nat, id: FileId)
    requires n <= |tree| && id in ListedIds(tree, n)
    ensures exists i :: 0 <= i < n && tree[i].id == id && tree[i].modified == LastListed(tree, n, id)
  {
    if tree[n - 1].id != id { LastIsListed(tree, n - 1, id); }
  }

  lemma StillFresh(rows: FileRows, rows': FileRows)
    requires FreshRows(rows) && rows' == rows.(book := rows'.book) && rows'.book.parseError == rows.book.parseError
    ensures rows'.book.status == Pending && rows'.book.parserVersion.None? ==> FreshRows(rows')
    ensures rows.book.status == Pending && rows.book.parserVersion.None?
  {}

  lemma NewRowsFresh(modified: int, now: int)
    ensures FreshRows(FileRows(NewBook(modified, now), None, map[], map[], {}, None))
  {}

  /** A successful index run leaves every listed file, current as `IndexedFile`
      says, and retracts exactly the unlisted ones last seen before its marker;
      so only the listed ones remain if and only if nothing unlisted was seen at
      or after the marker. */
  lemma IndexRun(db: Db, tree: seq<Listed>, clock: nat -> int)
    requires Usable(tree, |tree|) && forall i: nat {:trigger clock(i)} :: clock(0) <= clock(i)
    ensures var db' := RemoveUnseen(Upserted(db, tree, clock, |tree|), clock(0));
            var listed := ListedIds(tree, |tree|);
            && listed <= db'.Keys
            && (forall id :: id in listed ==> IndexedFile(db, tree, |tree|, id, db'[id]))
            && (forall id :: id in db' && id !in listed ==> id in db && db'[id] == db[id] && db[id].book.lastSeen >= clock(0))
            && (db'.Keys == listed <==> forall id :: id in db && id !in listed ==> db[id].book.lastSeen < clock(0))
  {
    forall id { UpsertedFile(db, tree, clock, |tree|, id); }
    hide IndexedFile, Upserted, ListedIds;
    var upserted := Upserted(db, tree, clock, |tree|);
    var db' := RemoveUnseen(upserted, clock(0));
    var listed := ListedIds(tree, |tree|);
    forall id | id in listed ensures id in db' {
      assert upserted[id].book.lastSeen >= clock(0);
    }
    if id :| id in db && id !in listed && db[id].book.lastSeen >= clock(0) {
      assert id in db';
    }
  }

  ghost predicate SeenBy(db: Db, time: int) { forall id :: id in db ==> db[id].book.lastSeen <= time }

  /** Runs whose clocks follow one another always end with the listed files. */
  lemma LaterRunIsExact(db: Db, tree: seq<Listed>, clock: nat -> int, before: int, after: int)
    requires Usable(tree, |tree|) && SeenBy(db, before) && before < clock(0)
    requires forall i: nat {:trigger clock(i)} :: clock(0) <= clock(i) <= after
    ensures var db' := RemoveUnseen(Upserted(db, tree, clock, |tree|), clock(0));
            db'.Keys == ListedIds(tree, |tree|) && SeenBy(db', after)
  {
    IndexRun(db, tree, clock);
    forall id { UpsertedFile(db, tree, clock, |tree|, id); }
    hide IndexedFile, Upserted, ListedIds;
  }

  /** Wherever the upserts of a run stop, nothing is deleted by then, and of a
      known file nothing but its book changes. */
  lemma FailedRunDeletesNothing(db: Db, tree: seq<Listed>, clock: nat -> int, n: nat)
    requires n <= |tree| && Usable(tree, n)
    ensures Upserted(db, tree, clock, n).Keys == db.Keys + ListedIds(tree, n)
    ensures forall id :: id in db ==>
              var rows := Upserted(db, tree, clock, n)[id];
              rows.(book := db[id].book) == db[id] && (id !in ListedIds(tree, n) ==> rows == db[id])
  {
    forall id { UpsertedFile(db, tree, clock, n, id); }
  }
}
