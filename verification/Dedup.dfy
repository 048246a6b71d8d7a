/** One visible statsbook per WFTDA game: the write and dedup half of the
    resolver (src/ingest/resolve.rs), for one undisturbed pass and for passes
    whose transactions interleave. */
module Dedup {
  import opened Text
  import opened Matching
  import opened Tables

  /** Newest revision first, unknown times last, then by id. */
  predicate RankBefore(x: Option<int>, idX: FileId, y: Option<int>, idY: FileId) {
    if x == y then StrLess(idX, idY)
    else x.Some? && (y.None? || x.value > y.value)
  }

  predicate Outranks(db: Db, x: FileId, y: FileId)
    requires x in db && y in db
  {
    RankBefore(db[x].book.modifiedTime, x, db[y].book.modifiedTime, y)
  }

  lemma OutranksIsStrictTotal(db: Db, x: FileId, y: FileId, z: FileId)
    requires x in db && y in db && z in db
    ensures x != y ==> Outranks(db, x, y) != Outranks(db, y, x)
    ensures Outranks(db, x, y) && Outranks(db, y, z) ==> Outranks(db, x, z)
  {
    StrLessIrreflexive(x);
    StrLessTotal(x, y);
    if StrLess(x, y) && StrLess(y, x) { StrLessTransitive(x, y, x); }
    if StrLess(x, y) && StrLess(y, z) { StrLessTransitive(x, y, z); }
  }

  /** The rows a window function numbers 2 and up within their game. */
  predicate IsLoser(db: Db, id: FileId)
    requires id in db
  {
    && Visible(db[id])
    && exists other :: other in db && other != id && VisibleAt(db[other], db[id].matched.value.gameId.value) && Outranks(db, other, id)
  }

  function Losers(db: Db): set<FileId> { set id | id in db && IsLoser(db, id) }

  /** The writes of a pass and the hiding of losers, undisturbed. */
  function Pass(db: Db, results: map<FileId, Resolution>): Db {
    var written := WriteBatch(db, results);
    Hide(written, Losers(written))
  }

  ghost predicate NoDuplicates(db: Db) {
    forall x, y, game {:trigger VisibleAt(db[x], game), VisibleAt(db[y], game)} ::
      x in db && y in db && VisibleAt(db[x], game) && VisibleAt(db[y], game) ==> x == y
  }

  // ---------- an undisturbed pass ----------

  lemma PassKeepsInv(db: Db, results: map<FileId, Resolution>)
    requires Inv(db) && forall id :: id in results ==> WellShaped(results[id])
    ensures Inv(Pass(db, results))
  {
    hide Inv, WriteBatch, Hide, Losers, WellShaped;
    StepKeepsInv(db, DoWrite(results));
    var written := WriteBatch(db, results);
    StepKeepsInv(written, DoHide(Losers(written)));
  }

  lemma {:induction false} BestRanked(db: Db, ids: set<FileId>) returns (best: FileId)
    requires ids != {} && ids <= db.Keys
    ensures best in ids && forall id :: id in ids && id != best ==> Outranks(db, best, id)
  {
    var id :| id in ids;
    if ids == {id} {
      best := id;
    } else {
      var rest := ids - {id};
      best := BestRanked(db, rest);
      OutranksIsStrictTotal(db, best, id, id);
      if Outranks(db, id, best) {
        forall other | other in rest && other != best ensures Outranks(db, id, other) {
          OutranksIsStrictTotal(db, id, best, other);
        }
        best := id;
      }
      hide Outranks;
      assert ids == rest + {id};
    }
  }

  lemma HiddenIsCleared(rows: FileRows)
    ensures !Visible(HiddenRows(rows)) && !Assigned(HiddenRows(rows), Home) && !Assigned(HiddenRows(rows), Away)
  {}

  /** After a pass a file is visible at a game exactly when, of all files the
      writes left matched to it, it ranks first; all others lose their sides too. */
  lemma PassKeepsBest(db: Db, results: map<FileId, Resolution>, id: FileId, game: int)
    requires results.Keys <= db.Keys && id in db
    ensures var written, after := WriteBatch(db, results), Pass(db, results);
            && (VisibleAt(after[id], game) <==>
                  && VisibleAt(written[id], game)
                  && forall other :: other in db && other != id && VisibleAt(written[other], game) ==> Outranks(db, id, other))
            && (Visible(written[id]) && !Visible(after[id]) ==> !Assigned(after[id], Home) && !Assigned(after[id], Away))
  {
    var written := WriteBatch(db, results);
    assert forall f :: f in db ==> written[f].book == db[f].book;
    HiddenIsCleared(written[id]);
    hide HiddenRows, Resolved;
    if VisibleAt(written[id], game) {
      forall other | other in db && other != id {
        OutranksIsStrictTotal(db, id, other, id);
      }
      hide RankBefore;
      if id in Losers(written) {
        var other :| other in written && other != id && VisibleAt(written[other], game) && Outranks(written, other, id);
        assert Outranks(db, other, id);
      } else {
        forall other | other in db && other != id && VisibleAt(written[other], game) ensures Outranks(db, id, other) {
          assert !Outranks(written, other, id);
        }
      }
    }
  }

  /** No game is left with two files, and none loses its last one. */
  lemma PassLeavesOne(db: Db, results: map<FileId, Resolution>)
    requires results.Keys <= db.Keys
    ensures NoDuplicates(Pass(db, results))
    ensures forall id, game {:trigger VisibleAt(WriteBatch(db, results)[id], game)} ::
              id in db && VisibleAt(WriteBatch(db, results)[id], game) ==>
              exists f :: f in db && VisibleAt(Pass(db, results)[f], game)
  {
    var written, after := WriteBatch(db, results), Pass(db, results);
    forall x, y, game | x in after && y in after && VisibleAt(after[x], game) && VisibleAt(after[y], game) ensures x == y {
      PassKeepsBest(db, results, x, game);
      PassKeepsBest(db, results, y, game);
      OutranksIsStrictTotal(db, x, y, x);
    }
    forall id, game | id in db && VisibleAt(written[id], game)
      ensures exists f :: f in db && VisibleAt(after[f], game)
    {
      var held := set f | f in db && VisibleAt(written[f], game);
      assert id in held;
      var best := BestRanked(db, held);
      PassKeepsBest(db, results, best, game);
    }
  }

  /** The visible file is of the newest known revision among those matched to
      the game, unknown ones last, and of equal ones the first by id. */
  lemma NewestWins(db: Db, results: map<FileId, Resolution>, id: FileId, other: FileId, game: int)
    requires results.Keys <= db.Keys && id in db && other in db && other != id
    requires VisibleAt(Pass(db, results)[id], game) && VisibleAt(WriteBatch(db, results)[other], game)
    ensures var mine, theirs := db[id].book.modifiedTime, db[other].book.modifiedTime;
      && (theirs.Some? ==> mine.Some? && mine.value >= theirs.value)
      && (mine == theirs ==> StrLess(id, other))
  {
    hide StrLess, WriteBatch, Pass;
    PassKeepsBest(db, results, id, game);
  }

  /** The rows show the decision: its figures, and each side its own team. */
  predicate Shows(rows: FileRows, r: Resolution) {
    && rows.matched.Some?
    && rows.matched.value.gameId == r.gameId && rows.matched.value.tag == ByMethod(r.how)
    && rows.matched.value.similarity == r.similarity && rows.matched.value.offset == r.offset
    && (0 <= r.delta < 0x8000 ==> rows.matched.value.delta == r.delta)
    && (Home in rows.sides ==> rows.sides[Home].wftdaTeam == r.homeTeam)
    && (Away in rows.sides ==> rows.sides[Away].wftdaTeam == r.awayTeam)
  }

  /** After a pass a decided file shows its decision, unless another file of the
      same game was kept: then it is a duplicate without game or teams. */
  lemma DecisionStands(db: Db, results: map<FileId, Resolution>, id: FileId)
    requires results.Keys <= db.Keys && id in results
    ensures var after := Pass(db, results)[id];
      if id in Losers(WriteBatch(db, results))
      then after.matched.Some? && after.matched.value.gameId.None? && after.matched.value.tag == Duplicate
           && !Assigned(after, Home) && !Assigned(after, Away)
      else Shows(after, results[id])
  {
    hide IsLoser;
    HiddenIsCleared(WriteBatch(db, results)[id]);
  }

  /** A file matched to the game by an earlier pass whose parsed rows are gone,
      so this pass does not resolve it again. */
  predicate StaleAt(db: Db, results: map<FileId, Resolution>, id: FileId, game: int) {
    id in db && id !in results && VisibleAt(db[id], game)
  }

  /** The first-ranked of the files this pass matched to a game ends up visible
      if and only if no stale row outranks it. */
  lemma WinnerExactly(db: Db, results: map<FileId, Resolution>, game: int, best: FileId)
    requires results.Keys <= db.Keys
    requires best in results && results[best].gameId == Some(game)
    requires forall id :: id in results && id != best && results[id].gameId == Some(game) ==> Outranks(db, best, id)
    ensures VisibleAt(Pass(db, results)[best], game) <==> forall id :: StaleAt(db, results, id, game) ==> Outranks(db, best, id)
  {
    PassKeepsBest(db, results, best, game);
    var written := WriteBatch(db, results);
    forall id | id in db ensures VisibleAt(written[id], game) <==>
      if id in results then results[id].gameId == Some(game) else VisibleAt(db[id], game) {}
    hide Outranks;
  }

  predicate NoStale(db: Db, results: map<FileId, Resolution>) {
    forall id :: id in db && id !in results ==> !Visible(db[id])
  }

  /** Without stale matches neither the matches nor the teams a pass leaves
      depend on the earlier ones. */
  lemma EarlierMatchesIrrelevant(db: Db, db': Db, results: map<FileId, Resolution>)
    requires results.Keys <= db.Keys && db.Keys == db'.Keys
    requires forall id :: id in db ==> db'[id].book == db[id].book
    requires NoStale(db, results) && NoStale(db', results)
    ensures forall id :: id in results ==> Pass(db, results)[id].matched == Pass(db', results)[id].matched
    ensures forall id, side :: id in results && side in db[id].sides && side in db'[id].sides ==>
              Pass(db, results)[id].sides[side].wftdaTeam == Pass(db', results)[id].sides[side].wftdaTeam
  {
    var written, written' := WriteBatch(db, results), WriteBatch(db', results);
    forall id | id in db ensures Visible(written[id]) == Visible(written'[id]) && (Visible(written[id]) ==> written[id].matched == written'[id].matched) {}
    forall id | id in results ensures id in Losers(written) <==> id in Losers(written') {
      assert forall other :: other in db ==> (Outranks(written, other, id) <==> Outranks(written', other, id));
    }
    hide Losers, Outranks;
  }

  /** Repeating a pass on the same parsed rows changes nothing. */
  lemma PassIdempotent(db: Db, results: map<FileId, Resolution>)
    requires results.Keys <= db.Keys
    ensures Pass(Pass(db, results), results) == Pass(db, results)
  {
    var written, after := WriteBatch(db, results), Pass(db, results);
    var rewritten := WriteBatch(after, results);
    forall id | id in db && id in results ensures rewritten[id] == written[id] { RewriteAfterHide(db[id], results[id]); }
    forall id | id in db && id !in results ensures rewritten[id] == if id in Losers(written) then HiddenRows(db[id]) else db[id] {}
    forall id | id in db ensures id in Losers(rewritten) <==> id in Losers(written) && id in results {
      RepeatLosers(db, results, id);
    }
  }

  lemma RewriteAfterHide(rows: FileRows, r: Resolution)
    ensures Resolved(HiddenRows(Resolved(rows, r)), r) == Resolved(rows, r)
    ensures Resolved(Resolved(rows, r), r) == Resolved(rows, r)
  {}

  /** A loser is outranked by a file of its game that is itself no loser. */
  lemma LoserHasWinner(db: Db, id: FileId) returns (best: FileId)
    requires id in Losers(db)
    ensures best in db && best != id && best !in Losers(db) && Outranks(db, best, id)
    ensures VisibleAt(db[best], db[id].matched.value.gameId.value)
  {
    var game := db[id].matched.value.gameId.value;
    var held := set f | f in db && VisibleAt(db[f], game);
    assert id in held;
    best := BestRanked(db, held);
    var other :| other in db && other != id && VisibleAt(db[other], game) && Outranks(db, other, id);
    assert other in held;
    OutranksIsStrictTotal(db, other, id, other);
    if best in Losers(db) {
      var better :| better in db && better != best && VisibleAt(db[better], game) && Outranks(db, better, best);
      assert better in held;
      OutranksIsStrictTotal(db, best, better, best);
    }
  }

  lemma RewrittenRow(db: Db, results: map<FileId, Resolution>, f: FileId)
    requires results.Keys <= db.Keys && f in db
    ensures var written, rewritten := WriteBatch(db, results), WriteBatch(Pass(db, results), results);
            && f in rewritten && rewritten[f].book == written[f].book
            && (f in results || f !in Losers(written) ==> rewritten[f].matched == written[f].matched)
            && (f !in results && f in Losers(written) ==> !Visible(rewritten[f]))
  {
    hide Losers;
  }

  lemma RepeatLosers(db: Db, results: map<FileId, Resolution>, id: FileId)
    requires results.Keys <= db.Keys && id in db
    ensures var written := WriteBatch(db, results);
            id in Losers(WriteBatch(Pass(db, results), results)) <==> id in Losers(written) && id in results
  {
    var written := WriteBatch(db, results);
    var rewritten := WriteBatch(Pass(db, results), results);
    forall f | f in db
      ensures f in rewritten && rewritten[f].book == written[f].book
      ensures f in results || f !in Losers(written) ==> rewritten[f].matched == written[f].matched
      ensures f !in results && f in Losers(written) ==> !Visible(rewritten[f])
    {
      RewrittenRow(db, results, f);
    }
    hide HiddenRows, Resolved;
    if id in Losers(written) {
      var best := LoserHasWinner(written, id);
      hide Pass, WriteBatch, RankBefore;
      assert Outranks(rewritten, best, id);
    } else {
      hide Pass, WriteBatch, RankBefore;
      assert forall other :: other in db ==> Outranks(rewritten, other, id) == Outranks(written, other, id);
    }
  }

  // ---------- the transactions of a pass ----------

  const WRITE_BATCH := 500

  type Decisions = map<FileId, Resolution>

  /** The chunks of a pass put together. */
  function Whole(chunks: seq<Decisions>): Decisions {
    if chunks == [] then map[] else Whole(chunks[..|chunks| - 1]) + chunks[|chunks| - 1]
  }

  lemma {:induction false} WholeKeys(chunks: seq<Decisions>, x: FileId)
    ensures x in Whole(chunks) <==> exists k :: 0 <= k < |chunks| && x in chunks[k]
  {
    if chunks != [] {
      var n := |chunks| - 1;
      WholeKeys(chunks[..n], x);
      if k :| 0 <= k < |chunks[..n]| && x in chunks[..n][k] { assert x in chunks[k]; }
      if k :| 0 <= k < |chunks| && x in chunks[k] && k < n { assert x in chunks[..n][k]; }
    }
  }

  /** A pass writes its decisions in id order, so many in one transaction. */
  ghost predicate Chunked(results: Decisions, chunks: seq<Decisions>) {
    && Whole(chunks) == results
    && (forall k | 0 <= k < |chunks| :: 0 < |chunks[k]| <= 500 && (k < |chunks| - 1 ==> |chunks[k]| == 500))
    && forall k, l, x, y | 0 <= k < l < |chunks| && x in chunks[k] && y in chunks[l] :: StrLess(x, y)
  }

  // ---------- passes whose transactions interleave ----------

  /** Where one resolver pass stands between its transactions. */
  datatype Phase = Writing | Hiding(losers: set<FileId>) | Done | Broken

  datatype World = World(db: Db, passes: seq<Phase>)

  /** A transaction of some pass, or one of another stage. */
  datatype Action =
    | WriteSome(pass: nat, batch: map<FileId, Resolution>)
    | SelectLosers(pass: nat)
    | HideLosers(pass: nat)
    | Break(pass: nat)
    | OtherStage(step: Step)

  predicate IsOtherStage(step: Step) { step.DoUpsert? || step.DoRemove? || step.DoParse? }

  /** One action; what is not enabled changes nothing. */
  function Act(w: World, a: Action): World {
    match a
    case WriteSome(p, batch) =>
      if p >= |w.passes| || w.passes[p] != Writing then w
      else if batch.Keys <= w.db.Keys then w.(db := WriteBatch(w.db, batch))
      else w.(passes := w.passes[p := Broken])
    case SelectLosers(p) =>
      if p >= |w.passes| || w.passes[p] != Writing then w
      else
        var losers := Losers(w.db);
        w.(passes := w.passes[p := if losers == {} then Done else Hiding(losers)])
    case HideLosers(p) =>
      if p >= |w.passes| || !w.passes[p].Hiding? then w
      else World(Hide(w.db, w.passes[p].losers), w.passes[p := Done])
    case Break(p) =>
      if p >= |w.passes| || w.passes[p] == Done then w else w.(passes := w.passes[p := Broken])
    case OtherStage(step) =>
      if IsOtherStage(step) then w.(db := Apply(w.db, step)) else w
  }

  /** Between two transactions of a pass files may come, go and be parsed. */
  lemma OtherStagesAct(w: World, id: FileId, modified: int, now: int, marker: int, outcome: Outcome)
    ensures Act(w, OtherStage(DoUpsert(id, modified, now))) == World(Upsert(w.db, id, modified, now), w.passes)
    ensures Act(w, OtherStage(DoRemove(marker))) == World(RemoveUnseen(w.db, marker), w.passes)
    ensures Act(w, OtherStage(DoParse(id, outcome))) == World(ParseFile(w.db, id, outcome), w.passes)
  {
    hide Upsert, RemoveUnseen, ParseFile;
  }

  /** A batch that names a vanished file ends its pass, and nothing that pass does
      afterwards has any effect. */
  lemma RefusedBatchEndsPass(w: World, p: nat, batch: map<FileId, Resolution>, more: seq<Action>)
    requires p < |w.passes| && w.passes[p] == Writing && exists id :: id in batch && id !in w.db
    requires forall i | 0 <= i < |more| :: !more[i].OtherStage? && more[i].pass == p
    ensures ActAll(w, [WriteSome(p, batch)] + more) == World(w.db, w.passes[p := Broken])
  {
    var refused := Act(w, WriteSome(p, batch));
    assert ([WriteSome(p, batch)] + more)[1..] == more;
    hide Act;
    BrokenStays(refused, p, more);
  }

  lemma {:induction false} BrokenStays(w: World, p: nat, more: seq<Action>)
    requires p < |w.passes| && w.passes[p] == Broken
    requires forall i | 0 <= i < |more| :: !more[i].OtherStage? && more[i].pass == p
    ensures ActAll(w, more) == w
    decreases |more|
  {
    if more != [] {
      assert Act(w, more[0]) == w;
      BrokenStays(w, p, more[1..]);
    }
  }

  function ActAll(w: World, actions: seq<Action>): World
    decreases |actions|
  {
    if actions == [] then w else ActAll(Act(w, actions[0]), actions[1..])
  }

  /** Some unfinished pass will still look for losers, or will hide one of these. */
  ghost predicate WillSeparate(passes: seq<Phase>, x: FileId, y: FileId) {
    exists p :: 0 <= p < |passes| &&
      (passes[p] == Writing || (passes[p].Hiding? && (x in passes[p].losers || y in passes[p].losers)))
  }

  ghost predicate AnyBroken(passes: seq<Phase>) { Broken in passes }

  /** Every clash of two visible files is the debt of an unfinished pass. */
  ghost predicate DebtsCovered(w: World) {
    || AnyBroken(w.passes)
    || forall x, y, game {:trigger VisibleAt(w.db[x], game), VisibleAt(w.db[y], game)} ::
         x in w.db && y in w.db && x != y && VisibleAt(w.db[x], game) && VisibleAt(w.db[y], game) ==> WillSeparate(w.passes, x, y)
  }

  lemma OtherStagesOnlyRemove(db: Db, step: Step, id: FileId, game: int)
    requires IsOtherStage(step) && id in Apply(db, step) && VisibleAt(Apply(db, step)[id], game)
    ensures id in db && VisibleAt(db[id], game)
  {}

  lemma HideOnlyRemoves(db: Db, losers: set<FileId>, id: FileId, game: int)
    requires id in db && VisibleAt(Hide(db, losers)[id], game)
    ensures VisibleAt(db[id], game) && id !in losers
  {}

  lemma SelectionSeparates(db: Db, x: FileId, y: FileId, game: int)
    requires x in db && y in db && x != y && VisibleAt(db[x], game) && VisibleAt(db[y], game)
    ensures x in Losers(db) || y in Losers(db)
  {
    OutranksIsStrictTotal(db, x, y, x);
    hide Outranks;
  }

  lemma ActKeepsDebts(w: World, a: Action)
    requires DebtsCovered(w)
    ensures DebtsCovered(Act(w, a))
  {
    var w' := Act(w, a);
    if w' != w && !AnyBroken(w'.passes) {
      assert !AnyBroken(w.passes) by { StaysBroken(w, a); }
      forall x, y, game | x in w'.db && y in w'.db && x != y && VisibleAt(w'.db[x], game) && VisibleAt(w'.db[y], game)
        ensures WillSeparate(w'.passes, x, y)
      {
        hide WriteBatch, Hide, Apply, Losers;
        match a
        case WriteSome(p, batch) =>
          assert w'.passes[p] == Writing;
        case SelectLosers(p) =>
          SelectionSeparates(w.db, x, y, game);
          assert w'.passes[p].Hiding?;
        case HideLosers(p) =>
          assert w'.db == Hide(w.db, w.passes[p].losers);
          HideKeys(w.db, w.passes[p].losers);
          HideOnlyRemoves(w.db, w.passes[p].losers, x, game);
          HideOnlyRemoves(w.db, w.passes[p].losers, y, game);
          var q :| 0 <= q < |w.passes| &&
            (w.passes[q] == Writing || (w.passes[q].Hiding? && (x in w.passes[q].losers || y in w.passes[q].losers)));
          assert w'.passes[q] == w.passes[q];
        case Break(p) =>
        case OtherStage(step) =>
          OtherStagesOnlyRemove(w.db, step, x, game);
          OtherStagesOnlyRemove(w.db, step, y, game);
      }
    }
  }

  lemma HideKeys(db: Db, losers: set<FileId>)
    ensures Hide(db, losers).Keys == db.Keys
  {}

  lemma StaysBroken(w: World, a: Action)
    ensures AnyBroken(w.passes) ==> AnyBroken(Act(w, a).passes)
  {
    if AnyBroken(w.passes) {
      var p :| 0 <= p < |w.passes| && w.passes[p] == Broken;
      hide WriteBatch, Hide, Apply, Losers;
      assert Act(w, a).passes[p] == Broken;
    }
  }

  lemma {:induction false} DebtsStayCovered(w: World, actions: seq<Action>)
    requires DebtsCovered(w)
    ensures DebtsCovered(ActAll(w, actions))
    decreases |actions|
  {
    if actions != [] {
      ActKeepsDebts(w, actions[0]);
      hide DebtsCovered, Act;
      DebtsStayCovered(Act(w, actions[0]), actions[1..]);
    }
  }

  /** However the transactions of any number of passes and of the other stages
      interleave, once every pass has completed no game has two visible files. */
  lemma InterleavedPassesLeaveNoDuplicates(db: Db, passes: nat, actions: seq<Action>)
    requires passes > 0 || NoDuplicates(db)
    ensures var w := ActAll(World(db, seq(passes, _ => Writing)), actions);
            (forall p :: 0 <= p < |w.passes| ==> w.passes[p] == Done) ==> NoDuplicates(w.db)
  {
    var start := World(db, seq(passes, _ => Writing));
    assert passes > 0 ==> start.passes[0] == Writing;
    DebtsStayCovered(start, actions);
    hide ActAll;
  }

  // ---------- what the stages do not guarantee ----------

  const SOME_SIDE := SideData(None, None, [])
  const SOME_GAME := GameData(Some(0), 1, 0, 1, 0, SOME_SIDE, SOME_SIDE, false)
  const FOUND := Resolution(Score, Some(7), 1.0, 0, 0, Some(1), Some(2))

  function Listed(modified: int): FileRows { FileRows(NewBook(modified, 0), None, map[], map[], {}, None) }

  function ParsedFile(modified: int): (rows: FileRows)
    ensures rows.book.modifiedTime == Some(modified) && rows.matched.None? && rows.game.Some?
  {
    ParsedRows(Listed(modified), Content(SOME_GAME, []))
  }

  /** Parsed, matched to game 7, then uploaded again as an unfilled placeholder. */
  function StaleFile(modified: int): (rows: FileRows)
    ensures rows.book.modifiedTime == Some(modified) && VisibleAt(rows, 7) && NoRows(rows)
  {
    var matched := Resolved(ParsedFile(modified - 1), FOUND);
    var again := Upsert(map["s" := matched], "s", modified, 0)["s"];
    ParsedRows(again, Content(SOME_GAME.(jams := 0, homeScore := 0), []))
  }

  /** Two parsed files, "b" of the newer revision. */
  function TwoFiles(): Db { map["a" := ParsedFile(1), "b" := ParsedFile(2)] }

  /** A pass that dies between its writes and its dedup leaves duplicates. */
  lemma BrokenPassLeavesDuplicates()
    ensures var both := map["a" := FOUND, "b" := FOUND];
            var w := ActAll(World(TwoFiles(), [Writing]), [WriteSome(0, both), Break(0)]);
            AnyBroken(w.passes) && !NoDuplicates(w.db)
  {
    var both := map["a" := FOUND, "b" := FOUND];
    var w := World(TwoFiles(), [Writing]);
    var w1, w2 := Act(w, WriteSome(0, both)), Act(Act(w, WriteSome(0, both)), Break(0));
    assert [WriteSome(0, both), Break(0)][1..] == [Break(0)] && [Break(0)][1..] == [];
    assert ActAll(w, [WriteSome(0, both), Break(0)]) == w2;
    assert w2.passes[0] == Broken;
    hide ParsedFile;
    assert VisibleAt(w1.db["a"], 7) && VisibleAt(w1.db["b"], 7);
    assert "a" != "b";
  }

  const BOTH: map<FileId, Resolution> := map["a" := FOUND, "b" := FOUND]
  const ONLY_OLDER: map<FileId, Resolution> := map["a" := FOUND, "b" := NO_MATCH]

  lemma OlderLoses()
    ensures WriteBatch(TwoFiles(), BOTH).Keys == {"a", "b"}
    ensures Losers(WriteBatch(TwoFiles(), BOTH)) == {"a"}
  {
    hide ParsedFile;
    assert "a" != "b" && "a"[0] == 'a' && "b"[0] == 'b';
    var written := WriteBatch(TwoFiles(), BOTH);
    assert VisibleAt(written["a"], 7) && VisibleAt(written["b"], 7) && Outranks(written, "b", "a");
  }

  lemma NothingLeft(written: Db)
    requires written.Keys == {"a", "b"}
    ensures var hidden := Hide(WriteBatch(written, ONLY_OLDER), {"a"});
            (forall id :: id in hidden ==> !Visible(hidden[id])) && Losers(hidden) == {}
  {
    assert "a" != "b";
    var rewritten := WriteBatch(written, ONLY_OLDER);
    var hidden := Hide(rewritten, {"a"});
    HiddenIsCleared(rewritten["a"]);
    assert !Visible(hidden["b"]);
    hide WriteBatch, Hide;
  }

  /** The first pass selects its losers, the second decides and writes, then
      the first hides and the second finds nothing to hide. */
  function LateHide(db: Db, first: map<FileId, Resolution>, second: map<FileId, Resolution>): World {
    ActAll(World(db, [Writing, Writing]),
      [WriteSome(0, first), SelectLosers(0), WriteSome(1, second), HideLosers(0), SelectLosers(1)])
  }

  lemma LateHideIs(db: Db, first: map<FileId, Resolution>, second: map<FileId, Resolution>, losers: set<FileId>)
    requires first.Keys <= db.Keys && second.Keys <= db.Keys
    requires losers == Losers(WriteBatch(db, first)) != {}
    requires Losers(Hide(WriteBatch(WriteBatch(db, first), second), losers)) == {}
    ensures LateHide(db, first, second) == World(Hide(WriteBatch(WriteBatch(db, first), second), losers), [Done, Done])
  {
    SameKeys(db, first);
    hide Act, ActAll, WriteBatch, Hide, Losers;
    var written := WriteBatch(db, first);
    var rewritten := WriteBatch(written, second);
    assert [Writing, Writing][0 := Hiding(losers)] == [Hiding(losers), Writing];
    assert [Hiding(losers), Writing][0 := Done] == [Done, Writing];
    assert [Done, Writing][1 := Done] == [Done, Done];
    Enabled(World(db, [Writing, Writing]), 0, first);
    Enabled(World(written, [Writing, Writing]), 0, first);
    Enabled(World(written, [Hiding(losers), Writing]), 1, second);
    Enabled(World(rewritten, [Hiding(losers), Writing]), 0, second);
    Enabled(World(Hide(rewritten, losers), [Done, Writing]), 1, second);
    FiveActions(World(db, [Writing, Writing]), WriteSome(0, first), SelectLosers(0), WriteSome(1, second), HideLosers(0), SelectLosers(1));
  }

  /** Two complete passes can hide every file of a game: the first picks the
      older file as loser, the second no longer matches the newer one. The file
      the second pass did match to the game is then hidden by the first. */
  lemma InterleavingCanHideAll()
    ensures var w := LateHide(TwoFiles(), BOTH, ONLY_OLDER);
            && w.passes == [Done, Done]
            && ONLY_OLDER["a"].gameId == Some(7) && forall id :: id in w.db ==> !Visible(w.db[id])
  {
    OlderLoses();
    NothingLeft(WriteBatch(TwoFiles(), BOTH));
    hide LateHide, WriteBatch, Hide, Losers, Visible;
    LateHideIs(TwoFiles(), BOTH, ONLY_OLDER, {"a"});
  }

  lemma FiveActions(w: World, a: Action, b: Action, c: Action, d: Action, e: Action)
    ensures ActAll(w, [a, b, c, d, e]) == Act(Act(Act(Act(Act(w, a), b), c), d), e)
  {
    hide Act;
    NextAction(w, a, [b, c, d, e]);
    NextAction(Act(w, a), b, [c, d, e]);
    NextAction(Act(Act(w, a), b), c, [d, e]);
    NextAction(Act(Act(Act(w, a), b), c), d, [e]);
  }

  lemma NextAction(w: World, a: Action, rest: seq<Action>)
    ensures ActAll(w, [a] + rest) == ActAll(Act(w, a), rest)
  {
    assert ([a] + rest)[1..] == rest;
  }

  lemma SameKeys(db: Db, batch: map<FileId, Resolution>)
    ensures WriteBatch(db, batch).Keys == db.Keys
  {}

  lemma Enabled(w: World, p: nat, batch: map<FileId, Resolution>)
    requires p < |w.passes|
    ensures w.passes[p] == Writing && batch.Keys <= w.db.Keys ==>
              Act(w, WriteSome(p, batch)) == World(WriteBatch(w.db, batch), w.passes)
    ensures w.passes[p] == Writing ==>
              Act(w, SelectLosers(p)) == World(w.db, w.passes[p := if Losers(w.db) == {} then Done else Hiding(Losers(w.db))])
    ensures w.passes[p].Hiding? ==>
              Act(w, HideLosers(p)) == World(Hide(w.db, w.passes[p].losers), w.passes[p := Done])
  {
    hide WriteBatch, Hide, Losers;
  }

  /** A stale match of a newer upload hides the file that does hold the game. */
  lemma StaleRowCanWin()
    ensures var db := map["a" := ParsedFile(1), "s" := StaleFile(3)];
            var after := Pass(db, map["a" := FOUND]);
            !Visible(after["a"]) && VisibleAt(after["s"], 7) && NoRows(after["s"])
  {
    var db := map["a" := ParsedFile(1), "s" := StaleFile(3)];
    var results := map["a" := FOUND];
    hide ParsedFile, StaleFile;
    assert "a" != "s" && "a"[0] == 'a' && "s"[0] == 's';
    assert StaleAt(db, results, "s", 7) && !Outranks(db, "a", "s");
    WinnerExactly(db, results, 7, "a");
    var written := WriteBatch(db, results);
    assert Outranks(written, "s", "a") && VisibleAt(written["s"], 7) && VisibleAt(written["a"], 7);
    assert "s" !in Losers(written);
  }
}
