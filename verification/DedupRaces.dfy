/** Overlapping resolver passes (src/ingest/resolve.rs:554-682, started by the
    two loops of src/main.rs:48-57): which files every interleaving keeps, and
    what passes that die can leave behind. */
module DedupRaces {
  import opened Text
  import opened Matching
  import opened Tables
  import opened Dedup

  // ---------- runs of given passes ----------

  /** What each pass writes, chunk by chunk. */
  type Plans = seq<seq<Decisions>>

  /** No pass writes a file twice. */
  ghost predicate Apart(plans: Plans) {
    forall p, k, l | 0 <= p < |plans| && 0 <= k < l < |plans[p]| :: plans[p][k].Keys !! plans[p][l].Keys
  }

  lemma ChunkedApart(plans: Plans)
    requires forall p | 0 <= p < |plans| :: Chunked(Whole(plans[p]), plans[p])
    ensures Apart(plans)
  {
    forall p, k, l, x | 0 <= p < |plans| && 0 <= k < l < |plans[p]| && x in plans[p][k] ensures x !in plans[p][l] {
      assert Chunked(Whole(plans[p]), plans[p]);
      StrLessIrreflexive(x);
    }
  }

  /** The passes decide files of the tables. */
  ghost predicate Within(db: Db, plans: Plans) {
    forall p, k | 0 <= p < |plans| && 0 <= k < |plans[p]| :: plans[p][k].Keys <= db.Keys
  }

  /** Whether passes may die, and whether the other stages leave every file and
      its revision as they are. */
  datatype Rules = Rules(breaks: bool, calm: bool)

  /** The same files with the same revisions, whose rank never changes. */
  ghost predicate SameFiles(db: Db, db': Db) {
    db'.Keys == db.Keys && forall id | id in db :: db'[id].book.modifiedTime == db[id].book.modifiedTime
  }

  /** The next transaction of some pass, `at` counting the chunks that each has
      written, or one of another stage. */
  ghost predicate Next(plans: Plans, w: World, at: seq<nat>, a: Action, rules: Rules) {
    && |at| == |w.passes| == |plans|
    && match a
       case WriteSome(p, batch) => p < |plans| && w.passes[p] == Writing && at[p] < |plans[p]| && batch == plans[p][at[p]]
       case SelectLosers(p) => p < |plans| && w.passes[p] == Writing && at[p] == |plans[p]|
       case HideLosers(p) => p < |plans| && w.passes[p].Hiding?
       case Break(p) => rules.breaks && p < |plans|
       case OtherStage(step) => IsOtherStage(step) && (rules.calm ==> SameFiles(w.db, Apply(w.db, step)))
  }

  /** A chunk that names a vanished file is not written. */
  function Rest(w: World, at: seq<nat>, a: Action): seq<nat> {
    if a.WriteSome? && a.pass < |at| && a.batch.Keys <= w.db.Keys then at[a.pass := at[a.pass] + 1] else at
  }

  ghost predicate Orderly(plans: Plans, w: World, at: seq<nat>, actions: seq<Action>, rules: Rules)
    decreases |actions|
  {
    actions == [] ||
    (Next(plans, w, at, actions[0], rules) && Orderly(plans, Act(w, actions[0]), Rest(w, at, actions[0]), actions[1..], rules))
  }

  function AtAfter(w: World, at: seq<nat>, actions: seq<Action>): seq<nat>
    decreases |actions|
  {
    if actions == [] then at else AtAfter(Act(w, actions[0]), Rest(w, at, actions[0]), actions[1..])
  }

  function Start(db: Db, plans: Plans): World { World(db, seq(|plans|, _ => Writing)) }

  function Zeros(plans: Plans): seq<nat> { seq(|plans|, _ => 0) }

  ghost predicate Finished(passes: seq<Phase>, breaks: bool) {
    forall p | 0 <= p < |passes| :: passes[p] == Done || (breaks && passes[p] == Broken)
  }

  /** A complete run of the passes, from `db`. */
  ghost predicate IsRun(db: Db, plans: Plans, actions: seq<Action>, rules: Rules) {
    && Orderly(plans, Start(db, plans), Zeros(plans), actions, rules)
    && Finished(ActAll(Start(db, plans), actions).passes, rules.breaks)
  }

  function After(db: Db, plans: Plans, actions: seq<Action>): Db {
    ActAll(Start(db, plans), actions).db
  }

  // ---------- chunks ----------

  lemma {:induction false} ChunkInWhole(chunks: seq<Decisions>, k: nat, x: FileId)
    requires k < |chunks| && x in chunks[k] && forall l | k < l < |chunks| :: x !in chunks[l]
    ensures x in Whole(chunks) && Whole(chunks)[x] == chunks[k][x]
  {
    var n := |chunks| - 1;
    if k < n {
      assert chunks[..n][k] == chunks[k];
      ChunkInWhole(chunks[..n], k, x);
    }
  }

  lemma PlannedIn(plans: Plans, p: nat, k: nat, x: FileId)
    requires Apart(plans) && p < |plans| && k < |plans[p]| && x in plans[p][k]
    ensures x in Whole(plans[p]) && Whole(plans[p])[x] == plans[p][k][x]
  {
    ChunkInWhole(plans[p], k, x);
  }

  lemma WholeWithin(db: Db, plans: Plans, p: nat)
    requires Within(db, plans) && p < |plans|
    ensures Whole(plans[p]).Keys <= db.Keys
  {
    forall x | x in Whole(plans[p]) ensures x in db { WholeKeys(plans[p], x); }
  }

  // ---------- what every run keeps ----------

  /** Every pass decides `f`. */
  ghost predicate AllDecide(db: Db, plans: Plans, f: FileId) {
    && f in db && plans != [] && Apart(plans) && Within(db, plans)
    && forall p | 0 <= p < |plans| :: f in Whole(plans[p])
  }

  /** Some chunk still to be written by `p` holds `id`. */
  ghost predicate ToCome(plans: Plans, at: seq<nat>, p: nat, id: FileId)
    requires p < |plans| == |at|
  {
    exists k :: at[p] <= k < |plans[p]| && id in plans[p][k]
  }

  /** Pass `p` has not yet written `id`, or is dead. */
  ghost predicate Unwritten(plans: Plans, w: World, at: seq<nat>, p: nat, id: FileId)
    requires p < |w.passes| == |plans| == |at|
  {
    w.passes[p] == Broken || (w.passes[p] == Writing && ToCome(plans, at, p, id))
  }

  /** The files that rank before `f`; ranks never change. */
  ghost function Rivals(db: Db, f: FileId): set<FileId>
    requires f in db
  {
    set x | x in db && x != f && Outranks(db, x, f)
  }

  /** No pass has written `id` yet. */
  ghost predicate Untouched(plans: Plans, w: World, at: seq<nat>, id: FileId)
    requires |w.passes| == |plans| == |at|
  {
    forall p | 0 <= p < |plans| :: Unwritten(plans, w, at, p, id)
  }

  /** `f` leads its game: it is there or no one has placed it yet, whoever is
      there and ranks higher has not been written yet, and nobody is about to
      hide `f`. */
  ghost predicate Leads(db: Db, plans: Plans, w: World, at: seq<nat>, f: FileId, game: int) {
    && f in db && SameFiles(db, w.db) && |w.passes| == |plans| == |at|
    && (VisibleAt(w.db[f], game) || Untouched(plans, w, at, f))
    && (forall x | x in Rivals(db, f) && VisibleAt(w.db[x], game) :: Untouched(plans, w, at, x))
    && Spared(w.passes, f)
  }

  ghost predicate Spared(passes: seq<Phase>, f: FileId) {
    forall p | 0 <= p < |passes| && passes[p].Hiding? :: f !in passes[p].losers
  }

  /** Each pass, had it run alone on these tables, would have kept `f`. */
  ghost predicate EachKeeps(db: Db, plans: Plans, f: FileId, game: int)
    requires AllDecide(db, plans, f)
  {
    forall p | 0 <= p < |plans| :: f in Pass(db, Whole(plans[p])) && VisibleAt(Pass(db, Whole(plans[p]))[f], game)
  }

  /** In terms of the decisions: all match `f` to the game, and none matches, or
      leaves there undecided, a file that ranks higher. */
  lemma KeepsExactly(db: Db, results: Decisions, f: FileId, game: int)
    requires results.Keys <= db.Keys && f in db && f in results
    ensures VisibleAt(Pass(db, results)[f], game) <==>
      && results[f].gameId == Some(game)
      && forall x | x in db && x != f && Outranks(db, x, f) ::
           if x in results then results[x].gameId != Some(game) else !VisibleAt(db[x], game)
  {
    PassKeepsBest(db, results, f, game);
    var written := WriteBatch(db, results);
    forall x | x in db && x != f
      ensures VisibleAt(written[x], game) <==> if x in results then results[x].gameId == Some(game) else VisibleAt(db[x], game)
      ensures Outranks(written, f, x) <==> !Outranks(db, x, f)
    {
      OutranksIsStrictTotal(db, f, x, f);
    }
    hide Pass, WriteBatch, Outranks;
  }

  lemma StageKeepsMatch(db: Db, step: Step)
    requires IsOtherStage(step) && SameFiles(db, Apply(db, step))
    ensures forall id | id in db :: Apply(db, step)[id].matched == db[id].matched
  {
    hide SkaterRows, Storable;
  }

  lemma StartLeads(db: Db, plans: Plans, f: FileId, game: int)
    requires AllDecide(db, plans, f) && EachKeeps(db, plans, f, game)
    ensures Leads(db, plans, Start(db, plans), Zeros(plans), f, game)
  {
    var start := Start(db, plans);
    forall x | x == f || (x in Rivals(db, f) && VisibleAt(db[x], game)) ensures Untouched(plans, start, Zeros(plans), x) {
      forall p | 0 <= p < |plans| ensures Unwritten(plans, start, Zeros(plans), p, x) {
        WholeWithin(db, plans, p);
        KeepsExactly(db, Whole(plans[p]), f, game);
        WholeKeys(plans[p], x);
        hide Outranks, Pass, VisibleAt;
      }
    }
    hide Pass, Rivals, VisibleAt;
  }

  lemma SameRanks(db: Db, db': Db)
    requires SameFiles(db, db')
    ensures forall x, y | x in db && y in db :: Outranks(db', x, y) == Outranks(db, x, y)
  {
    hide RankBefore;
  }

  lemma WriteVisible(db: Db, batch: Decisions, x: FileId, game: int)
    requires batch.Keys <= db.Keys && x in db
    ensures VisibleAt(WriteBatch(db, batch)[x], game)
       <==> if x in batch then batch[x].gameId == Some(game) else VisibleAt(db[x], game)
  {
  }

  /** What no pass wrote stays unwritten when passes only write others or die. */
  lemma UntouchedStays(plans: Plans, w: World, at: seq<nat>, w': World, at': seq<nat>, written: set<FileId>)
    requires |plans| == |at| == |w.passes| == |w'.passes| == |at'|
    requires forall p | 0 <= p < |plans| :: w'.passes[p] == w.passes[p] || w'.passes[p] == Broken
    requires forall p, x | 0 <= p < |plans| && x !in written && ToCome(plans, at, p, x) :: ToCome(plans, at', p, x)
    ensures forall x | x !in written && Untouched(plans, w, at, x) :: Untouched(plans, w', at', x)
  {
    hide ToCome;
    forall x | x !in written && Untouched(plans, w, at, x) ensures Untouched(plans, w', at', x) {
      forall p | 0 <= p < |plans| ensures Unwritten(plans, w', at', p, x) { assert Unwritten(plans, w, at, p, x); }
    }
  }

  /** A pass that has written everything leaves nothing untouched. */
  lemma Touched(plans: Plans, w: World, at: seq<nat>, p: nat, x: FileId)
    requires p < |w.passes| == |plans| == |at| && !Unwritten(plans, w, at, p, x)
    ensures !Untouched(plans, w, at, x)
  {
  }

  /** A rival a pass still has to write is decided elsewhere, and `f` here. */
  lemma ChunkDecides(db: Db, plans: Plans, f: FileId, game: int, p: nat, k: nat)
    requires AllDecide(db, plans, f) && EachKeeps(db, plans, f, game) && p < |plans| && k < |plans[p]|
    ensures plans[p][k].Keys <= db.Keys && (f in plans[p][k] ==> plans[p][k][f].gameId == Some(game))
    ensures forall x | x in Rivals(db, f) && x in plans[p][k] :: plans[p][k][x].gameId != Some(game)
  {
    WholeWithin(db, plans, p);
    KeepsExactly(db, Whole(plans[p]), f, game);
    forall x | x in plans[p][k] ensures x in Whole(plans[p]) && Whole(plans[p])[x] == plans[p][k][x] {
      PlannedIn(plans, p, k, x);
    }
    hide Pass, Outranks, VisibleAt;
  }

  lemma WriteKeepsLead(db: Db, plans: Plans, w: World, at: seq<nat>, f: FileId, game: int, p: nat, batch: Decisions, rules: Rules)
    requires AllDecide(db, plans, f) && EachKeeps(db, plans, f, game)
    requires Leads(db, plans, w, at, f, game) && Next(plans, w, at, WriteSome(p, batch), rules)
    ensures Leads(db, plans, Act(w, WriteSome(p, batch)), Rest(w, at, WriteSome(p, batch)), f, game)
    ensures VisibleAt(w.db[f], game) ==> VisibleAt(Act(w, WriteSome(p, batch)).db[f], game)
  {
    ChunkDecides(db, plans, f, game, p, at[p]);
    assert Rivals(db, f) <= w.db.Keys;
    WriteShape(plans, w, at, p, batch, rules);
    forall x | x in w.db
      ensures VisibleAt(WriteBatch(w.db, batch)[x], game)
         <==> if x in batch then batch[x].gameId == Some(game) else VisibleAt(w.db[x], game)
    {
      WriteVisible(w.db, batch, x, game);
    }
    hide Pass, Rivals, EachKeeps, WriteBatch, VisibleAt, Untouched, AllDecide, Act, Rest, Spared;
    var w', at' := Act(w, WriteSome(p, batch)), Rest(w, at, WriteSome(p, batch));
    forall x | x in Rivals(db, f) && VisibleAt(w'.db[x], game) ensures Untouched(plans, w', at', x) {
      assert x in w.db && x !in batch;
    }
  }

  lemma WriteShape(plans: Plans, w: World, at: seq<nat>, p: nat, batch: Decisions, rules: Rules)
    requires Next(plans, w, at, WriteSome(p, batch), rules) && batch.Keys <= w.db.Keys
    ensures var w', at' := Act(w, WriteSome(p, batch)), Rest(w, at, WriteSome(p, batch));
      && w' == w.(db := WriteBatch(w.db, batch)) && SameFiles(w.db, w'.db) && at' == at[p := at[p] + 1]
      && forall x | x !in batch && Untouched(plans, w, at, x) :: Untouched(plans, w', at', x)
  {
    UntouchedStays(plans, w, at, Act(w, WriteSome(p, batch)), Rest(w, at, WriteSome(p, batch)), batch.Keys);
    hide Untouched;
  }

  lemma SelectKeepsLead(db: Db, plans: Plans, w: World, at: seq<nat>, f: FileId, game: int, p: nat, rules: Rules)
    requires Leads(db, plans, w, at, f, game) && Next(plans, w, at, SelectLosers(p), rules)
    ensures Leads(db, plans, Act(w, SelectLosers(p)), at, f, game)
  {
    Touched(plans, w, at, p, f);
    forall x | x in Rivals(db, f) ensures !VisibleAt(w.db[x], game) { Touched(plans, w, at, p, x); }
    NotLoser(db, w.db, f, game);
    hide Losers, Rivals, VisibleAt, Untouched;
  }

  /** A visible file with no rival at its game is no loser. */
  lemma NotLoser(db: Db, now: Db, f: FileId, game: int)
    requires f in db && SameFiles(db, now) && VisibleAt(now[f], game)
    requires forall x | x in Rivals(db, f) :: !VisibleAt(now[x], game)
    ensures f !in Losers(now)
  {
    SameRanks(db, now);
    hide Outranks;
  }

  lemma HideKeepsLead(db: Db, plans: Plans, w: World, at: seq<nat>, f: FileId, game: int, p: nat, rules: Rules)
    requires Leads(db, plans, w, at, f, game) && Next(plans, w, at, HideLosers(p), rules)
    ensures Leads(db, plans, Act(w, HideLosers(p)), at, f, game)
    ensures VisibleAt(w.db[f], game) ==> VisibleAt(Act(w, HideLosers(p)).db[f], game)
  {
    var w' := Act(w, HideLosers(p));
    var losers := w.passes[p].losers;
    assert w'.db == Hide(w.db, losers) && SameFiles(w.db, w'.db);
    forall x | x in w.db && VisibleAt(w'.db[x], game) ensures VisibleAt(w.db[x], game) { HideOnlyRemoves(w.db, losers, x, game); }
    assert w'.db[f] == w.db[f];
    Touched(plans, w, at, p, f);
    forall x ensures !Untouched(plans, w, at, x) { Touched(plans, w, at, p, x); }
    hide Hide, Rivals, VisibleAt, Untouched;
  }

  lemma BreakKeepsLead(db: Db, plans: Plans, w: World, at: seq<nat>, f: FileId, game: int, p: nat, rules: Rules)
    requires Leads(db, plans, w, at, f, game) && Next(plans, w, at, Break(p), rules)
    ensures Leads(db, plans, Act(w, Break(p)), at, f, game)
  {
    var w' := Act(w, Break(p));
    assert w'.db == w.db;
    UntouchedStays(plans, w, at, w', at, {});
    hide Rivals, VisibleAt, Untouched;
  }

  lemma StageKeepsLead(db: Db, plans: Plans, w: World, at: seq<nat>, f: FileId, game: int, step: Step, rules: Rules)
    requires Leads(db, plans, w, at, f, game) && Next(plans, w, at, OtherStage(step), rules) && rules.calm
    ensures Leads(db, plans, Act(w, OtherStage(step)), at, f, game)
    ensures VisibleAt(w.db[f], game) ==> VisibleAt(Act(w, OtherStage(step)).db[f], game)
  {
    StageKeepsMatch(w.db, step);
    var w' := Act(w, OtherStage(step));
    assert w'.db == Apply(w.db, step) && w'.passes == w.passes;
    hide Apply;
    assert forall x | x in w.db :: VisibleAt(w'.db[x], game) == VisibleAt(w.db[x], game);
    UntouchedStays(plans, w, at, w', at, {});
    hide Rivals, VisibleAt, Untouched, Act;
  }

  lemma ActKeepsLead(db: Db, plans: Plans, w: World, at: seq<nat>, f: FileId, game: int, a: Action, rules: Rules)
    requires AllDecide(db, plans, f) && EachKeeps(db, plans, f, game) && rules.calm
    requires Leads(db, plans, w, at, f, game) && Next(plans, w, at, a, rules)
    ensures Leads(db, plans, Act(w, a), Rest(w, at, a), f, game)
    ensures VisibleAt(w.db[f], game) ==> VisibleAt(Act(w, a).db[f], game)
  {
    hide AllDecide, EachKeeps, Leads, WriteBatch, Losers, Hide, Apply, VisibleAt;
    match a
    case WriteSome(p, batch) => WriteKeepsLead(db, plans, w, at, f, game, p, batch, rules);
    case SelectLosers(p) => SelectKeepsLead(db, plans, w, at, f, game, p, rules);
    case HideLosers(p) => HideKeepsLead(db, plans, w, at, f, game, p, rules);
    case Break(p) => BreakKeepsLead(db, plans, w, at, f, game, p, rules);
    case OtherStage(step) => StageKeepsLead(db, plans, w, at, f, game, step, rules);
  }

  lemma {:induction false} LeadIsKept(db: Db, plans: Plans, w: World, at: seq<nat>, f: FileId, game: int,
    actions: seq<Action>, rules: Rules)
    requires AllDecide(db, plans, f) && EachKeeps(db, plans, f, game) && rules.calm
    requires Leads(db, plans, w, at, f, game) && Orderly(plans, w, at, actions, rules)
    requires rules.breaks ==> VisibleAt(w.db[f], game)
    requires Finished(ActAll(w, actions).passes, rules.breaks)
    ensures f in ActAll(w, actions).db && VisibleAt(ActAll(w, actions).db[f], game)
    decreases |actions|
  {
    if actions == [] {
      if !rules.breaks { assert w.passes[0] == Done && !Unwritten(plans, w, at, 0, f); }
    } else {
      ActKeepsLead(db, plans, w, at, f, game, actions[0], rules);
      assert f in w.db;
      hide AllDecide, EachKeeps, Leads, Act, Next, VisibleAt, Finished;
      LeadIsKept(db, plans, Act(w, actions[0]), Rest(w, at, actions[0]), f, game, actions[1..], rules);
    }
  }

  // ---------- runs put together ----------

  lemma {:induction false} RunsConcat(plans: Plans, w: World, at: seq<nat>, a: seq<Action>, b: seq<Action>, rules: Rules)
    requires Orderly(plans, w, at, a, rules) && Orderly(plans, ActAll(w, a), AtAfter(w, at, a), b, rules)
    ensures Orderly(plans, w, at, a + b, rules)
    ensures ActAll(w, a + b) == ActAll(ActAll(w, a), b)
    ensures AtAfter(w, at, a + b) == AtAfter(ActAll(w, a), AtAfter(w, at, a), b)
    decreases |a|
  {
    hide Next, Act, Rest;
    if a == [] {
      assert a + b == b;
    } else {
      assert (a + b)[1..] == a[1..] + b;
      RunsConcat(plans, Act(w, a[0]), Rest(w, at, a[0]), a[1..], b, rules);
    }
  }

  /** A state that orderly actions lead to. */
  ghost predicate Reaches(plans: Plans, w: World, at: seq<nat>, w': World, at': seq<nat>, rules: Rules) {
    exists actions :: Orderly(plans, w, at, actions, rules) && ActAll(w, actions) == w' && AtAfter(w, at, actions) == at'
  }

  lemma Stay(plans: Plans, w: World, at: seq<nat>, rules: Rules)
    ensures Reaches(plans, w, at, w, at, rules)
  {
    assert Orderly(plans, w, at, [], rules) && ActAll(w, []) == w && AtAfter(w, at, []) == at;
  }

  lemma OneStep(plans: Plans, w: World, at: seq<nat>, a: Action, rules: Rules)
    requires Next(plans, w, at, a, rules)
    ensures Reaches(plans, w, at, Act(w, a), Rest(w, at, a), rules)
  {
    hide Act, Next, Rest;
    var actions := [a];
    assert actions[1..] == [];
    assert Orderly(plans, Act(w, a), Rest(w, at, a), [], rules);
    assert ActAll(w, actions) == ActAll(Act(w, a), []) == Act(w, a);
    assert AtAfter(w, at, actions) == AtAfter(Act(w, a), Rest(w, at, a), []) == Rest(w, at, a);
    assert Orderly(plans, w, at, actions, rules);
  }

  lemma Onward(plans: Plans, w: World, at: seq<nat>, w1: World, at1: seq<nat>, w2: World, at2: seq<nat>, rules: Rules)
    requires Reaches(plans, w, at, w1, at1, rules) && Reaches(plans, w1, at1, w2, at2, rules)
    ensures Reaches(plans, w, at, w2, at2, rules)
  {
    hide Orderly, ActAll, AtAfter;
    var a :| Orderly(plans, w, at, a, rules) && ActAll(w, a) == w1 && AtAfter(w, at, a) == at1;
    var b :| Orderly(plans, w1, at1, b, rules) && ActAll(w1, b) == w2 && AtAfter(w1, at1, b) == at2;
    RunsConcat(plans, w, at, a, b, rules);
  }

  lemma WriteTwice(db: Db, a: Decisions, b: Decisions)
    requires a.Keys <= db.Keys && b.Keys <= db.Keys
    ensures WriteBatch(WriteBatch(db, a), b) == WriteBatch(db, a + b)
  {
    forall id | id in db && id in a && id in b ensures Resolved(Resolved(db[id], a[id]), b[id]) == Resolved(db[id], b[id]) {
      assert Resolved(Resolved(db[id], a[id]), b[id]).sides == Resolved(db[id], b[id]).sides;
    }
    hide Resolved;
  }

  lemma WriteNothing(db: Db)
    ensures WriteBatch(db, map[]) == db
  {
  }

  lemma WriteNext(plans: Plans, w: World, at: seq<nat>, p: nat, rules: Rules) returns (w': World, at': seq<nat>)
    requires |at| == |w.passes| == |plans| && p < |plans| && at[p] < |plans[p]| && w.passes[p] == Writing
    requires plans[p][at[p]].Keys <= w.db.Keys
    ensures Reaches(plans, w, at, w', at', rules) && w'.passes == w.passes && at' == at[p := at[p] + 1]
    ensures w'.db == WriteBatch(w.db, plans[p][at[p]])
  {
    var write := WriteSome(p, plans[p][at[p]]);
    w', at' := Act(w, write), Rest(w, at, write);
    OneStep(plans, w, at, write, rules);
    hide WriteBatch, Reaches;
  }

  /** Pass `p` can write its next chunks, up to the `n`-th. */
  lemma {:induction false} WriteOn(plans: Plans, w: World, at: seq<nat>, p: nat, n: nat, rules: Rules) returns (w': World, at': seq<nat>)
    requires |at| == |w.passes| == |plans| && p < |plans| && at[p] <= n <= |plans[p]| && w.passes[p] == Writing
    requires Within(w.db, plans)
    ensures Reaches(plans, w, at, w', at', rules) && w'.passes == w.passes && at' == at[p := n]
    ensures w'.db == WriteBatch(w.db, Whole(plans[p][at[p]..n])) && w'.db.Keys == w.db.Keys
    ensures Whole(plans[p][at[p]..n]).Keys <= w.db.Keys
    decreases n
  {
    hide Reaches;
    if n == at[p] {
      Stay(plans, w, at, rules);
      WriteNothing(w.db);
      w', at' := w, at;
    } else {
      var w1, at1 := WriteOn(plans, w, at, p, n - 1, rules);
      var chunks := plans[p][at[p]..n];
      assert chunks[..|chunks| - 1] == plans[p][at[p]..n - 1] && chunks[|chunks| - 1] == plans[p][n - 1];
      WriteTwice(w.db, Whole(plans[p][at[p]..n - 1]), plans[p][n - 1]);
      SameKeys(w1.db, plans[p][n - 1]);
      hide WriteBatch;
      w', at' := WriteNext(plans, w1, at1, p, rules);
      Onward(plans, w, at, w1, at1, w', at', rules);
    }
  }

  /** Pass `p`, not begun, can do all of its work now, up to selecting losers. */
  lemma WriteAndSelect(plans: Plans, w: World, at: seq<nat>, p: nat, rules: Rules) returns (w': World, at': seq<nat>)
    requires |at| == |w.passes| == |plans| && p < |plans| && at[p] == 0 && w.passes[p] == Writing && Within(w.db, plans)
    ensures Reaches(plans, w, at, w', at', rules)
    ensures w'.db == WriteBatch(w.db, Whole(plans[p])) && w'.db.Keys == w.db.Keys && at' == at[p := |plans[p]|]
    ensures w'.passes == w.passes[p := if Losers(w'.db) == {} then Done else Hiding(Losers(w'.db))]
  {
    var w1: World;
    w1, at' := WriteOn(plans, w, at, p, |plans[p]|, rules);
    assert plans[p][0..|plans[p]|] == plans[p];
    w' := Act(w1, SelectLosers(p));
    OneStep(plans, w1, at', SelectLosers(p), rules);
    hide WriteBatch, Losers;
    assert w'.db == w1.db;
    hide Act, Next, Reaches;
    Onward(plans, w, at, w1, at', w', at', rules);
  }

  /** ... and to the end. */
  lemma FinishPass(plans: Plans, w: World, at: seq<nat>, p: nat, rules: Rules) returns (w': World, at': seq<nat>)
    requires |at| == |w.passes| == |plans| && p < |plans| && at[p] == 0 && w.passes[p] == Writing && Within(w.db, plans)
    ensures Reaches(plans, w, at, w', at', rules)
    ensures w'.db == Pass(w.db, Whole(plans[p])) && w'.db.Keys == w.db.Keys
    ensures at' == at[p := |plans[p]|] && w'.passes == w.passes[p := Done]
  {
    w', at' := WriteAndSelect(plans, w, at, p, rules);
    var written := w'.db;
    hide WriteBatch, Losers, Reaches;
    if Losers(written) == {} {
      HideNothing(written);
    } else {
      var w1 := w';
      w' := Act(w1, HideLosers(p));
      assert w1.passes[p] == Hiding(Losers(written));
      assert w'.db == Hide(written, Losers(written)) && w'.passes == w.passes[p := Done];
      OneStep(plans, w1, at', HideLosers(p), rules);
      HideKeys(written, Losers(written));
      hide Hide, Act;
      Onward(plans, w, at, w1, at', w', at', rules);
    }
  }

  lemma HideNothing(db: Db)
    ensures Hide(db, {}) == db
  {
  }

  /** All passes below `n`, `skip` excepted, can be brought to an end. */
  lemma {:induction false} FinishOthers(plans: Plans, w: World, at: seq<nat>, n: nat, skip: nat, rules: Rules)
    returns (w': World, at': seq<nat>)
    requires n <= |plans| == |at| == |w.passes| && Within(w.db, plans)
    requires forall q | 0 <= q < n && q != skip :: w.passes[q] == Writing && at[q] == 0
    ensures Reaches(plans, w, at, w', at', rules) && w'.db.Keys == w.db.Keys && |at'| == |plans| == |w'.passes|
    ensures forall q | 0 <= q < n && q != skip :: w'.passes[q] == Done
    ensures forall q | 0 <= q < |plans| && (q >= n || q == skip) :: w'.passes[q] == w.passes[q] && at'[q] == at[q]
  {
    hide Pass, Reaches;
    if n == 0 {
      Stay(plans, w, at, rules);
      w', at' := w, at;
    } else {
      var w1, at1 := FinishOthers(plans, w, at, n - 1, skip, rules);
      if n - 1 == skip {
        w', at' := w1, at1;
      } else {
        w', at' := FinishPass(plans, w1, at1, n - 1, rules);
        Onward(plans, w, at, w1, at1, w', at', rules);
      }
    }
  }

  /** With breaks all passes can die where they are. */
  lemma {:induction false} AllDie(plans: Plans, w: World, at: seq<nat>, n: nat, rules: Rules) returns (w': World)
    requires n <= |plans| == |at| == |w.passes| && forall q | 0 <= q < n :: w.passes[q] == Writing
    requires rules.breaks
    ensures Reaches(plans, w, at, w', at, rules) && w'.db == w.db && |w'.passes| == |w.passes|
    ensures forall q | 0 <= q < n :: w'.passes[q] == Broken
    ensures forall q | n <= q < |plans| :: w'.passes[q] == w.passes[q]
  {
    if n == 0 {
      Stay(plans, w, at, rules);
      w' := w;
    } else {
      var w1 := AllDie(plans, w, at, n - 1, rules);
      w' := Act(w1, Break(n - 1));
      OneStep(plans, w1, at, Break(n - 1), rules);
      hide Reaches;
      Onward(plans, w, at, w1, at, w', at, rules);
    }
  }

  // ---------- which file every run keeps ----------

  /** However the passes interleave, and die if they may, `f` ends up visible. */
  ghost predicate AlwaysKept(db: Db, plans: Plans, f: FileId, game: int, rules: Rules) {
    forall actions | IsRun(db, plans, actions, rules) ::
      f in After(db, plans, actions) && VisibleAt(After(db, plans, actions)[f], game)
  }

  /** A pass that places `f` and selects it for hiding can hide it after all
      others are through. */
  lemma HiddenLast(db: Db, plans: Plans, f: FileId, game: int, p: nat, rules: Rules) returns (w: World, at: seq<nat>)
    requires AllDecide(db, plans, f) && p < |plans| && f in Losers(WriteBatch(db, Whole(plans[p])))
    ensures Reaches(plans, Start(db, plans), Zeros(plans), w, at, rules)
    ensures f in w.db && !VisibleAt(w.db[f], game) && Finished(w.passes, false)
  {
    hide Reaches, IsLoser, WriteBatch, Apart, Within;
    var start, written := Start(db, plans), WriteBatch(db, Whole(plans[p]));
    var w1, at1 := WriteAndSelect(plans, start, Zeros(plans), p, rules);
    SameWithin(db, w1.db, plans);
    var w2, at2 := FinishOthers(plans, w1, at1, |plans|, p, rules);
    assert w2.passes[p] == Hiding(Losers(written));
    w, at := Act(w2, HideLosers(p)), at2;
    OneStep(plans, w2, at2, HideLosers(p), rules);
    HiddenIsCleared(w2.db[f]);
    assert w.db[f] == HiddenRows(w2.db[f]) && w.passes == w2.passes[p := Done];
    hide Losers, Hide, Act;
    Onward(plans, start, Zeros(plans), w1, at1, w2, at2, rules);
    Onward(plans, start, Zeros(plans), w2, at2, w, at, rules);
  }

  lemma SameWithin(db: Db, db': Db, plans: Plans)
    requires Within(db, plans) && db'.Keys == db.Keys
    ensures Within(db', plans)
  {
  }

  /** A pass that does not place `f` at the game can write last. */
  lemma WrittenLast(db: Db, plans: Plans, f: FileId, game: int, p: nat, rules: Rules) returns (w: World, at: seq<nat>)
    requires AllDecide(db, plans, f) && p < |plans| && Whole(plans[p])[f].gameId != Some(game)
    ensures Reaches(plans, Start(db, plans), Zeros(plans), w, at, rules)
    ensures f in w.db && !VisibleAt(w.db[f], game) && Finished(w.passes, false)
  {
    hide Reaches, Pass;
    var start := Start(db, plans);
    var w1, at1 := FinishOthers(plans, start, Zeros(plans), |plans|, p, rules);
    w, at := FinishPass(plans, w1, at1, p, rules);
    WholeWithin(w1.db, plans, p);
    KeepsExactly(w1.db, Whole(plans[p]), f, game);
    Onward(plans, start, Zeros(plans), w1, at1, w, at, rules);
  }

  /** A pass that alone would lose `f` loses it in some run. */
  lemma LosingRun(db: Db, plans: Plans, f: FileId, game: int, p: nat, rules: Rules) returns (w: World, at: seq<nat>)
    requires AllDecide(db, plans, f) && p < |plans|
    requires f in Pass(db, Whole(plans[p])) ==> !VisibleAt(Pass(db, Whole(plans[p]))[f], game)
    ensures Reaches(plans, Start(db, plans), Zeros(plans), w, at, rules)
    ensures f in w.db && !VisibleAt(w.db[f], game) && Finished(w.passes, false)
  {
    WholeWithin(db, plans, p);
    WriteVisible(db, Whole(plans[p]), f, game);
    if Whole(plans[p])[f].gameId == Some(game) {
      assert f in Losers(WriteBatch(db, Whole(plans[p])));
      w, at := HiddenLast(db, plans, f, game, p, rules);
    } else {
      w, at := WrittenLast(db, plans, f, game, p, rules);
    }
  }

  lemma RunTo(db: Db, plans: Plans, w: World, at: seq<nat>, rules: Rules) returns (actions: seq<Action>)
    requires Reaches(plans, Start(db, plans), Zeros(plans), w, at, rules) && Finished(w.passes, rules.breaks)
    ensures IsRun(db, plans, actions, rules) && After(db, plans, actions) == w.db
  {
    hide Orderly, ActAll, AtAfter;
    actions :| Orderly(plans, Start(db, plans), Zeros(plans), actions, rules) && ActAll(Start(db, plans), actions) == w
            && AtAfter(Start(db, plans), Zeros(plans), actions) == at;
  }

  /** While no file appears, vanishes or gets a new revision, every interleaving
      keeps a file that all passes decide at the game exactly when each pass
      alone would; if passes may die, it must also be there to begin with. */
  lemma KeptExactly(db: Db, plans: Plans, f: FileId, game: int, rules: Rules)
    requires AllDecide(db, plans, f) && rules.calm
    ensures AlwaysKept(db, plans, f, game, rules)
       <==> (rules.breaks ==> VisibleAt(db[f], game)) && EachKeeps(db, plans, f, game)
  {
    var start := Start(db, plans);
    if !EachKeeps(db, plans, f, game) {
      var p: nat :| p < |plans| && !(f in Pass(db, Whole(plans[p])) && VisibleAt(Pass(db, Whole(plans[p]))[f], game));
      var w, at := LosingRun(db, plans, f, game, p, rules);
      var actions := RunTo(db, plans, w, at, rules);
    } else if rules.breaks && !VisibleAt(db[f], game) {
      var w := AllDie(plans, start, Zeros(plans), |plans|, rules);
      var actions := RunTo(db, plans, w, Zeros(plans), rules);
    } else {
      StartLeads(db, plans, f, game);
      hide EachKeeps, Leads, Orderly, ActAll, AllDecide, Finished;
      forall actions | IsRun(db, plans, actions, rules)
        ensures f in After(db, plans, actions) && VisibleAt(After(db, plans, actions)[f], game)
      {
        LeadIsKept(db, plans, start, Zeros(plans), f, game, actions, rules);
      }
    }
  }

  /** Without deaths the file kept is then the only one at its game. */
  lemma KeptAlone(db: Db, plans: Plans, f: FileId, game: int, actions: seq<Action>)
    requires AllDecide(db, plans, f) && EachKeeps(db, plans, f, game) && IsRun(db, plans, actions, Rules(false, true))
    ensures var after := After(db, plans, actions);
      forall x :: x in after && VisibleAt(after[x], game) <==> x == f
  {
    KeptExactly(db, plans, f, game, Rules(false, true));
    hide EachKeeps, ActAll;
    InterleavedPassesLeaveNoDuplicates(db, |plans|, actions);
  }

  // ---------- what dying passes leave ----------

  /** Chunk `k` of pass `p` puts the file there. */
  predicate Puts(plans: Plans, p: nat, k: nat, x: FileId, game: int) {
    p < |plans| && k < |plans[p]| && x in plans[p][k] && plans[p][k][x].gameId == Some(game)
  }

  /** `x` is there, and a pass puts `y` there before it writes `x`, if ever. */
  ghost predicate Joins(db: Db, plans: Plans, x: FileId, y: FileId, game: int, q: nat, k: nat) {
    && x in db && VisibleAt(db[x], game) && Puts(plans, q, k, y, game)
    && forall l | 0 <= l <= k :: x !in plans[q][l]
  }

  /** Two passes put one each there, and neither takes the other's file away in
      the same transaction, or only one of them does. */
  ghost predicate Meet(plans: Plans, x: FileId, y: FileId, game: int, p: nat, k: nat, q: nat, l: nat) {
    && p != q && Puts(plans, p, k, x, game) && Puts(plans, q, l, y, game)
    && x !in plans[q][l]
  }

  /** The two files can be at the game at once. */
  ghost predicate Clash(db: Db, plans: Plans, x: FileId, y: FileId, game: int) {
    || (x in db && y in db && VisibleAt(db[x], game) && VisibleAt(db[y], game))
    || (exists p, k, l :: Puts(plans, p, k, x, game) && Puts(plans, p, l, y, game))
    || (exists q, k :: Joins(db, plans, x, y, game, q, k))
    || (exists q, k :: Joins(db, plans, y, x, game, q, k))
    || (exists p, k, q, l :: Meet(plans, x, y, game, p, k, q, l))
    || (exists p, k, q, l :: Meet(plans, y, x, game, p, k, q, l))
  }

  ghost predicate NoClash(db: Db, plans: Plans) {
    forall x, y, game | Clash(db, plans, x, y, game) :: x == y
  }

  /** A visible file was there all along, or a chunk already written put it there. */
  ghost predicate Origin(db: Db, plans: Plans, at: seq<nat>, x: FileId, game: int)
    requires |at| == |plans|
  {
    || (x in db && VisibleAt(db[x], game) && forall p, k | 0 <= p < |plans| && 0 <= k < at[p] && k < |plans[p]| :: x !in plans[p][k])
    || exists p: nat, k: nat :: p < |plans| && k < at[p] && Puts(plans, p, k, x, game)
  }

  ghost predicate Explained(db: Db, plans: Plans, w: World, at: seq<nat>) {
    && |at| == |plans| == |w.passes|
    && (forall x, game | x in w.db && VisibleAt(w.db[x], game) :: Origin(db, plans, at, x, game))
    && forall x, y, game {:trigger VisibleAt(w.db[x], game), VisibleAt(w.db[y], game)}
         | x in w.db && y in w.db && x != y && VisibleAt(w.db[x], game) && VisibleAt(w.db[y], game) :: Clash(db, plans, x, y, game)
  }

  /** A chunk that puts `y` where `x` is and stays makes them clash. */
  lemma ChunkClash(db: Db, plans: Plans, at: seq<nat>, q: nat, x: FileId, y: FileId, game: int)
    requires |at| == |plans| && q < |plans| && at[q] < |plans[q]| && Puts(plans, q, at[q], y, game)
    requires x !in plans[q][at[q]] && Origin(db, plans, at, x, game)
    ensures Clash(db, plans, x, y, game)
  {
    if p: nat, k: nat :| p < |plans| && k < at[p] && Puts(plans, p, k, x, game) {
      if p != q { assert Meet(plans, x, y, game, p, k, q, at[q]); }
    } else {
      assert Joins(db, plans, x, y, game, q, at[q]);
    }
  }

  lemma ClashSymmetric(db: Db, plans: Plans, x: FileId, y: FileId, game: int)
    requires Clash(db, plans, x, y, game)
    ensures Clash(db, plans, y, x, game)
  {
    hide Joins, Meet;
  }

  lemma OriginStays(db: Db, plans: Plans, at: seq<nat>, q: nat, x: FileId, game: int)
    requires |at| == |plans| && q < |plans| && at[q] < |plans[q]|
    requires Puts(plans, q, at[q], x, game) || (x !in plans[q][at[q]] && Origin(db, plans, at, x, game))
    ensures Origin(db, plans, at[q := at[q] + 1], x, game)
  {
    var at' := at[q := at[q] + 1];
    if Puts(plans, q, at[q], x, game) {
      assert q < |plans| && at[q] < at'[q] && Puts(plans, q, at[q], x, game);
    } else if p: nat, k: nat :| p < |plans| && k < at[p] && Puts(plans, p, k, x, game) {
      assert p < |plans| && k < at'[p] && Puts(plans, p, k, x, game);
    }
  }

  lemma WriteExplained(db: Db, plans: Plans, w: World, at: seq<nat>, q: nat)
    requires Explained(db, plans, w, at) && q < |plans| && at[q] < |plans[q]| && plans[q][at[q]].Keys <= w.db.Keys
    ensures Explained(db, plans, w.(db := WriteBatch(w.db, plans[q][at[q]])), at[q := at[q] + 1])
  {
    var batch := plans[q][at[q]];
    var written := WriteBatch(w.db, batch);
    assert written.Keys == w.db.Keys;
    forall x, game | x in written && VisibleAt(written[x], game)
      ensures Puts(plans, q, at[q], x, game) || (x !in batch && VisibleAt(w.db[x], game) && Origin(db, plans, at, x, game))
      ensures Origin(db, plans, at[q := at[q] + 1], x, game)
    {
      WriteVisible(w.db, batch, x, game);
      hide Origin, WriteBatch, VisibleAt;
      OriginStays(db, plans, at, q, x, game);
    }
    hide Origin, WriteBatch, VisibleAt, Clash;
    forall x, y, game | x in written && y in written && x != y && VisibleAt(written[x], game) && VisibleAt(written[y], game)
      ensures Clash(db, plans, x, y, game)
    {
      ClashAfter(db, plans, at, q, x, y, game, w.db);
    }
  }

  lemma ClashAfter(db: Db, plans: Plans, at: seq<nat>, q: nat, x: FileId, y: FileId, game: int, now: Db)
    requires |at| == |plans| && q < |plans| && at[q] < |plans[q]| && x in now && y in now && x != y
    requires forall z | z == x || z == y ::
      Puts(plans, q, at[q], z, game) || (z !in plans[q][at[q]] && VisibleAt(now[z], game) && Origin(db, plans, at, z, game))
    requires VisibleAt(now[x], game) && VisibleAt(now[y], game) ==> Clash(db, plans, x, y, game)
    ensures Clash(db, plans, x, y, game)
  {
    if Puts(plans, q, at[q], y, game) {
      if !Puts(plans, q, at[q], x, game) { ChunkClash(db, plans, at, q, x, y, game); }
    } else if Puts(plans, q, at[q], x, game) {
      ChunkClash(db, plans, at, q, y, x, game);
      hide Clash;
      ClashSymmetric(db, plans, y, x, game);
    }
  }

  /** What only takes files away needs no explanation. */
  lemma FewerExplained(db: Db, plans: Plans, w: World, at: seq<nat>, w': World)
    requires Explained(db, plans, w, at) && |w'.passes| == |w.passes|
    requires forall x, game | x in w'.db && VisibleAt(w'.db[x], game) :: x in w.db && VisibleAt(w.db[x], game)
    ensures Explained(db, plans, w', at)
  {
    hide Origin, Clash, VisibleAt;
  }

  lemma ActExplained(db: Db, plans: Plans, w: World, at: seq<nat>, a: Action, rules: Rules)
    requires Explained(db, plans, w, at) && Next(plans, w, at, a, rules)
    ensures Explained(db, plans, Act(w, a), Rest(w, at, a))
  {
    hide Explained, WriteBatch, Losers, Hide, Apply;
    var w' := Act(w, a);
    if a.WriteSome? && a.batch.Keys <= w.db.Keys {
      WriteExplained(db, plans, w, at, a.pass);
    } else {
      forall x, game | x in w'.db && VisibleAt(w'.db[x], game) ensures x in w.db && VisibleAt(w.db[x], game) {
        if a.HideLosers? {
          HideKeys(w.db, w.passes[a.pass].losers);
          HideOnlyRemoves(w.db, w.passes[a.pass].losers, x, game);
        }
        if a.OtherStage? { OtherStagesOnlyRemove(w.db, a.step, x, game); }
      }
      FewerExplained(db, plans, w, at, w');
    }
  }

  lemma {:induction false} RunExplained(db: Db, plans: Plans, w: World, at: seq<nat>, actions: seq<Action>, rules: Rules)
    requires Explained(db, plans, w, at) && Orderly(plans, w, at, actions, rules)
    ensures Explained(db, plans, ActAll(w, actions), AtAfter(w, at, actions))
    decreases |actions|
  {
    if actions != [] {
      ActExplained(db, plans, w, at, actions[0], rules);
      hide Explained, Act, Next, Rest;
      RunExplained(db, plans, Act(w, actions[0]), Rest(w, at, actions[0]), actions[1..], rules);
    }
  }

  lemma StartExplained(db: Db, plans: Plans)
    ensures Explained(db, plans, Start(db, plans), Zeros(plans))
  {
  }

  /** Where a pass puts a file, the chunks up to there show it. */
  lemma PutShows(db: Db, plans: Plans, p: nat, from: nat, k: nat, n: nat, x: FileId, game: int)
    requires Apart(plans) && Within(db, plans) && Puts(plans, p, k, x, game) && from <= k < n <= |plans[p]| && x in db
    requires Whole(plans[p][from..n]).Keys <= db.Keys
    ensures VisibleAt(WriteBatch(db, Whole(plans[p][from..n]))[x], game)
  {
    var chunks := plans[p][from..n];
    assert chunks[k - from] == plans[p][k];
    ChunkInWhole(chunks, k - from, x);
    WriteVisible(db, Whole(chunks), x, game);
  }

  /** Chunks without it leave a file as it is. */
  lemma OthersLeave(db: Db, chunks: seq<Decisions>, x: FileId)
    requires x in db && Whole(chunks).Keys <= db.Keys && forall l | 0 <= l < |chunks| :: x !in chunks[l]
    ensures WriteBatch(db, Whole(chunks))[x] == db[x]
  {
    WholeKeys(chunks, x);
  }

  /** A state with passes still writing in which two files share a game. */
  ghost predicate Shared(plans: Plans, db: Db, w: World, at: seq<nat>, x: FileId, y: FileId, game: int, rules: Rules) {
    && Reaches(plans, Start(db, plans), Zeros(plans), w, at, rules) && |at| == |plans| == |w.passes|
    && (forall p | 0 <= p < |plans| :: w.passes[p] == Writing)
    && x in w.db && y in w.db && VisibleAt(w.db[x], game) && VisibleAt(w.db[y], game)
  }

  lemma BothPut(db: Db, plans: Plans, x: FileId, y: FileId, game: int, p: nat, k: nat, l: nat, rules: Rules) returns (w: World, at: seq<nat>)
    requires Apart(plans) && Within(db, plans) && Puts(plans, p, k, x, game) && Puts(plans, p, l, y, game)
    ensures Shared(plans, db, w, at, x, y, game, rules)
  {
    w, at := WriteOn(plans, Start(db, plans), Zeros(plans), p, |plans[p]|, rules);
    PutShows(db, plans, p, 0, k, |plans[p]|, x, game);
    PutShows(db, plans, p, 0, l, |plans[p]|, y, game);
  }

  lemma JoinShown(db: Db, plans: Plans, x: FileId, y: FileId, game: int, q: nat, k: nat, rules: Rules) returns (w: World, at: seq<nat>)
    requires Apart(plans) && Within(db, plans) && Joins(db, plans, x, y, game, q, k)
    ensures Shared(plans, db, w, at, x, y, game, rules)
  {
    w, at := WriteOn(plans, Start(db, plans), Zeros(plans), q, k + 1, rules);
    PutShows(db, plans, q, 0, k, k + 1, y, game);
    OthersLeave(db, plans[q][0..k + 1], x);
  }

  /** `q` stops short of its chunk `l`, `p` writes up to its chunk `k`, then `q` goes on. */
  lemma ThreeWrites(db: Db, plans: Plans, p: nat, k: nat, q: nat, l: nat, rules: Rules)
    returns (w2: World, w: World, at: seq<nat>, db1: Db)
    requires Within(db, plans) && p < |plans| && q < |plans| && p != q && k < |plans[p]| && l < |plans[q]|
    ensures Reaches(plans, Start(db, plans), Zeros(plans), w, at, rules) && |at| == |plans| == |w.passes|
    ensures forall p | 0 <= p < |plans| :: w.passes[p] == Writing
    ensures db1.Keys == w2.db.Keys == w.db.Keys == db.Keys
    ensures w2.db == WriteBatch(db1, Whole(plans[p][0..k + 1])) && Whole(plans[p][0..k + 1]).Keys <= db.Keys
    ensures w.db == WriteBatch(w2.db, Whole(plans[q][l..l + 1])) && Whole(plans[q][l..l + 1]).Keys <= db.Keys
  {
    hide Reaches, WriteBatch, Within;
    var start, zeros := Start(db, plans), Zeros(plans);
    var w1, at1 := WriteOn(plans, start, zeros, q, l, rules);
    db1 := w1.db;
    SameWithin(db, w1.db, plans);
    var at2: seq<nat>;
    w2, at2 := WriteOn(plans, w1, at1, p, k + 1, rules);
    SameWithin(db, w2.db, plans);
    w, at := WriteOn(plans, w2, at2, q, l + 1, rules);
    Onward(plans, start, zeros, w1, at1, w2, at2, rules);
    Onward(plans, start, zeros, w2, at2, w, at, rules);
  }

  lemma MeetShown(db: Db, plans: Plans, x: FileId, y: FileId, game: int, p: nat, k: nat, q: nat, l: nat, rules: Rules)
    returns (w: World, at: seq<nat>)
    requires Apart(plans) && Within(db, plans) && Meet(plans, x, y, game, p, k, q, l)
    ensures Shared(plans, db, w, at, x, y, game, rules)
  {
    var w2: World;
    var db1: Db;
    w2, w, at, db1 := ThreeWrites(db, plans, p, k, q, l, rules);
    assert x in db && y in db;
    hide Reaches, WriteBatch;
    MeetVisible(db, db1, w2.db, plans, x, y, game, p, k, q, l);
  }

  lemma MeetVisible(db: Db, db1: Db, db2: Db, plans: Plans, x: FileId, y: FileId, game: int, p: nat, k: nat, q: nat, l: nat)
    requires Apart(plans) && Within(db, plans) && Meet(plans, x, y, game, p, k, q, l)
    requires db1.Keys == db2.Keys == db.Keys && x in db && y in db
    requires db2 == WriteBatch(db1, Whole(plans[p][0..k + 1])) && Whole(plans[p][0..k + 1]).Keys <= db.Keys
    requires Whole(plans[q][l..l + 1]).Keys <= db.Keys
    ensures var written := WriteBatch(db2, Whole(plans[q][l..l + 1]));
      x in written && y in written && VisibleAt(written[x], game) && VisibleAt(written[y], game)
  {
    hide Whole, WriteBatch, Within, Apart, VisibleAt;
    FirstShown(db, db1, plans, x, game, p, k);
    SecondShown(db, db2, plans, y, game, q, l);
    OthersLeave(db2, plans[q][l..l + 1], x);
  }

  lemma SecondShown(db: Db, db2: Db, plans: Plans, y: FileId, game: int, q: nat, l: nat)
    requires Apart(plans) && Within(db, plans) && Puts(plans, q, l, y, game)
    requires db2.Keys == db.Keys && y in db && Whole(plans[q][l..l + 1]).Keys <= db.Keys
    ensures var written := WriteBatch(db2, Whole(plans[q][l..l + 1]));
      written.Keys == db.Keys && VisibleAt(written[y], game)
  {
    SameWithin(db, db2, plans);
    SameKeys(db2, Whole(plans[q][l..l + 1]));
    hide Whole, WriteBatch, Within, Apart, VisibleAt;
    PutShows(db2, plans, q, l, l, l + 1, y, game);
  }

  lemma FirstShown(db: Db, db1: Db, plans: Plans, x: FileId, game: int, p: nat, k: nat)
    requires Apart(plans) && Within(db, plans) && Puts(plans, p, k, x, game)
    requires db1.Keys == db.Keys && x in db && Whole(plans[p][0..k + 1]).Keys <= db.Keys
    ensures x in WriteBatch(db1, Whole(plans[p][0..k + 1])) && VisibleAt(WriteBatch(db1, Whole(plans[p][0..k + 1]))[x], game)
  {
    SameWithin(db, db1, plans);
    SameKeys(db1, Whole(plans[p][0..k + 1]));
    hide Whole, WriteBatch, Within, Apart, VisibleAt;
    PutShows(db1, plans, p, 0, k, k + 1, x, game);
  }

  lemma ClashShown(db: Db, plans: Plans, x: FileId, y: FileId, game: int, rules: Rules) returns (w: World, at: seq<nat>)
    requires Apart(plans) && Within(db, plans) && Clash(db, plans, x, y, game)
    ensures Shared(plans, db, w, at, x, y, game, rules)
  {
    hide Joins, Meet, Apart, Within, Reaches;
    if x in db && y in db && VisibleAt(db[x], game) && VisibleAt(db[y], game) {
      w, at := Start(db, plans), Zeros(plans);
      Stay(plans, w, at, rules);
    } else if p: nat, k: nat, l: nat :| Puts(plans, p, k, x, game) && Puts(plans, p, l, y, game) {
      w, at := BothPut(db, plans, x, y, game, p, k, l, rules);
    } else if q: nat, k: nat :| Joins(db, plans, x, y, game, q, k) {
      w, at := JoinShown(db, plans, x, y, game, q, k, rules);
    } else if q: nat, k: nat :| Joins(db, plans, y, x, game, q, k) {
      w, at := JoinShown(db, plans, y, x, game, q, k, rules);
    } else if p: nat, k: nat, q: nat, l: nat :| Meet(plans, x, y, game, p, k, q, l) {
      w, at := MeetShown(db, plans, x, y, game, p, k, q, l, rules);
    } else {
      var p: nat, k: nat, q: nat, l: nat :| Meet(plans, y, x, game, p, k, q, l);
      w, at := MeetShown(db, plans, y, x, game, p, k, q, l, rules);
    }
  }

  /** If no two files can be at a game at once, no run leaves two there, whatever
      dies and whatever else happens. */
  lemma NoClashNoDuplicates(db: Db, plans: Plans, actions: seq<Action>, rules: Rules)
    requires NoClash(db, plans) && IsRun(db, plans, actions, rules)
    ensures NoDuplicates(After(db, plans, actions))
  {
    hide Clash, Orderly, ActAll, AtAfter, VisibleAt;
    StartExplained(db, plans);
    RunExplained(db, plans, Start(db, plans), Zeros(plans), actions, rules);
  }

  /** What the passes write and the tables lack can be indexed first. */
  lemma {:induction false} Indexed(plans: Plans, w: World, at: seq<nat>, ids: set<FileId>, rules: Rules) returns (w': World)
    requires |at| == |w.passes| == |plans| && !rules.calm
    ensures Reaches(plans, w, at, w', at, rules) && w'.passes == w.passes && ids <= w'.db.Keys
    ensures forall x | x in w.db :: x in w'.db && w'.db[x] == w.db[x]
    decreases |ids|
  {
    if ids <= w.db.Keys {
      Stay(plans, w, at, rules);
      w' := w;
    } else {
      var id :| id in ids && id !in w.db;
      var index := OtherStage(DoUpsert(id, 0, 0));
      var w1 := Act(w, index);
      OneStep(plans, w, at, index, rules);
      hide Reaches;
      w' := Indexed(plans, w1, at, ids - {id}, rules);
      assert id in w1.db;
      Onward(plans, w, at, w1, at, w', at, rules);
    }
  }

  /** The files that the passes write. */
  function Written(plans: Plans): set<FileId> { set p, k, x | 0 <= p < |plans| && 0 <= k < |plans[p]| && x in plans[p][k] :: x }

  lemma ClashMore(db: Db, db': Db, plans: Plans, x: FileId, y: FileId, game: int)
    requires Clash(db, plans, x, y, game) && forall z | z in db :: z in db' && db'[z] == db[z]
    ensures Clash(db', plans, x, y, game)
  {
    hide Meet, VisibleAt;
    if q: nat, k: nat :| Joins(db, plans, x, y, game, q, k) { assert Joins(db', plans, x, y, game, q, k); }
    if q: nat, k: nat :| Joins(db, plans, y, x, game, q, k) { assert Joins(db', plans, y, x, game, q, k); }
    hide Joins, Puts;
  }

  lemma ClashReached(db: Db, plans: Plans, x: FileId, y: FileId, game: int, rules: Rules) returns (w: World, at: seq<nat>)
    requires Apart(plans) && (rules.calm ==> Within(db, plans)) && Clash(db, plans, x, y, game)
    ensures Shared(plans, db, w, at, x, y, game, rules)
  {
    hide Clash, Apart, Reaches, VisibleAt;
    if rules.calm {
      w, at := ClashShown(db, plans, x, y, game, rules);
    } else {
      var start := Start(db, plans);
      var indexed := Indexed(plans, start, Zeros(plans), Written(plans), rules);
      assert indexed == Start(indexed.db, plans);
      ClashMore(db, indexed.db, plans, x, y, game);
      w, at := ClashShown(indexed.db, plans, x, y, game, rules);
      Onward(plans, start, Zeros(plans), indexed, Zeros(plans), w, at, rules);
    }
  }

  /** When passes may die, every run leaves one visible file per game exactly when
      no two files can be at one at once; the passes may decide files that are
      only indexed meanwhile, unless no file may appear. */
  lemma DyingPassesExactly(db: Db, plans: Plans, rules: Rules)
    requires Apart(plans) && rules.breaks && (rules.calm ==> Within(db, plans))
    ensures (forall actions | IsRun(db, plans, actions, rules) :: NoDuplicates(After(db, plans, actions)))
       <==> NoClash(db, plans)
  {
    hide Clash, Apart, Within;
    if x, y, game :| Clash(db, plans, x, y, game) && x != y {
      var w, at := ClashReached(db, plans, x, y, game, rules);
      var w' := AllDie(plans, w, at, |plans|, rules);
      hide Reaches;
      Onward(plans, Start(db, plans), Zeros(plans), w, at, w', at, rules);
      var actions := RunTo(db, plans, w', at, rules);
    } else {
      forall actions | IsRun(db, plans, actions, rules) ensures NoDuplicates(After(db, plans, actions)) {
        NoClashNoDuplicates(db, plans, actions, rules);
      }
    }
  }
}
