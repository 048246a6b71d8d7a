/** What resolving again comes to (src/ingest/resolve.rs): a pass leaves what it
    decides from as it was, so runs repeat and start-up state does not matter. */
module ResolverLaws {
  import opened Text
  import opened Matching
  import opened Tables
  import opened Dedup
  import opened Resolver

  /** The rows without what the resolver writes. */
  function Unresolved(rows: FileRows): FileRows {
    rows.(matched := None, sides := map side | side in rows.sides :: rows.sides[side].(wftdaTeam := None))
  }

  /** The tables differ at most in match rows and assigned teams. */
  ghost predicate SameParse(db: Db, db': Db) {
    db.Keys == db'.Keys && forall id :: id in db ==> Unresolved(db[id]) == Unresolved(db'[id])
  }

  lemma SameParseRows(rows: FileRows, rows': FileRows)
    requires Unresolved(rows) == Unresolved(rows')
    ensures rows.book == rows'.book && rows.game == rows'.game
    ensures rows.skaters == rows'.skaters && rows.summaries == rows'.summaries && rows.sides.Keys == rows'.sides.Keys
    ensures forall side :: side in rows.sides ==>
              rows.sides[side].league == rows'.sides[side].league && rows.sides[side].team == rows'.sides[side].team
  {
    var bare, bare' := Unresolved(rows).sides, Unresolved(rows').sides;
    assert bare.Keys == rows.sides.Keys && bare'.Keys == rows'.sides.Keys;
    forall side | side in rows.sides
      ensures rows.sides[side].league == rows'.sides[side].league && rows.sides[side].team == rows'.sides[side].team
    {
      assert bare[side] == bare'[side];
    }
  }

  /** A pass writes nothing that decisions are made from. */
  lemma PassKeepsParse(db: Db, results: map<FileId, Resolution>)
    ensures SameParse(db, Pass(db, results))
  {
    hide Losers;
    forall id | id in db ensures Unresolved(Pass(db, results)[id]) == Unresolved(db[id]) {
      if id in results { UnresolvedSame(db[id], Resolved(db[id], results[id])); }
      UnresolvedSame(WriteBatch(db, results)[id], HiddenRows(WriteBatch(db, results)[id]));
    }
  }

  lemma UnresolvedSame(rows: FileRows, rows': FileRows)
    requires rows'.(matched := rows.matched, sides := rows.sides) == rows && rows'.sides.Keys == rows.sides.Keys
    requires forall side :: side in rows.sides ==>
               rows'.sides[side].league == rows.sides[side].league && rows'.sides[side].team == rows.sides[side].team
    ensures Unresolved(rows') == Unresolved(rows)
  {
    assert Unresolved(rows').sides == Unresolved(rows).sides;
  }

  lemma SameStatsbook(id: FileId, rows: FileRows, rows': FileRows, ref: Reference, r: Resolution)
    requires Unresolved(rows) == Unresolved(rows') && ref.Valid() && Resolvable(rows) && IsDecision(id, rows, ref, r)
    ensures Resolvable(rows') && IsDecision(id, rows', ref, r)
  {
    SameParseRows(rows, rows');
    hide Decide, Unresolved;
    var sb :| IsStatsbook(id, rows, sb) && r == Decide(ref, sb);
    assert IsStatsbook(id, rows', sb);
  }

  /** Decisions do not depend on earlier matches or assigned teams. */
  lemma DecisionsCarryOver(db: Db, db': Db, ref: Reference, results: map<FileId, Resolution>)
    requires ref.Valid() && SameParse(db, db') && AreDecisions(db, ref, results)
    ensures AreDecisions(db', ref, results)
  {
    hide AreDecisions, Resolvable, IsDecision, SameParse;
    SameResolvable(db, db');
    DecidedFiles(db, ref, results);
    forall id | id in results ensures id in db' && Resolvable(db'[id]) && IsDecision(id, db'[id], ref, results[id]) {
      CarryOverOne(db, db', ref, results, id);
    }
    AllDecided(db', ref, results);
  }

  lemma AllDecided(db: Db, ref: Reference, results: map<FileId, Resolution>)
    requires ref.Valid() && forall id :: id in db && Resolvable(db[id]) ==> id in results
    requires forall id :: id in results ==> id in db && Resolvable(db[id]) && IsDecision(id, db[id], ref, results[id])
    ensures AreDecisions(db, ref, results)
  {
    hide Resolvable, IsDecision;
  }

  lemma CarryOverOne(db: Db, db': Db, ref: Reference, results: map<FileId, Resolution>, id: FileId)
    requires ref.Valid() && SameParse(db, db') && AreDecisions(db, ref, results) && id in results
    ensures id in db' && Resolvable(db'[id]) && IsDecision(id, db'[id], ref, results[id])
  {
    hide Resolvable, IsDecision, Unresolved;
    SameStatsbook(id, db[id], db'[id], ref, results[id]);
  }

  lemma SameResolvable(db: Db, db': Db)
    requires SameParse(db, db')
    ensures db.Keys == db'.Keys && forall id :: id in db ==> (Resolvable(db'[id]) <==> Resolvable(db[id]))
  {
    forall id | id in db ensures Resolvable(db'[id]) <==> Resolvable(db[id]) {
      SameParseRows(db[id], db'[id]);
      hide Unresolved;
    }
  }

  /** A run that directly follows another changes nothing. */
  lemma SecondRunSame(teams: map<int, string>, games: map<int, WftdaGame>, db: Db, db': Db, db'': Db)
    requires IsResolved(teams, games, db, db') && IsResolved(teams, games, db', db'')
    ensures db'' == db'
  {
    var ref, results :| IsReference(teams, games, ref) && AreDecisions(db, ref, results) && db' == Pass(db, results);
    var ref', results' :| IsReference(teams, games, ref') && AreDecisions(db', ref', results') && db'' == Pass(db', results');
    assert ref.Valid();
    hide IsReference, AreDecisions, Pass, SameParse;
    PassKeepsParse(db, results);
    SameResults(teams, games, db, db', ref, results, ref', results');
    DecidedFiles(db, ref, results);
    PassIdempotent(db, results);
  }

  lemma DecidedFiles(db: Db, ref: Reference, results: map<FileId, Resolution>)
    requires ref.Valid() && AreDecisions(db, ref, results)
    ensures results.Keys <= db.Keys
    ensures forall id :: id in db && Resolvable(db[id]) ==> id in results
  {
    hide Resolvable, IsDecision;
  }

  /** No file is matched to a game whose parsed rows are gone. */
  ghost predicate NoLeftovers(db: Db) {
    forall id :: id in db && Visible(db[id]) ==> Resolvable(db[id])
  }

  /** Runs over tables that differ in nothing but match rows and assigned teams
      leave every parsed file with the very same rows. */
  lemma RunsAgree(teams: map<int, string>, games: map<int, WftdaGame>, db: Db, after: Db, db': Db, after': Db)
    requires SameParse(db, db') && NoLeftovers(db) && NoLeftovers(db')
    requires IsResolved(teams, games, db, after) && IsResolved(teams, games, db', after')
    ensures after.Keys == after'.Keys == db.Keys
    ensures forall id :: id in db && Resolvable(db[id]) ==> after'[id] == after[id]
  {
    var ref, results :| IsReference(teams, games, ref) && AreDecisions(db, ref, results) && after == Pass(db, results);
    var ref', results' :| IsReference(teams, games, ref') && AreDecisions(db', ref', results') && after' == Pass(db', results');
    assert ref.Valid();
    hide IsReference, AreDecisions, SameParse, NoLeftovers, Resolvable, Pass;
    SameResults(teams, games, db, db', ref, results, ref', results');
    DecidedFiles(db, ref, results);
    NothingStale(db, ref, results);
    DecisionsCarryOver(db, db', ref, results);
    NothingStale(db', ref, results);
    PassesAgree(db, db', results);
  }

  lemma SameResults(teams: map<int, string>, games: map<int, WftdaGame>, db: Db, db': Db,
    ref: Reference, results: map<FileId, Resolution>, ref': Reference, results': map<FileId, Resolution>)
    requires SameParse(db, db') && IsReference(teams, games, ref) && IsReference(teams, games, ref')
    requires AreDecisions(db, ref, results) && AreDecisions(db', ref', results')
    ensures ref == ref' && results == results'
  {
    assert ref.Valid();
    hide IsReference, AreDecisions, SameParse;
    ReferenceUnique(teams, games, ref, ref');
    DecisionsCarryOver(db, db', ref, results);
    DecisionsUnique(db', ref, results, results');
  }

  lemma NothingStale(db: Db, ref: Reference, results: map<FileId, Resolution>)
    requires ref.Valid() && AreDecisions(db, ref, results) && NoLeftovers(db)
    ensures NoStale(db, results)
  {
    hide Resolvable, IsDecision;
  }

  lemma PassesAgree(db: Db, db': Db, results: map<FileId, Resolution>)
    requires results.Keys <= db.Keys && SameParse(db, db') && NoStale(db, results) && NoStale(db', results)
    ensures Pass(db, results).Keys == Pass(db', results).Keys == db.Keys
    ensures forall id :: id in results ==> Pass(db', results)[id] == Pass(db, results)[id]
  {
    forall id | id in db ensures db'[id].book == db[id].book { SameParseRows(db[id], db'[id]); }
    EarlierMatchesIrrelevant(db, db', results);
    PassKeepsParse(db, results);
    PassKeepsParse(db', results);
    hide Pass, Unresolved;
    forall id | id in results ensures Pass(db', results)[id] == Pass(db, results)[id] {
      SameParseRows(db[id], db'[id]);
      SameParseRows(db[id], Pass(db, results)[id]);
      SameParseRows(db'[id], Pass(db', results)[id]);
      assert Pass(db', results)[id].sides == Pass(db, results)[id].sides;
    }
  }
}
