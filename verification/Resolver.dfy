/** The resolve stage end to end (src/ingest/resolve.rs): load teams, games and
    parsed statsbooks, decide each statsbook with the matcher, write the
    decisions in batches, and hide all but one file per game. */
module Resolver {
  import opened Text
  import opened Canon
  import opened Matching
  import opened MatcherImpl
  import opened Tables
  import opened Dedup

  datatype WftdaGame = WftdaGame(date: int, team1: int, team2: int, score1: i16, score2: i16)

  /** `ref` is what the two WFTDA tables hold, both in id order; games whose
      teams are unknown are left out. */
  ghost predicate IsReference(teams: map<int, string>, games: map<int, WftdaGame>, ref: Reference) {
    && ref.Valid()
    && (forall i, j :: 0 <= i < j < |ref.teams| ==> ref.teams[i].id < ref.teams[j].id)
    && (forall i :: 0 <= i < |ref.teams| ==>
          ref.teams[i].id in teams && BuiltFrom(ref.teams[i].trigrams, CanonicalizeLeague(teams[ref.teams[i].id])))
    && (forall id :: id in teams ==> exists i :: 0 <= i < |ref.teams| && ref.teams[i].id == id)
    && (forall i, j :: 0 <= i < j < |ref.games| ==> ref.games[i].id < ref.games[j].id)
    && (forall i :: 0 <= i < |ref.games| ==> ref.games[i].id in games && IsGameRow(ref.teams, ref.games[i], games[ref.games[i].id]))
    && (forall id :: id in games && games[id].team1 in teams && games[id].team2 in teams ==>
          exists i :: 0 <= i < |ref.games| && ref.games[i].id == id)
  }

  ghost predicate IsGameRow(teams: seq<Team>, g: Game, row: WftdaGame) {
    && g.team1 < |teams| && g.team2 < |teams|
    && teams[g.team1].id == row.team1 && teams[g.team2].id == row.team2
    && g.date == row.date && g.score1 == row.score1 && g.score2 == row.score2
  }

  function OrEmpty(s: Option<string>): string { if s.Some? then s.value else "" }

  /** Canonical `league + " " + team` of one side, or the two canonical columns
      when that is empty; they are computed from the same two values. */
  function SideName(row: SideRow): string {
    var canon := CanonicalizeLeague(OrEmpty(row.league) + " " + OrEmpty(row.team));
    if canon == [] then CanonicalizeLeague(OrEmpty(row.league)) + CanonicalizeTeam(row.league, OrEmpty(row.team))
    else canon
  }

  /** The canonical columns never bring back a name that is empty: a side is named
      by its league's and then its team's letters and digits, as far as these are there. */
  lemma FallbackIsEmpty(row: SideRow)
    ensures SideName(row) == CanonicalizeLeague(OrEmpty(row.league) + " " + OrEmpty(row.team))
    ensures SideName(row) == (match row.league case None => "" case Some(league) => CanonicalizeLeague(league))
                           + (match row.team case None => "" case Some(team) => CanonicalizeLeague(team))
  {
    CanonicalExactly(OrEmpty(row.league), ' ', OrEmpty(row.team));
    if CanonicalizeLeague(OrEmpty(row.league) + " " + OrEmpty(row.team)) == [] {
      EmptyCanonicals(OrEmpty(row.league), OrEmpty(row.team));
    }
  }

  /** The file has the rows the resolver's join asks for. */
  predicate Resolvable(rows: FileRows) {
    rows.game.Some? && rows.game.value.date.Some? && Home in rows.sides && Away in rows.sides
  }

  /** Under the tables' invariant that is every file with a parsed game. */
  lemma ResolvableExactly(rows: FileRows)
    requires FileInv(rows)
    ensures Resolvable(rows) <==> rows.game.Some?
  {
    if Complete(rows) { assert Home in rows.sides && Away in rows.sides; }
  }

  /** `sb` is the statsbook the matcher sees for a file. */
  ghost predicate IsStatsbook(id: FileId, rows: FileRows, sb: Statsbook)
    requires Resolvable(rows)
  {
    && sb.driveFileId == id && WellBuilt(sb)
    && Some(sb.date) == rows.game.value.date
    && sb.homeScore == rows.game.value.homeScore && sb.awayScore == rows.game.value.awayScore
    && sb.homeName == SideName(rows.sides[Home]) && sb.awayName == SideName(rows.sides[Away])
  }

  lemma StatsbookUnique(id: FileId, rows: FileRows, sb: Statsbook, sb': Statsbook)
    requires Resolvable(rows) && IsStatsbook(id, rows, sb) && IsStatsbook(id, rows, sb')
    ensures sb == sb'
  {
    hide SideName;
    BuiltFromUnique(sb.home, sb'.home, sb.homeName);
    BuiltFromUnique(sb.away, sb'.away, sb.awayName);
  }

  /** `results` are the matcher's decisions for exactly the parsed files. */
  ghost predicate AreDecisions(db: Db, ref: Reference, results: map<FileId, Resolution>)
    requires ref.Valid()
  {
    && (forall id :: id in results <==> id in db && Resolvable(db[id]))
    && (forall id :: id in results ==> IsDecision(id, db[id], ref, results[id]))
  }

  ghost predicate IsDecision(id: FileId, rows: FileRows, ref: Reference, r: Resolution)
    requires ref.Valid() && Resolvable(rows)
  {
    exists sb :: IsStatsbook(id, rows, sb) && r == Decide(ref, sb)
  }

  /** Decisions assign teams in pairs and only with a game, as the tables' own
      invariant asks. */
  lemma DecisionsWellShaped(ref: Reference, sb: Statsbook)
    requires ref.Valid()
    ensures WellShaped(Decide(ref, sb))
  {
    hide Evaluate, AssignSides, SideOf, IsNearest, IsTop, Contested, CandidateOf;
  }

  /** A resolve pass keeps the tables' invariant. */
  lemma ResolveKeepsInv(db: Db, ref: Reference, results: map<FileId, Resolution>)
    requires ref.Valid() && Inv(db) && AreDecisions(db, ref, results)
    ensures Inv(Pass(db, results))
  {
    AllWellShaped(db, ref, results);
    PassKeepsInv(db, results);
  }

  lemma AllWellShaped(db: Db, ref: Reference, results: map<FileId, Resolution>)
    requires ref.Valid() && AreDecisions(db, ref, results)
    ensures forall id :: id in results ==> WellShaped(results[id])
  {
    hide Decide, IsStatsbook, Resolvable, WellShaped;
    forall id | id in results ensures WellShaped(results[id]) {
      var sb :| IsStatsbook(id, db[id], sb) && results[id] == Decide(ref, sb);
      DecisionsWellShaped(ref, sb);
    }
  }

  /** The tables leave no choice in what is decided. */
  lemma DecisionsUnique(db: Db, ref: Reference, results: map<FileId, Resolution>, results': map<FileId, Resolution>)
    requires ref.Valid() && AreDecisions(db, ref, results) && AreDecisions(db, ref, results')
    ensures results == results'
  {
    hide Decide, IsStatsbook, Resolvable;
    forall id | id in results ensures id in results' && results[id] == results'[id] {
      var sb :| IsStatsbook(id, db[id], sb) && results[id] == Decide(ref, sb);
      var sb' :| IsStatsbook(id, db[id], sb') && results'[id] == Decide(ref, sb');
      StatsbookUnique(id, db[id], sb, sb');
    }
    assert results.Keys == results'.Keys;
  }

  /** ... nor in what the matcher is given. */
  lemma ReferenceUnique(teams: map<int, string>, games: map<int, WftdaGame>, ref: Reference, ref': Reference)
    requires IsReference(teams, games, ref) && IsReference(teams, games, ref')
    ensures ref == ref'
  {
    hide BuiltFrom, CanonicalizeLeague;
    var ids := seq(|ref.teams|, i requires 0 <= i < |ref.teams| => ref.teams[i].id);
    var ids' := seq(|ref'.teams|, i requires 0 <= i < |ref'.teams| => ref'.teams[i].id);
    forall x ensures x in ids <==> x in teams { SameIds(teams, ref.teams, ids, x); }
    forall x ensures x in ids' <==> x in teams { SameIds(teams, ref'.teams, ids', x); }
    IncreasingUnique(ids, ids');
    forall i | 0 <= i < |ref.teams| ensures ref.teams[i] == ref'.teams[i] {
      assert ids[i] == ids'[i];
      BuiltFromUnique(ref.teams[i].trigrams, ref'.teams[i].trigrams, CanonicalizeLeague(teams[ref.teams[i].id]));
    }
    assert ref.teams == ref'.teams;
    GamesUnique(teams, games, ref, ref');
  }

  lemma SameIds(teams: map<int, string>, loaded: seq<Team>, ids: seq<int>, x: int)
    requires |ids| == |loaded| && forall i :: 0 <= i < |ids| ==> ids[i] == loaded[i].id
    requires forall i :: 0 <= i < |loaded| ==> loaded[i].id in teams
    requires forall id :: id in teams ==> exists i :: 0 <= i < |loaded| && loaded[i].id == id
    ensures x in ids <==> x in teams
  {
    if x in teams {
      var i :| 0 <= i < |loaded| && loaded[i].id == x;
      assert ids[i] == x;
    }
  }

  lemma GamesUnique(teams: map<int, string>, games: map<int, WftdaGame>, ref: Reference, ref': Reference)
    requires IsReference(teams, games, ref) && IsReference(teams, games, ref') && ref.teams == ref'.teams
    ensures ref.games == ref'.games
  {
    hide BuiltFrom, CanonicalizeLeague;
    var ids := seq(|ref.games|, i requires 0 <= i < |ref.games| => ref.games[i].id);
    var ids' := seq(|ref'.games|, i requires 0 <= i < |ref'.games| => ref'.games[i].id);
    forall i | 0 <= i < |ids| ensures ids[i] in ids' {
      var j := GameWithId(teams, games, ref', ref, i);
      assert ids'[j] == ids[i];
    }
    forall j | 0 <= j < |ids'| ensures ids'[j] in ids {
      var i := GameWithId(teams, games, ref, ref', j);
      assert ids[i] == ids'[j];
    }
    IncreasingUnique(ids, ids');
    forall i | 0 <= i < |ref.games| ensures ref.games[i] == ref'.games[i] {
      assert ids[i] == ids'[i];
      SameGameRow(ref.teams, ref.games[i], ref'.games[i], games[ids[i]]);
    }
  }

  lemma GameWithId(teams: map<int, string>, games: map<int, WftdaGame>, ref: Reference, ref': Reference, i: nat) returns (j: nat)
    requires IsReference(teams, games, ref) && IsReference(teams, games, ref') && ref.teams == ref'.teams
    requires i < |ref'.games|
    ensures j < |ref.games| && ref.games[j].id == ref'.games[i].id
  {
    hide BuiltFrom, CanonicalizeLeague;
    var g := ref'.games[i];
    assert IsGameRow(ref.teams, g, games[g.id]);
    assert ref.teams[g.team1].id in teams && ref.teams[g.team2].id in teams;
    j :| j < |ref.games| && ref.games[j].id == g.id;
  }

  lemma SameGameRow(teams: seq<Team>, g: Game, g': Game, row: WftdaGame)
    requires forall i, j :: 0 <= i < j < |teams| ==> teams[i].id < teams[j].id
    requires g.id == g'.id && IsGameRow(teams, g, row) && IsGameRow(teams, g', row)
    ensures g == g'
  {}

  lemma {:induction false} IncreasingUnique(s: seq<int>, t: seq<int>)
    requires forall i, j :: 0 <= i < j < |s| ==> s[i] < s[j]
    requires forall i, j :: 0 <= i < j < |t| ==> t[i] < t[j]
    requires forall x :: x in s <==> x in t
    ensures s == t
  {
    assert (s == [] || s[0] in s) && (t == [] || t[0] in t);
    if s != [] {
      var p :| 0 <= p < |t| && t[p] == s[0];
      var q :| 0 <= q < |s| && s[q] == t[0];
      assert s[0] == t[0];
      forall x ensures x in s[1..] <==> x in t[1..] {
        assert x in s[1..] <==> x in s && x != s[0];
        assert x in t[1..] <==> x in t && x != t[0];
      }
      IncreasingUnique(s[1..], t[1..]);
      assert s == [s[0]] + s[1..] && t == [t[0]] + t[1..];
    }
  }

  datatype ResolveStats = ResolveStats(score: nat, drift: nat, window: nat, pair: nat, unmatched: nat) {
    function Record(how: MatchMethod): ResolveStats {
      match how
      case Score => this.(score := score + 1)
      case Drift => this.(drift := drift + 1)
      case Window => this.(window := window + 1)
      case Pair => this.(pair := pair + 1)
      case Unmatched => this.(unmatched := unmatched + 1)
    }

    function Of(how: MatchMethod): nat {
      match how
      case Score => score
      case Drift => drift
      case Window => window
      case Pair => pair
      case Unmatched => unmatched
    }
  }

  ghost function DecidedAs(results: map<FileId, Resolution>, how: MatchMethod): set<FileId> {
    set id | id in results && results[id].how == how
  }

  /** A run of the stage leads from `db` to `db'`. */
  ghost predicate IsResolved(teams: map<int, string>, games: map<int, WftdaGame>, db: Db, db': Db) {
    exists ref, results :: IsReference(teams, games, ref) && AreDecisions(db, ref, results) && db' == Pass(db, results)
  }

  class Store {
    var files: Db
    var teams: map<int, string>
    var games: map<int, WftdaGame>

    method LoadTeams() returns (loaded: seq<Team>)
      ensures forall i, j :: 0 <= i < j < |loaded| ==> loaded[i].id < loaded[j].id
      ensures forall i :: 0 <= i < |loaded| ==>
                loaded[i].id in teams && BuiltFrom(loaded[i].trigrams, CanonicalizeLeague(teams[loaded[i].id]))
      ensures forall id :: id in teams ==> exists i :: 0 <= i < |loaded| && loaded[i].id == id
    {
      hide BuiltFrom, CanonicalizeLeague;
      loaded := [];
      var rest := teams.Keys;
      while rest != {}
        invariant rest <= teams.Keys
        invariant forall i, id :: 0 <= i < |loaded| && id in rest ==> loaded[i].id < id
        invariant forall i, j :: 0 <= i < j < |loaded| ==> loaded[i].id < loaded[j].id
        invariant forall i :: 0 <= i < |loaded| ==>
                    loaded[i].id in teams && BuiltFrom(loaded[i].trigrams, CanonicalizeLeague(teams[loaded[i].id]))
        invariant forall id :: id in teams && id !in rest ==> exists i :: 0 <= i < |loaded| && loaded[i].id == id
      {
        var id := Least(rest);
        var trigrams := Trigrams(CanonicalizeLeague(teams[id]));
        ghost var before := loaded;
        loaded := loaded + [Team(id, trigrams)];
        rest := rest - {id};
        assert loaded[|before|].id == id;
        assert forall i :: 0 <= i < |before| ==> loaded[i] == before[i];
      }
    }

    method LoadGames(loadedTeams: seq<Team>) returns (loaded: seq<Game>)
      requires forall id :: id in teams ==> exists i :: 0 <= i < |loadedTeams| && loadedTeams[i].id == id
      ensures forall i, j :: 0 <= i < j < |loaded| ==> loaded[i].id < loaded[j].id
      ensures forall i :: 0 <= i < |loaded| ==>
                loaded[i].id in games && IsGameRow(loadedTeams, loaded[i], games[loaded[i].id])
      ensures forall id :: id in games && games[id].team1 in teams && games[id].team2 in teams ==>
                exists i :: 0 <= i < |loaded| && loaded[i].id == id
    {
      loaded := [];
      var rest := games.Keys;
      while rest != {}
        invariant rest <= games.Keys
        invariant forall i, id :: 0 <= i < |loaded| && id in rest ==> loaded[i].id < id
        invariant forall i, j :: 0 <= i < j < |loaded| ==> loaded[i].id < loaded[j].id
        invariant forall i :: 0 <= i < |loaded| ==>
                    loaded[i].id in games && IsGameRow(loadedTeams, loaded[i], games[loaded[i].id])
        invariant forall id :: id in games && id !in rest && games[id].team1 in teams && games[id].team2 in teams ==>
                    exists i :: 0 <= i < |loaded| && loaded[i].id == id
      {
        var id := Least(rest);
        rest := rest - {id};
        var row := games[id];
        var at1 := PositionOf(loadedTeams, row.team1);
        var at2 := PositionOf(loadedTeams, row.team2);
        if at1.None? || at2.None? { continue; }
        ghost var before := loaded;
        loaded := loaded + [Game(id, row.date, at1.value, at2.value, row.score1, row.score2)];
        assert loaded[|before|].id == id;
        assert forall i :: 0 <= i < |before| ==> loaded[i] == before[i];
      }
    }

    /** Decides and writes every parsed statsbook in id order, one transaction per chunk. */
    method WriteDecisions(matcher: Matcher)
      returns (stats: ResolveStats, ghost results: map<FileId, Resolution>, ghost chunks: seq<Decisions>)
      requires matcher.Valid()
      modifies this`files
      ensures AreDecisions(old(files), matcher.ref, results)
      ensures Chunked(results, chunks)
      ensures files == WriteBatch(old(files), results)
      ensures forall how :: stats.Of(how) == |DecidedAs(results, how)|
    {
      hide WriteBatch, AreDecisions, SoFar, Chunked;
      var cache := new SideCache();
      stats := ResolveStats(0, 0, 0, 0, 0);
      results, chunks := map[], [];
      var rest := set id | id in files && Resolvable(files[id]);
      StartDecisions(files, matcher.ref);
      NoChunks(rest);
      while rest != {}
        invariant cache.Sound(matcher.ref.teams) && fresh(cache)
        invariant Written(old(files), matcher.ref, files, rest, results, stats)
        invariant ChunksSoFar(results, chunks, rest)
        decreases |rest|
      {
        hide Written, ChunksSoFar;
        ghost var before, todo, chunk := results, rest, map[];
        rest, stats, results, chunk := WriteChunk(matcher, cache, old(files), rest, stats, results);
        OneMoreChunk(before, chunks, todo, chunk, rest);
        chunks := chunks + [chunk];
      }
      AllChunks(results, chunks);
      EndDecisions(old(files), matcher.ref, results);
    }

    method WriteChunk(matcher: Matcher, cache: SideCache, ghost db: Db, todo: set<FileId>, before: ResolveStats, ghost known: map<FileId, Resolution>)
      returns (rest: set<FileId>, stats: ResolveStats, ghost results: map<FileId, Resolution>, ghost chunk: Decisions)
      requires matcher.Valid() && cache.Sound(matcher.ref.teams)
      requires todo != {} && Written(db, matcher.ref, files, todo, known, before)
      modifies this`files, cache
      ensures cache.Sound(matcher.ref.teams)
      ensures Written(db, matcher.ref, files, rest, results, stats)
      ensures results == known + chunk && IsChunk(todo, chunk, rest)
      ensures |rest| < |todo|
    {
      hide WriteBatch, SoFar, IsDecision, Written, Resolvable, Leading, StrLess;
      rest, stats, results, chunk := todo, before, known, map[];
      var inChunk := 0;
      LeadingStart(todo, known);
      while rest != {} && inChunk < WRITE_BATCH
        invariant cache.Sound(matcher.ref.teams)
        invariant Written(db, matcher.ref, files, rest, results, stats)
        invariant 0 <= inChunk <= WRITE_BATCH && |rest| + inChunk == |todo| && inChunk == |chunk|
        invariant results == known + chunk && Leading(todo, chunk, rest)
        decreases |rest|
      {
        var id := LeastId(rest);
        NextRow(db, matcher.ref, files, rest, results, stats, id);
        var r := DecideFile(matcher, cache, id);
        RowWritten(db, matcher.ref, files, rest, results, stats, id, r);
        WriteRow(id, r);
        stats := stats.Record(r.how);
        LeadingStep(todo, known, chunk, rest, id, r);
        results := results[id := r];
        chunk := chunk[id := r];
        rest := rest - {id};
        inChunk := inChunk + 1;
      }
    }

    method DecideFile(matcher: Matcher, cache: SideCache, id: FileId) returns (r: Resolution)
      requires matcher.Valid() && cache.Sound(matcher.ref.teams) && id in files && Resolvable(files[id])
      modifies cache
      ensures cache.Sound(matcher.ref.teams)
      ensures IsDecision(id, files[id], matcher.ref, r)
    {
      hide Decide, SideName, BuiltFrom;
      var rows := files[id];
      var homeName, awayName := SideName(rows.sides[Home]), SideName(rows.sides[Away]);
      var home := Trigrams(homeName);
      var away := Trigrams(awayName);
      var game := rows.game.value;
      var sb := Statsbook(id, game.date.value, game.homeScore, game.awayScore, homeName, awayName, home, away);
      assert IsStatsbook(id, rows, sb);
      r := matcher.Resolve(sb, cache);
    }

    /** Upserts the match row, then updates both sides in one statement. */
    method WriteRow(id: FileId, r: Resolution)
      requires id in files
      modifies this`files
      ensures files == old(files)[id := Resolved(old(files)[id], r)]
    {
      var rows := files[id];
      rows := rows.(matched := Some(MatchRow(r.gameId, ByMethod(r.how), r.similarity, Clamp16(r.delta), r.offset)));
      rows := rows.(sides := map side | side in rows.sides ::
        rows.sides[side].(wftdaTeam := match side case Home => r.homeTeam case Away => r.awayTeam));
      assert rows.sides == Resolved(files[id], r).sides;
      files := files[id := rows];
    }

    /** Clears the match row and both side assignments of one loser. */
    method HideRow(id: FileId)
      requires id in files
      modifies this`files
      ensures files == old(files)[id := HiddenRows(old(files)[id])]
    {
      var rows := files[id];
      if rows.matched.Some? {
        rows := rows.(matched := Some(rows.matched.value.(gameId := None, tag := Duplicate)));
      }
      rows := rows.(sides := map side | side in rows.sides :: rows.sides[side].(wftdaTeam := None));
      assert rows.sides == HiddenRows(files[id]).sides;
      files := files[id := rows];
    }

    method DedupMatchedGames() returns (hidden: nat)
      modifies this`files
      ensures files == Hide(old(files), Losers(old(files)))
      ensures hidden == |Losers(old(files))|
    {
      var losers := Losers(files);
      hidden := |losers|;
      HideNone(files);
      if losers == {} { return; }
      assert losers <= files.Keys;
      hide Losers, Hide, HiddenRows;
      var todo := losers;
      ghost var done: set<FileId> := {};
      while todo != {}
        invariant todo <= losers && done == losers - todo && losers <= old(files).Keys
        invariant files == Hide(old(files), done) && files.Keys == old(files).Keys
      {
        var id :| id in todo;
        HideOneMore(old(files), done, id);
        HideRow(id);
        todo := todo - {id};
        done := done + {id};
      }
      assert done == losers;
    }

    /** Stages 5 and 6. */
    method ResolveGames()
      returns (stats: ResolveStats, hidden: nat, ghost ref: Reference, ghost results: map<FileId, Resolution>, ghost chunks: seq<Decisions>)
      modifies this`files
      ensures IsReference(teams, games, ref)
      ensures AreDecisions(old(files), ref, results) && Chunked(results, chunks)
      ensures files == Pass(old(files), results) && IsResolved(teams, games, old(files), files)
      ensures forall how :: stats.Of(how) == |DecidedAs(results, how)|
      ensures hidden == |Losers(WriteBatch(old(files), results))|
    {
      hide BuiltFrom, CanonicalizeLeague, IsGameRow, WriteBatch, Losers, Hide, AreDecisions, Chunked;
      var loadedTeams := LoadTeams();
      var loadedGames := LoadGames(loadedTeams);
      GameRowsKnown(loadedTeams, loadedGames, games);
      ref := Reference(loadedTeams, loadedGames);
      var matcher := new Matcher(loadedTeams, loadedGames);
      stats, results, chunks := WriteDecisions(matcher);
      hidden := DedupMatchedGames();
    }
  }

  method Least(s: set<int>) returns (least: int)
    requires s != {}
    ensures least in s && forall x :: x in s ==> least <= x
  {
    ghost var some := Member(s);
    least :| least in s;
    var rest := s - {least};
    while rest != {}
      invariant rest <= s && least in s
      invariant forall x :: x in s && x !in rest ==> least <= x
    {
      ghost var left := Member(rest);
      var x :| x in rest;
      if x < least { least := x; }
      rest := rest - {x};
    }
  }

  /** The rows come in id order. */
  method LeastId(s: set<FileId>) returns (least: FileId)
    requires s != {}
    ensures least in s && forall x :: x in s && x != least ==> StrLess(least, x)
  {
    ghost var some := Member(s);
    least :| least in s;
    var rest := s - {least};
    while rest != {}
      invariant rest <= s && least in s && least !in rest
      invariant forall x :: x in s && x !in rest && x != least ==> StrLess(least, x)
    {
      ghost var left := Member(rest);
      var x :| x in rest;
      StrLessTotal(x, least);
      ghost var before := least;
      if StrLess(x, least) {
        forall y | y in s && y !in rest && y != least ensures StrLess(x, y) { StrLessTransitive(x, least, y); }
        least := x;
      }
      rest := rest - {x};
    }
  }

  /** `chunk` decides the first ids of `todo`, and `rest` are the others. */
  ghost predicate Leading(todo: set<FileId>, chunk: Decisions, rest: set<FileId>) {
    chunk.Keys !! rest && chunk.Keys + rest == todo && forall x, y :: x in chunk && y in rest ==> StrLess(x, y)
  }

  /** So many of them, or all that are left. */
  ghost predicate IsChunk(todo: set<FileId>, chunk: Decisions, rest: set<FileId>) {
    Leading(todo, chunk, rest) && 0 < |chunk| <= WRITE_BATCH && (rest != {} ==> |chunk| == WRITE_BATCH)
  }

  lemma LeadingStart(todo: set<FileId>, known: Decisions)
    ensures Leading(todo, map[], todo) && known + map[] == known
  {
  }

  lemma OneMore<K, V>(a: map<K, V>, b: map<K, V>, k: K, v: V)
    ensures (a + b)[k := v] == a + b[k := v]
  {
  }

  lemma LeadingStep(todo: set<FileId>, known: Decisions, chunk: Decisions, rest: set<FileId>, id: FileId, r: Resolution)
    requires Leading(todo, chunk, rest) && id in rest && forall x :: x in rest && x != id ==> StrLess(id, x)
    ensures Leading(todo, chunk[id := r], rest - {id}) && |chunk[id := r]| == |chunk| + 1
    ensures (known + chunk)[id := r] == known + chunk[id := r]
  {
    hide StrLess;
    var longer := chunk[id := r];
    assert id !in chunk;
    assert longer.Keys == chunk.Keys + {id};
    assert longer.Keys + (rest - {id}) == todo;
    assert forall x :: x in longer ==> x == id || x in chunk;
    OneMore(known, chunk, id, r);
  }

  /** The chunks written so far, all full unless nothing is left. */
  ghost predicate ChunksSoFar(results: Decisions, chunks: seq<Decisions>, rest: set<FileId>) {
    && Chunked(results, chunks) && (forall x, y :: x in results && y in rest ==> StrLess(x, y))
    && (rest != {} && chunks != [] ==> |chunks[|chunks| - 1]| == WRITE_BATCH)
  }

  lemma NoChunks(rest: set<FileId>)
    ensures ChunksSoFar(map[], [], rest)
  {
  }

  lemma AllChunks(results: Decisions, chunks: seq<Decisions>)
    requires ChunksSoFar(results, chunks, {})
    ensures Chunked(results, chunks)
  {
  }

  lemma OneMoreChunk(known: Decisions, chunks: seq<Decisions>, todo: set<FileId>, chunk: Decisions, rest: set<FileId>)
    requires ChunksSoFar(known, chunks, todo) && todo != {} && IsChunk(todo, chunk, rest)
    ensures ChunksSoFar(known + chunk, chunks + [chunk], rest)
  {
    var more := chunks + [chunk];
    var n := |chunks|;
    assert more[..|more| - 1] == chunks && more[n] == chunk;
    forall k, l, x, y | 0 <= k < l < |more| && x in more[k] && y in more[l] ensures StrLess(x, y) {
      if l == n { WholeKeys(chunks, x); }
    }
    hide StrLess, Whole;
  }

  /** The position the team index gives for an id. */
  method PositionOf(teams: seq<Team>, id: int) returns (at: Option<nat>)
    ensures at.Some? ==> at.value < |teams| && teams[at.value].id == id
    ensures at.None? ==> forall i :: 0 <= i < |teams| ==> teams[i].id != id
  {
    at := None;
    for i := 0 to |teams|
      invariant at.Some? ==> at.value < |teams| && teams[at.value].id == id
      invariant at.None? ==> forall j :: 0 <= j < i ==> teams[j].id != id
    {
      if teams[i].id == id { at := Some(i); }
    }
  }

  lemma GameRowsKnown(teams: seq<Team>, games: seq<Game>, table: map<int, WftdaGame>)
    requires forall i :: 0 <= i < |games| ==> games[i].id in table && IsGameRow(teams, games[i], table[games[i].id])
    ensures Reference(teams, games).Valid()
  {}

  /** Decisions for the parsed files outside `rest`. */
  ghost predicate SoFar(db: Db, ref: Reference, rest: set<FileId>, results: map<FileId, Resolution>)
    requires ref.Valid()
  {
    && (forall id :: id in rest ==> id in db && Resolvable(db[id]) && id !in results)
    && (forall id :: id in db && Resolvable(db[id]) ==> id in rest || id in results)
    && (forall id :: id in results ==> id in db && Resolvable(db[id]) && IsDecision(id, db[id], ref, results[id]))
  }

  /** The tables and counters after deciding the files outside `rest`. */
  ghost predicate Written(db: Db, ref: Reference, files: Db, rest: set<FileId>, results: map<FileId, Resolution>, stats: ResolveStats)
    requires ref.Valid()
  {
    && SoFar(db, ref, rest, results) && files == WriteBatch(db, results)
    && forall how :: stats.Of(how) == |DecidedAs(results, how)|
  }

  lemma StartDecisions(db: Db, ref: Reference)
    requires ref.Valid()
    ensures Written(db, ref, db, set id | id in db && Resolvable(db[id]), map[], ResolveStats(0, 0, 0, 0, 0))
  {
    forall how ensures DecidedAs(map[], how) == {} {}
  }

  /** Until its turn comes a file's rows are as they were. */
  lemma NextRow(db: Db, ref: Reference, files: Db, rest: set<FileId>, results: map<FileId, Resolution>, stats: ResolveStats, id: FileId)
    requires ref.Valid() && Written(db, ref, files, rest, results, stats) && id in rest
    ensures id in db && id in files && files[id] == db[id] && Resolvable(db[id])
  {
    hide Resolvable, IsDecision;
  }

  lemma RowWritten(db: Db, ref: Reference, files: Db, rest: set<FileId>, results: map<FileId, Resolution>, stats: ResolveStats,
    id: FileId, r: Resolution)
    requires ref.Valid() && Written(db, ref, files, rest, results, stats)
    requires id in rest && id in db && Resolvable(db[id]) && IsDecision(id, db[id], ref, r)
    ensures id in files
    ensures Written(db, ref, files[id := Resolved(files[id], r)], rest - {id}, results[id := r], stats.Record(r.how))
  {
    hide SoFar, WriteBatch, Resolvable, IsDecision, Resolved, DecidedAs;
    NextRow(db, ref, files, rest, results, stats, id);
    NotYetDecided(db, ref, rest, results, id);
    SoFarStep(db, ref, rest, results, id, r);
    WriteOneMore(db, results, id, r);
    CountOneMore(results, id, r);
    assert SoFar(db, ref, rest - {id}, results[id := r]);
    assert files[id := Resolved(files[id], r)] == WriteBatch(db, results[id := r]);
    forall how ensures stats.Record(r.how).Of(how) == |DecidedAs(results[id := r], how)| {
      assert stats.Of(how) == |DecidedAs(results, how)|;
    }
  }

  lemma NotYetDecided(db: Db, ref: Reference, rest: set<FileId>, results: map<FileId, Resolution>, id: FileId)
    requires ref.Valid() && SoFar(db, ref, rest, results) && id in rest
    ensures results.Keys <= db.Keys && id in db && id !in results
  {
    hide Resolvable, IsDecision;
  }

  lemma SoFarStep(db: Db, ref: Reference, rest: set<FileId>, results: map<FileId, Resolution>, id: FileId, r: Resolution)
    requires ref.Valid() && SoFar(db, ref, rest, results) && id in rest && IsDecision(id, db[id], ref, r)
    ensures SoFar(db, ref, rest - {id}, results[id := r])
  {
    hide Resolvable, IsDecision;
  }

  lemma WriteOneMore(db: Db, results: map<FileId, Resolution>, id: FileId, r: Resolution)
    requires results.Keys <= db.Keys && id in db && id !in results
    ensures WriteBatch(db, results)[id := Resolved(db[id], r)] == WriteBatch(db, results[id := r])
  {
    hide Resolved;
  }

  lemma CountOneMore(results: map<FileId, Resolution>, id: FileId, r: Resolution)
    requires id !in results
    ensures forall how :: |DecidedAs(results[id := r], how)| == |DecidedAs(results, how)| + (if how == r.how then 1 else 0)
  {
    forall how ensures DecidedAs(results[id := r], how) == DecidedAs(results, how) + (if how == r.how then {id} else {}) {}
  }

  lemma EndDecisions(db: Db, ref: Reference, results: map<FileId, Resolution>)
    requires ref.Valid() && SoFar(db, ref, {}, results)
    ensures AreDecisions(db, ref, results)
  {
    hide Resolvable, IsDecision;
  }

  lemma HideNone(db: Db)
    ensures Hide(db, {}) == db
  {}

  lemma HideOneMore(db: Db, losers: set<FileId>, id: FileId)
    requires id in db && id !in losers
    ensures Hide(db, losers).Keys == db.Keys
    ensures Hide(db, losers)[id := HiddenRows(Hide(db, losers)[id])] == Hide(db, losers + {id})
  {
    hide HiddenRows;
  }
}
