/** What the statsbook-to-game matcher decides (src/ingest/resolve.rs), stated
    without indices, memo tables or loops: every definition here looks at all
    teams and all games. `Matcher.dfy` proves the real algorithm equal to it. */
module Matching {
  import opened Text
  import opened Canon

  const SIDE_MATCH_THRESHOLD := 0.75
  const SIGNATURE_DATE_RADIUS_DAYS := 400
  const DRIFT_TEAM_MIN := 0.80
  const DRIFT_DELTA_MAX := 12
  const DRIFT_TEAM_STRONG := 0.90
  const DRIFT_DELTA_STRONG_MAX := 40
  const WINDOW_TEAM_MIN := 0.60
  const ZERO_TOTAL_TEAM_MIN := 0.85
  const MARGIN := 0.05

  type i16 = x: int | -0x8000 <= x < 0x8000

  datatype MatchMethod = Score | Drift | Window | Pair | Unmatched

  datatype Team = Team(id: int, trigrams: TrigramSet)

  /** A game with its teams as positions in the team list. */
  datatype Game = Game(id: int, date: int, team1: nat, team2: nat, score1: i16, score2: i16)

  datatype Statsbook = Statsbook(
    driveFileId: string, date: int, homeScore: i16, awayScore: i16,
    homeName: string, awayName: string, home: TrigramSet, away: TrigramSet)

  datatype Resolution = Resolution(
    how: MatchMethod, gameId: Option<int>, similarity: real, delta: int, offset: int,
    homeTeam: Option<int>, awayTeam: Option<int>)

  /** The loaded teams and games. */
  datatype Reference = Reference(teams: seq<Team>, games: seq<Game>) {
    ghost predicate Valid() {
      forall i :: 0 <= i < |games| ==> games[i].team1 < |teams| && games[i].team2 < |teams|
    }
  }

  /** Both teams of the game are in the team list. */
  ghost predicate Known(ref: Reference, g: Game) {
    g.team1 < |ref.teams| && g.team2 < |ref.teams|
  }

  // ---------- the pure rules ----------

  function Abs(x: int): nat { if x < 0 then -x else x }

  function Unordered(x: int, y: int): (int, int) { if x <= y then (x, y) else (y, x) }

  datatype Rating = Rating(team: real, delta: int)

  predicate AtLeast(x: Rating, y: Rating) {
    x.team > y.team || (x.team == y.team && x.delta >= y.delta)
  }

  /** How well a statsbook fits a game with its home side as `t1`/`s1`. */
  function Straight(ref: Reference, sb: Statsbook, g: Game): Rating
    requires Known(ref, g)
  {
    Rating(
      (Similarity(sb.home, ref.teams[g.team1].trigrams) + Similarity(sb.away, ref.teams[g.team2].trigrams)) / 2.0,
      Abs(sb.homeScore - g.score1) + Abs(sb.awayScore - g.score2))
  }

  /** The same with the game's sides exchanged. */
  function Crossed(ref: Reference, sb: Statsbook, g: Game): Rating
    requires Known(ref, g)
  {
    Rating(
      (Similarity(sb.home, ref.teams[g.team2].trigrams) + Similarity(sb.away, ref.teams[g.team1].trigrams)) / 2.0,
      Abs(sb.homeScore - g.score2) + Abs(sb.awayScore - g.score1))
  }

  function Evaluate(ref: Reference, sb: Statsbook, g: Game): Rating
    requires Known(ref, g)
  {
    var o1, o2 := Straight(ref, sb, g), Crossed(ref, sb, g);
    if AtLeast(o1, o2) then o1 else o2
  }

  /** Whether side assignment keeps the game's own order. */
  predicate KeepsOrder(ref: Reference, sb: Statsbook, g: Game)
    requires Known(ref, g)
  {
    var o1, o2 := Straight(ref, sb, g), Crossed(ref, sb, g);
    if o1.delta != o2.delta then o1.delta < o2.delta else !(o2.team > o1.team)
  }

  function AssignSides(ref: Reference, sb: Statsbook, g: Game): (int, int)
    requires Known(ref, g)
  {
    var id1, id2 := ref.teams[g.team1].id, ref.teams[g.team2].id;
    if KeepsOrder(ref, sb, g) then (id1, id2) else (id2, id1)
  }

  predicate WindowCandidateOk(team: real, delta: int, off: nat, zeroTotal: bool) {
    var ok :=
      if zeroTotal then team >= ZERO_TOTAL_TEAM_MIN
      else if off > 0 then delta == 0
      else
        || delta == 0
        || (team >= DRIFT_TEAM_MIN && delta <= DRIFT_DELTA_MAX)
        || (team >= DRIFT_TEAM_STRONG && delta <= DRIFT_DELTA_STRONG_MAX);
    ok && (off == 0 || team >= WINDOW_TEAM_MIN)
  }

  predicate ZeroTotal(sb: Statsbook) { sb.homeScore + sb.awayScore == 0 }

  function MatchedTo(ref: Reference, sb: Statsbook, g: Game, how: MatchMethod, rating: Rating, offset: int): Resolution
    requires Known(ref, g)
  {
    var (home, away) := AssignSides(ref, sb, g);
    Resolution(how, Some(g.id), rating.team, rating.delta, offset, Some(home), Some(away))
  }

  const NO_MATCH := Resolution(Unmatched, None, 0.0, 0, 0, None, None)

  function WindowMethod(sb: Statsbook, off: nat, delta: int): MatchMethod {
    if ZeroTotal(sb) then Window
    else if off == 0 && delta == 0 then Score
    else if off == 0 then Drift
    else Window
  }

  // ---------- which team a side name stands for ----------

  /** Team `k` is the first of the most similar teams and reaches the threshold. */
  ghost predicate IsBestTeam(teams: seq<Team>, side: TrigramSet, k: nat) {
    && k < |teams|
    && Similarity(side, teams[k].trigrams) >= SIDE_MATCH_THRESHOLD
    && (forall j {:trigger teams[j]} :: 0 <= j < |teams| ==>
          Similarity(side, teams[j].trigrams) <= Similarity(side, teams[k].trigrams))
    && (forall j {:trigger teams[j]} :: 0 <= j < k ==>
          Similarity(side, teams[j].trigrams) < Similarity(side, teams[k].trigrams))
  }

  ghost function SideOf(teams: seq<Team>, side: TrigramSet): Option<(int, real)> {
    if k: nat :| IsBestTeam(teams, side, k)
    then Some((teams[k].id, Similarity(side, teams[k].trigrams)))
    else None
  }

  // ---------- path 1: the signature ----------

  ghost predicate HasSignature(ref: Reference, sb: Statsbook, home: int, away: int, i: nat)
    requires ref.Valid() && i < |ref.games|
  {
    var g := ref.games[i];
    && Unordered(ref.teams[g.team1].id, ref.teams[g.team2].id) == Unordered(home, away)
    && Unordered(g.score1, g.score2) == Unordered(sb.homeScore, sb.awayScore)
    && Abs(g.date - sb.date) <= SIGNATURE_DATE_RADIUS_DAYS
  }

  /** Game `i` carries the signature and is strictly nearer than any other that does. */
  ghost predicate IsNearest(ref: Reference, sb: Statsbook, home: int, away: int, i: nat)
    requires ref.Valid()
  {
    && i < |ref.games| && HasSignature(ref, sb, home, away, i)
    && forall j: nat :: j < |ref.games| && j != i && HasSignature(ref, sb, home, away, j) ==>
         Abs(ref.games[i].date - sb.date) < Abs(ref.games[j].date - sb.date)
  }

  ghost function PairMatch(ref: Reference, sb: Statsbook, i: nat): Resolution
    requires ref.Valid() && i < |ref.games|
  {
    var g := ref.games[i];
    MatchedTo(ref, sb, g, Pair, Evaluate(ref, sb, g), g.date - sb.date)
  }

  ghost function BySignature(ref: Reference, sb: Statsbook): Option<Resolution>
    requires ref.Valid()
  {
    var home, away := SideOf(ref.teams, sb.home), SideOf(ref.teams, sb.away);
    if home.None? || away.None? then None
    else if i: nat :| IsNearest(ref, sb, home.value.0, away.value.0, i) then Some(PairMatch(ref, sb, i))
    else None
  }

  // ---------- path 2: the date window ----------

  /** A game as the window path compares it. */
  datatype Candidate = Candidate(off: nat, signedOffset: int, team: real, delta: int, id: int, game: nat)

  function CandidateOf(ref: Reference, sb: Statsbook, i: nat): (c: Candidate)
    requires ref.Valid() && i < |ref.games|
    ensures c.game == i && c.id == ref.games[i].id
    ensures c.signedOffset == ref.games[i].date - sb.date && c.off == Abs(c.signedOffset)
  {
    var g := ref.games[i];
    var rating := Evaluate(ref, sb, g);
    Candidate(Abs(g.date - sb.date), g.date - sb.date, rating.team, rating.delta, g.id, i)
  }

  predicate Accepted(ref: Reference, sb: Statsbook, i: nat)
    requires ref.Valid() && i < |ref.games|
  {
    var c := CandidateOf(ref, sb, i);
    c.off <= 1 && WindowCandidateOk(c.team, c.delta, c.off, ZeroTotal(sb))
  }

  /** Same day first, then the stronger name, then the smaller score
      difference, then the game id. */
  predicate KeyLess(x: Candidate, y: Candidate) {
    if x.off != y.off then x.off < y.off
    else if x.team != y.team then x.team > y.team
    else if x.delta != y.delta then x.delta < y.delta
    else x.id < y.id
  }

  /** The order in which the window meets games: day by day, then by position. */
  predicate MetBefore(x: Candidate, y: Candidate) {
    x.signedOffset < y.signedOffset || (x.signedOffset == y.signedOffset && x.game < y.game)
  }

  /** The order a stable sort by key produces. */
  predicate Before(x: Candidate, y: Candidate) {
    KeyLess(x, y) || (!KeyLess(y, x) && MetBefore(x, y))
  }

  ghost predicate IsTop(ref: Reference, sb: Statsbook, i: nat)
    requires ref.Valid()
  {
    && i < |ref.games| && Accepted(ref, sb, i)
    && forall j: nat :: j < |ref.games| && j != i && Accepted(ref, sb, j) ==>
         Before(CandidateOf(ref, sb, i), CandidateOf(ref, sb, j))
  }

  /** `y` is as far away in days as `x` and its names come too close. */
  predicate TooClose(x: Candidate, y: Candidate) {
    y.off == x.off && x.team - y.team < MARGIN
  }

  ghost predicate Contested(ref: Reference, sb: Statsbook, i: nat)
    requires ref.Valid() && i < |ref.games|
  {
    exists j: nat ::
      j < |ref.games| && j != i && Accepted(ref, sb, j) && TooClose(CandidateOf(ref, sb, i), CandidateOf(ref, sb, j))
  }

  ghost function WindowMatch(ref: Reference, sb: Statsbook, i: nat): Resolution
    requires ref.Valid() && i < |ref.games|
  {
    var c := CandidateOf(ref, sb, i);
    MatchedTo(ref, sb, ref.games[i], WindowMethod(sb, c.off, c.delta), Rating(c.team, c.delta), c.signedOffset)
  }

  ghost function ByWindow(ref: Reference, sb: Statsbook): Resolution
    requires ref.Valid()
  {
    if i: nat :| IsTop(ref, sb, i) then
      if CandidateOf(ref, sb, i).delta != 0 && Contested(ref, sb, i) then NO_MATCH else WindowMatch(ref, sb, i)
    else NO_MATCH
  }

  /** The decision for one statsbook, by scanning everything. */
  ghost function Decide(ref: Reference, sb: Statsbook): Resolution
    requires ref.Valid()
  {
    var signature := BySignature(ref, sb);
    if signature.Some? then signature.value else ByWindow(ref, sb)
  }

  // ---------- the definitions above leave no choice open ----------

  lemma BestTeamUnique(teams: seq<Team>, side: TrigramSet, k: nat, l: nat)
    requires IsBestTeam(teams, side, k) && IsBestTeam(teams, side, l)
    ensures k == l
  {}

  /** A side is left without a team exactly when no team reaches the threshold. */
  lemma SideOfNone(teams: seq<Team>, side: TrigramSet)
    ensures SideOf(teams, side).None? <==>
            forall j {:trigger teams[j]} :: 0 <= j < |teams| ==> Similarity(side, teams[j].trigrams) < 0.75
  {
    if k: nat :| k < |teams| && Similarity(side, teams[k].trigrams) >= SIDE_MATCH_THRESHOLD {
      var b := FirstBest(teams, side, |teams|, k);
      assert IsBestTeam(teams, side, b);
    }
  }

  lemma {:induction false} FirstBest(teams: seq<Team>, side: TrigramSet, n: nat, k: nat) returns (b: nat)
    requires k < n <= |teams|
    ensures b < n
    ensures forall j {:trigger teams[j]} :: 0 <= j < n ==> Similarity(side, teams[j].trigrams) <= Similarity(side, teams[b].trigrams)
    ensures forall j {:trigger teams[j]} :: 0 <= j < b ==> Similarity(side, teams[j].trigrams) < Similarity(side, teams[b].trigrams)
  {
    hide Similarity;
    if n == 1 {
      b := 0;
    } else {
      b := FirstBest(teams, side, n - 1, 0);
      if Similarity(side, teams[n - 1].trigrams) > Similarity(side, teams[b].trigrams) { b := n - 1; }
    }
  }

  lemma NearestUnique(ref: Reference, sb: Statsbook, home: int, away: int, i: nat, j: nat)
    requires ref.Valid() && IsNearest(ref, sb, home, away, i) && IsNearest(ref, sb, home, away, j)
    ensures i == j
  {
    hide HasSignature;
  }

  lemma BeforeIsStrictOrder(x: Candidate, y: Candidate, z: Candidate)
    ensures !(Before(x, y) && Before(y, x))
    ensures x.game != y.game ==> Before(x, y) || Before(y, x)
    ensures Before(x, y) && Before(y, z) ==> Before(x, z)
  {}

  lemma TopUnique(ref: Reference, sb: Statsbook, i: nat, j: nat)
    requires ref.Valid() && IsTop(ref, sb, i) && IsTop(ref, sb, j)
    ensures i == j
  {
    hide CandidateOf, Accepted;
    if i != j {
      BeforeIsStrictOrder(CandidateOf(ref, sb, i), CandidateOf(ref, sb, j), CandidateOf(ref, sb, i));
    }
  }

  lemma NearestIs(ref: Reference, sb: Statsbook, home: int, away: int, i: nat)
    requires ref.Valid() && IsNearest(ref, sb, home, away, i)
    requires SideOf(ref.teams, sb.home).Some? && SideOf(ref.teams, sb.home).value.0 == home
    requires SideOf(ref.teams, sb.away).Some? && SideOf(ref.teams, sb.away).value.0 == away
    ensures BySignature(ref, sb) == Some(PairMatch(ref, sb, i))
  {
    hide SideOf, PairMatch, HasSignature;
    var j: nat :| IsNearest(ref, sb, home, away, j) && BySignature(ref, sb) == Some(PairMatch(ref, sb, j));
    NearestUnique(ref, sb, home, away, i, j);
  }

  lemma ByWindowIs(ref: Reference, sb: Statsbook, i: nat)
    requires ref.Valid() && i < |ref.games| && IsTop(ref, sb, i)
    ensures ByWindow(ref, sb) ==
            if CandidateOf(ref, sb, i).delta != 0 && Contested(ref, sb, i) then NO_MATCH else WindowMatch(ref, sb, i)
  {
    hide CandidateOf, Accepted, Before, Contested, WindowMatch;
    var t: nat :| t < |ref.games| && IsTop(ref, sb, t) && ByWindow(ref, sb) ==
      if CandidateOf(ref, sb, t).delta != 0 && Contested(ref, sb, t) then NO_MATCH else WindowMatch(ref, sb, t);
    TopUnique(ref, sb, t, i);
  }

  /** The window path finds a top game as soon as one game is acceptable. */
  lemma TopExists(ref: Reference, sb: Statsbook, i: nat)
    requires ref.Valid() && i < |ref.games| && Accepted(ref, sb, i)
    ensures exists t: nat :: IsTop(ref, sb, t)
  {
    hide CandidateOf, Accepted;
    var t := BestOf(ref, sb, |ref.games|, i);
    assert IsTop(ref, sb, t);
  }

  lemma {:induction false} BestOf(ref: Reference, sb: Statsbook, n: nat, i: nat) returns (t: nat)
    requires ref.Valid() && i < n <= |ref.games| && Accepted(ref, sb, i)
    ensures t < n && Accepted(ref, sb, t)
    ensures forall j: nat :: j < n && j != t && Accepted(ref, sb, j) ==>
              Before(CandidateOf(ref, sb, t), CandidateOf(ref, sb, j))
  {
    hide CandidateOf, Accepted, Before;
    if forall j: nat :: j < n - 1 ==> !Accepted(ref, sb, j) {
      t := i;
    } else {
      var k: nat :| k < n - 1 && Accepted(ref, sb, k);
      t := BestOf(ref, sb, n - 1, k);
      var last := CandidateOf(ref, sb, n - 1);
      if Accepted(ref, sb, n - 1) && Before(last, CandidateOf(ref, sb, t)) {
        forall j: nat | j < n - 1 && Accepted(ref, sb, j) ensures Before(last, CandidateOf(ref, sb, j)) {
          BeforeIsStrictOrder(last, CandidateOf(ref, sb, t), CandidateOf(ref, sb, j));
        }
        t := n - 1;
      } else {
        BeforeIsStrictOrder(last, CandidateOf(ref, sb, t), last);
      }
    }
  }
}
