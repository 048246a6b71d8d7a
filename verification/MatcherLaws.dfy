/** Laws of the matcher's decision (src/ingest/resolve.rs): what a match
    certifies, and what the decision does not depend on. */
module MatcherLaws {
  import opened Text
  import opened Canon
  import opened Matching

  // ---------- which game a decision picks ----------

  ghost predicate PicksBySignature(ref: Reference, sb: Statsbook, i: nat)
    requires ref.Valid()
  {
    var home, away := SideOf(ref.teams, sb.home), SideOf(ref.teams, sb.away);
    home.Some? && away.Some? && IsNearest(ref, sb, home.value.0, away.value.0, i)
  }

  ghost predicate PicksByWindow(ref: Reference, sb: Statsbook, i: nat)
    requires ref.Valid()
  {
    && (forall j: nat :: !PicksBySignature(ref, sb, j))
    && i < |ref.games| && IsTop(ref, sb, i)
    && !(CandidateOf(ref, sb, i).delta != 0 && Contested(ref, sb, i))
  }

  lemma SignaturePicked(ref: Reference, sb: Statsbook, i: nat)
    requires ref.Valid() && i < |ref.games| && PicksBySignature(ref, sb, i)
    ensures Decide(ref, sb) == PairMatch(ref, sb, i)
  {
    hide SideOf, IsNearest, PairMatch, BySignature;
    NearestIs(ref, sb, SideOf(ref.teams, sb.home).value.0, SideOf(ref.teams, sb.away).value.0, i);
  }

  lemma WindowPicked(ref: Reference, sb: Statsbook, i: nat)
    requires ref.Valid() && i < |ref.games| && PicksByWindow(ref, sb, i)
    ensures Decide(ref, sb) == WindowMatch(ref, sb, i)
  {
    NoSignaturePick(ref, sb);
    hide SideOf, BySignature, ByWindow, PicksBySignature, CandidateOf, IsTop, Contested, WindowMatch;
    ByWindowIs(ref, sb, i);
  }

  lemma NoSignaturePick(ref: Reference, sb: Statsbook)
    requires ref.Valid()
    ensures (forall j: nat :: !PicksBySignature(ref, sb, j)) <==> BySignature(ref, sb).None?
  {
    hide SideOf, IsNearest, PairMatch;
    var home, away := SideOf(ref.teams, sb.home), SideOf(ref.teams, sb.away);
    if home.Some? && away.Some? {
      forall j: nat ensures PicksBySignature(ref, sb, j) <==> IsNearest(ref, sb, home.value.0, away.value.0, j) {}
    }
  }

  lemma NothingPicked(ref: Reference, sb: Statsbook)
    requires ref.Valid()
    requires forall i: nat :: !PicksBySignature(ref, sb, i) && !PicksByWindow(ref, sb, i)
    ensures Decide(ref, sb) == NO_MATCH
  {
    NoSignaturePick(ref, sb);
    TopIsGame(ref, sb);
    hide SideOf, BySignature, PicksBySignature, CandidateOf, IsTop, Contested, WindowMatch;
    forall t: nat | IsTop(ref, sb, t) ensures CandidateOf(ref, sb, t).delta != 0 && Contested(ref, sb, t) {
      assert !PicksByWindow(ref, sb, t);
    }
  }

  // ---------- certificates ----------

  /** How far two scores, or two days, are apart. */
  function Apart(x: int, y: int): nat { if x < y then y - x else x - y }

  /** The same two values, in either order. */
  predicate SameTwo(x: int, y: int, a: int, b: int) { (x == a && y == b) || (x == b && y == a) }

  /** The mean similarity with the book's sides as the teams at these positions. */
  function NamesAs(ref: Reference, sb: Statsbook, home: nat, away: nat): real
    requires home < |ref.teams| && away < |ref.teams|
  {
    (Similarity(sb.home, ref.teams[home].trigrams) + Similarity(sb.away, ref.teams[away].trigrams)) / 2.0
  }

  /** The total difference to these scores of the book's sides. */
  function ScoresAs(sb: Statsbook, home: int, away: int): nat { Apart(sb.homeScore, home) + Apart(sb.awayScore, away) }

  /** The rating is that of the orientation with the better names; level names
      leave the larger difference. */
  ghost predicate RatedBest(ref: Reference, sb: Statsbook, g: Game, similarity: real, delta: int)
    requires Known(ref, g)
  {
    var n1, n2 := NamesAs(ref, sb, g.team1, g.team2), NamesAs(ref, sb, g.team2, g.team1);
    var d1, d2 := ScoresAs(sb, g.score1, g.score2), ScoresAs(sb, g.score2, g.score1);
    && similarity >= n1 && similarity >= n2
    && ((similarity == n1 && delta == d1) || (similarity == n2 && delta == d2))
    && (n1 == n2 ==> delta >= d1 && delta >= d2)
  }

  /** The sides are assigned by the smaller score difference, then by the better
      names, and otherwise as the game lists its teams. */
  ghost predicate SidesBest(ref: Reference, sb: Statsbook, g: Game, home: int, away: int)
    requires Known(ref, g)
  {
    var n1, n2 := NamesAs(ref, sb, g.team1, g.team2), NamesAs(ref, sb, g.team2, g.team1);
    var d1, d2 := ScoresAs(sb, g.score1, g.score2), ScoresAs(sb, g.score2, g.score1);
    || (home == ref.teams[g.team1].id && away == ref.teams[g.team2].id && (d1 < d2 || (d1 == d2 && n1 >= n2)))
    || (home == ref.teams[g.team2].id && away == ref.teams[g.team1].id && (d2 < d1 || (d2 == d1 && n2 > n1)))
  }

  /** Each side's score is exactly that of the WFTDA team it is assigned to. */
  ghost predicate Aligned(ref: Reference, sb: Statsbook, g: Game, home: int, away: int)
    requires Known(ref, g)
  {
    || (home == ref.teams[g.team1].id && away == ref.teams[g.team2].id && sb.homeScore == g.score1 && sb.awayScore == g.score2)
    || (home == ref.teams[g.team2].id && away == ref.teams[g.team1].id && sb.homeScore == g.score2 && sb.awayScore == g.score1)
  }

  /** ... and the similarity is that of these sides. */
  ghost predicate AlignedAsRated(ref: Reference, sb: Statsbook, g: Game, home: int, away: int, similarity: real)
    requires Known(ref, g)
  {
    || (home == ref.teams[g.team1].id && away == ref.teams[g.team2].id && sb.homeScore == g.score1 && sb.awayScore == g.score2
        && similarity == NamesAs(ref, sb, g.team1, g.team2))
    || (home == ref.teams[g.team2].id && away == ref.teams[g.team1].id && sb.homeScore == g.score2 && sb.awayScore == g.score1
        && similarity == NamesAs(ref, sb, g.team2, g.team1))
  }

  /** The resolution is to this game, with its best sides and its best rating. */
  ghost predicate Records(ref: Reference, sb: Statsbook, g: Game, r: Resolution)
    requires Known(ref, g)
  {
    && r.gameId == Some(g.id) && r.offset == g.date - sb.date
    && r.homeTeam.Some? && r.awayTeam.Some?
    && SidesBest(ref, sb, g, r.homeTeam.value, r.awayTeam.value) && RatedBest(ref, sb, g, r.similarity, r.delta)
  }

  /** What a resolution to game `i` proves about the statsbook. */
  ghost predicate Certifies(ref: Reference, sb: Statsbook, i: nat, r: Resolution)
    requires ref.Valid() && i < |ref.games|
  {
    var g := ref.games[i];
    && Records(ref, sb, g, r)
    && match r.how
       case Pair =>
         && Apart(g.date, sb.date) <= 400 && Aligned(ref, sb, g, r.homeTeam.value, r.awayTeam.value)
         && SideOf(ref.teams, sb.home).Some? && SideOf(ref.teams, sb.away).Some?
         && SameTwo(SideOf(ref.teams, sb.home).value.0, SideOf(ref.teams, sb.away).value.0, r.homeTeam.value, r.awayTeam.value)
       case Score => r.offset == 0 && r.delta == 0 && AlignedAsRated(ref, sb, g, r.homeTeam.value, r.awayTeam.value, r.similarity)
       case Drift =>
         && r.offset == 0 && r.delta != 0 && sb.homeScore + sb.awayScore != 0
         && ((r.similarity >= 0.80 && r.delta <= 12) || (r.similarity >= 0.90 && r.delta <= 40))
       case Window =>
         if sb.homeScore + sb.awayScore == 0 then Apart(g.date, sb.date) <= 1 && r.similarity >= 0.85
         else
           && Apart(g.date, sb.date) == 1 && r.delta == 0 && r.similarity >= 0.60
           && AlignedAsRated(ref, sb, g, r.homeTeam.value, r.awayTeam.value, r.similarity)
       case Unmatched => false
  }

  lemma EvaluatedBest(ref: Reference, sb: Statsbook, g: Game)
    requires Known(ref, g)
    ensures RatedBest(ref, sb, g, Evaluate(ref, sb, g).team, Evaluate(ref, sb, g).delta)
  {
    hide Similarity;
  }

  lemma AssignedBest(ref: Reference, sb: Statsbook, g: Game)
    requires Known(ref, g)
    ensures var (home, away) := AssignSides(ref, sb, g); SidesBest(ref, sb, g, home, away)
  {
    hide Similarity;
  }

  /** Without a score difference each side gets the team of its own score, and
      the rating is that of this orientation. */
  lemma ZeroDeltaAligns(ref: Reference, sb: Statsbook, g: Game)
    requires Known(ref, g) && Evaluate(ref, sb, g).delta == 0
    ensures var (home, away) := AssignSides(ref, sb, g);
      Aligned(ref, sb, g, home, away) && AlignedAsRated(ref, sb, g, home, away, Evaluate(ref, sb, g).team)
  {
    hide Similarity;
  }

  /** The same scores, on either side, are enough for that. */
  lemma ExactScoreAligns(ref: Reference, sb: Statsbook, g: Game)
    requires Known(ref, g) && SameTwo(g.score1, g.score2, sb.homeScore, sb.awayScore)
    ensures var (home, away) := AssignSides(ref, sb, g); Aligned(ref, sb, g, home, away)
  {
    hide Similarity;
  }

  lemma MatchRecorded(ref: Reference, sb: Statsbook, g: Game, how: MatchMethod)
    requires Known(ref, g)
    ensures Records(ref, sb, g, MatchedTo(ref, sb, g, how, Evaluate(ref, sb, g), g.date - sb.date))
  {
    EvaluatedBest(ref, sb, g);
    AssignedBest(ref, sb, g);
    hide AssignSides, Evaluate, SidesBest, RatedBest;
  }

  lemma PairCertificate(ref: Reference, sb: Statsbook, i: nat)
    requires ref.Valid() && i < |ref.games| && PicksBySignature(ref, sb, i)
    ensures Certifies(ref, sb, i, PairMatch(ref, sb, i))
  {
    hide *;
    PickedCarries(ref, sb, i);
    PairAligned(ref, sb, SideOf(ref.teams, sb.home).value.0, SideOf(ref.teams, sb.away).value.0, i);
    PairCertified(ref, sb, i, PairMatch(ref, sb, i));
  }

  lemma PairCertified(ref: Reference, sb: Statsbook, i: nat, r: Resolution)
    requires ref.Valid() && i < |ref.games| && r.how == Pair
    requires SideOf(ref.teams, sb.home).Some? && SideOf(ref.teams, sb.away).Some?
    requires Records(ref, sb, ref.games[i], r) && r.homeTeam.Some? && r.awayTeam.Some?
    requires SameTwo(SideOf(ref.teams, sb.home).value.0, SideOf(ref.teams, sb.away).value.0, r.homeTeam.value, r.awayTeam.value)
    requires Aligned(ref, sb, ref.games[i], r.homeTeam.value, r.awayTeam.value)
    requires Apart(ref.games[i].date, sb.date) <= 400
    ensures Certifies(ref, sb, i, r)
  {
    hide SideOf, Aligned, AlignedAsRated, SameTwo, Records;
  }

  lemma PairAligned(ref: Reference, sb: Statsbook, home: int, away: int, i: nat)
    requires ref.Valid() && i < |ref.games| && Carries(ref, sb, home, away, i)
    ensures var g, r := ref.games[i], PairMatch(ref, sb, i);
      && r.how == Pair && Records(ref, sb, g, r) && r.homeTeam.Some? && r.awayTeam.Some?
      && SameTwo(home, away, r.homeTeam.value, r.awayTeam.value)
      && Aligned(ref, sb, g, r.homeTeam.value, r.awayTeam.value) && Apart(g.date, sb.date) <= 400
  {
    MatchRecorded(ref, sb, ref.games[i], Pair);
    hide KeepsOrder, Aligned, Evaluate, SidesBest, RatedBest;
    ExactScoreAligns(ref, sb, ref.games[i]);
    SidesAreTeams(ref, sb, ref.games[i]);
  }

  lemma PickedCarries(ref: Reference, sb: Statsbook, i: nat)
    requires ref.Valid() && i < |ref.games| && PicksBySignature(ref, sb, i)
    ensures var home, away := SideOf(ref.teams, sb.home), SideOf(ref.teams, sb.away);
      home.Some? && away.Some? && Carries(ref, sb, home.value.0, away.value.0, i)
  {
    hide SideOf, HasSignature, Carries;
    CarriesExactly(ref, sb, SideOf(ref.teams, sb.home).value.0, SideOf(ref.teams, sb.away).value.0, i);
  }

  lemma SidesAreTeams(ref: Reference, sb: Statsbook, g: Game)
    requires Known(ref, g)
    ensures var (home, away) := AssignSides(ref, sb, g);
      SameTwo(home, away, ref.teams[g.team1].id, ref.teams[g.team2].id)
  {
    hide KeepsOrder;
  }

  lemma WindowCertificate(ref: Reference, sb: Statsbook, i: nat)
    requires ref.Valid() && i < |ref.games| && Accepted(ref, sb, i)
    ensures Certifies(ref, sb, i, WindowMatch(ref, sb, i))
  {
    var c := CandidateOf(ref, sb, i);
    MatchRecorded(ref, sb, ref.games[i], WindowMethod(sb, c.off, c.delta));
    hide SideOf, Evaluate, KeepsOrder, Records, Similarity, Aligned, AlignedAsRated;
    if c.delta == 0 { ZeroDeltaAligns(ref, sb, ref.games[i]); }
  }

  /** Every match carries its certificate; anything else is the hidden result. */
  lemma EveryMatchCertified(ref: Reference, sb: Statsbook)
    requires ref.Valid()
    ensures var r := Decide(ref, sb);
      if r.how == Unmatched then r == Resolution(Unmatched, None, 0.0, 0, 0, None, None)
      else exists i: nat :: i < |ref.games| && Certifies(ref, sb, i, r)
  {
    hide PicksBySignature, PicksByWindow, Certifies, Decide, PairMatch, WindowMatch;
    if i: nat :| i < |ref.games| && PicksBySignature(ref, sb, i) {
      SignaturePicked(ref, sb, i);
      PairCertificate(ref, sb, i);
      CertifiedIsMatched(ref, sb, i, Decide(ref, sb));
    } else if i: nat :| i < |ref.games| && PicksByWindow(ref, sb, i) {
      WindowPicked(ref, sb, i);
      PickedIsAccepted(ref, sb, i);
      WindowCertificate(ref, sb, i);
      CertifiedIsMatched(ref, sb, i, Decide(ref, sb));
    } else {
      PicksAreGames(ref, sb);
      NothingPicked(ref, sb);
    }
  }

  // ---------- when there is a match ----------

  /** The game is between the two teams, has the two scores, and is at most 400 days away. */
  ghost predicate Carries(ref: Reference, sb: Statsbook, home: int, away: int, i: nat)
    requires ref.Valid() && i < |ref.games|
  {
    var g := ref.games[i];
    && SameTwo(ref.teams[g.team1].id, ref.teams[g.team2].id, home, away)
    && SameTwo(g.score1, g.score2, sb.homeScore, sb.awayScore)
    && Apart(g.date, sb.date) <= 400
  }

  /** ... and nearer than every other game of that kind. */
  ghost predicate CarriesNearest(ref: Reference, sb: Statsbook, home: int, away: int, i: nat)
    requires ref.Valid()
  {
    && i < |ref.games| && Carries(ref, sb, home, away, i)
    && forall j: nat :: j < |ref.games| && j != i && Carries(ref, sb, home, away, j) ==>
         Apart(ref.games[i].date, sb.date) < Apart(ref.games[j].date, sb.date)
  }

  /** A book is matched by its signature exactly when both its sides stand for
      teams and one game that carries it is nearer than all others that do. */
  lemma PairExactly(ref: Reference, sb: Statsbook)
    requires ref.Valid()
    ensures var home, away := SideOf(ref.teams, sb.home), SideOf(ref.teams, sb.away);
      Decide(ref, sb).how == Pair <==>
        home.Some? && away.Some? && exists i: nat :: CarriesNearest(ref, sb, home.value.0, away.value.0, i)
  {
    hide SideOf, CarriesNearest, IsNearest, Decide, IsTop, Contested, CandidateOf, PairMatch, WindowMatch;
    forall i: nat ensures PicksBySignature(ref, sb, i) <==>
      var home, away := SideOf(ref.teams, sb.home), SideOf(ref.teams, sb.away);
      home.Some? && away.Some? && CarriesNearest(ref, sb, home.value.0, away.value.0, i)
    {
      var home, away := SideOf(ref.teams, sb.home), SideOf(ref.teams, sb.away);
      if home.Some? && away.Some? { NearestExactly(ref, sb, home.value.0, away.value.0, i); }
    }
    hide PicksBySignature, PicksByWindow;
    PicksAreGames(ref, sb);
    if i: nat :| i < |ref.games| && PicksBySignature(ref, sb, i) {
      SignaturePicked(ref, sb, i);
      MatchedHow(ref, sb, i);
    } else if i: nat :| i < |ref.games| && PicksByWindow(ref, sb, i) {
      WindowPicked(ref, sb, i);
      MatchedHow(ref, sb, i);
    } else {
      NothingPicked(ref, sb);
    }
  }

  lemma MatchedHow(ref: Reference, sb: Statsbook, i: nat)
    requires ref.Valid() && i < |ref.games|
    ensures PairMatch(ref, sb, i).how == Pair && WindowMatch(ref, sb, i).how != Pair
  {
    hide AssignSides, Evaluate, CandidateOf;
  }

  lemma NearestExactly(ref: Reference, sb: Statsbook, home: int, away: int, i: nat)
    requires ref.Valid()
    ensures CarriesNearest(ref, sb, home, away, i) <==> IsNearest(ref, sb, home, away, i)
  {
    hide Carries, HasSignature;
    forall j: nat | j < |ref.games| ensures Carries(ref, sb, home, away, j) <==> HasSignature(ref, sb, home, away, j) {
      CarriesExactly(ref, sb, home, away, j);
    }
  }

  lemma CarriesExactly(ref: Reference, sb: Statsbook, home: int, away: int, i: nat)
    requires ref.Valid() && i < |ref.games|
    ensures Carries(ref, sb, home, away, i) <==> HasSignature(ref, sb, home, away, i)
  {
    var g := ref.games[i];
  }

  /** Which rating is good enough, on the day itself or next to it. */
  predicate GoodEnough(zeroTotal: bool, sameDay: bool, similarity: real, delta: int) {
    if zeroTotal then similarity >= 0.85
    else if sameDay then delta == 0 || (similarity >= 0.80 && delta <= 12) || (similarity >= 0.90 && delta <= 40)
    else delta == 0 && similarity >= 0.60
  }

  lemma AcceptedExactly(ref: Reference, sb: Statsbook, i: nat)
    requires ref.Valid() && i < |ref.games|
    ensures var rating := Evaluate(ref, sb, ref.games[i]);
      Accepted(ref, sb, i) <==>
        && Apart(ref.games[i].date, sb.date) <= 1
        && GoodEnough(sb.homeScore + sb.awayScore == 0, ref.games[i].date == sb.date, rating.team, rating.delta)
  {
    hide Evaluate;
  }

  /** Without a signature, a book with one game within a day is matched to it
      exactly when the rating is good enough. */
  lemma LoneGame(ref: Reference, sb: Statsbook, i: nat)
    requires ref.Valid() && i < |ref.games| && Apart(ref.games[i].date, sb.date) <= 1
    requires forall j: nat :: !PicksBySignature(ref, sb, j)
    requires forall j: nat :: j < |ref.games| && j != i ==> Apart(ref.games[j].date, sb.date) > 1
    ensures var rating := Evaluate(ref, sb, ref.games[i]);
      Decide(ref, sb).gameId ==
        if GoodEnough(sb.homeScore + sb.awayScore == 0, ref.games[i].date == sb.date, rating.team, rating.delta)
        then Some(ref.games[i].id) else None
  {
    forall j: nat | j < |ref.games| ensures Accepted(ref, sb, j) ==> j == i { AcceptedExactly(ref, sb, j); }
    AcceptedExactly(ref, sb, i);
    hide Evaluate, PicksBySignature, PicksByWindow, Accepted, GoodEnough, Decide, WindowMatch;
    if Accepted(ref, sb, i) {
      OnlyAccepted(ref, sb, i);
      WindowPicked(ref, sb, i);
      MatchedGame(ref, sb, i);
    } else {
      PicksAreGames(ref, sb);
      forall j: nat ensures !PicksByWindow(ref, sb, j) {
        if PicksByWindow(ref, sb, j) { PickedIsAccepted(ref, sb, j); }
      }
      NothingPicked(ref, sb);
    }
  }

  lemma OnlyAccepted(ref: Reference, sb: Statsbook, i: nat)
    requires ref.Valid() && i < |ref.games| && Accepted(ref, sb, i)
    requires forall j: nat :: !PicksBySignature(ref, sb, j)
    requires forall j: nat :: j < |ref.games| && Accepted(ref, sb, j) ==> j == i
    ensures PicksByWindow(ref, sb, i)
  {
    hide PicksBySignature, CandidateOf, Accepted;
  }

  lemma CertifiedIsMatched(ref: Reference, sb: Statsbook, i: nat, r: Resolution)
    requires ref.Valid() && i < |ref.games| && Certifies(ref, sb, i, r)
    ensures r.how != Unmatched
  {}

  lemma PickedIsAccepted(ref: Reference, sb: Statsbook, i: nat)
    requires ref.Valid() && i < |ref.games| && PicksByWindow(ref, sb, i)
    ensures Accepted(ref, sb, i)
  {
    hide PicksBySignature, CandidateOf, Contested, Accepted;
  }

  lemma PicksAreGames(ref: Reference, sb: Statsbook)
    requires ref.Valid()
    ensures forall i: nat :: PicksBySignature(ref, sb, i) || PicksByWindow(ref, sb, i) ==> i < |ref.games|
  {
    hide SideOf, HasSignature, IsTop, Contested;
  }

  // ---------- the margin ----------

  /** Game `i` comes before game `j`: nearer to the book's day, then better
      names, then the smaller score difference, then no larger id. */
  ghost predicate Preferred(ref: Reference, sb: Statsbook, i: nat, j: nat)
    requires ref.Valid() && i < |ref.games| && j < |ref.games|
  {
    var x, y := Evaluate(ref, sb, ref.games[i]), Evaluate(ref, sb, ref.games[j]);
    var near, far := Apart(ref.games[i].date, sb.date), Apart(ref.games[j].date, sb.date);
    near < far || (near == far &&
      (x.team > y.team || (x.team == y.team && (x.delta < y.delta || (x.delta == y.delta && ref.games[i].id <= ref.games[j].id)))))
  }

  lemma TopIsPreferred(ref: Reference, sb: Statsbook, i: nat, j: nat)
    requires ref.Valid() && i < |ref.games| && IsTop(ref, sb, i) && j < |ref.games| && j != i && Accepted(ref, sb, j)
    ensures Preferred(ref, sb, i, j)
  {
    hide Accepted, Evaluate;
    assert Before(CandidateOf(ref, sb, i), CandidateOf(ref, sb, j));
  }

  /** ... and if it rests on names and both are of one distance, it is ahead by the margin. */
  ghost predicate ClearlyPreferred(ref: Reference, sb: Statsbook, i: nat, j: nat)
    requires ref.Valid() && i < |ref.games| && j < |ref.games|
  {
    var x, y := Evaluate(ref, sb, ref.games[i]), Evaluate(ref, sb, ref.games[j]);
    && Preferred(ref, sb, i, j)
    && (Apart(ref.games[i].date, sb.date) == Apart(ref.games[j].date, sb.date) && x.delta != 0 ==> x.team - y.team >= 0.05)
  }

  /** A window match is preferred to every other acceptable game, and one that
      rests on names beats every rival of its distance by the margin. */
  lemma WindowMargin(ref: Reference, sb: Statsbook, i: nat)
    requires ref.Valid() && PicksByWindow(ref, sb, i)
    ensures i < |ref.games| && Decide(ref, sb) == WindowMatch(ref, sb, i)
    ensures forall j: nat :: j < |ref.games| && j != i && Accepted(ref, sb, j) ==> ClearlyPreferred(ref, sb, i, j)
  {
    WindowPicked(ref, sb, i);
    hide PicksBySignature, Accepted, Contested, CandidateOf, Decide, WindowMatch, ClearlyPreferred;
    forall j: nat | j < |ref.games| && j != i && Accepted(ref, sb, j) ensures ClearlyPreferred(ref, sb, i, j) {
      TopIsClear(ref, sb, i, j);
    }
  }

  lemma TopIsClear(ref: Reference, sb: Statsbook, i: nat, j: nat)
    requires ref.Valid() && i < |ref.games| && IsTop(ref, sb, i) && j < |ref.games| && j != i && Accepted(ref, sb, j)
    requires CandidateOf(ref, sb, i).delta != 0 ==> !Contested(ref, sb, i)
    ensures ClearlyPreferred(ref, sb, i, j)
  {
    TopIsPreferred(ref, sb, i, j);
    hide IsTop, Evaluate, Accepted, Preferred;
    assert CandidateOf(ref, sb, i).delta != 0 ==> !TooClose(CandidateOf(ref, sb, i), CandidateOf(ref, sb, j));
  }

  /** Another acceptable game of the same distance is less than the margin behind in names. */
  ghost predicate Rivalled(ref: Reference, sb: Statsbook, i: nat)
    requires ref.Valid() && i < |ref.games|
  {
    exists j: nat :: j < |ref.games| && j != i && Accepted(ref, sb, j)
      && Apart(ref.games[j].date, sb.date) == Apart(ref.games[i].date, sb.date)
      && Evaluate(ref, sb, ref.games[i]).team - Evaluate(ref, sb, ref.games[j]).team < 0.05
  }

  lemma ContestedExactly(ref: Reference, sb: Statsbook, i: nat)
    requires ref.Valid() && i < |ref.games|
    ensures Contested(ref, sb, i) <==> Rivalled(ref, sb, i)
    ensures CandidateOf(ref, sb, i).delta == Evaluate(ref, sb, ref.games[i]).delta
  {
    hide Accepted, Evaluate;
  }

  /** A statsbook stays hidden exactly when it has no signature and its window is
      empty or its best candidate, resting on names, is rivalled. */
  lemma HiddenExactly(ref: Reference, sb: Statsbook)
    requires ref.Valid()
    ensures Decide(ref, sb) == NO_MATCH <==>
      && (forall i: nat :: !PicksBySignature(ref, sb, i))
      && forall i: nat | i < |ref.games| && IsTop(ref, sb, i) ::
           Evaluate(ref, sb, ref.games[i]).delta != 0 && Rivalled(ref, sb, i)
  {
    forall i: nat | i < |ref.games|
      ensures CandidateOf(ref, sb, i).delta == Evaluate(ref, sb, ref.games[i]).delta
      ensures Contested(ref, sb, i) <==> Rivalled(ref, sb, i)
    {
      ContestedExactly(ref, sb, i);
    }
    hide PicksBySignature, IsTop, Contested, Rivalled, Evaluate, CandidateOf, Decide, PairMatch, WindowMatch;
    if i: nat :| i < |ref.games| && PicksBySignature(ref, sb, i) {
      SignaturePicked(ref, sb, i);
      MatchesAreNotHidden(ref, sb, i);
    } else if i: nat :| i < |ref.games| && PicksByWindow(ref, sb, i) {
      WindowPicked(ref, sb, i);
      MatchesAreNotHidden(ref, sb, i);
    } else {
      PicksAreGames(ref, sb);
      NothingPicked(ref, sb);
      TopIsGame(ref, sb);
      forall i: nat | IsTop(ref, sb, i) ensures CandidateOf(ref, sb, i).delta != 0 && Contested(ref, sb, i) {
        assert !PicksByWindow(ref, sb, i);
      }
    }
  }

  lemma TopIsGame(ref: Reference, sb: Statsbook)
    requires ref.Valid()
    ensures forall i: nat :: IsTop(ref, sb, i) ==> i < |ref.games|
  {
    hide Accepted, CandidateOf;
  }

  lemma MatchesAreNotHidden(ref: Reference, sb: Statsbook, i: nat)
    requires ref.Valid() && i < |ref.games|
    ensures PairMatch(ref, sb, i) != NO_MATCH && WindowMatch(ref, sb, i) != NO_MATCH
  {
    hide Evaluate, KeepsOrder, CandidateOf;
  }

  // ---------- what the decision does not depend on ----------

  ghost predicate Inverses(f: seq<nat>, back: seq<nat>) {
    && (forall i :: 0 <= i < |f| ==> f[i] < |back| && back[f[i]] == i)
    && (forall j :: 0 <= j < |back| ==> back[j] < |f| && f[back[j]] == j)
  }

  /** Game `j` of the second problem plays the part of game `i` of the first. */
  ghost predicate SamePart(ref: Reference, sb: Statsbook, i: nat, ref': Reference, sb': Statsbook, j: nat)
    requires ref.Valid() && ref'.Valid() && i < |ref.games| && j < |ref'.games|
  {
    && ref'.games[j].date - sb'.date == ref.games[i].date - sb.date
    && (PairedAs(ref', sb', j) <==> PairedAs(ref, sb, i))
    && CandidateOf(ref', sb', j) == CandidateOf(ref, sb, i).(game := j)
  }

  /** The games of two problems correspond and are preferred in the same order. */
  ghost predicate Corresponds(ref: Reference, sb: Statsbook, ref': Reference, sb': Statsbook, f: seq<nat>, back: seq<nat>)
    requires ref.Valid() && ref'.Valid()
  {
    && |f| == |ref.games| && |back| == |ref'.games| && Inverses(f, back)
    && ZeroTotal(sb) == ZeroTotal(sb')
    && (forall i: nat :: i < |f| ==> SamePart(ref, sb, i, ref', sb', f[i]))
    && (forall i: nat, j: nat {:trigger f[i], f[j]} :: i < |f| && j < |f| && i != j ==>
          SameOrder(ref, sb, i, j, ref', sb', f[i], f[j]))
  }

  ghost predicate SameOrder(ref: Reference, sb: Statsbook, i: nat, j: nat, ref': Reference, sb': Statsbook, i': nat, j': nat)
    requires ref.Valid() && i < |ref.games| && j < |ref.games|
    requires ref'.Valid() && i' < |ref'.games| && j' < |ref'.games|
  {
    Before(CandidateOf(ref, sb, i), CandidateOf(ref, sb, j)) ==> Before(CandidateOf(ref', sb', i'), CandidateOf(ref', sb', j'))
  }

  /** Both sides stand for teams and game `i` carries their signature. */
  ghost predicate PairedAs(ref: Reference, sb: Statsbook, i: nat)
    requires ref.Valid() && i < |ref.games|
  {
    var home, away := SideOf(ref.teams, sb.home), SideOf(ref.teams, sb.away);
    home.Some? && away.Some? && HasSignature(ref, sb, home.value.0, away.value.0, i)
  }

  lemma PickedIsPaired(ref: Reference, sb: Statsbook, i: nat, j: nat)
    requires ref.Valid() && i < |ref.games| && j < |ref.games| && PicksBySignature(ref, sb, i)
    ensures PairedAs(ref, sb, i)
    ensures j != i && PairedAs(ref, sb, j) ==> Abs(ref.games[i].date - sb.date) < Abs(ref.games[j].date - sb.date)
  {
    hide SideOf, HasSignature;
  }

  lemma NearestPairedIsPicked(ref: Reference, sb: Statsbook, i: nat)
    requires ref.Valid() && i < |ref.games| && PairedAs(ref, sb, i)
    requires forall j: nat :: j < |ref.games| && j != i && PairedAs(ref, sb, j) ==>
               Abs(ref.games[i].date - sb.date) < Abs(ref.games[j].date - sb.date)
    ensures PicksBySignature(ref, sb, i)
  {
    hide SideOf, HasSignature;
  }

  /** Corresponding problems pick corresponding games by signature. */
  lemma SignatureTransfers(ref: Reference, sb: Statsbook, ref': Reference, sb': Statsbook, f: seq<nat>, back: seq<nat>, i: nat)
    requires ref.Valid() && ref'.Valid() && Corresponds(ref, sb, ref', sb', f, back) && i < |f|
    ensures PicksBySignature(ref, sb, i) <==> PicksBySignature(ref', sb', f[i])
  {
    hide PairedAs, PicksBySignature, CandidateOf, SameOrder;
    assert SamePart(ref, sb, i, ref', sb', f[i]);
    forall j: nat | j < |ref'.games| ensures SamePart(ref', sb', j, ref, sb, back[j]) {
      assert f[back[j]] == j && SamePart(ref, sb, back[j], ref', sb', f[back[j]]);
    }
    if PicksBySignature(ref, sb, i) { PickedPart(ref, sb, ref', sb', i, f[i], back); }
    if PicksBySignature(ref', sb', f[i]) { PickedPart(ref', sb', ref, sb, f[i], i, f); }
  }

  lemma PickedPart(ref: Reference, sb: Statsbook, ref': Reference, sb': Statsbook, i: nat, i': nat, back: seq<nat>)
    requires ref.Valid() && ref'.Valid() && i < |ref.games| && i' < |ref'.games| && |back| == |ref'.games|
    requires SamePart(ref, sb, i, ref', sb', i')
    requires forall j: nat :: j < |back| ==>
               back[j] < |ref.games| && (j != i' ==> back[j] != i) && SamePart(ref', sb', j, ref, sb, back[j])
    requires PicksBySignature(ref, sb, i)
    ensures PicksBySignature(ref', sb', i')
  {
    hide PairedAs, PicksBySignature, CandidateOf, Abs;
    PickedIsPaired(ref, sb, i, i);
    forall j: nat | j < |ref'.games| && j != i' && PairedAs(ref', sb', j)
      ensures Abs(ref'.games[i'].date - sb'.date) < Abs(ref'.games[j].date - sb'.date)
    {
      assert SamePart(ref', sb', j, ref, sb, back[j]);
      PickedIsPaired(ref, sb, i, back[j]);
    }
    NearestPairedIsPicked(ref', sb', i');
  }

  /** ... and corresponding games by date window. */
  lemma WindowTransfers(ref: Reference, sb: Statsbook, ref': Reference, sb': Statsbook, f: seq<nat>, back: seq<nat>, i: nat)
    requires ref.Valid() && ref'.Valid() && Corresponds(ref, sb, ref', sb', f, back) && i < |f|
    ensures PicksByWindow(ref, sb, i) ==> PicksByWindow(ref', sb', f[i])
  {
    if PicksByWindow(ref, sb, i) {
      NoSignatureTransfers(ref, sb, ref', sb', f, back);
      TopTransfers(ref, sb, ref', sb', f, back, i);
      ContestTransfers(ref, sb, ref', sb', f, back, i);
      hide PicksBySignature, CandidateOf, IsTop, Contested, SameOrder;
      assert SamePart(ref, sb, i, ref', sb', f[i]);
    }
  }

  lemma NoSignatureTransfers(ref: Reference, sb: Statsbook, ref': Reference, sb': Statsbook, f: seq<nat>, back: seq<nat>)
    requires ref.Valid() && ref'.Valid() && Corresponds(ref, sb, ref', sb', f, back)
    requires forall j: nat :: !PicksBySignature(ref, sb, j)
    ensures forall j: nat :: !PicksBySignature(ref', sb', j)
  {
    PicksAreGames(ref', sb');
    hide PicksBySignature, SamePart, SameOrder;
    forall j: nat ensures !PicksBySignature(ref', sb', j) {
      if j < |ref'.games| {
        SignatureTransfers(ref, sb, ref', sb', f, back, back[j]);
      }
    }
  }

  lemma AcceptanceTransfers(ref: Reference, sb: Statsbook, ref': Reference, sb': Statsbook, i: nat, j: nat)
    requires ref.Valid() && ref'.Valid() && i < |ref.games| && j < |ref'.games|
    requires SamePart(ref, sb, i, ref', sb', j) && ZeroTotal(sb) == ZeroTotal(sb')
    ensures Accepted(ref, sb, i) <==> Accepted(ref', sb', j)
  {
    hide CandidateOf;
  }

  lemma TopTransfers(ref: Reference, sb: Statsbook, ref': Reference, sb': Statsbook, f: seq<nat>, back: seq<nat>, i: nat)
    requires ref.Valid() && ref'.Valid() && Corresponds(ref, sb, ref', sb', f, back) && i < |f|
    requires IsTop(ref, sb, i)
    ensures IsTop(ref', sb', f[i])
  {
    hide CandidateOf, Accepted, Before, SamePart;
    AcceptanceTransfers(ref, sb, ref', sb', i, f[i]);
    forall j: nat | j < |ref'.games| && j != f[i] && Accepted(ref', sb', j)
      ensures Before(CandidateOf(ref', sb', f[i]), CandidateOf(ref', sb', j))
    {
      assert f[back[j]] == j;
      AcceptanceTransfers(ref, sb, ref', sb', back[j], j);
      assert SameOrder(ref, sb, i, back[j], ref', sb', f[i], f[back[j]]);
    }
  }

  lemma ContestTransfers(ref: Reference, sb: Statsbook, ref': Reference, sb': Statsbook, f: seq<nat>, back: seq<nat>, i: nat)
    requires ref.Valid() && ref'.Valid() && Corresponds(ref, sb, ref', sb', f, back) && i < |f|
    ensures Contested(ref', sb', f[i]) ==> Contested(ref, sb, i)
  {
    hide CandidateOf, Accepted, SameOrder;
    if Contested(ref', sb', f[i]) {
      var j: nat :| j < |ref'.games| && j != f[i] && Accepted(ref', sb', j)
        && TooClose(CandidateOf(ref', sb', f[i]), CandidateOf(ref', sb', j));
      assert f[back[j]] == j;
      AcceptanceTransfers(ref, sb, ref', sb', back[j], j);
      assert SamePart(ref, sb, i, ref', sb', f[i]);
    }
  }

  /** Both decisions are matches of the same kind, to games `i` and `j`. */
  ghost predicate SameChoice(ref: Reference, sb: Statsbook, i: nat, ref': Reference, sb': Statsbook, j: nat)
    requires ref.Valid() && ref'.Valid() && i < |ref.games| && j < |ref'.games|
  {
    || (Decide(ref, sb) == PairMatch(ref, sb, i) && Decide(ref', sb') == PairMatch(ref', sb', j))
    || (Decide(ref, sb) == WindowMatch(ref, sb, i) && Decide(ref', sb') == WindowMatch(ref', sb', j))
  }

  /** The decision on a corresponding problem is the corresponding match. */
  lemma DecisionTransfers(ref: Reference, sb: Statsbook, ref': Reference, sb': Statsbook, f: seq<nat>, back: seq<nat>)
    requires ref.Valid() && ref'.Valid() && Corresponds(ref, sb, ref', sb', f, back)
    requires Corresponds(ref', sb', ref, sb, back, f)
    ensures || (Decide(ref, sb) == NO_MATCH && Decide(ref', sb') == NO_MATCH)
            || exists i: nat :: i < |f| && SameChoice(ref, sb, i, ref', sb', f[i])
  {
    hide PicksBySignature, PicksByWindow, Decide, PairMatch, WindowMatch, SamePart, SameOrder;
    PicksAreGames(ref, sb);
    PicksAreGames(ref', sb');
    if i: nat :| i < |f| && PicksBySignature(ref, sb, i) {
      SignatureTransfers(ref, sb, ref', sb', f, back, i);
      SignaturePicked(ref, sb, i);
      SignaturePicked(ref', sb', f[i]);
      assert SameChoice(ref, sb, i, ref', sb', f[i]);
    } else if i: nat :| i < |f| && PicksByWindow(ref, sb, i) {
      WindowTransfers(ref, sb, ref', sb', f, back, i);
      WindowPicked(ref, sb, i);
      WindowPicked(ref', sb', f[i]);
      assert SameChoice(ref, sb, i, ref', sb', f[i]);
    } else {
      forall j: nat ensures !PicksBySignature(ref', sb', j) && !PicksByWindow(ref', sb', j) {
        if j < |back| {
          SignatureTransfers(ref', sb', ref, sb, back, f, j);
          WindowTransfers(ref', sb', ref, sb, back, f, j);
        }
      }
      NothingPicked(ref, sb);
      NothingPicked(ref', sb');
    }
  }

  // ---------- the order of the game list ----------

  ghost predicate DistinctIds(games: seq<Game>) {
    forall i, j :: 0 <= i < j < |games| ==> games[i].id != games[j].id
  }

  /** Two lists of the same games, in any order, lead to the same decision. */
  lemma GameOrderIrrelevant(ref: Reference, ref': Reference, sb: Statsbook)
    requires ref.Valid() && ref'.Valid() && ref.teams == ref'.teams
    requires DistinctIds(ref.games) && DistinctIds(ref'.games)
    requires forall g :: g in ref.games <==> g in ref'.games
    ensures Decide(ref, sb) == Decide(ref', sb)
  {
    hide Decide, PairMatch, WindowMatch, CandidateOf, Corresponds, Found;
    var f, back := Positions(ref.games, ref'.games), Positions(ref'.games, ref.games);
    assert Found(ref, ref', f) && Found(ref', ref, back) by { PositionsFound(ref, ref'); PositionsFound(ref', ref); }
    PermutedCorresponds(ref, ref', sb, f, back);
    PermutedCorresponds(ref', ref, sb, back, f);
    DecisionTransfers(ref, sb, ref', sb, f, back);
    SameMatches(ref, ref', sb, f);
  }

  lemma PositionsFound(ref: Reference, ref': Reference)
    requires forall g :: g in ref.games ==> g in ref'.games
    ensures Found(ref, ref', Positions(ref.games, ref'.games))
  {
    hide Positions;
  }

  lemma SameMatches(ref: Reference, ref': Reference, sb: Statsbook, f: seq<nat>)
    requires ref.Valid() && ref'.Valid() && ref.teams == ref'.teams && Found(ref, ref', f)
    ensures forall i: nat | i < |f| ::
      PairMatch(ref, sb, i) == PairMatch(ref', sb, f[i]) && WindowMatch(ref, sb, i) == WindowMatch(ref', sb, f[i])
  {
    hide PairMatch, WindowMatch;
    forall i: nat | i < |f|
      ensures PairMatch(ref, sb, i) == PairMatch(ref', sb, f[i]) && WindowMatch(ref, sb, i) == WindowMatch(ref', sb, f[i])
    {
      SameGameSameMatch(ref, ref', sb, i, f[i]);
    }
  }

  lemma SameGameSameMatch(ref: Reference, ref': Reference, sb: Statsbook, i: nat, j: nat)
    requires ref.Valid() && ref'.Valid() && ref.teams == ref'.teams
    requires i < |ref.games| && j < |ref'.games| && ref'.games[j] == ref.games[i]
    ensures PairMatch(ref, sb, i) == PairMatch(ref', sb, j) && WindowMatch(ref, sb, i) == WindowMatch(ref', sb, j)
    ensures SamePart(ref, sb, i, ref', sb, j)
  {
    hide Similarity, SideOf;
  }

  ghost function Positions(games: seq<Game>, others: seq<Game>): (f: seq<nat>)
    requires forall g :: g in games ==> g in others
    ensures |f| == |games| && forall i :: 0 <= i < |f| ==> f[i] < |others| && others[f[i]] == games[i]
  {
    if games == [] then []
    else
      assert games[0] in games;
      var p: nat :| p < |others| && others[p] == games[0];
      [p] + Positions(games[1..], others)
  }

  /** The games of `ref` are found at the positions `f` of `ref'`. */
  ghost predicate Found(ref: Reference, ref': Reference, f: seq<nat>) {
    |f| == |ref.games| && forall i :: 0 <= i < |f| ==> f[i] < |ref'.games| && ref'.games[f[i]] == ref.games[i]
  }

  lemma PermutedCorresponds(ref: Reference, ref': Reference, sb: Statsbook, f: seq<nat>, back: seq<nat>)
    requires ref.Valid() && ref'.Valid() && ref.teams == ref'.teams
    requires DistinctIds(ref.games) && DistinctIds(ref'.games) && Found(ref, ref', f) && Found(ref', ref, back)
    ensures Corresponds(ref, sb, ref', sb, f, back)
  {
    PermutedParts(ref, ref', sb, f);
    PermutedOrder(ref, ref', sb, f);
    hide CandidateOf, SamePart, SameOrder, ZeroTotal;
  }

  lemma PermutedParts(ref: Reference, ref': Reference, sb: Statsbook, f: seq<nat>)
    requires ref.Valid() && ref'.Valid() && ref.teams == ref'.teams && Found(ref, ref', f)
    ensures forall i: nat | i < |f| :: SamePart(ref, sb, i, ref', sb, f[i])
  {
    hide SamePart;
    forall i: nat | i < |f| ensures SamePart(ref, sb, i, ref', sb, f[i]) {
      SameGameSameMatch(ref, ref', sb, i, f[i]);
    }
  }

  lemma PermutedOrder(ref: Reference, ref': Reference, sb: Statsbook, f: seq<nat>)
    requires ref.Valid() && ref'.Valid() && ref.teams == ref'.teams && DistinctIds(ref.games) && Found(ref, ref', f)
    ensures forall i: nat, j: nat | i < |f| && j < |f| && i != j :: SameOrder(ref, sb, i, j, ref', sb, f[i], f[j])
  {
    PermutedParts(ref, ref', sb, f);
    hide SamePart, SameOrder;
    forall i: nat, j: nat | i < |f| && j < |f| && i != j ensures SameOrder(ref, sb, i, j, ref', sb, f[i], f[j]) {
      OrderById(ref, ref', sb, i, j, f[i], f[j]);
    }
  }

  lemma OrderById(ref: Reference, ref': Reference, sb: Statsbook, i: nat, j: nat, i': nat, j': nat)
    requires ref.Valid() && ref'.Valid()
    requires i < |ref.games| && j < |ref.games| && i' < |ref'.games| && j' < |ref'.games|
    requires SamePart(ref, sb, i, ref', sb, i') && SamePart(ref, sb, j, ref', sb, j')
    requires ref.games[i].id != ref.games[j].id
    ensures SameOrder(ref, sb, i, j, ref', sb, i', j')
  {
    hide PairedAs;
  }

  // ---------- which team is listed first ----------

  function SwapGame(g: Game): Game { Game(g.id, g.date, g.team2, g.team1, g.score2, g.score1) }

  /** The same games, those at the positions `swap` with their teams exchanged. */
  function Reoriented(ref: Reference, swap: set<nat>): Reference {
    Reference(ref.teams, seq(|ref.games|, i requires 0 <= i < |ref.games| =>
      if i in swap then SwapGame(ref.games[i]) else ref.games[i]))
  }

  function SwapBook(sb: Statsbook): Statsbook {
    Statsbook(sb.driveFileId, sb.date, sb.awayScore, sb.homeScore, sb.awayName, sb.homeName, sb.away, sb.home)
  }

  /** Neither scores nor names tell the two orientations apart. */
  predicate ExactTie(ref: Reference, sb: Statsbook, g: Game)
    requires Known(ref, g)
  {
    Straight(ref, sb, g) == Crossed(ref, sb, g)
  }

  function Exchanged(r: Resolution): Resolution { r.(homeTeam := r.awayTeam, awayTeam := r.homeTeam) }

  ghost function Identity(n: nat): (f: seq<nat>)
    ensures |f| == n && forall i :: 0 <= i < n ==> f[i] == i
  {
    seq(n, i => i)
  }

  lemma SwapGameParts(ref: Reference, ref': Reference, sb: Statsbook, g: Game)
    requires Known(ref, g) && ref'.teams == ref.teams
    ensures Evaluate(ref', sb, SwapGame(g)) == Evaluate(ref, sb, g)
    ensures AssignSides(ref', sb, SwapGame(g)) ==
            var (home, away) := AssignSides(ref, sb, g);
            if ExactTie(ref, sb, g) then (away, home) else (home, away)
  {
    hide Similarity;
  }

  lemma SwapBookParts(ref: Reference, sb: Statsbook, g: Game)
    requires Known(ref, g)
    ensures Evaluate(ref, SwapBook(sb), g) == Evaluate(ref, sb, g)
    ensures AssignSides(ref, SwapBook(sb), g) ==
            var (home, away) := AssignSides(ref, sb, g);
            if ExactTie(ref, sb, g) then (home, away) else (away, home)
  {
    hide Similarity;
  }

  lemma SwappedPart(ref: Reference, ref': Reference, sb: Statsbook, i: nat)
    requires ref.Valid() && ref'.Valid() && ref.teams == ref'.teams && i < |ref.games| && i < |ref'.games|
    requires ref'.games[i] == SwapGame(ref.games[i])
    ensures SamePart(ref, sb, i, ref', sb, i)
    ensures var tie := ExactTie(ref, sb, ref.games[i]);
            && PairMatch(ref', sb, i) == (if tie then Exchanged(PairMatch(ref, sb, i)) else PairMatch(ref, sb, i))
            && WindowMatch(ref', sb, i) == (if tie then Exchanged(WindowMatch(ref, sb, i)) else WindowMatch(ref, sb, i))
  {
    hide SideOf, Straight, Crossed, Evaluate, AssignSides, WindowMethod;
    SwapGameParts(ref, ref', sb, ref.games[i]);
  }

  lemma SwappedBookPart(ref: Reference, sb: Statsbook, i: nat)
    requires ref.Valid() && i < |ref.games|
    ensures SamePart(ref, sb, i, ref, SwapBook(sb), i)
    ensures var tie := ExactTie(ref, sb, ref.games[i]);
            && PairMatch(ref, SwapBook(sb), i) == (if tie then PairMatch(ref, sb, i) else Exchanged(PairMatch(ref, sb, i)))
            && WindowMatch(ref, SwapBook(sb), i) == (if tie then WindowMatch(ref, sb, i) else Exchanged(WindowMatch(ref, sb, i)))
  {
    hide SideOf, Straight, Crossed, Evaluate, AssignSides;
    SwapBookParts(ref, sb, ref.games[i]);
  }

  lemma SamePositionsCorrespond(ref: Reference, sb: Statsbook, ref': Reference, sb': Statsbook)
    requires ref.Valid() && ref'.Valid() && |ref'.games| == |ref.games| && ZeroTotal(sb) == ZeroTotal(sb')
    requires forall i: nat :: i < |ref.games| ==> SamePart(ref, sb, i, ref', sb', i)
    ensures Corresponds(ref, sb, ref', sb', Identity(|ref.games|), Identity(|ref.games|))
  {
    hide PairedAs, CandidateOf;
    forall i: nat, j: nat | i < |ref.games| && j < |ref.games| && i != j ensures SameOrder(ref, sb, i, j, ref', sb', i, j) {
      assert SamePart(ref, sb, i, ref', sb', i) && SamePart(ref, sb, j, ref', sb', j);
    }
  }

  lemma SamePartSymmetric(ref: Reference, sb: Statsbook, i: nat, ref': Reference, sb': Statsbook)
    requires ref.Valid() && ref'.Valid() && i < |ref.games| && i < |ref'.games|
    requires SamePart(ref, sb, i, ref', sb', i)
    ensures SamePart(ref', sb', i, ref, sb, i)
  {
    hide PairedAs, CandidateOf;
  }

  /** Which team WFTDA lists first never changes method, game, similarity, delta
      or offset; it changes the assigned sides only by exchanging them, and
      exactly when the matched game is a listed one that ties completely. */
  lemma OrientationIrrelevant(ref: Reference, sb: Statsbook, swap: set<nat>)
    requires ref.Valid()
    ensures Reoriented(ref, swap).Valid()
    ensures var r, r' := Decide(ref, sb), Decide(Reoriented(ref, swap), sb);
            || r == NO_MATCH == r'
            || exists i: nat ::
                 && i < |ref.games| && r.gameId == Some(ref.games[i].id)
                 && r' == if i in swap && ExactTie(ref, sb, ref.games[i]) then Exchanged(r) else r
  {
    var ref' := Reoriented(ref, swap);
    hide PairMatch, WindowMatch, SamePart, Decide, ExactTie, Corresponds, Exchanged;
    forall i: nat | i < |ref.games| ensures SamePart(ref, sb, i, ref', sb, i) && SamePart(ref', sb, i, ref, sb, i) {
      if i in swap { SwappedPart(ref, ref', sb, i); } else { SameGameSameMatch(ref, ref', sb, i, i); }
      SamePartSymmetric(ref, sb, i, ref', sb);
    }
    SamePositionsCorrespond(ref, sb, ref', sb);
    SamePositionsCorrespond(ref', sb, ref, sb);
    var id := Identity(|ref.games|);
    DecisionTransfers(ref, sb, ref', sb, id, id);
    if Decide(ref, sb) != NO_MATCH || Decide(ref', sb) != NO_MATCH {
      var i: nat :| i < |id| && SameChoice(ref, sb, i, ref', sb, id[i]);
      MatchedGame(ref, sb, i);
      if i in swap { SwappedPart(ref, ref', sb, i); } else { SameGameSameMatch(ref, ref', sb, i, i); }
    }
  }

  lemma MatchedGame(ref: Reference, sb: Statsbook, i: nat)
    requires ref.Valid() && i < |ref.games|
    ensures PairMatch(ref, sb, i).gameId == Some(ref.games[i].id) == WindowMatch(ref, sb, i).gameId
  {
    hide Evaluate, AssignSides;
  }

  /** Exchanging a statsbook's home and away sides exchanges the assigned teams
      and nothing else; on a complete tie the teams stay as they were. */
  lemma BookOrientation(ref: Reference, sb: Statsbook)
    requires ref.Valid()
    ensures var r, r' := Decide(ref, sb), Decide(ref, SwapBook(sb));
            || r == NO_MATCH == r'
            || exists i: nat ::
                 && i < |ref.games| && r.gameId == Some(ref.games[i].id)
                 && r' == if ExactTie(ref, sb, ref.games[i]) then r else Exchanged(r)
  {
    var sb' := SwapBook(sb);
    hide PairMatch, WindowMatch, SamePart, Decide, ExactTie, Corresponds, Exchanged;
    forall i: nat | i < |ref.games| ensures SamePart(ref, sb, i, ref, sb', i) && SamePart(ref, sb', i, ref, sb, i) {
      SwappedBookPart(ref, sb, i);
      SamePartSymmetric(ref, sb, i, ref, sb');
    }
    SamePositionsCorrespond(ref, sb, ref, sb');
    SamePositionsCorrespond(ref, sb', ref, sb);
    var id := Identity(|ref.games|);
    DecisionTransfers(ref, sb, ref, sb', id, id);
    if Decide(ref, sb) != NO_MATCH || Decide(ref, sb') != NO_MATCH {
      var i: nat :| i < |id| && SameChoice(ref, sb, i, ref, sb', id[i]);
      MatchedGame(ref, sb, i);
      SwappedBookPart(ref, sb, i);
    }
  }
}
