/** The matcher as it runs (src/ingest/resolve.rs): two lookup indices, a memo
    table for side names, a nearest-game loop that detects ties, and a sorted
    window of candidates. Every method is proved equal to `Matching.Decide`. */
module MatcherImpl {
  import opened Text
  import opened Canon
  import opened Matching

  // ---------- lookup indices ----------

  /** `list` holds, in order, the positions below `n` whose key is `k`. */
  ghost predicate Lists<K>(list: seq<nat>, keys: seq<K>, k: K, n: nat) {
    && n <= |keys|
    && (forall p :: 0 <= p < |list| ==> list[p] < n && keys[list[p]] == k)
    && (forall p, q :: 0 <= p < q < |list| ==> list[p] < list[q])
    && (forall i {:trigger keys[i]} :: 0 <= i < n && keys[i] == k ==> i in list)
  }

  /** `m` lists the positions below `n` under every key that occurs. */
  ghost predicate IndexedBy<K>(m: map<K, seq<nat>>, keys: seq<K>, n: nat) {
    && n <= |keys|
    && (forall k :: k in m ==> Lists(m[k], keys, k, n))
    && (forall i {:trigger keys[i]} :: 0 <= i < n ==> keys[i] in m)
  }

  function Push<K>(m: map<K, seq<nat>>, k: K, i: nat): map<K, seq<nat>> {
    m[k := (if k in m then m[k] else []) + [i]]
  }

  lemma ListsMore<K>(list: seq<nat>, keys: seq<K>, k: K, n: nat)
    requires n < |keys| && Lists(list, keys, k, n)
    ensures Lists(if keys[n] == k then list + [n] else list, keys, k, n + 1)
  {
    var longer := if keys[n] == k then list + [n] else list;
    forall i | 0 <= i < n + 1 && keys[i] == k ensures i in longer {
      if i == n {
        assert longer[|list|] == n;
      } else {
        var p :| 0 <= p < |list| && list[p] == i;
        assert longer[p] == i;
      }
    }
  }

  lemma PushIndexes<K>(m: map<K, seq<nat>>, keys: seq<K>, n: nat)
    requires n < |keys| && IndexedBy(m, keys, n)
    ensures IndexedBy(Push(m, keys[n], n), keys, n + 1)
  {
    forall k | k in Push(m, keys[n], n) ensures Lists(Push(m, keys[n], n)[k], keys, k, n + 1) {
      ListsMore(if k in m then m[k] else [], keys, k, n);
    }
  }

  ghost function DateKeys(games: seq<Game>): seq<int> {
    seq(|games|, i requires 0 <= i < |games| => games[i].date)
  }

  ghost function PairKeys(ref: Reference): seq<(int, int)>
    requires ref.Valid()
  {
    seq(|ref.games|, i requires 0 <= i < |ref.games| =>
      Unordered(ref.teams[ref.games[i].team1].id, ref.teams[ref.games[i].team2].id))
  }

  // ---------- the memo table ----------

  /** Best team per canonical side name, shared by all statsbooks of a pass. */
  class SideCache {
    var entries: map<string, Option<(int, real)>>

    constructor ()
      ensures entries == map[]
    {
      entries := map[];
    }

    ghost predicate Sound(teams: seq<Team>)
      reads this
    {
      SoundMemos(teams, entries)
    }
  }

  /** Every memo is what a fresh lookup of that name would give. */
  ghost predicate SoundMemos(teams: seq<Team>, memos: map<string, Option<(int, real)>>) {
    forall name, side: TrigramSet {:trigger memos[name], BuiltFrom(side, name)} ::
      name in memos && BuiltFrom(side, name) ==> memos[name] == SideOf(teams, side)
  }

  lemma AddMemo(teams: seq<Team>, memos: map<string, Option<(int, real)>>, name: string, side: TrigramSet)
    requires SoundMemos(teams, memos) && BuiltFrom(side, name)
    ensures SoundMemos(teams, memos[name := SideOf(teams, side)])
  {
    hide SideOf, BuiltFrom;
    var memos' := memos[name := SideOf(teams, side)];
    forall other, s: TrigramSet | other in memos' && BuiltFrom(s, other)
      ensures memos'[other] == SideOf(teams, s)
    {
      if other == name { BuiltFromUnique(s, side, name); } else { assert memos[other] == SideOf(teams, s); }
    }
  }

  /** `home` and `away` were built from the two side names. */
  ghost predicate WellBuilt(sb: Statsbook) {
    BuiltFrom(sb.home, sb.homeName) && BuiltFrom(sb.away, sb.awayName)
  }

  // ---------- the matcher ----------

  class Matcher {
    const ref: Reference
    var byDate: map<int, seq<nat>>
    var byPair: map<(int, int), seq<nat>>

    ghost predicate Valid()
      reads this
    {
      && ref.Valid()
      && IndexedBy(byDate, DateKeys(ref.games), |ref.games|)
      && IndexedBy(byPair, PairKeys(ref), |ref.games|)
    }

    constructor (teams: seq<Team>, games: seq<Game>)
      requires Reference(teams, games).Valid()
      ensures Valid() && ref == Reference(teams, games)
    {
      ref := Reference(teams, games);
      var dates: map<int, seq<nat>>, pairs: map<(int, int), seq<nat>> := map[], map[];
      for i := 0 to |games|
        invariant IndexedBy(dates, DateKeys(games), i)
        invariant IndexedBy(pairs, PairKeys(Reference(teams, games)), i)
      {
        var g := games[i];
        PushIndexes(dates, DateKeys(games), i);
        PushIndexes(pairs, PairKeys(Reference(teams, games)), i);
        dates := Push(dates, g.date, i);
        pairs := Push(pairs, Unordered(teams[g.team1].id, teams[g.team2].id), i);
      }
      byDate := dates;
      byPair := pairs;
    }

    /** Best team for a side name, from the memo table when it is there. */
    method ResolveSide(name: string, side: TrigramSet, cache: SideCache) returns (best: Option<(int, real)>)
      requires BuiltFrom(side, name) && cache.Sound(ref.teams)
      modifies cache
      ensures best == SideOf(ref.teams, side)
      ensures cache.Sound(ref.teams)
    {
      hide Similarity, BuiltFrom;
      if name in cache.entries {
        return cache.entries[name];
      }
      best := None;
      ghost var at: nat := 0;
      for i := 0 to |ref.teams|
        invariant cache.entries == old(cache.entries)
        invariant best.None? ==> forall j {:trigger ref.teams[j]} ::
                    0 <= j < i ==> Similarity(side, ref.teams[j].trigrams) < SIDE_MATCH_THRESHOLD
        invariant best.Some? ==> at < i && best.value == (ref.teams[at].id, Similarity(side, ref.teams[at].trigrams))
        invariant best.Some? ==> IsBestTeam(ref.teams[..i], side, at)
      {
        var team := ref.teams[i];
        var sim := TrigramSimilarity(side, team.trigrams);
        assert ref.teams[..i + 1] == ref.teams[..i] + [team];
        if sim >= SIDE_MATCH_THRESHOLD && (best.None? || sim > best.value.1) {
          best := Some((team.id, sim));
          at := i;
        }
      }
      assert ref.teams[..|ref.teams|] == ref.teams;
      assert best.Some? ==> IsBestTeam(ref.teams, side, at);
      SideOfIs(ref.teams, side, best, at);
      AddMemo(ref.teams, cache.entries, name, side);
      cache.entries := cache.entries[name := best];
    }

    /** Path 1: independently resolved team pair plus an exact score. */
    method SignatureMatch(sb: Statsbook, cache: SideCache) returns (r: Option<Resolution>)
      requires Valid() && WellBuilt(sb) && cache.Sound(ref.teams)
      modifies cache
      ensures r == BySignature(ref, sb)
      ensures cache.Sound(ref.teams)
    {
      hide Evaluate, MatchedTo, SideOf, IsNearest, BySignature;
      NoSignature(ref, sb);
      var home := ResolveSide(sb.homeName, sb.home, cache);
      if home.None? { return None; }
      var away := ResolveSide(sb.awayName, sb.away, cache);
      if away.None? { return None; }
      var homeId, awayId := home.value.0, away.value.0;
      var nearest := NearestSignature(sb, homeId, awayId);
      if nearest.None? { return None; }
      NearestIs(ref, sb, homeId, awayId, nearest.value);
      var g := ref.games[nearest.value];
      var rating := Evaluate(ref, sb, g);
      r := Some(MatchedTo(ref, sb, g, Pair, rating, g.date - sb.date));
    }

    /** The nearest game with the signature; a tie for nearest is none. */
    method NearestSignature(sb: Statsbook, homeId: int, awayId: int) returns (r: Option<nat>)
      requires Valid()
      ensures r.Some? ==> r.value < |ref.games| && IsNearest(ref, sb, homeId, awayId, r.value)
      ensures r.None? ==> forall i: nat :: !IsNearest(ref, sb, homeId, awayId, i)
    {
      var key := Unordered(homeId, awayId);
      if key !in byPair {
        OnlyIndexed(ref, sb, homeId, awayId, byPair, []);
        return None;
      }
      var indices := byPair[key];
      var pair := Unordered(sb.homeScore, sb.awayScore);
      var best: Option<(nat, nat)> := None;
      var tied := false;
      ghost var seen: set<nat> := {};
      StartNearest(ref, sb, homeId, awayId, byPair, indices);
      hide NearestOf, IsNearest, HasSignature, IndexedBy, Seen, Lists;
      for k := 0 to |indices|
        invariant Seen(ref, sb, homeId, awayId, indices, k, seen)
        invariant NearestOf(ref.games, sb.date, seen, best, tied)
      {
        var gi := indices[k];
        SeenStep(ref, sb, homeId, awayId, indices, k, seen);
        var g := ref.games[gi];
        if Unordered(g.score1, g.score2) != pair { continue; }
        var days := Abs(g.date - sb.date);
        if days > SIGNATURE_DATE_RADIUS_DAYS { continue; }
        NearestStep(ref.games, sb.date, seen, best, tied, gi);
        seen := seen + {gi};
        if best.None? || days < best.value.0 {
          best := Some((days, gi));
          tied := false;
        } else if days == best.value.0 {
          tied := true;
        }
      }
      NearestDone(ref, sb, homeId, awayId, byPair, indices, seen, best, tied);
      if best.None? || tied { return None; }
      r := Some(best.value.1);
    }

    /** Path 2: the date window, same day preferred. */
    method WindowSearch(sb: Statsbook) returns (r: Resolution)
      requires Valid()
      ensures r == ByWindow(ref, sb)
    {
      hide ByWindow, CandidateOf, IsTop, Contested, MatchedTo;
      var candidates := CollectCandidates(sb);
      if candidates == [] {
        EmptyWindow(ref, sb);
        return NO_MATCH;
      }
      var unsorted := candidates;
      candidates := SortCandidates(candidates);
      Reordered(ref, sb, unsorted, candidates);
      FirstIsTop(ref, sb, candidates);
      var top := candidates[0];
      if |candidates| > 1 {
        var runnerUp := candidates[1];
        if runnerUp.off == top.off && top.delta != 0 && top.team - runnerUp.team < MARGIN {
          return NO_MATCH;
        }
      }
      var how :=
        if ZeroTotal(sb) then Window
        else if top.off == 0 && top.delta == 0 then Score
        else if top.off == 0 then Drift
        else Window;
      r := MatchedTo(ref, sb, ref.games[top.game], how, Rating(top.team, top.delta), top.signedOffset);
    }

    /** The accepted games of `D-1..D+1`, in the order they are met. */
    method CollectCandidates(sb: Statsbook) returns (candidates: seq<Candidate>)
      requires Valid()
      ensures IsWindow(ref, sb, candidates)
      ensures forall p, q :: 0 <= p < q < |candidates| ==> MetBefore(candidates[p], candidates[q])
    {
      candidates := [];
      ghost var met: set<nat> := {};
      assert Collected(ref, sb, candidates, met);
      hide CandidateOf, Accepted, Collected, MetBefore, IsWindow;
      for offset := -1 to 2
        invariant forall i: nat :: i in met <==> i < |ref.games| && -1 <= ref.games[i].date - sb.date < offset
        invariant Collected(ref, sb, candidates, met)
      {
        var date := sb.date + offset;
        if date !in byDate {
          assert forall i :: 0 <= i < |ref.games| ==> DateKeys(ref.games)[i] == ref.games[i].date;
          continue;
        }
        var indices := byDate[date];
        for k := 0 to |indices|
          invariant forall i: nat :: i in met <==>
                      || (i < |ref.games| && -1 <= ref.games[i].date - sb.date < offset)
                      || i in indices[..k]
          invariant Collected(ref, sb, candidates, met)
        {
          var gi := indices[k];
          assert indices[..k + 1] == indices[..k] + [gi];
          assert DateKeys(ref.games)[gi] == date;
          CollectStep(ref, sb, candidates, met, gi);
          if Accepted(ref, sb, gi) {
            candidates := candidates + [CandidateOf(ref, sb, gi)];
          }
          met := met + {gi};
        }
        assert indices[..|indices|] == indices;
        forall i: nat | i < |ref.games| && ref.games[i].date == date ensures i in indices {
          assert DateKeys(ref.games)[i] == date;
        }
      }
      CollectedAll(ref, sb, candidates, met);
    }

    method Resolve(sb: Statsbook, cache: SideCache) returns (r: Resolution)
      requires Valid() && WellBuilt(sb) && cache.Sound(ref.teams)
      modifies cache
      ensures r == Decide(ref, sb)
      ensures cache.Sound(ref.teams)
    {
      var signature := SignatureMatch(sb, cache);
      if signature.Some? { return signature.value; }
      r := WindowSearch(sb);
    }

    /** All statsbooks of a pass share one memo table. */
    method ResolveAll(books: seq<Statsbook>) returns (results: seq<Resolution>)
      requires Valid() && forall i :: 0 <= i < |books| ==> WellBuilt(books[i])
      ensures |results| == |books|
      ensures forall i :: 0 <= i < |books| ==> results[i] == Decide(ref, books[i])
    {
      hide WellBuilt, Decide;
      var cache := new SideCache();
      results := [];
      for k := 0 to |books|
        invariant cache.Sound(ref.teams) && fresh(cache)
        invariant |results| == k && forall i :: 0 <= i < k ==> results[i] == Decide(ref, books[i])
      {
        var r := Resolve(books[k], cache);
        results := results + [r];
      }
    }
  }

  /** The candidates are exactly the accepted games. */
  ghost predicate IsWindow(ref: Reference, sb: Statsbook, candidates: seq<Candidate>)
    requires ref.Valid()
  {
    && (forall c :: c in candidates ==> c.game < |ref.games| && Accepted(ref, sb, c.game) && c == CandidateOf(ref, sb, c.game))
    && (forall i: nat :: i < |ref.games| && Accepted(ref, sb, i) ==> CandidateOf(ref, sb, i) in candidates)
  }

  ghost predicate Collected(ref: Reference, sb: Statsbook, candidates: seq<Candidate>, met: set<nat>)
    requires ref.Valid()
  {
    && (forall c :: c in candidates ==>
          c.game in met && c.game < |ref.games| && Accepted(ref, sb, c.game) && c == CandidateOf(ref, sb, c.game))
    && (forall i: nat :: i in met && i < |ref.games| && Accepted(ref, sb, i) ==> CandidateOf(ref, sb, i) in candidates)
    && (forall p, q :: 0 <= p < q < |candidates| ==> MetBefore(candidates[p], candidates[q]))
  }

  lemma CollectStep(ref: Reference, sb: Statsbook, candidates: seq<Candidate>, met: set<nat>, gi: nat)
    requires ref.Valid() && Collected(ref, sb, candidates, met) && gi < |ref.games|
    requires forall i: nat :: i in met && i < |ref.games| ==>
               || ref.games[i].date < ref.games[gi].date || (ref.games[i].date == ref.games[gi].date && i < gi)
    ensures Collected(ref, sb, if Accepted(ref, sb, gi) then candidates + [CandidateOf(ref, sb, gi)] else candidates, met + {gi})
  {
    hide CandidateOf, Accepted;
    var c := CandidateOf(ref, sb, gi);
    forall p | 0 <= p < |candidates| ensures MetBefore(candidates[p], c) {
      assert candidates[p] in candidates;
    }
  }

  lemma CollectedAll(ref: Reference, sb: Statsbook, candidates: seq<Candidate>, met: set<nat>)
    requires ref.Valid() && Collected(ref, sb, candidates, met)
    requires forall i: nat :: i in met <==> i < |ref.games| && -1 <= ref.games[i].date - sb.date < 2
    ensures IsWindow(ref, sb, candidates)
    ensures forall p, q :: 0 <= p < q < |candidates| ==> MetBefore(candidates[p], candidates[q])
  {
    hide CandidateOf;
  }

  lemma EmptyWindow(ref: Reference, sb: Statsbook)
    requires ref.Valid() && IsWindow(ref, sb, [])
    ensures ByWindow(ref, sb) == NO_MATCH
  {
    hide CandidateOf, Accepted;
  }

  /** A stable insertion sort that compares keys only. */
  method SortCandidates(candidates: seq<Candidate>) returns (sorted: seq<Candidate>)
    requires forall p, q :: 0 <= p < q < |candidates| ==> MetBefore(candidates[p], candidates[q])
    ensures forall p, q :: 0 <= p < q < |sorted| ==> Before(sorted[p], sorted[q])
    ensures multiset(sorted) == multiset(candidates)
  {
    hide Before, MetBefore;
    sorted := [];
    for k := 0 to |candidates|
      invariant forall p, q :: 0 <= p < q < |sorted| ==> Before(sorted[p], sorted[q])
      invariant multiset(sorted) == multiset(candidates[..k])
    {
      assert candidates[..k + 1] == candidates[..k] + [candidates[k]];
      AllMetBefore(candidates, k, sorted);
      sorted := InsertCandidate(sorted, candidates[k]);
    }
    assert candidates[..|candidates|] == candidates;
  }

  /** Behind all that do not compare greater. */
  method InsertCandidate(sorted: seq<Candidate>, c: Candidate) returns (longer: seq<Candidate>)
    requires forall p, q :: 0 <= p < q < |sorted| ==> Before(sorted[p], sorted[q])
    requires forall p :: 0 <= p < |sorted| ==> MetBefore(sorted[p], c)
    ensures forall p, q :: 0 <= p < q < |longer| ==> Before(longer[p], longer[q])
    ensures multiset(longer) == multiset(sorted) + multiset{c}
  {
    hide Before, MetBefore, KeyLess;
    var pos := |sorted|;
    while pos > 0 && KeyLess(c, sorted[pos - 1])
      invariant 0 <= pos <= |sorted|
      invariant forall q :: pos <= q < |sorted| ==> KeyLess(c, sorted[q])
    {
      pos := pos - 1;
    }
    InsertKeepsOrder(sorted, pos, c);
    longer := sorted[..pos] + [c] + sorted[pos..];
    assert sorted == sorted[..pos] + sorted[pos..];
  }

  lemma AllMetBefore(candidates: seq<Candidate>, k: nat, sorted: seq<Candidate>)
    requires forall p, q :: 0 <= p < q < |candidates| ==> MetBefore(candidates[p], candidates[q])
    requires k < |candidates| && multiset(sorted) == multiset(candidates[..k])
    ensures forall p :: 0 <= p < |sorted| ==> MetBefore(sorted[p], candidates[k])
  {
    hide MetBefore;
    forall p | 0 <= p < |sorted| ensures MetBefore(sorted[p], candidates[k]) {
      assert sorted[p] in multiset(sorted);
      assert sorted[p] in candidates[..k];
    }
  }

  lemma InsertKeepsOrder(sorted: seq<Candidate>, pos: nat, c: Candidate)
    requires pos <= |sorted|
    requires forall p, q :: 0 <= p < q < |sorted| ==> Before(sorted[p], sorted[q])
    requires forall p :: 0 <= p < |sorted| ==> MetBefore(sorted[p], c)
    requires forall q :: pos <= q < |sorted| ==> KeyLess(c, sorted[q])
    requires pos > 0 ==> !KeyLess(c, sorted[pos - 1])
    ensures var longer := sorted[..pos] + [c] + sorted[pos..];
            forall p, q :: 0 <= p < q < |longer| ==> Before(longer[p], longer[q])
  {
    forall p | 0 <= p < pos ensures Before(sorted[p], c) {
      assert Before(sorted[pos - 1], c);
      BeforeIsStrictOrder(sorted[p], sorted[pos - 1], c);
    }
    assert forall q :: pos <= q < |sorted| ==> Before(c, sorted[q]);
    hide Before, KeyLess, MetBefore;
  }

  lemma Reordered(ref: Reference, sb: Statsbook, candidates: seq<Candidate>, sorted: seq<Candidate>)
    requires ref.Valid() && IsWindow(ref, sb, candidates) && multiset(sorted) == multiset(candidates)
    ensures IsWindow(ref, sb, sorted)
  {
    hide CandidateOf, Accepted;
    forall c ensures c in sorted <==> c in candidates {
      assert c in sorted <==> c in multiset(sorted);
    }
  }

  /** After sorting, the head is the top game and the second entry alone tells
      whether any candidate contests it. */
  lemma FirstIsTop(ref: Reference, sb: Statsbook, sorted: seq<Candidate>)
    requires ref.Valid() && sorted != []
    requires IsWindow(ref, sb, sorted)
    requires forall p, q :: 0 <= p < q < |sorted| ==> Before(sorted[p], sorted[q])
    ensures var top := sorted[0];
            && top.game < |ref.games|
            && ByWindow(ref, sb) ==
               if |sorted| > 1 && top.delta != 0 && TooClose(top, sorted[1]) then NO_MATCH else WindowMatch(ref, sb, top.game)
  {
    hide CandidateOf, Accepted, IsTop, Contested, Before, WindowMatch, ByWindow, TooClose;
    var i := sorted[0].game;
    assert sorted[0] in sorted;
    TopOfSorted(ref, sb, sorted);
    ContestedOfSorted(ref, sb, sorted);
    ByWindowIs(ref, sb, i);
  }

  lemma TopOfSorted(ref: Reference, sb: Statsbook, sorted: seq<Candidate>)
    requires ref.Valid() && sorted != [] && sorted[0].game < |ref.games|
    requires IsWindow(ref, sb, sorted)
    requires forall p, q :: 0 <= p < q < |sorted| ==> Before(sorted[p], sorted[q])
    ensures IsTop(ref, sb, sorted[0].game)
  {
    hide CandidateOf, Accepted, Before;
    assert sorted[0] in sorted;
    forall j: nat | j < |ref.games| && j != sorted[0].game && Accepted(ref, sb, j)
      ensures Before(sorted[0], CandidateOf(ref, sb, j))
    {
      var q :| 0 <= q < |sorted| && sorted[q] == CandidateOf(ref, sb, j);
    }
  }

  lemma ContestedOfSorted(ref: Reference, sb: Statsbook, sorted: seq<Candidate>)
    requires ref.Valid() && sorted != [] && sorted[0].game < |ref.games|
    requires IsWindow(ref, sb, sorted)
    requires forall p, q :: 0 <= p < q < |sorted| ==> Before(sorted[p], sorted[q])
    ensures Contested(ref, sb, sorted[0].game) <==> |sorted| > 1 && TooClose(sorted[0], sorted[1])
  {
    hide CandidateOf, Accepted;
    assert sorted[0] in sorted;
    if |sorted| > 1 && TooClose(sorted[0], sorted[1]) {
      assert sorted[1] in sorted;
      assert Before(sorted[0], sorted[1]);
      assert sorted[1].game != sorted[0].game;
    }
    if Contested(ref, sb, sorted[0].game) {
      var j: nat :| j < |ref.games| && j != sorted[0].game && Accepted(ref, sb, j) && TooClose(sorted[0], CandidateOf(ref, sb, j));
      var q :| 0 <= q < |sorted| && sorted[q] == CandidateOf(ref, sb, j);
      assert q == 1 || Before(sorted[1], sorted[q]);
      assert Before(sorted[0], sorted[1]);
    }
  }

  /** Every game with the signature is listed under its team pair. */
  lemma OnlyIndexed(ref: Reference, sb: Statsbook, home: int, away: int, byPair: map<(int, int), seq<nat>>, indices: seq<nat>)
    requires ref.Valid() && IndexedBy(byPair, PairKeys(ref), |ref.games|)
    requires var key := Unordered(home, away); if key in byPair then indices == byPair[key] else indices == []
    ensures forall i: nat :: i < |ref.games| && HasSignature(ref, sb, home, away, i) ==> i in indices
  {
    forall i: nat | i < |ref.games| && HasSignature(ref, sb, home, away, i) ensures i in indices {
      assert PairKeys(ref)[i] == Unordered(home, away);
    }
  }

  /** `seen` are the games with the signature among the first `k` listed. */
  ghost predicate Seen(ref: Reference, sb: Statsbook, home: int, away: int, indices: seq<nat>, k: nat, seen: set<nat>)
    requires ref.Valid() && k <= |indices|
    requires forall p :: 0 <= p < |indices| ==> indices[p] < |ref.games|
  {
    && (forall p :: 0 <= p < k && HasSignature(ref, sb, home, away, indices[p]) ==> indices[p] in seen)
    && (forall i: nat :: i in seen ==> i < |ref.games| && HasSignature(ref, sb, home, away, i))
    && (forall i: nat, p :: i in seen && k <= p < |indices| ==> i < indices[p])
  }

  lemma SeenStep(ref: Reference, sb: Statsbook, home: int, away: int, indices: seq<nat>, k: nat, seen: set<nat>)
    requires ref.Valid() && k < |indices| && Lists(indices, PairKeys(ref), Unordered(home, away), |ref.games|)
    requires Seen(ref, sb, home, away, indices, k, seen)
    ensures var g := ref.games[indices[k]];
            && indices[k] !in seen
            && Seen(ref, sb, home, away, indices, k + 1,
                 if Unordered(g.score1, g.score2) == Unordered(sb.homeScore, sb.awayScore)
                    && Abs(g.date - sb.date) <= SIGNATURE_DATE_RADIUS_DAYS
                 then seen + {indices[k]} else seen)
  {
    assert PairKeys(ref)[indices[k]] == Unordered(home, away);
  }

  lemma NoSignature(ref: Reference, sb: Statsbook)
    requires ref.Valid()
    ensures SideOf(ref.teams, sb.home).None? || SideOf(ref.teams, sb.away).None? ==> BySignature(ref, sb).None?
    ensures SideOf(ref.teams, sb.home).Some? && SideOf(ref.teams, sb.away).Some? &&
            (forall i: nat :: !IsNearest(ref, sb, SideOf(ref.teams, sb.home).value.0, SideOf(ref.teams, sb.away).value.0, i))
            ==> BySignature(ref, sb).None?
  {
    hide SideOf, PairMatch, IsNearest;
  }

  /** `best` is a nearest game of `seen`, and `tied` says whether another is as near. */
  ghost predicate NearestOf(games: seq<Game>, date: int, seen: set<nat>, best: Option<(nat, nat)>, tied: bool) {
    && (forall i: nat :: i in seen ==> i < |games|)
    && (best.None? ==> seen == {} && !tied)
    && (best.Some? ==>
          && best.value.1 in seen && best.value.0 == Abs(games[best.value.1].date - date)
          && (forall i: nat :: i in seen ==> best.value.0 <= Abs(games[i].date - date))
          && (tied <==> exists i: nat :: i in seen && i != best.value.1 && Abs(games[i].date - date) == best.value.0))
  }

  lemma NearestStep(games: seq<Game>, date: int, seen: set<nat>, best: Option<(nat, nat)>, tied: bool, gi: nat)
    requires NearestOf(games, date, seen, best, tied) && gi < |games| && gi !in seen
    ensures var days := Abs(games[gi].date - date);
            if best.None? || days < best.value.0 then NearestOf(games, date, seen + {gi}, Some((days, gi)), false)
            else NearestOf(games, date, seen + {gi}, best, tied || days == best.value.0)
  {
    if best.Some? && !tied && Abs(games[gi].date - date) == best.value.0 {
      assert gi in seen + {gi} && gi != best.value.1;
    }
  }

  lemma StartNearest(ref: Reference, sb: Statsbook, home: int, away: int, byPair: map<(int, int), seq<nat>>, indices: seq<nat>)
    requires ref.Valid() && IndexedBy(byPair, PairKeys(ref), |ref.games|)
    requires Unordered(home, away) in byPair && indices == byPair[Unordered(home, away)]
    ensures Lists(indices, PairKeys(ref), Unordered(home, away), |ref.games|)
    ensures forall p :: 0 <= p < |indices| ==> indices[p] < |ref.games|
    ensures Seen(ref, sb, home, away, indices, 0, {}) && NearestOf(ref.games, sb.date, {}, None, false)
  {
    hide HasSignature;
  }

  lemma NearestDone(ref: Reference, sb: Statsbook, home: int, away: int, byPair: map<(int, int), seq<nat>>, indices: seq<nat>,
    seen: set<nat>, best: Option<(nat, nat)>, tied: bool)
    requires ref.Valid() && IndexedBy(byPair, PairKeys(ref), |ref.games|)
    requires Unordered(home, away) in byPair && indices == byPair[Unordered(home, away)]
    requires forall p :: 0 <= p < |indices| ==> indices[p] < |ref.games|
    requires Seen(ref, sb, home, away, indices, |indices|, seen) && NearestOf(ref.games, sb.date, seen, best, tied)
    ensures best.Some? && !tied ==> best.value.1 < |ref.games| && IsNearest(ref, sb, home, away, best.value.1)
    ensures best.None? || tied ==> forall i: nat :: !IsNearest(ref, sb, home, away, i)
  {
    OnlyIndexed(ref, sb, home, away, byPair, indices);
    hide HasSignature, IndexedBy;
  }

  lemma SideOfIs(teams: seq<Team>, side: TrigramSet, best: Option<(int, real)>, at: nat)
    requires best.Some? ==> IsBestTeam(teams, side, at) && best.value == (teams[at].id, Similarity(side, teams[at].trigrams))
    requires best.None? ==> forall j {:trigger teams[j]} ::
               0 <= j < |teams| ==> Similarity(side, teams[j].trigrams) < SIDE_MATCH_THRESHOLD
    ensures best == SideOf(teams, side)
  {
    hide Similarity;
    if best.Some? {
      var k: nat :| IsBestTeam(teams, side, k) && SideOf(teams, side) == Some((teams[k].id, Similarity(side, teams[k].trigrams)));
      BestTeamUnique(teams, side, k, at);
    }
  }
}
