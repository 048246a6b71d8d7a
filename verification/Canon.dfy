/** Trigram sets and their Jaccard similarity (src/canon.rs). */
module Canon {
  import opened Text

  datatype Gram = Gram(a: char, b: char, c: char)

  predicate GramLess(x: Gram, y: Gram) {
    x.a < y.a || (x.a == y.a && (x.b < y.b || (x.b == y.b && x.c < y.c)))
  }

  predicate StrictlySorted(s: seq<Gram>) {
    forall i, j :: 0 <= i < j < |s| ==> GramLess(s[i], s[j])
  }

  type TrigramSet = s: seq<Gram> | StrictlySorted(s)

  function Elems(s: seq<Gram>): set<Gram> { set g | g in s }

  lemma {:induction false} ElemsSize(s: seq<Gram>)
    requires StrictlySorted(s)
    ensures |Elems(s)| == |s|
  {
    if s != [] {
      var n := |s| - 1;
      ElemsSize(s[..n]);
      assert Elems(s) == Elems(s[..n]) + {s[n]};
    }
  }

  /** A trigram set is determined by its elements, so a side name that is the
      key of a memo table determines the trigrams it stands for. */
  lemma {:induction false} SortedUnique(s: TrigramSet, t: TrigramSet)
    requires Elems(s) == Elems(t)
    ensures s == t
  {
    ElemsSize(s);
    ElemsSize(t);
    if s != [] {
      var n := |s| - 1;
      LastIsGreatest(s);
      LastIsGreatest(t);
      assert s[n] in Elems(s) && t[n] in Elems(t);
      assert s[n] == t[n];
      assert Elems(s[..n]) == Elems(s) - {s[n]};
      assert Elems(t[..n]) == Elems(t) - {t[n]};
      SortedUnique(s[..n], t[..n]);
      assert s == s[..n] + [s[n]] && t == t[..n] + [t[n]];
    }
  }

  lemma LastIsGreatest(s: TrigramSet)
    requires s != []
    ensures forall g :: g in Elems(s) ==> g == s[|s| - 1] || GramLess(g, s[|s| - 1])
  {}

  // ---------- which trigrams a name has ----------

  predicate IsWordChar(c: char) { 'a' <= c <= 'z' || '0' <= c <= '9' }

  /** The character `back` places before position `i`, or a padding blank when
      the word that holds `i` starts later than that. */
  function Look(t: string, i: nat, back: nat): char
    requires i < |t|
  {
    if back == 0 then t[i]
    else if i == 0 || !IsWordChar(t[i - 1]) then ' '
    else Look(t, i - 1, back - 1)
  }

  predicate EndsWord(t: string, i: nat)
    requires i < |t|
  {
    i + 1 == |t| || !IsWordChar(t[i + 1])
  }

  /** The trigram that ends at the word character `p`. */
  function MidGram(t: string, p: nat): Gram
    requires p < |t|
  {
    Gram(Look(t, p, 2), Look(t, p, 1), t[p])
  }

  /** The trigram that closes the word ending at `p`. */
  function EndGram(t: string, p: nat): Gram
    requires p < |t|
  {
    Gram(Look(t, p, 1), t[p], ' ')
  }

  ghost predicate GramAt(t: string, p: nat, g: Gram) {
    p < |t| && IsWordChar(t[p]) && (g == MidGram(t, p) || (EndsWord(t, p) && g == EndGram(t, p)))
  }

  ghost predicate GramIn(t: string, from: nat, to: nat, g: Gram) {
    exists p: nat :: from <= p < to && GramAt(t, p, g)
  }

  /** `g` is a window of some padded word of `t`. */
  ghost predicate IsGramOf(t: string, g: Gram) { GramIn(t, 0, |t|, g) }

  /** `ts` is what `TrigramSet::new(name)` builds. */
  ghost predicate BuiltFrom(ts: TrigramSet, name: string) {
    forall g :: g in Elems(ts) <==> IsGramOf(Lower(name), g)
  }

  lemma BuiltFromUnique(s: TrigramSet, t: TrigramSet, name: string)
    requires BuiltFrom(s, name) && BuiltFrom(t, name)
    ensures s == t
  {
    assert Elems(s) == Elems(t);
    SortedUnique(s, t);
  }

  /** Position just after the word that starts at `i`. */
  function WordEnd(t: string, i: nat): (e: nat)
    requires i <= |t|
    ensures i <= e <= |t|
    ensures forall k :: i <= k < e ==> IsWordChar(t[k])
    ensures e == |t| || !IsWordChar(t[e])
    decreases |t| - i
  {
    if i < |t| && IsWordChar(t[i]) then WordEnd(t, i + 1) else i
  }

  /** Inserts into a sorted list unless already present: what sorting and
      removing adjacent duplicates do for one more element. */
  method InsertGram(s: TrigramSet, g: Gram) returns (r: TrigramSet)
    ensures Elems(r) == Elems(s) + {g}
  {
    var k := 0;
    while k < |s| && GramLess(s[k], g)
      invariant k <= |s| && forall j :: 0 <= j < k ==> GramLess(s[j], g)
    {
      k := k + 1;
    }
    if k < |s| && s[k] == g {
      return s;
    }
    var out := s[..k] + [g] + s[k..];
    assert forall j :: k <= j < |s| ==> GramLess(g, s[j]);
    assert forall x :: x in out <==> x in s[..k] || x == g || x in s[k..];
    assert s == s[..k] + s[k..];
    r := out;
  }

  method Trigrams(name: string) returns (grams: TrigramSet)
    ensures BuiltFrom(grams, name)
  {
    var t := Lower(name);
    grams := [];
    var i := 0;
    while i < |t|
      invariant 0 <= i <= |t|
      invariant i == 0 || i == |t| || !IsWordChar(t[i - 1]) || !IsWordChar(t[i])
      invariant forall g :: g in Elems(grams) <==> GramIn(t, 0, i, g)
    {
      var e := WordEnd(t, i);
      if e > i {
        grams := AddWord(grams, t, i, e);
        GramInSplit(t, i, e);
        i := e;
      } else {
        GramInSplit(t, i, i + 1);
        i := i + 1;
      }
    }
  }

  lemma GramInSplit(t: string, i: nat, e: nat)
    requires i <= e
    ensures forall g :: GramIn(t, 0, e, g) <==> GramIn(t, 0, i, g) || GramIn(t, i, e, g)
  {}

  /** Pads one word and adds its windows. */
  method AddWord(grams: TrigramSet, t: string, i: nat, e: nat) returns (r: TrigramSet)
    requires IsWord(t, i, e)
    ensures forall g :: g in Elems(r) <==> g in Elems(grams) || GramIn(t, i, e, g)
  {
    var padded := [' ', ' '] + t[i..e] + [' '];
    r := grams;
    var k := 0;
    while k < |padded| - 2
      invariant 0 <= k <= |padded| - 2
      invariant forall g :: g in Elems(r) <==> g in Elems(grams) || HasWindow(padded, k, g)
    {
      r := InsertGram(r, Gram(padded[k], padded[k + 1], padded[k + 2]));
      HasWindowStep(padded, k);
      k := k + 1;
    }
    forall g ensures HasWindow(padded, k, g) <==> GramIn(t, i, e, g) {
      WindowIsGram(t, i, e, padded, k, g);
      GramIsWindow(t, i, e, padded, k, g);
    }
  }

  ghost predicate IsWord(t: string, i: nat, e: nat) {
    && i < e <= |t| && (i == 0 || !IsWordChar(t[i - 1])) && (e == |t| || !IsWordChar(t[e]))
    && forall k :: i <= k < e ==> IsWordChar(t[k])
  }

  function Window(padded: string, w: nat): Gram
    requires w + 2 < |padded|
  {
    Gram(padded[w], padded[w + 1], padded[w + 2])
  }

  ghost predicate HasWindow(padded: string, n: nat, g: Gram) {
    exists w: nat :: w < n && w + 2 < |padded| && Window(padded, w) == g
  }

  lemma HasWindowStep(padded: string, k: nat)
    requires k + 2 < |padded|
    ensures forall g :: HasWindow(padded, k + 1, g) <==> HasWindow(padded, k, g) || g == Window(padded, k)
  {}

  lemma LookInWord(t: string, i: nat, e: nat, p: nat, back: nat)
    requires IsWord(t, i, e) && i <= p < e
    ensures Look(t, p, back) == if p - back >= i then t[p - back] else ' '
  {}

  lemma WindowAt(t: string, i: nat, e: nat, padded: string, p: nat)
    requires IsWord(t, i, e) && i <= p < e
    requires padded == [' ', ' '] + t[i..e] + [' ']
    ensures Window(padded, p - i) == MidGram(t, p)
    ensures p == e - 1 ==> Window(padded, p - i + 1) == EndGram(t, p)
  {
    LookInWord(t, i, e, p, 1);
    LookInWord(t, i, e, p, 2);
  }

  lemma WindowIsGram(t: string, i: nat, e: nat, padded: string, n: nat, g: Gram)
    requires IsWord(t, i, e) && padded == [' ', ' '] + t[i..e] + [' ']
    requires n == |padded| - 2
    ensures HasWindow(padded, n, g) ==> GramIn(t, i, e, g)
  {
    if HasWindow(padded, n, g) {
      var w: nat :| w < n && Window(padded, w) == g;
      var p := if w < e - i then i + w else e - 1;
      WindowAt(t, i, e, padded, p);
      assert GramAt(t, p, g);
    }
  }

  lemma GramIsWindow(t: string, i: nat, e: nat, padded: string, n: nat, g: Gram)
    requires IsWord(t, i, e) && padded == [' ', ' '] + t[i..e] + [' ']
    requires n == |padded| - 2
    ensures GramIn(t, i, e, g) ==> HasWindow(padded, n, g)
  {
    if GramIn(t, i, e, g) {
      var p: nat :| i <= p < e && GramAt(t, p, g);
      WindowAt(t, i, e, padded, p);
      assert g == Window(padded, p - i) || (p == e - 1 && g == Window(padded, p - i + 1));
    }
  }

  /** A word of the name: letters and digits as far as they go. */
  ghost predicate IsRun(name: string, i: nat, e: nat) {
    && i < e <= |name| && (forall k | i <= k < e :: LetterOrDigit(name[k]))
    && (i == 0 || !LetterOrDigit(name[i - 1])) && (e == |name| || !LetterOrDigit(name[e]))
  }

  /** Three neighbours in a lower-cased word with two blanks before and one after. */
  ghost predicate IsPaddedWindow(name: string, i: nat, e: nat, w: nat, g: Gram) {
    && IsRun(name, i, e) && w < e - i + 1
    && var padded := "  " + Lower(name[i..e]) + " "; g == Gram(padded[w], padded[w + 1], padded[w + 2])
  }

  /** The trigrams of a name are the windows of its words. */
  lemma GramsExactly(name: string, g: Gram)
    ensures IsGramOf(Lower(name), g) <==> exists i: nat, e: nat, w: nat :: IsPaddedWindow(name, i, e, w, g)
  {
    var t := Lower(name);
    if IsGramOf(t, g) {
      var p: nat :| p < |t| && GramAt(t, p, g);
      var i, e := WordAround(t, p);
      RunIsWord(name, i, e);
      GramIsWindow(t, i, e, "  " + t[i..e] + " ", e - i + 1, g);
      assert GramIn(t, i, e, g);
      var w: nat :| w < e - i + 1 && Window("  " + t[i..e] + " ", w) == g;
      assert IsPaddedWindow(name, i, e, w, g);
    }
    if i: nat, e: nat, w: nat :| IsPaddedWindow(name, i, e, w, g) {
      RunIsWord(name, i, e);
      var padded := "  " + t[i..e] + " ";
      assert Window(padded, w) == g;
      WindowIsGram(t, i, e, padded, e - i + 1, g);
    }
  }

  lemma RunIsWord(name: string, i: nat, e: nat)
    ensures IsRun(name, i, e) <==> IsWord(Lower(name), i, e)
    ensures i <= e <= |name| ==> Lower(name)[i..e] == Lower(name[i..e])
  {
    assert forall k | 0 <= k < |name| :: LetterOrDigit(name[k]) <==> IsWordChar(Lower(name)[k]);
  }

  lemma WordAround(t: string, p: nat) returns (i: nat, e: nat)
    requires p < |t| && IsWordChar(t[p])
    ensures IsWord(t, i, e) && i <= p < e
  {
    i, e := p, WordEnd(t, p);
    while i > 0 && IsWordChar(t[i - 1])
      invariant i <= p && forall k | i <= k < e :: IsWordChar(t[k])
    {
      i := i - 1;
    }
  }

  // ---------- Jaccard similarity ----------

  function Jaccard(a: set<Gram>, b: set<Gram>): real
  {
    if a == {} || b == {} then 0.0
    else
      assert a <= a + b;
      UnionSize(a, b);
      |a * b| as real / |a + b| as real
  }

  function Similarity(a: TrigramSet, b: TrigramSet): real {
    Jaccard(Elems(a), Elems(b))
  }

  lemma UnionSize(a: set<Gram>, b: set<Gram>)
    ensures |a + b| == |a| + |b| - |a * b|
    ensures a != {} ==> |a + b| > 0
  {
    if a != {} { var x :| x in a; assert x in a + b; }
  }

  /** The two-pointer merge of two sorted lists: how many elements they share. */
  method CountCommon(a: TrigramSet, b: TrigramSet) returns (intersection: nat)
    ensures intersection == |Elems(a) * Elems(b)|
  {
    var i: nat, j: nat := 0, 0;
    intersection := 0;
    while i < |a| && j < |b|
      invariant i <= |a| && j <= |b| && Merged(a, b, i, j, intersection)
      decreases |a| - i + |b| - j
    {
      if a[i] == b[j] {
        MergeCommon(a, b, i, j, intersection);
        intersection := intersection + 1;
        i := i + 1;
        j := j + 1;
      } else if GramLess(a[i], b[j]) {
        MergeLess(a, b, i, j, intersection);
        i := i + 1;
      } else {
        MergeGreater(a, b, i, j, intersection);
        j := j + 1;
      }
    }
    MergeDone(a, b, i, j, intersection);
  }

  method TrigramSimilarity(a: TrigramSet, b: TrigramSet) returns (r: real)
    ensures r == Similarity(a, b)
  {
    ElemsSize(a);
    ElemsSize(b);
    if |a| == 0 || |b| == 0 {
      return 0.0;
    }
    var intersection := CountCommon(a, b);
    RatioOfCounts(Elems(a), Elems(b), intersection);
    var union := |a| + |b| - intersection;
    r := intersection as real / union as real;
  }

  /** The merge has consumed `i` and `j` elements and counted the common ones. */
  ghost predicate Merged(a: seq<Gram>, b: seq<Gram>, i: nat, j: nat, n: nat) {
    && i <= |a| && j <= |b| && n == |ElemsTo(a, i) * ElemsTo(b, j)|
    && Below(ElemsTo(a, i), b, j) && Below(ElemsTo(b, j), a, i)
  }

  lemma MergeCommon(a: seq<Gram>, b: seq<Gram>, i: nat, j: nat, n: nat)
    requires StrictlySorted(a) && StrictlySorted(b)
    requires i < |a| && j < |b| && Merged(a, b, i, j, n) && a[i] == b[j]
    ensures Merged(a, b, i + 1, j + 1, n + 1)
  {
    StepCommon(a, b, i, j, ElemsTo(a, i), ElemsTo(b, j));
  }

  lemma MergeLess(a: seq<Gram>, b: seq<Gram>, i: nat, j: nat, n: nat)
    requires StrictlySorted(a) && StrictlySorted(b)
    requires i < |a| && j < |b| && Merged(a, b, i, j, n) && GramLess(a[i], b[j])
    ensures Merged(a, b, i + 1, j, n)
  {
    StepLone(a, b, i, j, ElemsTo(a, i), ElemsTo(b, j));
  }

  lemma MergeGreater(a: seq<Gram>, b: seq<Gram>, i: nat, j: nat, n: nat)
    requires StrictlySorted(a) && StrictlySorted(b)
    requires i < |a| && j < |b| && Merged(a, b, i, j, n) && a[i] != b[j] && !GramLess(a[i], b[j])
    ensures Merged(a, b, i, j + 1, n)
  {
    StepLone(b, a, j, i, ElemsTo(b, j), ElemsTo(a, i));
  }

  /** Everything in `seen` precedes what is left of `s` from `k` on. */
  ghost predicate Below(seen: set<Gram>, s: seq<Gram>, k: nat) {
    forall x, q :: x in seen && k <= q < |s| ==> GramLess(x, s[q])
  }

  /** Both heads are the same trigram. */
  lemma StepCommon(a: seq<Gram>, b: seq<Gram>, i: nat, j: nat, seenA: set<Gram>, seenB: set<Gram>)
    requires StrictlySorted(a) && StrictlySorted(b)
    requires i < |a| && j < |b| && a[i] == b[j]
    requires Below(seenA, b, j) && Below(seenB, a, i)
    ensures |(seenA + {a[i]}) * (seenB + {b[j]})| == |seenA * seenB| + 1
    ensures Below(seenA + {a[i]}, b, j + 1) && Below(seenB + {b[j]}, a, i + 1)
  {
    AddCommon(seenA, seenB, a[i]);
  }

  /** The head of `a` is in neither what is left nor what is seen of `b`. */
  lemma StepLone(a: seq<Gram>, b: seq<Gram>, i: nat, j: nat, seenA: set<Gram>, seenB: set<Gram>)
    requires StrictlySorted(a) && StrictlySorted(b)
    requires i < |a| && j < |b| && GramLess(a[i], b[j])
    requires Below(seenA, b, j) && Below(seenB, a, i)
    ensures (seenA + {a[i]}) * seenB == seenA * seenB
    ensures seenB * (seenA + {a[i]}) == seenB * seenA
    ensures Below(seenA + {a[i]}, b, j) && Below(seenB, a, i + 1)
  {
    assert a[i] !in seenB;
  }

  lemma MergeDone(a: seq<Gram>, b: seq<Gram>, i: nat, j: nat, n: nat)
    requires (i == |a| || j == |b|) && Merged(a, b, i, j, n)
    ensures n == |Elems(a) * Elems(b)|
  {
    ElemsToMembers(a, i);
    ElemsToMembers(b, j);
    forall p, q | 0 <= p < |a| && 0 <= q < |b| && a[p] == b[q] ensures p < i && q < j {
      assert p < i ==> a[p] in ElemsTo(a, i);
      assert q < j ==> b[q] in ElemsTo(b, j);
    }
    assert ElemsTo(a, i) * ElemsTo(b, j) == Elems(a) * Elems(b);
  }

  /** The elements of the first `n` entries. */
  function ElemsTo(s: seq<Gram>, n: nat): set<Gram>
    requires n <= |s|
  {
    if n == 0 then {} else ElemsTo(s, n - 1) + {s[n - 1]}
  }

  lemma ElemsToMembers(s: seq<Gram>, n: nat)
    requires n <= |s|
    ensures forall x :: x in ElemsTo(s, n) <==> exists k :: 0 <= k < n && s[k] == x
  {}

  /** The ratio the merge computes from three counts. */
  lemma RatioOfCounts(a: set<Gram>, b: set<Gram>, n: nat)
    requires a != {} && b != {} && n == |a * b|
    ensures n < |a| + |b|
    ensures n as real / (|a| + |b| - n) as real == Jaccard(a, b)
  {
    UnionSize(a, b);
  }

  lemma AddCommon(p: set<Gram>, q: set<Gram>, x: Gram)
    requires x !in p && x !in q
    ensures |(p + {x}) * (q + {x})| == |p * q| + 1
  {
    assert (p + {x}) * (q + {x}) == p * q + {x};
  }

  lemma JaccardSymmetric(a: set<Gram>, b: set<Gram>)
    ensures Jaccard(a, b) == Jaccard(b, a)
  {
    assert a * b == b * a && a + b == b + a;
  }

  lemma JaccardRange(a: set<Gram>, b: set<Gram>)
    ensures 0.0 <= Jaccard(a, b) <= 1.0
    ensures Jaccard(a, b) == 1.0 <==> a == b && a != {}
    ensures Jaccard(a, b) == 0.0 <==> a !! b
  {
    assert a * b == {} <==> a !! b;
    if a != {} && b != {} {
      UnionSize(a, b);
      SubsetSize(a * b, a + b);
      Quotient(|a * b|, |a + b|);
      assert |a * b| == 0 <==> a * b == {};
    }
  }

  lemma SubsetSize(a: set<Gram>, b: set<Gram>)
    requires a <= b
    ensures |a| <= |b| && (|a| == |b| <==> a == b)
  {
    assert b == a + (b - a);
  }

  lemma Quotient(p: nat, q: nat)
    requires p <= q && 0 < q
    ensures 0.0 <= p as real / q as real <= 1.0
    ensures p as real / q as real == 1.0 <==> p == q
    ensures p as real / q as real == 0.0 <==> p == 0
  {}

  /** Jaccard distance obeys the triangle inequality. */
  lemma JaccardTriangle(a: set<Gram>, b: set<Gram>, c: set<Gram>)
    ensures 1.0 - Jaccard(a, c) <= (1.0 - Jaccard(a, b)) + (1.0 - Jaccard(b, c))
  {
    JaccardRange(a, b);
    JaccardRange(b, c);
    JaccardRange(a, c);
    if a != {} && b != {} && c != {} {
      // Compare the three fractions over the size of the whole union.
      var n := |a + b + c|;
      var ab, bc, ac := |a * b|, |b * c|, |a * c|;
      var oa, ob, oc := |a - b - c|, |b - a - c|, |c - a - b|;
      PairsFit(a, b, c);
      assert n == |a + b| + oc by { OutsideSize(a, b, c); }
      assert n == |b + c| + oa by { OutsideSize(b, c, a); assert b + c + a == a + b + c; }
      assert n == |a + c| + ob by { OutsideSize(a, c, b); assert a + c + b == a + b + c && b - a - c == b - c - a; }
      SubsetSize(a * b, a + b);
      SubsetSize(b * c, b + c);
      NonEmptyUnions(a, b, c);
      AddToBoth(ab, |a + b|, oc);
      AddToBoth(bc, |b + c|, oa);
      AddBelow(ac, |a + c|, ob);
      OverCommon(ab + oc, bc + oa, ac, n);
    }
  }

  /** Two names as close to one team as the side threshold demands are at least
      half similar to each other. */
  lemma SameTeamNamesAreClose(x: TrigramSet, y: TrigramSet, team: TrigramSet)
    requires Similarity(x, team) >= 0.75 && Similarity(y, team) >= 0.75
    ensures Similarity(x, y) >= 0.5
  {
    JaccardTriangle(Elems(x), Elems(team), Elems(y));
    JaccardSymmetric(Elems(y), Elems(team));
  }

  lemma OutsideSize(a: set<Gram>, b: set<Gram>, c: set<Gram>)
    ensures |a + b + c| == |a + b| + |c - a - b|
  {
    assert a + b + c == (a + b) + (c - a - b);
  }

  /** What either pair shares, with what lies outside the middle set, fits in the union. */
  lemma PairsFit(a: set<Gram>, b: set<Gram>, c: set<Gram>)
    ensures |a * b| + |b * c| + |c - a - b| + |a - b - c| <= |a + b + c| + |a * c|
  {
    SharedFit(a, b, c);
    DisjointParts(a * b + b * c, c - a - b, a - b - c, a + b + c);
  }

  lemma SharedFit(a: set<Gram>, b: set<Gram>, c: set<Gram>)
    ensures |a * b| + |b * c| <= |a * b + b * c| + |a * c|
  {
    UnionSize(a * b, b * c);
    SubsetSize((a * b) * (b * c), a * c);
  }

  lemma DisjointParts(p: set<Gram>, q: set<Gram>, r: set<Gram>, whole: set<Gram>)
    requires p !! q && p !! r && q !! r && p + q + r <= whole
    ensures |p| + |q| + |r| <= |whole|
  {
    SubsetSize(p + q + r, whole);
  }

  lemma NonEmptyUnions(a: set<Gram>, b: set<Gram>, c: set<Gram>)
    requires a != {} && b != {}
    ensures |a + b| > 0 && |b + c| > 0 && |a + c| > 0
  {
    UnionSize(a, b);
    UnionSize(b, c);
    UnionSize(a, c);
  }

  lemma AddToBoth(p: nat, q: nat, x: nat)
    requires p <= q && 0 < q
    ensures p as real / q as real <= (p + x) as real / (q + x) as real
  {
    CrossMultiply(p, q, p + x, q + x);
  }

  lemma AddBelow(p: nat, q: nat, x: nat)
    requires 0 < q
    ensures p as real / (q + x) as real <= p as real / q as real
  {
    CrossMultiply(p, q + x, p, q);
  }

  lemma CrossMultiply(p: nat, q: nat, r: nat, s: nat)
    requires 0 < q && 0 < s && p * s <= r * q
    ensures p as real / q as real <= r as real / s as real
  {
    var x, y := p as real / q as real, r as real / s as real;
    assert x * q as real == p as real && y * s as real == r as real;
    assert (p * s) as real == p as real * s as real && (r * q) as real == r as real * q as real;
    assert x * (q as real * s as real) <= y * (q as real * s as real);
  }

  lemma OverCommon(x: nat, y: nat, z: nat, n: nat)
    requires 0 < n && x + y <= n + z
    ensures x as real / n as real + y as real / n as real <= 1.0 + z as real / n as real
  {
    var k := 1.0 / n as real;
    assert (x + y) as real / n as real <= (n + z) as real / n as real;
  }

  // ---------- canonical names ----------

  predicate IsAlphanumeric(c: char) { 'a' <= c <= 'z' || 'A' <= c <= 'Z' || IsDigit(c) }

  /** Lower-cased letters and digits only. */
  function CanonicalizeLeague(s: string): string {
    if s == [] then []
    else (if IsAlphanumeric(s[0]) then [LowerChar(s[0])] else []) + CanonicalizeLeague(s[1..])
  }

  /** The words of a text, split at white space. */
  function Words(s: string): seq<string>
    decreases |s|
  {
    if s == [] then []
    else if IsSpace(s[0]) then Words(s[1..])
    else [s[..WordLength(s)]] + Words(s[WordLength(s)..])
  }

  function WordLength(s: string): (n: nat)
    ensures n <= |s| && (s != [] && !IsSpace(s[0]) ==> n > 0)
  {
    if s == [] || IsSpace(s[0]) then 0 else 1 + WordLength(s[1..])
  }

  /** The words not in the league's name, whatever the case, with blanks between. */
  function OtherWords(words: seq<string>, league: set<string>): string {
    if words == [] then []
    else
      var rest := OtherWords(words[1..], league);
      if Lower(words[0]) in league then rest
      else if rest == [] then words[0] else words[0] + " " + rest
  }

  function LowerWords(s: string): set<string> { set w | w in Words(s) :: Lower(w) }

  function CanonicalizeTeam(league: Option<string>, team: string): string {
    var leagueWords := LowerWords(if league.Some? then league.value else "");
    var result := CanonicalizeLeague(OtherWords(Words(team), leagueWords));
    if result == [] then CanonicalizeLeague(team) else result
  }

  /** Wherever it stands, a letter counts in lower case, a digit as it is, and
      nothing else counts. */
  lemma {:induction false} CanonicalExactly(s: string, c: char, t: string)
    ensures CanonicalizeLeague(s + [c] + t) == CanonicalizeLeague(s) + CanonicalizeLeague([c]) + CanonicalizeLeague(t)
    ensures CanonicalizeLeague([c]) ==
      if 97 <= c as int <= 122 || 48 <= c as int <= 57 then [c] else if 65 <= c as int <= 90 then [(c as int + 32) as char] else []
    ensures CanonicalizeLeague([]) == []
  {
    CanonicalAppends(s + [c], t);
    CanonicalAppends(s, [c]);
    assert [c] == [c] + [] && [c][1..] == [];
  }

  lemma {:induction false} CanonicalAppends(s: string, t: string)
    ensures CanonicalizeLeague(s + t) == CanonicalizeLeague(s) + CanonicalizeLeague(t)
  {
    if s == [] {
      assert s + t == t;
    } else {
      assert (s + t)[1..] == s[1..] + t;
      CanonicalAppends(s[1..], t);
    }
  }

  // ---------- which words of a team name count ----------

  /** The words one after the other, each in canonical form. */
  function CanonicalWords(words: seq<string>): string {
    if words == [] then [] else CanonicalizeLeague(words[0]) + CanonicalWords(words[1..])
  }

  lemma {:induction false} WordsAreSolid(s: string)
    ensures forall w | w in Words(s) :: w != [] && forall i | 0 <= i < |w| :: !IsSpace(w[i])
    ensures CanonicalWords(Words(s)) == CanonicalizeLeague(s)
    decreases |s|
  {
    if s != [] && IsSpace(s[0]) {
      WordsAreSolid(s[1..]);
    } else if s != [] {
      var n := WordLength(s);
      WordIsSolid(s);
      WordsAreSolid(s[n..]);
      CanonicalAppends(s[..n], s[n..]);
      assert s == s[..n] + s[n..];
      hide CanonicalizeLeague, IsSpace, WordLength;
      assert Words(s) == [s[..n]] + Words(s[n..]);
    }
  }

  lemma {:induction false} WordIsSolid(s: string)
    ensures forall i | 0 <= i < WordLength(s) :: !IsSpace(s[i])
    ensures WordLength(s) == |s| || IsSpace(s[WordLength(s)])
  {
    if s != [] && !IsSpace(s[0]) { WordIsSolid(s[1..]); }
  }

  /** White space, and only that, separates words. */
  lemma {:induction false} WordsExactly(s: string, c: char, t: string)
    ensures IsSpace(c) ==> Words(s + [c] + t) == Words(s) + Words(t)
    ensures t != [] && (forall i | 0 <= i < |t| :: !IsSpace(t[i])) ==> Words(t) == [t]
    ensures Words([]) == []
    decreases |s|
  {
    hide IsSpace;
    if IsSpace(c) {
      var all := s + [c] + t;
      if s == [] {
        assert all[0] == c && all[1..] == t;
      } else if IsSpace(s[0]) {
        assert all[1..] == s[1..] + [c] + t;
        WordsExactly(s[1..], c, t);
      } else {
        WordStays(s, c, t);
        var n := WordLength(s);
        assert all[..n] == s[..n] && all[n..] == s[n..] + [c] + t;
        WordsExactly(s[n..], c, t);
      }
    }
    WordIsSolid(t);
    if t != [] && WordLength(t) == |t| { assert t[..|t|] == t && t[|t|..] == []; }
  }

  lemma {:induction false} WordStays(s: string, c: char, t: string)
    requires IsSpace(c)
    ensures WordLength(s + [c] + t) == WordLength(s)
  {
    hide IsSpace;
    var all := s + [c] + t;
    if s == [] {
      assert all[0] == c;
    } else {
      assert all[0] == s[0] && all[1..] == s[1..] + [c] + t;
      WordStays(s[1..], c, t);
    }
  }

  /** The words that are no words of the league, whatever the case. */
  ghost function OwnWords(words: seq<string>, league: string): seq<string> {
    if words == [] then []
    else if exists w :: w in Words(league) && Lower(w) == Lower(words[0]) then OwnWords(words[1..], league)
    else [words[0]] + OwnWords(words[1..], league)
  }

  /** A team name counts by its own words, or as a whole when these are without
      letters and digits. */
  lemma TeamExactly(league: Option<string>, team: string)
    ensures var own := CanonicalWords(OwnWords(Words(team), if league.Some? then league.value else ""));
      CanonicalizeTeam(league, team) == if own == [] then CanonicalizeLeague(team) else own
  {
    OtherCanonical(Words(team), if league.Some? then league.value else "");
    hide CanonicalizeLeague, CanonicalWords, OwnWords, Words, LowerWords, OtherWords;
  }

  lemma {:induction false} OtherCanonical(words: seq<string>, league: string)
    ensures CanonicalizeLeague(OtherWords(words, LowerWords(league))) == CanonicalWords(OwnWords(words, league))
  {
    hide CanonicalizeLeague, Words, Lower;
    if words == [] {
      CanonicalExactly([], ' ', []);
    } else {
      OtherCanonical(words[1..], league);
      JoinedCanonical(words[0], OtherWords(words[1..], LowerWords(league)));
      assert Lower(words[0]) in LowerWords(league) <==> exists w :: w in Words(league) && Lower(w) == Lower(words[0]);
      assert CanonicalWords([words[0]] + OwnWords(words[1..], league))
          == CanonicalizeLeague(words[0]) + CanonicalWords(OwnWords(words[1..], league)) by {
        assert ([words[0]] + OwnWords(words[1..], league))[1..] == OwnWords(words[1..], league);
      }
    }
  }

  lemma JoinedCanonical(word: string, rest: string)
    ensures CanonicalizeLeague(if rest == [] then word else word + " " + rest) == CanonicalizeLeague(word) + CanonicalizeLeague(rest)
  {
    CanonicalExactly(word, ' ', rest);
  }

  predicate Plain(s: string) { forall i | 0 <= i < |s| :: !IsAlphanumeric(s[i]) }

  lemma {:induction false} CanonicalEmpty(s: string)
    ensures CanonicalizeLeague(s) == [] <==> Plain(s)
  {
    if s != [] {
      CanonicalEmpty(s[1..]);
      assert Plain(s) <==> !IsAlphanumeric(s[0]) && Plain(s[1..]);
    }
  }

  lemma {:induction false} PlainWords(s: string)
    requires Plain(s)
    ensures forall w | w in Words(s) :: Plain(w)
    decreases |s|
  {
    if s != [] {
      if IsSpace(s[0]) { PlainWords(s[1..]); } else { PlainWords(s[WordLength(s)..]); }
    }
  }

  lemma {:induction false} PlainOtherWords(words: seq<string>, league: set<string>)
    requires forall w | w in words :: Plain(w)
    ensures Plain(OtherWords(words, league))
  {
    if words != [] {
      PlainOtherWords(words[1..], league);
      assert words[0] in words;
    }
  }

  /** A side without letters or digits has empty canonical forms throughout. */
  lemma EmptyCanonicals(league: string, team: string)
    requires CanonicalizeLeague(league + " " + team) == []
    ensures CanonicalizeLeague(league) == [] && forall l :: CanonicalizeTeam(l, team) == []
  {
    var joined := league + " " + team;
    CanonicalEmpty(joined);
    assert forall i | 0 <= i < |league| :: league[i] == joined[i];
    assert forall i | 0 <= i < |team| :: team[i] == joined[|league| + 1 + i];
    CanonicalEmpty(league);
    CanonicalEmpty(team);
    PlainWords(team);
    hide CanonicalizeLeague;
    forall l ensures CanonicalizeTeam(l, team) == [] {
      var leagueWords := LowerWords(if l.Some? then l.value else "");
      PlainOtherWords(Words(team), leagueWords);
      CanonicalEmpty(OtherWords(Words(team), leagueWords));
    }
  }
}
