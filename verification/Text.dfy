/** Strings as the readers and the file cache use them: decimal numerals, the
    lexicographic order of ids, trimming, and first-occurrence search; and the
    option, result and set-element idioms shared by all modules. */
module Text {

  datatype Option<+T> = None | Some(value: T)

  datatype Result<+T, +E> = Ok(value: T) | Err(error: E)

  lemma Member<T>(s: set<T>) returns (x: T)
    requires s != {}
    ensures x in s
  {
    x :| x in s;
  }

  // ---------- decimal numerals ----------

  predicate IsDigit(c: char) { '0' <= c <= '9' }

  function DigitChar(d: nat): (c: char)
    requires d < 10
    ensures IsDigit(c) && c as int - '0' as int == d
  {
    ('0' as int + d) as char
  }

  /** The decimal numeral of `n`, without leading zeros. */
  function Dec(n: nat): (s: string)
    ensures s != [] && forall i :: 0 <= i < |s| ==> IsDigit(s[i])
  {
    if n < 10 then [DigitChar(n)] else Dec(n / 10) + [DigitChar(n % 10)]
  }

  predicate AllDigits(s: string) { forall i :: 0 <= i < |s| ==> IsDigit(s[i]) }

  /** The number a string of digits denotes; the empty string denotes 0. */
  function DecValue(s: string): nat
    requires AllDigits(s)
  {
    if s == [] then 0 else DecValue(s[..|s| - 1]) * 10 + (s[|s| - 1] as int - '0' as int)
  }

  lemma {:induction false} DecRoundTrip(n: nat)
    ensures AllDigits(Dec(n)) && DecValue(Dec(n)) == n
  {
    if n < 10 {
      assert Dec(n)[..0] == [];
    } else {
      DecRoundTrip(n / 10);
      assert Dec(n)[..|Dec(n)| - 1] == Dec(n / 10);
    }
  }

  lemma DecInjective(m: nat, n: nat)
    requires Dec(m) == Dec(n)
    ensures m == n
  {
    DecRoundTrip(m);
    DecRoundTrip(n);
  }

  // ---------- the order of ids ----------

  /** Strict lexicographic order by code point. */
  predicate StrLess(a: string, b: string) {
    if b == [] then false
    else if a == [] then true
    else if a[0] != b[0] then a[0] < b[0]
    else StrLess(a[1..], b[1..])
  }

  lemma {:induction false} StrLessTotal(a: string, b: string)
    ensures a == b || StrLess(a, b) || StrLess(b, a)
  {
    if a != [] && b != [] && a[0] == b[0] {
      StrLessTotal(a[1..], b[1..]);
      assert a == [a[0]] + a[1..] && b == [b[0]] + b[1..];
    }
  }

  lemma {:induction false} StrLessIrreflexive(a: string)
    ensures !StrLess(a, a)
  {
    if a != [] { StrLessIrreflexive(a[1..]); }
  }

  lemma {:induction false} StrLessTransitive(a: string, b: string, c: string)
    requires StrLess(a, b) && StrLess(b, c)
    ensures StrLess(a, c)
  {
    if a != [] && a[0] == b[0] && b[0] == c[0] {
      StrLessTransitive(a[1..], b[1..], c[1..]);
    }
  }

  /** `a` runs out first, or has the smaller character where the two first differ. */
  lemma {:induction false} StrLessExactly(a: string, b: string)
    ensures StrLess(a, b) <==>
      exists k: nat :: k <= |a| && k < |b| && a[..k] == b[..k] && (k == |a| || a[k] < b[k])
  {
    if a == [] || b == [] || a[0] != b[0] {
      if b != [] { assert a[..0] == b[..0]; }
    } else {
      StrLessExactly(a[1..], b[1..]);
      if StrLess(a, b) {
        var k: nat :| k <= |a[1..]| && k < |b[1..]| && a[1..][..k] == b[1..][..k] && (k == |a[1..]| || a[1..][k] < b[1..][k]);
        assert a[..k + 1] == [a[0]] + a[1..][..k] && b[..k + 1] == [b[0]] + b[1..][..k];
      }
      if k: nat :| k <= |a| && k < |b| && a[..k] == b[..k] && (k == |a| || a[k] < b[k]) {
        assert a[1..][..k - 1] == a[..k][1..] && b[1..][..k - 1] == b[..k][1..];
      }
    }
  }

  // ---------- case and white space ----------

  /** The letters of either case and the digits, by code point. */
  predicate LetterOrDigit(c: char) { 65 <= c as int <= 90 || 97 <= c as int <= 122 || 48 <= c as int <= 57 }

  function LowerChar(c: char): char {
    if 'A' <= c <= 'Z' then (c as int + 32) as char else c
  }

  function Lower(s: string): (t: string)
    ensures |t| == |s| && forall i :: 0 <= i < |s| ==> t[i] == LowerChar(s[i])
  {
    seq(|s|, i requires 0 <= i < |s| => LowerChar(s[i]))
  }

  predicate IsSpace(c: char) {
    c == ' ' || '\t' <= c <= '\r' || c == '\U{0085}' || c == '\U{00A0}'
  }

  function TrimStart(s: string): string {
    if s != [] && IsSpace(s[0]) then TrimStart(s[1..]) else s
  }

  function TrimEnd(s: string): string {
    if s != [] && IsSpace(s[|s| - 1]) then TrimEnd(s[..|s| - 1]) else s
  }

  function Trim(s: string): string { TrimEnd(TrimStart(s)) }

  /** No white space at either end. */
  predicate Trimmed(s: string) {
    s == [] || (!IsSpace(s[0]) && !IsSpace(s[|s| - 1]))
  }

  lemma TrimmedFixed(s: string)
    requires Trimmed(s)
    ensures Trim(s) == s
  {}

  /** What is cut off are white space characters, by code point, as many as stand at either end. */
  lemma TrimExactly(s: string)
    ensures exists pre: string, post: string {:trigger pre + Trim(s) + post} ::
      && s == pre + Trim(s) + post && forall i | 0 <= i < |pre + post| :: (pre + post)[i] as int in {9, 10, 11, 12, 13, 32, 133, 160}
    ensures Trim(s) != "" ==> Trim(s)[0] as int !in {9, 10, 11, 12, 13, 32, 133, 160}
    ensures Trim(s) != "" ==> Trim(s)[|Trim(s)| - 1] as int !in {9, 10, 11, 12, 13, 32, 133, 160}
  {
    var pre := TrimmedStart(s);
    var post := TrimmedEnd(TrimStart(s));
    assert s == pre + Trim(s) + post;
  }

  lemma {:induction false} TrimmedStart(s: string) returns (pre: string)
    ensures s == pre + TrimStart(s) && forall i | 0 <= i < |pre| :: IsSpace(pre[i])
    ensures TrimStart(s) != "" ==> !IsSpace(TrimStart(s)[0])
  {
    pre := "";
    if s != "" && IsSpace(s[0]) {
      pre := TrimmedStart(s[1..]);
      pre := [s[0]] + pre;
    }
  }

  lemma {:induction false} TrimmedEnd(s: string) returns (post: string)
    ensures s == TrimEnd(s) + post && forall i | 0 <= i < |post| :: IsSpace(post[i])
    ensures TrimEnd(s) != "" ==> !IsSpace(TrimEnd(s)[|TrimEnd(s)| - 1]) && TrimEnd(s)[0] == s[0]
  {
    post := "";
    if s != "" && IsSpace(s[|s| - 1]) {
      post := TrimmedEnd(s[..|s| - 1]);
      post := post + [s[|s| - 1]];
    }
  }

  predicate Blanks(s: string) { forall i | 0 <= i < |s| :: IsSpace(s[i]) }

  /** Blanks around a text without blanks at its ends are what is cut off. */
  lemma TrimPadded(pre: string, s: string, post: string)
    requires Blanks(pre) && Blanks(post) && Trimmed(s)
    ensures Trim(pre + s + post) == s
  {
    StartPadded(pre, s + post);
    assert pre + s + post == pre + (s + post);
    if s == "" {
      StartPadded(post, "");
      assert s + post == post + "";
    } else {
      EndPadded(s, post);
    }
  }

  lemma {:induction false} StartPadded(pre: string, s: string)
    requires Blanks(pre)
    ensures TrimStart(pre + s) == TrimStart(s)
  {
    if pre == "" {
      assert pre + s == s;
    } else {
      assert (pre + s)[1..] == pre[1..] + s;
      StartPadded(pre[1..], s);
    }
  }

  lemma {:induction false} EndPadded(s: string, post: string)
    requires Blanks(post)
    ensures TrimEnd(s + post) == TrimEnd(s)
  {
    if post == "" {
      assert s + post == s;
    } else {
      assert (s + post)[..|s + post| - 1] == s + post[..|post| - 1];
      EndPadded(s, post[..|post| - 1]);
    }
  }

  // ---------- search ----------

  predicate OccursAt(s: string, pat: string, i: int) {
    0 <= i <= |s| - |pat| && s[i..i + |pat|] == pat
  }

  /** The first position at or after `from` where `pat` occurs. */
  function FindFrom(s: string, pat: string, from: nat): (r: Option<nat>)
    requires from <= |s|
    ensures r.Some? ==> from <= r.value && OccursAt(s, pat, r.value)
    ensures forall j {:trigger OccursAt(s, pat, j)} ::
              from <= j < (if r.Some? then r.value else |s| + 1) ==> !OccursAt(s, pat, j)
    decreases |s| - from
  {
    if OccursAt(s, pat, from) then Some(from)
    else if from == |s| then None
    else FindFrom(s, pat, from + 1)
  }

  /** Any first occurrence is the one `FindFrom` reports. */
  lemma FindIs(s: string, pat: string, from: nat, i: nat)
    requires from <= i && OccursAt(s, pat, i)
    requires forall j {:trigger OccursAt(s, pat, j)} :: from <= j < i ==> !OccursAt(s, pat, j)
    ensures from <= |s| && FindFrom(s, pat, from) == Some(i)
  {
    assert OccursAt(s, pat, i);
  }
}
