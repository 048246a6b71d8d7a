/** The HTML entity decoder of the team listing (src/ingest/wftda.rs:553-599). */
module Entities {
  import opened Text

  // ---------- one entity ----------

  predicate IsHexDigit(c: char) { IsDigit(c) || 'a' <= c <= 'f' || 'A' <= c <= 'F' }

  function HexDigit(c: char): nat
    requires IsHexDigit(c)
  {
    if IsDigit(c) then c as int - '0' as int
    else if 'a' <= c <= 'f' then c as int - 'a' as int + 10
    else c as int - 'A' as int + 10
  }

  predicate AllHex(s: string) { forall i | 0 <= i < |s| :: IsHexDigit(s[i]) }

  function HexValue(s: string): nat
    requires AllHex(s)
  {
    if s == [] then 0 else HexValue(s[..|s| - 1]) * 16 + HexDigit(s[|s| - 1])
  }

  /** Unsigned parsing accepts a leading plus sign. */
  function WithoutPlus(s: string): string { if s != [] && s[0] == '+' then s[1..] else s }

  function ParseDecimal(s: string): Option<nat> {
    var digits := WithoutPlus(s);
    if digits != [] && AllDigits(digits) then Some(DecValue(digits)) else None
  }

  function ParseHex(s: string): Option<nat> {
    var digits := WithoutPlus(s);
    if digits != [] && AllHex(digits) then Some(HexValue(digits)) else None
  }

  /** Scalar values are the code points outside the surrogates. Numbers too big
      for 32 bits fall out here as well. */
  predicate IsScalar(n: nat) { n < 0xD800 || 0xE000 <= n < 0x11_0000 }

  function CharOf(n: Option<nat>): Option<char> {
    if n.Some? && IsScalar(n.value) then Some(n.value as char) else None
  }

  function DecodeEntity(entity: string): Option<char> {
    if entity == "amp" then Some('&')
    else if entity == "lt" then Some('<')
    else if entity == "gt" then Some('>')
    else if entity == "quot" then Some('"')
    else if entity == "apos" then Some('\'')
    else if entity == "nbsp" then Some('\U{00A0}')
    else if entity == [] || entity[0] != '#' then None
    else
      var code := entity[1..];
      CharOf(if code != [] && (code[0] == 'x' || code[0] == 'X') then ParseHex(code[1..]) else ParseDecimal(code))
  }

  // ---------- what an entity stands for ----------

  const LOWER_DIGITS := "0123456789abcdef"
  const UPPER_DIGITS := "0123456789ABCDEF"

  /** `s` is a numeral of `n` in this base, perhaps with leading zeros. */
  predicate Denotes(s: string, base: nat, n: nat)
    requires 2 <= base <= 16
    decreases |s|
  {
    && s != [] && s[|s| - 1] in {LOWER_DIGITS[n % base], UPPER_DIGITS[n % base]}
    && if |s| == 1 then n < base else Denotes(s[..|s| - 1], base, n / base)
  }

  lemma {:induction false} HexExactly(s: string, n: nat)
    ensures Denotes(s, 16, n) <==> s != [] && AllHex(s) && HexValue(s) == n
    decreases |s|
  {
    if s != [] {
      var init, last := s[..|s| - 1], s[|s| - 1];
      HexDigitExactly(last, n % 16);
      HexExactly(init, n / 16);
      AllHexSplit(init, last);
      assert s == init + [last];
      hide IsHexDigit, HexDigit, AllHex;
      if |s| == 1 { assert init == []; }
      if AllHex(s) {
        HexSplit(HexValue(init), HexDigit(last), n);
      }
    }
  }

  lemma AllHexSplit(init: string, last: char)
    ensures AllHex(init + [last]) <==> AllHex(init) && IsHexDigit(last)
    ensures AllHex("") && HexValue("") == 0
  {
    hide IsHexDigit;
    var s := init + [last];
    assert s[|init|] == last;
    if AllHex(s) {
      forall i | 0 <= i < |init| ensures IsHexDigit(init[i]) { assert s[i] == init[i]; }
    }
  }

  lemma HexSplit(high: nat, digit: nat, n: nat)
    requires digit < 16
    ensures high * 16 + digit == n <==> high == n / 16 && digit == n % 16
  {
  }

  lemma HexDigitExactly(c: char, d: nat)
    requires d < 16
    ensures c in {LOWER_DIGITS[d], UPPER_DIGITS[d]} <==> IsHexDigit(c) && HexDigit(c) == d
  {
  }

  lemma {:induction false} DecExactly(s: string, n: nat)
    ensures Denotes(s, 10, n) <==> s != [] && AllDigits(s) && DecValue(s) == n
    decreases |s|
  {
    if s != [] {
      var init, last := s[..|s| - 1], s[|s| - 1];
      DecDigitExactly(last, n % 10);
      DecExactly(init, n / 10);
      hide IsDigit;
      if |s| == 1 { assert init == []; }
    }
  }

  lemma DecDigitExactly(c: char, d: nat)
    requires d < 10
    ensures c in {LOWER_DIGITS[d], UPPER_DIGITS[d]} <==> IsDigit(c) && c as int - '0' as int == d
  {
  }

  ghost predicate Named(entity: string, c: char) {
    (entity, c) in {("amp", '&'), ("lt", '<'), ("gt", '>'), ("quot", '\"'), ("apos", '\''), ("nbsp", '\U{00A0}')}
  }

  /** The mark, perhaps a plus sign, and a numeral. */
  predicate Numbered(entity: string, mark: string, base: nat, c: char)
    requires 2 <= base <= 16
  {
    mark <= entity && Signed(entity[|mark|..], base, c as int)
  }

  predicate Signed(s: string, base: nat, n: nat)
    requires 2 <= base <= 16
  {
    Denotes(s, base, n) || (s != [] && s[0] == '+' && Denotes(s[1..], base, n))
  }

  /** An entity is one of six names or a decimal or hexadecimal reference. */
  lemma EntityExactly(entity: string, c: char)
    ensures DecodeEntity(entity) == Some(c) <==>
      Named(entity, c) || Numbered(entity, "#", 10, c) || Numbered(entity, "#x", 16, c) || Numbered(entity, "#X", 16, c)
  {
    if entity != [] && entity[0] == '#' {
      var code := entity[1..];
      SignedExactly(code, c as int);
      if code != [] { SignedExactly(code[1..], c as int); assert entity[2..] == code[1..]; }
      hide Signed, ParseHex, ParseDecimal;
    }
  }

  lemma SignedExactly(s: string, n: nat)
    ensures Signed(s, 16, n) <==> ParseHex(s) == Some(n)
    ensures Signed(s, 10, n) <==> ParseDecimal(s) == Some(n)
    ensures Signed(s, 10, n) ==> s[0] != 'x' && s[0] != 'X'
  {
    HexExactly(s, n);
    DecExactly(s, n);
    if s != [] { HexExactly(s[1..], n); DecExactly(s[1..], n); }
    hide Denotes, DecValue, HexValue;
  }

  // ---------- a text ----------

  const MAX_ENTITY := 10

  /** The entity that starts `s`, with the length it takes. */
  function EntityHead(s: string): (r: Option<(char, nat)>)
    requires s != [] && s[0] == '&'
    ensures r.Some? ==> 2 <= r.value.1 <= |s|
  {
    match FindFrom(s, ";", 0)
    case None => None
    case Some(semi) =>
      assert OccursAt(s, ";", semi) && s[semi..semi + 1][0] == ';';
      if semi > MAX_ENTITY then None
      else match DecodeEntity(s[1..semi])
        case None => None
        case Some(c) => Some((c, semi + 1))
  }

  function Decode(s: string): string
    decreases |s|
  {
    if s == [] then []
    else if s[0] != '&' then [s[0]] + Decode(s[1..])
    else match EntityHead(s)
      case None => "&" + Decode(s[1..])
      case Some((c, n)) => [c] + Decode(s[n..])
  }

  lemma {:induction false} DecodePlain(s: string, pos: nat)
    requires pos <= |s| && forall i | 0 <= i < pos :: s[i] != '&'
    ensures Decode(s) == s[..pos] + Decode(s[pos..])
  {
    if pos > 0 {
      DecodePlain(s[1..], pos - 1);
      assert s[1..][pos - 1..] == s[pos..];
      assert s[..pos] == [s[0]] + s[1..][..pos - 1];
    }
  }

  lemma NoAmpersand(s: string, from: nat, to: nat)
    requires from <= to <= |s|
    requires forall j {:trigger OccursAt(s, "&", j)} :: from <= j < to ==> !OccursAt(s, "&", j)
    ensures forall i | from <= i < to :: s[i] != '&'
  {
    forall i | from <= i < to ensures s[i] != '&' {
      assert !OccursAt(s, "&", i);
      assert s[i..i + 1] == [s[i]];
    }
  }

  lemma DecodeHere(tail: string)
    requires tail != [] && tail[0] == '&'
    ensures Decode(tail) == AfterHead(tail, EntityHead(tail))
  {
    hide EntityHead;
  }

  function AfterHead(tail: string, head: Option<(char, nat)>): string
    requires tail != [] && (head.Some? ==> head.value.1 <= |tail|)
  {
    if head.Some? then [head.value.0] + Decode(tail[head.value.1..]) else "&" + Decode(tail[1..])
  }

  /** What the loop does with the first ampersand, at `p`. */
  lemma DecodeStep(rest: string, p: nat)
    requires FindFrom(rest, "&", 0) == Some(p)
    ensures p < |rest| && rest[p] == '&'
    ensures Decode(rest) == rest[..p] + AfterHead(rest[p..], EntityHead(rest[p..]))
  {
    NoAmpersand(rest, 0, p);
    assert rest[p..p + 1][0] == '&';
    hide EntityHead, Decode, FindFrom, OccursAt, AfterHead;
    DecodePlain(rest, p);
    DecodeHere(rest[p..]);
  }

  lemma DecodeNothing()
    ensures Decode([]) == []
  {}

  method DecodeHtmlEntities(s: string) returns (out: string)
    ensures out == Decode(s)
  {
    hide EntityHead, Decode, FindFrom, OccursAt;
    out := [];
    var rest := s;
    var pos := FindFrom(rest, "&", 0);
    while pos.Some?
      invariant pos == FindFrom(rest, "&", 0)
      invariant out + Decode(rest) == Decode(s)
      decreases |rest|
    {
      var p := pos.value;
      DecodeStep(rest, p);
      out := out + rest[..p];
      var tail := rest[p..];
      var head := EntityHead(tail);
      if head.Some? {
        out := out + [head.value.0];
        rest := tail[head.value.1..];
      } else {
        out := out + "&";
        rest := tail[1..];
      }
      pos := FindFrom(rest, "&", 0);
    }
    NoAmpersand(rest, 0, |rest|);
    DecodePlain(rest, |rest|);
    assert rest[|rest|..] == [] && rest[..|rest|] == rest;
    DecodeNothing();
    out := out + rest;
  }

  // ---------- decoding undoes encoding ----------

  /** A way of writing one character: itself, or an entity short enough to be seen. */
  predicate Writes(piece: string, c: char) {
    || (piece == [c] && c != '&')
    || (3 <= |piece| <= 11 && piece[0] == '&' && piece[|piece| - 1] == ';'
        && DecodeEntity(piece[1..|piece| - 1]) == Some(c))
  }

  function Joined(pieces: seq<string>): string {
    if pieces == [] then [] else pieces[0] + Joined(pieces[1..])
  }

  /** Entities never hold a semicolon, so the first one ends them. */
  lemma EntityHasNoSemicolon(entity: string)
    requires DecodeEntity(entity).Some?
    ensures forall i | 0 <= i < |entity| :: entity[i] != ';'
  {
    if entity != [] && entity[0] == '#' {
      var code := entity[1..];
      hide HexValue, DecValue, IsScalar;
      forall i | 0 <= i < |code| ensures code[i] != ';' { NumeralHasNoSemicolon(code, i); }
      forall i | 0 <= i < |entity| ensures entity[i] != ';' { if i > 0 { assert entity[i] == code[i - 1]; } }
    }
  }

  lemma NumeralHasNoSemicolon(code: string, i: nat)
    requires i < |code| && (ParseDecimal(code).Some? || (code[0] in {'x', 'X'} && ParseHex(code[1..]).Some?))
    ensures code[i] != ';'
  {
    hide HexValue, DecValue;
    if ParseDecimal(code).Some? {
      if code[0] == '+' && i > 0 { assert WithoutPlus(code)[i - 1] == code[i]; }
    } else if i > 0 {
      var hex := code[1..];
      assert hex[i - 1] == code[i];
      if hex[0] == '+' && i > 1 { assert WithoutPlus(hex)[i - 2] == code[i]; }
    }
  }

  lemma HeadOfPiece(piece: string, c: char, rest: string)
    requires Writes(piece, c) && piece != [c]
    ensures EntityHead(piece + rest) == Some((c, |piece|))
  {
    var s, semi := piece + rest, |piece| - 1;
    var entity := piece[1..semi];
    assert s[1..semi] == entity;
    EntityHasNoSemicolon(entity);
    hide DecodeEntity;
    forall j | 0 <= j < semi ensures !OccursAt(s, ";", j) {
      assert s[j..j + 1] == [if j == 0 then '&' else entity[j - 1]];
    }
    assert s[semi..semi + 1] == ";";
    assert OccursAt(s, ";", semi);
    FindIs(s, ";", 0, semi);
  }

  /** Whatever way each character is written, the text comes back: nothing is
      decoded twice. */
  lemma {:induction false} DecodeUndoes(pieces: seq<string>, s: string)
    requires |pieces| == |s| && forall i | 0 <= i < |s| :: Writes(pieces[i], s[i])
    ensures Decode(Joined(pieces)) == s
  {
    if s != [] {
      var rest := Joined(pieces[1..]);
      DecodeUndoes(pieces[1..], s[1..]);
      var whole := pieces[0] + rest;
      if pieces[0] == [s[0]] && s[0] != '&' {
        assert whole[1..] == rest;
      } else {
        HeadOfPiece(pieces[0], s[0], rest);
        assert whole[|pieces[0]|..] == rest;
      }
    }
  }

  // ---------- the usual escaping ----------

  function EscapeChar(c: char): string {
    match c
    case '&' => "&amp;"
    case '<' => "&lt;"
    case '>' => "&gt;"
    case '"' => "&quot;"
    case '\'' => "&#039;"
    case _ => [c]
  }

  function Escape(s: string): string {
    if s == [] then [] else EscapeChar(s[0]) + Escape(s[1..])
  }

  lemma EscapeWrites(c: char)
    ensures Writes(EscapeChar(c), c)
  {
    if c == '\'' {
      Apostrophe();
    } else {
      assert "&amp;"[1..4] == "amp" && "&lt;"[1..3] == "lt" && "&gt;"[1..3] == "gt" && "&quot;"[1..5] == "quot";
    }
  }

  lemma Apostrophe()
    ensures Writes("&#039;", '\'')
  {
    var digits := "039";
    assert digits[..2][..1] == "0" && digits[..2] == "03" && digits[..1] == "0" && "0"[..0] == [];
    assert DecValue("0") == 0 && DecValue("03") == 3 && DecValue(digits) == 39;
    DecimalEntity(digits, '\'');
    hide DecodeEntity;
    assert "&#039;"[1..5] == "#" + digits;
  }

  lemma {:induction false} EscapedPieces(s: string)
    ensures Escape(s) == Joined(seq(|s|, i requires 0 <= i < |s| => EscapeChar(s[i])))
  {
    if s != [] {
      EscapedPieces(s[1..]);
      var pieces := seq(|s|, i requires 0 <= i < |s| => EscapeChar(s[i]));
      assert pieces[1..] == seq(|s[1..]|, i requires 0 <= i < |s[1..]| => EscapeChar(s[1..][i]));
    }
  }

  lemma DecodeEscape(s: string)
    ensures Decode(Escape(s)) == s
  {
    var pieces := seq(|s|, i requires 0 <= i < |s| => EscapeChar(s[i]));
    EscapedPieces(s);
    forall i | 0 <= i < |s| ensures Writes(pieces[i], s[i]) { EscapeWrites(s[i]); }
    hide EscapeChar;
    DecodeUndoes(pieces, s);
  }

  lemma EntityWrites(entity: string, c: char)
    requires 1 <= |entity| <= 9 && DecodeEntity(entity) == Some(c)
    ensures Writes("&" + entity + ";", c) && Decode("&" + entity + ";") == [c]
  {
    hide DecodeEntity;
    var piece := "&" + entity + ";";
    assert piece[1..|piece| - 1] == entity;
    var pieces := [piece];
    assert Joined(pieces[1..]) == [] && Joined(pieces) == piece;
    DecodeUndoes(pieces, [c]);
  }

  /** Every scalar value can be written as a decimal reference. */
  lemma DecimalWrites(c: char)
    ensures Writes("&" + ("#" + Dec(c as int)) + ";", c)
    ensures Decode("&" + ("#" + Dec(c as int)) + ";") == [c]
  {
    DecRoundTrip(c as int);
    assert Pow10(7) == 10000000;
    DecLength(c as int, 7);
    DecimalEntity(Dec(c as int), c);
    hide Dec, DecodeEntity;
    EntityWrites("#" + Dec(c as int), c);
  }

  lemma DecimalEntity(digits: string, c: char)
    requires digits != [] && AllDigits(digits) && DecValue(digits) == c as int
    ensures DecodeEntity("#" + digits) == Some(c)
  {
    var entity := "#" + digits;
    assert entity[0] == '#' && entity[1..] == digits;
    assert IsDigit(digits[0]) && WithoutPlus(digits) == digits;
    hide DecValue, HexValue;
  }

  function Pow10(k: nat): nat { if k == 0 then 1 else 10 * Pow10(k - 1) }

  lemma {:induction false} DecLength(n: nat, k: nat)
    requires k > 0 && n < Pow10(k)
    ensures |Dec(n)| <= k
  {
    if n >= 10 { DecLength(n / 10, k - 1); }
  }

  // ---------- when nothing changes ----------

  /** An ampersand, at most nine characters that make an entity, and a semicolon. */
  predicate EntityAt(s: string, i: nat) {
    i < |s| && s[i] == '&' && exists semi :: i < semi < |s| && semi - i <= 10 && s[semi] == ';' && DecodeEntity(s[i + 1..semi]).Some?
  }

  lemma HeadExactly(s: string, i: nat)
    requires i < |s| && s[i] == '&'
    ensures EntityAt(s, i) <==> EntityHead(s[i..]).Some?
  {
    if EntityHead(s[i..]).Some? { HeadIsEntity(s, i); }
    if EntityAt(s, i) {
      var semi :| i < semi < |s| && semi - i <= 10 && s[semi] == ';' && DecodeEntity(s[i + 1..semi]).Some?;
      EntityIsHead(s, i, semi);
    }
  }

  lemma HeadIsEntity(s: string, i: nat)
    requires i < |s| && s[i] == '&' && EntityHead(s[i..]).Some?
    ensures EntityAt(s, i)
  {
    hide DecodeEntity;
    var tail, semi := s[i..], FindFrom(s[i..], ";", 0).value;
    assert OccursAt(tail, ";", semi) && tail[semi..semi + 1][0] == ';';
    assert tail[1..semi] == s[i + 1..i + semi] && tail[semi] == s[i + semi];
  }

  lemma EntityIsHead(s: string, i: nat, semi: nat)
    requires i < semi < |s| && semi - i <= 10 && s[i] == '&' && s[semi] == ';' && DecodeEntity(s[i + 1..semi]).Some?
    ensures EntityHead(s[i..]).Some?
  {
    var tail, entity := s[i..], s[i + 1..semi];
    EntityHasNoSemicolon(entity);
    hide DecodeEntity;
    assert tail[semi - i..semi - i + 1] == ";" && OccursAt(tail, ";", semi - i);
    forall j | 0 <= j < semi - i ensures !OccursAt(tail, ";", j) {
      assert tail[j..j + 1] == [if j == 0 then '&' else entity[j - 1]];
    }
    FindIs(tail, ";", 0, semi - i);
    assert tail[1..semi - i] == entity;
  }

  lemma EntityAtRest(s: string, i: nat)
    requires 0 < i
    ensures s != [] ==> (EntityAt(s, i) <==> EntityAt(s[1..], i - 1))
  {
    if 0 < i < |s| && s[i] == '&' {
      HeadExactly(s, i);
      HeadExactly(s[1..], i - 1);
      assert s[1..][i - 1..] == s[i..];
    }
  }

  /** A text is unchanged exactly when no readable entity occurs in it. */
  lemma {:induction false} DecodeFixed(s: string)
    ensures |Decode(s)| <= |s|
    ensures Decode(s) == s <==> forall i: nat :: !EntityAt(s, i)
    decreases |s|
  {
    hide EntityHead, EntityAt;
    if s == [] {
      NoEntityAt(s);
    } else {
      var head := if s[0] == '&' then EntityHead(s) else None;
      assert s[0..] == s;
      HeadAtStart(s);
      if head.Some? {
        HeadLength(s);
        DecodeFixed(s[head.value.1..]);
      } else {
        DecodeFixed(s[1..]);
        forall i: nat ensures EntityAt(s, i) <==> i > 0 && EntityAt(s[1..], i - 1) {
          if i > 0 { EntityAtRest(s, i); }
        }
        assert forall i: nat | EntityAt(s[1..], i) :: EntityAt(s, i + 1);
        assert s == [s[0]] + s[1..];
      }
    }
  }

  lemma HeadAtStart(s: string)
    requires s != []
    ensures EntityAt(s, 0) <==> s[0] == '&' && EntityHead(s).Some?
  {
    hide EntityHead;
    assert s[0..] == s;
    if s[0] == '&' { HeadExactly(s, 0); }
  }

  lemma NoEntityAt(s: string)
    requires s == []
    ensures forall i: nat :: !EntityAt(s, i)
  {
  }

  lemma HeadLength(s: string)
    requires s != [] && s[0] == '&' && EntityHead(s).Some?
    ensures EntityHead(s).value.1 > 2
  {
    assert s[1..1] == [];
  }
}
