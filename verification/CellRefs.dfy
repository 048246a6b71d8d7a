/** A1 cell references and the lookups made through them
    (src/ingest/parse.rs; references as in section 18.17.2.3 of ECMA-376 Part 1). */
module CellRefs {
  import opened Text

  // ---------- printing a reference ----------

  predicate IsLetter(c: char) { 'A' <= c <= 'Z' }

  function Letter(d: nat): (c: char)
    requires d < 26
    ensures IsLetter(c) && c as int - 'A' as int == d
  {
    ('A' as int + d) as char
  }

  /** The column letters, bijective base 26: A .. Z, AA, AB, .. */
  function ColumnName(col: nat): string {
    if col < 26 then [Letter(col)] else ColumnName(col / 26 - 1) + [Letter(col % 26)]
  }

  function CellRef(col: nat, row: nat): string { ColumnName(col) + Dec(row + 1) }

  method ColRowToExcel(col: nat, row: nat) returns (s: string)
    ensures s == CellRef(col, row)
  {
    var c := col;
    var letters := "";
    while true
      invariant ColumnName(col) == ColumnName(c) + letters
      decreases c
    {
      letters := [Letter(c % 26)] + letters;
      if c / 26 == 0 { break; }
      c := c / 26 - 1;
    }
    s := letters + Dec(row + 1);
  }

  // ---------- reading it back ----------

  predicate AllLetters(s: string) { forall i :: 0 <= i < |s| ==> IsLetter(s[i]) }

  /** The column a non-empty string of letters names, plus one. */
  function ColumnValue(s: string): nat
    requires AllLetters(s)
  {
    if s == [] then 0 else ColumnValue(s[..|s| - 1]) * 26 + (s[|s| - 1] as int - 'A' as int) + 1
  }

  function LetterPrefix(s: string): (n: nat)
    ensures n <= |s| && AllLetters(s[..n]) && (n < |s| ==> !IsLetter(s[n]))
  {
    if s == [] || !IsLetter(s[0]) then 0
    else
      var n := LetterPrefix(s[1..]);
      assert s[..n + 1] == [s[0]] + s[1..][..n];
      n + 1
  }

  /** Reads `B14` back as column 1, row 13. */
  function DecodeRef(s: string): Option<(nat, nat)> {
    var n := LetterPrefix(s);
    if n == 0 || n == |s| || !AllDigits(s[n..]) || DecValue(s[n..]) == 0 then None
    else
      assert ColumnValue(s[..n]) > 0;
      Some((ColumnValue(s[..n]) - 1, DecValue(s[n..]) - 1))
  }

  lemma {:induction false} ColumnRoundTrip(col: nat)
    ensures ColumnName(col) != [] && AllLetters(ColumnName(col)) && ColumnValue(ColumnName(col)) == col + 1
  {
    if col < 26 {
      assert ColumnName(col)[..0] == [];
    } else {
      ColumnRoundTrip(col / 26 - 1);
      var s := ColumnName(col);
      assert s[..|s| - 1] == ColumnName(col / 26 - 1);
    }
  }

  lemma {:induction false} PrefixOfLetters(letters: string, rest: string)
    requires AllLetters(letters) && (rest == [] || !IsLetter(rest[0]))
    ensures LetterPrefix(letters + rest) == |letters|
  {
    if letters == [] {
      assert letters + rest == rest;
    } else {
      assert (letters + rest)[1..] == letters[1..] + rest;
      PrefixOfLetters(letters[1..], rest);
    }
  }

  /** Every cell's reference reads back as that cell. */
  lemma RefRoundTrip(col: nat, row: nat)
    ensures DecodeRef(CellRef(col, row)) == Some((col, row))
  {
    var letters, digits := ColumnName(col), Dec(row + 1);
    ColumnRoundTrip(col);
    DecRoundTrip(row + 1);
    assert !IsLetter(digits[0]) by { assert IsDigit(digits[0]); }
    PrefixOfLetters(letters, digits);
    assert (letters + digits)[..|letters|] == letters && (letters + digits)[|letters|..] == digits;
  }

  lemma RefInjective(col: nat, row: nat, col': nat, row': nat)
    requires CellRef(col, row) == CellRef(col', row')
    ensures col == col' && row == row'
  {
    RefRoundTrip(col, row);
    RefRoundTrip(col', row');
  }

  // ---------- the IGRF map ----------

  /** Cell texts of a sheet's used range, blank cells as None. */
  type Texts = (nat, nat) -> Option<string>

  /** `cells` maps the reference of every non-blank cell of the range, and
      nothing else, to that cell's text. */
  ghost predicate IsCellMap(cells: map<string, string>, rows: nat, cols: nat, text: Texts) {
    && (forall row: nat, col: nat :: row < rows && col < cols ==> Holds(cells, row, col, text))
    && (forall key :: key in cells ==> exists row: nat, col: nat :: row < rows && col < cols && key == CellRef(col, row))
  }

  ghost predicate Holds(cells: map<string, string>, row: nat, col: nat, text: Texts) {
    if text(row, col).Some? then CellRef(col, row) in cells && cells[CellRef(col, row)] == text(row, col).value
    else CellRef(col, row) !in cells
  }

  method ReadIgrfCells(rows: nat, cols: nat, text: Texts) returns (cells: map<string, string>)
    ensures IsCellMap(cells, rows, cols, text)
  {
    cells := map[];
    for row := 0 to rows
      invariant ReadUpTo(cells, row, 0, cols, text)
    {
      for col := 0 to cols
        invariant ReadUpTo(cells, row, col, cols, text)
      {
        hide ReadUpTo, CellRef;
        var key := ColRowToExcel(col, row);
        ReadOne(cells, row, col, cols, text);
        var value := text(row, col);
        if value.Some? { cells := cells[key := value.value]; }
      }
    }
  }

  /** Cells before (row, col) in reading order, with `cols` columns a row. */
  predicate Before(r: nat, c: nat, row: nat, col: nat, cols: nat) {
    c < cols && (r < row || (r == row && c < col))
  }

  ghost predicate ReadUpTo(cells: map<string, string>, row: nat, col: nat, cols: nat, text: Texts) {
    && (forall r: nat, c: nat :: Before(r, c, row, col, cols) ==> Holds(cells, r, c, text))
    && (forall key :: key in cells ==> exists r: nat, c: nat :: Before(r, c, row, col, cols) && key == CellRef(c, r))
  }

  lemma ReadOne(cells: map<string, string>, row: nat, col: nat, cols: nat, text: Texts)
    requires col < cols && ReadUpTo(cells, row, col, cols, text)
    ensures var cells' := if text(row, col).Some? then cells[CellRef(col, row) := text(row, col).value] else cells;
            ReadUpTo(cells', row, col + 1, cols, text)
  {
    hide CellRef;
    var cells' := if text(row, col).Some? then cells[CellRef(col, row) := text(row, col).value] else cells;
    forall r: nat, c: nat | Before(r, c, row, col + 1, cols) ensures Holds(cells', r, c, text) {
      if CellRef(c, r) == CellRef(col, row) { RefInjective(c, r, col, row); }
      if !Before(r, c, row, col, cols) && CellRef(c, r) in cells {
        var r': nat, c': nat :| Before(r', c', row, col, cols) && CellRef(c, r) == CellRef(c', r');
        RefInjective(c, r, c', r');
      }
    }
  }

  // ---------- formulas that mention a cell ----------

  const IGRF := "IGRF!"

  predicate IsAsciiAlphanumeric(c: char) { 'a' <= c <= 'z' || 'A' <= c <= 'Z' || '0' <= c <= '9' }

  function WithoutDollars(s: string): string {
    if s == [] then [] else (if s[0] == '$' then [] else [s[0]]) + WithoutDollars(s[1..])
  }

  function AlphanumericPrefix(s: string): string {
    if s == [] || !IsAsciiAlphanumeric(s[0]) then [] else [s[0]] + AlphanumericPrefix(s[1..])
  }

  function ResolveIgrfFormula(formula: string, igrf: map<string, string>): Option<string> {
    var at := FindFrom(formula, IGRF, 0);
    if at.None? then None
    else
      var key := AlphanumericPrefix(WithoutDollars(formula[at.value + 5..]));
      if key == [] || key !in igrf then None else Some(igrf[key])
  }

  lemma {:induction false} WithoutDollarsConcat(s: string, t: string)
    ensures WithoutDollars(s + t) == WithoutDollars(s) + WithoutDollars(t)
  {
    if s == [] {
      assert s + t == t;
    } else {
      assert (s + t)[1..] == s[1..] + t;
      WithoutDollarsConcat(s[1..], t);
    }
  }

  lemma {:induction false} NoDollars(s: string)
    requires forall i :: 0 <= i < |s| ==> IsAsciiAlphanumeric(s[i])
    ensures WithoutDollars(s) == s
  {
    if s != [] { NoDollars(s[1..]); }
  }

  lemma {:induction false} AlphanumericPrefixIs(s: string, t: string)
    requires forall i :: 0 <= i < |s| ==> IsAsciiAlphanumeric(s[i])
    ensures AlphanumericPrefix(s + t) == s + AlphanumericPrefix(t)
  {
    if s == [] {
      assert s + t == t;
    } else {
      assert (s + t)[1..] == s[1..] + t;
      AlphanumericPrefixIs(s[1..], t);
    }
  }

  lemma RefAlphanumeric(col: nat, row: nat)
    ensures CellRef(col, row) != []
    ensures forall i :: 0 <= i < |CellRef(col, row)| ==> IsAsciiAlphanumeric(CellRef(col, row)[i])
  {
    ColumnRoundTrip(col);
    DecRoundTrip(row + 1);
  }

  function Dollar(absolute: bool): string { if absolute then "$" else "" }

  /** How a formula may write a reference: either part may be made absolute. */
  function Written(col: nat, row: nat, absoluteCol: bool, absoluteRow: bool): string {
    (Dollar(absoluteCol) + ColumnName(col)) + (Dollar(absoluteRow) + Dec(row + 1))
  }

  lemma WithoutDollar(absolute: bool, s: string)
    requires forall i :: 0 <= i < |s| ==> IsAsciiAlphanumeric(s[i])
    ensures WithoutDollars(Dollar(absolute) + s) == s
  {
    NoDollars(s);
    WithoutDollarsConcat(Dollar(absolute), s);
    assert WithoutDollars(Dollar(absolute)) == [];
  }

  lemma WrittenIsRef(col: nat, row: nat, absoluteCol: bool, absoluteRow: bool)
    ensures WithoutDollars(Written(col, row, absoluteCol, absoluteRow)) == CellRef(col, row)
  {
    var letters, digits := ColumnName(col), Dec(row + 1);
    ColumnRoundTrip(col);
    DecRoundTrip(row + 1);
    WithoutDollar(absoluteCol, letters);
    WithoutDollar(absoluteRow, digits);
    hide ColumnName, Dec, Dollar, WithoutDollars;
    WithoutDollarsConcat(Dollar(absoluteCol) + letters, Dollar(absoluteRow) + digits);
  }

  /** The letters and digits that follow a reference, dollars aside; they are
      read as part of it. */
  function RunOn(after: string): string { AlphanumericPrefix(WithoutDollars(after)) }

  /** Dollar signs are left out, wherever they stand, and nothing else. */
  lemma DollarsExactly(s: string, c: char, t: string)
    ensures WithoutDollars(s + [c] + t) == WithoutDollars(s) + (if c == '$' then "" else [c]) + WithoutDollars(t)
    ensures WithoutDollars("") == ""
  {
    WithoutDollarsConcat(s + [c], t);
    WithoutDollarsConcat(s, [c]);
    assert [c][1..] == [];
  }

  /** The run-on ends before the first character that is no letter, digit or dollar sign. */
  lemma RunOnExactly(run: string, after: string)
    requires forall i | 0 <= i < |run| :: LetterOrDigit(run[i]) || run[i] == '$'
    requires after == "" || !(LetterOrDigit(after[0]) || after[0] == '$')
    ensures RunOn(run + after) == WithoutDollars(run)
  {
    WithoutDollarsConcat(run, after);
    PlainWithoutDollars(run);
    NoRunOn(after);
    AlphanumericPrefixIs(WithoutDollars(run), WithoutDollars(after));
    hide AlphanumericPrefix, WithoutDollars;
    assert WithoutDollars(run) + [] == WithoutDollars(run);
  }

  lemma NoRunOn(after: string)
    requires after == "" || !(LetterOrDigit(after[0]) || after[0] == '$')
    ensures AlphanumericPrefix(WithoutDollars(after)) == []
  {
  }

  lemma {:induction false} PlainWithoutDollars(s: string)
    requires forall i | 0 <= i < |s| :: LetterOrDigit(s[i]) || s[i] == '$'
    ensures forall i | 0 <= i < |WithoutDollars(s)| :: IsAsciiAlphanumeric(WithoutDollars(s)[i])
  {
    if s != [] { PlainWithoutDollars(s[1..]); }
  }

  /** A formula whose first IGRF mention is this cell is looked up under the
      cell's reference, extended by whatever runs on into it. */
  lemma FormulaResolves(before: string, col: nat, row: nat, absoluteCol: bool, absoluteRow: bool, after: string, igrf: map<string, string>)
    requires forall j {:trigger OccursAt(before + "IGRF!", "IGRF!", j)} :: 0 <= j < |before| ==> !OccursAt(before + "IGRF!", "IGRF!", j)
    ensures var key := CellRef(col, row) + RunOn(after);
            ResolveIgrfFormula(before + "IGRF!" + Written(col, row, absoluteCol, absoluteRow) + after, igrf) ==
            if key in igrf then Some(igrf[key]) else None
  {
    var written := Written(col, row, absoluteCol, absoluteRow);
    WrittenIsRef(col, row, absoluteCol, absoluteRow);
    RefAlphanumeric(col, row);
    hide Written, CellRef, WithoutDollars, AlphanumericPrefix;
    FirstMention(before, written + after);
    assert before + "IGRF!" + written + after == before + "IGRF!" + (written + after);
    WithoutDollarsConcat(written, after);
    AlphanumericPrefixIs(CellRef(col, row), WithoutDollars(after));
  }

  lemma FirstMention(before: string, rest: string)
    requires forall j {:trigger OccursAt(before + "IGRF!", "IGRF!", j)} :: 0 <= j < |before| ==> !OccursAt(before + "IGRF!", "IGRF!", j)
    ensures var formula := before + "IGRF!" + rest;
            FindFrom(formula, "IGRF!", 0) == Some(|before|) && formula[|before| + 5..] == rest
  {
    var formula := before + "IGRF!" + rest;
    forall j | 0 <= j < |before| ensures !OccursAt(formula, "IGRF!", j) {
      assert !OccursAt(before + "IGRF!", "IGRF!", j);
      assert formula[j..j + 5] == (before + "IGRF!")[j..j + 5];
    }
    assert formula[|before|..|before| + 5] == "IGRF!";
    FindIs(formula, "IGRF!", 0, |before|);
  }

  /** Reading a cell through a formula gives what the cell itself holds. */
  lemma FormulaReadsCell(before: string, col: nat, row: nat, absoluteCol: bool, absoluteRow: bool, after: string,
    cells: map<string, string>, rows: nat, cols: nat, text: Texts)
    requires IsCellMap(cells, rows, cols, text) && row < rows && col < cols
    requires forall j {:trigger OccursAt(before + "IGRF!", "IGRF!", j)} :: 0 <= j < |before| ==> !OccursAt(before + "IGRF!", "IGRF!", j)
    requires RunOn(after) == ""
    ensures ResolveIgrfFormula(before + "IGRF!" + Written(col, row, absoluteCol, absoluteRow) + after, cells) == text(row, col)
  {
    FormulaResolves(before, col, row, absoluteCol, absoluteRow, after, cells);
    hide ResolveIgrfFormula, CellRef, RunOn;
    assert CellRef(col, row) + "" == CellRef(col, row);
    assert Holds(cells, row, col, text);
  }
}
