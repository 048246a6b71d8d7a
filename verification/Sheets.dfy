/** The Score and Lineups readers (src/ingest/parse.rs) and a printer for the
    sheets they read. */
module Sheets {
  import opened Text

  /** One cell. A float carries its truncation, whether it is integral, and how
      it is shown otherwise. */
  datatype Data =
    | Blank
    | Text(s: string)
    | Int(n: int)
    | Float(whole: int, integral: bool, shown: string)
    | Bool(b: bool)
    | Other

  /** A used range: rows from `rows` on are outside it. */
  datatype Sheet = Sheet(rows: nat, cell: (nat, nat) -> Option<Data>)

  function Get(sheet: Sheet, row: nat, col: nat): Option<Data> {
    if row < sheet.rows then sheet.cell(row, col) else None
  }

  // ---------- cells ----------

  function IntText(n: int): string { if n < 0 then "-" + Dec(-n) else Dec(n) }

  function CellStr(sheet: Sheet, row: nat, col: nat): Option<string> {
    match Get(sheet, row, col)
    case Some(Text(s)) =>
      var t := Trim(s);
      if t == "" || Lower(t) == "none" then None else Some(t)
    case Some(Int(n)) => Some(IntText(n))
    case Some(Float(whole, integral, shown)) => Some(if integral then IntText(whole) else shown)
    case _ => None
  }

  function AsInteger(d: Data): Option<int> {
    match d
    case Int(n) => Some(n)
    case Float(whole, _, _) => Some(whole)
    case Bool(b) => Some(if b then 1 else 0)
    case Text(s) =>
      if s != "" && AllDigits(s) then Some(DecValue(s))
      else if |s| > 1 && s[0] == '-' && AllDigits(s[1..]) then Some(-(DecValue(s[1..]) as int))
      else None
    case _ => None
  }

  /** Conversion to a signed 16-bit integer keeps the low bits. */
  function Wrap16(n: int): int { (n + 0x8000) % 0x1_0000 - 0x8000 }

  function CellI16(sheet: Sheet, row: nat, col: nat): int {
    match Get(sheet, row, col)
    case None => 0
    case Some(d) => match AsInteger(d) case None => 0 case Some(n) => Wrap16(n)
  }

  function CellBool(sheet: Sheet, row: nat, col: nat): bool {
    match Get(sheet, row, col)
    case Some(Bool(b)) => b
    case Some(Text(s)) => Trim(s) != ""
    case _ => false
  }

  predicate IsText(cell: Option<Data>) { cell.Some? && cell.value.Text? }

  // ---------- jams ----------

  datatype LineupEntry = LineupEntry(number: string, position: string, boxTrips: nat)

  datatype JamSide = JamSide(
    jammer: Option<string>, starPassJammer: Option<string>,
    lead: bool, lost: bool, called: bool, injury: bool, noPivot: bool,
    score: int, lineup: seq<LineupEntry>)

  datatype Jam = Jam(number: nat, home: JamSide, away: JamSide)

  datatype Period = Period(number: nat, jams: seq<Jam>)

  /** The trip columns `7 .. 7 + n`, added up. */
  function TripSum(sheet: Sheet, row: nat, base: nat, n: nat): int {
    if n == 0 then 0 else TripSum(sheet, row, base, n - 1) + CellI16(sheet, row, base + 6 + n)
  }

  function ParseJamSide(sheet: Sheet, row: nat, base: nat): JamSide {
    JamSide(
      CellStr(sheet, row, base + 1), None,
      CellBool(sheet, row, base + 3), CellBool(sheet, row, base + 2), CellBool(sheet, row, base + 4),
      CellBool(sheet, row, base + 5), CellBool(sheet, row, base + 6),
      Wrap16(TripSum(sheet, row, base, 9)), [])
  }

  function WithStarPass(sheet: Sheet, row: nat, base: nat, side: JamSide): JamSide {
    side.(starPassJammer := CellStr(sheet, row, base + 1),
          score := Wrap16(side.score + Wrap16(TripSum(sheet, row, base, 9))))
  }

  const SCORE_ROWS := 38
  const AWAY_COL := 19

  /** The number in a jam row; nothing, zero or no number ends the period. */
  function JamNumber(cell: Option<Data>): Option<nat> {
    if cell.None? then None
    else match AsInteger(cell.value)
      case None => None
      case Some(n) => if n == 0 then None else Some(n % 0x1_0000)
  }

  /** One jam, with the star pass row that may follow it. */
  function JamAt(sheet: Sheet, row: nat, number: nat): Jam {
    var home, away := ParseJamSide(sheet, row, 0), ParseJamSide(sheet, row, AWAY_COL);
    Jam(number,
      if IsText(Get(sheet, row + 1, 0)) then WithStarPass(sheet, row + 1, 0, home) else home,
      if IsText(Get(sheet, row + 1, AWAY_COL)) then WithStarPass(sheet, row + 1, AWAY_COL, away) else away)
  }

  predicate StarPassRowAt(sheet: Sheet, row: nat) {
    IsText(Get(sheet, row, 0)) || IsText(Get(sheet, row, AWAY_COL))
  }

  /** The jams from offset `i` of a period that starts at row `start`. */
  function ReadJams(sheet: Sheet, start: nat, i: nat): seq<Jam>
    decreases SCORE_ROWS + 1 - i
  {
    if i >= SCORE_ROWS then []
    else
      var row := start + i;
      if IsText(Get(sheet, row, 0)) then ReadJams(sheet, start, i + 1)
      else match JamNumber(Get(sheet, row, 0))
        case None => []
        case Some(number) =>
          [JamAt(sheet, row, number)] + ReadJams(sheet, start, i + RowsUsed(sheet, row))
  }

  /** One step of `ReadJams`, by the three kinds of row. */
  lemma Unroll(sheet: Sheet, start: nat, i: nat)
    ensures i >= SCORE_ROWS ==> ReadJams(sheet, start, i) == []
    ensures i < SCORE_ROWS && IsText(Get(sheet, start + i, 0)) ==>
      ReadJams(sheet, start, i) == ReadJams(sheet, start, i + 1)
    ensures i < SCORE_ROWS && !IsText(Get(sheet, start + i, 0)) ==>
      var number := JamNumber(Get(sheet, start + i, 0));
      ReadJams(sheet, start, i) ==
      if number.None? then []
      else [JamAt(sheet, start + i, number.value)]
           + ReadJams(sheet, start, i + RowsUsed(sheet, start + i))
  {
    hide JamAt, JamNumber, IsText;
  }

  function RowsUsed(sheet: Sheet, row: nat): nat { if StarPassRowAt(sheet, row + 1) then 2 else 1 }

  function PeriodOf(number: nat, jams: seq<Jam>): seq<Period> {
    if jams == [] then [] else [Period(number, jams)]
  }

  function ReadPeriods(sheet: Sheet): seq<Period> {
    PeriodOf(1, ReadJams(sheet, 3, 0)) + PeriodOf(2, ReadJams(sheet, 45, 0))
  }

  /** A jam row, and the row after it when that is a star pass row. */
  method ParseJam(sheet: Sheet, row: nat, number: nat) returns (jam: Jam, used: nat)
    ensures jam == JamAt(sheet, row, number)
    ensures used == RowsUsed(sheet, row)
  {
    hide TripSum, CellStr, CellBool;
    var home, away := ParseJamSide(sheet, row, 0), ParseJamSide(sheet, row, AWAY_COL);
    used := 1;
    var homeSp, awaySp := IsText(Get(sheet, row + 1, 0)), IsText(Get(sheet, row + 1, AWAY_COL));
    if homeSp { home := WithStarPass(sheet, row + 1, 0, home); }
    if awaySp { away := WithStarPass(sheet, row + 1, AWAY_COL, away); }
    if homeSp || awaySp { used := 2; }
    jam := Jam(number, home, away);
  }

  method ParsePeriod(sheet: Sheet, start: nat) returns (jams: seq<Jam>)
    ensures jams == ReadJams(sheet, start, 0)
  {
    hide ReadJams, JamAt, JamNumber, RowsUsed;
    jams := [];
    var i: nat := 0;
    while i < SCORE_ROWS
      invariant jams + ReadJams(sheet, start, i) == ReadJams(sheet, start, 0)
      decreases SCORE_ROWS + 1 - i
    {
      var row := start + i;
      Unroll(sheet, start, i);
      if IsText(Get(sheet, row, 0)) {
        i := i + 1;
        continue;
      }
      var number := JamNumber(Get(sheet, row, 0));
      if number.None? { return; }
      var jam, used := ParseJam(sheet, row, number.value);
      jams := jams + [jam];
      i := i + used;
    }
    Unroll(sheet, start, i);
  }

  method ParseScores(sheet: Sheet) returns (periods: seq<Period>)
    ensures periods == ReadPeriods(sheet)
  {
    periods := [];
    var defs := [(1, 3), (2, 45)];
    for k := 0 to |defs|
      invariant k == 0 ==> periods == []
      invariant k == 1 ==> periods == PeriodOf(1, ReadJams(sheet, 3, 0))
      invariant k == 2 ==> periods == ReadPeriods(sheet)
    {
      var (number, start) := defs[k];
      var jams := ParsePeriod(sheet, start);
      if jams != [] { periods := periods + [Period(number, jams)]; }
    }
  }

  /** A period reads nothing beyond 39 rows from its start, so the first never
      looks at the second, on any sheet. */
  lemma {:induction false} PeriodFrame(sheet: Sheet, sheet': Sheet, start: nat, i: nat)
    requires forall row: nat :: start <= row <= start + SCORE_ROWS ==> SameRow(sheet, sheet', row)
    ensures ReadJams(sheet, start, i) == ReadJams(sheet', start, i)
    decreases SCORE_ROWS + 1 - i
  {
    hide ReadJams, JamAt, JamNumber, StarPassRowAt;
    Unroll(sheet, start, i);
    Unroll(sheet', start, i);
    if i < SCORE_ROWS {
      JamFrame(sheet, sheet', start + i);
      assert SameCell(sheet, sheet', start + i, 0);
      PeriodFrame(sheet, sheet', start, i + 1);
      PeriodFrame(sheet, sheet', start, i + RowsUsed(sheet, start + i));
    }
  }

  lemma JamFrame(sheet: Sheet, sheet': Sheet, row: nat)
    requires SameRow(sheet, sheet', row) && SameRow(sheet, sheet', row + 1)
    ensures forall number: nat :: JamAt(sheet, row, number) == JamAt(sheet', row, number)
    ensures StarPassRowAt(sheet, row + 1) == StarPassRowAt(sheet', row + 1)
  {
    forall base: nat ensures ParseJamSide(sheet, row, base) == ParseJamSide(sheet', row, base) {
      SideFrame(sheet, sheet', row, base);
    }
    forall base: nat, side: JamSide {:trigger WithStarPass(sheet, row + 1, base, side)}
      ensures WithStarPass(sheet, row + 1, base, side) == WithStarPass(sheet', row + 1, base, side)
    {
      SideFrame(sheet, sheet', row + 1, base);
    }
    assert SameCell(sheet, sheet', row + 1, 0) && SameCell(sheet, sheet', row + 1, AWAY_COL);
    hide ParseJamSide, WithStarPass;
  }

  predicate SameCell(sheet: Sheet, sheet': Sheet, row: nat, col: nat) { Get(sheet, row, col) == Get(sheet', row, col) }

  ghost predicate SameRow(sheet: Sheet, sheet': Sheet, row: nat) {
    forall col: nat :: SameCell(sheet, sheet', row, col)
  }

  lemma SideFrame(sheet: Sheet, sheet': Sheet, row: nat, base: nat)
    requires SameRow(sheet, sheet', row)
    ensures ParseJamSide(sheet, row, base) == ParseJamSide(sheet', row, base)
    ensures forall side :: WithStarPass(sheet, row, base, side) == WithStarPass(sheet', row, base, side)
  {
    TripFrame(sheet, sheet', row, base, 9);
    forall col: nat
      ensures CellStr(sheet, row, col) == CellStr(sheet', row, col)
    {
      assert SameCell(sheet, sheet', row, col);
    }
    forall col: nat
      ensures CellBool(sheet, row, col) == CellBool(sheet', row, col)
    {
      assert SameCell(sheet, sheet', row, col);
    }
    hide CellStr, CellBool, TripSum;
  }

  lemma {:induction false} TripFrame(sheet: Sheet, sheet': Sheet, row: nat, base: nat, n: nat)
    requires SameRow(sheet, sheet', row)
    ensures TripSum(sheet, row, base, n) == TripSum(sheet', row, base, n)
  {
    if n > 0 {
      TripFrame(sheet, sheet', row, base, n - 1);
      assert SameCell(sheet, sheet', row, base + 6 + n);
    }
  }

  // ---------- lineups ----------

  function UpperChar(c: char): char { if 'a' <= c <= 'z' then (c as int - 32) as char else c }

  predicate IsStarPassLabel(s: string) {
    var t := Trim(s);
    |t| >= 2 && UpperChar(t[0]) == 'S' && UpperChar(t[1]) == 'P'
  }

  predicate IsZeroJamPlayer(number: string) { number != "" && number[|number| - 1] == '*' }

  function PositionName(p: nat): string { if p == 0 then "jammer" else if p == 1 then "pivot" else "blocker" }

  function BoxTrips(sheet: Sheet, row: nat, col: nat): nat {
    (if CellStr(sheet, row, col + 1).Some? then 1 else 0)
    + (if CellStr(sheet, row, col + 2).Some? then 1 else 0)
    + (if CellStr(sheet, row, col + 3).Some? then 1 else 0)
  }

  function LineupEntryAt(sheet: Sheet, row: nat, col: nat, position: string): seq<LineupEntry> {
    match CellStr(sheet, row, col)
    case None => []
    case Some(number) =>
      if IsZeroJamPlayer(number) then [] else [LineupEntry(number, position, BoxTrips(sheet, row, col))]
  }

  /** The first `n` of the five positions of a side. */
  function LineupUpTo(sheet: Sheet, row: nat, noPivotCol: nat, n: nat): seq<LineupEntry> {
    if n == 0 then []
    else LineupUpTo(sheet, row, noPivotCol, n - 1)
         + LineupEntryAt(sheet, row, noPivotCol + 1 + 4 * (n - 1), PositionName(n - 1))
  }

  function ParseLineupSide(sheet: Sheet, row: nat, noPivotCol: nat): seq<LineupEntry> {
    LineupUpTo(sheet, row, noPivotCol, 5)
  }

  /** The first row from `row` on that is not a star pass row. */
  function SkipStarPasses(sheet: Sheet, row: nat): nat
    decreases sheet.rows - row
  {
    match Get(sheet, row, 0)
    case Some(Text(s)) => if IsStarPassLabel(s) then SkipStarPasses(sheet, row + 1) else row
    case _ => row
  }

  const HOME_NO_PIVOT := 1
  const AWAY_NO_PIVOT := 27

  function WithLineups(sheet: Sheet, row: nat, jam: Jam): Jam {
    jam.(home := jam.home.(lineup := ParseLineupSide(sheet, row, HOME_NO_PIVOT)),
         away := jam.away.(lineup := ParseLineupSide(sheet, row, AWAY_NO_PIVOT)))
  }

  function MergeJams(sheet: Sheet, row: nat, jams: seq<Jam>): seq<Jam>
    decreases |jams|
  {
    if jams == [] then []
    else
      var at := SkipStarPasses(sheet, row);
      [WithLineups(sheet, at, jams[0])] + MergeJams(sheet, at + 1, jams[1..])
  }

  function MergedPeriod(sheet: Sheet, i: nat, period: Period): Period {
    if i == 0 then period.(jams := MergeJams(sheet, 3, period.jams))
    else if i == 1 then period.(jams := MergeJams(sheet, 45, period.jams))
    else period
  }

  /** Lineups go to the period at each position of the list, whatever its number. */
  function Merged(sheet: Option<Sheet>, periods: seq<Period>): seq<Period> {
    if sheet.None? then periods
    else seq(|periods|, i requires 0 <= i < |periods| => MergedPeriod(sheet.value, i, periods[i]))
  }

  method SkipStarPassRows(sheet: Sheet, start: nat) returns (row: nat)
    ensures row == SkipStarPasses(sheet, start)
  {
    row := start;
    while IsText(Get(sheet, row, 0)) && IsStarPassLabel(Get(sheet, row, 0).value.s)
      invariant SkipStarPasses(sheet, row) == SkipStarPasses(sheet, start)
      decreases sheet.rows - row
    {
      row := row + 1;
    }
  }

  method MergePeriod(sheet: Sheet, start: nat, jams: seq<Jam>) returns (merged: seq<Jam>)
    ensures merged == MergeJams(sheet, start, jams)
  {
    hide WithLineups, SkipStarPasses;
    merged := [];
    var row := start;
    for k := 0 to |jams|
      invariant merged + MergeJams(sheet, row, jams[k..]) == MergeJams(sheet, start, jams)
    {
      var at := SkipStarPassRows(sheet, row);
      assert jams[k..][1..] == jams[k + 1..];
      assert MergeJams(sheet, row, jams[k..]) == [WithLineups(sheet, at, jams[k])] + MergeJams(sheet, at + 1, jams[k + 1..]);
      merged := merged + [WithLineups(sheet, at, jams[k])];
      row := at + 1;
    }
  }

  method MergeLineups(sheet: Option<Sheet>, periods: array<Period>)
    modifies periods
    ensures periods[..] == Merged(sheet, old(periods[..]))
  {
    if sheet.None? { return; }
    var starts := [3, 45];
    for pi := 0 to |starts|
      invariant forall k :: 0 <= k < periods.Length ==>
                  periods[k] == if k < pi then Merged(sheet, old(periods[..]))[k] else old(periods[k])
    {
      if pi >= periods.Length { continue; }
      var merged := MergePeriod(sheet.value, starts[pi], periods[pi].jams);
      periods[pi] := periods[pi].(jams := merged);
    }
  }
}
