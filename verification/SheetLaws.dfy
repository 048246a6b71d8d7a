/** Reading undoes printing for the Score and Lineups sheets. */
module SheetLaws {
  import opened Text
  import opened Sheets

  // ---------- what is printed ----------

  /** A value and the cell it is written in. */
  datatype Written<T> = Written(value: T, cell: Data)

  type TextCell = Written<Option<string>>
  type NumberCell = Written<int>
  type FlagCell = Written<bool>

  datatype StarPass = StarPass(mark: string, jammer: TextCell, trips: seq<NumberCell>)

  datatype Spot = Spot(number: TextCell, boxes: seq<TextCell>)

  datatype SideLayout = SideLayout(
    number: Data, jammer: TextCell,
    lost: FlagCell, lead: FlagCell, called: FlagCell, injury: FlagCell, noPivot: FlagCell,
    trips: seq<NumberCell>, starPass: Option<StarPass>, spots: seq<Spot>)

  /** Either side has a cell for the jam's number; `heading` and `passMark` are what
      the Lineups sheet shows in front of the jam and of its star pass. */
  datatype JamLayout = JamLayout(number: nat, heading: Data, passMark: string, home: SideLayout, away: SideLayout)

  datatype Game = Game(first: seq<JamLayout>, second: seq<JamLayout>)

  /** A jam takes one row, and a second one when a side passed the star. */
  datatype PrintedRow = JamRow(jam: JamLayout) | StarPassRow(jam: JamLayout)

  predicate HasStarPass(jam: JamLayout) { jam.home.starPass.Some? || jam.away.starPass.Some? }

  function RowsOf(jam: JamLayout): seq<PrintedRow> {
    [JamRow(jam)] + if HasStarPass(jam) then [StarPassRow(jam)] else []
  }

  function Rows(jams: seq<JamLayout>): seq<PrintedRow> {
    if jams == [] then [] else RowsOf(jams[0]) + Rows(jams[1..])
  }

  function SideCell(side: SideLayout, col: nat): Data {
    if col == 0 then side.number
    else if col == 1 then side.jammer.cell
    else if col == 2 then side.lost.cell
    else if col == 3 then side.lead.cell
    else if col == 4 then side.called.cell
    else if col == 5 then side.injury.cell
    else if col == 6 then side.noPivot.cell
    else if 7 <= col < 7 + |side.trips| then side.trips[col - 7].cell
    else Blank
  }

  function StarPassCell(pass: Option<StarPass>, col: nat): Data {
    if pass.None? then Blank
    else if col == 0 then Data.Text(pass.value.mark)
    else if col == 1 then pass.value.jammer.cell
    else if 7 <= col < 7 + |pass.value.trips| then pass.value.trips[col - 7].cell
    else Blank
  }

  function ScoreCell(row: PrintedRow, col: nat): Data {
    match row
    case JamRow(jam) =>
      if col < 19 then SideCell(jam.home, col) else SideCell(jam.away, col - 19)
    case StarPassRow(jam) =>
      if col < 19 then StarPassCell(jam.home.starPass, col) else StarPassCell(jam.away.starPass, col - 19)
  }

  /** Four columns a position: the number and three box trips. */
  function SpotCell(side: SideLayout, col: nat): Data {
    if col / 4 >= |side.spots| then Blank
    else
      var spot := side.spots[col / 4];
      if col % 4 == 0 then spot.number.cell
      else if col % 4 <= |spot.boxes| then spot.boxes[col % 4 - 1].cell
      else Blank
  }

  function LineupCell(row: PrintedRow, col: nat): Data {
    match row
    case JamRow(jam) =>
      if col == 0 then jam.heading
      else if col < 2 then Blank
      else if col < 28 then SpotCell(jam.home, col - 2)
      else SpotCell(jam.away, col - 28)
    case StarPassRow(jam) =>
      if col == 0 then Data.Text(jam.passMark) else Blank
  }

  function RowAt(game: Game, row: nat): Option<PrintedRow> {
    var first, second := Rows(game.first), Rows(game.second);
    if 3 <= row < 3 + |first| then Some(first[row - 3])
    else if 45 <= row < 45 + |second| then Some(second[row - 45])
    else None
  }

  function PrintScores(game: Game): Sheet {
    Sheet(45 + |Rows(game.second)|, (row: nat, col: nat) =>
      match RowAt(game, row) case None => Some(Blank) case Some(r) => Some(ScoreCell(r, col)))
  }

  function PrintLineups(game: Game): Sheet {
    Sheet(45 + |Rows(game.second)|, (row: nat, col: nat) =>
      match RowAt(game, row) case None => Some(Blank) case Some(r) => Some(LineupCell(r, col)))
  }

  // ---------- what is meant ----------

  function Sum(trips: seq<NumberCell>): int {
    if trips == [] then 0 else Sum(trips[..|trips| - 1]) + trips[|trips| - 1].value
  }

  function Points(side: SideLayout): int {
    Sum(side.trips) + if side.starPass.Some? then Sum(side.starPass.value.trips) else 0
  }

  function Filled(boxes: seq<TextCell>): nat {
    if boxes == [] then 0 else Filled(boxes[..|boxes| - 1]) + if boxes[|boxes| - 1].value.Some? then 1 else 0
  }

  const POSITIONS := ["jammer", "pivot", "blocker", "blocker", "blocker"]

  /** A star behind the number: not playing this jam. */
  ghost predicate Starred(number: string) { exists s: string :: number == s + "*" }

  /** The players of the first `n` spots, without those marked as not playing the jam. */
  ghost function Lineup(spots: seq<Spot>, n: nat): seq<LineupEntry>
    requires n <= |spots| && n <= 5
  {
    if n == 0 then [] else Lineup(spots, n - 1) + EntryOf(spots[n - 1], n - 1)
  }

  ghost function EntryOf(spot: Spot, p: nat): seq<LineupEntry>
    requires p < 5
  {
    if spot.number.value.None? || Starred(spot.number.value.value) then []
    else [LineupEntry(spot.number.value.value, POSITIONS[p], Filled(spot.boxes))]
  }

  ghost function ScoredSide(side: SideLayout): JamSide {
    JamSide(
      side.jammer.value, if side.starPass.Some? then side.starPass.value.jammer.value else None,
      side.lead.value, side.lost.value, side.called.value, side.injury.value, side.noPivot.value, Points(side), [])
  }

  ghost function Scored(jam: JamLayout): Jam
    requires LegalJam(jam)
  {
    Jam(jam.number, ScoredSide(jam.home), ScoredSide(jam.away))
  }

  ghost function Played(jam: JamLayout): Jam
    requires LegalJam(jam)
  {
    Jam(jam.number,
        ScoredSide(jam.home).(lineup := Lineup(jam.home.spots, 5)),
        ScoredSide(jam.away).(lineup := Lineup(jam.away.spots, 5)))
  }

  ghost function ScoredJams(jams: seq<JamLayout>): seq<Jam>
    requires Legal(jams)
  {
    seq(|jams|, i requires 0 <= i < |jams| => Scored(jams[i]))
  }

  ghost function PlayedJams(jams: seq<JamLayout>): seq<Jam>
    requires Legal(jams)
  {
    seq(|jams|, i requires 0 <= i < |jams| => Played(jams[i]))
  }

  ghost function PlayedGame(game: Game): seq<Period>
    requires Legal(game.first) && Legal(game.second)
  {
    PeriodOf(1, PlayedJams(game.first)) + PeriodOf(2, PlayedJams(game.second))
  }

  // ---------- what may be printed ----------

  /** The word none, in any case. */
  predicate SaysNone(s: string) {
    |s| == 4 && s[0] in {'N', 'n'} && s[1] in {'O', 'o'} && s[2] in {'N', 'n'} && s[3] in {'E', 'e'}
  }

  /** A text may stand among blanks, and one that looks like a number may be
      kept as that number; no text is anything else, or the word none. */
  predicate LegalText(text: TextCell) {
    match text.cell
    case Text(s) => text.value == if Trim(s) == "" || SaysNone(Trim(s)) then None else Some(Trim(s))
    case Int(n) => text.value == Some(IntText(n))
    case Float(whole, integral, shown) => text.value == Some(if integral then IntText(whole) else shown)
    case _ => text.value.None?
  }

  predicate LegalFlag(flag: FlagCell) {
    match flag.cell
    case Bool(b) => flag.value == b
    case Text(s) => flag.value == (Trim(s) != "")
    case _ => !flag.value
  }

  /** The cell holds this number: as one, cut to whole, as a truth value or in digits. */
  predicate Holds(cell: Data, n: int) {
    match cell
    case Int(m) => n == m
    case Float(whole, _, _) => n == whole
    case Bool(b) => n == if b then 1 else 0
    case Text(s) =>
      || (|s| > 0 && AllDigits(s) && n == DecValue(s))
      || (|s| > 1 && s[0] == '-' && AllDigits(s[1..]) && n == -(DecValue(s[1..]) as int))
    case _ => false
  }

  /** A cell without a number stands for zero. */
  ghost predicate LegalNumber(number: NumberCell) {
    Holds(number.cell, number.value) || (number.value == 0 && forall n: int :: !Holds(number.cell, n))
  }

  lemma HoldsExactly(cell: Data, n: int)
    ensures Holds(cell, n) <==> AsInteger(cell) == Some(n)
  {
  }

  lemma NumberExactly(number: NumberCell)
    ensures LegalNumber(number) <==>
      AsInteger(number.cell) == Some(number.value) || (AsInteger(number.cell).None? && number.value == 0)
  {
    forall n: int ensures Holds(number.cell, n) <==> AsInteger(number.cell) == Some(n) { HoldsExactly(number.cell, n); }
    hide AsInteger, Holds;
    assert AsInteger(number.cell).Some? ==> Holds(number.cell, AsInteger(number.cell).value);
  }

  /** A number shown as text holds that number, with a sign only if it is
      negative and without leading zeros. */
  lemma IntTextHolds(n: int)
    ensures Holds(Data.Text(IntText(n)), n)
    ensures IntText(n)[0] == '-' <==> n < 0
    ensures IntText(n)[0] == '0' <==> n == 0
    ensures n < 0 ==> IntText(n)[1] != '0'
  {
    DecRoundTrip(if n < 0 then -n else n);
    FirstDigit(if n < 0 then -n else n);
  }

  lemma {:induction false} FirstDigit(n: nat)
    ensures Dec(n)[0] == '0' <==> n == 0
    ensures IsDigit(Dec(n)[0])
  {
    if n >= 10 { FirstDigit(n / 10); }
  }

  ghost predicate LegalTrips(trips: seq<NumberCell>) {
    |trips| == 9 && forall i | 0 <= i < 9 :: LegalNumber(trips[i])
  }

  predicate LegalSpot(spot: Spot) {
    LegalText(spot.number) && |spot.boxes| == 3 && LegalText(spot.boxes[0]) && LegalText(spot.boxes[1]) && LegalText(spot.boxes[2])
  }

  ghost predicate LegalSide(side: SideLayout) {
    && !side.number.Text? && LegalText(side.jammer) && LegalTrips(side.trips)
    && LegalFlag(side.lost) && LegalFlag(side.lead) && LegalFlag(side.called) && LegalFlag(side.injury) && LegalFlag(side.noPivot)
    && (side.starPass.Some? ==> LegalText(side.starPass.value.jammer) && LegalTrips(side.starPass.value.trips))
    && -0x8000 <= Points(side) < 0x8000
    && |side.spots| == 5
    && (forall i | 0 <= i < 5 :: LegalSpot(side.spots[i]))
  }

  /** SP in front, after blanks and in any case. */
  predicate SaysStarPass(s: string) { |Trim(s)| >= 2 && Trim(s)[0] in {'S', 's'} && Trim(s)[1] in {'P', 'p'} }

  /** The cell holds a number other than zero with these low 16 bits. */
  ghost predicate Numbers(cell: Data, number: nat) {
    number < 65536 && exists n: int :: Holds(cell, n) && n != 0 && (n - number) % 65536 == 0
  }

  /** The reader takes a jam's number from the home side. */
  ghost predicate LegalJam(jam: JamLayout) {
    && Numbers(jam.home.number, jam.number)
    && (jam.heading.Text? ==> !SaysStarPass(jam.heading.s)) && (HasStarPass(jam) ==> SaysStarPass(jam.passMark))
    && LegalSide(jam.home) && LegalSide(jam.away)
  }

  ghost predicate Legal(jams: seq<JamLayout>) { forall i | 0 <= i < |jams| :: LegalJam(jams[i]) }

  /** Every jam starts below offset 38, the first at `i`. */
  predicate Fits(i: nat, jams: seq<JamLayout>)
    decreases |jams|
  {
    jams == [] || (i < 38 && Fits(i + |RowsOf(jams[0])|, jams[1..]))
  }

  // ---------- scores ----------

  /** The columns of either side that matter. */
  predicate ScoreCol(col: nat) { col <= 15 || 19 <= col <= 34 }

  /** The rows appear from `row` on, and one without numbers ends them; any other
      column may hold anything. */
  ghost predicate Shows(sheet: Sheet, row: nat, rows: seq<PrintedRow>) {
    && (forall k: nat, col: nat | k < |rows| && ScoreCol(col) :: Get(sheet, row + k, col) == Some(ScoreCell(rows[k], col)))
    && EndsAt(sheet, row + |rows|)
  }

  predicate EndsAt(sheet: Sheet, row: nat) {
    && !IsText(Get(sheet, row, 0)) && JamNumber(Get(sheet, row, 0)).None?
    && !IsText(Get(sheet, row, 19))
  }

  lemma WrapSum(a: int, b: int)
    ensures Wrap16(Wrap16(a) + Wrap16(b)) == Wrap16(a + b)
    ensures Wrap16(a + Wrap16(b)) == Wrap16(a + b)
  {
  }

  lemma WrapExactly(a: int)
    ensures -32768 <= Wrap16(a) <= 32767 && (a - Wrap16(a)) % 65536 == 0
  {
  }

  lemma WrapFits(a: int)
    requires -0x8000 <= a < 0x8000
    ensures Wrap16(a) == a
  {
  }

  lemma NumberShown(sheet: Sheet, row: nat, col: nat, number: NumberCell)
    requires LegalNumber(number) && Get(sheet, row, col) == Some(number.cell)
    ensures CellI16(sheet, row, col) == Wrap16(number.value)
  {
    NumberExactly(number);
    WrapFits(0);
    hide LegalNumber, Wrap16, AsInteger;
  }

  lemma {:induction false} TripsShown(sheet: Sheet, row: nat, base: nat, trips: seq<NumberCell>, n: nat)
    requires n <= |trips|
    requires forall k: nat | k < |trips| :: Get(sheet, row, base + 7 + k) == Some(trips[k].cell) && LegalNumber(trips[k])
    ensures Wrap16(TripSum(sheet, row, base, n)) == Wrap16(Sum(trips[..n]))
  {
    if n > 0 {
      TripsShown(sheet, row, base, trips, n - 1);
      assert trips[..n][..n - 1] == trips[..n - 1];
      assert Get(sheet, row, base + 7 + (n - 1)) == Some(trips[n - 1].cell);
      NumberShown(sheet, row, base + 6 + n, trips[n - 1]);
      WrapSum(TripSum(sheet, row, base, n - 1), trips[n - 1].value);
      WrapSum(Sum(trips[..n - 1]), trips[n - 1].value);
      WrapSum(TripSum(sheet, row, base, n - 1), Wrap16(trips[n - 1].value));
      hide Wrap16, LegalNumber, CellI16;
    }
  }

  lemma TextShown(sheet: Sheet, row: nat, col: nat, text: TextCell)
    requires LegalText(text)
    requires Get(sheet, row, col) == Some(text.cell)
    ensures CellStr(sheet, row, col) == text.value
  {
  }

  lemma FlagShown(sheet: Sheet, row: nat, col: nat, flag: FlagCell)
    requires LegalFlag(flag)
    requires Get(sheet, row, col) == Some(flag.cell)
    ensures CellBool(sheet, row, col) == flag.value
  {
  }

  /** Where the cells of one side are found on its row. */
  ghost predicate SideShown(sheet: Sheet, row: nat, base: nat, side: SideLayout) {
    forall col: nat | col <= 15 :: Get(sheet, row, base + col) == Some(SideCell(side, col))
  }

  ghost predicate PassShown(sheet: Sheet, row: nat, base: nat, pass: Option<StarPass>) {
    forall col: nat | col <= 15 :: Get(sheet, row, base + col) == Some(StarPassCell(pass, col))
  }

  lemma SideRead(sheet: Sheet, row: nat, base: nat, side: SideLayout)
    requires LegalSide(side) && SideShown(sheet, row, base, side)
    ensures ParseJamSide(sheet, row, base)
         == ScoredSide(side).(starPassJammer := None, score := Wrap16(Sum(side.trips)))
  {
    assert SideCell(side, 1) == side.jammer.cell && SideCell(side, 2) == side.lost.cell;
    assert SideCell(side, 3) == side.lead.cell && SideCell(side, 4) == side.called.cell;
    assert SideCell(side, 5) == side.injury.cell && SideCell(side, 6) == side.noPivot.cell;
    hide LegalText, LegalFlag, LegalNumber, CellStr, CellBool, Wrap16;
    TextShown(sheet, row, base + 1, side.jammer);
    FlagShown(sheet, row, base + 2, side.lost);
    FlagShown(sheet, row, base + 3, side.lead);
    FlagShown(sheet, row, base + 4, side.called);
    FlagShown(sheet, row, base + 5, side.injury);
    FlagShown(sheet, row, base + 6, side.noPivot);
    forall k: nat | k < 9 ensures Get(sheet, row, base + 7 + k) == Some(side.trips[k].cell) && LegalNumber(side.trips[k]) {
      assert Get(sheet, row, base + (7 + k)) == Some(SideCell(side, 7 + k));
    }
    TripsShown(sheet, row, base, side.trips, 9);
    assert side.trips[..9] == side.trips;
  }

  lemma PassRead(sheet: Sheet, row: nat, base: nat, side: SideLayout, read: JamSide)
    requires LegalSide(side) && PassShown(sheet, row, base, side.starPass)
    requires read == ScoredSide(side).(starPassJammer := None, score := Wrap16(Sum(side.trips)))
    ensures IsText(Get(sheet, row, base)) == side.starPass.Some?
    ensures (if IsText(Get(sheet, row, base)) then WithStarPass(sheet, row, base, read) else read) == ScoredSide(side)
  {
    assert Get(sheet, row, base + 0) == Some(StarPassCell(side.starPass, 0));
    WrapFits(Points(side));
    if side.starPass.Some? {
      var pass := side.starPass.value;
      assert StarPassCell(side.starPass, 1) == pass.jammer.cell;
      hide LegalText, LegalNumber, CellStr, Wrap16;
      TextShown(sheet, row, base + 1, pass.jammer);
      forall k: nat | k < 9 ensures Get(sheet, row, base + 7 + k) == Some(pass.trips[k].cell) && LegalNumber(pass.trips[k]) {
        assert Get(sheet, row, base + (7 + k)) == Some(StarPassCell(side.starPass, 7 + k));
      }
      TripsShown(sheet, row, base, pass.trips, 9);
      assert pass.trips[..9] == pass.trips;
      WrapSum(Sum(side.trips), Sum(pass.trips));
    }
  }

  /** A row that shows no text where a star pass would be marked changes nothing. */
  lemma NoPassRead(sheet: Sheet, row: nat, base: nat, side: SideLayout)
    requires LegalSide(side) && side.starPass.None?
    ensures ScoredSide(side).(starPassJammer := None, score := Wrap16(Sum(side.trips))) == ScoredSide(side)
  {
    WrapFits(Points(side));
  }

  ghost predicate RowShown(sheet: Sheet, at: nat, row: PrintedRow) {
    forall col: nat | ScoreCol(col) :: Get(sheet, at, col) == Some(ScoreCell(row, col))
  }

  lemma RowSides(sheet: Sheet, at: nat, jam: JamLayout)
    ensures RowShown(sheet, at, JamRow(jam)) ==>
      SideShown(sheet, at, 0, jam.home) && SideShown(sheet, at, 19, jam.away)
    ensures RowShown(sheet, at, StarPassRow(jam)) ==>
      PassShown(sheet, at, 0, jam.home.starPass) && PassShown(sheet, at, 19, jam.away.starPass)
  {
    hide SideCell, StarPassCell;
  }

  /** Whether the row after a jam shows its star pass, or nothing a reader takes for one. */
  ghost predicate NextShown(sheet: Sheet, at: nat, jam: JamLayout) {
    if HasStarPass(jam) then RowShown(sheet, at, StarPassRow(jam)) else !StarPassRowAt(sheet, at)
  }

  /** One side of a jam: its row, and the star pass row when there is one. */
  lemma SideWithPass(sheet: Sheet, at: nat, base: nat, side: SideLayout)
    requires LegalSide(side) && SideShown(sheet, at, base, side)
    requires PassShown(sheet, at + 1, base, side.starPass)
          || (side.starPass.None? && !IsText(Get(sheet, at + 1, base)))
    ensures (if IsText(Get(sheet, at + 1, base)) then WithStarPass(sheet, at + 1, base, ParseJamSide(sheet, at, base))
             else ParseJamSide(sheet, at, base)) == ScoredSide(side)
    ensures IsText(Get(sheet, at + 1, base)) == side.starPass.Some?
  {
    SideRead(sheet, at, base, side);
    if PassShown(sheet, at + 1, base, side.starPass) {
      PassRead(sheet, at + 1, base, side, ParseJamSide(sheet, at, base));
    } else {
      NoPassRead(sheet, at + 1, base, side);
    }
    hide ParseJamSide, WithStarPass, ScoredSide, SideShown, PassShown, LegalSide, Wrap16;
  }

  lemma JamRead(sheet: Sheet, at: nat, jam: JamLayout)
    requires LegalJam(jam)
    requires RowShown(sheet, at, JamRow(jam)) && NextShown(sheet, at + 1, jam)
    ensures !IsText(Get(sheet, at, 0)) && JamNumber(Get(sheet, at, 0)) == Some(jam.number)
    ensures JamAt(sheet, at, jam.number) == Scored(jam)
    ensures RowsUsed(sheet, at) == |RowsOf(jam)|
  {
    assert Get(sheet, at, 0) == Some(ScoreCell(JamRow(jam), 0)) == Some(jam.home.number);
    NumbersExactly(jam.home.number, jam.number);
    hide ParseJamSide, WithStarPass, ScoredSide, RowShown, LegalSide, SaysStarPass, ScoreCell, Numbers;
    SidesRead(sheet, at, jam);
  }

  lemma NumbersExactly(cell: Data, number: nat)
    ensures Numbers(cell, number) <==> JamNumber(Some(cell)) == Some(number)
  {
    forall n: int ensures Holds(cell, n) <==> AsInteger(cell) == Some(n) { HoldsExactly(cell, n); }
    hide AsInteger, Holds;
    if AsInteger(cell).Some? {
      var n := AsInteger(cell).value;
      if number < 65536 { LowBits(n, number); }
      assert Holds(cell, n);
    }
  }

  lemma LowBits(n: int, number: nat)
    requires number < 65536
    ensures n % 65536 == number <==> (n - number) % 65536 == 0
  {
  }

  lemma SidesRead(sheet: Sheet, at: nat, jam: JamLayout)
    requires LegalSide(jam.home) && LegalSide(jam.away)
    requires RowShown(sheet, at, JamRow(jam)) && NextShown(sheet, at + 1, jam)
    ensures forall number: nat ::
      JamAt(sheet, at, number) == Jam(number, ScoredSide(jam.home), ScoredSide(jam.away))
    ensures StarPassRowAt(sheet, at + 1) == HasStarPass(jam)
  {
    RowSides(sheet, at, jam);
    RowSides(sheet, at + 1, jam);
    hide ParseJamSide, WithStarPass, ScoredSide, RowShown, LegalSide, SideShown, PassShown, ScoreCell, IsText;
    SideWithPass(sheet, at, 0, jam.home);
    SideWithPass(sheet, at, 19, jam.away);
  }

  lemma ShowsStep(sheet: Sheet, at: nat, jams: seq<JamLayout>)
    requires jams != [] && Legal(jams) && Shows(sheet, at, Rows(jams))
    ensures RowShown(sheet, at, JamRow(jams[0])) && NextShown(sheet, at + 1, jams[0])
    ensures Shows(sheet, at + |RowsOf(jams[0])|, Rows(jams[1..]))
  {
    hide ScoreCell, LegalJam, EndsAt;
    var head, tail := RowsOf(jams[0]), Rows(jams[1..]);
    assert Rows(jams) == head + tail;
    ShowsSplit(sheet, at, head, tail);
    assert head[0] == JamRow(jams[0]);
    hide Rows, Shows;
    if HasStarPass(jams[0]) {
      assert head[1] == StarPassRow(jams[0]);
    } else {
      NextJamRow(sheet, at + 1, jams[1..]);
    }
  }

  lemma ShowsSplit(sheet: Sheet, at: nat, head: seq<PrintedRow>, tail: seq<PrintedRow>)
    requires Shows(sheet, at, head + tail)
    ensures forall k: nat | k < |head| :: RowShown(sheet, at + k, head[k])
    ensures Shows(sheet, at + |head|, tail)
  {
    hide ScoreCell, EndsAt;
    var rows := head + tail;
    forall k: nat, col: nat | k < |head| && ScoreCol(col) ensures Get(sheet, at + k, col) == Some(ScoreCell(head[k], col)) {
      assert rows[k] == head[k];
    }
    forall k: nat, col: nat | k < |tail| && ScoreCol(col)
      ensures Get(sheet, at + |head| + k, col) == Some(ScoreCell(tail[k], col))
    {
      assert Get(sheet, at + (|head| + k), col) == Some(ScoreCell(rows[|head| + k], col));
    }
  }

  /** After a jam comes another jam's numbers, or the end: no star pass either way. */
  lemma NextJamRow(sheet: Sheet, at: nat, jams: seq<JamLayout>)
    requires Legal(jams) && Shows(sheet, at, Rows(jams))
    ensures !StarPassRowAt(sheet, at)
  {
    if jams != [] {
      assert Rows(jams)[0] == JamRow(jams[0]) && LegalJam(jams[0]);
      assert ScoreCol(0) && ScoreCol(19);
      hide LegalJam, Rows;
      assert Get(sheet, at + 0, 0) == Some(ScoreCell(JamRow(jams[0]), 0));
      assert Get(sheet, at + 0, 19) == Some(ScoreCell(JamRow(jams[0]), 19));
    }
  }

  /** A period reads back as it was printed exactly when every jam starts
      within the window; otherwise jams are lost at the end. */
  lemma {:induction false} PeriodRoundTrip(sheet: Sheet, start: nat, i: nat, jams: seq<JamLayout>)
    requires Legal(jams) && Shows(sheet, start + i, Rows(jams))
    ensures Fits(i, jams) ==> ReadJams(sheet, start, i) == ScoredJams(jams)
    ensures !Fits(i, jams) ==> |ReadJams(sheet, start, i)| < |jams|
    decreases |jams|
  {
    hide ReadJams, Scored, JamNumber, IsText, JamAt, RowsUsed, LegalJam;
    Unroll(sheet, start, i);
    if jams != [] && i < 38 {
      ShowsStep(sheet, start + i, jams);
      JamRead(sheet, start + i, jams[0]);
      PeriodRoundTrip(sheet, start, i + |RowsOf(jams[0])|, jams[1..]);
      hide Shows, Rows, RowsOf, NextShown, RowShown;
      assert ScoredJams(jams) == [Scored(jams[0])] + ScoredJams(jams[1..]);
    }
  }

  // ---------- lineups ----------

  /** The heading and the columns of either side that matter. */
  predicate LineupCol(col: nat) {
    col == 0 || 2 <= col < 22 || 28 <= col < 48
  }

  ghost predicate LineupRow(sheet: Sheet, at: nat, row: PrintedRow) {
    forall col: nat | LineupCol(col) :: Get(sheet, at, col) == Some(LineupCell(row, col))
  }

  ghost predicate LineupsShown(sheet: Sheet, row: nat, rows: seq<PrintedRow>) {
    forall k: nat | k < |rows| :: LineupRow(sheet, row + k, rows[k])
  }

  ghost predicate SpotsShown(sheet: Sheet, row: nat, noPivotCol: nat, side: SideLayout) {
    forall col: nat | col < 20 :: Get(sheet, row, noPivotCol + 1 + col) == Some(SpotCell(side, col))
  }

  lemma SpotCells(sheet: Sheet, row: nat, noPivotCol: nat, side: SideLayout, p: nat, q: nat)
    requires LegalSide(side) && p < 5 && q < 4 && SpotsShown(sheet, row, noPivotCol, side)
    ensures |side.spots[p].boxes| == 3
    ensures Get(sheet, row, noPivotCol + 1 + 4 * p + q)
         == Some((if q == 0 then side.spots[p].number else side.spots[p].boxes[q - 1]).cell)
  {
    hide LegalText, LegalTrips, LegalFlag, Get;
    assert LegalSpot(side.spots[p]);
    assert (4 * p + q) / 4 == p && (4 * p + q) % 4 == q;
    assert Some(SpotCell(side, 4 * p + q)) == Get(sheet, row, noPivotCol + 1 + (4 * p + q));
  }

  lemma FilledThree(boxes: seq<TextCell>)
    requires |boxes| == 3
    ensures Filled(boxes)
         == (if boxes[0].value.Some? then 1 else 0) + (if boxes[1].value.Some? then 1 else 0) + if boxes[2].value.Some? then 1 else 0
  {
    assert boxes[..2][..1] == boxes[..1] && boxes[..1][..0] == [];
    assert Filled(boxes[..1]) == if boxes[0].value.Some? then 1 else 0;
    assert Filled(boxes[..2]) == Filled(boxes[..1]) + if boxes[1].value.Some? then 1 else 0;
  }

  lemma SpotRead(sheet: Sheet, row: nat, noPivotCol: nat, side: SideLayout, p: nat)
    requires LegalSide(side) && p < 5 && SpotsShown(sheet, row, noPivotCol, side)
    ensures CellStr(sheet, row, noPivotCol + 1 + 4 * p) == side.spots[p].number.value
    ensures BoxTrips(sheet, row, noPivotCol + 1 + 4 * p) == Filled(side.spots[p].boxes)
  {
    var spot := side.spots[p];
    assert LegalSpot(spot);
    SpotCells(sheet, row, noPivotCol, side, p, 0);
    SpotCells(sheet, row, noPivotCol, side, p, 1);
    SpotCells(sheet, row, noPivotCol, side, p, 2);
    SpotCells(sheet, row, noPivotCol, side, p, 3);
    hide SpotsShown, SpotCell, CellStr, Filled, Get, LegalText, LegalTrips, LegalFlag;
    FilledThree(spot.boxes);
    TextShown(sheet, row, noPivotCol + 1 + 4 * p + 0, spot.number);
    TextShown(sheet, row, noPivotCol + 1 + 4 * p + 1, spot.boxes[0]);
    TextShown(sheet, row, noPivotCol + 1 + 4 * p + 2, spot.boxes[1]);
    TextShown(sheet, row, noPivotCol + 1 + 4 * p + 3, spot.boxes[2]);
  }

  lemma EntryRead(sheet: Sheet, row: nat, noPivotCol: nat, side: SideLayout, p: nat)
    requires LegalSide(side) && p < 5 && SpotsShown(sheet, row, noPivotCol, side)
    ensures LineupEntryAt(sheet, row, noPivotCol + 1 + 4 * p, PositionName(p)) == EntryOf(side.spots[p], p)
  {
    assert PositionName(p) == POSITIONS[p];
    if side.spots[p].number.value.Some? { StarredExactly(side.spots[p].number.value.value); }
    hide CellStr, BoxTrips, Filled, PositionName, SpotsShown, LegalSpot, Starred, IsZeroJamPlayer;
    SpotRead(sheet, row, noPivotCol, side, p);
  }

  lemma StarredExactly(number: string)
    ensures Starred(number) <==> IsZeroJamPlayer(number)
  {
    if IsZeroJamPlayer(number) { assert number == number[..|number| - 1] + "*"; }
  }

  /** A side with five players reads back as these, under the names of their positions. */
  lemma FullSideRead(sheet: Sheet, row: nat, noPivotCol: nat, side: SideLayout)
    requires LegalSide(side) && SpotsShown(sheet, row, noPivotCol, side)
    requires forall p | 0 <= p < 5 :: side.spots[p].number.value.Some? && !Starred(side.spots[p].number.value.value)
    ensures ParseLineupSide(sheet, row, noPivotCol) == [
      LineupEntry(side.spots[0].number.value.value, "jammer", Filled(side.spots[0].boxes)),
      LineupEntry(side.spots[1].number.value.value, "pivot", Filled(side.spots[1].boxes)),
      LineupEntry(side.spots[2].number.value.value, "blocker", Filled(side.spots[2].boxes)),
      LineupEntry(side.spots[3].number.value.value, "blocker", Filled(side.spots[3].boxes)),
      LineupEntry(side.spots[4].number.value.value, "blocker", Filled(side.spots[4].boxes))]
  {
    LineupRead(sheet, row, noPivotCol, side, 5);
    hide LineupUpTo, SpotsShown, LegalSpot, Starred, Filled, LegalTrips, LegalFlag, LegalText;
    assert Lineup(side.spots, 3) == Lineup(side.spots, 2) + EntryOf(side.spots[2], 2);
    assert Lineup(side.spots, 1) == EntryOf(side.spots[0], 0);
  }

  lemma {:induction false} LineupRead(sheet: Sheet, row: nat, noPivotCol: nat, side: SideLayout, n: nat)
    requires LegalSide(side) && n <= 5 && SpotsShown(sheet, row, noPivotCol, side)
    ensures LineupUpTo(sheet, row, noPivotCol, n) == Lineup(side.spots, n)
  {
    hide LineupEntryAt, EntryOf, PositionName, SpotsShown, LegalSpot;
    if n > 0 {
      LineupRead(sheet, row, noPivotCol, side, n - 1);
      EntryRead(sheet, row, noPivotCol, side, n - 1);
    }
  }

  lemma JamLineups(sheet: Sheet, row: nat, jam: JamLayout)
    requires LegalJam(jam)
    requires LineupRow(sheet, row, JamRow(jam))
    ensures WithLineups(sheet, row, Scored(jam)) == Played(jam)
    ensures SkipStarPasses(sheet, row) == row
  {
    assert Get(sheet, row, 0) == Some(jam.heading);
    if jam.heading.Text? { SaysExactly(jam.heading.s); }
    forall col: nat | col < 20
      ensures Get(sheet, row, 2 + col) == Some(SpotCell(jam.home, col))
      ensures Get(sheet, row, 28 + col) == Some(SpotCell(jam.away, col))
    {
      hide SpotCell;
    }
    LineupRead(sheet, row, 1, jam.home, 5);
    LineupRead(sheet, row, 27, jam.away, 5);
    hide Lineup, LineupUpTo, ScoredSide, LegalSide;
  }

  lemma SaysExactly(s: string)
    ensures SaysStarPass(s) <==> IsStarPassLabel(s)
  {
    hide Trim;
  }

  /** Star pass rows between two jams are passed over. */
  lemma SkipPassRow(sheet: Sheet, row: nat, jam: JamLayout)
    requires LineupRow(sheet, row, StarPassRow(jam)) && SaysStarPass(jam.passMark)
    ensures SkipStarPasses(sheet, row) == SkipStarPasses(sheet, row + 1)
  {
    assert Get(sheet, row, 0) == Some(Data.Text(jam.passMark));
    SaysExactly(jam.passMark);
    hide IsStarPassLabel, SaysStarPass;
  }

  lemma {:induction false} LineupsStep(sheet: Sheet, row: nat, jams: seq<JamLayout>)
    requires jams != [] && LineupsShown(sheet, row, Rows(jams))
    ensures LineupRow(sheet, row, JamRow(jams[0]))
    ensures HasStarPass(jams[0]) ==> LineupRow(sheet, row + 1, StarPassRow(jams[0]))
    ensures LineupsShown(sheet, row + |RowsOf(jams[0])|, Rows(jams[1..]))
  {
    hide LineupRow;
    var head, tail := RowsOf(jams[0]), Rows(jams[1..]);
    var rows := Rows(jams);
    assert rows == head + tail;
    assert LineupRow(sheet, row + 0, rows[0]);
    if HasStarPass(jams[0]) { assert LineupRow(sheet, row + 1, rows[1]); }
    forall k: nat | k < |tail| ensures LineupRow(sheet, row + |head| + k, tail[k]) {
      assert LineupRow(sheet, row + (|head| + k), rows[|head| + k]);
    }
  }

  lemma {:induction false} LineupsRoundTrip(sheet: Sheet, row: nat, jams: seq<JamLayout>)
    requires Legal(jams) && LineupsShown(sheet, row, Rows(jams))
    ensures MergeJams(sheet, row, ScoredJams(jams)) == PlayedJams(jams)
    decreases |jams|
  {
    hide Scored, Played, WithLineups, LegalJam, SkipStarPasses, MergeJams, LineupsShown, Rows;
    if jams == [] {
      assert ScoredJams(jams) == [] && PlayedJams(jams) == [];
      MergeNone(sheet, row);
    } else {
      FirstLineups(sheet, row, jams);
      LineupsRoundTrip(sheet, row + |RowsOf(jams[0])|, jams[1..]);
      MergeCons(sheet, row, Scored(jams[0]), ScoredJams(jams[1..]));
      SameMerge(sheet, row + 1, row + |RowsOf(jams[0])|, ScoredJams(jams[1..]));
      assert ScoredJams(jams) == [Scored(jams[0])] + ScoredJams(jams[1..]);
      assert PlayedJams(jams) == [Played(jams[0])] + PlayedJams(jams[1..]);
    }
  }

  lemma FirstLineups(sheet: Sheet, row: nat, jams: seq<JamLayout>)
    requires jams != [] && LegalJam(jams[0]) && LineupsShown(sheet, row, Rows(jams))
    ensures SkipStarPasses(sheet, row) == row && WithLineups(sheet, row, Scored(jams[0])) == Played(jams[0])
    ensures SkipStarPasses(sheet, row + 1) == SkipStarPasses(sheet, row + |RowsOf(jams[0])|)
    ensures LineupsShown(sheet, row + |RowsOf(jams[0])|, Rows(jams[1..]))
  {
    assert HasStarPass(jams[0]) ==> SaysStarPass(jams[0].passMark);
    hide LegalJam, SaysStarPass, LineupsShown, LineupRow, Rows, SkipStarPasses, WithLineups, Scored, Played;
    LineupsStep(sheet, row, jams);
    JamLineups(sheet, row, jams[0]);
    if HasStarPass(jams[0]) { SkipPassRow(sheet, row + 1, jams[0]); }
  }

  lemma MergeNone(sheet: Sheet, row: nat)
    ensures MergeJams(sheet, row, []) == []
  {
  }

  lemma MergeCons(sheet: Sheet, row: nat, jam: Jam, rest: seq<Jam>)
    ensures MergeJams(sheet, row, [jam] + rest)
         == [WithLineups(sheet, SkipStarPasses(sheet, row), jam)] + MergeJams(sheet, SkipStarPasses(sheet, row) + 1, rest)
  {
    hide WithLineups, SkipStarPasses;
    assert ([jam] + rest)[1..] == rest;
  }

  lemma SameMerge(sheet: Sheet, row: nat, row': nat, jams: seq<Jam>)
    requires SkipStarPasses(sheet, row) == SkipStarPasses(sheet, row')
    ensures MergeJams(sheet, row, jams) == MergeJams(sheet, row', jams)
  {
    hide WithLineups, SkipStarPasses;
  }

  // ---------- the whole game ----------

  lemma {:induction false} FitsHeight(i: nat, jams: seq<JamLayout>)
    requires Fits(i, jams) && jams != []
    ensures i + |Rows(jams)| <= 39
    decreases |jams|
  {
    assert |RowsOf(jams[0])| <= 2;
    if |jams| > 1 { FitsHeight(i + |RowsOf(jams[0])|, jams[1..]); }
  }

  ghost predicate Printable(game: Game) {
    Legal(game.first) && Legal(game.second) && Fits(0, game.first) && Fits(0, game.second)
  }

  lemma RowsPlaced(game: Game)
    requires Printable(game)
    ensures forall k: nat | k < |Rows(game.first)| :: RowAt(game, 3 + k) == Some(Rows(game.first)[k])
    ensures forall k: nat | k < |Rows(game.second)| :: RowAt(game, 45 + k) == Some(Rows(game.second)[k])
    ensures forall row: nat | 3 + |Rows(game.first)| <= row < 45 || row >= 45 + |Rows(game.second)| ::
      RowAt(game, row).None?
  {
    if game.first != [] { FitsHeight(0, game.first); }
    hide Fits;
  }

  /** The two sheets show the game; what else they hold does not matter, but an
      empty first period leaves its lineups blank. */
  ghost predicate Writes(scores: Sheet, lineups: Sheet, game: Game) {
    && Shows(scores, 3, Rows(game.first)) && Shows(scores, 45, Rows(game.second))
    && LineupsShown(lineups, 3, Rows(game.first)) && LineupsShown(lineups, 45, Rows(game.second))
    && (game.first == [] ==> BlankRows(lineups, 3, 38))
  }

  ghost predicate BlankRows(sheet: Sheet, row: nat, n: nat) {
    forall r: nat, col: nat | row <= r < row + n :: Get(sheet, r, col) == Some(Blank)
  }

  lemma BlockPrinted(game: Game, start: nat, rows: seq<PrintedRow>)
    requires forall k: nat | k < |rows| :: RowAt(game, start + k) == Some(rows[k])
    requires RowAt(game, start + |rows|).None? && |Rows(game.first)| <= 39
    ensures Shows(PrintScores(game), start, rows) && LineupsShown(PrintLineups(game), start, rows)
  {
    forall k: nat, col: nat | k < |rows|
      ensures Get(PrintScores(game), start + k, col) == Some(ScoreCell(rows[k], col))
      ensures Get(PrintLineups(game), start + k, col) == Some(LineupCell(rows[k], col))
    {
      assert RowAt(game, start + k) == Some(rows[k]);
    }
    hide Rows, RowAt, ScoreCell, LineupCell;
  }

  /** Nothing follows the rows of either period, and the first leaves room for the second. */
  lemma BlocksEnd(game: Game)
    requires Printable(game)
    ensures RowAt(game, 3 + |Rows(game.first)|).None? && RowAt(game, 45 + |Rows(game.second)|).None?
    ensures |Rows(game.first)| <= 39
  {
    if game.first != [] { FitsHeight(0, game.first); }
    RowsPlaced(game);
    hide Rows, RowAt, Fits, Legal;
  }

  lemma FirstPrinted(game: Game)
    requires Printable(game)
    ensures Shows(PrintScores(game), 3, Rows(game.first)) && LineupsShown(PrintLineups(game), 3, Rows(game.first))
  {
    hide Rows, RowAt, Shows, LineupsShown, PrintScores, PrintLineups, Printable;
    BlocksEnd(game);
    RowsPlaced(game);
    BlockPrinted(game, 3, Rows(game.first));
  }

  lemma SecondPrinted(game: Game)
    requires Printable(game)
    ensures Shows(PrintScores(game), 45, Rows(game.second)) && LineupsShown(PrintLineups(game), 45, Rows(game.second))
  {
    hide Rows, RowAt, Shows, LineupsShown, PrintScores, PrintLineups, Printable;
    BlocksEnd(game);
    RowsPlaced(game);
    BlockPrinted(game, 45, Rows(game.second));
  }

  /** Such sheets exist for every game that fits. */
  lemma PrintWrites(game: Game)
    requires Printable(game)
    ensures Writes(PrintScores(game), PrintLineups(game), game)
  {
    hide Rows, Shows, LineupsShown, PrintScores, PrintLineups, Printable, BlankRows;
    FirstPrinted(game);
    SecondPrinted(game);
    if game.first == [] { BlankPrinted(game); }
  }

  lemma BlankPrinted(game: Game)
    requires game.first == []
    ensures BlankRows(PrintLineups(game), 3, 38)
  {
    assert forall row: nat | 3 <= row < 45 :: RowAt(game, row).None?;
    hide RowAt, LineupCell;
  }

  /** The Score sheet alone: both periods come back, without lineups. */
  lemma ScoresRoundTrip(scores: Sheet, lineups: Sheet, game: Game)
    requires Printable(game) && Writes(scores, lineups, game)
    ensures ReadPeriods(scores) == PeriodOf(1, ScoredJams(game.first)) + PeriodOf(2, ScoredJams(game.second))
  {
    hide Rows, Legal, Shows, ScoredJams, ReadJams, LineupsShown;
    PeriodRoundTrip(scores, 3, 0, game.first);
    PeriodRoundTrip(scores, 45, 0, game.second);
  }

  ghost predicate NoLineups(jam: JamLayout)
    requires LegalJam(jam)
  {
    Lineup(jam.home.spots, 5) == [] && Lineup(jam.away.spots, 5) == []
  }

  /** Both sheets give the game back exactly when the first period is not empty
      or no lineup was written: lineups go to periods by position in the list,
      and an empty first period is not in it. */
  lemma GameRoundTrip(scores: Sheet, lineups: Sheet, game: Game)
    requires Printable(game) && Writes(scores, lineups, game)
    ensures Merged(Some(lineups), ReadPeriods(scores)) == PlayedGame(game)
       <==> game.first != [] || forall i | 0 <= i < |game.second| :: NoLineups(game.second[i])
  {
    hide ReadPeriods, Legal, LineupsShown, Rows, MergeJams, Fits, ScoredJams, PlayedJams, NoLineups;
    var first, second := game.first, game.second;
    ScoresRoundTrip(scores, lineups, game);
    LengthsAgree(first);
    LengthsAgree(second);
    if first != [] {
      LineupsRoundTrip(lineups, 3, first);
      LineupsRoundTrip(lineups, 45, second);
    } else if second != [] {
      BlankLineups(lineups, second);
      SameJams(second);
      var periods, played := [Period(2, ScoredJams(second))], [Period(2, PlayedJams(second))];
      assert ReadPeriods(scores) == periods && PlayedGame(game) == played;
      assert Merged(Some(lineups), periods) == periods;
      assert periods == played <==> periods[0].jams == played[0].jams;
    } else {
      assert ReadPeriods(scores) == [] && PlayedGame(game) == [];
      assert Merged(Some(lineups), []) == [];
    }
  }

  lemma LengthsAgree(jams: seq<JamLayout>)
    requires Legal(jams)
    ensures |ScoredJams(jams)| == |PlayedJams(jams)| == |jams|
  {
  }

  lemma SameJams(jams: seq<JamLayout>)
    requires Legal(jams)
    ensures ScoredJams(jams) == PlayedJams(jams) <==> forall i | 0 <= i < |jams| :: NoLineups(jams[i])
  {
    hide LegalJam, Lineup;
    forall i | 0 <= i < |jams| ensures NoLineups(jams[i]) <==> Scored(jams[i]) == Played(jams[i]) {
    }
    assert forall i | 0 <= i < |jams| :: ScoredJams(jams)[i] == Scored(jams[i]) && PlayedJams(jams)[i] == Played(jams[i]);
  }

  /** Jams merged with the blank rows of an empty first period get no lineups. */
  lemma BlankLineups(sheet: Sheet, jams: seq<JamLayout>)
    requires Legal(jams) && Fits(0, jams) && BlankRows(sheet, 3, 38)
    ensures MergeJams(sheet, 3, ScoredJams(jams)) == ScoredJams(jams)
  {
    if jams != [] { CountFits(0, jams); }
    hide Fits;
    MergeBlank(sheet, 3, ScoredJams(jams));
  }

  lemma {:induction false} CountFits(i: nat, jams: seq<JamLayout>)
    requires Fits(i, jams) && jams != []
    ensures i + |jams| <= 38
    decreases |jams|
  {
    if |jams| > 1 { CountFits(i + |RowsOf(jams[0])|, jams[1..]); }
  }

  lemma {:induction false} MergeBlank(sheet: Sheet, row: nat, jams: seq<Jam>)
    requires forall r: nat, col: nat | row <= r < row + |jams| :: Get(sheet, r, col) == Some(Blank)
    requires forall i | 0 <= i < |jams| :: jams[i].home.lineup == [] && jams[i].away.lineup == []
    ensures MergeJams(sheet, row, jams) == jams
    decreases |jams|
  {
    hide SkipStarPasses, WithLineups, MergeJams;
    if jams == [] {
      MergeNone(sheet, row);
    } else {
      BlankRow(sheet, row, jams[0]);
      MergeBlank(sheet, row + 1, jams[1..]);
      MergeCons(sheet, row, jams[0], jams[1..]);
      assert jams == [jams[0]] + jams[1..];
    }
  }

  lemma BlankRow(sheet: Sheet, row: nat, jam: Jam)
    requires forall col: nat :: Get(sheet, row, col) == Some(Blank)
    requires jam.home.lineup == [] && jam.away.lineup == []
    ensures SkipStarPasses(sheet, row) == row && WithLineups(sheet, row, jam) == jam
  {
    BlankLineup(sheet, row, 1, 5);
    BlankLineup(sheet, row, 27, 5);
    hide LineupUpTo;
    assert Get(sheet, row, 0) == Some(Blank);
  }

  lemma {:induction false} BlankLineup(sheet: Sheet, row: nat, noPivotCol: nat, n: nat)
    requires forall col: nat :: Get(sheet, row, col) == Some(Blank)
    ensures LineupUpTo(sheet, row, noPivotCol, n) == []
  {
    if n > 0 { BlankLineup(sheet, row, noPivotCol, n - 1); }
  }
}
