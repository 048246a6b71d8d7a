/** The paged games scan and its incremental watermark
    (src/ingest/wftda.rs:265-402, 415-503). Dates are days since 1970. */
module GamesSync {
  import opened Text
  import opened Matching

  /** 2023-01-01. */
  const ERA := 19358

  // ---------- the remote side ----------

  datatype ApiTeam = ApiTeam(id: int, title: string, score: Option<int>)

  /** One result; no date when its text is not one. */
  datatype ApiResult = ApiResult(
    id: int, date: Option<int>, team1: ApiTeam, team2: ApiTeam, region: Option<int>, seeding: bool)

  /** A response: an error (also `success = false`), or rows with the reported last page. */
  datatype Page = Failed | Page(rows: seq<ApiResult>, lastPage: nat)

  /** Pages are numbered from 1; past the end they are empty. */
  function Fetch(pages: seq<Page>, page: nat): Page {
    if 1 <= page <= |pages| then pages[page - 1] else Page([], 0)
  }

  // ---------- the local side ----------

  datatype TeamRow = TeamRow(title: string, slug: Option<string>, inTeamsApi: bool)

  datatype GameRow = GameRow(
    date: int, team1: int, team2: int, score1: i16, score2: i16, region: Option<int>, seeding: bool)

  datatype Tables = Tables(teams: map<int, TeamRow>, games: map<int, GameRow>)

  predicate FitsI16(n: Option<int>) { n.Some? && -0x8000 <= n.value < 0x8000 }

  /** Games from the era on, with both scores present and in range. */
  predicate Kept(r: ApiResult) {
    r.date.Some? && r.date.value >= ERA && FitsI16(r.team1.score) && FitsI16(r.team2.score)
  }

  function RowOf(r: ApiResult): GameRow
    requires Kept(r)
  {
    GameRow(r.date.value, r.team1.id, r.team2.id, r.team1.score.value, r.team2.score.value, r.region, r.seeding)
  }

  predicate AllDated(rows: seq<ApiResult>) { forall i | 0 <= i < |rows| :: rows[i].date.Some? }

  function Oldest(rows: seq<ApiResult>): int
    requires rows != [] && AllDated(rows)
  {
    var last := rows[|rows| - 1].date.value;
    if |rows| == 1 then last
    else
      var before := Oldest(rows[..|rows| - 1]);
      if before < last then before else last
  }

  predicate StopsAt(rows: seq<ApiResult>, lastPage: nat, page: nat, stopBefore: int)
    requires rows != [] && AllDated(rows)
  {
    Oldest(rows) < stopBefore || page >= lastPage
  }

  /** The rows of the pages a scan reads from `page` on, or an error. */
  function Scan(pages: seq<Page>, page: nat, stopBefore: int): Result<seq<ApiResult>, ()>
    requires page >= 1
    decreases |pages| + 1 - page
  {
    match Fetch(pages, page)
    case Failed => Err(())
    case Page(rows, lastPage) =>
      if rows == [] then Ok([])
      else if !AllDated(rows) then Err(())
      else if StopsAt(rows, lastPage, page, stopBefore) then Ok(rows)
      else match Scan(pages, page + 1, stopBefore)
        case Err(e) => Err(e)
        case Ok(rest) => Ok(rows + rest)
  }

  /** Games are written in scan order: a later row with the same id wins. */
  function Upserted(games: map<int, GameRow>, rows: seq<ApiResult>): map<int, GameRow>
    decreases |rows|
  {
    if rows == [] then games
    else
      var last := rows[|rows| - 1];
      var before := Upserted(games, rows[..|rows| - 1]);
      if Kept(last) then before[last.id := RowOf(last)] else before
  }

  function Stub(title: string): TeamRow { TeamRow(title, None, false) }

  /** Teams get a stub under the first title seen; rows already there stay. */
  function Stubbed(teams: map<int, TeamRow>, rows: seq<ApiResult>): map<int, TeamRow>
    decreases |rows|
  {
    if rows == [] then teams
    else
      var last := rows[|rows| - 1];
      var before := Stubbed(teams, rows[..|rows| - 1]);
      if Kept(last) then WithStub(WithStub(before, last.team1), last.team2) else before
  }

  function WithStub(teams: map<int, TeamRow>, team: ApiTeam): map<int, TeamRow> {
    if team.id in teams then teams else teams[team.id := Stub(team.title)]
  }

  function KeptCount(rows: seq<ApiResult>): nat {
    if rows == [] then 0 else KeptCount(rows[..|rows| - 1]) + if Kept(rows[|rows| - 1]) then 1 else 0
  }

  function Synced(tables: Tables, rows: seq<ApiResult>): Tables {
    Tables(Stubbed(tables.teams, rows), Upserted(tables.games, rows))
  }

  // ---------- the scan ----------

  datatype Listed = Listed(id: int, row: GameRow)

  function KeptRows(rows: seq<ApiResult>): seq<Listed> {
    if rows == [] then []
    else KeptRows(rows[..|rows| - 1])
         + if Kept(rows[|rows| - 1]) then [Listed(rows[|rows| - 1].id, RowOf(rows[|rows| - 1]))] else []
  }

  /** One row, once its date is known. */
  method ReadRow(r: ApiResult, games: seq<Listed>, stubs: map<int, TeamRow>, ghost earlier: seq<ApiResult>)
    returns (games': seq<Listed>, stubs': map<int, TeamRow>)
    requires r.date.Some? && games == KeptRows(earlier) && stubs == Stubbed(map[], earlier)
    ensures games' == KeptRows(earlier + [r]) && stubs' == Stubbed(map[], earlier + [r])
  {
    games', stubs' := games, stubs;
    assert (earlier + [r])[..|earlier|] == earlier;
    if r.date.value < ERA { return; }
    if r.team1.score.None? || r.team2.score.None? { return; }
    if !FitsI16(r.team1.score) || !FitsI16(r.team2.score) { return; }
    stubs' := WithStub(WithStub(stubs, r.team1), r.team2);
    games' := games + [Listed(r.id, RowOf(r))];
  }

  method ReadPage(rows: seq<ApiResult>, games: seq<Listed>, stubs: map<int, TeamRow>, ghost earlier: seq<ApiResult>)
    returns (oldest: Option<int>, games': seq<Listed>, stubs': map<int, TeamRow>, dated: bool)
    requires games == KeptRows(earlier) && stubs == Stubbed(map[], earlier)
    ensures dated == AllDated(rows)
    ensures dated && rows != [] ==> oldest == Some(Oldest(rows))
    ensures dated ==> games' == KeptRows(earlier + rows) && stubs' == Stubbed(map[], earlier + rows)
  {
    hide KeptRows, Stubbed;
    oldest, games', stubs', dated := None, games, stubs, true;
    assert earlier + rows[..0] == earlier;
    for k := 0 to |rows|
      invariant AllDated(rows[..k]) && oldest == OldestOf(rows[..k])
      invariant dated && games' == KeptRows(earlier + rows[..k]) && stubs' == Stubbed(map[], earlier + rows[..k])
    {
      var r := rows[k];
      if r.date.None? {
        dated := false;
        return;
      }
      assert earlier + rows[..k + 1] == earlier + rows[..k] + [r];
      Grow(rows, k);
      hide AllDated, OldestOf;
      oldest := Some(if oldest.Some? && oldest.value < r.date.value then oldest.value else r.date.value);
      games', stubs' := ReadRow(r, games', stubs', earlier + rows[..k]);
    }
    assert rows[..|rows|] == rows;
  }

  function OldestOf(rows: seq<ApiResult>): Option<int>
    requires AllDated(rows)
  {
    if rows == [] then None else Some(Oldest(rows))
  }

  lemma Grow(rows: seq<ApiResult>, k: nat)
    requires k < |rows| && AllDated(rows[..k]) && rows[k].date.Some?
    ensures AllDated(rows[..k + 1])
    ensures var before, date := OldestOf(rows[..k]), rows[k].date.value;
      OldestOf(rows[..k + 1]) == Some(if before.Some? && before.value < date then before.value else date)
  {
    assert rows[..k + 1][..k] == rows[..k];
  }

  method ScanPages(pages: seq<Page>, stopBefore: int)
    returns (ok: bool, games: seq<Listed>, stubs: map<int, TeamRow>)
    ensures ok == Scan(pages, 1, stopBefore).Ok?
    ensures ok ==> var rows := Scan(pages, 1, stopBefore).value;
      games == KeptRows(rows) && stubs == Stubbed(map[], rows)
  {
    hide KeptRows, Stubbed, AllDated, StopsAt, Scan;
    ok, games, stubs := true, [], map[];
    var page := 1;
    ghost var seen := [];
    Nothing();
    while true
      invariant page >= 1 && ok
      invariant games == KeptRows(seen) && stubs == Stubbed(map[], seen)
      invariant Scan(pages, 1, stopBefore) == Prepend(seen, Scan(pages, page, stopBefore))
      decreases |pages| + 1 - page
    {
      ScanStep(pages, page, stopBefore);
      var response := Fetch(pages, page);
      if response.Failed? {
        ok := false;
        return;
      }
      var rows := response.rows;
      if rows == [] {
        assert seen + [] == seen;
        return;
      }
      var oldest, games', stubs', dated := ReadPage(rows, games, stubs, seen);
      if !dated {
        ok := false;
        return;
      }
      games, stubs := games', stubs';
      PrependTwice(seen, rows, Scan(pages, page + 1, stopBefore));
      seen := seen + rows;
      var lastPage := if response.lastPage > page then response.lastPage else page;
      StopsRule(rows, response.lastPage, page, stopBefore);
      if oldest.value < stopBefore || page >= lastPage { return; }
      page := page + 1;
    }
  }

  function Prepend(rows: seq<ApiResult>, rest: Result<seq<ApiResult>, ()>): Result<seq<ApiResult>, ()> {
    match rest case Err(e) => Err(e) case Ok(more) => Ok(rows + more)
  }

  lemma PrependTwice(a: seq<ApiResult>, b: seq<ApiResult>, rest: Result<seq<ApiResult>, ()>)
    ensures Prepend(a, Prepend(b, rest)) == Prepend(a + b, rest)
  {
    if rest.Ok? { assert a + (b + rest.value) == a + b + rest.value; }
  }

  lemma Nothing()
    ensures KeptRows([]) == [] && Stubbed(map[], []) == map[]
    ensures forall r: Result<seq<ApiResult>, ()> :: Prepend([], r) == r
  {
    forall r: Result<seq<ApiResult>, ()> ensures Prepend([], r) == r {
      if r.Ok? { assert [] + r.value == r.value; }
    }
  }

  lemma StopsRule(rows: seq<ApiResult>, lastPage: nat, page: nat, stopBefore: int)
    requires rows != [] && AllDated(rows)
    ensures StopsAt(rows, lastPage, page, stopBefore)
       <==> Oldest(rows) < stopBefore || page >= if lastPage > page then lastPage else page
  {
  }

  lemma ScanStep(pages: seq<Page>, page: nat, stopBefore: int)
    requires page >= 1
    ensures var response := Fetch(pages, page);
      Scan(pages, page, stopBefore) ==
      if response.Failed? then Err(())
      else if response.rows == [] then Ok([])
      else if !AllDated(response.rows) then Err(())
      else if StopsAt(response.rows, response.lastPage, page, stopBefore) then Ok(response.rows)
      else Prepend(response.rows, Scan(pages, page + 1, stopBefore))
  {
  }

  // ---------- which pages a scan reads ----------

  /** The page has rows, all dated and none older than `stopBefore`, and is not the last. */
  ghost predicate LeadsOn(response: Page, page: nat, stopBefore: int) {
    && response.Page? && response.rows != [] && page < response.lastPage
    && forall i | 0 <= i < |response.rows| :: response.rows[i].date.Some? && response.rows[i].date.value >= stopBefore
  }

  /** The page is empty, or all its rows are dated and one is older or it is the last. */
  ghost predicate Ends(response: Page, page: nat, stopBefore: int) {
    response.Page? && (response.rows == [] ||
      ((forall i | 0 <= i < |response.rows| :: response.rows[i].date.Some?)
       && (page >= response.lastPage || exists i | 0 <= i < |response.rows| :: response.rows[i].date.value < stopBefore)))
  }

  /** The pages `page` to `last` lead to an end and hold these rows. */
  ghost predicate Reads(pages: seq<Page>, page: nat, last: nat, stopBefore: int, rows: seq<ApiResult>)
    decreases last - page
  {
    page <= last && Fetch(pages, page).Page? &&
    if page == last then Ends(Fetch(pages, page), page, stopBefore) && rows == Fetch(pages, page).rows
    else
      && LeadsOn(Fetch(pages, page), page, stopBefore) && Fetch(pages, page).rows <= rows
      && Reads(pages, page + 1, last, stopBefore, rows[|Fetch(pages, page).rows|..])
  }

  /** A scan succeeds exactly when pages that lead on come before one that ends
      it, and then it has read just their rows. */
  lemma ScanExactly(pages: seq<Page>, page: nat, stopBefore: int, rows: seq<ApiResult>)
    requires page >= 1
    ensures Scan(pages, page, stopBefore) == Ok(rows) <==> exists last: nat :: Reads(pages, page, last, stopBefore, rows)
  {
    hide Scan, Reads;
    if Scan(pages, page, stopBefore) == Ok(rows) { var last := ScanReads(pages, page, stopBefore); }
    if last: nat :| Reads(pages, page, last, stopBefore, rows) { ReadIsScan(pages, page, last, stopBefore, rows); }
  }

  lemma {:induction false} ScanReads(pages: seq<Page>, page: nat, stopBefore: int) returns (last: nat)
    requires page >= 1 && Scan(pages, page, stopBefore).Ok?
    ensures Reads(pages, page, last, stopBefore, Scan(pages, page, stopBefore).value)
    decreases |pages| + 1 - page
  {
    hide Scan;
    ScanStep(pages, page, stopBefore);
    var response := Fetch(pages, page);
    PageEnds(response, page, stopBefore);
    hide LeadsOn, Ends;
    if Ends(response, page, stopBefore) {
      last := page;
    } else {
      last := ScanReads(pages, page + 1, stopBefore);
      assert Scan(pages, page, stopBefore).value[|response.rows|..] == Scan(pages, page + 1, stopBefore).value;
    }
  }

  lemma {:induction false} ReadIsScan(pages: seq<Page>, page: nat, last: nat, stopBefore: int, rows: seq<ApiResult>)
    requires page >= 1 && Reads(pages, page, last, stopBefore, rows)
    ensures Scan(pages, page, stopBefore) == Ok(rows)
    decreases last - page
  {
    hide Scan;
    ScanStep(pages, page, stopBefore);
    PageEnds(Fetch(pages, page), page, stopBefore);
    if page < last {
      var n := |Fetch(pages, page).rows|;
      ReadIsScan(pages, page + 1, last, stopBefore, rows[n..]);
      assert rows == Fetch(pages, page).rows + rows[n..];
    }
  }

  /** How a scan judges a page. */
  lemma PageEnds(response: Page, page: nat, stopBefore: int)
    ensures LeadsOn(response, page, stopBefore) ==> !Ends(response, page, stopBefore)
    ensures Ends(response, page, stopBefore) <==>
      response.Page? && (response.rows == [] ||
        (AllDated(response.rows) && StopsAt(response.rows, response.lastPage, page, stopBefore)))
    ensures LeadsOn(response, page, stopBefore) <==>
      && response.Page? && response.rows != [] && AllDated(response.rows)
      && !StopsAt(response.rows, response.lastPage, page, stopBefore)
  {
    if response.Page? && response.rows != [] && AllDated(response.rows) {
      OldestIsOne(response.rows);
      OldestIsLeast(response.rows);
    }
  }

  // ---------- the scope of a scan ----------

  datatype Scope = Scope(full: bool, stopBefore: int)

  /** A full scan without a marker, without games, or when the marker is old;
      otherwise back to `lookback` days before the newest game, not below the era. */
  function GamesScanScope(now: int, lastFull: Option<int>, maxDate: Option<int>, lookback: nat, fullInterval: nat): Scope {
    if maxDate.None? || lastFull.None? || now - lastFull.value >= fullInterval then Scope(true, ERA)
    else
      var watermark := maxDate.value - lookback;
      Scope(false, if watermark > ERA then watermark else ERA)
  }

  /** The newest date stored, which also tells whether any game is. */
  ghost predicate IsMaxDate(games: map<int, GameRow>, date: Option<int>) {
    if date.None? then games == map[]
    else (exists id :: id in games && games[id].date == date.value)
         && forall id | id in games :: games[id].date <= date.value
  }

  lemma {:induction false} SomeMaxDate(games: map<int, GameRow>)
    ensures exists date :: IsMaxDate(games, date)
    decreases |games|
  {
    if games == map[] {
      assert IsMaxDate(games, None);
    } else {
      var id := Member(games.Keys);
      var rest := games - {id};
      SomeMaxDate(rest);
      var before :| IsMaxDate(rest, before);
      var date := if before.None? || before.value < games[id].date then Some(games[id].date) else before;
      assert forall other | other in games :: other == id || (other in rest && rest[other] == games[other]);
      assert IsMaxDate(games, date);
    }
  }

  lemma MaxDateUnique(games: map<int, GameRow>, x: Option<int>, y: Option<int>)
    requires IsMaxDate(games, x) && IsMaxDate(games, y)
    ensures x == y
  {
  }

  ghost function MaxDateOf(games: map<int, GameRow>): (date: Option<int>)
    ensures IsMaxDate(games, date)
  {
    SomeMaxDate(games);
    var date :| IsMaxDate(games, date);
    date
  }

  // ---------- runs ----------

  /** What a run meets: the listing, the time, and whether reading the scope's
      inputs, committing the games and recording the marker succeed. */
  datatype Attempt = Attempt(pages: seq<Page>, now: int, scopeRead: bool, commits: bool, records: bool)

  /** How far incremental scans reach back, and how old the last full one may be. */
  datatype Config = Config(lookback: nat, fullInterval: nat)

  /** The tables, and when a full scan was last recorded. */
  datatype Mirrored = Mirrored(tables: Tables, lastFull: Option<int>)

  /** Without its inputs the scope defaults to a full scan. */
  ghost function ScopeOf(m: Mirrored, run: Attempt, config: Config): Scope {
    if !run.scopeRead then Scope(true, ERA)
    else GamesScanScope(run.now, m.lastFull, MaxDateOf(m.tables.games), config.lookback, config.fullInterval)
  }

  /** What a run writes, if it writes anything. */
  ghost function RowsWritten(m: Mirrored, run: Attempt, config: Config): Result<seq<ApiResult>, ()> {
    if run.commits then Scan(run.pages, 1, ScopeOf(m, run, config).stopBefore) else Err(())
  }

  /** Only a full scan that was written and recorded moves the marker. */
  ghost function AfterRun(m: Mirrored, run: Attempt, config: Config): Mirrored {
    match RowsWritten(m, run, config)
    case Err(_) => m
    case Ok(rows) =>
      Mirrored(Synced(m.tables, rows), if ScopeOf(m, run, config).full && run.records then Some(run.now) else m.lastFull)
  }

  class Mirror {
    var teams: map<int, TeamRow>
    var games: map<int, GameRow>
    var lastFull: Option<int>

    constructor ()
      ensures teams == map[] && games == map[] && lastFull == None
    {
      teams, games, lastFull := map[], map[], None;
    }

    ghost function State(): Mirrored
      reads this
    {
      Mirrored(Tables(teams, games), lastFull)
    }

    /** Nothing is written unless the whole scan succeeds and commits. */
    method SyncGames(pages: seq<Page>, stopBefore: int, commits: bool) returns (r: Result<nat, ()>)
      modifies `teams, `games
      ensures match (if commits then Scan(pages, 1, stopBefore) else Err(()))
        case Err(_) => r.Err? && State() == old(State())
        case Ok(rows) => r == Ok(KeptCount(rows)) && State().tables == Synced(old(State()).tables, rows)
    {
      hide Scan, Stubbed, Upserted, KeptRows, KeptCount;
      var ok, listed, stubs := ScanPages(pages, stopBefore);
      if !ok { return Err(()); }
      ghost var rows := Scan(pages, 1, stopBefore).value;
      var snapshot := (teams, games);
      WriteStubs(stubs);
      StubsMerge(old(teams), rows);
      WriteGames(listed);
      ListedUpserts(old(games), rows);
      if !commits {
        teams, games := snapshot.0, snapshot.1;
        return Err(());
      }
      return Ok(|listed|);
    }

    method MaxDate() returns (date: Option<int>)
      ensures IsMaxDate(games, date)
    {
      date := None;
      var pending := games.Keys;
      while pending != {}
        invariant pending <= games.Keys
        invariant date.None? ==> pending == games.Keys
        invariant date.Some? ==> exists id :: id in games && games[id].date == date.value
        invariant forall id | id in games && id !in pending :: date.Some? && games[id].date <= date.value
        decreases |pending|
      {
        ghost var some := Member(pending);
        var id :| id in pending;
        if date.None? || date.value < games[id].date { date := Some(games[id].date); }
        pending := pending - {id};
      }
    }

    /** One run: its scope comes from the newest stored date and the marker. */
    method RunSync(run: Attempt, config: Config) returns (scope: Scope)
      modifies this
      ensures scope == ScopeOf(old(State()), run, config)
      ensures State() == AfterRun(old(State()), run, config)
    {
      hide Scan, Stubbed, Upserted, MaxDateOf;
      if run.scopeRead {
        var maxDate := MaxDate();
        MaxDateUnique(games, maxDate, MaxDateOf(games));
        scope := GamesScanScope(run.now, lastFull, maxDate, config.lookback, config.fullInterval);
      } else {
        scope := Scope(true, ERA);
      }
      var r := SyncGames(run.pages, scope.stopBefore, run.commits);
      if r.Ok? && scope.full && run.records { lastFull := Some(run.now); }
    }

    /** Stubs, in any order, never replace a row. */
    method WriteStubs(stubs: map<int, TeamRow>)
      modifies `teams
      ensures teams == stubs + old(teams)
    {
      var pending := stubs.Keys;
      while pending != {}
        invariant pending <= stubs.Keys
        invariant teams == (map id | id in stubs && id !in pending :: stubs[id]) + old(teams)
        decreases |pending|
      {
        ghost var some := Member(pending);
        var id :| id in pending;
        if id !in teams { teams := teams[id := stubs[id]]; }
        pending := pending - {id};
      }
    }

    method WriteGames(listed: seq<Listed>)
      modifies `games
      ensures games == Written(old(games), listed)
    {
      for k := 0 to |listed|
        invariant games == Written(old(games), listed[..k])
      {
        games := games[listed[k].id := listed[k].row];
        assert listed[..k + 1][..k] == listed[..k];
      }
      assert listed[..|listed|] == listed;
    }
  }

  function Written(games: map<int, GameRow>, listed: seq<Listed>): map<int, GameRow> {
    if listed == [] then games
    else Written(games, listed[..|listed| - 1])[listed[|listed| - 1].id := listed[|listed| - 1].row]
  }

  lemma {:induction false} ListedUpserts(games: map<int, GameRow>, rows: seq<ApiResult>)
    ensures Written(games, KeptRows(rows)) == Upserted(games, rows)
    ensures |KeptRows(rows)| == KeptCount(rows)
  {
    if rows != [] {
      var init := rows[..|rows| - 1];
      ListedUpserts(games, init);
      var all := KeptRows(rows);
      if !Kept(rows[|rows| - 1]) {
        assert all == KeptRows(init);
      } else {
        assert all[..|all| - 1] == KeptRows(init) && all[|all| - 1] == Listed(rows[|rows| - 1].id, RowOf(rows[|rows| - 1]));
      }
    }
  }

  lemma {:induction false} StubsMerge(teams: map<int, TeamRow>, rows: seq<ApiResult>)
    ensures Stubbed(map[], rows) + teams == Stubbed(teams, rows)
  {
    if rows != [] {
      StubsMerge(teams, rows[..|rows| - 1]);
    } else {
      assert map[] + teams == teams;
    }
  }

  // ---------- laws ----------

  predicate Descending(rows: seq<ApiResult>) {
    forall i, j | 0 <= i < j < |rows| && rows[i].date.Some? && rows[j].date.Some? ::
      rows[i].date.value >= rows[j].date.value
  }

  lemma {:induction false} OldestIsLeast(rows: seq<ApiResult>)
    requires rows != [] && AllDated(rows)
    ensures forall i | 0 <= i < |rows| :: Oldest(rows) <= rows[i].date.value
  {
    if |rows| > 1 {
      OldestIsLeast(rows[..|rows| - 1]);
      forall i | 0 <= i < |rows| ensures Oldest(rows) <= rows[i].date.value {
        if i < |rows| - 1 { assert rows[i] == rows[..|rows| - 1][i]; }
      }
    }
  }

  lemma {:induction false} OldestIsOne(rows: seq<ApiResult>)
    requires rows != [] && AllDated(rows)
    ensures exists i | 0 <= i < |rows| :: rows[i].date.value == Oldest(rows)
  {
    if |rows| == 1 {
      assert rows[0].date.value == Oldest(rows);
    } else {
      var init := rows[..|rows| - 1];
      OldestIsOne(init);
      var i :| 0 <= i < |init| && init[i].date.value == Oldest(init);
      assert rows[i] == init[i];
      assert rows[|rows| - 1].date.value == Oldest(rows) || rows[i].date.value == Oldest(rows);
    }
  }

  /** A scan with a higher watermark reads a beginning of the full scan, and
      what it leaves unread is older than the watermark. */
  lemma {:induction false} ScanStopsEarly(pages: seq<Page>, page: nat, stopBefore: int)
    requires page >= 1 && stopBefore >= ERA && Scan(pages, page, ERA).Ok?
    requires Descending(Scan(pages, page, ERA).value)
    ensures Scan(pages, page, stopBefore).Ok?
    ensures var all, read := Scan(pages, page, ERA).value, Scan(pages, page, stopBefore).value;
      && AllDated(all) && read <= all
      && forall i | |read| <= i < |all| :: all[i].date.value < stopBefore
    decreases |pages| + 1 - page
  {
    hide Scan, Descending;
    ScanStep(pages, page, ERA);
    ScanStep(pages, page, stopBefore);
    var response := Fetch(pages, page);
    var rows := response.rows;
    if rows != [] && !StopsAt(rows, response.lastPage, page, ERA) {
      var rest := Scan(pages, page + 1, ERA).value;
      SortedSuffix(rows, rest);
      ScanStopsEarly(pages, page + 1, stopBefore);
      if StopsAt(rows, response.lastPage, page, stopBefore) {
        OldestIsOne(rows);
        OlderAfter(rows, rest);
      }
    }
  }

  lemma SortedSuffix(rows: seq<ApiResult>, rest: seq<ApiResult>)
    requires Descending(rows + rest)
    ensures Descending(rest)
  {
    forall i, j | 0 <= i < j < |rest| && rest[i].date.Some? && rest[j].date.Some?
      ensures rest[i].date.value >= rest[j].date.value
    {
      assert (rows + rest)[|rows| + i] == rest[i] && (rows + rest)[|rows| + j] == rest[j];
    }
  }

  lemma OlderAfter(rows: seq<ApiResult>, rest: seq<ApiResult>)
    requires rows != [] && AllDated(rows) && AllDated(rest) && Descending(rows + rest)
    requires exists i | 0 <= i < |rows| :: rows[i].date.value == Oldest(rows)
    ensures forall k | 0 <= k < |rest| :: rest[k].date.value <= Oldest(rows)
  {
    var i :| 0 <= i < |rows| && rows[i].date.value == Oldest(rows);
    forall k | 0 <= k < |rest| ensures rest[k].date.value <= Oldest(rows) {
      assert (rows + rest)[i] == rows[i] && (rows + rest)[|rows| + k] == rest[k];
    }
  }

  lemma {:induction false} UpsertedAppend(games: map<int, GameRow>, a: seq<ApiResult>, b: seq<ApiResult>)
    ensures Upserted(games, a + b) == Upserted(Upserted(games, a), b)
    decreases |b|
  {
    if b == [] {
      assert a + b == a;
    } else {
      var all := a + b;
      assert all[..|all| - 1] == a + b[..|b| - 1] && all[|all| - 1] == b[|b| - 1];
      UpsertedAppend(games, a, b[..|b| - 1]);
    }
  }

  /** Rows with other ids leave an entry alone. */
  lemma {:induction false} UpsertedElsewhere(games: map<int, GameRow>, rows: seq<ApiResult>, id: int)
    requires forall i | 0 <= i < |rows| && Kept(rows[i]) :: rows[i].id != id
    ensures id in Upserted(games, rows) <==> id in games
    ensures id in games ==> Upserted(games, rows)[id] == games[id]
  {
    if rows != [] { UpsertedElsewhere(games, rows[..|rows| - 1], id); }
  }

  /** What a scan read is what the table then holds, when no later row of the
      scan has the same id and says otherwise. */
  lemma {:induction false} UpsertedHolds(games: map<int, GameRow>, rows: seq<ApiResult>, r: ApiResult)
    requires r in rows && Kept(r)
    requires forall i | 0 <= i < |rows| && Kept(rows[i]) && rows[i].id == r.id :: RowOf(rows[i]) == RowOf(r)
    ensures r.id in Upserted(games, rows) && Upserted(games, rows)[r.id] == RowOf(r)
  {
    var last, init := rows[|rows| - 1], rows[..|rows| - 1];
    if last.id != r.id || !Kept(last) {
      var k :| 0 <= k < |rows| && rows[k] == r;
      assert init[k] == r;
      UpsertedHolds(games, init, r);
    }
  }

  predicate Agrees(games: map<int, GameRow>, r: ApiResult) {
    Kept(r) ==> r.id in games && games[r.id] == RowOf(r)
  }

  /** Row `i` is the last usable one for its game. */
  predicate IsLast(rows: seq<ApiResult>, i: nat) {
    i < |rows| && Kept(rows[i]) && forall j | i < j < |rows| && Kept(rows[j]) :: rows[j].id != rows[i].id
  }

  lemma {:induction false} LastFor(rows: seq<ApiResult>, id: int) returns (last: Option<nat>)
    ensures last.Some? ==> IsLast(rows, last.value) && rows[last.value].id == id
    ensures last.None? ==> forall i | 0 <= i < |rows| && Kept(rows[i]) :: rows[i].id != id
  {
    if rows == [] { return None; }
    var n := |rows| - 1;
    if Kept(rows[n]) && rows[n].id == id { return Some(n); }
    last := LastFor(rows[..n], id);
    hide Kept;
  }

  /** Writing rows changes nothing exactly when the table already has the last
      row of each game. */
  lemma UpsertedNoop(games: map<int, GameRow>, rows: seq<ApiResult>)
    ensures Upserted(games, rows) == games <==> forall i: nat | IsLast(rows, i) :: Agrees(games, rows[i])
  {
    hide Upserted, Kept;
    forall i: nat | IsLast(rows, i)
      ensures rows[i].id in Upserted(games, rows) && Upserted(games, rows)[rows[i].id] == RowOf(rows[i])
    {
      LastIsHeld(games, rows, i);
    }
    if forall i: nat | IsLast(rows, i) :: Agrees(games, rows[i]) {
      forall id: int ensures id in Upserted(games, rows) <==> id in games
        ensures id in games ==> Upserted(games, rows)[id] == games[id]
      {
        var last := LastFor(rows, id);
        if last.Some? {
          assert Agrees(games, rows[last.value]);
        } else {
          UpsertedElsewhere(games, rows, id);
        }
      }
    }
  }

  lemma {:induction false} LastIsHeld(games: map<int, GameRow>, rows: seq<ApiResult>, i: nat)
    requires IsLast(rows, i)
    ensures rows[i].id in Upserted(games, rows) && Upserted(games, rows)[rows[i].id] == RowOf(rows[i])
  {
    if i < |rows| - 1 { LastIsHeld(games, rows[..|rows| - 1], i); }
  }

  /** An incremental scan leaves the table a full scan would leave exactly when
      of every game with unread rows the table then holds the last one. */
  lemma IncrementalIsFull(games: map<int, GameRow>, pages: seq<Page>, stopBefore: int)
    requires stopBefore >= ERA && Scan(pages, 1, ERA).Ok? && Descending(Scan(pages, 1, ERA).value)
    ensures Scan(pages, 1, stopBefore).Ok?
    ensures var all, read := Scan(pages, 1, ERA).value, Scan(pages, 1, stopBefore).value;
      Upserted(games, read) == Upserted(games, all)
      <==> forall i: nat | |read| <= i && IsLast(all, i) :: Agrees(Upserted(games, read), all[i])
  {
    ScanStopsEarly(pages, 1, stopBefore);
    var all, read := Scan(pages, 1, ERA).value, Scan(pages, 1, stopBefore).value;
    hide Scan, Descending, Agrees, Upserted, IsLast;
    var rest := all[|read|..];
    assert all == read + rest;
    UpsertedAppend(games, read, rest);
    UpsertedNoop(Upserted(games, read), rest);
    LastShift(Upserted(games, read), read, rest);
  }

  lemma LastShift(games: map<int, GameRow>, read: seq<ApiResult>, rest: seq<ApiResult>)
    ensures (forall i: nat | IsLast(rest, i) :: Agrees(games, rest[i]))
       <==> forall i: nat | |read| <= i && IsLast(read + rest, i) :: Agrees(games, (read + rest)[i])
  {
    hide Agrees, Kept;
    var all := read + rest;
    forall i: nat ensures IsLast(rest, i) <==> IsLast(all, |read| + i) {
      LastShifts(read, rest, i);
    }
    hide IsLast;
    if forall i: nat | IsLast(rest, i) :: Agrees(games, rest[i]) {
      forall i: nat | |read| <= i && IsLast(all, i) ensures Agrees(games, all[i]) {
        assert IsLast(rest, i - |read|);
      }
    } else {
      var i: nat :| IsLast(rest, i) && !Agrees(games, rest[i]);
      assert IsLast(all, |read| + i);
    }
  }

  lemma LastShifts(read: seq<ApiResult>, rest: seq<ApiResult>, i: nat)
    ensures IsLast(rest, i) <==> IsLast(read + rest, |read| + i)
  {
    hide Kept;
    var all := read + rest;
    if i < |rest| {
      assert all[|read| + i] == rest[i];
      if IsLast(all, |read| + i) {
        forall j | i < j < |rest| && Kept(rest[j]) ensures rest[j].id != rest[i].id { assert all[|read| + j] == rest[j]; }
      }
    }
  }

  /** Games of this date may be left unread. */
  predicate TooOld(scope: Scope, date: int) { date < scope.stopBefore }

  /** A full scan exactly without a recent successful one or without games; an
      incremental one reaches back to the era or `lookback` days, whichever is later. */
  lemma ScopeMeaning(now: int, lastFull: Option<int>, maxDate: Option<int>, lookback: nat, fullInterval: nat)
    ensures var scope := GamesScanScope(now, lastFull, maxDate, lookback, fullInterval);
      && (!scope.full <==> maxDate.Some? && lastFull.Some? && now < lastFull.value + fullInterval)
      && (forall date :: TooOld(scope, date) <==> date < 19358 || (!scope.full && date < maxDate.value - lookback))
  {
  }

  /** Every listed game of the last `lookback` days before the newest stored one
      is read again by every run. */
  lemma RecentGamesRead(pages: seq<Page>, now: int, lastFull: Option<int>, maxDate: int, lookback: nat,
    fullInterval: nat, i: nat)
    requires Scan(pages, 1, ERA).Ok? && Descending(Scan(pages, 1, ERA).value)
    requires i < |Scan(pages, 1, ERA).value| && Scan(pages, 1, ERA).value[i].date.Some?
    requires Scan(pages, 1, ERA).value[i].date.value >= maxDate - lookback
    requires Kept(Scan(pages, 1, ERA).value[i])
    ensures var scope := GamesScanScope(now, lastFull, Some(maxDate), lookback, fullInterval);
      Scan(pages, 1, scope.stopBefore).Ok? && Scan(pages, 1, ERA).value[i] in Scan(pages, 1, scope.stopBefore).value
  {
    var scope := GamesScanScope(now, lastFull, Some(maxDate), lookback, fullInterval);
    ScopeMeaning(now, lastFull, Some(maxDate), lookback, fullInterval);
    assert scope.stopBefore >= ERA && !TooOld(scope, Scan(pages, 1, ERA).value[i].date.value);
    hide GamesScanScope, Scan, Descending;
    ScanStopsEarly(pages, 1, scope.stopBefore);
    var all, read := Scan(pages, 1, ERA).value, Scan(pages, 1, scope.stopBefore).value;
    assert i < |read|;
    assert read[i] == all[i];
  }

  // ---------- what is stored ----------

  /** A game of 2023 or later with both scores, each of 16 bits. */
  predicate Storable(r: ApiResult) {
    && r.date.Some? && r.date.value >= 19358
    && r.team1.score.Some? && -32768 <= r.team1.score.value <= 32767
    && r.team2.score.Some? && -32768 <= r.team2.score.value <= 32767
  }

  /** The table entry a listed game leads to, field by field. */
  predicate StoredAs(row: GameRow, r: ApiResult) {
    && r.date == Some(row.date) && r.team1.id == row.team1 && r.team2.id == row.team2
    && r.team1.score == Some(row.score1 as int) && r.team2.score == Some(row.score2 as int)
    && r.region == row.region && r.seeding == row.seeding
  }

  /** After a scan exactly the ids are stored that were there or are listed with
      a storable row; the others keep their entries. */
  lemma {:induction false} StoredExactly(games: map<int, GameRow>, rows: seq<ApiResult>, id: int)
    ensures id in Upserted(games, rows) <==> id in games || exists i: nat :: i < |rows| && Storable(rows[i]) && rows[i].id == id
    ensures id in games && (forall i: nat :: i < |rows| && Storable(rows[i]) ==> rows[i].id != id) ==>
              id in Upserted(games, rows) && Upserted(games, rows)[id] == games[id]
  {
    if rows != [] {
      var init, last := rows[..|rows| - 1], rows[|rows| - 1];
      StoredExactly(games, init, id);
      if i: nat :| i < |init| && Storable(init[i]) && init[i].id == id { assert rows[i] == init[i]; }
      if Storable(last) { assert rows[|rows| - 1] == last; }
    }
  }

  /** ... and a listed id holds its last storable row. */
  lemma {:induction false} LastListedIsStored(games: map<int, GameRow>, rows: seq<ApiResult>, i: nat)
    requires i < |rows| && Storable(rows[i])
    requires forall j | i < j < |rows| && Storable(rows[j]) :: rows[j].id != rows[i].id
    ensures rows[i].id in Upserted(games, rows) && StoredAs(Upserted(games, rows)[rows[i].id], rows[i])
  {
    if i < |rows| - 1 { LastListedIsStored(games, rows[..|rows| - 1], i); }
  }

  predicate Names(r: ApiResult, id: int) { Storable(r) && (r.team1.id == id || r.team2.id == id) }

  /** A team without a row gets a stub under the first title listed for it. */
  lemma {:induction false} StubHasFirstTitle(teams: map<int, TeamRow>, rows: seq<ApiResult>, id: int, i: nat)
    requires id !in teams && i < |rows| && Names(rows[i], id) && forall j | 0 <= j < i :: !Names(rows[j], id)
    ensures id in Stubbed(teams, rows)
    ensures Stubbed(teams, rows)[id]
         == TeamRow(if rows[i].team1.id == id then rows[i].team1.title else rows[i].team2.title, None, false)
  {
    var init := rows[..|rows| - 1];
    if i < |rows| - 1 {
      StubHasFirstTitle(teams, init, id, i);
    } else {
      NoStub(teams, init, id);
    }
  }

  lemma {:induction false} NoStub(teams: map<int, TeamRow>, rows: seq<ApiResult>, id: int)
    requires forall j | 0 <= j < |rows| :: !Names(rows[j], id)
    ensures id in Stubbed(teams, rows) <==> id in teams
  {
    if rows != [] { NoStub(teams, rows[..|rows| - 1], id); }
  }

  // ---------- runs of scans ----------

  function AfterScans(games: map<int, GameRow>, scans: seq<seq<ApiResult>>): map<int, GameRow>
    decreases |scans|
  {
    if scans == [] then games else Upserted(AfterScans(games, scans[..|scans| - 1]), scans[|scans| - 1])
  }

  /** Every later scan that lists the game lists it unchanged. */
  predicate Unchanged(scans: seq<seq<ApiResult>>, r: ApiResult)
    requires Kept(r)
  {
    forall k, i | 0 <= k < |scans| && 0 <= i < |scans[k]| && Kept(scans[k][i]) && scans[k][i].id == r.id ::
      RowOf(scans[k][i]) == RowOf(r)
  }

  lemma {:induction false} StoredStays(games: map<int, GameRow>, scans: seq<seq<ApiResult>>, r: ApiResult)
    requires scans != [] && r in scans[0] && Kept(r) && Unchanged(scans, r)
    ensures Agrees(AfterScans(games, scans), r)
    decreases |scans|
  {
    var init, last := scans[..|scans| - 1], scans[|scans| - 1];
    if r in last {
      UpsertedHolds(AfterScans(games, init), last, r);
    } else {
      StoredStays(games, init, r);
      if i :| 0 <= i < |last| && Kept(last[i]) && last[i].id == r.id {
        assert forall j | 0 <= j < |last| && Kept(last[j]) && last[j].id == last[i].id :: RowOf(last[j]) == RowOf(last[i]);
        UpsertedHolds(AfterScans(games, init), last, last[i]);
      } else {
        UpsertedElsewhere(AfterScans(games, init), last, r.id);
      }
    }
  }

  lemma ScansAppend(games: map<int, GameRow>, scans: seq<seq<ApiResult>>, read: seq<ApiResult>)
    ensures AfterScans(games, scans + [read]) == Upserted(AfterScans(games, scans), read)
  {
    assert (scans + [read])[..|scans|] == scans;
  }

  /** Of what is listed now, everything below the watermark was in the first of
      these scans and has been listed alike ever since. */
  predicate Settled(scans: seq<seq<ApiResult>>, all: seq<ApiResult>, stopBefore: int)
    requires scans != []
  {
    forall i | 0 <= i < |all| && Kept(all[i]) && all[i].date.value < stopBefore ::
      all[i] in scans[0] && Unchanged(scans + [all], all[i])
  }

  /** After a full scan and any further scans, an incremental one is as good as
      a full one, if no listed game below its watermark was added or changed
      since that full scan. */
  lemma WatermarkIsSafe(games: map<int, GameRow>, scans: seq<seq<ApiResult>>, pages: seq<Page>, stopBefore: int)
    requires stopBefore >= ERA && Scan(pages, 1, ERA).Ok? && scans != []
    requires Descending(Scan(pages, 1, ERA).value) && Settled(scans, Scan(pages, 1, ERA).value, stopBefore)
    ensures Scan(pages, 1, stopBefore).Ok?
    ensures Upserted(AfterScans(games, scans), Scan(pages, 1, stopBefore).value)
         == Upserted(AfterScans(games, scans), Scan(pages, 1, ERA).value)
  {
    ScanStopsEarly(pages, 1, stopBefore);
    hide Scan, Descending, Unchanged, AfterScans, Upserted;
    var all, read := Scan(pages, 1, ERA).value, Scan(pages, 1, stopBefore).value;
    IncrementalIsFull(AfterScans(games, scans), pages, stopBefore);
    ScansAppend(games, scans, read);
    forall i: nat | |read| <= i && IsLast(all, i) ensures Agrees(Upserted(AfterScans(games, scans), read), all[i]) {
      UnchangedPrefix(scans, read, all, all[i]);
      StoredStays(games, scans + [read], all[i]);
    }
  }

  lemma UnchangedPrefix(scans: seq<seq<ApiResult>>, read: seq<ApiResult>, all: seq<ApiResult>, r: ApiResult)
    requires read <= all && Kept(r) && Unchanged(scans + [all], r)
    ensures Unchanged(scans + [read], r)
  {
    hide Kept;
    var some, every := scans + [read], scans + [all];
    forall k, i | 0 <= k < |some| && 0 <= i < |some[k]| && Kept(some[k][i]) && some[k][i].id == r.id
      ensures RowOf(some[k][i]) == RowOf(r)
    {
      assert some[k][i] == every[k][i];
    }
  }

  // ---------- what every scan keeps ----------

  /** No game from before the era, and a row for every team a game names. */
  predicate Sound(tables: Tables) {
    forall id | id in tables.games ::
      && tables.games[id].date >= 19358
      && tables.games[id].team1 in tables.teams && tables.games[id].team2 in tables.teams
  }

  /** Any scan, of any pages, keeps the tables sound, drops nothing, and leaves
      team rows as they were. */
  lemma {:induction false} SyncKeepsSound(tables: Tables, rows: seq<ApiResult>)
    requires Sound(tables)
    ensures Sound(Synced(tables, rows))
    ensures forall id | id in tables.teams ::
      id in Synced(tables, rows).teams && Synced(tables, rows).teams[id] == tables.teams[id]
    ensures tables.games.Keys <= Synced(tables, rows).games.Keys
  {
    if rows != [] { SyncKeepsSound(tables, rows[..|rows| - 1]); }
  }

  // ---------- sequences of runs ----------

  const EMPTY := Mirrored(Tables(map[], map[]), None)

  ghost function AfterRuns(runs: seq<Attempt>, config: Config): Mirrored
    decreases |runs|
  {
    if runs == [] then EMPTY else AfterRun(AfterRuns(runs[..|runs| - 1], config), runs[|runs| - 1], config)
  }

  /** The rows that the successful runs wrote, run by run. */
  ghost function ScansOf(runs: seq<Attempt>, config: Config): seq<seq<ApiResult>>
    decreases |runs|
  {
    if runs == [] then []
    else
      var init, last := runs[..|runs| - 1], runs[|runs| - 1];
      var written := RowsWritten(AfterRuns(init, config), last, config);
      ScansOf(init, config) + if written.Ok? then [written.value] else []
  }

  /** Which of them belongs to the last full scan that was recorded. */
  ghost function LastFullScan(runs: seq<Attempt>, config: Config): (k: Option<nat>)
    ensures k.Some? ==> k.value < |ScansOf(runs, config)|
    decreases |runs|
  {
    if runs == [] then None
    else
      var init, last := runs[..|runs| - 1], runs[|runs| - 1];
      var before := AfterRuns(init, config);
      if RowsWritten(before, last, config).Ok? && ScopeOf(before, last, config).full && last.records
      then Some(|ScansOf(init, config)|)
      else LastFullScan(init, config)
  }

  /** The tables come from the scans alone, whatever failed in between. */
  lemma {:induction false} RunsAreScans(runs: seq<Attempt>, config: Config)
    ensures AfterRuns(runs, config).tables.games == AfterScans(map[], ScansOf(runs, config))
    ensures Sound(AfterRuns(runs, config).tables)
    decreases |runs|
  {
    if runs != [] {
      var init, last := runs[..|runs| - 1], runs[|runs| - 1];
      RunsAreScans(init, config);
      var before := AfterRuns(init, config);
      var written := RowsWritten(before, last, config);
      if written.Ok? {
        SyncKeepsSound(before.tables, written.value);
        ScansAppend(map[], ScansOf(init, config), written.value);
      } else {
        assert ScansOf(init, config) + [] == ScansOf(init, config);
      }
    }
  }

  /** A marker is only there with the rows of a full scan behind it, so a run is
      incremental only after one. */
  lemma {:induction false} MarkerHasFullScan(runs: seq<Attempt>, config: Config)
    ensures AfterRuns(runs, config).lastFull.Some? <==> LastFullScan(runs, config).Some?
    ensures LastFullScan(runs, config).Some? ==> exists j | 0 <= j < |runs| ::
      && AfterRuns(runs, config).lastFull == Some(runs[j].now)
      && Scan(runs[j].pages, 1, ERA) == Ok(ScansOf(runs, config)[LastFullScan(runs, config).value])
    decreases |runs|
  {
    if runs != [] {
      var n := |runs| - 1;
      MarkerHasFullScan(runs[..n], config);
      hide Scan, Synced, MaxDateOf;
      if LastFullScan(runs, config) == LastFullScan(runs[..n], config) && LastFullScan(runs, config).Some? {
        var j :| 0 <= j < n && AfterRuns(runs[..n], config).lastFull == Some(runs[..n][j].now)
          && Scan(runs[..n][j].pages, 1, ERA) == Ok(ScansOf(runs[..n], config)[LastFullScan(runs[..n], config).value]);
        assert runs[..n][j] == runs[j];
      }
    }
  }

  lemma IncrementalHasFullScan(runs: seq<Attempt>, config: Config, run: Attempt)
    requires !ScopeOf(AfterRuns(runs, config), run, config).full
    ensures LastFullScan(runs, config).Some?
  {
    MarkerHasFullScan(runs, config);
  }

  lemma {:induction false} ScansSplit(games: map<int, GameRow>, scans: seq<seq<ApiResult>>, k: nat)
    requires k <= |scans|
    ensures AfterScans(games, scans) == AfterScans(AfterScans(games, scans[..k]), scans[k..])
    decreases |scans|
  {
    if k < |scans| {
      var n := |scans| - 1;
      ScansSplit(games, scans[..n], k);
      assert scans[..n][..k] == scans[..k] && scans[..n][k..] == scans[k..][..n - k];
    } else {
      assert scans[..k] == scans;
    }
  }

  /** After any runs, failed ones included, the next one that commits leaves the
      games a full scan would leave, if since the last recorded full scan nothing
      listed below its watermark was added or changed. */
  lemma EveryRunIsFull(runs: seq<Attempt>, config: Config, run: Attempt)
    requires run.commits && Scan(run.pages, 1, ERA).Ok? && Descending(Scan(run.pages, 1, ERA).value)
    requires var scope := ScopeOf(AfterRuns(runs, config), run, config);
      LastFullScan(runs, config).Some? && !scope.full ==>
        Settled(ScansOf(runs, config)[LastFullScan(runs, config).value..], Scan(run.pages, 1, ERA).value, scope.stopBefore)
    ensures AfterRun(AfterRuns(runs, config), run, config).tables.games
         == Upserted(AfterRuns(runs, config).tables.games, Scan(run.pages, 1, ERA).value)
  {
    var before := AfterRuns(runs, config);
    var scope := ScopeOf(before, run, config);
    if !scope.full {
      IncrementalHasFullScan(runs, config, run);
      RunsAreScans(runs, config);
      var k := LastFullScan(runs, config).value;
      var scans := ScansOf(runs, config);
      assert scope.stopBefore >= ERA;
      hide Scan, Descending, Settled, ScopeOf, AfterRuns, ScansOf, LastFullScan, Upserted, AfterScans;
      ScansSplit(map[], scans, k);
      WatermarkIsSafe(AfterScans(map[], scans[..k]), scans[k..], run.pages, scope.stopBefore);
    }
  }

  /** So for every sequence of runs from empty tables. */
  lemma RunsKeepSound(runs: seq<Attempt>, config: Config)
    ensures Sound(AfterRuns(runs, config).tables)
  {
    RunsAreScans(runs, config);
  }
}
