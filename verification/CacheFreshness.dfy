/** When the freshness rule serves a current revision
    (src/ingest/data_cache.rs:119-163, src/ingest/statsbook_parse.rs:322-357). */
module CacheFreshness {
  import opened Text
  import opened FileCache

  // ---------- the rule ----------

  datatype Decision = Disabled | Miss | Stale | Use

  predicate CacheIsFresh(mtime: int, modifiedTime: Option<int>) {
    modifiedTime.None? || mtime >= modifiedTime.value
  }

  /** A cache file as `stat` and `read` see it. */
  datatype CacheFile = CacheFile(bytes: string, mtime: int)

  datatype Cache = Cache(files: map<string, CacheFile>)

  function DecideCache(cache: Option<Cache>, id: string, modifiedTime: Option<int>): Decision {
    if cache.None? then Disabled
    else
      var path := CachePath(id);
      if path.None? || path.value !in cache.value.files then Miss
      else if CacheIsFresh(cache.value.files[path.value].mtime, modifiedTime) then Use
      else Stale
  }

  function ReadCached(cache: Cache, id: string): Option<string> {
    var path := CachePath(id);
    if path.Some? && path.value in cache.files then Some(cache.files[path.value].bytes) else None
  }

  /** The file is read after the decision; it may have been replaced in between. */
  function ReadCachedIfFresh(atStat: Option<Cache>, atRead: Cache, id: string, modifiedTime: Option<int>): Option<string> {
    if DecideCache(atStat, id, modifiedTime) != Use then None else ReadCached(atRead, id)
  }

  /** Bytes are served exactly when a fresh file was found and one is still there. */
  lemma ServedExactly(atStat: Option<Cache>, atRead: Cache, id: string, modifiedTime: Option<int>)
    ensures ReadCachedIfFresh(atStat, atRead, id, modifiedTime).Some? <==>
      && atStat.Some? && IsSafeFileId(id)
      && id + SUFFIX in atStat.value.files && id + SUFFIX in atRead.files
      && (modifiedTime.Some? ==> modifiedTime.value <= atStat.value.files[id + SUFFIX].mtime)
  {
  }

  /** Without a cache directory there is nothing to look for; a file that is not
      there, or whose id names none, is missing; one older than the row's
      revision is stale, and any other is used. */
  lemma DecidesExactly(cache: Option<Cache>, id: string, modifiedTime: Option<int>)
    ensures var path := id + ".xlsx"; var decision := DecideCache(cache, id, modifiedTime);
      && (decision == Disabled <==> cache.None?)
      && (decision == Miss <==> cache.Some? && !(IsSafeFileId(id) && path in cache.value.files))
      && (decision == Stale <==>
            && cache.Some? && IsSafeFileId(id) && path in cache.value.files
            && modifiedTime.Some? && cache.value.files[path].mtime < modifiedTime.value)
  {
  }

  // ---------- one file over time ----------

  /** A revision being fetched, and the local time stamped on it once written. */
  datatype Fetch = Fetch(rev: nat, mtime: Option<int>)

  datatype Copy = Copy(rev: nat, mtime: int)

  /** `uploads` holds the time of each revision, in order; `copy` is what the
      cache has in place. */
  datatype Timeline = Timeline(now: int, uploads: seq<int>, copy: Option<Copy>, fetches: map<nat, Fetch>)

  datatype Event =
    | Tick(later: nat)
    | Upload
    | Download(writer: nat)
    | Write(writer: nat)
    | Rename(writer: nat)
    | Remove

  ghost predicate Possible(t: Timeline, e: Event) {
    match e
    case Tick(_) => true
    case Upload => t.uploads == [] || t.uploads[|t.uploads| - 1] < t.now
    case Download(writer) => t.uploads != [] && writer !in t.fetches
    case Write(writer) => writer in t.fetches && t.fetches[writer].mtime.None?
    case Rename(writer) => writer in t.fetches && t.fetches[writer].mtime.Some?
    case Remove => true
  }

  /** Local time stamps run `skew` ahead of the upload times. */
  ghost function After(t: Timeline, e: Event, skew: int): Timeline
    requires Possible(t, e)
  {
    match e
    case Tick(later) => t.(now := t.now + later)
    case Upload => t.(uploads := t.uploads + [t.now])
    case Download(writer) => t.(fetches := t.fetches[writer := Fetch(|t.uploads| - 1, None)])
    case Write(writer) => t.(fetches := t.fetches[writer := t.fetches[writer].(mtime := Some(t.now + skew))])
    case Rename(writer) =>
      var f := t.fetches[writer];
      t.(copy := Some(Copy(f.rev, f.mtime.value)), fetches := t.fetches - {writer})
    case Remove => t.(copy := None)
  }

  /** No upload came between the download and the rename of what is renamed. */
  ghost predicate QuietEvent(t: Timeline, e: Event) {
    e.Rename? && e.writer in t.fetches ==> t.fetches[e.writer].rev == |t.uploads| - 1
  }

  /** An upload is later than the stamp on the copy in place. */
  ghost predicate LaterUpload(t: Timeline, e: Event) {
    e.Upload? && t.copy.Some? ==> t.copy.value.mtime < t.now
  }

  /** From `t` the events are possible one after the other and lead to `u`. */
  ghost predicate Happens(t: Timeline, events: seq<Event>, skew: int, u: Timeline)
    decreases |events|
  {
    if events == [] then t == u
    else Possible(t, events[0]) && Happens(After(t, events[0], skew), events[1..], skew, u)
  }

  ghost predicate Quiet(t: Timeline, events: seq<Event>, skew: int)
    decreases |events|
  {
    events != [] && Possible(t, events[0]) ==>
      QuietEvent(t, events[0]) && Quiet(After(t, events[0], skew), events[1..], skew)
  }

  ghost predicate UploadsLater(t: Timeline, events: seq<Event>, skew: int)
    decreases |events|
  {
    events != [] && Possible(t, events[0]) ==>
      LaterUpload(t, events[0]) && UploadsLater(After(t, events[0], skew), events[1..], skew)
  }

  // ---------- reads of the file ----------

  /** The cache as a reader finds it; `contents` are the bytes of each revision. */
  function Disk(t: Timeline, id: string, contents: nat -> string): Cache {
    var path := CachePath(id);
    if t.copy.None? || path.None? then Cache(map[])
    else Cache(map[path.value := CacheFile(contents(t.copy.value.rev), t.copy.value.mtime)])
  }

  /** What the reader of a row at revision `rev` gets that looks at the file at
      `t` and reads it at `u`. */
  function ReadAcross(t: Timeline, u: Timeline, rev: nat, id: string, contents: nat -> string): Option<string>
    requires rev < |t.uploads|
  {
    ReadCachedIfFresh(Some(Disk(t, id, contents)), Disk(u, id, contents), id, Some(t.uploads[rev]))
  }

  /** Bytes that are read are those of the row's revision or of a newer one. */
  ghost predicate FreshRead(t: Timeline, u: Timeline, rev: nat, id: string, contents: nat -> string)
    requires rev < |t.uploads|
  {
    var read := ReadAcross(t, u, rev, id, contents);
    read.Some? ==> exists k: nat :: rev <= k < |u.uploads| && read.value == contents(k)
  }

  /** A file can be removed at any time; it is not read again until a fetch is
      renamed into its place. */
  lemma {:induction false} RemovedIsNotRead(t: Timeline, events: seq<Event>, u: Timeline, skew: int, rev: nat, id: string, contents: nat -> string)
    requires Happens(t, [Event.Remove] + events, skew, u) && (forall i | 0 <= i < |events| :: !events[i].Rename?)
    requires rev < |u.uploads|
    ensures Possible(t, Event.Remove) && u.copy.None? && ReadAcross(u, u, rev, id, contents).None?
  {
    assert ([Event.Remove] + events)[1..] == events;
    NoCopyComes(After(t, Event.Remove, skew), events, u, skew);
    hide Happens;
  }

  lemma {:induction false} NoCopyComes(t: Timeline, events: seq<Event>, u: Timeline, skew: int)
    requires t.copy.None? && Happens(t, events, skew, u) && forall i | 0 <= i < |events| :: !events[i].Rename?
    ensures u.copy.None?
    decreases |events|
  {
    if events != [] { NoCopyComes(After(t, events[0], skew), events[1..], u, skew); }
  }

  // ---------- what suffices ----------

  /** What is stamped at or after the upload of a revision is not older than it. */
  ghost predicate Sane(t: Timeline) {
    t.copy.Some? ==> forall i | 0 <= i < |t.uploads| && t.uploads[i] <= t.copy.value.mtime :: i <= t.copy.value.rev
  }

  /** Only uploaded revisions are fetched and kept. */
  ghost predicate Tracked(t: Timeline) {
    (t.copy.Some? ==> t.copy.value.rev < |t.uploads|) && forall w | w in t.fetches :: t.fetches[w].rev < |t.uploads|
  }

  lemma EventKeepsSane(t: Timeline, e: Event, skew: int)
    requires Sane(t) && Possible(t, e) && QuietEvent(t, e) && LaterUpload(t, e)
    ensures Sane(After(t, e, skew))
  {
    if e.Upload? {
      var u := After(t, e, skew);
      assert forall i | 0 <= i < |t.uploads| :: u.uploads[i] == t.uploads[i];
    }
  }

  lemma {:induction false} QuietRunsStaySane(t: Timeline, events: seq<Event>, skew: int, u: Timeline)
    requires Sane(t) && Happens(t, events, skew, u) && Quiet(t, events, skew) && UploadsLater(t, events, skew)
    ensures Sane(u)
    decreases |events|
  {
    hide Possible, After, QuietEvent, LaterUpload;
    if events != [] {
      EventKeepsSane(t, events[0], skew);
      QuietRunsStaySane(After(t, events[0], skew), events[1..], skew, u);
    }
  }

  lemma {:induction false} RunsStayTracked(t: Timeline, events: seq<Event>, skew: int, u: Timeline)
    requires Tracked(t) && Happens(t, events, skew, u)
    ensures Tracked(u) && |t.uploads| <= |u.uploads|
    decreases |events|
  {
    if events != [] {
      assert Tracked(After(t, events[0], skew));
      RunsStayTracked(After(t, events[0], skew), events[1..], skew, u);
    }
  }

  /** Without a re-upload during a fetch, no copy falls behind an upload that
      the copy before it was up to. */
  lemma {:induction false} CopyNotOlder(t: Timeline, events: seq<Event>, skew: int, u: Timeline, rev: nat)
    requires Happens(t, events, skew, u) && Quiet(t, events, skew)
    requires rev < |t.uploads| && (t.copy.Some? ==> rev <= t.copy.value.rev)
    ensures u.copy.Some? ==> rev <= u.copy.value.rev
    decreases |events|
  {
    if events != [] { CopyNotOlder(After(t, events[0], skew), events[1..], skew, u, rev); }
  }

  /** Whatever the clocks: if nothing was re-uploaded between a download and its
      rename, nor before the stamp of a copy in place, every cached read is of
      its row's revision or a newer one, even if the file was replaced between
      the look at it and the read. */
  lemma QuietReadsAreFresh(start: Timeline, before: seq<Event>, t: Timeline, between: seq<Event>, u: Timeline, skew: int,
    rev: nat, id: string, contents: nat -> string)
    requires Sane(start) && Tracked(start)
    requires Happens(start, before, skew, t) && Quiet(start, before, skew) && UploadsLater(start, before, skew)
    requires Happens(t, between, skew, u) && Quiet(t, between, skew)
    requires rev < |t.uploads|
    ensures FreshRead(t, u, rev, id, contents)
  {
    QuietRunsStaySane(start, before, skew, t);
    RunsStayTracked(start, before, skew, t);
    RunsStayTracked(t, between, skew, u);
    hide Happens, Quiet, UploadsLater;
    if ReadAcross(t, u, rev, id, contents).Some? {
      ServedExactly(Some(Disk(t, id, contents)), Disk(u, id, contents), id, Some(t.uploads[rev]));
      assert t.copy.Some? && t.uploads[rev] <= t.copy.value.mtime && u.copy.Some?;
      CopyNotOlder(t, between, skew, u, rev);
      assert ReadAcross(t, u, rev, id, contents).value == contents(u.copy.value.rev);
    }
  }

  // ---------- how far clocks may be apart ----------

  /** Stamps on anything fetched lie in the past. */
  ghost predicate StampsPast(t: Timeline) {
    && (t.copy.Some? ==> t.copy.value.mtime < t.now)
    && (forall w | w in t.fetches && t.fetches[w].mtime.Some? :: t.fetches[w].mtime.value < t.now)
  }

  lemma {:induction false} SlowClockIsLater(t: Timeline, events: seq<Event>, skew: int)
    requires skew < 0 && StampsPast(t)
    ensures UploadsLater(t, events, skew)
    decreases |events|
  {
    if events != [] && Possible(t, events[0]) {
      var u := After(t, events[0], skew);
      assert StampsPast(u);
      SlowClockIsLater(u, events[1..], skew);
    }
  }

  function Start(): Timeline { Timeline(0, [], None, map[]) }

  /** A reader looks at `t` and reads at `u`, in a run in which nothing is
      re-uploaded between a download and its rename. */
  ghost predicate QuietRead(before: seq<Event>, t: Timeline, between: seq<Event>, u: Timeline, skew: int) {
    && Happens(Start(), before, skew, t) && Quiet(Start(), before, skew)
    && Happens(t, between, skew, u) && Quiet(t, between, skew)
  }

  ghost predicate AlwaysFresh(skew: int) {
    forall before, t, between, u, rev: nat, id, contents: nat -> string
      {:trigger QuietRead(before, t, between, u, skew), FreshRead(t, u, rev, id, contents)}
      | QuietRead(before, t, between, u, skew) && rev < |t.uploads| :: FreshRead(t, u, rev, id, contents)
  }

  /** With no re-upload between download and rename, reads are always fresh
      exactly when local stamps run behind the upload times: with equal clocks,
      an upload at the very time of a stamp goes unnoticed. */
  lemma FreshExactlyBehind(skew: int)
    ensures AlwaysFresh(skew) <==> skew < 0
  {
    if skew < 0 {
      forall before, t, between, u, rev: nat, id, contents: nat -> string
        | QuietRead(before, t, between, u, skew) && rev < |t.uploads|
        ensures FreshRead(t, u, rev, id, contents)
      {
        SlowClockIsLater(Start(), before, skew);
        QuietReadsAreFresh(Start(), before, t, between, u, skew, rev, id, contents);
      }
    } else {
      var before, t := StaleRun(skew);
      assert QuietRead(before, t, [], t, skew);
      StaleRead(t);
    }
  }

  /** Where the stamp is not below the upload of revision 1, revision 0 is served for it. */
  lemma StaleRead(t: Timeline)
    requires |t.uploads| == 2 && t.copy.Some? && t.copy.value.rev == 0 && t.copy.value.mtime >= t.uploads[1]
    ensures !FreshRead(t, t, 1, "a", Numbered)
  {
    assert IsSafeFileId("a");
    assert ReadAcross(t, t, 1, "a", Numbered) == Some(Numbered(0));
    assert Numbered(1) != Numbered(0);
  }

  /** Bytes that tell the revisions apart. */
  function Numbered(rev: nat): string { Dec(rev) }

  /** One event, with where it leads. */
  ghost predicate Move(t: Timeline, e: Event, u: Timeline, skew: int) { Possible(t, e) && After(t, e, skew) == u }

  /** `v` is reached from `t` by a run; `quiet` and `later` tell of which kind. */
  ghost predicate Reaches(t: Timeline, v: Timeline, skew: int, quiet: bool, later: bool) {
    exists events ::
      && Happens(t, events, skew, v)
      && (quiet ==> Quiet(t, events, skew)) && (later ==> UploadsLater(t, events, skew))
  }

  lemma Then(t: Timeline, e: Event, u: Timeline, v: Timeline, skew: int, quiet: bool, later: bool)
    requires Move(t, e, u, skew) && Reaches(u, v, skew, quiet, later)
    requires (quiet ==> QuietEvent(t, e)) && (later ==> LaterUpload(t, e))
    ensures Reaches(t, v, skew, quiet, later)
  {
    var rest :| Happens(u, rest, skew, v) && (quiet ==> Quiet(u, rest, skew)) && (later ==> UploadsLater(u, rest, skew));
    hide QuietEvent, LaterUpload, Possible, After;
    var events := [e] + rest;
    assert events[1..] == rest;
    assert Happens(t, events, skew, v);
  }

  lemma Here(t: Timeline, skew: int)
    ensures Reaches(t, t, skew, true, true)
  {
    assert Happens(t, [], skew, t);
  }

  /** A whole fetch, when nothing comes between its steps. */
  lemma Fetched(t: Timeline, skew: int)
    requires t.uploads != [] && t.fetches == map[]
    ensures Move(t, Download(7), t.(fetches := map[7 := Fetch(|t.uploads| - 1, None)]), skew)
  {
  }

  lemma Renamed(t: Timeline, rev: nat, skew: int)
    requires t.fetches == map[7 := Fetch(rev, None)]
    ensures Move(t, Write(7), t.(fetches := map[7 := Fetch(rev, Some(t.now + skew))]), skew)
    ensures Move(t.(fetches := map[7 := Fetch(rev, Some(t.now + skew))]), Rename(7),
                 t.(fetches := map[], copy := Some(Copy(rev, t.now + skew))), skew)
  {
    assert map[7 := Fetch(rev, Some(t.now + skew))] - {7} == map[];
  }

  lemma Uploaded(t: Timeline, skew: int)
    requires t.uploads == [] || t.uploads[|t.uploads| - 1] < t.now
    ensures Move(t, Upload, t.(uploads := t.uploads + [t.now]), skew)
  {
  }

  /** Revision 0 is uploaded at time 0, and nothing else is there at time 1. */
  function AtOne(): Timeline { Timeline(1, [0], None, map[]) }

  lemma ToOne(skew: int)
    ensures Move(Start(), Upload, AtOne().(now := 0), skew) && Move(AtOne().(now := 0), Tick(1), AtOne(), skew)
  {
    assert [] + [0] == [0];
    Uploaded(Start(), skew);
  }

  lemma Reached(u: Timeline, skew: int, quiet: bool, later: bool) returns (events: seq<Event>)
    requires Reaches(Start(), u, skew, quiet, later)
    ensures Happens(Start(), events, skew, u)
    ensures (quiet ==> Quiet(Start(), events, skew)) && (later ==> UploadsLater(Start(), events, skew))
  {
    hide Happens, Quiet, UploadsLater;
    events :| Happens(Start(), events, skew, u) && (quiet ==> Quiet(Start(), events, skew)) && (later ==> UploadsLater(Start(), events, skew));
  }

  /** Revision 0 is cached; revision 1 is uploaded at the time of its stamp. */
  lemma StaleRun(skew: nat) returns (events: seq<Event>, u: Timeline)
    ensures Happens(Start(), events, skew, u) && Quiet(Start(), events, skew)
    ensures |u.uploads| == 2 && u.copy.Some? && u.copy.value.rev == 0 && u.copy.value.mtime >= u.uploads[1]
  {
    var t := AtOne();
    var fetching := t.(fetches := map[7 := Fetch(0, None)]);
    var written := t.(fetches := map[7 := Fetch(0, Some(1 + skew))]);
    var cached := t.(copy := Some(Copy(0, 1 + skew)));
    u := cached.(uploads := [0] + [1]);
    ToOne(skew);
    Fetched(t, skew);
    Renamed(fetching, 0, skew);
    Uploaded(cached, skew);
    Here(u, skew);
    hide Move, Happens, Quiet, UploadsLater, Reaches;
    Then(cached, Upload, u, u, skew, true, false);
    Then(written, Rename(7), cached, u, skew, true, false);
    Then(fetching, Write(7), written, u, skew, true, false);
    Then(t, Download(7), fetching, u, skew, true, false);
    Then(t.(now := 0), Tick(1), t, u, skew, true, false);
    Then(Start(), Upload, t.(now := 0), u, skew, true, false);
    events := Reached(u, skew, true, false);
  }

  /** A re-upload between download and rename is enough for a stale read,
      whatever the clocks. */
  lemma RacingUploadIsStale(skew: int)
    ensures exists events, u, rev: nat, id, contents: nat -> string ::
      && Happens(Start(), events, skew, u) && UploadsLater(Start(), events, skew)
      && rev < |u.uploads| && !FreshRead(u, u, rev, id, contents)
  {
    var wait: nat := if skew < 0 then -skew else 0;
    var t := AtOne();
    var fetching := t.(fetches := map[7 := Fetch(0, None)]);
    var raced := fetching.(uploads := [0] + [1]);
    var waited := raced.(now := 1 + wait);
    var written := waited.(fetches := map[7 := Fetch(0, Some(1 + wait + skew))]);
    var u := waited.(fetches := map[], copy := Some(Copy(0, 1 + wait + skew)));
    ToOne(skew);
    Fetched(t, skew);
    Uploaded(fetching, skew);
    Renamed(waited, 0, skew);
    assert Move(raced, Tick(wait), waited, skew);
    Here(u, skew);
    StaleRead(u);
    hide Move, Happens, Quiet, UploadsLater, Reaches, FreshRead;
    Then(written, Rename(7), u, u, skew, false, true);
    Then(waited, Write(7), written, u, skew, false, true);
    Then(raced, Tick(wait), waited, u, skew, false, true);
    Then(fetching, Upload, raced, u, skew, false, true);
    Then(t, Download(7), fetching, u, skew, false, true);
    Then(t.(now := 0), Tick(1), t, u, skew, false, true);
    Then(Start(), Upload, t.(now := 0), u, skew, false, true);
    var events := Reached(u, skew, false, true);
    assert Happens(Start(), events, skew, u) && !FreshRead(u, u, 1, "a", Numbered);
  }
}
