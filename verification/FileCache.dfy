/** File names of the byte cache (src/ingest/data_cache.rs:33-59, 76-80) and the
    protocol of its concurrent writers and readers (src/ingest/data_cache.rs:63-98). */
module FileCache {
  import opened Text

  // ---------- names ----------

  predicate IsSafeFileId(id: string) {
    id != "" && id != "." && id != ".." && '\0' !in id && '/' !in id && '\\' !in id
  }

  const SUFFIX := ".xlsx"

  function CachePath(id: string): Option<string> {
    if IsSafeFileId(id) then Some(id + SUFFIX) else None
  }

  datatype Key = Key(pid: nat, counter: nat)

  function TempName(id: string, key: Key): string {
    ("." + id) + ("." + Dec(key.pid)) + ("." + Dec(key.counter)) + ".tmp"
  }

  /** Only a plain file name has a cache path. */
  lemma CachePathExactly(id: string)
    ensures CachePath(id) == if id in {"", ".", ".."} || (exists i :: 0 <= i < |id| && id[i] as int in {0, 47, 92}) then None else Some(id + ".xlsx")
  {
    assert (exists i :: 0 <= i < |id| && id[i] as int in {0, 47, 92}) <==> '\0' in id || '/' in id || '\\' in id;
  }

  lemma CachePathInjective(a: string, b: string)
    requires CachePath(a).Some? && CachePath(a) == CachePath(b)
    ensures a == b
  {
    assert (a + SUFFIX)[..|a + SUFFIX| - |SUFFIX|] == a;
    assert (b + SUFFIX)[..|b + SUFFIX| - |SUFFIX|] == b;
  }

  lemma DotInside(a: string, d: string, b: string, e: string)
    requires a + ("." + d) == b + ("." + e) && |a| < |b|
    ensures !AllDigits(d)
  {
    var s := b + ("." + e);
    assert s[|b|] == '.' && (a + ("." + d))[|b|] == d[|b| - |a| - 1];
  }

  /** The last dot splits off the digits after it. */
  lemma LastDot(a: string, d: string, b: string, e: string)
    requires AllDigits(d) && AllDigits(e) && a + ("." + d) == b + ("." + e)
    ensures a == b && d == e
  {
    if |a| < |b| { DotInside(a, d, b, e); }
    if |b| < |a| { DotInside(b, e, a, d); }
    var s := a + ("." + d);
    assert s[..|a|] == a && s[|a| + 1..] == d;
    assert s == b + ("." + e) && s[..|b|] == b && s[|b| + 1..] == e;
  }

  /** Temp names tell files, processes and counters apart, although ids may hold dots. */
  lemma TempNameInjective(a: string, k: Key, b: string, l: Key)
    requires TempName(a, k) == TempName(b, l)
    ensures a == b && k == l
  {
    var s := ("." + a) + ("." + Dec(k.pid)) + ("." + Dec(k.counter));
    var t := ("." + b) + ("." + Dec(l.pid)) + ("." + Dec(l.counter));
    assert (s + ".tmp")[..|s + ".tmp"| - 4] == s && (t + ".tmp")[..|t + ".tmp"| - 4] == t;
    hide Dec;
    LastDot(("." + a) + ("." + Dec(k.pid)), Dec(k.counter), ("." + b) + ("." + Dec(l.pid)), Dec(l.counter));
    LastDot("." + a, Dec(k.pid), "." + b, Dec(l.pid));
    assert ("." + a)[1..] == a && ("." + b)[1..] == b;
    DecInjective(k.pid, l.pid);
    DecInjective(k.counter, l.counter);
  }

  lemma TempIsNoCachePath(a: string, k: Key, b: string)
    ensures CachePath(b) != Some(TempName(a, k))
  {
    var t, c := TempName(a, k), b + SUFFIX;
    assert t[|t| - 1] == 'p' && c[|c| - 1] == 'x';
  }

  // ---------- the protocol ----------

  /** A write in progress: the bytes to write, its open file, how many are written. */
  datatype Writer = Writer(id: string, bytes: string, inode: nat, done: nat)

  /** A read in progress: the open file and the bytes read so far. */
  datatype Reader = Reader(id: string, inode: nat, got: string)

  /** The directory maps names to inodes, inodes hold bytes. `finished` are the
      writes that were published, `seen` what completed reads returned. */
  datatype State = State(
    names: map<string, nat>, data: map<nat, string>,
    writers: map<Key, Writer>, readers: map<nat, Reader>,
    finished: set<(string, string)>, seen: set<(string, string)>)

  /** The atomic steps. A writer creates its temp file (emptying one that is
      there), appends, and renames it; it may stop at any point, with or without
      removing the temp file. A reader opens the cache path and reads in parts. */
  datatype Step =
    | Begin(key: Key, id: string, bytes: string, inode: nat)
    | Append(key: Key, count: nat)
    | Publish(key: Key)
    | Stop(key: Key, cleans: bool)
    | Remove(id: string)
    | Open(reader: nat, id: string)
    | Read(reader: nat, count: nat)
    | Close(reader: nat)

  function Part(content: string, from: nat, count: nat): string {
    var end := if from + count < |content| then from + count else |content|;
    if end <= from then [] else content[from..end]
  }

  /** When a step can happen. No two live writers share a key: process ids are
      unique among live processes, and the counter only grows. */
  ghost predicate Enabled(s: State, step: Step) {
    match step
    case Begin(key, id, bytes, inode) =>
      && IsSafeFileId(id) && key !in s.writers
      && (if TempName(id, key) in s.names then inode == s.names[TempName(id, key)] else inode !in s.data)
    case Append(key, count) => key in s.writers && s.writers[key].done + count <= |s.writers[key].bytes|
    case Publish(key) =>
      && key in s.writers && s.writers[key].done == |s.writers[key].bytes|
      && TempName(s.writers[key].id, key) in s.names
    case Stop(key, cleans) => key in s.writers
    case Remove(id) => IsSafeFileId(id)
    case Open(reader, id) => IsSafeFileId(id) && id + SUFFIX in s.names && reader !in s.readers
    case Read(reader, count) => reader in s.readers && s.readers[reader].inode in s.data
    case Close(reader) =>
      && reader in s.readers && s.readers[reader].inode in s.data
      && |s.readers[reader].got| >= |s.data[s.readers[reader].inode]|
  }

  ghost function Act(s: State, step: Step): State
    requires Enabled(s, step)
  {
    match step
    case Begin(key, id, bytes, inode) =>
      s.(names := s.names[TempName(id, key) := inode],
         data := s.data[inode := []],
         writers := s.writers[key := Writer(id, bytes, inode, 0)])
    case Append(key, count) =>
      var w := s.writers[key];
      var written := if w.inode in s.data then s.data[w.inode] else [];
      s.(data := s.data[w.inode := written + w.bytes[w.done..w.done + count]],
         writers := s.writers[key := w.(done := w.done + count)])
    case Publish(key) =>
      var w := s.writers[key];
      var temp := TempName(w.id, key);
      s.(names := (s.names - {temp})[w.id + SUFFIX := s.names[temp]],
         writers := s.writers - {key},
         finished := s.finished + {(w.id, w.bytes)})
    case Stop(key, cleans) =>
      s.(names := if cleans then s.names - {TempName(s.writers[key].id, key)} else s.names,
         writers := s.writers - {key})
    case Remove(id) => s.(names := s.names - {id + SUFFIX})
    case Open(reader, id) => s.(readers := s.readers[reader := Reader(id, s.names[id + SUFFIX], [])])
    case Read(reader, count) =>
      var r := s.readers[reader];
      s.(readers := s.readers[reader := r.(got := r.got + Part(s.data[r.inode], |r.got|, count))])
    case Close(reader) =>
      s.(readers := s.readers - {reader}, seen := s.seen + {(s.readers[reader].id, s.readers[reader].got)})
  }

  ghost predicate WriterOk(s: State, key: Key) {
    key in s.writers ==>
      var w := s.writers[key];
      && IsSafeFileId(w.id) && w.done <= |w.bytes|
      && TempName(w.id, key) in s.names && s.names[TempName(w.id, key)] == w.inode
      && w.inode in s.data && s.data[w.inode] == w.bytes[..w.done]
  }

  ghost predicate NamesOk(s: State) {
    && (forall n | n in s.names :: s.names[n] in s.data)
    && (forall m, n | m in s.names && n in s.names && s.names[m] == s.names[n] :: m == n)
  }

  /** What stands under a cache path is a finished write, whole. */
  ghost predicate PathOk(s: State, id: string) {
    IsSafeFileId(id) && id + SUFFIX in s.names ==>
      s.names[id + SUFFIX] in s.data && (id, s.data[s.names[id + SUFFIX]]) in s.finished
  }

  ghost predicate ReaderOk(s: State, reader: nat) {
    reader in s.readers ==>
      var r := s.readers[reader];
      && IsSafeFileId(r.id)
      && r.inode in s.data && (r.id, s.data[r.inode]) in s.finished && r.got <= s.data[r.inode]
      && forall n | n in s.names && s.names[n] == r.inode :: n == r.id + SUFFIX
  }

  ghost predicate Inv(s: State) {
    && NamesOk(s)
    && (forall key :: WriterOk(s, key))
    && (forall id :: PathOk(s, id))
    && (forall reader :: ReaderOk(s, reader))
    && s.seen <= s.finished
  }

  /** A writer's file has no other name, and no reader has it open. */
  lemma Apart(s: State, key: Key)
    requires Inv(s) && key in s.writers
    ensures forall other | other in s.writers && other != key :: s.writers[other].inode != s.writers[key].inode
    ensures forall id | IsSafeFileId(id) && id + SUFFIX in s.names :: s.names[id + SUFFIX] != s.writers[key].inode
    ensures forall reader | reader in s.readers :: s.readers[reader].inode != s.writers[key].inode
  {
    var w := s.writers[key];
    assert WriterOk(s, key);
    hide TempName;
    forall other | other in s.writers && other != key ensures s.writers[other].inode != w.inode {
      assert WriterOk(s, other);
      if TempName(s.writers[other].id, other) == TempName(w.id, key) {
        TempNameInjective(s.writers[other].id, other, w.id, key);
      }
    }
    forall id | IsSafeFileId(id) && id + SUFFIX in s.names ensures s.names[id + SUFFIX] != w.inode {
      TempIsNoCachePath(w.id, key, id);
    }
    forall reader | reader in s.readers ensures s.readers[reader].inode != w.inode {
      assert ReaderOk(s, reader);
      TempIsNoCachePath(w.id, key, s.readers[reader].id);
    }
  }

  lemma BeginKeeps(s: State, key: Key, id: string, bytes: string, inode: nat)
    requires Inv(s) && Enabled(s, Begin(key, id, bytes, inode))
    ensures Inv(Act(s, Begin(key, id, bytes, inode)))
  {
    var t := Act(s, Begin(key, id, bytes, inode));
    var temp := TempName(id, key);
    hide TempName, IsSafeFileId;
    forall other ensures WriterOk(t, other) {
      assert WriterOk(s, other);
      if other in s.writers && TempName(s.writers[other].id, other) == temp {
        TempNameInjective(s.writers[other].id, other, id, key);
      }
    }
    forall path ensures PathOk(t, path) {
      assert PathOk(s, path);
      TempIsNoCachePath(id, key, path);
    }
    forall reader ensures ReaderOk(t, reader) {
      assert ReaderOk(s, reader);
      if reader in s.readers { TempIsNoCachePath(id, key, s.readers[reader].id); }
    }
  }

  lemma AppendKeeps(s: State, key: Key, count: nat)
    requires Inv(s) && Enabled(s, Append(key, count))
    ensures Inv(Act(s, Append(key, count)))
  {
    var t := Act(s, Append(key, count));
    var w := s.writers[key];
    Apart(s, key);
    hide TempName, IsSafeFileId;
    forall other ensures WriterOk(t, other) {
      assert WriterOk(s, other);
      assert WriterOk(s, key);
      assert w.bytes[..w.done] + w.bytes[w.done..w.done + count] == w.bytes[..w.done + count];
    }
    forall path ensures PathOk(t, path) { assert PathOk(s, path); }
    forall reader ensures ReaderOk(t, reader) { assert ReaderOk(s, reader); }
  }

  lemma PublishKeeps(s: State, key: Key)
    requires Inv(s) && Enabled(s, Publish(key))
    ensures Inv(Act(s, Publish(key)))
  {
    var t := Act(s, Publish(key));
    var w := s.writers[key];
    assert WriterOk(s, key);
    Apart(s, key);
    TempIsNoCachePath(w.id, key, w.id);
    assert w.bytes[..w.done] == w.bytes;
    hide TempName;
    forall other ensures WriterOk(t, other) {
      assert WriterOk(s, other);
      if other in t.writers {
        var v := s.writers[other];
        if TempName(v.id, other) == TempName(w.id, key) { TempNameInjective(v.id, other, w.id, key); }
        TempIsNoCachePath(v.id, other, w.id);
      }
    }
    forall path ensures PathOk(t, path) {
      assert PathOk(s, path);
      if IsSafeFileId(path) && path + SUFFIX == w.id + SUFFIX { CachePathInjective(path, w.id); }
    }
    forall reader ensures ReaderOk(t, reader) { assert ReaderOk(s, reader); }
  }

  lemma StopKeeps(s: State, key: Key, cleans: bool)
    requires Inv(s) && Enabled(s, Stop(key, cleans))
    ensures Inv(Act(s, Stop(key, cleans)))
  {
    var t := Act(s, Stop(key, cleans));
    var w := s.writers[key];
    hide TempName, IsSafeFileId;
    forall other ensures WriterOk(t, other) {
      assert WriterOk(s, other);
      if other in t.writers && TempName(s.writers[other].id, other) == TempName(w.id, key) {
        TempNameInjective(s.writers[other].id, other, w.id, key);
      }
    }
    forall path ensures PathOk(t, path) { assert PathOk(s, path); }
    forall reader ensures ReaderOk(t, reader) { assert ReaderOk(s, reader); }
  }

  lemma RemoveKeeps(s: State, id: string)
    requires Inv(s) && Enabled(s, Remove(id))
    ensures Inv(Act(s, Remove(id)))
  {
    var t := Act(s, Remove(id));
    hide TempName;
    forall key ensures WriterOk(t, key) {
      assert WriterOk(s, key);
      if key in s.writers { TempIsNoCachePath(s.writers[key].id, key, id); }
    }
    forall path ensures PathOk(t, path) { assert PathOk(s, path); }
    forall reader ensures ReaderOk(t, reader) { assert ReaderOk(s, reader); }
  }

  lemma ReadingKeeps(s: State, step: Step)
    requires Inv(s) && Enabled(s, step) && (step.Open? || step.Read? || step.Close?)
    ensures Inv(Act(s, step))
  {
    var t := Act(s, step);
    hide TempName, IsSafeFileId;
    forall key ensures WriterOk(t, key) { assert WriterOk(s, key); }
    forall path ensures PathOk(t, path) { assert PathOk(s, path); }
    forall reader ensures ReaderOk(t, reader) {
      assert ReaderOk(s, reader);
      if step.Open? { assert PathOk(s, step.id); }
    }
    if step.Close? {
      assert ReaderOk(s, step.reader);
      var r := s.readers[step.reader];
      assert r.got == s.data[r.inode];
    }
  }

  lemma StepKeepsInv(s: State, step: Step)
    requires Inv(s) && Enabled(s, step)
    ensures Inv(Act(s, step))
  {
    hide Inv, Enabled, Act;
    match step
    case Begin(key, id, bytes, inode) => BeginKeeps(s, key, id, bytes, inode);
    case Append(key, count) => AppendKeeps(s, key, count);
    case Publish(key) => PublishKeeps(s, key);
    case Stop(key, cleans) => StopKeeps(s, key, cleans);
    case Remove(id) => RemoveKeeps(s, id);
    case _ => ReadingKeeps(s, step);
  }

  /** A run: every step is possible where it happens. */
  ghost predicate Leads(s: State, steps: seq<Step>, t: State)
    decreases |steps|
  {
    if steps == [] then s == t else Enabled(s, steps[0]) && Leads(Act(s, steps[0]), steps[1..], t)
  }

  /** Whatever the interleaving, crashes included: a completed read returns the
      whole of one finished write. */
  lemma {:induction false} ReadsAreWhole(s: State, steps: seq<Step>, t: State)
    requires Inv(s) && Leads(s, steps, t)
    ensures Inv(t) && t.seen <= t.finished
    decreases |steps|
  {
    hide Inv, Enabled, Act;
    if steps == [] {
      assert t.seen <= t.finished by { InvMeans(t); }
    } else {
      StepKeepsInv(s, steps[0]);
      ReadsAreWhole(Act(s, steps[0]), steps[1..], t);
    }
  }

  lemma InvMeans(s: State)
    requires Inv(s)
    ensures s.seen <= s.finished
  {
  }

  /** A cache directory nobody is using: its files count as finished writes. */
  ghost predicate AtRest(s: State) {
    && s.writers == map[] && s.readers == map[] && s.seen == {}
    && NamesOk(s) && forall id :: PathOk(s, id)
  }

  lemma CacheReadsAreWhole(s: State, steps: seq<Step>, t: State)
    requires AtRest(s) && Leads(s, steps, t)
    ensures t.seen <= t.finished
    ensures forall id | IsSafeFileId(id) && id + SUFFIX in t.names ::
      t.names[id + SUFFIX] in t.data && (id, t.data[t.names[id + SUFFIX]]) in t.finished
  {
    ReadsAreWhole(s, steps, t);
    hide Leads, NamesOk;
    forall id | IsSafeFileId(id) && id + SUFFIX in t.names
      ensures t.names[id + SUFFIX] in t.data && (id, t.data[t.names[id + SUFFIX]]) in t.finished
    {
      assert PathOk(t, id);
    }
  }

  // ---------- a write and a read undisturbed ----------

  /** The key is free; a temp file that a dead process left under it is taken over. */
  ghost predicate Ready(s: State, key: Key, id: string, inode: nat) {
    && IsSafeFileId(id) && key !in s.writers
    && if TempName(id, key) in s.names then inode == s.names[TempName(id, key)] else inode !in s.data
  }

  lemma StepFirst(s: State, step: Step, steps: seq<Step>, t: State)
    requires Enabled(s, step) && Leads(Act(s, step), steps, t)
    ensures Leads(s, [step] + steps, t)
  {
    assert ([step] + steps)[1..] == steps;
    hide Enabled, Act;
  }

  lemma {:induction false} LeadsOn(s: State, steps: seq<Step>, t: State, more: seq<Step>, u: State)
    requires Leads(s, steps, t) && Leads(t, more, u)
    ensures Leads(s, steps + more, u)
    decreases |steps|
  {
    hide Enabled, Act;
    if steps == [] {
      assert steps + more == more;
    } else {
      assert (steps + more)[1..] == steps[1..] + more;
      LeadsOn(Act(s, steps[0]), steps[1..], t, more, u);
    }
  }

  function WriteSteps(key: Key, id: string, bytes: string, inode: nat, part: nat): seq<Step>
    requires part <= |bytes|
  {
    [Begin(key, id, bytes, inode)] + ([Append(key, part)] + ([Append(key, |bytes| - part)] + ([Publish(key)] + [])))
  }

  function ReadSteps(reader: nat, id: string, part: nat, most: nat): seq<Step> {
    [Open(reader, id)] + ([Read(reader, part)] + ([Read(reader, most)] + ([Close(reader)] + [])))
  }

  lemma AppendsDone(s: State, key: Key, id: string, bytes: string, inode: nat, part: nat) returns (t: State)
    requires key in s.writers && s.writers[key] == Writer(id, bytes, inode, 0) && part <= |bytes|
    requires inode in s.data && s.data[inode] == []
    ensures Leads(s, [Append(key, part)] + ([Append(key, |bytes| - part)] + []), t)
    ensures t == s.(data := s.data[inode := bytes], writers := s.writers[key := Writer(id, bytes, inode, |bytes|)])
  {
    var s1 := Act(s, Append(key, part));
    t := Act(s1, Append(key, |bytes| - part));
    assert s1.data[inode] == bytes[..part] && bytes[part..part + (|bytes| - part)] == bytes[part..];
    assert t.data[inode] == bytes;
    assert t.data == s.data[inode := bytes];
    hide Enabled, Act;
    StepFirst(s1, Append(key, |bytes| - part), [], t);
    StepFirst(s, Append(key, part), [Append(key, |bytes| - part)] + [], t);
  }

  lemma WriteDone(s: State, key: Key, id: string, bytes: string, inode: nat, part: nat) returns (t: State)
    requires Ready(s, key, id, inode) && part <= |bytes|
    ensures Leads(s, WriteSteps(key, id, bytes, inode, part), t)
    ensures t == s.(names := (s.names - {TempName(id, key)})[id + ".xlsx" := inode], data := s.data[inode := bytes], finished := s.finished + {(id, bytes)})
  {
    hide TempName, IsSafeFileId, Leads;
    var s1 := Act(s, Begin(key, id, bytes, inode));
    var appends := [Append(key, part)] + ([Append(key, |bytes| - part)] + []);
    var s3 := AppendsDone(s1, key, id, bytes, inode, part);
    t := Act(s3, Publish(key));
    assert t.writers == s.writers && t.data == s.data[inode := bytes];
    assert t.names == (s.names - {TempName(id, key)})[id + ".xlsx" := inode];
    hide Enabled, Act;
    Nothing(t);
    StepFirst(s3, Publish(key), [], t);
    LeadsOn(s1, appends, s3, [Publish(key)] + [], t);
    StepFirst(s, Begin(key, id, bytes, inode), appends + ([Publish(key)] + []), t);
    assert WriteSteps(key, id, bytes, inode, part) == [Begin(key, id, bytes, inode)] + (appends + ([Publish(key)] + []));
  }

  lemma Nothing(s: State)
    ensures Leads(s, [], s)
  {
  }

  lemma ReadDone(s: State, reader: nat, id: string, part: nat) returns (t: State)
    requires IsSafeFileId(id) && id + SUFFIX in s.names && s.names[id + SUFFIX] in s.data && reader !in s.readers
    ensures var bytes := s.data[s.names[id + SUFFIX]];
      Leads(s, ReadSteps(reader, id, part, |bytes|), t) && t == s.(seen := s.seen + {(id, bytes)})
  {
    var bytes := s.data[s.names[id + SUFFIX]];
    var s1 := Act(s, Open(reader, id));
    var s2 := Act(s1, Read(reader, part));
    var s3 := Act(s2, Read(reader, |bytes|));
    assert s3.readers[reader].got == bytes;
    t := Act(s3, Close(reader));
    assert t.readers == s.readers;
    hide Enabled, Act;
    StepFirst(s3, Close(reader), [], t);
    StepFirst(s2, Read(reader, |bytes|), [Close(reader)] + [], t);
    StepFirst(s1, Read(reader, part), [Read(reader, |bytes|)] + ([Close(reader)] + []), t);
    StepFirst(s, Open(reader, id), [Read(reader, part)] + ([Read(reader, |bytes|)] + ([Close(reader)] + [])), t);
  }

  /** Whatever was there before, an undisturbed write and then a read, both in
      parts, return the bytes written, which stand under the id's path; no temp
      file is left. */
  lemma WriteThenRead(s: State, key: Key, id: string, bytes: string, inode: nat, reader: nat, written: nat, part: nat)
    requires Ready(s, key, id, inode) && reader !in s.readers && written <= |bytes|
    ensures exists t ::
      && Leads(s, WriteSteps(key, id, bytes, inode, written) + ReadSteps(reader, id, part, |bytes|), t)
      && (id, bytes) in t.seen && t.names.Keys == s.names.Keys - {TempName(id, key)} + {id + ".xlsx"}
      && t.names[id + ".xlsx"] in t.data && t.data[t.names[id + ".xlsx"]] == bytes
  {
    var t := WriteDone(s, key, id, bytes, inode, written);
    var u := ReadDone(t, reader, id, part);
    LeadsOn(s, WriteSteps(key, id, bytes, inode, written), t, ReadSteps(reader, id, part, |bytes|), u);
    hide Leads, WriteSteps, ReadSteps;
  }

  /** A file that is removed while it is read is still read whole, and is gone. */
  lemma RemovedWhileRead(s: State, reader: nat, id: string)
    requires IsSafeFileId(id) && id + SUFFIX in s.names && s.names[id + SUFFIX] in s.data && reader !in s.readers
    ensures var bytes := s.data[s.names[id + SUFFIX]]; exists t ::
      && Leads(s, [Open(reader, id)] + ([Remove(id)] + ([Read(reader, |bytes|)] + ([Close(reader)] + []))), t)
      && (id, bytes) in t.seen && t.names == s.names - {id + ".xlsx"} && t.data == s.data
  {
    var bytes := s.data[s.names[id + SUFFIX]];
    var s1 := Act(s, Open(reader, id));
    var s2 := Act(s1, Remove(id));
    var s3 := Act(s2, Read(reader, |bytes|));
    assert s3.readers[reader].got == bytes;
    var t := Act(s3, Close(reader));
    assert t.readers == s.readers && t.names == s.names - {id + ".xlsx"};
    hide Enabled, Act;
    StepFirst(s3, Close(reader), [], t);
    StepFirst(s2, Read(reader, |bytes|), [Close(reader)] + [], t);
    StepFirst(s1, Remove(id), [Read(reader, |bytes|)] + ([Close(reader)] + []), t);
    StepFirst(s, Open(reader, id), [Remove(id)] + ([Read(reader, |bytes|)] + ([Close(reader)] + [])), t);
  }

  /** A write that stops and cleans up leaves no temp file; one that just stops
      leaves it, and either changes nothing else in the directory. */
  lemma StoppedWrite(s: State, key: Key, id: string, bytes: string, inode: nat, part: nat, cleans: bool)
    requires Ready(s, key, id, inode) && part <= |bytes|
    ensures exists t ::
      && Leads(s, [Begin(key, id, bytes, inode)] + ([Append(key, part)] + ([Stop(key, cleans)] + [])), t)
      && t.names == (if cleans then s.names - {TempName(id, key)} else s.names[TempName(id, key) := inode])
      && t.finished == s.finished
  {
    hide TempName;
    var s1 := Act(s, Begin(key, id, bytes, inode));
    var s2 := Act(s1, Append(key, part));
    var t := Act(s2, Stop(key, cleans));
    assert t.names == if cleans then s.names - {TempName(id, key)} else s.names[TempName(id, key) := inode];
    hide Enabled, Act;
    StepFirst(s2, Stop(key, cleans), [], t);
    StepFirst(s1, Append(key, part), [Stop(key, cleans)] + [], t);
    StepFirst(s, Begin(key, id, bytes, inode), [Append(key, part)] + ([Stop(key, cleans)] + []), t);
  }
}
