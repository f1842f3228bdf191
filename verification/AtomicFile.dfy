/** The crash-atomic writer (internal/atomicio/atomic.go): any number of concurrent
    writeFile calls to one destination, as atomic file-system steps that may each fail,
    with a crash possible between any two of them. Directory entries name inodes, so a
    file descriptor stays valid while names move. */
module AtomicFile {
  import opened Text

  newtype byte = x: int | 0 <= x < 256
  type Bytes = seq<byte>

  /** The first `synced` bytes are on stable storage. */
  datatype File = File(bytes: Bytes, synced: nat)

  /** One directory: names to inodes, and the inodes ever allocated. */
  datatype Disk = Disk(names: map<string, nat>, files: seq<File>)

  predicate ValidDisk(d: Disk) { forall n :: n in d.names ==> d.names[n] < |d.files| }

  predicate Durable(f: File) { f.synced == |f.bytes| }

  function Contents(d: Disk, name: string): Option<Bytes>
    requires ValidDisk(d)
  {
    if name in d.names then Some(d.files[d.names[name]].bytes) else None
  }

  // ----- system calls

  function TempName(base: string, r: string): string { "." + base + "." + r + ".tmp" }

  function Create(d: Disk, name: string): Disk {
    Disk(d.names[name := |d.files|], d.files + [File([], 0)])
  }

  function Append(d: Disk, ino: nat, more: Bytes): Disk
    requires ino < |d.files|
  {
    d.(files := d.files[ino := File(d.files[ino].bytes + more, d.files[ino].synced)])
  }

  function Fsync(d: Disk, ino: nat): Disk
    requires ino < |d.files|
  {
    d.(files := d.files[ino := File(d.files[ino].bytes, |d.files[ino].bytes|)])
  }

  function Move(d: Disk, from: string, to: string): Disk
    requires from in d.names
  {
    d.(names := (d.names - {from})[to := d.names[from]])
  }

  function Unlink(d: Disk, name: string): Disk { d.(names := d.names - {name}) }

  /** What a crash may leave of a file: synced bytes stay, the rest is arbitrary. */
  ghost predicate Survives(f: File, b: Bytes) {
    f.synced <= |f.bytes| && if Durable(f) then b == f.bytes else f.bytes[..f.synced] <= b
  }

  // ----- the protocol

  datatype Call = Call(data: Bytes, hooked: bool)

  datatype Config = Config(base: string, calls: map<nat, Call>, disk: Disk)

  datatype Phase = Idle | Writing | Synced | Moded | Closed | Ready | Cleaning | Returned(ok: bool)

  datatype Writer = Writer(phase: Phase, temp: string, ino: nat, written: nat)

  /** `past` lists the inodes the destination has named, `log` the calls whose rename took
      effect, `litter` the temporary names whose removal failed. */
  datatype State = State(disk: Disk, writers: map<nat, Writer>, past: seq<nat>, log: seq<nat>, litter: set<string>)

  datatype Action =
    | CreateTemp(w: nat, random: Option<string>)
    | Write(w: nat, n: nat, ok: bool)
    | Sync(w: nat, ok: bool)
    | Chmod(w: nat, ok: bool)
    | Close(w: nat, ok: bool)
    | Abort(w: nat, ok: bool)
    | Rename(w: nat, ok: bool)
    | Remove(w: nat, ok: bool)

  ghost predicate ValidConfig(c: Config) {
    && ValidDisk(c.disk)
    && forall i :: 0 <= i < |c.disk.files| ==> Durable(c.disk.files[i])
  }

  function Init(c: Config): State {
    State(c.disk, map w | w in c.calls :: Writer(Idle, "", 0, 0),
          if c.base in c.disk.names then [c.disk.names[c.base]] else [], [], {})
  }

  /** The steps of writeFile in its own order. CreateTemp opens exclusively: the name it
      picks does not exist. Any step may fail, a write after any part of its bytes. */
  predicate Enabled(c: Config, s: State, a: Action) {
    && a.w in c.calls && a.w in s.writers
    && var w := s.writers[a.w];
       match a
       case CreateTemp(_, r) => w.phase == Idle && (r.Some? ==> TempName(c.base, r.value) !in s.disk.names)
       case Write(_, n, ok) =>
         && w.phase == Writing && w.written + n <= |c.calls[a.w].data| && w.ino < |s.disk.files|
       case Sync(_, _) => w.phase == Writing && w.written == |c.calls[a.w].data| && w.ino < |s.disk.files|
       case Chmod(_, _) => w.phase == Synced
       case Close(_, _) => w.phase == Moded
       case Abort(_, _) => w.phase == Closed
       case Rename(_, _) => w.phase == Ready && w.temp in s.disk.names
       case Remove(_, _) => w.phase == Cleaning
  }

  function To(s: State, w: nat, p: Phase): State
    requires w in s.writers
  {
    s.(writers := s.writers[w := s.writers[w].(phase := p)])
  }

  function Next(c: Config, s: State, a: Action): State
    requires Enabled(c, s, a)
  {
    var w := s.writers[a.w];
    match a
    case CreateTemp(i, r) =>
      if r.None? then To(s, i, Returned(false))
      else
        var name := TempName(c.base, r.value);
        s.(disk := Create(s.disk, name), writers := s.writers[i := Writer(Writing, name, |s.disk.files|, 0)])
    case Write(i, n, ok) =>
      var more := c.calls[i].data[w.written..w.written + n];
      s.(disk := Append(s.disk, w.ino, more),
         writers := s.writers[i := w.(written := w.written + n, phase := if ok then Writing else Cleaning)])
    case Sync(i, ok) =>
      if ok then To(s, i, Synced).(disk := Fsync(s.disk, w.ino)) else To(s, i, Cleaning)
    case Chmod(i, ok) => To(s, i, if ok then Moded else Cleaning)
    case Close(i, ok) => To(s, i, if !ok then Cleaning else if c.calls[i].hooked then Closed else Ready)
    case Abort(i, ok) => To(s, i, if ok then Ready else Cleaning)
    case Rename(i, ok) =>
      if !ok then To(s, i, Cleaning)
      else To(s, i, Returned(true)).(disk := Move(s.disk, w.temp, c.base), past := s.past + [w.ino], log := s.log + [i])
    case Remove(i, ok) =>
      if ok then To(s, i, Returned(false)).(disk := Unlink(s.disk, w.temp))
      else To(s, i, Returned(false)).(litter := s.litter + {w.temp})
  }

  /** The state after a run, None if some step of it was not possible. */
  function Exec(c: Config, t: seq<Action>): Option<State> {
    if t == [] then Some(Init(c))
    else
      var p := Exec(c, t[..|t| - 1]);
      if p.Some? && Enabled(c, p.value, t[|t| - 1]) then Some(Next(c, p.value, t[|t| - 1])) else None
  }

  // ----- the invariant

  /** Every complete contents the destination has had, in order. */
  function History(c: Config, log: seq<nat>): seq<Bytes>
    requires ValidDisk(c.disk) && forall i :: 0 <= i < |log| ==> log[i] in c.calls
  {
    (if c.base in c.disk.names then [c.disk.files[c.disk.names[c.base]].bytes] else [])
    + seq(|log|, i requires 0 <= i < |log| => c.calls[log[i]].data)
  }

  predicate Holding(w: Writer) { !w.phase.Idle? && !w.phase.Returned? }

  /** Where a call stands: its inode is its own, under its own temporary name, with the
      bytes written so far, and durable once synced. */
  ghost predicate WriterOk(c: Config, d: Disk, past: seq<nat>, litter: set<string>, call: Call, w: Writer) {
    Holding(w) ==>
      && w.temp in d.names && d.names[w.temp] == w.ino && |c.disk.files| <= w.ino < |d.files|
      && w.ino !in past && w.temp != c.base && w.temp !in c.disk.names && w.temp !in litter
      && w.written <= |call.data|
      && d.files[w.ino].bytes == call.data[..w.written]
      && d.files[w.ino].synced <= w.written
      && (w.phase in {Synced, Moded, Closed, Ready} ==> d.files[w.ino] == File(call.data, |call.data|))
  }

  ghost predicate Owned(s: State, name: string) {
    exists w :: w in s.writers && Holding(s.writers[w]) && s.writers[w].temp == name
  }

  ghost predicate DestOk(c: Config, s: State)
    requires ValidConfig(c)
  {
    && ValidDisk(s.disk)
    && (forall i :: 0 <= i < |s.log| ==> s.log[i] in c.calls)
    && var h := History(c, s.log);
       && |s.past| == |h|
       && (forall i :: 0 <= i < |h| ==> s.past[i] < |s.disk.files| && s.disk.files[s.past[i]] == File(h[i], |h[i]|))
       && (c.base in s.disk.names <==> h != [])
       && (h != [] ==> s.disk.names[c.base] == s.past[|h| - 1])
  }

  ghost predicate OthersOk(c: Config, s: State) {
    && |c.disk.files| <= |s.disk.files|
    && (forall i :: 0 <= i < |c.disk.files| ==> s.disk.files[i] == c.disk.files[i])
    && (forall n :: n in c.disk.names && n != c.base ==> n in s.disk.names && s.disk.names[n] == c.disk.names[n])
    && (forall n :: n in s.litter ==> n in s.disk.names && n !in c.disk.names && n != c.base)
    && (forall n :: n in s.disk.names ==> n == c.base || n in c.disk.names || n in s.litter || Owned(s, n))
  }

  ghost predicate WritersOk(c: Config, s: State) {
    && s.writers.Keys == c.calls.Keys
    && (forall w :: w in s.writers ==> WriterOk(c, s.disk, s.past, s.litter, c.calls[w], s.writers[w]))
    && (forall v, w :: v in s.writers && w in s.writers && v != w && Holding(s.writers[v]) && Holding(s.writers[w]) ==>
          s.writers[v].ino != s.writers[w].ino)
  }

  ghost predicate Inv(c: Config, s: State)
    requires ValidConfig(c)
  {
    DestOk(c, s) && OthersOk(c, s) && WritersOk(c, s)
  }

  lemma InitInv(c: Config)
    requires ValidConfig(c)
    ensures Inv(c, Init(c))
  {
  }

  lemma TempIsNotBase(base: string, r: string)
    ensures TempName(base, r) != base
  {
    assert |TempName(base, r)| > |base|;
  }

  lemma OwnedStays(s: State, i: nat, w: Writer, t: State)
    requires i in s.writers && t.writers == s.writers[i := w]
    requires Holding(s.writers[i]) ==> Holding(w) && w.temp == s.writers[i].temp
    ensures forall n :: Owned(s, n) ==> Owned(t, n)
  {
    forall n | Owned(s, n) ensures Owned(t, n) {
      var v :| v in s.writers && Holding(s.writers[v]) && s.writers[v].temp == n;
      assert Holding(t.writers[v]) && t.writers[v].temp == n;
    }
  }

  lemma OwnedButFor(s: State, i: nat, w: Writer, t: State)
    requires i in s.writers && t.writers == s.writers[i := w]
    ensures forall n :: Owned(s, n) && n != s.writers[i].temp ==> Owned(t, n)
  {
    forall n | Owned(s, n) && n != s.writers[i].temp ensures Owned(t, n) {
      var v :| v in s.writers && Holding(s.writers[v]) && s.writers[v].temp == n;
      assert v != i && t.writers[v].temp == n;
    }
  }

  /** A step that changes only one call's phase. */
  lemma QuietStep(c: Config, s: State, i: nat, w: Writer)
    requires ValidConfig(c) && Inv(c, s) && i in s.writers
    requires w.(phase := Idle) == s.writers[i].(phase := Idle) && (Holding(w) <==> Holding(s.writers[i]))
    requires WriterOk(c, s.disk, s.past, s.litter, c.calls[i], w)
    ensures Inv(c, s.(writers := s.writers[i := w]))
  {
    hide History, WriterOk;
    OwnedStays(s, i, w, s.(writers := s.writers[i := w]));
  }

  /** A step that writes to or syncs one call's own inode. */
  lemma ContentStep(c: Config, s: State, i: nat, w: Writer, f: File)
    requires ValidConfig(c) && Inv(c, s) && i in s.writers
    requires Holding(s.writers[i]) && Holding(w) && w.temp == s.writers[i].temp && w.ino == s.writers[i].ino
    requires w.ino < |s.disk.files|
    requires var d := s.disk.(files := s.disk.files[w.ino := f]);
             WriterOk(c, d, s.past, s.litter, c.calls[i], w)
    ensures Inv(c, s.(disk := s.disk.(files := s.disk.files[w.ino := f]), writers := s.writers[i := w]))
  {
    hide History, Owned;
    OwnedStays(s, i, w, s.(writers := s.writers[i := w]));
    OwnedStays(s, i, w, s.(disk := s.disk.(files := s.disk.files[w.ino := f]), writers := s.writers[i := w]));
  }

  function Created(s: State, i: nat, name: string): State
    requires i in s.writers
  {
    s.(disk := Create(s.disk, name), writers := s.writers[i := Writer(Writing, name, |s.disk.files|, 0)])
  }

  lemma CreateKeepsWriters(c: Config, s: State, i: nat, name: string)
    requires ValidConfig(c) && WritersOk(c, s) && i in s.writers && name !in s.disk.names && name != c.base
    requires |c.disk.files| <= |s.disk.files| && name !in c.disk.names && name !in s.litter
    requires forall k :: k in s.past ==> k < |s.disk.files|
    ensures WritersOk(c, Created(s, i, name))
  {
    var t := Created(s, i, name);
    forall v | v in t.writers && v != i && Holding(t.writers[v])
      ensures WriterOk(c, t.disk, t.past, t.litter, c.calls[v], t.writers[v])
    {
      assert WriterOk(c, s.disk, s.past, s.litter, c.calls[v], s.writers[v]);
    }
  }

  lemma CreateKeepsDest(c: Config, s: State, i: nat, name: string)
    requires ValidConfig(c) && DestOk(c, s) && i in s.writers && name != c.base
    ensures DestOk(c, Created(s, i, name))
  {
    hide History;
  }

  lemma CreateKeepsOthers(c: Config, s: State, i: nat, name: string)
    requires ValidConfig(c) && OthersOk(c, s) && i in s.writers && !Holding(s.writers[i])
    requires name !in s.disk.names && name != c.base
    ensures OthersOk(c, Created(s, i, name))
    ensures |c.disk.files| <= |s.disk.files| && name !in c.disk.names && name !in s.litter
  {
    hide Owned;
    var t := Created(s, i, name);
    OwnedStays(s, i, t.writers[i], t);
    OwnerOf(t, i);
  }

  lemma CreateStep(c: Config, s: State, i: nat, name: string)
    requires ValidConfig(c) && Inv(c, s) && i in s.writers && !Holding(s.writers[i])
    requires name !in s.disk.names && name != c.base
    ensures Inv(c, Created(s, i, name))
  {
    assert forall k :: k in s.past ==> k < |s.disk.files|;
    hide DestOk, OthersOk, WritersOk, Created;
    CreateKeepsOthers(c, s, i, name);
    CreateKeepsWriters(c, s, i, name);
    CreateKeepsDest(c, s, i, name);
  }

  lemma OwnerOf(s: State, i: nat)
    requires i in s.writers && Holding(s.writers[i])
    ensures Owned(s, s.writers[i].temp)
  {
  }

  function Renamed(c: Config, s: State, i: nat): State
    requires i in s.writers && s.writers[i].temp in s.disk.names
  {
    To(s, i, Returned(true)).(disk := Move(s.disk, s.writers[i].temp, c.base),
                              past := s.past + [s.writers[i].ino], log := s.log + [i])
  }

  lemma RenameKeepsWriters(c: Config, s: State, i: nat)
    requires ValidConfig(c) && WritersOk(c, s) && i in s.writers && s.writers[i].phase.Ready?
    requires s.writers[i].temp in s.disk.names
    ensures WritersOk(c, Renamed(c, s, i))
  {
    var t := Renamed(c, s, i);
    forall v | v in t.writers && Holding(t.writers[v]) ensures WriterOk(c, t.disk, t.past, t.litter, c.calls[v], t.writers[v]) {
      assert v != i && WriterOk(c, s.disk, s.past, s.litter, c.calls[v], s.writers[v]);
      assert s.writers[v].ino != s.writers[i].ino;
    }
  }

  lemma RenameKeepsDest(c: Config, s: State, i: nat)
    requires ValidConfig(c) && DestOk(c, s) && WritersOk(c, s) && i in s.writers && s.writers[i].phase.Ready?
    requires s.writers[i].temp in s.disk.names
    ensures DestOk(c, Renamed(c, s, i))
  {
    assert WriterOk(c, s.disk, s.past, s.litter, c.calls[i], s.writers[i]);
    hide WriterOk, WritersOk, Owned, OthersOk;
    var t, h, data := Renamed(c, s, i), History(c, s.log), c.calls[i].data;
    assert History(c, t.log) == h + [data];
    hide History;
    forall k | 0 <= k < |h| + 1
      ensures t.past[k] < |t.disk.files| && t.disk.files[t.past[k]] == File((h + [data])[k], |(h + [data])[k]|)
    {
      assert t.past[k] == if k < |h| then s.past[k] else s.writers[i].ino;
    }
  }

  lemma RenameKeepsOthers(c: Config, s: State, i: nat)
    requires ValidConfig(c) && OthersOk(c, s) && WritersOk(c, s) && i in s.writers && s.writers[i].phase.Ready?
    requires s.writers[i].temp in s.disk.names
    ensures OthersOk(c, Renamed(c, s, i))
  {
    assert WriterOk(c, s.disk, s.past, s.litter, c.calls[i], s.writers[i]);
    hide WriterOk, WritersOk, Owned;
    var t := Renamed(c, s, i);
    OwnedButFor(s, i, t.writers[i], t);
  }

  lemma RenameStep(c: Config, s: State, i: nat)
    requires ValidConfig(c) && Inv(c, s) && i in s.writers && s.writers[i].phase.Ready?
    requires s.writers[i].temp in s.disk.names
    ensures Inv(c, Renamed(c, s, i))
  {
    hide DestOk, OthersOk, WritersOk, Renamed;
    RenameKeepsWriters(c, s, i);
    RenameKeepsDest(c, s, i);
    RenameKeepsOthers(c, s, i);
  }

  function Removed(s: State, i: nat): State
    requires i in s.writers
  {
    To(s, i, Returned(false)).(disk := Unlink(s.disk, s.writers[i].temp))
  }

  lemma RemoveKeepsWriters(c: Config, s: State, i: nat)
    requires WritersOk(c, s) && i in s.writers && s.writers[i].phase.Cleaning?
    ensures WritersOk(c, Removed(s, i))
  {
    var t := Removed(s, i);
    forall v | v in t.writers && Holding(t.writers[v]) ensures WriterOk(c, t.disk, t.past, t.litter, c.calls[v], t.writers[v]) {
      assert v != i && WriterOk(c, s.disk, s.past, s.litter, c.calls[v], s.writers[v]);
      assert s.writers[v].ino != s.writers[i].ino;
    }
  }

  lemma RemoveKeepsOthers(c: Config, s: State, i: nat)
    requires OthersOk(c, s) && WritersOk(c, s) && i in s.writers && s.writers[i].phase.Cleaning?
    ensures OthersOk(c, Removed(s, i)) && s.writers[i].temp != c.base
  {
    assert WriterOk(c, s.disk, s.past, s.litter, c.calls[i], s.writers[i]);
    hide Owned, WriterOk, WritersOk;
    OwnedButFor(s, i, Removed(s, i).writers[i], Removed(s, i));
  }

  lemma RemoveStep(c: Config, s: State, i: nat)
    requires ValidConfig(c) && Inv(c, s) && i in s.writers && s.writers[i].phase.Cleaning?
    ensures Inv(c, Removed(s, i))
  {
    hide History, OthersOk, WritersOk;
    RemoveKeepsWriters(c, s, i);
    RemoveKeepsOthers(c, s, i);
  }

  function Littered(s: State, i: nat): State
    requires i in s.writers
  {
    To(s, i, Returned(false)).(litter := s.litter + {s.writers[i].temp})
  }

  lemma LitterKeepsOthers(c: Config, s: State, i: nat)
    requires OthersOk(c, s) && WritersOk(c, s) && i in s.writers && s.writers[i].phase.Cleaning?
    ensures OthersOk(c, Littered(s, i))
  {
    assert WriterOk(c, s.disk, s.past, s.litter, c.calls[i], s.writers[i]);
    hide Owned, WriterOk, WritersOk;
    OwnedButFor(s, i, Littered(s, i).writers[i], Littered(s, i));
  }

  lemma LitterStep(c: Config, s: State, i: nat)
    requires ValidConfig(c) && Inv(c, s) && i in s.writers && s.writers[i].phase.Cleaning?
    ensures Inv(c, Littered(s, i))
  {
    LitterKeepsOthers(c, s, i);
    hide History, OthersOk, Owned;
    assert WriterOk(c, s.disk, s.past, s.litter, c.calls[i], s.writers[i]);
  }

  /** Every step of every call keeps the invariant. */
  lemma StepKeepsInv(c: Config, s: State, a: Action)
    requires ValidConfig(c) && Inv(c, s) && Enabled(c, s, a)
    ensures Inv(c, Next(c, s, a))
  {
    hide DestOk, OthersOk, Owned;
    var w, call := s.writers[a.w], c.calls[a.w];
    match a
    case CreateTemp(i, r) =>
      if r.Some? {
        TempIsNotBase(c.base, r.value);
        CreateStep(c, s, i, TempName(c.base, r.value));
      } else {
        QuietStep(c, s, i, w.(phase := Returned(false)));
      }
    case Write(i, n, ok) =>
      var more := call.data[w.written..w.written + n];
      assert call.data[..w.written] + more == call.data[..w.written + n];
      ContentStep(c, s, i, w.(written := w.written + n, phase := if ok then Writing else Cleaning),
                  Append(s.disk, w.ino, more).files[w.ino]);
    case Sync(i, ok) =>
      if ok {
        assert call.data[..w.written] == call.data;
        ContentStep(c, s, i, w.(phase := Synced), Fsync(s.disk, w.ino).files[w.ino]);
      } else {
        QuietStep(c, s, i, w.(phase := Cleaning));
      }
    case Chmod(i, ok) => QuietStep(c, s, i, Next(c, s, a).writers[i]);
    case Close(i, ok) => QuietStep(c, s, i, Next(c, s, a).writers[i]);
    case Abort(i, ok) => QuietStep(c, s, i, Next(c, s, a).writers[i]);
    case Rename(i, ok) =>
      if ok { RenameStep(c, s, i); } else { QuietStep(c, s, i, w.(phase := Cleaning)); }
    case Remove(i, ok) =>
      if ok { RemoveStep(c, s, i); } else { LitterStep(c, s, i); }
  }

  lemma {:induction false} RunKeepsInv(c: Config, t: seq<Action>)
    requires ValidConfig(c) && Exec(c, t).Some?
    ensures Inv(c, Exec(c, t).value)
    decreases |t|
  {
    hide Inv, Enabled, Next;
    if t == [] {
      InitInv(c);
    } else {
      RunKeepsInv(c, t[..|t| - 1]);
      StepKeepsInv(c, Exec(c, t[..|t| - 1]).value, t[|t| - 1]);
    }
  }

  // ----- what a run guarantees

  /** The last complete contents of a history. */
  function Last(h: seq<Bytes>): Option<Bytes> { if h == [] then None else Some(h[|h| - 1]) }

  /** What the destination would hold if each call were one atomic write that takes place
      at its rename: the last rename of the run decides. */
  function Register(c: Config, t: seq<Action>): Option<Bytes>
    requires ValidDisk(c.disk)
  {
    if t == [] then Contents(c.disk, c.base)
    else
      var a := t[|t| - 1];
      if a.Rename? && a.ok && a.w in c.calls then Some(c.calls[a.w].data) else Register(c, t[..|t| - 1])
  }

  lemma LogGrows(c: Config, s: State, a: Action)
    requires ValidConfig(c) && DestOk(c, s) && Enabled(c, s, a)
    ensures var t := Next(c, s, a);
            if a.Rename? && a.ok then
              (forall i :: 0 <= i < |t.log| ==> t.log[i] in c.calls) && History(c, t.log) == History(c, s.log) + [c.calls[a.w].data]
            else t.log == s.log
  {
  }

  lemma {:induction false} RegisterIsLast(c: Config, t: seq<Action>)
    requires ValidConfig(c) && Exec(c, t).Some?
    ensures DestOk(c, Exec(c, t).value) && Register(c, t) == Last(History(c, Exec(c, t).value.log))
    decreases |t|
  {
    RunKeepsInv(c, t);
    if t == [] {
      assert History(c, []) == if c.base in c.disk.names then [c.disk.files[c.disk.names[c.base]].bytes] else [];
    } else {
      RegisterIsLast(c, t[..|t| - 1]);
      LogGrows(c, Exec(c, t[..|t| - 1]).value, t[|t| - 1]);
      hide Next, DestOk, OthersOk, WritersOk, History;
    }
  }

  /** Every interleaving of the calls' steps, failures included, is as if each successful
      call wrote its whole data in one instant: a reader of the destination at any moment
      finds its initial contents, or those of the last rename, and never part of a file. */
  lemma ReadersSeeAtomicWrites(c: Config, t: seq<Action>)
    requires ValidConfig(c) && Exec(c, t).Some?
    ensures ValidDisk(Exec(c, t).value.disk)
    ensures Contents(Exec(c, t).value.disk, c.base) == Register(c, t)
  {
    hide Exec, Register;
    RegisterIsLast(c, t);
  }

  /** What a crash may leave under the destination's name. Renames that were not yet on
      stable storage are lost, so the entry may be any the destination ever had, and the
      file behind it is whatever survives of its bytes. */
  ghost predicate CrashImage(c: Config, s: State, image: Option<Bytes>) {
    if image.None? then c.base !in c.disk.names
    else exists i :: 0 <= i < |s.past| && s.past[i] < |s.disk.files| && Survives(s.disk.files[s.past[i]], image.value)
  }

  lemma {:induction false} PastWasCurrent(c: Config, t: seq<Action>, i: nat) returns (n: nat)
    requires ValidConfig(c) && Exec(c, t).Some?
    requires i < |Exec(c, t).value.past|
    ensures DestOk(c, Exec(c, t).value)
    ensures n <= |t| && Register(c, t[..n]) == Some(History(c, Exec(c, t).value.log)[i])
    decreases |t|
  {
    hide Next, Enabled, DestOk, History, Register;
    RegisterIsLast(c, t);
    PastLength(c, Exec(c, t).value);
    assert t[..|t|] == t;
    var h := History(c, Exec(c, t).value.log);
    if i == |h| - 1 {
      n := |t|;
    } else {
      RegisterIsLast(c, t[..|t| - 1]);
      PastLength(c, Exec(c, t[..|t| - 1]).value);
      LogGrows(c, Exec(c, t[..|t| - 1]).value, t[|t| - 1]);
      n := PastWasCurrent(c, t[..|t| - 1], i);
      assert t[..|t| - 1][..n] == t[..n];
    }
  }

  lemma PastLength(c: Config, s: State)
    requires ValidConfig(c) && DestOk(c, s)
    ensures forall i :: 0 <= i < |s.log| ==> s.log[i] in c.calls
    ensures |s.past| == |History(c, s.log)|
  {
  }

  /** A crash at any point of any run leaves the destination as it was at some moment of
      the run: absent or whole, never torn, even though unsynced bytes may turn into
      anything and renames may be lost. */
  lemma CrashIsAtomic(c: Config, t: seq<Action>, image: Option<Bytes>)
    requires ValidConfig(c) && Exec(c, t).Some?
    requires CrashImage(c, Exec(c, t).value, image)
    ensures exists n :: 0 <= n <= |t| && image == Register(c, t[..n])
  {
    RunKeepsInv(c, t);
    var s := Exec(c, t).value;
    if image.None? {
      assert t[..0] == [] && Register(c, t[..0]) == None;
    } else {
      hide Exec, Register;
      var i :| 0 <= i < |s.past| && Survives(s.disk.files[s.past[i]], image.value);
      var n := PastWasCurrent(c, t, i);
      assert image == Register(c, t[..n]);
    }
  }

  // ----- what each call's return value means

  ghost predicate LogOk(s: State) {
    && (forall w :: w in s.writers ==> (w in s.log <==> s.writers[w].phase == Returned(true)))
    && (forall i, j :: 0 <= i < j < |s.log| ==> s.log[i] != s.log[j])
  }

  lemma StepKeepsLog(c: Config, s: State, a: Action)
    requires LogOk(s) && Enabled(c, s, a)
    ensures var t := Next(c, s, a);
            && LogOk(t) && t.writers.Keys == s.writers.Keys
            && (forall w :: w in t.log <==> w in s.log || a == Rename(w, true))
            && (t.litter != {} ==> s.litter != {} || a == Remove(a.w, false))
  {
    hide Create, Append, Fsync, Move, Unlink, TempName;
  }

  /** The log and the litter of a state reflect the renames and failed removals of its run. */
  ghost predicate Recorded(t: seq<Action>, s: State) {
    && (forall w :: w in s.log <==> Rename(w, true) in t)
    && (s.litter != {} ==> exists w :: Remove(w, false) in t)
  }

  lemma RecordedNext(t: seq<Action>, a: Action, s: State, next: State)
    requires Recorded(t, s)
    requires forall w :: w in next.log <==> w in s.log || a == Rename(w, true)
    requires next.litter != {} ==> s.litter != {} || a == Remove(a.w, false)
    ensures Recorded(t + [a], next)
  {
    assert forall x :: x in t + [a] <==> x in t || x == a;
    if s.litter != {} {
      var w :| Remove(w, false) in t;
      assert Remove(w, false) in t + [a];
    }
  }

  lemma {:induction false} RunKeepsLog(c: Config, t: seq<Action>)
    requires Exec(c, t).Some?
    ensures LogOk(Exec(c, t).value) && Recorded(t, Exec(c, t).value)
    ensures Exec(c, t).value.writers.Keys == c.calls.Keys
    decreases |t|
  {
    if t != [] {
      var n := |t| - 1;
      hide Next, Enabled, LogOk, Init, Recorded;
      RunKeepsLog(c, t[..n]);
      StepKeepsLog(c, Exec(c, t[..n]).value, t[n]);
      RecordedNext(t[..n], t[n], Exec(c, t[..n]).value, Exec(c, t).value);
      assert t == t[..n] + [t[n]];
    }
  }

  /** A call returns nil exactly when its one rename took effect, so an error return means
      this call never touched the destination. */
  lemma ReturnTellsRename(c: Config, t: seq<Action>, w: nat)
    requires Exec(c, t).Some? && w in c.calls
    ensures w in Exec(c, t).value.writers
    ensures var p := Exec(c, t).value.writers[w].phase;
            Rename(w, true) in t <==> p == Returned(true)
    ensures var log := Exec(c, t).value.log;
            forall i, j :: 0 <= i < j < |log| ==> log[i] != log[j]
  {
    RunKeepsLog(c, t);
  }

  /** Once every call has returned and no removal has failed, the directory holds the names
      it started with and, if some call succeeded, the destination: no temporary file is
      left, and no other file was touched. */
  lemma NoLitter(c: Config, t: seq<Action>)
    requires ValidConfig(c) && Exec(c, t).Some?
    requires forall w :: w in c.calls ==> w in Exec(c, t).value.writers && Exec(c, t).value.writers[w].phase.Returned?
    requires forall w :: Remove(w, false) !in t
    ensures var s := Exec(c, t).value;
            && ValidDisk(s.disk)
            && (forall n :: n in s.disk.names <==> n in c.disk.names || (n == c.base && exists w :: w in c.calls && s.writers[w].phase.ok))
            && (forall n :: n in c.disk.names && n != c.base ==> Contents(s.disk, n) == Contents(c.disk, n))
  {
    RunKeepsLog(c, t);
    RunKeepsInv(c, t);
    var s := Exec(c, t).value;
    hide Exec;
    if s.log != [] {
      assert s.writers[s.log[0]].phase == Returned(true);
    }
    if w :| w in c.calls && s.writers[w].phase.ok {
      assert w in s.log;
    }
  }

  /** No run touches any name but the destination and its own temporaries, so a temporary
      file an earlier crash left behind is still there after every run. */
  lemma LeftoversStay(c: Config, t: seq<Action>, r: string)
    requires ValidConfig(c) && Exec(c, t).Some? && TempName(c.base, r) in c.disk.names
    ensures var s, n := Exec(c, t).value, TempName(c.base, r);
            ValidDisk(s.disk) && n in s.disk.names && Contents(s.disk, n) == Contents(c.disk, n)
  {
    TempIsNotBase(c.base, r);
    RunKeepsInv(c, t);
    hide Exec, TempName;
  }

  // ----- the steps of a call

  /** A failed step of call `w`, other than the final removal. */
  predicate FailedStep(a: Action, w: nat) {
    a.w == w && (a == CreateTemp(w, None) || (a.Write? && !a.ok) || a in {Sync(w, false), Chmod(w, false), Close(w, false), Abort(w, false), Rename(w, false)})
  }

  /** What call `w` has done to be in its phase. */
  ghost predicate StepsDone(t: seq<Action>, w: nat, hooked: bool, p: Phase) {
    && (p in {Synced, Moded, Closed, Ready, Returned(true)} ==> Sync(w, true) in t)
    && (p in {Moded, Closed, Ready, Returned(true)} ==> Chmod(w, true) in t)
    && (p in {Closed, Ready, Returned(true)} ==> Close(w, true) in t)
    && (p in {Ready, Returned(true)} && hooked ==> Abort(w, true) in t)
    && (p == Returned(true) ==> Rename(w, true) in t)
    && ((exists a :: a in t && FailedStep(a, w)) <==> p in {Cleaning, Returned(false)})
  }

  lemma StepsNext(c: Config, s: State, t: seq<Action>, a: Action, w: nat)
    requires Enabled(c, s, a) && w in s.writers && w in c.calls && StepsDone(t, w, c.calls[w].hooked, s.writers[w].phase)
    ensures w in Next(c, s, a).writers && StepsDone(t + [a], w, c.calls[w].hooked, Next(c, s, a).writers[w].phase)
  {
    hide Create, Append, Fsync, Move, Unlink, TempName;
    FailedNext(t, a, w);
    assert forall x :: x in t + [a] <==> x in t || x == a;
    assert FailedStep(a, w) <==> a.w == w && Next(c, s, a).writers[w].phase in {Cleaning, Returned(false)} && !a.Remove?;
    hide FailedStep;
  }

  lemma FailedNext(t: seq<Action>, a: Action, w: nat)
    ensures (exists x :: x in t + [a] && FailedStep(x, w)) <==> FailedStep(a, w) || exists x :: x in t && FailedStep(x, w)
  {
    hide FailedStep;
    assert forall x :: x in t + [a] <==> x in t || x == a;
    if x :| x in t && FailedStep(x, w) {
      assert x in t + [a];
    }
    if FailedStep(a, w) {
      assert a in t + [a];
    }
  }

  lemma {:induction false} RunKeepsSteps(c: Config, t: seq<Action>, w: nat)
    requires Exec(c, t).Some? && w in c.calls
    ensures w in Exec(c, t).value.writers && StepsDone(t, w, c.calls[w].hooked, Exec(c, t).value.writers[w].phase)
    decreases |t|
  {
    if t != [] {
      var n := |t| - 1;
      RunKeepsSteps(c, t[..n], w);
      StepsNext(c, Exec(c, t[..n]).value, t[..n], t[n], w);
      assert t == t[..n] + [t[n]];
      hide Next, Enabled, StepsDone, Init;
    }
  }

  lemma {:induction false} PrefixRuns(c: Config, t: seq<Action>, n: nat)
    requires Exec(c, t).Some? && n <= |t|
    ensures Exec(c, t[..n]).Some?
    decreases |t|
  {
    if n < |t| {
      PrefixRuns(c, t[..|t| - 1], n);
      assert t[..|t| - 1][..n] == t[..n];
      hide Next, Enabled;
    } else {
      assert t[..n] == t;
    }
  }

  /** A rename happens only behind the call's fsync, chmod and close, and the abort hook where
      there is one, all of which worked; and a call with a failed step never gets there. */
  lemma RenameNeedsEveryStep(c: Config, t: seq<Action>, w: nat, k: nat)
    requires Exec(c, t).Some? && w in c.calls && k < |t| && t[k] == Rename(w, true)
    ensures Sync(w, true) in t[..k] && Chmod(w, true) in t[..k] && Close(w, true) in t[..k]
    ensures c.calls[w].hooked ==> Abort(w, true) in t[..k]
    ensures forall a :: a in t ==> !FailedStep(a, w)
  {
    PrefixRuns(c, t, k + 1);
    RunKeepsSteps(c, t[..k + 1], w);
    assert t[..k + 1] == t[..k] + [t[k]];
    RunKeepsLog(c, t[..k + 1]);
    RunKeepsLog(c, t);
    RunKeepsSteps(c, t, w);
    assert t[k] in t && t[k] in t[..k + 1];
    hide Exec, LogOk;
    NothingFailedOf(t, w, c.calls[w].hooked);
  }

  lemma NothingFailedOf(t: seq<Action>, w: nat, hooked: bool)
    requires StepsDone(t, w, hooked, Returned(true))
    ensures forall a :: a in t ==> !FailedStep(a, w)
  {
  }

  /** Call `w` can get to its return by steps of its own, with its data in the destination
      when it returns nil. */
  ghost predicate CanReturn(c: Config, t: seq<Action>, w: nat, ok: bool)
    requires ValidDisk(c.disk) && w in c.calls
  {
    exists more :: OwnReturn(c, t, more, w, ok)
  }

  ghost predicate OwnReturn(c: Config, t: seq<Action>, more: seq<Action>, w: nat, ok: bool)
    requires ValidDisk(c.disk) && w in c.calls
  {
    && (forall k :: 0 <= k < |more| ==> more[k].w == w)
    && Exec(c, t + more).Some? && w in Exec(c, t + more).value.writers
    && Exec(c, t + more).value.writers[w].phase == Returned(ok)
    && (ok ==> Register(c, t + more) == Some(c.calls[w].data))
  }

  lemma StepThenReturn(c: Config, t: seq<Action>, w: nat, a: Action, ok: bool)
    requires ValidDisk(c.disk) && w in c.calls && a.w == w && CanReturn(c, t + [a], w, ok)
    ensures CanReturn(c, t, w, ok)
  {
    var more :| OwnReturn(c, t + [a], more, w, ok);
    assert t + [a] + more == t + ([a] + more);
    assert OwnReturn(c, t, [a] + more, w, ok);
  }

  /** The next step of a call that nothing has failed. */
  function OwnStep(c: Config, w: nat, s: Writer, r: string): Action
    requires w in c.calls
  {
    match s.phase
    case Idle => CreateTemp(w, Some(r))
    case Writing => if s.written < |c.calls[w].data| then Write(w, |c.calls[w].data| - s.written, true) else Sync(w, true)
    case Synced => Chmod(w, true)
    case Moded => Close(w, true)
    case Closed => Abort(w, true)
    case Ready => Rename(w, true)
    case _ => Remove(w, true)
  }

  function StepsLeft(c: Config, w: nat, s: Writer): nat
    requires w in c.calls
  {
    match s.phase
    case Idle => 7
    case Writing => if s.written < |c.calls[w].data| then 6 else 5
    case Synced => 4
    case Moded => 3
    case Closed => 2
    case _ => 1
  }

  lemma OwnStepWorks(c: Config, s: State, w: nat, r: string)
    requires ValidConfig(c) && Inv(c, s) && w in c.calls && w in s.writers && !s.writers[w].phase.Returned?
    requires s.writers[w].phase.Idle? ==> "." + c.base + "." + r + ".tmp" !in s.disk.names
    ensures var a := OwnStep(c, w, s.writers[w], r);
            && a.w == w && Enabled(c, s, a) && w in Next(c, s, a).writers
            && var p, q := s.writers[w], Next(c, s, a).writers[w];
               if p.phase.Ready? then q.phase == Returned(true)
               else if p.phase.Cleaning? then q.phase == Returned(false)
               else !q.phase.Returned? && !q.phase.Cleaning? && !q.phase.Idle? && StepsLeft(c, w, q) < StepsLeft(c, w, p)
  {
    assert WriterOk(c, s.disk, s.past, s.litter, c.calls[w], s.writers[w]);
    hide DestOk, OthersOk, WritersOk, WriterOk, Create, Append, Fsync, Move, Unlink;
  }

  /** No call waits for another: from every reachable state a call that nothing has failed
      can return nil, and one with a failed step can clean up, by steps of its own. */
  lemma {:induction false} CallsFinish(c: Config, t: seq<Action>, w: nat, r: string)
    requires ValidConfig(c) && Exec(c, t).Some? && w in c.calls && w in Exec(c, t).value.writers
    requires !Exec(c, t).value.writers[w].phase.Returned?
    requires Exec(c, t).value.writers[w].phase.Idle? ==> "." + c.base + "." + r + ".tmp" !in Exec(c, t).value.disk.names
    ensures CanReturn(c, t, w, !Exec(c, t).value.writers[w].phase.Cleaning?)
    decreases StepsLeft(c, w, Exec(c, t).value.writers[w])
  {
    var s := Exec(c, t).value;
    var a := OwnStep(c, w, s.writers[w], r);
    RunKeepsInv(c, t);
    OwnStepWorks(c, s, w, r);
    Extend(c, t, a);
    hide Inv, Enabled, Next, Exec, OwnStep, CanReturn;
    var ok := !s.writers[w].phase.Cleaning?;
    if s.writers[w].phase.Ready? || s.writers[w].phase.Cleaning? {
      LastStep(c, t, a, w, ok);
    } else {
      CallsFinish(c, t + [a], w, r);
    }
    StepThenReturn(c, t, w, a, ok);
  }

  lemma LastStep(c: Config, t: seq<Action>, a: Action, w: nat, ok: bool)
    requires ValidDisk(c.disk) && w in c.calls && Exec(c, t + [a]).Some? && w in Exec(c, t + [a]).value.writers
    requires Exec(c, t + [a]).value.writers[w].phase == Returned(ok) && (ok ==> a == Rename(w, true))
    ensures CanReturn(c, t + [a], w, ok)
  {
    hide Exec;
    assert t + [a] + [] == t + [a];
    assert OwnReturn(c, t + [a], [], w, ok);
  }

  // ----- one call, as code

  datatype Error = EmptyPath | CreateFailed | WriteFailed | SyncFailed | ChmodFailed | CloseFailed | Aborted | RenameFailed
    | ReadFailed | BakFailed | RollbackFailed

  /** What the operating system answers: the random part of the temporary name (None when
      CreateTemp fails), how many bytes a failing write gets out, and which calls work. */
  datatype Answers = Answers(random: Option<string>, written: nat, write: bool, sync: bool, chmod: bool, close: bool,
                             rename: bool, remove: bool)

  /** What a write that stops after `n` bytes gets out. */
  function Prefix(b: Bytes, n: nat): Bytes { if n < |b| then b[..n] else b }

  /** writeFile returns the error of the first step that fails. */
  function FirstFailure(base: string, hook: Option<bool>, os: Answers): Option<Error> {
    if base == "" then Some(EmptyPath)
    else if os.random.None? then Some(CreateFailed)
    else if !os.write then Some(WriteFailed)
    else if !os.sync then Some(SyncFailed)
    else if !os.chmod then Some(ChmodFailed)
    else if !os.close then Some(CloseFailed)
    else if hook == Some(false) then Some(Aborted)
    else if !os.rename then Some(RenameFailed)
    else None
  }

  lemma Extend(c: Config, t: seq<Action>, a: Action)
    requires Exec(c, t).Some? && Enabled(c, Exec(c, t).value, a)
    ensures Exec(c, t + [a]) == Some(Next(c, Exec(c, t).value, a))
  {
    assert (t + [a])[..|t|] == t;
  }

  class Directory {
    var disk: Disk

    constructor (disk: Disk)
      ensures this.disk == disk
    {
      this.disk := disk;
    }

    /** writeFile between the creation of the temporary file and the deferred cleanup. */
    method Publish(base: string, temp: string, ino: nat, data: Bytes, hook: Option<bool>, os: Answers,
                   ghost c: Config, ghost t0: seq<Action>)
      returns (err: Option<Error>, ghost t: seq<Action>)
      requires ValidDisk(disk) && temp in disk.names && disk.names[temp] == ino && ino < |disk.files|
      requires disk.files[ino] == File([], 0) && temp != base
      requires c.base == base && c.calls == map[0 := Call(data, hook.Some?)]
      requires Exec(c, t0).Some? && Exec(c, t0).value.disk == disk
      requires Exec(c, t0).value.writers == map[0 := Writer(Writing, temp, ino, 0)]
      modifies this
      ensures err == if !os.write then Some(WriteFailed) else if !os.sync then Some(SyncFailed)
                     else if !os.chmod then Some(ChmodFailed) else if !os.close then Some(CloseFailed)
                     else if hook == Some(false) then Some(Aborted) else if !os.rename then Some(RenameFailed) else None
      ensures err.None? ==>
                && disk.names == (old(disk.names) - {temp})[base := ino]
                && disk.files == old(disk.files)[ino := File(data, |data|)]
      ensures err.Some? ==>
                && disk.names == old(disk.names) && |disk.files| == |old(disk.files)|
                && forall i :: 0 <= i < |disk.files| && i != ino ==> disk.files[i] == old(disk.files)[i]
      ensures Exec(c, t).Some? && Exec(c, t).value.disk == disk && 0 in Exec(c, t).value.writers
      ensures Exec(c, t).value.writers[0].phase == (if err.None? then Returned(true) else Cleaning)
      ensures Exec(c, t).value.writers[0].temp == temp
    {
      hide Exec, TempName, History;
      t := t0;
      var out := if os.write then data else Prefix(data, os.written);
      disk := Append(disk, ino, out);
      assert [] + out == out && data[0..|out|] == out;
      Extend(c, t, Write(0, |out|, os.write));
      t := t + [Write(0, |out|, os.write)];
      if !os.write {
        return Some(WriteFailed), t;
      }
      Extend(c, t, Sync(0, os.sync));
      t := t + [Sync(0, os.sync)];
      if !os.sync {
        return Some(SyncFailed), t;
      }
      disk := Fsync(disk, ino);
      Extend(c, t, Chmod(0, os.chmod));
      t := t + [Chmod(0, os.chmod)];
      if !os.chmod {
        return Some(ChmodFailed), t;
      }
      Extend(c, t, Close(0, os.close));
      t := t + [Close(0, os.close)];
      if !os.close {
        return Some(CloseFailed), t;
      }
      if hook.Some? {
        Extend(c, t, Abort(0, hook.value));
        t := t + [Abort(0, hook.value)];
        if !hook.value {
          return Some(Aborted), t;
        }
      }
      Extend(c, t, Rename(0, os.rename));
      t := t + [Rename(0, os.rename)];
      if !os.rename {
        return Some(RenameFailed), t;
      }
      disk := Move(disk, temp, base);
      return None, t;
    }

    /** writeFile. The answers give the whole outcome: the error is the first step that
        failed; on success the destination holds exactly the data and nothing else moved;
        on an error the destination and every other file are as before, and the temporary
        file remains only if its removal failed too. The call is a run of the protocol. */
    method WriteFile(base: string, data: Bytes, hook: Option<bool>, os: Answers)
      returns (err: Option<Error>, ghost t: seq<Action>)
      requires ValidDisk(disk)
      requires os.random.Some? ==> TempName(base, os.random.value) !in disk.names
      modifies this
      ensures ValidDisk(disk)
      ensures err == FirstFailure(base, hook, os)
      ensures old(disk.files) <= disk.files
      ensures err.Some? && disk.names != old(disk.names) ==> |old(disk.files)| < |disk.files| && os.random.Some?
      ensures err.None? ==>
                && disk.names == old(disk.names)[base := |old(disk.files)|]
                && disk.files == old(disk.files) + [File(data, |data|)]
      ensures err.Some? ==>
                disk.names == if err.value in {EmptyPath, CreateFailed} || os.remove then old(disk.names)
                              else old(disk.names)[TempName(base, os.random.value) := |old(disk.files)|]
      ensures base != "" ==>
                var s := Exec(Config(base, map[0 := Call(data, hook.Some?)], old(disk)), t);
                s.Some? && s.value.disk == disk && 0 in s.value.writers && s.value.writers[0].phase == Returned(err.None?)
    {
      hide Exec;
      t := [];
      if base == "" {
        return Some(EmptyPath), t;
      }
      ghost var c := Config(base, map[0 := Call(data, hook.Some?)], disk);
      NoSteps(c);
      Extend(c, t, CreateTemp(0, os.random));
      t := t + [CreateTemp(0, os.random)];
      if os.random.None? {
        return Some(CreateFailed), t;
      }
      var temp, ino := TempName(base, os.random.value), |disk.files|;
      TempIsNotBase(base, os.random.value);
      disk := Create(disk, temp);
      err, t := Publish(base, temp, ino, data, hook, os, c, t);
      if err.Some? {
        Extend(c, t, Remove(0, os.remove));
        t := t + [Remove(0, os.remove)];
        if os.remove {
          disk := Unlink(disk, temp);
        }
      }
    }

    /** os.WriteFile: truncate or create, then write in place. Every name of the same file
        sees the new bytes. */
    method WriteInPlace(name: string, data: Bytes, out: Reach) returns (ok: bool)
      requires ValidDisk(disk)
      modifies this
      ensures ValidDisk(disk)
      ensures ok == Whole(data, out)
      ensures disk.names == if out.Out? && name !in old(disk.names) then old(disk.names)[name := |old(disk.files)|] else old(disk.names)
      ensures forall n :: Contents(disk, n) ==
                if out.Out? && SameFile(old(disk), n, name) then Some(Prefix(data, out.n)) else Contents(old(disk), n)
    {
      if out.NotOpened? {
        return false;
      }
      if name !in disk.names {
        disk := Create(disk, name);
      }
      var ino := disk.names[name];
      disk := disk.(files := disk.files[ino := File(Prefix(data, out.n), 0)]);
      return out.clean && out.n >= |data|;
    }

    /** writeFileWithBak: the error, and what the destination, `.bak` and every other file
        hold afterwards, whatever fails and however far the two in-place writes get. */
    method WriteFileWithBak(base: string, data: Bytes, hook: Option<bool>, os: Answers, more: BakAnswers)
      returns (err: Option<Error>)
      requires ValidDisk(disk)
      requires os.random.Some? ==> TempName(base, os.random.value) !in disk.names
      modifies this
      ensures ValidDisk(disk)
      ensures err == BakOutcome(old(disk), base, hook, os, more)
      ensures Contents(disk, base) == FinalContents(old(disk), base, data, hook, os, more)
      ensures Contents(disk, base + ".bak") == FinalBak(old(disk), base, hook, os, more)
      ensures forall n :: n in old(disk.names) && !SameFile(old(disk), n, base) && !SameFile(old(disk), n, base + ".bak") ==>
                Contents(disk, n) == Contents(old(disk), n)
    {
      if base == "" {
        return Some(EmptyPath);
      }
      if !more.read {
        return Some(ReadFailed);
      }
      hide *;
      BakIsNotBase(base, if os.random.Some? then os.random.value else "");
      var kept := Snapshot(base, more.bak);
      if !kept {
        SnapshotFailed(old(disk), disk, base, data, hook, os, more);
        return Some(BakFailed);
      }
      ghost var copied := disk;
      err := WriteOrRollBack(base, data, hook, os, more);
      WithBakDone(old(disk), copied, disk, base, data, hook, os, more, err);
    }

    /** The write proper, and the rollback when it fails. */
    method WriteOrRollBack(base: string, data: Bytes, hook: Option<bool>, os: Answers, more: BakAnswers)
      returns (err: Option<Error>)
      requires ValidDisk(disk)
      requires os.random.Some? ==> TempName(base, os.random.value) !in disk.names
      modifies this
      ensures ValidDisk(disk)
      ensures WrittenOrRolledBack(old(disk), disk, base, data, hook, os, more, err)
    {
      hide TempName, FirstFailure, Prefix, Whole;
      BakIsNotBase(base, "");
      err := WriteContents(base, data, hook, os);
      if err.Some? {
        var ok := Rollback(base, more);
        if !ok {
          return Some(RollbackFailed);
        }
      }
    }

    /** writeFile, as far as contents show. */
    method WriteContents(base: string, data: Bytes, hook: Option<bool>, os: Answers) returns (err: Option<Error>)
      requires ValidDisk(disk)
      requires os.random.Some? ==> TempName(base, os.random.value) !in disk.names
      modifies this
      ensures ValidDisk(disk)
      ensures err == FirstFailure(base, hook, os)
      ensures forall n :: n in old(disk.names) && n != base ==> Contents(disk, n) == Contents(old(disk), n)
      ensures Contents(disk, base) == if err.None? then Some(data) else Contents(old(disk), base)
      ensures Contents(disk, base + ".bak") == Contents(old(disk), base + ".bak")
      ensures err.Some? ==> KeepsNames(old(disk), disk, base) && KeepsNames(old(disk), disk, base + ".bak")
    {
      ghost var t;
      err, t := WriteFile(base, data, hook, os);
      WriteEffect(old(disk), disk, base, data, err, os);
    }

    method Snapshot(base: string, out: Reach) returns (ok: bool)
      requires ValidDisk(disk) && base + ".bak" != base
      modifies this
      ensures ValidDisk(disk)
      ensures ok == (base in old(disk.names) ==> Whole(Contents(old(disk), base).value, out))
      ensures old(disk.names).Keys <= disk.names.Keys <= old(disk.names).Keys + {base + ".bak"}
      ensures Snapshotted(old(disk), disk, base, out)
    {
      hide Prefix, Whole;
      ok := true;
      if base in disk.names {
        ok := WriteInPlace(base + ".bak", disk.files[disk.names[base]].bytes, out);
      }
    }

    method Rollback(base: string, more: BakAnswers) returns (ok: bool)
      requires ValidDisk(disk)
      modifies this
      ensures ValidDisk(disk)
      ensures var bak := Contents(old(disk), base + ".bak");
              && (ok <==> (more.reread && bak.Some? ==> Whole(bak.value, more.restore)))
              && forall n :: Contents(disk, n) ==
                   if more.reread && bak.Some? && more.restore.Out? && SameFile(old(disk), n, base)
                   then Some(Prefix(bak.value, more.restore.n)) else Contents(old(disk), n)
    {
      ok := true;
      if more.reread && base + ".bak" in disk.names {
        ok := WriteInPlace(base, disk.files[disk.names[base + ".bak"]].bytes, more.restore);
      }
    }
  }

  /** Two names of one file. */
  predicate SameFile(d: Disk, m: string, n: string) {
    m == n || (m in d.names && n in d.names && d.names[m] == d.names[n])
  }

  /** The names that shared a file with `n` still do, and no others that were there. */
  ghost predicate KeepsNames(d: Disk, e: Disk, n: string) {
    forall m :: m in d.names ==> (SameFile(e, m, n) <==> SameFile(d, m, n))
  }

  /** What WriteFile does to contents, whoever else's files are around. */
  lemma WriteEffect(d: Disk, e: Disk, base: string, data: Bytes, err: Option<Error>, os: Answers)
    requires ValidDisk(d) && d.files <= e.files
    requires err.None? ==> e.names == d.names[base := |d.files|] && e.files == d.files + [File(data, |data|)]
    requires err.Some? ==>
               || e.names == d.names
               || (|d.files| < |e.files| && os.random.Some? && TempName(base, os.random.value) !in d.names
                   && e.names == d.names[TempName(base, os.random.value) := |d.files|])
    ensures ValidDisk(e)
    ensures forall n :: n in d.names && n != base ==> Contents(e, n) == Contents(d, n)
    ensures Contents(e, base) == if err.None? then Some(data) else Contents(d, base)
    ensures Contents(e, base + ".bak") == Contents(d, base + ".bak")
    ensures err.Some? ==> KeepsNames(d, e, base) && KeepsNames(d, e, base + ".bak")
  {
    BakIsNotBase(base, if os.random.Some? then os.random.value else "");
    if os.random.Some? {
      TempIsNotBase(base, os.random.value);
    }
    hide TempName;
  }

  /** How far an in-place write gets: not even to opening the file, or `n` bytes out and the
      calls reporting success or not. */
  datatype Reach = NotOpened | Out(n: nat, clean: bool)

  /** The further answers writeFileWithBak gets: whether the destination and later `.bak`
      can be read, and how far the two in-place writes get. */
  datatype BakAnswers = BakAnswers(read: bool, bak: Reach, reread: bool, restore: Reach)

  predicate Whole(b: Bytes, out: Reach) { out.Out? && out.clean && out.n >= |b| }

  /** What the snapshot leaves in `.bak`. */
  function BakAfter(d: Disk, base: string, out: Reach): Option<Bytes>
    requires ValidDisk(d)
  {
    if base in d.names && out.Out? then Some(Prefix(Contents(d, base).value, out.n)) else Contents(d, base + ".bak")
  }

  /** What `.bak` holds when the write itself starts. */
  function Saved(d: Disk, base: string): Option<Bytes>
    requires ValidDisk(d)
  {
    if base in d.names then Contents(d, base) else Contents(d, base + ".bak")
  }

  function BakOutcome(d: Disk, base: string, hook: Option<bool>, os: Answers, more: BakAnswers): Option<Error>
    requires ValidDisk(d)
  {
    var f := FirstFailure(base, hook, os);
    if base == "" then Some(EmptyPath)
    else if !more.read then Some(ReadFailed)
    else if base in d.names && !Whole(Contents(d, base).value, more.bak) then Some(BakFailed)
    else if f.Some? && more.reread && Saved(d, base).Some? && !Whole(Saved(d, base).value, more.restore) then Some(RollbackFailed)
    else f
  }

  /** The write failed, and the rollback opens the destination to put `.bak` into it. */
  predicate Rewrites(d: Disk, base: string, hook: Option<bool>, os: Answers, more: BakAnswers)
    requires ValidDisk(d)
  {
    && BakOutcome(d, base, hook, os, more).Some?
    && BakOutcome(d, base, hook, os, more).value !in {EmptyPath, ReadFailed, BakFailed}
    && more.reread && Saved(d, base).Some? && more.restore.Out?
  }

  /** The snapshot failed half-way, and `.bak` is a hard link to the destination. */
  predicate SpoilsBoth(d: Disk, base: string, hook: Option<bool>, os: Answers, more: BakAnswers)
    requires ValidDisk(d)
  {
    BakOutcome(d, base, hook, os, more) == Some(BakFailed) && more.bak.Out? && SameFile(d, base, base + ".bak")
  }

  function FinalContents(d: Disk, base: string, data: Bytes, hook: Option<bool>, os: Answers, more: BakAnswers): Option<Bytes>
    requires ValidDisk(d)
  {
    if BakOutcome(d, base, hook, os, more).None? then Some(data)
    else if SpoilsBoth(d, base, hook, os, more) then BakAfter(d, base, more.bak)
    else if Rewrites(d, base, hook, os, more) then Some(Prefix(Saved(d, base).value, more.restore.n))
    else Contents(d, base)
  }

  function FinalBak(d: Disk, base: string, hook: Option<bool>, os: Answers, more: BakAnswers): Option<Bytes>
    requires ValidDisk(d)
  {
    if base == "" || !more.read then Contents(d, base + ".bak")
    else if Rewrites(d, base, hook, os, more) && SameFile(d, base, base + ".bak")
    then Some(Prefix(Saved(d, base).value, more.restore.n))
    else BakAfter(d, base, more.bak)
  }

  /** The promise that a failed call leaves the previous contents holds exactly when nothing
      was written over the destination, or it existed and all of it was written back. A
      rollback that stops half-way tears a destination the write had left alone, and a stale
      `.bak` beside an absent destination is put in its place. */
  lemma RollbackRestoresIff(d: Disk, base: string, data: Bytes, hook: Option<bool>, os: Answers, more: BakAnswers)
    requires ValidDisk(d) && BakOutcome(d, base, hook, os, more).Some?
    ensures FinalContents(d, base, data, hook, os, more) == Contents(d, base) <==>
              && (SpoilsBoth(d, base, hook, os, more) ==> more.bak.n >= |Contents(d, base).value|)
              && (Rewrites(d, base, hook, os, more) ==>
                    base in d.names && more.restore.n >= |Contents(d, base).value|)
  {
    hide FirstFailure;
  }

  ghost predicate Snapshotted(d: Disk, e: Disk, base: string, out: Reach)
    requires ValidDisk(d) && ValidDisk(e)
  {
    && KeepsNames(d, e, base) && (SameFile(e, base + ".bak", base) <==> SameFile(d, base + ".bak", base))
    && forall n :: Contents(e, n) ==
         if n == base + ".bak" || SameFile(d, n, base + ".bak") then BakAfter(d, base, out) else Contents(d, n)
  }

  ghost predicate WrittenOrRolledBack(d: Disk, e: Disk, base: string, data: Bytes, hook: Option<bool>, os: Answers, more: BakAnswers, err: Option<Error>)
    requires ValidDisk(d) && ValidDisk(e)
  {
    var f, bak := FirstFailure(base, hook, os), Contents(d, base + ".bak");
    && err == (if f.Some? && more.reread && bak.Some? && !Whole(bak.value, more.restore) then Some(RollbackFailed) else f)
    && forall n :: n in d.names || n == base || n == base + ".bak" ==>
         Contents(e, n) ==
           if f.None? then (if n == base then Some(data) else Contents(d, n))
           else if more.reread && bak.Some? && more.restore.Out? && SameFile(d, n, base)
           then Some(Prefix(bak.value, more.restore.n)) else Contents(d, n)
  }

  /** What writeFileWithBak promises of its end state. */
  ghost predicate WithBakEnds(d: Disk, e: Disk, base: string, data: Bytes, hook: Option<bool>, os: Answers, more: BakAnswers, err: Option<Error>)
    requires ValidDisk(d) && ValidDisk(e)
  {
    && err == BakOutcome(d, base, hook, os, more)
    && Contents(e, base) == FinalContents(d, base, data, hook, os, more)
    && Contents(e, base + ".bak") == FinalBak(d, base, hook, os, more)
    && forall n :: n in d.names && !SameFile(d, n, base) && !SameFile(d, n, base + ".bak") ==> Contents(e, n) == Contents(d, n)
  }

  lemma SnapshotFailed(d: Disk, e: Disk, base: string, data: Bytes, hook: Option<bool>, os: Answers, more: BakAnswers)
    requires ValidDisk(d) && ValidDisk(e) && base != "" && base + ".bak" != base && more.read
    requires Snapshotted(d, e, base, more.bak) && base in d.names && !Whole(Contents(d, base).value, more.bak)
    ensures WithBakEnds(d, e, base, data, hook, os, more, Some(BakFailed))
  {
    hide FirstFailure, Prefix, Whole, KeepsNames;
  }

  lemma WithBakDone(d: Disk, e: Disk, x: Disk, base: string, data: Bytes, hook: Option<bool>, os: Answers, more: BakAnswers, err: Option<Error>)
    requires ValidDisk(d) && ValidDisk(e) && ValidDisk(x) && base != "" && base + ".bak" != base && more.read
    requires Snapshotted(d, e, base, more.bak) && (base in d.names ==> Whole(Contents(d, base).value, more.bak))
    requires d.names.Keys <= e.names.Keys && WrittenOrRolledBack(e, x, base, data, hook, os, more, err)
    ensures WithBakEnds(d, x, base, data, hook, os, more, err)
  {
    WholePrefix(d, base, more.bak);
    OwnFailure(base, hook, os);
    hide FirstFailure, Prefix, Whole, BakAfter;
    assert Contents(e, base + ".bak") == Saved(d, base);
    assert Contents(e, base) == Contents(d, base);
  }

  lemma WholePrefix(d: Disk, base: string, out: Reach)
    requires ValidDisk(d) && (base in d.names ==> Whole(Contents(d, base).value, out))
    ensures BakAfter(d, base, out) == Saved(d, base)
  {
  }

  /** The error is that of the first step that fails; nil comes back when none does. */
  lemma FirstFailureIs(base: string, hook: Option<bool>, os: Answers)
    ensures var f := FirstFailure(base, hook, os);
            && (f.None? <==> base != "" && os.random.Some? && os.write && os.sync && os.chmod && os.close && hook != Some(false) && os.rename)
            && (f == Some(EmptyPath) <==> base == "")
            && (f == Some(CreateFailed) <==> base != "" && os.random.None?)
            && (f == Some(WriteFailed) <==> base != "" && os.random.Some? && !os.write)
            && (f == Some(SyncFailed) <==> base != "" && os.random.Some? && os.write && !os.sync)
            && (f == Some(ChmodFailed) <==> base != "" && os.random.Some? && os.write && os.sync && !os.chmod)
            && (f == Some(CloseFailed) <==> base != "" && os.random.Some? && os.write && os.sync && os.chmod && !os.close)
            && (f == Some(Aborted) <==>
                  base != "" && os.random.Some? && os.write && os.sync && os.chmod && os.close && hook == Some(false))
  {
  }

  /** With the previous contents `p` safe in `.bak`: success leaves the new data beside `p`;
      a failed write leaves `p` in both, unless the rollback stops half-way, which shows in
      the destination, in `.bak` only when it is the same file, and in the error. */
  lemma WithBakMeans(d: Disk, base: string, data: Bytes, hook: Option<bool>, os: Answers, more: BakAnswers, p: Bytes)
    requires ValidDisk(d) && base != "" && more.read && Contents(d, base) == Some(p)
    requires more.bak.Out? && more.bak.clean && more.bak.n >= |p|
    ensures var f, err := FirstFailure(base, hook, os), BakOutcome(d, base, hook, os, more);
            var now, bak := FinalContents(d, base, data, hook, os, more), FinalBak(d, base, hook, os, more);
            && (f.None? ==> err.None? && now == Some(data) && bak == Some(p))
            && (f.Some? && !more.reread ==> err == f && now == Some(p) && bak == Some(p))
            && (f.Some? && more.reread && more.restore.NotOpened? ==> err == Some(RollbackFailed) && now == Some(p) && bak == Some(p))
            && (f.Some? && more.reread && more.restore.Out? ==>
                  && now == Some(if more.restore.n < |p| then p[..more.restore.n] else p)
                  && bak == (if SameFile(d, base, base + ".bak") then now else Some(p))
                  && err == if more.restore.clean && more.restore.n >= |p| then f else Some(RollbackFailed))
  {
    OwnFailure(base, hook, os);
    BakIsNotBase(base, "");
    hide FirstFailure;
  }

  /** On a first write there is nothing to save: success leaves the new data and whatever
      `.bak` held; a failed write leaves nothing, unless a stale `.bak` is put in place. */
  lemma WithBakFirst(d: Disk, base: string, data: Bytes, hook: Option<bool>, os: Answers, more: BakAnswers)
    requires ValidDisk(d) && base != "" && more.read && base !in d.names
    ensures var f, err, stale := FirstFailure(base, hook, os), BakOutcome(d, base, hook, os, more), Contents(d, base + ".bak");
            var now, bak := FinalContents(d, base, data, hook, os, more), FinalBak(d, base, hook, os, more);
            && bak == stale
            && (f.None? ==> err.None? && now == Some(data))
            && (f.Some? && (!more.reread || stale.None?) ==> err == f && now.None?)
            && (f.Some? && more.reread && stale.Some? && more.restore.NotOpened? ==> err == Some(RollbackFailed) && now.None?)
            && (f.Some? && more.reread && stale.Some? && more.restore.Out? ==>
                  && now == Some(if more.restore.n < |stale.value| then stale.value[..more.restore.n] else stale.value)
                  && err == if more.restore.clean && more.restore.n >= |stale.value| then f else Some(RollbackFailed))
  {
    OwnFailure(base, hook, os);
    BakIsNotBase(base, "");
    hide FirstFailure;
  }

  /** The call gives up before the write when there is no path, the destination cannot be
      read, or the snapshot does not get out whole; only `.bak` may then have changed, and
      the destination with it when they are the same file. */
  lemma WithBakRefuses(d: Disk, base: string, data: Bytes, hook: Option<bool>, os: Answers, more: BakAnswers)
    requires ValidDisk(d)
    ensures var err := BakOutcome(d, base, hook, os, more);
            var now, bak := FinalContents(d, base, data, hook, os, more), FinalBak(d, base, hook, os, more);
            && (err == Some(EmptyPath) <==> base == "")
            && (err == Some(ReadFailed) <==> base != "" && !more.read)
            && (base == "" || !more.read ==> now == Contents(d, base) && bak == Contents(d, base + ".bak"))
            && (base != "" && more.read && base in d.names ==>
                  var p := Contents(d, base).value;
                  && (err == Some(BakFailed) <==> more.bak.NotOpened? || !more.bak.clean || more.bak.n < |p|)
                  && (more.bak.NotOpened? ==> now == Some(p) && bak == Contents(d, base + ".bak"))
                  && (err == Some(BakFailed) && more.bak.Out? ==>
                        && bak == Some(if more.bak.n < |p| then p[..more.bak.n] else p)
                        && now == if SameFile(d, base, base + ".bak") then bak else Some(p)))
  {
    if base != "" {
      OwnFailure(base, hook, os);
      BakIsNotBase(base, "");
    }
    hide FirstFailure;
  }

  const RENAME_FAILS := Answers(Some("1"), 0, true, true, true, true, false, true)

  /** The rename fails and the rollback's write gets nothing out: a destination that was
      intact is empty afterwards. */
  lemma RollbackTears()
    ensures var d := Disk(map["f" := 0, "f" + ".bak" := 1], [File([1, 2], 2), File([1, 2], 2)]);
            var more := BakAnswers(true, Out(2, true), true, Out(0, false));
            && ValidDisk(d) && Contents(d, "f") == Some([1, 2])
            && BakOutcome(d, "f", None, RENAME_FAILS, more) == Some(RollbackFailed)
            && FinalContents(d, "f", [3], None, RENAME_FAILS, more) == Some([])
  {
    BakIsNotBase("f", "");
  }

  /** The rename of a first write fails beside a stale `.bak`: the destination, absent until
      then, is there afterwards, holding the stale bytes. */
  lemma StaleBakAppears()
    ensures var d := Disk(map["f" + ".bak" := 0], [File([1, 2], 2)]);
            var more := BakAnswers(true, NotOpened, true, Out(2, true));
            && ValidDisk(d) && Contents(d, "f") == None
            && BakOutcome(d, "f", None, RENAME_FAILS, more) == Some(RenameFailed)
            && FinalContents(d, "f", [3], None, RENAME_FAILS, more) == Some([1, 2])
  {
    BakIsNotBase("f", "");
  }

  lemma OwnFailure(base: string, hook: Option<bool>, os: Answers)
    requires base != ""
    ensures FirstFailure(base, hook, os).Some? ==>
              FirstFailure(base, hook, os).value !in {EmptyPath, ReadFailed, BakFailed, RollbackFailed}
  {
  }

  lemma BakIsNotBase(base: string, r: string)
    ensures base + ".bak" != base && TempName(base, r) != base + ".bak"
  {
    assert |base + ".bak"| > |base|;
    assert (base + ".bak")[|base| + 3] == 'k';
    var t := TempName(base, r);
    assert t[|t| - 1] == 'p';
  }

  lemma NoSteps(c: Config)
    ensures Exec(c, []) == Some(Init(c))
  {
  }
}