/** The admission supervisor (internal/runtime/supervisor.go) as a concurrent protocol.

    Every action below is one atomic step of the source: a critical section under
    `drainMu`, an atomic load, a compare-and-swap, an atomic add, one channel close.
    Any number of callers, leases and drainers interleave these steps freely.
 */
module Admission {

  type Chan = nat

  /** The shared words of one Supervisor. Channels are numbered in creation order;
      `closed` is the set of channels that have been closed so far. */
  datatype Shared = Shared(
    max: nat,
    inFlight: int,
    draining: bool,
    waiters: seq<Chan>,
    nextChan: Chan,
    closed: set<Chan>,
    started: nat,
    failed: nat)

  // ----- the critical sections, as functions on the shared words

  /** Drops the first occurrence of `ch`: the removal loop of waitForDrain. */
  function RemoveWaiter(ws: seq<Chan>, ch: Chan): (r: seq<Chan>)
    ensures ch !in ws ==> r == ws
    ensures forall x :: x in r ==> x in ws
    ensures forall x :: x in ws && x != ch ==> x in r
  {
    if ws == [] then []
    else if ws[0] == ch then ws[1..]
    else [ws[0]] + RemoveWaiter(ws[1..], ch)
  }

  lemma {:induction false} RemoveAt(ws: seq<Chan>, i: nat)
    requires i < |ws| && ws[i] !in ws[..i]
    ensures RemoveWaiter(ws, ws[i]) == ws[..i] + ws[i + 1..]
  {
    if i > 0 {
      assert ws[0] in ws[..i];
      assert ws[1..][..i - 1] == ws[1..i] && ws[..i] == [ws[0]] + ws[1..i];
      RemoveAt(ws[1..], i - 1);
      assert ws[1..][i..] == ws[i + 1..];
    }
  }

  /** One pass through the gate: either it is open, or the caller joins the waiters. */
  function Park(sh: Shared): Shared
    requires sh.draining
  {
    sh.(waiters := sh.waiters + [sh.nextChan], nextChan := sh.nextChan + 1)
  }

  function TakeAll(sh: Shared): Shared {
    sh.(draining := false, waiters := [])
  }

  // ----- the Supervisor object

  /** The fields of the source's Supervisor. Each method is one atomic step and is
      specified by what it does to `View()`. */
  class Supervisor {
    const maxInFlight: nat
    var inFlight: int
    var draining: bool
    var waiters: seq<Chan>
    var nextChan: Chan
    var closed: set<Chan>
    var started: nat
    var failed: nat

    function View(): Shared
      reads this
    {
      Shared(maxInFlight, inFlight, draining, waiters, nextChan, closed, started, failed)
    }

    constructor (max: nat)
      ensures View() == Shared(max, 0, false, [], 0, {}, 0, 0)
    {
      maxInFlight := max;
      inFlight, draining, waiters, nextChan, closed := 0, false, [], 0, {};
      started, failed := 0, 0;
    }

    method EnterGate() returns (open: bool, ch: Chan)
      modifies this
      ensures open == !old(draining)
      ensures open ==> View() == old(View())
      ensures !open ==> View() == Park(old(View())) && ch == old(nextChan)
    {
      ch := nextChan;
      if !draining {
        return true, ch;
      }
      nextChan := nextChan + 1;
      waiters := waiters + [ch];
      open := false;
    }

    method LeaveQueue(ch: Chan)
      modifies this
      ensures View() == old(View()).(waiters := RemoveWaiter(old(waiters), ch))
    {
      var i := 0;
      while i < |waiters| && waiters[i] != ch
        invariant 0 <= i <= |waiters|
        invariant ch !in waiters[..i]
      {
        i := i + 1;
      }
      if i < |waiters| {
        RemoveAt(waiters, i);
        waiters := waiters[..i] + waiters[i + 1..];
      }
    }

    method CompareAndSwap(cur: int) returns (won: bool)
      modifies this
      ensures won == (old(inFlight) == cur)
      ensures View() == if won then old(View()).(inFlight := cur + 1) else old(View())
    {
      won := inFlight == cur;
      if won {
        inFlight := cur + 1;
      }
    }

    method BeginDrain()
      modifies this
      ensures View() == old(View()).(draining := true)
    {
      draining := true;
    }

    method TakeWaiters() returns (batch: seq<Chan>)
      modifies this
      ensures batch == old(waiters) && View() == TakeAll(old(View()))
    {
      draining := false;
      batch := waiters;
      waiters := [];
    }

    /** EndDrain run alone: it closes every parked channel, each for the first time. */
    method EndDrain()
      requires forall i, j :: 0 <= i < j < |waiters| ==> waiters[i] != waiters[j]
      requires forall ch :: ch in waiters ==> ch !in closed
      modifies this
      ensures View() == TakeAll(old(View())).(closed := old(closed) + set ch | ch in old(waiters))
    {
      var batch := TakeWaiters();
      for i := 0 to |batch|
        invariant View() == TakeAll(old(View())).(closed := old(closed) + set ch | ch in batch[..i])
      {
        assert batch[i] !in closed;
        closed := closed + {batch[i]};
        assert batch[..i + 1] == batch[..i] + [batch[i]];
      }
      assert batch[..|batch|] == batch;
    }
  }

  /** The proof of admission. Release, run alone: the released flag is swapped once,
      and only the winner takes one off the counter. */
  class Lease {
    const s: Supervisor
    var released: bool

    constructor (s: Supervisor)
      ensures this.s == s && !released
    {
      this.s := s;
      released := false;
    }

    method Release()
      modifies this, s
      ensures released
      ensures s.View() == if old(released) then old(s.View())
                          else old(s.View()).(inFlight := if old(s.inFlight) > 0 then old(s.inFlight) - 1 else 0)
    {
      if released {
        return;
      }
      released := true;
      s.inFlight := s.inFlight - 1;
      if s.inFlight < 0 {
        s.inFlight := 0;
      }
    }
  }

  // ----- the interleaving model

  /** `won` counts goroutines that won the released-flag swap and still owe the counter
      decrement, `decremented` those that have paid it, `resets` those that saw a
      negative counter and are about to store zero. */
  datatype LeaseState = LeaseState(released: bool, won: nat, decremented: nat, resets: nat)

  /** Where one Admit call stands. */
  datatype Pc =
    | AtGate                   // about to lock drainMu
    | Parked(ch: Chan)         // blocked in the select
    | Leaving(ch: Chan)        // context cancelled, about to leave the waiter list
    | Past                     // through the gate, not yet counted as started
    | Queued                   // counted, about to load the counter
    | Loaded(cur: int)         // saw a free slot, about to swap
    | Polling                  // saw no free slot
    | Failing                  // cancelled while polling, failure not yet counted
    | Reserved                 // owns a slot, lease not yet returned
    | Holding(lease: LeaseState)   // Admit returned the lease
    | Rejected(counted: bool)  // Admit returned the context's error

  datatype System = System(
    sh: Shared,
    callers: map<nat, Pc>,
    batches: map<nat, seq<Chan>>,  // what each running EndDrain still has to close
    panicked: bool)                // a channel was closed twice

  datatype Action =
    | Arrive(c: nat) | Gate(c: nat) | Wake(c: nat) | CancelWait(c: nat) | Leave(c: nat)
    | Start(c: nat) | AddSlot(c: nat) | Load(c: nat) | Cas(c: nat) | Retry(c: nat)
    | CancelPoll(c: nat) | CountFailure(c: nat) | Grant(c: nat)
    | ReleaseCas(c: nat) | Decrement(c: nat) | Reset(c: nat)
    | StartDrain | Take(e: nat) | CloseNext(e: nat)

  function Init(max: nat): System {
    System(Shared(max, 0, false, [], 0, {}, 0, 0), map[], map[], false)
  }

  predicate Enabled(s: System, a: Action) {
    match a
    case Arrive(c) => c !in s.callers
    case Gate(c) => c in s.callers && s.callers[c].AtGate?
    case Wake(c) => c in s.callers && s.callers[c].Parked? && s.callers[c].ch in s.sh.closed
    case CancelWait(c) => c in s.callers && s.callers[c].Parked?
    case Leave(c) => c in s.callers && s.callers[c].Leaving?
    case Start(c) => c in s.callers && s.callers[c].Past?
    case AddSlot(c) => c in s.callers && s.callers[c].Queued? && s.sh.max == 0
    case Load(c) => c in s.callers && s.callers[c].Queued? && s.sh.max > 0
    case Cas(c) => c in s.callers && s.callers[c].Loaded?
    case Retry(c) => c in s.callers && s.callers[c].Polling?
    case CancelPoll(c) => c in s.callers && s.callers[c].Polling?
    case CountFailure(c) => c in s.callers && s.callers[c].Failing?
    case Grant(c) => c in s.callers && s.callers[c].Reserved?
    case ReleaseCas(c) => c in s.callers && s.callers[c].Holding?
    case Decrement(c) => c in s.callers && s.callers[c].Holding? && s.callers[c].lease.won > 0
    case Reset(c) => c in s.callers && s.callers[c].Holding? && s.callers[c].lease.resets > 0
    case StartDrain => true
    case Take(e) => e !in s.batches
    case CloseNext(e) => e in s.batches && s.batches[e] != []
  }

  function Goto(s: System, c: nat, pc: Pc): System {
    s.(callers := s.callers[c := pc])
  }

  function Next(s: System, a: Action): System
    requires Enabled(s, a)
  {
    var sh := s.sh;
    match a
    case Arrive(c) => Goto(s, c, AtGate)
    case Gate(c) =>
      if !sh.draining then Goto(s, c, Past)
      else Goto(s.(sh := Park(sh)), c, Parked(sh.nextChan))
    case Wake(c) => Goto(s, c, AtGate)
    case CancelWait(c) => Goto(s, c, Leaving(s.callers[c].ch))
    case Leave(c) =>
      Goto(s.(sh := sh.(waiters := RemoveWaiter(sh.waiters, s.callers[c].ch))), c, Rejected(false))
    case Start(c) => Goto(s.(sh := sh.(started := sh.started + 1)), c, Queued)
    case AddSlot(c) => Goto(s.(sh := sh.(inFlight := sh.inFlight + 1)), c, Reserved)
    case Load(c) => Goto(s, c, if sh.inFlight >= sh.max then Polling else Loaded(sh.inFlight))
    case Cas(c) =>
      if sh.inFlight == s.callers[c].cur
      then Goto(s.(sh := sh.(inFlight := s.callers[c].cur + 1)), c, Reserved)
      else Goto(s, c, Queued)
    case Retry(c) => Goto(s, c, Queued)
    case CancelPoll(c) => Goto(s, c, Failing)
    case CountFailure(c) => Goto(s.(sh := sh.(failed := sh.failed + 1)), c, Rejected(true))
    case Grant(c) => Goto(s, c, Holding(LeaseState(false, 0, 0, 0)))
    case ReleaseCas(c) =>
      var l := s.callers[c].lease;
      if l.released then s
      else Goto(s, c, Holding(l.(released := true, won := l.won + 1)))
    case Decrement(c) =>
      var l := s.callers[c].lease;
      var n := sh.inFlight - 1;
      Goto(s.(sh := sh.(inFlight := n)), c,
           Holding(LeaseState(l.released, l.won - 1, l.decremented + 1,
                         if n < 0 then l.resets + 1 else l.resets)))
    case Reset(c) =>
      var l := s.callers[c].lease;
      Goto(s.(sh := sh.(inFlight := 0)), c, Holding(l.(resets := l.resets - 1)))
    case StartDrain => s.(sh := sh.(draining := true))
    case Take(e) => s.(sh := TakeAll(sh), batches := s.batches[e := sh.waiters])
    case CloseNext(e) =>
      var ch := s.batches[e][0];
      s.(sh := sh.(closed := sh.closed + {ch}),
         batches := s.batches[e := s.batches[e][1..]],
         panicked := s.panicked || ch in sh.closed)
  }

  /** A run is a list of actions, each enabled where it is taken. */
  predicate Runs(s: System, acts: seq<Action>)
    decreases |acts|
  {
    acts != [] ==> Enabled(s, acts[0]) && Runs(Next(s, acts[0]), acts[1..])
  }

  function Exec(s: System, acts: seq<Action>): System
    requires Runs(s, acts)
    decreases |acts|
  {
    if acts == [] then s else Exec(Next(s, acts[0]), acts[1..])
  }

  // ----- counting callers

  function Select(m: map<nat, Pc>, f: Pc -> bool): set<nat> {
    set c | c in m && f(m[c])
  }

  function Count(m: map<nat, Pc>, f: Pc -> bool): nat {
    |Select(m, f)|
  }

  function One(b: bool): nat { if b then 1 else 0 }

  lemma CountUpdate(m: map<nat, Pc>, c: nat, pc: Pc, f: Pc -> bool)
    ensures Count(m[c := pc], f) == Count(m, f) - One(c in m && f(m[c])) + One(f(pc))
    ensures c in m && f(m[c]) ==> Count(m, f) > 0
  {
    var before, after := Select(m, f), Select(m[c := pc], f);
    if f(pc) {
      assert after == before + {c};
    } else {
      assert after == before - {c};
    }
  }

  // ----- what each caller counts for

  predicate Occupies(pc: Pc) { pc.Reserved? || (pc.Holding? && pc.lease.decremented == 0) }

  predicate Counted(pc: Pc) {
    pc.Queued? || pc.Loaded? || pc.Polling? || pc.Failing? || pc.Reserved? || pc.Holding? || pc == Rejected(true)
  }

  predicate Granted(pc: Pc) { pc.Holding? }

  predicate FailedAdmission(pc: Pc) { pc == Rejected(true) }

  predicate StillQueued(pc: Pc) { Counted(pc) && !Granted(pc) && !FailedAdmission(pc) }

  /** Through the gate, not yet in possession of a slot, and still trying to get one. */
  predicate Seeking(pc: Pc) { pc.Past? || pc.Queued? || pc.Loaded? || pc.Polling? }

  // ----- the inductive invariant, in three independent parts

  predicate PcOk(pc: Pc, max: nat) {
    && (pc.Loaded? ==> 0 <= pc.cur < max)
    && (pc.Holding? ==> pc.lease.won + pc.lease.decremented == One(pc.lease.released) && pc.lease.resets == 0)
  }

  ghost predicate SlotInv(s: System) {
    && s.sh.inFlight == Count(s.callers, Occupies)
    && (s.sh.max > 0 ==> s.sh.inFlight <= s.sh.max)
    && forall c :: c in s.callers ==> PcOk(s.callers[c], s.sh.max)
  }

  ghost predicate MeterInv(s: System) {
    && s.sh.failed == Count(s.callers, FailedAdmission)
    && s.sh.started == Count(s.callers, Granted) + s.sh.failed + Count(s.callers, StillQueued)
  }

  ghost predicate Distinct(ws: seq<Chan>) {
    forall i, j :: 0 <= i < j < |ws| ==> ws[i] != ws[j]
  }

  ghost predicate Fresh(b: seq<Chan>, closed: set<Chan>, bound: Chan) {
    Distinct(b) && forall ch :: ch in b ==> ch < bound && ch !in closed
  }

  predicate Apart(a: seq<Chan>, b: seq<Chan>) {
    forall ch :: ch in a ==> ch !in b
  }

  /** Every channel that is still to be closed has exactly one owner. */
  ghost predicate Owned(ws: seq<Chan>, batches: map<nat, seq<Chan>>, closed: set<Chan>, bound: Chan) {
    && (forall ch :: ch in closed ==> ch < bound)
    && Fresh(ws, closed, bound)
    && (forall e :: e in batches ==> Fresh(batches[e], closed, bound) && Apart(ws, batches[e]))
    && (forall e, e' :: e in batches && e' in batches && e != e' ==> Apart(batches[e], batches[e']))
  }

  ghost predicate OwnersInv(s: System) {
    !s.panicked && Owned(s.sh.waiters, s.batches, s.sh.closed, s.sh.nextChan)
  }

  ghost predicate Safe(s: System, ch: Chan) {
    || ch in s.sh.waiters
    || ch in s.sh.closed
    || (exists e :: e in s.batches && ch in s.batches[e])
  }

  predicate WaitsOn(pc: Pc, ch: Chan) { (pc.Parked? || pc.Leaving?) && pc.ch == ch }

  ghost predicate WakeInv(s: System) {
    && (!s.sh.draining ==> s.sh.waiters == [])
    && (forall c :: c in s.callers && s.callers[c].Parked? ==> Safe(s, s.callers[c].ch))
    && (forall c, ch: Chan :: c in s.callers && WaitsOn(s.callers[c], ch) ==> ch < s.sh.nextChan)
    && (forall c, c', ch: Chan :: c in s.callers && c' in s.callers && WaitsOn(s.callers[c], ch) && WaitsOn(s.callers[c'], ch) ==> c == c')
  }

  /** Every listed channel belongs to a caller that still waits on it. */
  ghost predicate ListedInv(s: System) {
    forall ch: Chan :: ch in s.sh.waiters ==> exists c :: c in s.callers && WaitsOn(s.callers[c], ch)
  }

  ghost predicate Inv(s: System) {
    SlotInv(s) && MeterInv(s) && OwnersInv(s) && WakeInv(s) && ListedInv(s)
  }

  // ----- preservation

  function Mover(a: Action): nat
    requires !a.StartDrain? && !a.Take? && !a.CloseNext?
  {
    a.c
  }

  predicate ByCaller(a: Action) { !a.StartDrain? && !a.Take? && !a.CloseNext? }

  lemma CountStep(s: System, a: Action, f: Pc -> bool)
    requires Enabled(s, a)
    ensures !ByCaller(a) ==> Count(Next(s, a).callers, f) == Count(s.callers, f)
    ensures ByCaller(a) ==>
              var c := Mover(a);
              && c in Next(s, a).callers
              && Count(Next(s, a).callers, f)
                 == Count(s.callers, f) - One(c in s.callers && f(s.callers[c])) + One(f(Next(s, a).callers[c]))
    ensures ByCaller(a) && Mover(a) in s.callers && f(s.callers[Mover(a)]) ==> Count(s.callers, f) > 0
  {
    if ByCaller(a) {
      var c := Mover(a);
      CountUpdate(s.callers, c, Next(s, a).callers[c], f);
      assert Next(s, a).callers == s.callers[c := Next(s, a).callers[c]];
    }
  }

  lemma PcStep(s: System, a: Action)
    requires Enabled(s, a) && SlotInv(s)
    ensures forall c :: c in Next(s, a).callers ==> PcOk(Next(s, a).callers[c], s.sh.max)
  {
    CountStep(s, a, Occupies);
  }

  lemma SlotStep(s: System, a: Action)
    requires Enabled(s, a) && SlotInv(s)
    ensures SlotInv(Next(s, a))
  {
    CountStep(s, a, Occupies);
    PcStep(s, a);
  }

  lemma MeterStep(s: System, a: Action)
    requires Enabled(s, a) && MeterInv(s)
    ensures MeterInv(Next(s, a))
  {
    CountStep(s, a, Granted);
    CountStep(s, a, FailedAdmission);
    CountStep(s, a, StillQueued);
  }

  lemma RemoveKeepsDistinct(ws: seq<Chan>, ch: Chan)
    requires Distinct(ws)
    ensures Distinct(RemoveWaiter(ws, ch)) && ch !in RemoveWaiter(ws, ch)
  {
    if ws != [] && ws[0] != ch {
      RemoveKeepsDistinct(ws[1..], ch);
      forall i, j | 0 <= i < j < |RemoveWaiter(ws, ch)| ensures RemoveWaiter(ws, ch)[i] != RemoveWaiter(ws, ch)[j] {
        if i == 0 {
          assert RemoveWaiter(ws, ch)[j] in ws[1..];
        }
      }
    }
  }

  lemma OwnedPark(ws: seq<Chan>, batches: map<nat, seq<Chan>>, closed: set<Chan>, bound: Chan)
    requires Owned(ws, batches, closed, bound)
    ensures Owned(ws + [bound], batches, closed, bound + 1)
  {
    assert forall i :: 0 <= i < |ws| ==> ws[i] in ws;
    assert Fresh(ws + [bound], closed, bound + 1);
    forall e | e in batches ensures Fresh(batches[e], closed, bound + 1) && Apart(ws + [bound], batches[e]) {
      assert Fresh(batches[e], closed, bound) && Apart(ws, batches[e]);
    }
  }

  lemma OwnedRemove(ws: seq<Chan>, batches: map<nat, seq<Chan>>, closed: set<Chan>, bound: Chan, ch: Chan)
    requires Owned(ws, batches, closed, bound)
    ensures Owned(RemoveWaiter(ws, ch), batches, closed, bound)
  {
    RemoveKeepsDistinct(ws, ch);
    forall e | e in batches ensures Apart(RemoveWaiter(ws, ch), batches[e]) {
      assert Apart(ws, batches[e]);
    }
  }

  lemma OwnedTake(ws: seq<Chan>, batches: map<nat, seq<Chan>>, closed: set<Chan>, bound: Chan, e: nat)
    requires Owned(ws, batches, closed, bound) && e !in batches
    ensures Owned([], batches[e := ws], closed, bound)
  {
    var after := batches[e := ws];
    forall e1, e2 | e1 in after && e2 in after && e1 != e2 ensures Apart(after[e1], after[e2]) {
      if e1 == e {
        assert Apart(ws, batches[e2]);
      } else if e2 == e {
        assert Apart(ws, batches[e1]);
      }
    }
  }

  lemma FreshTail(b: seq<Chan>, closed: set<Chan>, bound: Chan)
    requires Fresh(b, closed, bound) && b != []
    ensures Fresh(b[1..], closed + {b[0]}, bound)
  {
    forall ch | ch in b[1..] ensures ch in b && ch != b[0] {
      var k :| 0 <= k < |b| - 1 && b[1..][k] == ch;
      assert b[k + 1] == ch;
    }
  }

  lemma OwnedClose(ws: seq<Chan>, batches: map<nat, seq<Chan>>, closed: set<Chan>, bound: Chan, e: nat)
    requires Owned(ws, batches, closed, bound) && e in batches && batches[e] != []
    ensures batches[e][0] !in closed
    ensures Owned(ws, batches[e := batches[e][1..]], closed + {batches[e][0]}, bound)
  {
    var b := batches[e];
    var after := batches[e := b[1..]];
    var closed' := closed + {b[0]};
    assert Fresh(b, closed, bound) && Apart(ws, b) && b[0] in b;
    FreshTail(b, closed, bound);
    assert Fresh(ws, closed', bound);
    forall e1 | e1 in after ensures Fresh(after[e1], closed', bound) && Apart(ws, after[e1]) {
      assert Fresh(batches[e1], closed, bound) && Apart(ws, batches[e1]);
      assert e1 != e ==> Apart(batches[e1], b);
    }
    forall e1, e2 | e1 in after && e2 in after && e1 != e2 ensures Apart(after[e1], after[e2]) {
      assert Apart(batches[e1], batches[e2]);
    }
  }

  lemma OwnersStep(s: System, a: Action)
    requires Enabled(s, a) && OwnersInv(s)
    ensures OwnersInv(Next(s, a))
  {
    if a.Leave? {
      OwnedRemove(s.sh.waiters, s.batches, s.sh.closed, s.sh.nextChan, s.callers[a.c].ch);
    } else if a.Gate? {
      OwnedPark(s.sh.waiters, s.batches, s.sh.closed, s.sh.nextChan);
    } else if a.CloseNext? {
      OwnedClose(s.sh.waiters, s.batches, s.sh.closed, s.sh.nextChan, a.e);
    } else if a.Take? {
      OwnedTake(s.sh.waiters, s.batches, s.sh.closed, s.sh.nextChan, a.e);
    }
  }

  lemma WakeStep(s: System, a: Action)
    requires Enabled(s, a) && OwnersInv(s) && WakeInv(s)
    ensures WakeInv(Next(s, a))
  {
    var t := Next(s, a);
    forall c | c in t.callers && t.callers[c].Parked? ensures Safe(t, t.callers[c].ch) {
      SafeStep(s, a, c);
    }
    assert forall c, ch: Chan :: c in t.callers && WaitsOn(t.callers[c], ch) ==>
      (c in s.callers && WaitsOn(s.callers[c], ch)) || (a == Gate(c) && ch == s.sh.nextChan);
  }

  lemma SafeStep(s: System, a: Action, c: nat)
    requires Enabled(s, a) && OwnersInv(s) && WakeInv(s)
    requires c in Next(s, a).callers && Next(s, a).callers[c].Parked?
    ensures Safe(Next(s, a), Next(s, a).callers[c].ch)
  {
    var t := Next(s, a);
    var ch := t.callers[c].ch;
    if a == Gate(c) {
      assert t.sh.waiters[|s.sh.waiters|] == ch;
    } else {
      assert c in s.callers && s.callers[c] == t.callers[c] && Safe(s, ch);
      if a.Leave? && ch in s.sh.waiters {
        assert WaitsOn(s.callers[c], ch) && WaitsOn(s.callers[a.c], s.callers[a.c].ch);
        assert ch != s.callers[a.c].ch;
      } else if a.Take? && ch in s.sh.waiters {
        assert ch in t.batches[a.e];
      } else if ch !in s.sh.waiters && ch !in s.sh.closed {
        var e :| e in s.batches && ch in s.batches[e];
        assert e in t.batches;
        if a == CloseNext(e) && ch != s.batches[e][0] {
          assert ch in s.batches[e][1..];
        }
      }
    }
  }

  lemma ListedStep(s: System, a: Action)
    requires Enabled(s, a) && OwnersInv(s) && WakeInv(s) && ListedInv(s)
    ensures ListedInv(Next(s, a))
  {
    var t := Next(s, a);
    if a.Leave? {
      RemoveKeepsDistinct(s.sh.waiters, s.callers[a.c].ch);
    }
    forall ch: Chan | ch in t.sh.waiters ensures exists c :: c in t.callers && WaitsOn(t.callers[c], ch) {
      if a.Gate? && ch == s.sh.nextChan && ch !in s.sh.waiters {
        assert WaitsOn(t.callers[a.c], ch);
      } else {
        var c :| c in s.callers && WaitsOn(s.callers[c], ch);
        assert t.callers[c] == s.callers[c] || WaitsOn(t.callers[c], ch);
      }
    }
  }

  lemma InvRun(s: System, acts: seq<Action>)
    requires Inv(s) && Runs(s, acts)
    ensures Inv(Exec(s, acts))
    decreases |acts|
  {
    if acts != [] {
      SlotStep(s, acts[0]);
      MeterStep(s, acts[0]);
      OwnersStep(s, acts[0]);
      WakeStep(s, acts[0]);
      ListedStep(s, acts[0]);
      InvRun(Next(s, acts[0]), acts[1..]);
    }
  }

  // ----- main results over every run from a fresh supervisor

  /** The in-flight word counts exactly the callers that won a slot and have not yet
      paid their single decrement; it stays inside the configured bound, no lease is
      ever decremented twice, and the reset-to-zero branch is dead code. */
  lemma SlotAccounting(max: nat, acts: seq<Action>)
    requires Runs(Init(max), acts)
    ensures var s := Exec(Init(max), acts);
            && s.sh.inFlight == Count(s.callers, Occupies)
            && 0 <= s.sh.inFlight
            && (max > 0 ==> s.sh.inFlight <= max)
            && (forall c :: c in s.callers && s.callers[c].Holding? ==>
                  s.callers[c].lease.decremented <= 1 && !Enabled(s, Reset(c)))
  {
    InvRun(Init(max), acts);
    MaxConstant(Init(max), acts);
  }

  lemma {:induction false} MaxConstant(s: System, acts: seq<Action>)
    requires Runs(s, acts)
    ensures Exec(s, acts).sh.max == s.sh.max
    decreases |acts|
  {
    if acts != [] {
      MaxConstant(Next(s, acts[0]), acts[1..]);
    }
  }

  /** No lost wake-up, and no double close: a caller blocked on the drain is on the
      waiter list of a drain still in force, or its channel is owned by an EndDrain that
      has yet to close it, or its channel is closed and it can run. */
  lemma NoLostWakeup(max: nat, acts: seq<Action>)
    requires Runs(Init(max), acts)
    ensures var s := Exec(Init(max), acts);
            && !s.panicked && (!s.sh.draining ==> s.sh.waiters == [])
            && (forall ch: Chan :: ch in s.sh.waiters ==> exists c :: c in s.callers && WaitsOn(s.callers[c], ch))
            && (forall c :: c in s.callers && s.callers[c].Parked? ==>
                  || (s.sh.draining && s.callers[c].ch in s.sh.waiters)
                  || (exists e :: e in s.batches && s.callers[c].ch in s.batches[e] && Enabled(s, CloseNext(e)))
                  || Enabled(s, Wake(c)))
  {
    InvRun(Init(max), acts);
    var s := Exec(Init(max), acts);
    forall c | c in s.callers && s.callers[c].Parked?
      ensures || (s.sh.draining && s.callers[c].ch in s.sh.waiters)
              || (exists e :: e in s.batches && s.callers[c].ch in s.batches[e] && Enabled(s, CloseNext(e)))
              || Enabled(s, Wake(c))
    {
      assert Safe(s, s.callers[c].ch);
    }
  }

  /** Once no drain is in force and every EndDrain has returned, nobody stays blocked. */
  lemma AllAwakeAfterDrain(max: nat, acts: seq<Action>, c: nat)
    requires Runs(Init(max), acts)
    requires var s := Exec(Init(max), acts);
             && !s.sh.draining
             && (forall e :: e in s.batches ==> s.batches[e] == [])
             && c in s.callers && s.callers[c].Parked?
    ensures Enabled(Exec(Init(max), acts), Wake(c))
  {
    InvRun(Init(max), acts);
    assert Safe(Exec(Init(max), acts), Exec(Init(max), acts).callers[c].ch);
  }

  /** started = leases granted + failed admissions + callers still queued. */
  lemma StartedIsConserved(max: nat, acts: seq<Action>)
    requires Runs(Init(max), acts)
    ensures var s := Exec(Init(max), acts);
            && s.sh.failed == Count(s.callers, FailedAdmission)
            && s.sh.started == Count(s.callers, Granted) + s.sh.failed + Count(s.callers, StillQueued)
  {
    InvRun(Init(max), acts);
  }

  // ----- what a caller can do on its own

  predicate By(a: Action, c: nat) { !a.StartDrain? && !a.Take? && !a.CloseNext? && a.c == c }

  ghost predicate Own(acts: seq<Action>, c: nat) { forall i :: 0 <= i < |acts| ==> By(acts[i], c) }

  predicate Free(s: System) { s.sh.max == 0 || s.sh.inFlight < s.sh.max }

  ghost predicate Reaches(s: System, acts: seq<Action>, c: nat, pc: Pc) {
    Own(acts, c) && Runs(s, acts) && c in Exec(s, acts).callers && Exec(s, acts).callers[c] == pc
  }

  lemma Prepend(s: System, a: Action, acts: seq<Action>, c: nat, pc: Pc)
    requires Enabled(s, a) && By(a, c) && Reaches(Next(s, a), acts, c, pc)
    ensures Reaches(s, [a] + acts, c, pc) && Exec(s, [a] + acts) == Exec(Next(s, a), acts)
  {
    assert ([a] + acts)[1..] == acts;
  }

  lemma NoSteps(s: System, c: nat)
    requires c in s.callers
    ensures Reaches(s, [], c, s.callers[c]) && Exec(s, []) == s
  {
  }

  lemma TakeFreeSlot(s: System, c: nat) returns (acts: seq<Action>)
    requires Inv(s) && Free(s) && c in s.callers && Seeking(s.callers[c])
    ensures Reaches(s, acts, c, Reserved) && Exec(s, acts).sh.inFlight == s.sh.inFlight + 1
    decreases match s.callers[c] case Past => 3 case Loaded(cur) => (if cur == s.sh.inFlight then 0 else 2) case Polling => 2 case _ => 1
  {
    var pc := s.callers[c];
    var a := if pc.Past? then Start(c) else if pc.Polling? then Retry(c) else if pc.Loaded? then Cas(c)
             else if s.sh.max == 0 then AddSlot(c) else Load(c);
    var t := Next(s, a);
    InvRun(s, [a]);
    assert Exec(s, [a]) == t;
    if t.callers[c] == Reserved {
      NoSteps(t, c);
      Prepend(s, a, [], c, Reserved);
      acts := [a] + [];
    } else {
      var rest := TakeFreeSlot(t, c);
      Prepend(s, a, rest, c, Reserved);
      acts := [a] + rest;
    }
  }

  /** Where a caller can get to on its own while every slot is taken. */
  predicate Unserved(pc: Pc, max: nat) {
    pc.Past? || pc.Queued? || pc.Polling? || pc.Failing? || pc.Rejected? || (pc.Loaded? && pc.cur < max)
  }

  lemma {:induction false} FullBlocks(s: System, acts: seq<Action>, c: nat)
    requires c in s.callers && Unserved(s.callers[c], s.sh.max) && 0 < s.sh.max <= s.sh.inFlight
    requires Own(acts, c) && Runs(s, acts)
    ensures c in Exec(s, acts).callers && Unserved(Exec(s, acts).callers[c], s.sh.max)
    decreases |acts|
  {
    if acts != [] {
      assert By(acts[0], c);
      FullBlocks(Next(s, acts[0]), acts[1..], c);
    }
  }

  /** A caller through the gate gets a slot by its own steps exactly when one is free, and
      takes exactly one. */
  lemma SlotIffFree(s: System, c: nat)
    requires Inv(s) && c in s.callers && Seeking(s.callers[c])
    ensures (exists acts :: Reaches(s, acts, c, Reserved)) <==> s.sh.max == 0 || s.sh.inFlight < s.sh.max
    ensures Free(s) ==> exists acts :: Reaches(s, acts, c, Reserved) && Exec(s, acts).sh.inFlight == s.sh.inFlight + 1
  {
    if Free(s) {
      var acts := TakeFreeSlot(s, c);
    } else {
      forall acts | Own(acts, c) && Runs(s, acts) ensures !Reaches(s, acts, c, Reserved) {
        FullBlocks(s, acts, c);
      }
    }
  }

  const FRESH_LEASE := LeaseState(false, 0, 0, 0)

  /** Where a caller can get to on its own while a drain is in force. */
  predicate Shut(s: System, pc: Pc) {
    pc.AtGate? || pc.Leaving? || pc.Rejected? || (pc.Parked? && pc.ch !in s.sh.closed)
  }

  lemma {:induction false} DrainBlocks(s: System, acts: seq<Action>, c: nat)
    requires OwnersInv(s) && s.sh.draining && c in s.callers && Shut(s, s.callers[c])
    requires Own(acts, c) && Runs(s, acts)
    ensures c in Exec(s, acts).callers && !Exec(s, acts).callers[c].Holding?
    decreases |acts|
  {
    if acts != [] {
      assert By(acts[0], c);
      OwnersStep(s, acts[0]);
      DrainBlocks(Next(s, acts[0]), acts[1..], c);
    }
  }

  lemma {:induction false} FullBlocksAtGate(s: System, acts: seq<Action>, c: nat)
    requires c in s.callers && s.callers[c].AtGate? && !s.sh.draining && 0 < s.sh.max <= s.sh.inFlight
    requires Own(acts, c) && Runs(s, acts)
    ensures c in Exec(s, acts).callers && !Exec(s, acts).callers[c].Holding?
  {
    if acts != [] {
      assert By(acts[0], c);
      FullBlocks(Next(s, acts[0]), acts[1..], c);
    }
  }

  lemma GoIn(s: System, c: nat) returns (acts: seq<Action>)
    requires Inv(s) && Free(s) && !s.sh.draining && c in s.callers && s.callers[c].AtGate?
    ensures Reaches(s, acts, c, Holding(FRESH_LEASE)) && Exec(s, acts).sh.inFlight == s.sh.inFlight + 1
  {
    var t := Next(s, Gate(c));
    InvRun(s, [Gate(c)]);
    assert Exec(s, [Gate(c)]) == t;
    var slot := TakeFreeSlot(t, c);
    acts := slot + [Grant(c)];
    Append(t, slot, Grant(c), c, Holding(FRESH_LEASE));
    Prepend(s, Gate(c), acts, c, Holding(FRESH_LEASE));
    acts := [Gate(c)] + acts;
  }

  lemma {:induction false} Append(s: System, acts: seq<Action>, a: Action, c: nat, pc: Pc)
    requires Own(acts, c) && By(a, c) && Runs(s, acts) && Enabled(Exec(s, acts), a)
    requires c in Next(Exec(s, acts), a).callers && Next(Exec(s, acts), a).callers[c] == pc
    ensures Reaches(s, acts + [a], c, pc) && Exec(s, acts + [a]) == Next(Exec(s, acts), a)
    decreases |acts|
  {
    if acts == [] {
      assert [] + [a] == [a] && [a][1..] == [];
      assert Exec(s, [a]) == Next(s, a);
    } else {
      Append(Next(s, acts[0]), acts[1..], a, c, pc);
      assert (acts + [a])[1..] == acts[1..] + [a];
    }
  }

  /** Admit: a caller at the gate gets all the way to its lease by its own steps exactly when
      no drain is in force and a slot is free. */
  lemma AdmitIffOpenAndFree(s: System, c: nat)
    requires Inv(s) && c in s.callers && s.callers[c].AtGate?
    ensures (exists acts :: Reaches(s, acts, c, Holding(FRESH_LEASE)))
       <==> !s.sh.draining && (s.sh.max == 0 || s.sh.inFlight < s.sh.max)
    ensures !s.sh.draining && Free(s) ==>
              exists acts :: Reaches(s, acts, c, Holding(FRESH_LEASE)) && Exec(s, acts).sh.inFlight == s.sh.inFlight + 1
  {
    if !s.sh.draining && Free(s) {
      var acts := GoIn(s, c);
    } else {
      forall acts | Own(acts, c) && Runs(s, acts) ensures !Reaches(s, acts, c, Holding(FRESH_LEASE)) {
        if s.sh.draining {
          DrainBlocks(s, acts, c);
        } else {
          FullBlocksAtGate(s, acts, c);
        }
      }
    }
  }

  lemma {:induction false} HoldingPays(s: System, acts: seq<Action>, c: nat)
    requires c in s.callers && s.callers[c].Holding? && PcOk(s.callers[c], s.sh.max) && s.sh.inFlight >= 1
    requires Own(acts, c) && Runs(s, acts) && s.callers[c].lease.decremented == 0
    ensures s.sh.inFlight - 1 <= Exec(s, acts).sh.inFlight <= s.sh.inFlight
    decreases |acts|
  {
    if acts != [] {
      assert By(acts[0], c);
      var t := Next(s, acts[0]);
      if t.callers[c].lease.decremented == 0 {
        HoldingPays(t, acts[1..], c);
      } else {
        PaidPaysNoMore(t, acts[1..], c);
      }
    }
  }

  lemma {:induction false} PaidPaysNoMore(s: System, acts: seq<Action>, c: nat)
    requires c in s.callers && s.callers[c].Holding? && PcOk(s.callers[c], s.sh.max) && s.callers[c].lease.decremented == 1
    requires Own(acts, c) && Runs(s, acts)
    ensures Exec(s, acts).sh.inFlight == s.sh.inFlight
    decreases |acts|
  {
    if acts != [] {
      assert By(acts[0], c);
      PaidPaysNoMore(Next(s, acts[0]), acts[1..], c);
    }
  }

  /** Release: by any number of its own Release calls a lease not yet released gives back one
      slot, can always do so, and never gives back more. */
  lemma ReleaseFreesExactlyOne(s: System, c: nat)
    requires Inv(s) && c in s.callers && s.callers[c] == Holding(FRESH_LEASE)
    ensures exists acts :: Own(acts, c) && Runs(s, acts) && Exec(s, acts).sh.inFlight == s.sh.inFlight - 1
    ensures forall acts :: Own(acts, c) && Runs(s, acts) ==>
              s.sh.inFlight - 1 <= Exec(s, acts).sh.inFlight <= s.sh.inFlight
  {
    CountUpdate(s.callers, c, s.callers[c], Occupies);
    forall acts | Own(acts, c) && Runs(s, acts) ensures s.sh.inFlight - 1 <= Exec(s, acts).sh.inFlight <= s.sh.inFlight {
      HoldingPays(s, acts, c);
    }
    var acts := GiveBack(s, c);
  }

  lemma GiveBack(s: System, c: nat) returns (acts: seq<Action>)
    requires c in s.callers && s.callers[c] == Holding(FRESH_LEASE) && s.sh.inFlight >= 1
    ensures Own(acts, c) && Runs(s, acts) && Exec(s, acts).sh.inFlight == s.sh.inFlight - 1
  {
    var t := Next(s, ReleaseCas(c));
    var u := Next(t, Decrement(c));
    NoSteps(u, c);
    Prepend(t, Decrement(c), [], c, u.callers[c]);
    Prepend(s, ReleaseCas(c), [Decrement(c)] + [], c, u.callers[c]);
    acts := [ReleaseCas(c)] + ([Decrement(c)] + []);
  }

  /** A caller whose context is cancelled while it waits, for the drain or for a slot, can
      always return the context's error by its own steps. It then takes no slot; it is off
      the list, which keeps every other channel; and it counts as a failure exactly when it
      had counted as started. */
  lemma CancelReturns(s: System, c: nat) returns (acts: seq<Action>)
    requires Inv(s) && c in s.callers && (s.callers[c].Parked? || s.callers[c].Polling?)
    ensures Reaches(s, acts, c, Rejected(s.callers[c].Polling?))
    ensures var e, pc := Exec(s, acts), s.callers[c];
            && e.sh.inFlight == s.sh.inFlight && e.sh.started == s.sh.started
            && e.sh.failed == s.sh.failed + (if pc.Polling? then 1 else 0)
            && (forall ch :: ch in e.sh.waiters <==> ch in s.sh.waiters && (pc.Parked? ==> ch != pc.ch))
  {
    var pc := s.callers[c];
    var a, b := if pc.Parked? then CancelWait(c) else CancelPoll(c), if pc.Parked? then Leave(c) else CountFailure(c);
    var t := Next(s, a);
    var u := Next(t, b);
    NoSteps(u, c);
    Prepend(t, b, [], c, u.callers[c]);
    Prepend(s, a, [b] + [], c, u.callers[c]);
    acts := [a] + ([b] + []);
    hide Reaches, Exec;
    if pc.Parked? {
      RemoveKeepsDistinct(s.sh.waiters, pc.ch);
    }
  }

  // ----- one drain wave

  /** The drain flag stays set along the whole run. */
  predicate Wave(s: System, acts: seq<Action>)
    requires Runs(s, acts)
    decreases |acts|
  {
    s.sh.draining && (acts != [] ==> Wave(Next(s, acts[0]), acts[1..]))
  }

  predicate Admits(s: System, a: Action)
    requires Enabled(s, a)
  {
    a.AddSlot? || (a.Cas? && s.sh.inFlight == s.callers[a.c].cur)
  }

  predicate Progresses(s: System, a: Action)
    requires Enabled(s, a)
  {
    Admits(s, a) || a.CancelPoll? || a.Decrement?
  }

  function Tally(s: System, acts: seq<Action>, admissionsOnly: bool): nat
    requires Runs(s, acts)
    decreases |acts|
  {
    if acts == [] then 0
    else One(if admissionsOnly then Admits(s, acts[0]) else Progresses(s, acts[0]))
         + Tally(Next(s, acts[0]), acts[1..], admissionsOnly)
  }

  function SeekingSet(s: System): set<nat> {
    Select(s.callers, Seeking)
  }

  function Rank(s: System): int {
    2 * Count(s.callers, Seeking) + s.sh.inFlight
  }

  lemma WaveStep(s: System, a: Action)
    requires Enabled(s, a) && SlotInv(s) && s.sh.draining && Next(s, a).sh.draining
    ensures Rank(Next(s, a)) + One(Progresses(s, a)) <= Rank(s)
    ensures Count(Next(s, a).callers, Seeking) + One(Admits(s, a)) <= Count(s.callers, Seeking)
  {
    CountStep(s, a, Seeking);
  }

  lemma SeekersShrink(s: System, a: Action)
    requires Enabled(s, a) && s.sh.draining
    ensures SeekingSet(Next(s, a)) <= SeekingSet(s)
  {
    forall c | c in SeekingSet(Next(s, a)) ensures c in SeekingSet(s) {
      assert c in s.callers && Seeking(s.callers[c]);
    }
  }

  /** During one drain wave the callers past the gate only shrink, and every admission,
      cancellation and release is paid for by the rank. So at most as many callers are
      admitted after BeginDrain as were already past the gate, and the wave quiesces. */
  lemma WaveQuiesces(s: System, acts: seq<Action>)
    requires Inv(s) && Runs(s, acts) && Wave(s, acts)
    ensures SeekingSet(Exec(s, acts)) <= SeekingSet(s)
    ensures Tally(s, acts, false) + Rank(Exec(s, acts)) <= Rank(s)
    ensures Tally(s, acts, true) <= |SeekingSet(s)|
    ensures Rank(Exec(s, acts)) >= 0
    decreases |acts|
  {
    InvRun(s, acts);
    WaveCounts(s, acts);
  }

  lemma {:induction false} WaveCounts(s: System, acts: seq<Action>)
    requires Inv(s) && Runs(s, acts) && Wave(s, acts)
    ensures SeekingSet(Exec(s, acts)) <= SeekingSet(s)
    ensures Tally(s, acts, false) + Rank(Exec(s, acts)) <= Rank(s)
    ensures Tally(s, acts, true) + Count(Exec(s, acts).callers, Seeking) <= Count(s.callers, Seeking)
    decreases |acts|
  {
    if acts != [] {
      var t := Next(s, acts[0]);
      InvRun(s, [acts[0]]);
      assert Exec(s, [acts[0]]) == t;
      WaveStep(s, acts[0]);
      SeekersShrink(s, acts[0]);
      WaveCounts(t, acts[1..]);
    }
  }

  /** What Drain can conclude from reading zero in flight. The documentation says new
      calls are refused once a drain is in progress; a caller already past the gate is
      not. A later admission in the same wave is possible exactly when such a caller
      exists, so "in flight is zero" alone does not mean quiet. */
  lemma ZeroIsQuietIff(s: System)
    requires Inv(s) && s.sh.draining && s.sh.inFlight == 0
    ensures (exists acts :: Runs(s, acts) && Wave(s, acts) && Exec(s, acts).sh.inFlight > 0)
            <==> (exists c :: c in s.callers && Seeking(s.callers[c]))
  {
    if c :| c in s.callers && Seeking(s.callers[c]) {
      var acts := LateAdmission(s, c);
    }
    if acts :| Runs(s, acts) && Wave(s, acts) && Exec(s, acts).sh.inFlight > 0 {
      WaveQuiesces(s, acts);
      assert Rank(s) > 0;
      var c :| c in SeekingSet(s);
    }
  }

  lemma Admit1(s: System, c: nat) returns (acts: seq<Action>)
    requires Inv(s) && s.sh.draining && s.sh.inFlight == 0
    requires c in s.callers && s.callers[c].Queued?
    ensures Runs(s, acts) && Wave(s, acts) && Exec(s, acts).sh.inFlight > 0
  {
    if s.sh.max == 0 {
      acts := [AddSlot(c)];
    } else {
      var t := Next(s, Load(c));
      assert Runs(t, [Cas(c)]) && Wave(t, [Cas(c)]) && Exec(t, [Cas(c)]).sh.inFlight == 1 by {
        assert Exec(t, [Cas(c)]) == Next(t, Cas(c));
      }
      acts := [Load(c), Cas(c)];
      assert acts[1..] == [Cas(c)];
    }
  }

  lemma LateAdmission(s: System, c: nat) returns (acts: seq<Action>)
    requires Inv(s) && s.sh.draining && s.sh.inFlight == 0
    requires c in s.callers && Seeking(s.callers[c])
    ensures Runs(s, acts) && Wave(s, acts) && Exec(s, acts).sh.inFlight > 0
  {
    var pc := s.callers[c];
    if pc.Queued? {
      acts := Admit1(s, c);
    } else {
      var a := if pc.Past? then Start(c) else if pc.Loaded? then Cas(c) else Retry(c);
      var t := Next(s, a);
      InvRun(s, [a]);
      assert Exec(s, [a]) == t;
      if t.sh.inFlight > 0 {
        acts := [a];
      } else {
        var rest := Admit1(t, c);
        acts := [a] + rest;
        assert acts[1..] == rest;
      }
    }
  }

  /** The premise of ZeroIsQuietIff is met by a real run: one caller gets past the gate,
      the drain begins and reads zero, and the caller is admitted all the same. */
  lemma DrainDoesNotFenceLateCaller()
    ensures var acts := [Arrive(0), Gate(0), StartDrain];
            && Runs(Init(1), acts)
            && Exec(Init(1), acts).sh.draining
            && Exec(Init(1), acts).sh.inFlight == 0
            && Seeking(Exec(Init(1), acts).callers[0])
  {
    var acts := [Arrive(0), Gate(0), StartDrain];
    var s1 := Next(Init(1), Arrive(0));
    var s2 := Next(s1, Gate(0));
    assert acts[1..] == [Gate(0), StartDrain] && acts[1..][1..] == [StartDrain];
    assert Runs(s2, [StartDrain]) && Exec(s2, [StartDrain]) == Next(s2, StartDrain);
    assert Runs(s1, acts[1..]) && Exec(s1, acts[1..]) == Exec(s2, [StartDrain]);
  }
}
