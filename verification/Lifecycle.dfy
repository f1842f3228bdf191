/** Phased open, rollback and close (internal/runtime/lifecycle.go).

    A hook is an oracle: `Env` says for each participant, by registration index, what its
    open and its close hook would return in one wave. `Event` records hook calls. */
module Lifecycles {
  import opened Text
  import Ordering

  datatype Part = Part(name: string, phase: int, hasOpen: bool, hasClose: bool, isOpen: bool)

  datatype Event = OpenHook(i: nat) | CloseHook(i: nat)

  datatype Env = Env(open: nat -> Option<string>, close: nat -> Option<string>)

  datatype Error =
    | NameRequired
    | RegisterAfterOpen
    | RegisterAfterClose
    | DuplicateName(name: string, phase: int)
    | OpenFailed(phase: int, name: string, cause: string)
    | RollbackFailed(name: string, cause: string, openError: Error)
    | CloseFailed(name: string, cause: string)

  datatype Life = Life(isOpen: bool, closed: bool, openErr: Option<Error>, parts: seq<Part>)

  const NEW := Life(false, false, None, [])

  // ----- the open order

  predicate Before(ps: seq<Part>, i: nat, j: nat) {
    if i < |ps| && j < |ps| && ps[i].phase != ps[j].phase then ps[i].phase < ps[j].phase else i < j
  }

  function Less(ps: seq<Part>): (nat, nat) -> bool { (i: nat, j: nat) => Before(ps, i, j) }

  function Indices(n: nat): (s: set<nat>)
    ensures forall i: nat :: i in s <==> i < n
  {
    if n == 0 then {} else Indices(n - 1) + {n - 1}
  }

  /** A permutation of the participants ordered by phase, then by registration. */
  ghost predicate IsOrder(ps: seq<Part>, o: seq<nat>) {
    Ordering.Elements<nat>(o) == Indices(|ps|) && Ordering.StrictlySorted<nat>(Less(ps), o)
  }

  lemma BeforeIsTotal(ps: seq<Part>)
    ensures Ordering.StrictTotalOn(Less(ps), Indices(|ps|))
  {
  }

  /** sortedParts has exactly one possible result. */
  lemma OrderIsUnique(ps: seq<Part>, a: seq<nat>, b: seq<nat>)
    requires IsOrder(ps, a) && IsOrder(ps, b)
    ensures a == b
  {
    BeforeIsTotal(ps);
    Ordering.SortedIsUnique(Less(ps), a, b);
  }

  lemma OrderExists(ps: seq<Part>)
    ensures exists o :: IsOrder(ps, o)
  {
    var o := OrderPrefix(ps, |ps|);
    assert IsOrder(ps, o);
  }

  lemma {:induction false} OrderPrefix(ps: seq<Part>, n: nat) returns (o: seq<nat>)
    requires n <= |ps|
    ensures Ordering.Elements<nat>(o) == Indices(n) && Ordering.StrictlySorted<nat>(Less(ps), o)
  {
    if n == 0 {
      o := [];
    } else {
      var last: nat := n - 1;
      var r := OrderPrefix(ps, last);
      var k := |r|;
      while k > 0 && Before(ps, last, r[k - 1])
        invariant 0 <= k <= |r|
        invariant forall j :: k <= j < |r| ==> Before(ps, last, r[j])
      {
        k := k - 1;
      }
      BeforeIsTotal(ps);
      assert last !in Ordering.Elements(r);
      Ordering.InsertSorted<nat>(Less(ps), r, k, last, Indices(|ps|));
      o := r[..k] + [last] + r[k..];
    }
  }

  ghost function Order(ps: seq<Part>): (o: seq<nat>)
    ensures IsOrder(ps, o)
  {
    OrderExists(ps);
    var o :| IsOrder(ps, o);
    o
  }

  lemma OrderIsPermutation(ps: seq<Part>)
    ensures |Order(ps)| == |ps| && Distinct(Order(ps)) && InRange(Order(ps), |ps|)
  {
    var o := Order(ps);
    assert forall k :: 0 <= k < |o| ==> o[k] in Ordering.Elements(o);
    assert Distinct(o) by {
      BeforeIsTotal(ps);
    }
    DistinctCard(o, |ps|);
  }

  lemma OrderHasAll(ps: seq<Part>)
    ensures forall i: nat :: i in Order(ps) <==> i < |ps|
  {
    assert forall i: nat :: i in Order(ps) <==> i in Ordering.Elements(Order(ps));
    assert forall i: nat :: i in Indices(|ps|) <==> i < |ps|;
  }

  predicate Distinct<T(==)>(s: seq<T>) { forall i, j :: 0 <= i < j < |s| ==> s[i] != s[j] }

  predicate InRange(o: seq<nat>, n: nat) { forall k :: 0 <= k < |o| ==> o[k] < n }

  lemma {:induction false} DistinctCard(o: seq<nat>, n: nat)
    requires Distinct(o) && Ordering.Elements<nat>(o) == Indices(n)
    ensures |o| == n
  {
    SeqCard(o);
    SetCard(n);
  }

  lemma {:induction false} SeqCard(o: seq<nat>)
    requires Distinct(o)
    ensures |Ordering.Elements(o)| == |o|
    decreases |o|
  {
    if o != [] {
      var n := |o| - 1;
      SeqCard(o[..n]);
      assert Ordering.Elements<nat>(o) == Ordering.Elements(o[..n]) + {o[n]};
    }
  }

  lemma {:induction false} SetCard(n: nat)
    ensures |Indices(n)| == n
  {
    if n > 0 {
      SetCard(n - 1);
      assert Indices(n) == Indices(n - 1) + {n - 1};
    }
  }

  function Count(n: nat): (s: seq<nat>)
    ensures |s| == n && forall i :: 0 <= i < n ==> s[i] == i
  {
    seq(n, i => i)
  }

  predicate PhasesAscend(ps: seq<Part>) {
    forall i, j :: 0 <= i < j < |ps| ==> ps[i].phase <= ps[j].phase
  }

  /** The open order is the registration order exactly when phases were registered in
      non-decreasing order, as the client does. */
  lemma OrderIsRegistrationIff(ps: seq<Part>)
    ensures Order(ps) == Count(|ps|) <==> PhasesAscend(ps)
  {
    var c := Count(|ps|);
    if PhasesAscend(ps) {
      assert Ordering.Elements(c) == Indices(|ps|) by {
        assert forall i :: i in Indices(|ps|) ==> c[i] == i;
      }
      OrderIsUnique(ps, Order(ps), c);
    }
    if Order(ps) == c {
      forall i, j | 0 <= i < j < |ps| ensures ps[i].phase <= ps[j].phase {
        assert Less(ps)(c[i], c[j]);
      }
    }
  }

  // ----- the waves, as functions

  /** The participants the wave got past, those whose open hook returned nil, and the
      one whose open hook failed. */
  datatype Wave = Wave(passed: seq<nat>, succeeded: seq<nat>, failed: Option<nat>)

  function Join(passed: seq<nat>, succeeded: seq<nat>, w: Wave): Wave {
    Wave(passed + w.passed, succeeded + w.succeeded, w.failed)
  }

  function OpenWave(ps: seq<Part>, order: seq<nat>, env: Env): Wave
    requires InRange(order, |ps|)
    decreases |order|
  {
    if order == [] then Wave([], [], None)
    else
      var i := order[0];
      if !ps[i].hasOpen then Join([i], [], OpenWave(ps, order[1..], env))
      else if env.open(i).Some? then Wave([], [], Some(i))
      else Join([i], [i], OpenWave(ps, order[1..], env))
  }

  function MarkAll(ps: seq<Part>, ids: seq<nat>): (r: seq<Part>)
    ensures |r| == |ps| && forall i :: 0 <= i < |ps| ==> r[i] == ps[i].(isOpen := ps[i].isOpen || i in ids)
  {
    seq(|ps|, i requires 0 <= i < |ps| => ps[i].(isOpen := ps[i].isOpen || i in ids))
  }

  function OpenLog(ids: seq<nat>): (r: seq<Event>)
    ensures |r| == |ids| && forall k :: 0 <= k < |ids| ==> r[k] == OpenHook(ids[k])
  {
    seq(|ids|, k requires 0 <= k < |ids| => OpenHook(ids[k]))
  }

  function Tried(w: Wave): seq<nat> {
    w.succeeded + if w.failed.Some? then [w.failed.value] else []
  }

  function Reverse<T>(s: seq<T>): (r: seq<T>)
    ensures |r| == |s| && forall k :: 0 <= k < |s| ==> r[k] == s[|s| - 1 - k]
  {
    seq(|s|, k requires 0 <= k < |s| => s[|s| - 1 - k])
  }

  /** The close hooks of `ids`, all attempted, in that order. */
  function CloseLog(ps: seq<Part>, ids: seq<nat>): seq<Event>
    requires InRange(ids, |ps|)
  {
    if ids == [] then []
    else (if ps[ids[0]].hasClose then [CloseHook(ids[0])] else []) + CloseLog(ps, ids[1..])
  }

  /** The first of them that reports an error. */
  function FirstCloseError(ps: seq<Part>, ids: seq<nat>, env: Env): Option<(string, string)>
    requires InRange(ids, |ps|)
  {
    if ids == [] then None
    else if ps[ids[0]].hasClose && env.close(ids[0]).Some?
    then Some((ps[ids[0]].name, env.close(ids[0]).value))
    else FirstCloseError(ps, ids[1..], env)
  }

  datatype Outcome = Outcome(life: Life, log: seq<Event>, err: Option<Error>)

  function DoRegister(l: Life, name: string, phase: int, hasOpen: bool, hasClose: bool): Outcome {
    if name == "" then Outcome(l, [], Some(NameRequired))
    else if l.isOpen then Outcome(l, [], Some(RegisterAfterOpen))
    else if l.closed then Outcome(l, [], Some(RegisterAfterClose))
    else if exists i :: 0 <= i < |l.parts| && l.parts[i].name == name && l.parts[i].phase == phase
    then Outcome(l, [], Some(DuplicateName(name, phase)))
    else Outcome(l.(parts := l.parts + [Part(name, phase, hasOpen, hasClose, false)]), [], None)
  }

  /** The participants with an open hook, in the given order. */
  function Openable(ps: seq<Part>, order: seq<nat>): (r: seq<nat>)
    requires InRange(order, |ps|)
    ensures InRange(r, |ps|) && forall i :: i in r ==> i in order
  {
    if order == [] then []
    else (if ps[order[0]].hasOpen then [order[0]] else []) + Openable(ps, order[1..])
  }

  /** A wave walks the openable participants up to the first whose hook fails. */
  lemma {:induction false} WaveShape(ps: seq<Part>, order: seq<nat>, env: Env)
    requires InRange(order, |ps|)
    ensures var w, all := OpenWave(ps, order, env), Openable(ps, order);
            && w.succeeded <= all && (forall i :: i in w.succeeded ==> env.open(i).None?)
            && (w.failed.None? ==> w.succeeded == all && w.passed == order)
            && (w.failed.Some? ==>
                  && |w.succeeded| < |all| && all[|w.succeeded|] == w.failed.value
                  && env.open(w.failed.value).Some? && Tried(w) == all[..|w.succeeded| + 1])
    decreases |order|
  {
    if order != [] {
      WaveShape(ps, order[1..], env);
      assert order == [order[0]] + order[1..];
    }
  }

  /** `done` is what Open reports after opening `w.succeeded` and failing on `w.failed`. */
  function OpenError(ps: seq<Part>, env: Env, i: nat, succeeded: seq<nat>): Error
    requires i < |ps| && env.open(i).Some? && InRange(succeeded, |ps|)
  {
    var first := OpenFailed(ps[i].phase, ps[i].name, env.open(i).value);
    match FirstCloseError(ps, Reverse(succeeded), env)
    case None => first
    case Some(e) => RollbackFailed(e.0, e.1, first)
  }

  ghost function DoOpen(l: Life, env: Env): Outcome {
    if l.openErr.Some? then Outcome(l, [], l.openErr)
    else if l.isOpen then Outcome(l, [], None)
    else
      OrderIsPermutation(l.parts);
      WaveShape(l.parts, Order(l.parts), env);
      var w := OpenWave(l.parts, Order(l.parts), env);
      var parts := MarkAll(l.parts, w.passed);
      if w.failed.None? then Outcome(l.(isOpen := true, parts := parts), OpenLog(w.succeeded), None)
      else
        var err := OpenError(l.parts, env, w.failed.value, w.succeeded);
        Outcome(l.(closed := true, openErr := Some(err), parts := parts),
                OpenLog(Tried(w)) + CloseLog(l.parts, Reverse(w.succeeded)), Some(err))
  }

  /** The opened participants with a close hook among the first `n`. */
  function Closable(ps: seq<Part>, n: nat): (r: seq<nat>)
    requires n <= |ps|
    ensures InRange(r, n)
  {
    if n == 0 then []
    else Closable(ps, n - 1) + if ps[n - 1].isOpen && ps[n - 1].hasClose then [n - 1] else []
  }

  function DoClose(l: Life, env: Env): Outcome {
    if l.openErr.Some? then Outcome(l, [], l.openErr)
    else if l.closed then Outcome(l, [], None)
    else
      var ids := Reverse(Closable(l.parts, |l.parts|));
      Outcome(l.(closed := true), CloseLog(l.parts, ids),
              match FirstCloseError(l.parts, ids, env)
              case None => None
              case Some(e) => Some(CloseFailed(e.0, e.1)))
  }

  lemma NothingFailed(w: Wave)
    requires w.failed.None?
    ensures Tried(w) == w.succeeded
  {
  }

  lemma OpenLogAppend(ids: seq<nat>, i: nat)
    ensures OpenLog(ids + [i]) == OpenLog(ids) + [OpenHook(i)]
  {
  }

  lemma MarkNext(ps: seq<Part>, ids: seq<nat>, i: nat)
    requires i < |ps|
    ensures MarkAll(ps, ids + [i]) == MarkAll(ps, ids)[i := ps[i].(isOpen := true)]
    ensures MarkAll(ps, ids)[i] == ps[i].(isOpen := MarkAll(ps, ids)[i].isOpen)
  {
  }

  predicate SameHooks(a: seq<Part>, b: seq<Part>) {
    |a| == |b| && forall i :: 0 <= i < |a| ==> a[i] == b[i].(isOpen := a[i].isOpen)
  }

  lemma {:induction false} CloseIgnoresMarks(a: seq<Part>, b: seq<Part>, ids: seq<nat>, env: Env)
    requires SameHooks(b, a) && InRange(ids, |a|)
    ensures CloseLog(a, ids) == CloseLog(b, ids) && FirstCloseError(a, ids, env) == FirstCloseError(b, ids, env)
  {
    if ids != [] {
      CloseIgnoresMarks(a, b, ids[1..], env);
    }
  }

  lemma NoneLeft(ps: seq<Part>, ids: seq<nat>, env: Env)
    requires ids == []
    ensures CloseLog(ps, ids) == [] && FirstCloseError(ps, ids, env) == None
  {
  }

  lemma CloseStep(ps: seq<Part>, ids: seq<nat>, k: nat, env: Env)
    requires InRange(ids, |ps|) && k < |ids|
    ensures CloseLog(ps, ids[k..]) == (if ps[ids[k]].hasClose then [CloseHook(ids[k])] else []) + CloseLog(ps, ids[k + 1..])
    ensures FirstCloseError(ps, ids[k..], env)
         == if ps[ids[k]].hasClose && env.close(ids[k]).Some?
            then Some((ps[ids[k]].name, env.close(ids[k]).value))
            else FirstCloseError(ps, ids[k + 1..], env)
  {
    assert ids[k..][1..] == ids[k + 1..];
  }

  /** The state of an open wave that has got past the first `k` participants. */
  predicate Midway(ps: seq<Part>, order: seq<nat>, env: Env, before: seq<Event>,
                   k: nat, succeeded: seq<nat>, now: seq<Part>, log: seq<Event>)
    requires InRange(order, |ps|)
  {
    && k <= |order|
    && now == MarkAll(ps, order[..k])
    && log == before + OpenLog(succeeded)
    && OpenWave(ps, order, env) == Join(order[..k], succeeded, OpenWave(ps, order[k..], env))
  }

  lemma NothingDone(ps: seq<Part>, order: seq<nat>, env: Env, before: seq<Event>)
    requires InRange(order, |ps|)
    ensures Midway(ps, order, env, before, 0, [], ps, before)
  {
    assert order[0..] == order && OpenLog([]) == [] && before + [] == before;
    var w := OpenWave(ps, order, env);
    assert [] + w.passed == w.passed && [] + w.succeeded == w.succeeded;
  }

  lemma AllDone(ps: seq<Part>, order: seq<nat>, env: Env, before: seq<Event>, succeeded: seq<nat>, now: seq<Part>, log: seq<Event>)
    requires InRange(order, |ps|) && Midway(ps, order, env, before, |order|, succeeded, now, log)
    ensures OpenWave(ps, order, env) == Wave(order, succeeded, None)
    ensures now == MarkAll(ps, order) && log == before + OpenLog(Tried(Wave(order, succeeded, None)))
  {
    assert order[..|order|] == order && order + [] == order && succeeded + [] == succeeded;
  }

  lemma MidwayStep(ps: seq<Part>, order: seq<nat>, env: Env, before: seq<Event>,
                   k: nat, succeeded: seq<nat>, now: seq<Part>, log: seq<Event>)
    requires InRange(order, |ps|) && Midway(ps, order, env, before, k, succeeded, now, log) && k < |order| && |now| == |ps|
    ensures var i := order[k];
            var marked := now[i := now[i].(isOpen := true)];
            if !now[i].hasOpen then Midway(ps, order, env, before, k + 1, succeeded, marked, log + [])
            else if env.open(i).Some? then
              var w := Wave(order[..k], succeeded, Some(i));
              && OpenWave(ps, order, env) == w && now == MarkAll(ps, w.passed)
              && log + [OpenHook(i)] == before + OpenLog(Tried(w))
            else Midway(ps, order, env, before, k + 1, succeeded + [i], marked, log + [OpenHook(i)])
  {
    var i := order[k];
    OpenStep(ps, order, k, succeeded, env);
    MarkNext(ps, order[..k], i);
    assert order[..k] + [i] == order[..k + 1];
    OpenLogAppend(succeeded, i);
    hide OpenWave, OpenLog, MarkAll;
    assert log + [] == log;
    assert log + [OpenHook(i)] == before + (OpenLog(succeeded) + [OpenHook(i)]);
  }

  lemma OpenStep(ps: seq<Part>, order: seq<nat>, k: nat, succeeded: seq<nat>, env: Env)
    requires InRange(order, |ps|) && k < |order|
    ensures var i, rest := order[k], OpenWave(ps, order[k + 1..], env);
            Join(order[..k], succeeded, OpenWave(ps, order[k..], env))
            == if !ps[i].hasOpen then Join(order[..k + 1], succeeded, rest)
               else if env.open(i).Some? then Wave(order[..k], succeeded, Some(i))
               else Join(order[..k + 1], succeeded + [i], rest)
  {
    var i, rest := order[k], OpenWave(ps, order[k + 1..], env);
    assert order[k..][1..] == order[k + 1..];
    assert order[..k] + ([i] + rest.passed) == order[..k + 1] + rest.passed;
    assert succeeded + ([i] + rest.succeeded) == succeeded + [i] + rest.succeeded;
    assert succeeded + ([] + rest.succeeded) == succeeded + rest.succeeded;
    assert order[..k] + [] == order[..k] && succeeded + [] == succeeded;
  }

  // ----- what one wave does

  /** Open succeeds exactly when every open hook does, and has then called them all in
      open order; otherwise it calls them up to the first failure and then closes exactly
      the participants whose non-nil open hook succeeded, in reverse open order. */
  lemma OpenOutcome(l: Life, env: Env) returns (all: seq<nat>)
    requires l.openErr.None? && !l.isOpen
    ensures InRange(Order(l.parts), |l.parts|) && all == Openable(l.parts, Order(l.parts))
    ensures var o := DoOpen(l, env);
            && (o.err.None? <==> forall i :: i in all ==> env.open(i).None?)
            && (o.err.None? ==> o.log == OpenLog(all) && o.life.isOpen && AllOpen(o.life.parts))
            && (o.err.Some? ==> exists k :: FailsAt(l.parts, all, env, k, o.log))
            && (o.err.Some? ==> !o.life.isOpen && o.life.closed && o.life.openErr == o.err)
            && o.life.parts == MarkAll(l.parts, OpenWave(l.parts, Order(l.parts), env).passed)
  {
    OrderIsPermutation(l.parts);
    WaveShape(l.parts, Order(l.parts), env);
    all := Openable(l.parts, Order(l.parts));
    var w := OpenWave(l.parts, Order(l.parts), env);
    OpenUnfold(l, env, w);
    hide OpenWave, Openable, Order, IsOrder, CloseLog, FirstCloseError, Reverse, OpenLog, Distinct, DoOpen, OpenError, MarkAll, Tried;
    if w.failed.Some? {
      FailureShape(l.parts, all, env, w);
      assert FailsAt(l.parts, all, env, |w.succeeded|, DoOpen(l, env).log);
    } else {
      MarkOrder(l.parts);
    }
  }

  lemma OpenUnfold(l: Life, env: Env, w: Wave)
    requires l.openErr.None? && !l.isOpen && InRange(Order(l.parts), |l.parts|)
    requires w == OpenWave(l.parts, Order(l.parts), env)
    ensures var o := DoOpen(l, env);
            && o.life.parts == MarkAll(l.parts, w.passed)
            && (o.err.None? <==> w.failed.None?)
            && o.life.isOpen == o.err.None?
            && (w.failed.None? ==> o.log == OpenLog(w.succeeded))
            && (w.failed.Some? ==>
                  && InRange(w.succeeded, |l.parts|)
                  && o.log == OpenLog(Tried(w)) + CloseLog(l.parts, Reverse(w.succeeded))
                  && o.life.closed && o.life.openErr == o.err)
  {
    WaveShape(l.parts, Order(l.parts), env);
    hide OpenWave, Openable, Order, IsOrder, CloseLog, FirstCloseError, Reverse, OpenLog, Distinct, MarkAll, Tried;
  }

  lemma MarkOrder(ps: seq<Part>)
    ensures AllOpen(MarkAll(ps, Order(ps)))
  {
    forall i: nat | i < |ps| ensures i in Order(ps) {
      assert i in Ordering.Elements<nat>(Order(ps));
    }
  }

  lemma FailureShape(ps: seq<Part>, all: seq<nat>, env: Env, w: Wave)
    requires InRange(all, |ps|) && w.failed.Some? && w.succeeded <= all && |w.succeeded| < |all|
    requires forall i :: i in w.succeeded ==> env.open(i).None?
    requires all[|w.succeeded|] == w.failed.value && env.open(w.failed.value).Some?
    requires Tried(w) == all[..|w.succeeded| + 1]
    ensures FailsAt(ps, all, env, |w.succeeded|, OpenLog(Tried(w)) + CloseLog(ps, Reverse(w.succeeded)))
    ensures w.failed.value in all
  {
    hide OpenLog, CloseLog, Reverse;
    assert w.succeeded == all[..|w.succeeded|];
    assert forall j :: 0 <= j < |w.succeeded| ==> all[j] in w.succeeded;
  }

  predicate AllOpen(ps: seq<Part>) { forall i :: 0 <= i < |ps| ==> ps[i].isOpen }

  predicate NoneOpen(ps: seq<Part>) { forall i :: 0 <= i < |ps| ==> !ps[i].isOpen }

  ghost predicate FailsAt(ps: seq<Part>, all: seq<nat>, env: Env, k: nat, log: seq<Event>)
    requires InRange(all, |ps|)
  {
    && k < |all|
    && env.open(all[k]).Some? && (forall j :: 0 <= j < k ==> env.open(all[j]).None?)
    && log == OpenLog(all[..k + 1]) + CloseLog(ps, Reverse(all[..k]))
  }

  // ----- runs

  datatype Call =
    | Registering(name: string, phase: int, hasOpen: bool, hasClose: bool)
    | Opening(env: Env)
    | Closing(env: Env)

  ghost function Do(l: Life, c: Call): Outcome {
    match c
    case Registering(name, phase, hasOpen, hasClose) => DoRegister(l, name, phase, hasOpen, hasClose)
    case Opening(env) => DoOpen(l, env)
    case Closing(env) => DoClose(l, env)
  }

  ghost function Run(l: Life, calls: seq<Call>): (Life, seq<Event>)
    decreases |calls|
  {
    if calls == [] then (l, [])
    else
      var o := Do(l, calls[0]);
      var r := Run(o.life, calls[1..]);
      (r.0, o.log + r.1)
  }

  predicate OnlyOpens(log: seq<Event>) { forall k :: 0 <= k < |log| ==> log[k].OpenHook? }

  predicate OnlyCloses(log: seq<Event>) { forall k :: 0 <= k < |log| ==> log[k].CloseHook? }

  /** What the flags say about the hooks called so far. */
  predicate LogInv(l: Life, log: seq<Event>) {
    && Distinct(log)
    && (l.openErr.None? && !l.isOpen ==> log == [] && NoneOpen(l.parts))
    && (l.openErr.None? && l.isOpen && !l.closed ==> OnlyOpens(log))
    && (l.openErr.None? && l.isOpen ==> AllOpen(l.parts))
    && (l.openErr.Some? ==> l.closed && !l.isOpen)
  }

  lemma {:induction false} OpenableDistinct(ps: seq<Part>, order: seq<nat>)
    requires InRange(order, |ps|) && Distinct(order)
    ensures Distinct(Openable(ps, order))
    decreases |order|
  {
    if order != [] {
      OpenableDistinct(ps, order[1..]);
      var r := Openable(ps, order[1..]);
      assert forall k :: 0 <= k < |r| ==> r[k] in order[1..];
    }
  }

  lemma {:induction false} CloseLogDistinct(ps: seq<Part>, ids: seq<nat>)
    requires InRange(ids, |ps|) && Distinct(ids)
    ensures Distinct(CloseLog(ps, ids)) && OnlyCloses(CloseLog(ps, ids))
    ensures forall k :: 0 <= k < |CloseLog(ps, ids)| ==> CloseLog(ps, ids)[k].i in ids
    decreases |ids|
  {
    if ids != [] {
      CloseLogDistinct(ps, ids[1..]);
      var r := CloseLog(ps, ids[1..]);
      var pre := if ps[ids[0]].hasClose then [CloseHook(ids[0])] else [];
      assert CloseLog(ps, ids) == pre + r;
      hide CloseLog;
      assert ids[0] !in ids[1..];
    }
  }

  lemma {:induction false} ClosableDistinct(ps: seq<Part>, n: nat)
    requires n <= |ps|
    ensures Distinct(Closable(ps, n))
  {
    if n > 0 {
      ClosableDistinct(ps, n - 1);
    }
  }

  lemma {:induction false} ClosableNone(ps: seq<Part>, n: nat)
    requires n <= |ps| && NoneOpen(ps)
    ensures Closable(ps, n) == []
  {
    if n > 0 {
      ClosableNone(ps, n - 1);
    }
  }

  lemma DistinctConcat(a: seq<Event>, b: seq<Event>)
    requires Distinct(a) && Distinct(b) && OnlyOpens(a) && OnlyCloses(b)
    ensures Distinct(a + b)
  {
  }

  lemma DistinctOpenLog(ids: seq<nat>)
    requires Distinct(ids)
    ensures Distinct(OpenLog(ids)) && OnlyOpens(OpenLog(ids))
  {
  }

  lemma OpenKeepsLogInv(l: Life, log: seq<Event>, env: Env)
    requires LogInv(l, log)
    ensures LogInv(DoOpen(l, env).life, log + DoOpen(l, env).log)
  {
    hide DoOpen, CloseLog, Reverse, OpenLog, Order, Openable, OpenWave;
    var o := DoOpen(l, env);
    if l.openErr.Some? || l.isOpen {
      OpenIsNoOp(l, env);
      assert log + [] == log;
    } else {
      var all := OpenOutcome(l, env);
      OrderIsPermutation(l.parts);
      OpenableDistinct(l.parts, Order(l.parts));
      assert [] + o.log == o.log;
      if o.err.Some? {
        var k: nat :| FailsAt(l.parts, all, env, k, o.log);
        DistinctOpenLog(all[..k + 1]);
        ReverseDistinct(all[..k]);
        CloseLogDistinct(l.parts, Reverse(all[..k]));
        DistinctConcat(OpenLog(all[..k + 1]), CloseLog(l.parts, Reverse(all[..k])));
      } else {
        DistinctOpenLog(all);
        OpenSucceedsQuietly(l, env);
      }
    }
  }

  lemma OpenIsNoOp(l: Life, env: Env)
    requires l.openErr.Some? || l.isOpen
    ensures DoOpen(l, env) == Outcome(l, [], l.openErr)
  {
  }

  lemma OpenSucceedsQuietly(l: Life, env: Env)
    requires DoOpen(l, env).err.None?
    ensures DoOpen(l, env).life.openErr.None? && DoOpen(l, env).life.closed == l.closed
  {
  }

  lemma ReverseDistinct(s: seq<nat>)
    requires Distinct(s)
    ensures Distinct(Reverse(s))
  {
  }

  lemma CloseKeepsLogInv(l: Life, log: seq<Event>, env: Env)
    requires LogInv(l, log)
    ensures LogInv(DoClose(l, env).life, log + DoClose(l, env).log)
  {
    assert log + [] == log;
    if l.openErr.None? && !l.closed {
      if !l.isOpen {
        ClosableNone(l.parts, |l.parts|);
      }
      ClosableDistinct(l.parts, |l.parts|);
      hide Closable;
      var ids := Reverse(Closable(l.parts, |l.parts|));
      CloseLogDistinct(l.parts, ids);
      DistinctConcat(log, CloseLog(l.parts, ids));
    }
  }

  lemma {:induction false} RunKeepsLogInv(l: Life, log: seq<Event>, calls: seq<Call>)
    requires LogInv(l, log)
    ensures LogInv(Run(l, calls).0, log + Run(l, calls).1)
    decreases |calls|
  {
    hide LogInv, DoOpen, DoClose;
    if calls == [] {
      assert log + [] == log;
    } else {
      var o := Do(l, calls[0]);
      assert LogInv(o.life, log + o.log) by {
        match calls[0] {
          case Registering(name, phase, hasOpen, hasClose) => RegisterKeepsLogInv(l, log, name, phase, hasOpen, hasClose);
          case Opening(env) => OpenKeepsLogInv(l, log, env);
          case Closing(env) => CloseKeepsLogInv(l, log, env);
        }
      }
      RunKeepsLogInv(o.life, log + o.log, calls[1..]);
      assert log + o.log + Run(o.life, calls[1..]).1 == log + (o.log + Run(o.life, calls[1..]).1);
    }
  }

  lemma RegisterKeepsLogInv(l: Life, log: seq<Event>, name: string, phase: int, hasOpen: bool, hasClose: bool)
    requires LogInv(l, log)
    ensures var o := DoRegister(l, name, phase, hasOpen, hasClose); LogInv(o.life, log + o.log)
  {
    assert log + [] == log;
  }

  // ----- main results

  /** In every run of Register, Open and Close calls with arbitrary hook outcomes, each
      open hook and each close hook is called at most once. */
  lemma HooksRunAtMostOnce(calls: seq<Call>)
    ensures Distinct(Run(NEW, calls).1)
  {
    RunKeepsLogInv(NEW, [], calls);
    assert [] + Run(NEW, calls).1 == Run(NEW, calls).1;
  }

  /** After a failed Open the object is dead: no later call runs a hook or changes it, and
      every Open and Close reports the stored error. */
  lemma {:induction false} FailureIsFinal(l: Life, calls: seq<Call>)
    requires l.openErr.Some? && l.closed
    ensures Run(l, calls) == (l, [])
    ensures forall k :: 0 <= k < |calls| && !calls[k].Registering? ==> Do(l, calls[k]).err == l.openErr
    decreases |calls|
  {
    if calls != [] {
      var o := Do(l, calls[0]);
      assert o.life == l && o.log == [];
      FailureIsFinal(l, calls[1..]);
      assert o.log + Run(l, calls[1..]).1 == [];
      forall k | 0 <= k < |calls| && !calls[k].Registering? ensures Do(l, calls[k]).err == l.openErr {
        assert k > 0 ==> calls[k] == calls[1..][k - 1];
      }
    }
  }

  /** The registration order backwards. */
  function Downward(n: nat): (r: seq<nat>)
    ensures |r| == n && forall k :: 0 <= k < n ==> r[k] == n - 1 - k
  {
    if n == 0 then [] else [n - 1] + Downward(n - 1)
  }

  lemma DownwardIsReverse(n: nat)
    ensures Downward(n) == Reverse(Count(n))
  {
  }

  lemma CloseLogStep(ps: seq<Part>, n: nat)
    requires 0 < n <= |ps|
    ensures CloseLog(ps, Downward(n)) == (if ps[n - 1].hasClose then [CloseHook(n - 1)] else []) + CloseLog(ps, Downward(n - 1))
  {
    assert Downward(n)[1..] == Downward(n - 1);
  }

  lemma {:induction false} ClosableAll(ps: seq<Part>, n: nat)
    requires n <= |ps| && AllOpen(ps)
    ensures CloseLog(ps, Reverse(Closable(ps, n))) == CloseLog(ps, Downward(n))
  {
    if n == 0 {
      assert Reverse(Closable(ps, 0)) == [];
    } else {
      ClosableAll(ps, n - 1);
      CloseLogStep(ps, n);
      var c := Closable(ps, n - 1);
      if ps[n - 1].hasClose {
        ReverseAppend(c, n - 1);
        assert Reverse(c + [n - 1])[0] == n - 1;
        hide Reverse, Downward;
        assert Closable(ps, n) == c + [n - 1];
      } else {
        assert Closable(ps, n) == c;
      }
    }
  }

  lemma ReverseAppend(s: seq<nat>, x: nat)
    ensures Reverse(s + [x]) == [x] + Reverse(s) && Reverse(s + [x])[1..] == Reverse(s)
  {
  }

  ghost predicate FirstFailure(ps: seq<Part>, log: seq<Event>, env: Env, k: int, e: (string, string)) {
    && 0 <= k < |log| && log[k].i < |ps|
    && env.close(log[k].i) == Some(e.1) && ps[log[k].i].name == e.0
    && forall j :: 0 <= j < k ==> env.close(log[j].i).None?
  }

  lemma {:induction false} CloseLogHas(ps: seq<Part>, ids: seq<nat>)
    requires InRange(ids, |ps|)
    ensures forall i: nat :: CloseHook(i) in CloseLog(ps, ids) <==> i in ids && ps[i].hasClose
    decreases |ids|
  {
    if ids != [] {
      CloseLogHas(ps, ids[1..]);
      assert forall i :: i in ids <==> i == ids[0] || i in ids[1..];
    }
  }

  lemma FailureLater(ps: seq<Part>, first: Event, rest: seq<Event>, env: Env, k: int, e: (string, string))
    requires FirstFailure(ps, rest, env, k, e) && env.close(first.i).None?
    ensures FirstFailure(ps, [first] + rest, env, k + 1, e)
  {
    var log := [first] + rest;
    assert forall j :: 0 < j < |log| ==> log[j] == rest[j - 1];
  }

  ghost predicate NoFailure(log: seq<Event>, env: Env) { forall k :: 0 <= k < |log| ==> env.close(log[k].i).None? }

  lemma NoFailureLater(first: Event, rest: seq<Event>, env: Env)
    ensures NoFailure([first] + rest, env) <==> env.close(first.i).None? && NoFailure(rest, env)
  {
    var log := [first] + rest;
    assert log[0] == first && forall k :: 0 <= k < |rest| ==> log[k + 1] == rest[k];
  }

  /** A failing close hook stops nothing: every hook is attempted, and the error returned is
      that of the first attempted hook that fails, if any does. */
  lemma {:induction false} CloseReportsFirst(ps: seq<Part>, ids: seq<nat>, env: Env)
    requires InRange(ids, |ps|)
    ensures forall i: nat :: CloseHook(i) in CloseLog(ps, ids) <==> i in ids && ps[i].hasClose
    ensures var log, e := CloseLog(ps, ids), FirstCloseError(ps, ids, env);
            && (e.None? <==> NoFailure(log, env))
            && (e.Some? ==> exists k :: FirstFailure(ps, log, env, k, e.value))
    decreases |ids|
  {
    CloseLogHas(ps, ids);
    if ids != [] {
      var rest := CloseLog(ps, ids[1..]);
      CloseReportsFirst(ps, ids[1..], env);
      var log, e := CloseLog(ps, ids), FirstCloseError(ps, ids, env);
      if ps[ids[0]].hasClose {
        NoFailureLater(CloseHook(ids[0]), rest, env);
        if env.close(ids[0]).Some? {
          assert FirstFailure(ps, log, env, 0, e.value);
        } else if e.Some? {
          hide FirstFailure;
          var k :| FirstFailure(ps, rest, env, k, e.value);
          FailureLater(ps, CloseHook(ids[0]), rest, env, k, e.value);
        }
      } else {
        assert log == [] + rest == rest;
      }
    }
  }

  /** The first Close after a successful Open attempts every close hook, last registered
      first, whatever they return, and returns the error of the first that fails; when
      phases were registered in order that is exactly the reverse of the open order. */
  lemma CloseReversesOpen(l: Life, open: Env, close: Env)
    requires l.openErr.None? && !l.isOpen && !l.closed && DoOpen(l, open).err.None?
    ensures var o := DoClose(DoOpen(l, open).life, close);
            && o.log == CloseLog(l.parts, Downward(|l.parts|))
            && InRange(Order(l.parts), |l.parts|)
            && (PhasesAscend(l.parts) ==> o.log == CloseLog(l.parts, Reverse(Order(l.parts))))
            && (o.err.None? <==> NoFailure(o.log, close))
            && (o.err.Some? ==>
                  && o.err.value.CloseFailed?
                  && exists k :: FirstFailure(DoOpen(l, open).life.parts, o.log, close, k, (o.err.value.name, o.err.value.cause)))
  {
    var all := OpenOutcome(l, open);
    OrderIsPermutation(l.parts);
    OrderIsRegistrationIff(l.parts);
    OpenSucceedsQuietly(l, open);
    var l' := DoOpen(l, open).life;
    DownwardIsReverse(|l.parts|);
    hide DoOpen, Order, OpenWave, Openable, CloseLog, Downward;
    CloseReportsFirst(l'.parts, Reverse(Closable(l'.parts, |l'.parts|)), close);
    hide FirstFailure, NoFailure;
    ClosableAll(l'.parts, |l'.parts|);
    CloseIgnoresMarks(l.parts, l'.parts, Downward(|l.parts|), close);
  }

  predicate PhasesDescend(ps: seq<Part>, log: seq<Event>) {
    forall j, k :: 0 <= j < k < |log| && log[j].i < |ps| && log[k].i < |ps| ==> ps[log[j].i].phase >= ps[log[k].i].phase
  }

  /** The source's comment promises that the close order respects phases. It does exactly
      when the participants with a close hook were registered in non-decreasing phase. */
  lemma CloseRespectsPhasesIff(ps: seq<Part>)
    ensures PhasesDescend(ps, CloseLog(ps, Downward(|ps|)))
       <==> (forall i, j :: 0 <= i < j < |ps| && ps[i].hasClose && ps[j].hasClose ==> ps[i].phase <= ps[j].phase)
  {
    var log := CloseLog(ps, Downward(|ps|));
    ClosesAll(ps, |ps|);
    hide CloseLog, Downward;
    if PhasesDescend(ps, log) {
      forall i, j | 0 <= i < j < |ps| && ps[i].hasClose && ps[j].hasClose ensures ps[i].phase <= ps[j].phase {
        assert CloseHook(i) in log && CloseHook(j) in log;
      }
    }
  }

  predicate ClosesFrom(ps: seq<Part>, n: nat, log: seq<Event>)
    requires n <= |ps|
  {
    && (forall k :: 0 <= k < |log| ==> log[k].CloseHook? && log[k].i < n && ps[log[k].i].hasClose)
    && (forall j, k :: 0 <= j < k < |log| ==> log[j].i > log[k].i)
    && (forall i :: 0 <= i < n && ps[i].hasClose ==> CloseHook(i) in log)
  }

  lemma {:induction false} ClosesAll(ps: seq<Part>, n: nat)
    requires n <= |ps|
    ensures ClosesFrom(ps, n, CloseLog(ps, Downward(n)))
  {
    if n == 0 {
      assert CloseLog(ps, Downward(0)) == [];
    } else {
      ClosesAll(ps, n - 1);
      CloseLogStep(ps, n);
      hide CloseLog, Downward, ClosesFrom;
      var log := CloseLog(ps, Downward(n - 1));
      if ps[n - 1].hasClose {
        ClosesOneMore(ps, n - 1, log);
      } else {
        assert [] + log == log;
        ClosesNoMore(ps, n - 1, log);
      }
    }
  }

  lemma ClosesNoMore(ps: seq<Part>, n: nat, log: seq<Event>)
    requires n < |ps| && ClosesFrom(ps, n, log) && !ps[n].hasClose
    ensures ClosesFrom(ps, n + 1, log)
  {
  }

  lemma ClosesOneMore(ps: seq<Part>, n: nat, log: seq<Event>)
    requires n < |ps| && ClosesFrom(ps, n, log) && ps[n].hasClose
    ensures ClosesFrom(ps, n + 1, [CloseHook(n)] + log)
  {
    var r := [CloseHook(n)] + log;
    assert r[0] == CloseHook(n) && forall k :: 0 < k < |r| ==> r[k] == log[k - 1];
  }

  lemma {:induction false} OpenableHas(ps: seq<Part>, order: seq<nat>)
    requires InRange(order, |ps|)
    ensures forall i :: i in Openable(ps, order) <==> i in order && ps[i].hasOpen
    decreases |order|
  {
    if order != [] {
      OpenableHas(ps, order[1..]);
      assert forall i :: i in order <==> i == order[0] || i in order[1..];
    }
  }

  /** Open after Close is documented to return an error. It does exactly when a failed Open
      left one, or the object is not open and an open hook fails now. */
  lemma OpenAfterCloseFailsIff(l: Life, env: Env)
    requires l.closed
    ensures DoOpen(l, env).err.Some? <==>
              || l.openErr.Some?
              || (!l.isOpen && exists i :: 0 <= i < |l.parts| && l.parts[i].hasOpen && env.open(i).Some?)
  {
    if l.openErr.None? && !l.isOpen {
      var all := OpenOutcome(l, env);
      OrderIsPermutation(l.parts);
      OrderHasAll(l.parts);
      OpenableHas(l.parts, Order(l.parts));
      hide DoOpen, Openable, Order;
    } else {
      OpenIsNoOp(l, env);
    }
  }

  lemma CloseIsFlagged(l: Life, env: Env)
    requires l.openErr.None? && !l.closed
    ensures DoClose(l, env).life == l.(closed := true)
  {
  }

  /** Open, Close, Open: whatever opened once and was torn down reports a second Open as a
      success, without calling a single hook. */
  lemma ReopenReportsSuccess(l: Life, open: Env, close: Env, again: Env)
    requires l.openErr.None? && !l.isOpen && !l.closed && DoOpen(l, open).err.None?
    ensures var torn := DoClose(DoOpen(l, open).life, close).life;
            torn.closed && DoOpen(torn, again) == Outcome(torn, [], None)
  {
    var all := OpenOutcome(l, open);
    OpenSucceedsQuietly(l, open);
    var l' := DoOpen(l, open).life;
    hide DoOpen, DoClose, Order, Openable, OpenWave;
    CloseIsFlagged(l', close);
    OpenIsNoOp(DoClose(l', close).life, again);
  }

  /** A run that gets there: one participant with both hooks, opened and closed. */
  lemma ReopenRun(env: Env)
    requires env.open(0).None?
    ensures var calls := [Registering("a", 1, true, true), Opening(env), Closing(env)];
            Run(NEW, calls).0.closed && DoOpen(Run(NEW, calls).0, env) == Outcome(Run(NEW, calls).0, [], None)
  {
    var l0 := DoRegister(NEW, "a", 1, true, true).life;
    assert l0 == Life(false, false, None, [Part("a", 1, true, true, false)]);
    var all := OpenOutcome(l0, env);
    assert forall i :: i in all ==> i == 0;
    ReopenReportsSuccess(l0, env, env, env);
    var l1 := DoOpen(l0, env).life;
    var calls := [Registering("a", 1, true, true), Opening(env), Closing(env)];
    assert calls[1..] == [Opening(env), Closing(env)] && calls[1..][1..] == [Closing(env)] && calls[1..][1..][1..] == [];
    hide DoOpen, DoClose, Order, OpenWave, Openable;
    assert Run(l1, [Closing(env)]).0 == DoClose(l1, env).life;
    assert Run(l0, [Opening(env), Closing(env)]).0 == DoClose(l1, env).life;
  }

  /** Close before Open does not block Open, although the comment says so; it only spends
      the one Close: Open still opens everything, and no close hook ever runs. */
  lemma EarlyCloseDisarms(l: Life, early: Env, open: Env, late: Env)
    requires LogInv(l, []) && l.openErr.None? && !l.isOpen && !l.closed
    ensures var l1 := DoClose(l, early).life;
            && DoClose(l, early).log == []
            && DoOpen(l1, open).err == DoOpen(l, open).err && DoOpen(l1, open).log == DoOpen(l, open).log
            && (DoOpen(l, open).err.None? ==> DoClose(DoOpen(l1, open).life, late).log == [])
  {
    ClosableNone(l.parts, |l.parts|);
    hide Order, OpenWave, Openable;
  }

  // ----- registration order

  /** The Register calls of a run that returned no error. */
  ghost function Accepted(l: Life, calls: seq<Call>): (r: seq<Call>)
    ensures forall k :: 0 <= k < |r| ==> r[k].Registering?
    decreases |calls|
  {
    if calls == [] then []
    else
      var o := Do(l, calls[0]);
      (if calls[0].Registering? && o.err.None? then [calls[0]] else []) + Accepted(o.life, calls[1..])
  }

  predicate MadeBy(p: Part, c: Call) {
    && c.Registering? && p.name == c.name && p.phase == c.phase
    && p.hasOpen == c.hasOpen && p.hasClose == c.hasClose
  }

  lemma CallKeepsParts(l: Life, c: Call)
    ensures var ps := Do(l, c).life.parts;
            if c.Registering? && Do(l, c).err.None? then |ps| == |l.parts| + 1 && ps[..|l.parts|] == l.parts && MadeBy(ps[|l.parts|], c)
            else SameHooks(ps, l.parts)
  {
    hide OpenWave, OpenLog, CloseLog, FirstCloseError, OpenError, Reverse, Openable, Order, IsOrder, Distinct, Tried;
  }

  /** The participants are those of exactly the accepted Register calls, in the order of the
      calls, with their names, phases and hooks. */
  lemma {:induction false} RegisteredInOrder(l: Life, calls: seq<Call>)
    ensures var ps, a, n := Run(l, calls).0.parts, Accepted(l, calls), |l.parts|;
            && |ps| == n + |a| && SameHooks(ps[..n], l.parts)
            && forall k :: 0 <= k < |a| ==> MadeBy(ps[n + k], a[k])
    decreases |calls|
  {
    if calls != [] {
      var o := Do(l, calls[0]);
      CallKeepsParts(l, calls[0]);
      RegisteredInOrder(o.life, calls[1..]);
      hide Do, MadeBy, Accepted, Run;
      LaterCalls(l, calls, o);
    }
  }

  lemma LaterCalls(l: Life, calls: seq<Call>, o: Outcome)
    requires calls != [] && o == Do(l, calls[0])
    ensures Run(l, calls).0 == Run(o.life, calls[1..]).0
    ensures Accepted(l, calls) == (if calls[0].Registering? && o.err.None? then [calls[0]] else []) + Accepted(o.life, calls[1..])
  {
    hide Do;
  }

  /** No two participants of one phase share a name. */
  predicate NamesDistinct(ps: seq<Part>) {
    forall i, j :: 0 <= i < j < |ps| ==> ps[i].name != ps[j].name || ps[i].phase != ps[j].phase
  }

  /** Register refuses an empty name, an open or closed object and a name the phase already
      has, in this order, and nothing else; a refused call changes nothing. */
  lemma RegisterIff(l: Life, name: string, phase: int, hasOpen: bool, hasClose: bool)
    ensures var o := DoRegister(l, name, phase, hasOpen, hasClose);
            var unused := forall i :: 0 <= i < |l.parts| ==> l.parts[i].name != name || l.parts[i].phase != phase;
            && (o.err.None? <==> name != "" && !l.isOpen && !l.closed && unused)
            && (o.err == Some(NameRequired) <==> name == "")
            && (o.err == Some(RegisterAfterOpen) <==> name != "" && l.isOpen)
            && (o.err == Some(RegisterAfterClose) <==> name != "" && !l.isOpen && l.closed)
            && (o.err == Some(DuplicateName(name, phase)) <==> name != "" && !l.isOpen && !l.closed && !unused)
            && (o.err.Some? ==> o.life == l) && o.log == []
            && (NamesDistinct(l.parts) ==> NamesDistinct(o.life.parts))
  {
  }

  /** In every run names stay distinct within each phase. */
  lemma {:induction false} NamesStayDistinct(l: Life, calls: seq<Call>)
    requires NamesDistinct(l.parts)
    ensures NamesDistinct(Run(l, calls).0.parts)
    decreases |calls|
  {
    if calls != [] {
      var c := calls[0];
      CallKeepsParts(l, c);
      if c.Registering? {
        RegisterIff(l, c.name, c.phase, c.hasOpen, c.hasClose);
      }
      hide DoOpen, DoClose, DoRegister;
      NamesStayDistinct(Do(l, c).life, calls[1..]);
    }
  }

  /** A second Open of an open object and a second Close report success and do nothing. */
  lemma RepeatIsQuiet(l: Life, env: Env)
    requires l.openErr.None?
    ensures l.isOpen ==> DoOpen(l, env) == Outcome(l, [], None)
    ensures l.closed ==> DoClose(l, env) == Outcome(l, [], None)
  {
  }

  predicate ByPhase(ps: seq<Part>, ids: seq<nat>)
    requires InRange(ids, |ps|)
  {
    forall j, k :: 0 <= j < k < |ids| ==>
      var x, y := ps[ids[j]].phase, ps[ids[k]].phase; x < y || (x == y && ids[j] < ids[k])
  }

  /** The open wave: `all` are the participants with an open hook, by phase and within a
      phase by registration. A successful Open calls exactly their hooks in this order. */
  lemma OpensInOrder(l: Life, env: Env) returns (all: seq<nat>)
    requires l.openErr.None? && !l.isOpen
    ensures forall i: nat :: i in all <==> i < |l.parts| && l.parts[i].hasOpen
    ensures InRange(all, |l.parts|) && ByPhase(l.parts, all)
    ensures var o := DoOpen(l, env);
            && (o.err.None? <==> forall k :: 0 <= k < |all| ==> env.open(all[k]).None?)
            && (o.err.None? ==> |o.log| == |all| && forall k :: 0 <= k < |all| ==> o.log[k] == OpenHook(all[k]))
            && (o.err.Some? ==> exists k :: FailsAt(l.parts, all, env, k, o.log))
  {
    all := OpenOutcome(l, env);
    OrderIsPermutation(l.parts);
    OrderHasAll(l.parts);
    OpenableHas(l.parts, Order(l.parts));
    OpenableSorted(l.parts, Order(l.parts));
    hide DoOpen, Openable, OpenWave, FailsAt, Order, OpenLog, MarkAll, AllOpen, Distinct, Less, Ordering.StrictlySorted;
    SortedByPhase(l.parts, all);
    hide ByPhase;
    assert forall k :: 0 <= k < |all| ==> all[k] in all;
  }

  lemma SortedByPhase(ps: seq<Part>, ids: seq<nat>)
    requires InRange(ids, |ps|) && Ordering.StrictlySorted<nat>(Less(ps), ids)
    ensures ByPhase(ps, ids)
  {
    forall j, k | 0 <= j < k < |ids| ensures Before(ps, ids[j], ids[k]) {
      assert Less(ps)(ids[j], ids[k]);
    }
  }

  lemma {:induction false} OpenableSorted(ps: seq<Part>, order: seq<nat>)
    requires InRange(order, |ps|) && Ordering.StrictlySorted<nat>(Less(ps), order)
    ensures Ordering.StrictlySorted<nat>(Less(ps), Openable(ps, order))
    decreases |order|
  {
    if order != [] {
      var rest := Openable(ps, order[1..]);
      OpenableSorted(ps, order[1..]);
      forall k | 0 <= k < |rest| ensures Less(ps)(order[0], rest[k]) {
        assert rest[k] in order[1..];
      }
    }
  }

  /** Whatever was called before, an Open that succeeds calls the open hooks of the accepted
      Register calls by ascending phase, and calls of equal phase in the order they were
      made; the next Close calls their close hooks last accepted call first. */
  lemma OpensInRegisterOrder(calls: seq<Call>, open: Env, close: Env)
    requires var l := Run(NEW, calls).0; l.openErr.None? && !l.isOpen && DoOpen(l, open).err.None?
    ensures var l, a := Run(NEW, calls).0, Accepted(NEW, calls);
            var up := DoOpen(l, open).log;
            var down := DoClose(DoOpen(l, open).life, close).log;
            && (forall i: nat :: OpenHook(i) in up <==> i < |a| && a[i].hasOpen)
            && (forall j, k :: 0 <= j < k < |up| ==> FiresBefore(a, up[j], up[k]))
            && (!l.closed ==>
                  && (forall i: nat :: CloseHook(i) in down <==> i < |a| && a[i].hasClose)
                  && (forall j, k :: 0 <= j < k < |down| ==> down[j].i > down[k].i))
  {
    hide DoOpen, DoClose, Run, Accepted, SameHooks, MadeBy, FiresBefore, ByPhase, FailsAt, Order;
    var l, a := Run(NEW, calls).0, Accepted(NEW, calls);
    RegisteredInOrder(NEW, calls);
    assert forall k :: 0 <= k < |a| ==> MadeBy(l.parts[k], a[k]);
    var all := OpensInOrder(l, open);
    MatchCalls(l.parts, a, all, DoOpen(l, open).log);
    if !l.closed {
      ClosesInRegisterOrder(l, a, open, close);
    }
  }

  lemma ClosesInRegisterOrder(l: Life, a: seq<Call>, open: Env, close: Env)
    requires l.openErr.None? && !l.isOpen && !l.closed && DoOpen(l, open).err.None?
    requires |a| == |l.parts| && forall k :: 0 <= k < |a| ==> a[k].Registering? && MadeBy(l.parts[k], a[k])
    ensures var down := DoClose(DoOpen(l, open).life, close).log;
            && (forall i: nat :: CloseHook(i) in down <==> i < |a| && a[i].hasClose)
            && (forall j, k :: 0 <= j < k < |down| ==> down[j].i > down[k].i)
  {
    CloseReversesOpen(l, open, close);
    ClosesAll(l.parts, |l.parts|);
    hide DoOpen, DoClose, Downward, CloseLog, NoFailure, FirstFailure, Order;
  }

  predicate FiresBefore(a: seq<Call>, x: Event, y: Event) {
    && x.i < |a| && y.i < |a| && a[x.i].Registering? && a[y.i].Registering?
    && (a[x.i].phase < a[y.i].phase || (a[x.i].phase == a[y.i].phase && x.i < y.i))
  }

  lemma MatchCalls(ps: seq<Part>, a: seq<Call>, all: seq<nat>, up: seq<Event>)
    requires |a| == |ps| && forall k :: 0 <= k < |a| ==> a[k].Registering? && MadeBy(ps[k], a[k])
    requires forall i: nat :: i in all <==> i < |ps| && ps[i].hasOpen
    requires InRange(all, |ps|) && ByPhase(ps, all)
    requires |up| == |all| && forall k :: 0 <= k < |all| ==> up[k] == OpenHook(all[k])
    ensures forall i: nat :: OpenHook(i) in up <==> i < |a| && a[i].hasOpen
    ensures forall j, k :: 0 <= j < k < |up| ==> FiresBefore(a, up[j], up[k])
  {
    forall i: nat ensures OpenHook(i) in up <==> i in all {
      if i in all {
        var k :| 0 <= k < |all| && all[k] == i;
        assert up[k] == OpenHook(i);
      }
    }
    forall j, k | 0 <= j < k < |up| ensures FiresBefore(a, up[j], up[k]) {
      assert all[j] in all && all[k] in all;
    }
  }

  /** The error of an Open that fails names the phase and the participant whose hook failed
      and carries the hook's error; when a close hook fails during the rollback, the first
      such hook and its error are put around that. */
  lemma OpenReports(l: Life, env: Env) returns (all: seq<nat>, k: nat)
    requires l.openErr.None? && !l.isOpen && DoOpen(l, env).err.Some?
    ensures InRange(all, |l.parts|) && FailsAt(l.parts, all, env, k, DoOpen(l, env).log)
    ensures var p, cause := l.parts[all[k]], env.open(all[k]).value;
            var first := OpenFailed(p.phase, p.name, cause);
            var back := DoOpen(l, env).log[k + 1..];
            var err := DoOpen(l, env).err.value;
            && (err == first <==> NoFailure(back, env))
            && (err != first ==>
                  && err.RollbackFailed? && err.openError == first
                  && exists m :: FirstFailure(l.parts, back, env, m, (err.name, err.cause)))
  {
    OrderIsPermutation(l.parts);
    WaveShape(l.parts, Order(l.parts), env);
    all := Openable(l.parts, Order(l.parts));
    var w := OpenWave(l.parts, Order(l.parts), env);
    k := |w.succeeded|;
    FailingOpen(l, env, w);
    hide OpenWave, Openable, Order, IsOrder, CloseLog, FirstCloseError, Reverse, OpenLog, Distinct, DoOpen, MarkAll, Tried;
    FailureShape(l.parts, all, env, w);
    CloseReportsFirst(l.parts, Reverse(w.succeeded), env);
    hide NoFailure, FirstFailure, FailsAt;
    assert w.succeeded == all[..k];
    assert DoOpen(l, env).log[k + 1..] == CloseLog(l.parts, Reverse(w.succeeded)) by {
      TriedLen(w);
    }
  }

  lemma TriedLen(w: Wave)
    requires w.failed.Some?
    ensures |OpenLog(Tried(w))| == |w.succeeded| + 1
  {
  }

  lemma FailingOpen(l: Life, env: Env, w: Wave)
    requires l.openErr.None? && !l.isOpen && InRange(Order(l.parts), |l.parts|)
    requires w == OpenWave(l.parts, Order(l.parts), env) && DoOpen(l, env).err.Some?
    ensures w.failed.Some? && w.failed.value < |l.parts| && env.open(w.failed.value).Some? && InRange(w.succeeded, |l.parts|)
    ensures DoOpen(l, env).err == Some(OpenError(l.parts, env, w.failed.value, w.succeeded))
    ensures DoOpen(l, env).log == OpenLog(Tried(w)) + CloseLog(l.parts, Reverse(w.succeeded))
  {
    WaveShape(l.parts, Order(l.parts), env);
    hide OpenWave, Openable, Order, IsOrder, CloseLog, FirstCloseError, Reverse, OpenLog, Distinct, MarkAll, Tried, OpenError;
  }

  // ----- the objects of the source

  class Participant {
    const name: string
    const phase: int
    const hasOpen: bool
    const hasClose: bool
    var isOpen: bool

    constructor (name: string, phase: int, hasOpen: bool, hasClose: bool)
      ensures View() == Part(name, phase, hasOpen, hasClose, false)
    {
      this.name, this.phase, this.hasOpen, this.hasClose, this.isOpen := name, phase, hasOpen, hasClose, false;
    }

    function View(): Part
      reads this
    {
      Part(name, phase, hasOpen, hasClose, isOpen)
    }
  }

  function Views(ps: seq<Participant>): (r: seq<Part>)
    reads ps
    ensures |r| == |ps| && forall i :: 0 <= i < |ps| ==> r[i] == ps[i].View()
  {
    if ps == [] then [] else Views(ps[..|ps| - 1]) + [ps[|ps| - 1].View()]
  }

  method ReverseSeq<T>(s: seq<T>) returns (r: seq<T>)
    ensures r == Reverse(s)
  {
    r := s;
    var n := |s|;
    var i := 0;
    while i < n / 2
      invariant 0 <= i <= n / 2 && |r| == n
      invariant forall k :: 0 <= k < i || n - i <= k < n ==> r[k] == s[n - 1 - k]
      invariant forall k :: i <= k < n - i ==> r[k] == s[k]
    {
      var j := n - 1 - i;
      r := r[i := r[j]][j := r[i]];
      i := i + 1;
    }
  }

  /** `log` collects the hook calls the object has made. */
  class Lifecycle {
    var isOpen: bool
    var closed: bool
    var openErr: Option<Error>
    var parts: seq<Participant>
    var log: seq<Event>

    ghost predicate Valid()
      reads this`parts
    {
      Distinct(parts)
    }

    function Parts(): (ps: seq<Part>)
      reads this`parts, parts
    {
      Views(parts)
    }

    function Abs(): Life
      reads this`isOpen, this`closed, this`openErr, this`parts, parts
    {
      Life(isOpen, closed, openErr, Parts())
    }

    constructor ()
      ensures Valid() && Abs() == NEW && log == []
    {
      isOpen, closed, openErr, parts, log := false, false, None, [], [];
    }

    method Register(name: string, phase: int, hasOpen: bool, hasClose: bool) returns (err: Option<Error>)
      requires Valid()
      modifies this
      ensures Valid() && log == old(log)
      ensures var o := DoRegister(old(Abs()), name, phase, hasOpen, hasClose);
              Abs() == o.life && err == o.err
    {
      if name == "" {
        return Some(NameRequired);
      }
      if isOpen {
        return Some(RegisterAfterOpen);
      }
      if closed {
        return Some(RegisterAfterClose);
      }
      for i := 0 to |parts|
        invariant forall j :: 0 <= j < i ==> !(Parts()[j].name == name && Parts()[j].phase == phase)
      {
        if parts[i].name == name && parts[i].phase == phase {
          assert Parts()[i].name == name && Parts()[i].phase == phase;
          return Some(DuplicateName(name, phase));
        }
      }
      var p := new Participant(name, phase, hasOpen, hasClose);
      parts := parts + [p];
      err := None;
    }

    /** The participants in open order, by registration index. */
    method SortedParts() returns (order: seq<nat>)
      requires Valid()
      ensures order == Order(Parts())
    {
      var ps := Parts();
      var c := Count(|ps|);
      assert Ordering.Elements<nat>(c) == Indices(|ps|) by {
        assert forall i: nat :: i in Indices(|ps|) ==> c[i] == i;
      }
      BeforeIsTotal(ps);
      order := Ordering.Sort<nat>(c, Less(ps));
      OrderIsUnique(ps, order, Order(ps));
    }

    /** Runs the close hooks of `ids` in that order and keeps the first error. */
    method RunCloseHooks(ids: seq<nat>, env: Env) returns (first: Option<(string, string)>)
      requires Valid() && InRange(ids, |parts|)
      modifies this`log
      ensures log == old(log) + CloseLog(Parts(), ids)
      ensures first == FirstCloseError(Parts(), ids, env)
    {
      hide CloseLog, FirstCloseError, Views;
      first := None;
      var k := 0;
      ghost var ps, before := Parts(), log;
      assert ids[0..] == ids;
      while k < |ids|
        invariant 0 <= k <= |ids| && Parts() == ps
        invariant log + CloseLog(ps, ids[k..]) == before + CloseLog(ps, ids)
        invariant FirstCloseError(ps, ids, env)
               == if first.Some? then first else FirstCloseError(ps, ids[k..], env)
      {
        var p := parts[ids[k]];
        CloseStep(ps, ids, k, env);
        assert ps[ids[k]] == p.View();
        if p.hasClose {
          assert log + [CloseHook(ids[k])] + CloseLog(ps, ids[k + 1..]) == log + CloseLog(ps, ids[k..]);
          log := log + [CloseHook(ids[k])];
          var cause := env.close(ids[k]);
          if cause.Some? && first.None? {
            first := Some((p.name, cause.value));
          }
        }
        k := k + 1;
      }
      NoneLeft(ps, ids[k..], env);
    }

    /** Opens one participant: a missing hook counts as success. */
    method OpenOne(i: nat, env: Env) returns (ok: bool)
      requires Valid() && i < |parts|
      modifies this`log, parts[i..i + 1]
      ensures ok == !(parts[i].hasOpen && env.open(i).Some?)
      ensures log == old(log) + if parts[i].hasOpen then [OpenHook(i)] else []
      ensures Parts() == if ok then old(Parts())[i := old(Parts())[i].(isOpen := true)] else old(Parts())
    {
      var p := parts[i];
      if p.hasOpen {
        log := log + [OpenHook(i)];
        if env.open(i).Some? {
          return false;
        }
      }
      p.isOpen := true;
      ok := true;
    }

    /** Runs the open hooks in the given order up to the first failure. */
    method RunOpenHooks(order: seq<nat>, env: Env) returns (w: Wave)
      requires Valid() && InRange(order, |parts|)
      modifies this`log, parts
      ensures w == OpenWave(old(Parts()), order, env)
      ensures Parts() == MarkAll(old(Parts()), w.passed)
      ensures log == old(log) + OpenLog(Tried(w))
    {
      hide OpenLog, MarkAll, OpenWave, Tried, Views, Distinct, Midway;
      ghost var ps, before := Parts(), log;
      var succeeded: seq<nat> := [];
      var k := 0;
      NothingDone(ps, order, env, before);
      while k < |order|
        invariant 0 <= k <= |order|
        invariant Midway(ps, order, env, before, k, succeeded, Parts(), log)
      {
        var i := order[k];
        MidwayStep(ps, order, env, before, k, succeeded, Parts(), log);
        var ok := OpenOne(i, env);
        if !ok {
          w := Wave(order[..k], succeeded, Some(i));
          return;
        }
        if parts[i].hasOpen {
          succeeded := succeeded + [i];
        }
        k := k + 1;
      }
      AllDone(ps, order, env, before, succeeded, Parts(), log);
      w := Wave(order, succeeded, None);
    }

    /** Closes what was opened before participant `i` failed, in reverse, and buries the
        object with the error. */
    method RollBack(i: nat, succeeded: seq<nat>, env: Env, ghost ps: seq<Part>) returns (err: Option<Error>)
      requires Valid() && SameHooks(Parts(), ps)
      requires i < |parts| && env.open(i).Some? && InRange(succeeded, |parts|)
      modifies this`log, this`openErr, this`closed
      ensures err == Some(OpenError(ps, env, i, succeeded)) && openErr == err && closed
      ensures log == old(log) + CloseLog(ps, Reverse(succeeded))
    {
      hide CloseLog, FirstCloseError, Reverse, Distinct;
      var p := parts[i];
      assert Parts()[i] == p.View();
      err := Some(OpenFailed(p.phase, p.name, env.open(i).value));
      var first := RunCloseHooks(Reverse(succeeded), env);
      CloseIgnoresMarks(ps, Parts(), Reverse(succeeded), env);
      if first.Some? {
        err := Some(RollbackFailed(first.value.0, first.value.1, err.value));
      }
      openErr := err;
      closed := true;
    }

    method Open(env: Env) returns (err: Option<Error>)
      requires Valid()
      modifies this, parts
      ensures Valid() && parts == old(parts)
      ensures var o := DoOpen(old(Abs()), env);
              Abs() == o.life && log == old(log) + o.log && err == o.err
    {
      hide OpenWave, OpenLog, MarkAll, CloseLog, FirstCloseError, OpenError, Views, Reverse, Openable, Order, IsOrder, Distinct, Tried;
      if openErr.Some? {
        return openErr;
      }
      if isOpen {
        return None;
      }
      ghost var ps := Parts();
      var order := SortedParts();
      OrderIsPermutation(ps);
      WaveShape(ps, order, env);
      var w := RunOpenHooks(order, env);
      if w.failed.Some? {
        err := RollBack(w.failed.value, w.succeeded, env, ps);
        assert log == old(log) + (OpenLog(Tried(w)) + CloseLog(ps, Reverse(w.succeeded)));
        return;
      }
      assert Tried(w) == w.succeeded by {
        NothingFailed(w);
      }
      isOpen := true;
      err := None;
    }

    method CollectClosable() returns (ids: seq<nat>)
      ensures ids == Closable(Parts(), |parts|)
    {
      ids := [];
      for i := 0 to |parts|
        invariant ids == Closable(Parts(), i)
      {
        assert Parts()[i] == parts[i].View();
        if parts[i].isOpen && parts[i].hasClose {
          ids := ids + [i];
        }
      }
    }

    /** The close wave proper, on an object not yet closed. */
    method TearDown(env: Env) returns (first: Option<(string, string)>)
      requires Valid()
      modifies this
      ensures Valid() && Abs() == old(Abs()).(closed := true) && parts == old(parts)
      ensures var ids := Reverse(Closable(old(Parts()), |old(Parts())|));
              log == old(log) + CloseLog(old(Parts()), ids) && first == FirstCloseError(old(Parts()), ids, env)
    {
      hide CloseLog, FirstCloseError, Views, Reverse, Closable, Distinct;
      closed := true;
      var toClose := CollectClosable();
      toClose := ReverseSeq(toClose);
      first := RunCloseHooks(toClose, env);
    }

    method Close(env: Env) returns (err: Option<Error>)
      requires Valid()
      modifies this
      ensures Valid() && parts == old(parts)
      ensures var o := DoClose(old(Abs()), env);
              Abs() == o.life && log == old(log) + o.log && err == o.err
    {
      hide CloseLog, FirstCloseError, Views, Reverse, Closable, Distinct;
      if openErr.Some? {
        return openErr;
      }
      if closed {
        return None;
      }
      var first := TearDown(env);
      err := if first.Some? then Some(CloseFailed(first.value.0, first.value.1)) else None;
    }
  }
}
