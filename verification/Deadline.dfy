/** The T0-anchored budget (internal/runtime/deadline.go). Times are nanoseconds of the
    monotonic clock. */
module Deadline {

  datatype Budget = Budget(timeout: nat, startedAt: int)

  /** New: a negative duration is taken as zero. */
  function New(d: int, now: int): Budget { Budget(if d < 0 then 0 else d, now) }

  predicate Expired(b: Budget, now: int) { now - b.startedAt >= b.timeout }

  /** Remaining reads the clock twice, first in Expired and then for the elapsed time. */
  function Remaining(b: Budget, first: int, second: int): int {
    if Expired(b, first) then 0
    else if second - b.startedAt >= b.timeout then 0
    else b.timeout - (second - b.startedAt)
  }

  /** One request to sleep for `d`, with the two clock readings Clamp makes. */
  datatype Request = Request(d: int, first: int, second: int)

  function Clamp(b: Budget, r: Request): int {
    if r.d <= 0 then 0
    else
      var left := Remaining(b, r.first, r.second);
      if r.d > left then left else r.d
  }

  /** Each request is made on a clock that never goes back and has advanced at least by every
      sleep granted before it. */
  ghost predicate Orderly(b: Budget, rs: seq<Request>) {
    && (forall i :: 0 <= i < |rs| ==> b.startedAt <= rs[i].first <= rs[i].second)
    && (forall i :: 0 <= i < |rs| - 1 ==> rs[i].second + Clamp(b, rs[i]) <= rs[i + 1].first)
  }

  function Granted(b: Budget, rs: seq<Request>): int {
    if rs == [] then 0 else Granted(b, rs[..|rs| - 1]) + Clamp(b, rs[|rs| - 1])
  }

  /** A granted sleep is the longest that fits: never negative, never longer than asked, over
      by the deadline, and cut short only to end exactly at it. */
  lemma ClampFits(b: Budget, r: Request)
    requires b.startedAt <= r.first <= r.second
    ensures 0 <= Clamp(b, r) && (r.d > 0 ==> Clamp(b, r) <= r.d)
    ensures Clamp(b, r) > 0 ==> r.second + Clamp(b, r) <= b.startedAt + b.timeout
    ensures 0 < Clamp(b, r) < r.d ==> r.second + Clamp(b, r) == b.startedAt + b.timeout
    ensures Clamp(b, r) == 0 <==> r.d <= 0 || r.second >= b.startedAt + b.timeout
  {
  }

  /** A budget made from a non-positive duration is spent from the start, and any other
      exactly from its anchor plus that duration on, however the clock moved in between. */
  lemma AnchorIsFixed(d: int, now: int, later: int)
    requires now <= later
    ensures Expired(New(d, now), later) <==> d <= 0 || later >= now + d
  {
  }

  /** The sleeps granted so far never exceed the time gone by, so all of them together never
      exceed the timeout, whatever is asked for and however often. */
  lemma {:induction false} SleepsFitTheBudget(b: Budget, rs: seq<Request>)
    requires Orderly(b, rs)
    ensures 0 <= Granted(b, rs) <= b.timeout
    ensures rs != [] ==> Granted(b, rs) <= rs[|rs| - 1].second + Clamp(b, rs[|rs| - 1]) - b.startedAt
    decreases |rs|
  {
    if rs != [] {
      var n := |rs| - 1;
      assert forall i :: 0 <= i < n ==> rs[..n][i] == rs[i];
      SleepsFitTheBudget(b, rs[..n]);
      ClampFits(b, rs[n]);
    }
  }

  /** Once expired, a budget grants nothing ever again. */
  lemma {:induction false} ExpiredGrantsNothing(b: Budget, rs: seq<Request>, i: nat, j: nat)
    requires Orderly(b, rs) && i <= j < |rs| && Expired(b, rs[i].second)
    ensures Expired(b, rs[j].second) && Clamp(b, rs[j]) == 0
    decreases j
  {
    if i < j {
      ExpiredGrantsNothing(b, rs, i, j - 1);
      ClampFits(b, rs[j - 1]);
      assert rs[j - 1].second + Clamp(b, rs[j - 1]) <= rs[j - 1 + 1].first;
    }
  }
}
