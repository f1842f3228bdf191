/** The bounded retry rungs (internal/auth/refresh): the attempt loops of L2.0, L2.5 and L3.
    What each attempt and each look at the context turns up is an oracle. */
module Refresh {
  import opened Text

  /** What made an attempt fail: the context's own error, which errors.Is finds through any
      number of wrappings, or some other error. */
  datatype Cause = ContextDone | Other(id: nat)

  /** Every sentinel but the redirect wraps its cause. */
  datatype Error =
    | Cancelled
    | FileMissing(cause: Cause)
    | Malformed(cause: Cause)
    | AuthRedirect
    | Exhausted(cause: Cause)

  /** errors.Is finds the context's error. */
  predicate IsContextError(e: Error) { e.Cancelled? || (!e.AuthRedirect? && e.cause.ContextDone?) }

  /** What one attempt comes to: tokens, an error not worth retrying, or a failure that is. */
  datatype Outcome<T> = Success(tokens: T) | Fatal(error: Error) | Failure(cause: Cause)

  /** One turn of a loop: whether the context is found done before the attempt, the attempt,
      and whether the context is done during the backoff after it. */
  datatype Turn<A> = Turn(done: bool, attempt: A, interrupted: bool)

  // ----- the declarative scan

  /** A turn after which the loop does not go on. */
  predicate Decisive<T>(turns: seq<Turn<Outcome<T>>>, k: nat)
    requires k < |turns|
  {
    turns[k].done || !turns[k].attempt.Failure? || (k < |turns| - 1 && turns[k].interrupted)
  }

  /** The first decisive turn, or the number of turns. */
  function Stop<T>(turns: seq<Turn<Outcome<T>>>): (k: nat)
    ensures k <= |turns| && (k < |turns| ==> Decisive(turns, k))
    ensures forall j :: 0 <= j < k ==> !Decisive(turns, j)
  {
    StopFrom(turns, 0)
  }

  function StopFrom<T>(turns: seq<Turn<Outcome<T>>>, i: nat): (k: nat)
    requires i <= |turns| && forall j :: 0 <= j < i ==> !Decisive(turns, j)
    ensures i <= k <= |turns| && (k < |turns| ==> Decisive(turns, k))
    ensures forall j :: 0 <= j < k ==> !Decisive(turns, j)
    decreases |turns| - i
  {
    if i == |turns| || Decisive(turns, i) then i else StopFrom(turns, i + 1)
  }

  datatype Report<T> = Report(result: Result<T, Error>, attempts: nat, backoffs: nat)

  function CauseBefore<T>(turns: seq<Turn<Outcome<T>>>, k: nat): Cause
    requires 0 < k <= |turns| && !Decisive(turns, k - 1)
  {
    turns[k - 1].attempt.cause
  }

  /** `strict` rungs report cancellation as such whenever it is seen; the others only when no
      attempt has failed yet, and otherwise the failure they had. */
  function Verdict<T>(turns: seq<Turn<Outcome<T>>>, strict: bool): Report<T>
    requires turns != []
  {
    var k := Stop(turns);
    if k == |turns| then Report(Err(Exhausted(CauseBefore(turns, k))), k, k - 1)
    else if turns[k].done then
      Report(Err(if strict || k == 0 then Cancelled else Exhausted(CauseBefore(turns, k))), k, k)
    else if turns[k].attempt.Success? then Report(Ok(turns[k].attempt.tokens), k + 1, k)
    else if turns[k].attempt.Fatal? then Report(Err(turns[k].attempt.error), k + 1, k)
    else Report(Err(if strict then Cancelled else Exhausted(turns[k].attempt.cause)), k + 1, k + 1)
  }

  /** Nothing up to turn `k` stops the loop. */
  predicate Smooth<T>(turns: seq<Turn<Outcome<T>>>, k: nat)
    requires k <= |turns|
  {
    forall j :: 0 <= j < k ==> !turns[j].done && turns[j].attempt.Failure? && (j < |turns| - 1 ==> !turns[j].interrupted)
  }

  lemma StopAt<T>(turns: seq<Turn<Outcome<T>>>, k: nat)
    requires k <= |turns| && (forall j :: 0 <= j < k ==> !Decisive(turns, j)) && (k < |turns| ==> Decisive(turns, k))
    ensures Stop(turns) == k
  {
  }

  lemma SmoothMeans<T>(turns: seq<Turn<Outcome<T>>>, k: nat)
    requires k <= |turns|
    ensures Smooth(turns, k) <==> forall j :: 0 <= j < k ==> !Decisive(turns, j)
  {
    if Smooth(turns, k) {
      forall j | 0 <= j < k ensures !Decisive(turns, j) {
      }
    }
    if forall j :: 0 <= j < k ==> !Decisive(turns, j) {
      forall j | 0 <= j < k ensures !turns[j].done && turns[j].attempt.Failure? && (j < |turns| - 1 ==> !turns[j].interrupted) {
        assert !Decisive(turns, j);
      }
    }
  }

  ghost predicate SucceedsAt<T>(turns: seq<Turn<Outcome<T>>>, k: int) {
    0 <= k < |turns| && Smooth(turns, k) && !turns[k].done && turns[k].attempt.Success?
  }

  ghost predicate FatalAt<T>(turns: seq<Turn<Outcome<T>>>, k: int) {
    0 <= k < |turns| && Smooth(turns, k) && !turns[k].done && turns[k].attempt.Fatal?
  }

  /** The context is seen done before attempt `k`, or while backing off after it. */
  ghost predicate CancelledAt<T>(turns: seq<Turn<Outcome<T>>>, k: int) {
    && 0 <= k < |turns| && Smooth(turns, k)
    && (turns[k].done || (k < |turns| - 1 && turns[k].attempt.Failure? && turns[k].interrupted))
  }

  lemma DecidedAt<T>(turns: seq<Turn<Outcome<T>>>, k: int)
    requires SucceedsAt(turns, k) || FatalAt(turns, k) || CancelledAt(turns, k)
    ensures Stop(turns) == k
  {
    SmoothMeans(turns, k);
    StopAt(turns, k);
  }

  /** The errors an attempt itself may end a loop with. */
  predicate Unretryable(e: Error) { e.FileMissing? || e.Malformed? || e.AuthRedirect? }

  /** The first success or unretryable error decides, unless the context is seen done before
      it; the last failure is reported when the attempts run out. */
  lemma VerdictMeans<T>(turns: seq<Turn<Outcome<T>>>, strict: bool)
    requires turns != []
    ensures var v := Verdict(turns, strict);
            && (v.result.Ok? <==> exists k :: SucceedsAt(turns, k))
            && (forall k :: SucceedsAt(turns, k) ==> v.result == Ok(turns[k].attempt.tokens) && v.attempts == k + 1)
            && (forall k :: FatalAt(turns, k) ==> v.result == Err(turns[k].attempt.error) && v.attempts == k + 1)
            && (Smooth(turns, |turns|) ==>
                  v.attempts == |turns| && v.result == Err(Exhausted(turns[|turns| - 1].attempt.cause)))
            && v.attempts <= |turns| && v.backoffs <= |turns| - 1
  {
    var k := Stop(turns);
    SmoothMeans(turns, k);
    SmoothMeans(turns, |turns|);
    forall j | SucceedsAt(turns, j) || FatalAt(turns, j) ensures j == k {
      DecidedAt(turns, j);
    }
    assert k < |turns| && !turns[k].done && turns[k].attempt.Success? ==> SucceedsAt(turns, k);
  }

  /** When the bare context error comes back: on a strict rung exactly when cancellation
      decides; on the others only when it is seen before the first attempt. */
  lemma CancelledIff<T>(turns: seq<Turn<Outcome<T>>>, strict: bool)
    requires turns != [] && forall k :: 0 <= k < |turns| && turns[k].attempt.Fatal? ==> Unretryable(turns[k].attempt.error)
    ensures Verdict(turns, strict).result == Err(Cancelled) <==> if strict then exists k :: CancelledAt(turns, k) else turns[0].done
  {
    var k := Stop(turns);
    SmoothMeans(turns, k);
    forall j | CancelledAt(turns, j) ensures j == k {
      DecidedAt(turns, j);
    }
    if k < |turns| && (turns[k].done || turns[k].attempt.Failure?) {
      assert CancelledAt(turns, k);
    }
    if turns[0].done {
      assert Decisive(turns, 0);
    }
  }

  /** Attempt `k` is the last one made. */
  ghost predicate LastTry<T>(turns: seq<Turn<Outcome<T>>>, k: int) {
    && 0 <= k < |turns| && Smooth(turns, k) && !turns[k].done
    && (Decisive(turns, k) || k == |turns| - 1 || turns[k + 1].done)
  }

  predicate ContextFailure<T>(o: Outcome<T>) {
    (o.Failure? && o.cause.ContextDone?) || (o.Fatal? && IsContextError(o.error))
  }

  lemma LastTryIs<T>(turns: seq<Turn<Outcome<T>>>, k: int)
    requires turns != []
    ensures LastTry(turns, k) <==>
              && 0 <= k < |turns|
              && k == if Stop(turns) == |turns| || turns[Stop(turns)].done then Stop(turns) - 1 else Stop(turns)
  {
    var n := Stop(turns);
    SmoothMeans(turns, n);
    if 0 <= k < |turns| {
      SmoothMeans(turns, k);
      if LastTry(turns, k) {
        if Decisive(turns, k) {
          StopAt(turns, k);
        } else {
          StopAt(turns, k + 1);
        }
      }
    }
  }

  /** A rung's error is, or wraps, the context's error exactly when the context is seen done
      before the first attempt, or the last attempt itself failed with the context's error,
      or, on a strict rung, cancellation decides. */
  lemma ContextErrorIff<T>(turns: seq<Turn<Outcome<T>>>, strict: bool)
    requires turns != []
    ensures var r := Verdict(turns, strict).result;
            r.Err? && IsContextError(r.error) <==>
              || turns[0].done
              || (exists k :: LastTry(turns, k) && ContextFailure(turns[k].attempt))
              || (strict && exists k :: CancelledAt(turns, k))
  {
    var n := Stop(turns);
    SmoothMeans(turns, n);
    if turns[0].done {
      StopAt(turns, 0);
    }
    forall k ensures LastTry(turns, k) <==>
      0 <= k < |turns| && k == if n == |turns| || turns[n].done then n - 1 else n
    {
      LastTryIs(turns, k);
    }
    forall j | CancelledAt(turns, j) ensures j == n {
      DecidedAt(turns, j);
    }
    hide Stop, LastTry;
    var last := if n == |turns| || turns[n].done then n - 1 else n;
    assert last >= 0 ==> LastTry(turns, last);
    assert n < |turns| && (turns[n].done || turns[n].attempt.Failure?) ==> CancelledAt(turns, n);
  }

  /** All the rungs are documented to report a cancellation under way as the context's error.
      Once an attempt has failed, the rungs that are not strict do so exactly when that
      failure was the context's error itself. */
  lemma CancellationShowsIff<T>(turns: seq<Turn<Outcome<T>>>, strict: bool, k: nat)
    requires CancelledAt(turns, k)
    ensures Verdict(turns, strict).result.Err?
    ensures IsContextError(Verdict(turns, strict).result.error) <==>
              || strict || (k == 0 && turns[0].done)
              || turns[if turns[k].done then k - 1 else k].attempt == Failure(ContextDone)
  {
    DecidedAt(turns, k);
    SmoothMeans(turns, k);
    hide Stop;
  }

  /** The first mint fails for its own reasons and the context is cancelled during the
      backoff: what comes back does not mention the context. */
  lemma CancellationHidden()
    ensures var turns := [Turn(false, NotMinted(Other(1)), true), Turn(true, NotMinted(ContextDone), false)];
            var seen := Seen(MintOutcome<int>, turns);
            && CancelledAt(seen, 0)
            && Verdict(seen, false).result == Err(Exhausted(Other(1)))
            && !IsContextError(Exhausted(Other(1)))
  {
    var turns := [Turn(false, NotMinted(Other(1)), true), Turn(true, NotMinted(ContextDone), false)];
    StopAt(Seen(MintOutcome<int>, turns), 0);
  }

  /** The exhausted sentinel always wraps the failure of the last attempt made, and no earlier
      attempt had succeeded. */
  lemma ExhaustedWrapsLastFailure<T>(turns: seq<Turn<Outcome<T>>>, strict: bool)
    requires turns != [] && forall k :: 0 <= k < |turns| && turns[k].attempt.Fatal? ==> Unretryable(turns[k].attempt.error)
    requires Verdict(turns, strict).result.Err? && Verdict(turns, strict).result.error.Exhausted?
    ensures var v := Verdict(turns, strict);
            && 0 < v.attempts <= |turns|
            && turns[v.attempts - 1].attempt == Failure(v.result.error.cause)
            && forall j :: 0 <= j < v.attempts ==> turns[j].attempt.Failure?
  {
    SmoothMeans(turns, Stop(turns));
  }

  // ----- the three loops

  const L2_0_ATTEMPTS := 3
  const L2_5_ATTEMPTS := 2
  const L3_ATTEMPTS := 2
  const L2_0_BACKOFF := 50
  const L2_5_BACKOFF := 250
  const L3_BACKOFF := 100

  function Seen<A, T>(f: A -> Outcome<T>, turns: seq<Turn<A>>): (r: seq<Turn<Outcome<T>>>)
    ensures |r| == |turns|
    ensures forall i :: 0 <= i < |r| ==> r[i] == Turn(turns[i].done, f(turns[i].attempt), turns[i].interrupted)
  {
    seq(|turns|, i requires 0 <= i < |turns| => Turn(turns[i].done, f(turns[i].attempt), turns[i].interrupted))
  }

  function Pow2(n: nat): nat { if n == 0 then 1 else 2 * Pow2(n - 1) }

  datatype Read<T> = Loaded(tokens: T) | NotExist(cause: Cause) | EmptyPath(cause: Cause) | IoError(cause: Cause)

  function ReadOutcome<T>(r: Read<T>): Outcome<T> {
    match r
    case Loaded(t) => Success(t)
    case NotExist(c) => Fatal(FileMissing(c))
    case EmptyPath(c) => Fatal(FileMissing(c))
    case IoError(c) => Failure(c)
  }

  /** ReloadL2_0WithMtime; `slept` adds up the backoffs it asked for, in milliseconds. */
  method ReloadL2_0<T>(doneAtEntry: bool, turns: seq<Turn<Read<T>>>) returns (r: Result<T, Error>, attempts: nat, slept: nat)
    requires |turns| == 3
    ensures doneAtEntry ==> r == Err(Cancelled) && attempts == 0 && slept == 0
    ensures !doneAtEntry ==>
              var v := Verdict(Seen(ReadOutcome<T>, turns), true);
              r == v.result && attempts == v.attempts && slept == (if v.backoffs == 0 then 0 else if v.backoffs == 1 then 50 else 150)
    ensures attempts <= 3 && slept <= 150
  {
    attempts, slept := 0, 0;
    if doneAtEntry {
      return Err(Cancelled), 0, 0;
    }
    ghost var seen := Seen(ReadOutcome<T>, turns);
    var lastErr: Cause := Other(0);
    for attempt := 0 to L2_0_ATTEMPTS
      invariant forall j :: 0 <= j < attempt ==> !Decisive(seen, j)
      invariant attempt > 0 ==> lastErr == CauseBefore(seen, attempt)
      invariant attempts == attempt
      invariant slept == L2_0_BACKOFF * (Pow2(if attempt < 3 then attempt else 2) - 1)
    {
      if turns[attempt].done {
        StopAt(seen, attempt);
        return Err(Cancelled), attempts, slept;
      }
      attempts := attempts + 1;
      match turns[attempt].attempt {
        case Loaded(t) =>
          StopAt(seen, attempt);
          return Ok(t), attempts, slept;
        case NotExist(c) =>
          StopAt(seen, attempt);
          return Err(FileMissing(c)), attempts, slept;
        case EmptyPath(c) =>
          StopAt(seen, attempt);
          return Err(FileMissing(c)), attempts, slept;
        case IoError(c) =>
          lastErr := c;
          if attempt < L2_0_ATTEMPTS - 1 {
            slept := slept + L2_0_BACKOFF * Pow2(attempt);
            if turns[attempt].interrupted {
              StopAt(seen, attempt);
              return Err(Cancelled), attempts, slept;
            }
          }
      }
    }
    StopAt(seen, L2_0_ATTEMPTS);
    return Err(Exhausted(lastErr)), attempts, slept;
  }

  /** L2.0 attempt by attempt: after `k` reads that failed with the context alive, a missing
      file or an empty path ends the loop at once, as do tokens; any other failure is retried
      up to the third read, whose failure is reported; cancellation shows as such. */
  lemma L2_0Decides<T>(turns: seq<Turn<Read<T>>>, k: nat)
    requires |turns| == 3 && k < 3
    requires forall j :: 0 <= j < k ==> !turns[j].done && turns[j].attempt.IoError? && !turns[j].interrupted
    ensures var v, a := Verdict(Seen(ReadOutcome<T>, turns), true), turns[k].attempt;
            && (turns[k].done ==> v == Report(Err(Cancelled), k, k))
            && (!turns[k].done && a.Loaded? ==> v == Report(Ok(a.tokens), k + 1, k))
            && (!turns[k].done && (a.NotExist? || a.EmptyPath?) ==> v == Report(Err(FileMissing(a.cause)), k + 1, k))
            && (!turns[k].done && a.IoError? && k < 2 && turns[k].interrupted ==> v == Report(Err(Cancelled), k + 1, k + 1))
            && (!turns[k].done && a.IoError? && k == 2 ==> v == Report(Err(Exhausted(a.cause)), 3, 2))
  {
    var seen := Seen(ReadOutcome<T>, turns);
    assert forall j :: 0 <= j < k ==> !Decisive(seen, j);
    if Decisive(seen, k) {
      StopAt(seen, k);
    } else if k == 2 {
      StopAt(seen, 3);
    }
  }

  /** The refresh command fails, prints something unreadable, or prints tokens. */
  datatype Command<T> = Printed(tokens: T) | Unreadable(cause: Cause) | Failed(cause: Cause)

  function CommandOutcome<T>(c: Command<T>): Outcome<T> {
    match c
    case Printed(t) => Success(t)
    case Unreadable(e) => Fatal(Malformed(e))
    case Failed(e) => Failure(e)
  }

  /** The attempt loop of ReloadL2_5. */
  method ReloadL2_5<T>(turns: seq<Turn<Command<T>>>) returns (r: Result<T, Error>, attempts: nat, slept: nat)
    requires |turns| == 2
    ensures var v := Verdict(Seen(CommandOutcome<T>, turns), false);
            r == v.result && attempts == v.attempts && slept == 250 * v.backoffs
    ensures attempts <= 2 && slept <= 250
  {
    attempts, slept := 0, 0;
    ghost var seen := Seen(CommandOutcome<T>, turns);
    var lastErr: Option<Cause> := None;
    for i := 0 to L2_5_ATTEMPTS
      invariant forall j :: 0 <= j < i ==> !Decisive(seen, j)
      invariant lastErr == if i > 0 then Some(CauseBefore(seen, i)) else None
      invariant attempts == i && slept == if i == 0 then 0 else L2_5_BACKOFF
    {
      if turns[i].done {
        StopAt(seen, i);
        if lastErr.Some? {
          return Err(Exhausted(lastErr.value)), attempts, slept;
        }
        return Err(Cancelled), attempts, slept;
      }
      attempts := attempts + 1;
      match turns[i].attempt {
        case Printed(t) =>
          StopAt(seen, i);
          return Ok(t), attempts, slept;
        case Unreadable(e) =>
          StopAt(seen, i);
          return Err(Malformed(e)), attempts, slept;
        case Failed(e) =>
          lastErr := Some(e);
          if i + 1 < L2_5_ATTEMPTS {
            slept := slept + L2_5_BACKOFF;
            if turns[i].interrupted {
              StopAt(seen, i);
              return Err(Exhausted(e)), attempts, slept;
            }
          }
      }
    }
    StopAt(seen, L2_5_ATTEMPTS);
    return Err(Exhausted(lastErr.value)), attempts, slept;
  }

  /** L2.5 attempt by attempt: unreadable output ends the loop at once, as do tokens; a
      failed command is run once more, and its failure is what a cancellation reports. */
  lemma L2_5Decides<T>(turns: seq<Turn<Command<T>>>, k: nat)
    requires |turns| == 2 && k < 2
    requires forall j :: 0 <= j < k ==> !turns[j].done && turns[j].attempt.Failed? && !turns[j].interrupted
    ensures var v, a := Verdict(Seen(CommandOutcome<T>, turns), false), turns[k].attempt;
            && (turns[k].done && k == 0 ==> v == Report(Err(Cancelled), 0, 0))
            && (turns[k].done && k == 1 ==> v == Report(Err(Exhausted(turns[0].attempt.cause)), 1, 1))
            && (!turns[k].done && a.Printed? ==> v == Report(Ok(a.tokens), k + 1, k))
            && (!turns[k].done && a.Unreadable? ==> v == Report(Err(Malformed(a.cause)), k + 1, k))
            && (!turns[k].done && a.Failed? && (k == 1 || turns[k].interrupted) ==> v == Report(Err(Exhausted(a.cause)), k + 1, 1))
  {
    var seen := Seen(CommandOutcome<T>, turns);
    assert forall j :: 0 <= j < k ==> !Decisive(seen, j);
    if Decisive(seen, k) {
      StopAt(seen, k);
    } else if k == 1 {
      StopAt(seen, 2);
    }
  }

  /** A mint is redirected off the allowlist, fails, returns a page without the tokens, or
      returns them. */
  datatype Mint<T> = Minted(tokens: T) | Redirected | NotMinted(cause: Cause) | NoTokens(cause: Cause)

  function MintOutcome<T>(m: Mint<T>): Outcome<T> {
    match m
    case Minted(t) => Success(t)
    case Redirected => Fatal(AuthRedirect)
    case NotMinted(e) => Failure(e)
    case NoTokens(e) => Failure(e)
  }

  /** ReloadL3, whose sentinel around the last failure is ErrReloadL3TokenMissing. */
  method ReloadL3<T>(doneAtEntry: bool, turns: seq<Turn<Mint<T>>>) returns (r: Result<T, Error>, attempts: nat, slept: nat)
    requires |turns| == 2
    ensures doneAtEntry ==> r == Err(Cancelled) && attempts == 0 && slept == 0
    ensures !doneAtEntry ==>
              var v := Verdict(Seen(MintOutcome<T>, turns), false);
              r == v.result && attempts == v.attempts && slept == 100 * v.backoffs
    ensures attempts <= 2 && slept <= 100
  {
    attempts, slept := 0, 0;
    if doneAtEntry {
      return Err(Cancelled), 0, 0;
    }
    ghost var seen := Seen(MintOutcome<T>, turns);
    var lastErr: Option<Cause> := None;
    for i := 0 to L3_ATTEMPTS
      invariant forall j :: 0 <= j < i ==> !Decisive(seen, j)
      invariant lastErr == if i > 0 then Some(CauseBefore(seen, i)) else None
      invariant attempts == i && slept == if i == 0 then 0 else L3_BACKOFF
    {
      if turns[i].done {
        StopAt(seen, i);
        if lastErr.Some? {
          return Err(Exhausted(lastErr.value)), attempts, slept;
        }
        return Err(Cancelled), attempts, slept;
      }
      attempts := attempts + 1;
      var m := turns[i].attempt;
      if m.Redirected? {
        StopAt(seen, i);
        return Err(AuthRedirect), attempts, slept;
      }
      if m.Minted? {
        StopAt(seen, i);
        return Ok(m.tokens), attempts, slept;
      }
      lastErr := Some(m.cause);
      if i + 1 < L3_ATTEMPTS {
        slept := slept + L3_BACKOFF;
        if turns[i].interrupted {
          StopAt(seen, i);
          return Err(Exhausted(m.cause)), attempts, slept;
        }
      }
    }
    StopAt(seen, L3_ATTEMPTS);
    return Err(Exhausted(lastErr.value)), attempts, slept;
  }

  /** L3 attempt by attempt: a redirect off the allowlist ends the loop at once, as do tokens;
      a failed mint or a page without tokens is tried once more. */
  lemma L3Decides<T>(turns: seq<Turn<Mint<T>>>, k: nat)
    requires |turns| == 2 && k < 2
    requires forall j :: 0 <= j < k ==>
               !turns[j].done && (turns[j].attempt.NotMinted? || turns[j].attempt.NoTokens?) && !turns[j].interrupted
    ensures var v, a := Verdict(Seen(MintOutcome<T>, turns), false), turns[k].attempt;
            && (turns[k].done && k == 0 ==> v == Report(Err(Cancelled), 0, 0))
            && (turns[k].done && k == 1 ==> v == Report(Err(Exhausted(turns[0].attempt.cause)), 1, 1))
            && (!turns[k].done && a.Minted? ==> v == Report(Ok(a.tokens), k + 1, k))
            && (!turns[k].done && a.Redirected? ==> v == Report(Err(AuthRedirect), k + 1, k))
            && (!turns[k].done && (a.NotMinted? || a.NoTokens?) && (k == 1 || turns[k].interrupted) ==>
                  v == Report(Err(Exhausted(a.cause)), k + 1, 1))
  {
    var seen := Seen(MintOutcome<T>, turns);
    assert forall j :: 0 <= j < k ==> !Decisive(seen, j);
    if Decisive(seen, k) {
      StopAt(seen, k);
    } else if k == 1 {
      StopAt(seen, 2);
    }
  }
}
