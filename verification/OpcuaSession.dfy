/** A shared OPC UA session: its device bindings and its reconnect backoff. */
module OpcuaSession {
  import opened Bytes
  import opened Domain

  // Durations are nanoseconds in a signed 64-bit integer.
  const SECOND: int := 1_000_000_000
  const MINUTE: int := 60_000_000_000
  const TWO63: int := 0x8000_0000_0000_0000

  /** What the error text of a failed connect is matched for. */
  datatype ConnectError = TooManySessions | EndOfFile | OtherFailure

  predicate IsDuration(d: int) { -TWO63 <= d < TWO63 }

  function Wrap64(x: int): (r: int)
    ensures IsDuration(r) && (x - r) % (2 * TWO63) == 0
  {
    var m := x % (2 * TWO63);
    if m < TWO63 then m else m - 2 * TWO63
  }

  /** The base delay after the defaults and the error class were applied. */
  function Base(configured: int, e: ConnectError): int {
    match e
    case TooManySessions => MINUTE
    case EndOfFile => 30 * SECOND
    case OtherFailure => if configured < 5 * SECOND then 5 * SECOND else configured
  }

  function Shift(failures: nat): nat {
    if failures == 0 then 0 else if failures - 1 > 6 then 6 else failures - 1
  }

  /** The delay after the given number of consecutive failures, the last of class e. */
  function Delay(failures: nat, e: ConnectError, configured: int): int {
    var delay := Wrap64(Base(configured, e) * Pow2(Shift(failures)));
    if delay > 5 * MINUTE then 5 * MINUTE else delay
  }

  predicate DelayInBounds(failures: nat, e: ConnectError, configured: int) {
    5 * SECOND <= Delay(failures, e, configured) <= 5 * MINUTE
  }

  /** Shifting the base left by up to six places stays within 64 bits. */
  predicate NoOverflow(configured: int) { 64 * configured < TWO63 }

  lemma ShiftBound(n: nat)
    requires n <= 6
    ensures Pow2(n) == [1, 2, 4, 8, 16, 32, 64][n]
  {
    assert Pow2(3) == 8;
  }

  lemma NoOverflowMeansPlain(failures: nat, e: ConnectError, configured: int)
    requires NoOverflow(configured)
    ensures var plain := Base(configured, e) * Pow2(Shift(failures));
            5 * SECOND <= plain && Delay(failures, e, configured) == if plain > 5 * MINUTE then 5 * MINUTE else plain
  {
    var p := Pow2(Shift(failures));
    ShiftBound(Shift(failures));
    var base := Base(configured, e);
    assert base <= base * p <= 64 * base by { Scale(base, p); }
  }

  lemma Scale(base: int, p: nat)
    requires 0 <= base && 1 <= p <= 64
    ensures base <= base * p <= 64 * base
  {
  }

  /** Every delay lies between five seconds and five minutes exactly when the configured base
      delay leaves room for the shift. */
  lemma DelaysInBoundsExactly(configured: int)
    requires IsDuration(configured)
    ensures (forall failures: nat, e :: DelayInBounds(failures, e, configured)) <==> NoOverflow(configured)
  {
    if NoOverflow(configured) {
      forall failures: nat, e: ConnectError ensures DelayInBounds(failures, e, configured) {
        NoOverflowMeansPlain(failures, e, configured);
      }
    } else {
      var n := FirstOverflow(configured, 6);
      assert !DelayInBounds(n + 1, OtherFailure, configured);
    }
  }

  /** The first shift that leaves the 63-bit range lands in the sign bit. */
  lemma {:induction false} FirstOverflow(configured: int, n: nat) returns (m: nat)
    requires IsDuration(configured) && n <= 6 && configured * Pow2(n) >= TWO63
    ensures 0 < m <= 6 && TWO63 <= configured * Pow2(m) < 2 * TWO63
    ensures Wrap64(configured * Pow2(m)) < 0
  {
    var half := configured * Pow2(n - 1);
    assert configured * Pow2(n) == 2 * half;
    if half >= TWO63 {
      m := FirstOverflow(configured, n - 1);
    } else {
      m := n;
    }
  }

  predicate DelayGrows(failures: nat, e: ConnectError, configured: int) {
    Delay(failures, e, configured) <= Delay(failures + 1, e, configured)
  }

  lemma PlainDelayGrows(failures: nat, e: ConnectError, configured: int)
    requires NoOverflow(configured)
    ensures DelayGrows(failures, e, configured)
  {
    NoOverflowMeansPlain(failures, e, configured);
    NoOverflowMeansPlain(failures + 1, e, configured);
    ShiftBound(Shift(failures));
    ShiftBound(Shift(failures + 1));
    var base, p, q := Base(configured, e), Pow2(Shift(failures)), Pow2(Shift(failures + 1));
    assert base * p <= base * q by { MulMonotone(base, p, q); }
  }

  /** If delays never shrink, none is below the first one. */
  lemma {:induction false} NeverBelowFirst(failures: nat, e: ConnectError, configured: int)
    requires forall f: nat :: DelayGrows(f, e, configured)
    ensures Delay(0, e, configured) <= Delay(failures, e, configured)
  {
    if failures > 0 {
      NeverBelowFirst(failures - 1, e, configured);
      assert DelayGrows(failures - 1, e, configured);
    }
  }

  /** Delays never shrink over consecutive failures of one class exactly when the configured base delay
      leaves room for the shift. */
  lemma DelaysGrow(configured: int)
    requires IsDuration(configured)
    ensures (forall failures: nat, e :: DelayGrows(failures, e, configured)) <==> NoOverflow(configured)
  {
    if NoOverflow(configured) {
      forall failures: nat, e: ConnectError ensures DelayGrows(failures, e, configured) {
        PlainDelayGrows(failures, e, configured);
      }
    } else {
      var n := FirstOverflow(configured, 6);
      assert Delay(n + 1, OtherFailure, configured) < 0;
      FirstDelay(configured);
      if forall f: nat :: DelayGrows(f, OtherFailure, configured) {
        NeverBelowFirst(n + 1, OtherFailure, configured);
        assert false;
      }
    }
  }

  lemma FirstDelay(configured: int)
    requires IsDuration(configured)
    ensures Delay(0, OtherFailure, configured) >= 5 * SECOND
  {
    assert Base(configured, OtherFailure) * Pow2(0) == Base(configured, OtherFailure);
  }

  lemma MulMonotone(base: int, p: nat, q: nat)
    requires 0 <= base && p <= q
    ensures base * p <= base * q
  {
  }

  // ----- backoff over a history of connect attempts -----

  /** `nextAt` is None for the zero time. */
  datatype Backoff = Backoff(failures: nat, lastError: Option<ConnectError>, nextAt: Option<int>)

  const FRESH := Backoff(0, None, None)

  predicate CanAttempt(b: Backoff, now: int) { b.nextAt.None? || now >= b.nextAt.value }

  function Recorded(b: Backoff, now: int, err: Option<ConnectError>, configured: int): Backoff {
    if err.None? then FRESH
    else Backoff(b.failures + 1, err, Some(now + Delay(b.failures + 1, err.value, configured)))
  }

  datatype Attempt = Attempt(now: int, err: Option<ConnectError>)

  ghost function AfterAttempts(h: seq<Attempt>, configured: int): Backoff {
    if h == [] then FRESH
    else Recorded(AfterAttempts(h[..|h| - 1], configured), h[|h| - 1].now, h[|h| - 1].err, configured)
  }

  /** Every attempt of the history was allowed by the backoff left by those before it. */
  ghost predicate Allowed(h: seq<Attempt>, configured: int) {
    h != [] ==> Allowed(h[..|h| - 1], configured) && CanAttempt(AfterAttempts(h[..|h| - 1], configured), h[|h| - 1].now)
  }

  /** The sum of the delays set after the n consecutive failures that end the history, the last one's
      delay left out. */
  ghost function DelaysBetween(h: seq<Attempt>, n: nat, configured: int): int
    requires 1 <= n <= |h|
    requires forall i :: |h| - n <= i < |h| ==> h[i].err.Some?
  {
    if n == 1 then 0
    else
      var before := h[..|h| - 1];
      DelaysBetween(before, n - 1, configured)
      + Delay(AfterAttempts(before, configured).failures, h[|h| - 2].err.value, configured)
  }

  /** Consecutive failed attempts on a session are spread over at least the delays set between them. */
  lemma {:induction false} FailuresAreSpaced(h: seq<Attempt>, n: nat, configured: int)
    requires 1 <= n <= |h| && Allowed(h, configured)
    requires forall i :: |h| - n <= i < |h| ==> h[i].err.Some?
    ensures h[|h| - 1].now - h[|h| - n].now >= DelaysBetween(h, n, configured)
  {
    if n > 1 {
      var before := h[..|h| - 1];
      assert before[|before| - 1] == h[|h| - 2] && before[|before| - (n - 1)] == h[|h| - n];
      FailuresAreSpaced(before, n - 1, configured);
    }
  }

  /** The i-th of a row of failures after a success or a fresh start leaves a failure count of i. */
  lemma {:induction false} FailureCount(h: seq<Attempt>, n: nat, configured: int)
    requires n <= |h| && (n < |h| ==> h[|h| - n - 1].err.None?)
    requires forall i :: |h| - n <= i < |h| ==> h[i].err.Some?
    ensures AfterAttempts(h, configured).failures == n
  {
    if n > 0 {
      FailureCount(h[..|h| - 1], n - 1, configured);
    }
  }

  /** The wait after n failures in a row, in nanoseconds: a minute when there are too many sessions, half a
      minute at an end of file, otherwise the configured delay but at least five seconds, doubled with
      each failure up to 64 times, and never more than five minutes. */
  function Wait(n: nat, e: ConnectError, configured: int): int
    requires n > 0
  {
    var base := match e
      case TooManySessions => 60_000_000_000
      case EndOfFile => 30_000_000_000
      case OtherFailure => if configured < 5_000_000_000 then 5_000_000_000 else configured;
    var factor := [1, 2, 4, 8, 16, 32, 64][if n < 7 then n - 1 else 6];
    if base * factor > 300_000_000_000 then 300_000_000_000 else base * factor
  }

  lemma WaitIsDelay(n: nat, e: ConnectError, configured: int)
    requires n > 0 && (e == OtherFailure ==> NoOverflow(configured))
    ensures Delay(n, e, configured) == Wait(n, e, configured)
  {
    ShiftBound(Shift(n));
    if e == OtherFailure {
      NoOverflowMeansPlain(n, e, configured);
    } else {
      NoOverflowMeansPlain(n, e, 0);
    }
  }

  /** After n failures in a row, the last of class e, the next attempt is allowed exactly from `Wait` after the
      last of them. */
  lemma NextAttemptIs(h: seq<Attempt>, n: nat, configured: int, now: int)
    requires 0 < n <= |h| && (n < |h| ==> h[|h| - n - 1].err.None?)
    requires forall i :: |h| - n <= i < |h| ==> h[i].err.Some?
    requires h[|h| - 1].err == Some(OtherFailure) ==> NoOverflow(configured)
    ensures var next := h[|h| - 1].now + Wait(n, h[|h| - 1].err.value, configured);
            AfterAttempts(h, configured).nextAt == Some(next) && (CanAttempt(AfterAttempts(h, configured), now) <==> now >= next)
  {
    FailureCount(h, n, configured);
    FailureCount(h[..|h| - 1], n - 1, configured);
    hide Delay;
    WaitIsDelay(n, h[|h| - 1].err.value, configured);
  }

  /** Some waits in seconds, with a configured delay of at most five. */
  lemma KnownWaits(configured: int)
    requires configured <= 5 * SECOND
    ensures Wait(1, OtherFailure, configured) == 5 * SECOND && Wait(2, OtherFailure, configured) == 10 * SECOND
    ensures Wait(6, OtherFailure, configured) == 160 * SECOND && Wait(7, OtherFailure, configured) == 300 * SECOND
    ensures Wait(1, TooManySessions, configured) == 60 * SECOND && Wait(4, TooManySessions, configured) == 300 * SECOND
    ensures Wait(1, EndOfFile, configured) == 30 * SECOND && Wait(3, EndOfFile, configured) == 120 * SECOND
  {
  }

  /** After a success, and before the first attempt, nothing has to be waited for. */
  lemma NothingToWaitFor(h: seq<Attempt>, configured: int, now: int)
    requires h == [] || h[|h| - 1].err.None?
    ensures CanAttempt(AfterAttempts(h, configured), now)
  {
  }

  lemma {:induction false} AllowedNext(h: seq<Attempt>, a: Attempt, configured: int)
    requires Allowed(h, configured) && CanAttempt(AfterAttempts(h, configured), a.now)
    ensures Allowed(h + [a], configured)
    ensures AfterAttempts(h + [a], configured) == Recorded(AfterAttempts(h, configured), a.now, a.err, configured)
  {
    assert (h + [a])[..|h|] == h;
  }

  // ----- sessions and bindings -----

  // Identifiers are only ever compared.
  type DeviceId = nat
  type EndpointKey = nat

  /** `serial` tells bindings made at different times apart, as their addresses do in memory. */
  datatype DeviceBinding = DeviceBinding(deviceID: DeviceId, endpointKey: EndpointKey, serial: nat)

  /** `lastPublish` is present while subscriptions are active. */
  datatype Session = Session(
    devices: map<DeviceId, DeviceBinding>, connected: bool, backoff: Backoff,
    lastUsed: int, lastPublish: Option<int>, createdAt: int)

  predicate HasRecentActivity(s: Session, idleTimeout: int, now: int) {
    now - s.lastUsed < idleTimeout || (s.lastPublish.Some? && now - s.lastPublish.value < idleTimeout)
  }

  predicate Expired(s: Session, maxTTL: int, now: int) { maxTTL > 0 && now - s.createdAt > maxTTL }
}
