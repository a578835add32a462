/**
 Login with lockout: the failure counter, the lock, and a bound on how many
 password checks can fail within a window of time.
 */
module Lockout {
  import opened Options

  /** The settings: failures that lock an account, and how long the lock lasts. */
  datatype Policy = Policy(maxAttempts: nat, lockout: nat)

  predicate Sensible(p: Policy) {
    1 <= p.maxAttempts && 1 <= p.lockout
  }

  datatype Account = Account(active: bool, failures: nat, locked: bool, lockedUntil: Option<int>)

  /** One login attempt: the clock at the lock test and again when a lock is set
      (`later`), and whether the password is right. */
  datatype Attempt = Attempt(now: int, later: int, correct: bool)

  datatype Reply = Disabled | Locked | BadCredentials | Welcome

  predicate Blocked(a: Account, now: int) {
    a.locked && a.lockedUntil.Some? && now < a.lockedUntil.value
  }

  function ReplyTo(a: Account, t: Attempt): Reply {
    if !a.active then Disabled
    else if Blocked(a, t.now) then Locked
    else if !t.correct then BadCredentials
    else Welcome
  }

  function After(p: Policy, a: Account, t: Attempt): Account {
    match ReplyTo(a, t)
    case Disabled => a
    case Locked => a
    case BadCredentials =>
      if a.failures + 1 >= p.maxAttempts
      then a.(failures := 0, locked := true, lockedUntil := Some(t.later + p.lockout))
      else a.(failures := a.failures + 1)
    case Welcome => a.(failures := 0, locked := false, lockedUntil := None)
  }

  class UserRow {
    var active: bool
    var failures: nat
    var locked: bool
    var lockedUntil: Option<int>

    ghost function State(): Account
      reads this
    {
      Account(active, failures, locked, lockedUntil)
    }

    method Authenticate(p: Policy, t: Attempt) returns (reply: Reply)
      modifies this
      ensures reply == ReplyTo(old(State()), t)
      ensures State() == After(p, old(State()), t)
    {
      if !active { return Disabled; }
      if locked && lockedUntil.Some? && t.now < lockedUntil.value { return Locked; }
      if !t.correct {
        failures := failures + 1;
        if failures >= p.maxAttempts {
          locked, lockedUntil, failures := true, Some(t.later + p.lockout), 0;
        }
        return BadCredentials;
      }
      failures, locked, lockedUntil := 0, false, None;
      return Welcome;
    }
  }

  // ── Runs ─────────────────────────────────────────────────────────────────

  function Run(p: Policy, a: Account, ts: seq<Attempt>): Account
    decreases |ts|
  {
    if ts == [] then a else Run(p, After(p, a, ts[0]), ts[1..])
  }

  /** How many of the attempts had their password checked and found wrong. */
  function FailedChecks(p: Policy, a: Account, ts: seq<Attempt>): nat
    decreases |ts|
  {
    if ts == [] then 0
    else (if ReplyTo(a, ts[0]).BadCredentials? then 1 else 0) + FailedChecks(p, After(p, a, ts[0]), ts[1..])
  }

  /** The attempts happen one after the other, inside [from, to]. */
  ghost predicate Sequential(ts: seq<Attempt>, from: int, to: int) {
    if ts == [] then true
    else from <= ts[0].now <= ts[0].later && ts[0].now <= to && Sequential(ts[1..], ts[0].later, to)
  }

  /** No attempt of the run gets in.  A right password that the lock refuses does not. */
  predicate NoSuccess(p: Policy, a: Account, ts: seq<Attempt>)
    decreases |ts|
  {
    ts != [] ==> !ReplyTo(a, ts[0]).Welcome? && NoSuccess(p, After(p, a, ts[0]), ts[1..])
  }

  /** Below its limit at the start, the counter stays below it through every run. */
  lemma {:induction false} CounterStaysBelow(p: Policy, a: Account, ts: seq<Attempt>)
    requires Sensible(p) && a.failures < p.maxAttempts
    ensures Run(p, a, ts).failures < p.maxAttempts
    decreases |ts|
  {
    if ts != [] { CounterStaysBelow(p, After(p, a, ts[0]), ts[1..]); }
  }

  /** Which reply an attempt gets: a disabled account none but that; a lock that
      has not run out refuses whatever the password; else the password decides. */
  lemma ReplyIff(a: Account, t: Attempt)
    ensures ReplyTo(a, t).Disabled? <==> !a.active
    ensures ReplyTo(a, t).Locked? <==> a.active && a.locked && a.lockedUntil.Some? && t.now < a.lockedUntil.value
    ensures ReplyTo(a, t).Welcome? || ReplyTo(a, t).BadCredentials? <==>
              a.active && !(a.locked && a.lockedUntil.Some? && t.now < a.lockedUntil.value)
    ensures ReplyTo(a, t).Welcome? ==> t.correct
    ensures ReplyTo(a, t).BadCredentials? ==> !t.correct
  {}

  /** Attempts on a disabled account leave no trace. */
  lemma {:induction false} DisabledStays(p: Policy, a: Account, ts: seq<Attempt>)
    requires !a.active
    ensures Run(p, a, ts) == a && FailedChecks(p, a, ts) == 0
    decreases |ts|
  {
    if ts != [] { DisabledStays(p, a, ts[1..]); }
  }

  /** The attempt that reaches the limit locks: until the lockout has run out every
      attempt is refused, and from then on none is. */
  lemma LocksAtLimit(p: Policy, a: Account, t: Attempt, u: Attempt)
    requires ReplyTo(a, t).BadCredentials?
    ensures a.failures + 1 >= p.maxAttempts ==>
              (ReplyTo(After(p, a, t), u).Locked? <==> u.now < t.later + p.lockout)
    ensures a.failures + 1 < p.maxAttempts ==>
              After(p, a, t).failures == a.failures + 1 &&
              (ReplyTo(After(p, a, t), u).Locked? <==> ReplyTo(a, u).Locked?)
  {}

  lemma {:induction false} NotLockedYet(p: Policy, a: Account, ts: seq<Attempt>)
    requires a.active && !a.locked && a.failures + |ts| < p.maxAttempts
    requires forall t | t in ts :: !t.correct
    ensures FailedChecks(p, a, ts) == |ts| && !Run(p, a, ts).locked
    decreases |ts|
  {
    if ts != [] {
      assert ts[0] in ts;
      NotLockedYet(p, After(p, a, ts[0]), ts[1..]);
    }
  }

  /** A success clears everything: it takes a full number of failures again to lock. */
  lemma FreshAfterSuccess(p: Policy, a: Account, t: Attempt, ts: seq<Attempt>)
    requires ReplyTo(a, t).Welcome? && |ts| < p.maxAttempts && forall u | u in ts :: !u.correct
    ensures After(p, a, t).active && After(p, a, t).failures == 0
    ensures FailedChecks(p, After(p, a, t), ts) == |ts| && !Run(p, After(p, a, t), ts).locked
  {
    NotLockedYet(p, After(p, a, t), ts);
  }

  /** The earliest moment at or after `from` at which a password can be checked. */
  function OpensAt(a: Account, from: int): int {
    if a.locked && a.lockedUntil.Some? && from < a.lockedUntil.value then a.lockedUntil.value else from
  }

  /** `n` checks for every lock period begun within a span of length x. */
  function Capacity(n: nat, lockout: nat, x: int): nat
    requires 1 <= lockout
    decreases if x < 0 then 0 else x + 1
  {
    if x < 0 then 0 else n + Capacity(n, lockout, x - lockout)
  }

  lemma {:induction false} CapacityMonotone(n: nat, lockout: nat, x: int, y: int)
    requires 1 <= lockout && x <= y
    ensures Capacity(n, lockout, x) <= Capacity(n, lockout, y)
    decreases if y < 0 then 0 else y + 1
  {
    if 0 <= x { CapacityMonotone(n, lockout, x - lockout, y - lockout); }
  }

  lemma NoGap(l: int, d: int, e: int)
    requires d * l == e && -l < e < l
    ensures d == 0
  {}

  lemma QuotientUnique(l: int, q: int, r: int, x: int)
    requires 0 <= r < l && x == q * l + r
    ensures x / l == q
  {
    var q', r' := x / l, x % l;
    assert x == q' * l + r';
    assert (q - q') * l == r' - r;
    NoGap(l, q - q', r' - r);
  }

  lemma QuotientStep(x: int, l: int)
    requires 1 <= l
    ensures x / l == (x - l) / l + 1
  {
    var q, r := (x - l) / l, (x - l) % l;
    assert (q + 1) * l == q * l + l;
    QuotientUnique(l, q + 1, r, x);
  }

  lemma Distributes(n: int, q: int)
    ensures n * (q + 1) == n * q + n
  {}

  lemma {:induction false} CapacityIs(n: nat, lockout: nat, x: nat)
    requires 1 <= lockout
    ensures Capacity(n, lockout, x) == n * (x / lockout + 1)
    decreases x
  {
    if x < lockout {
      QuotientUnique(lockout, 0, x, x);
    } else {
      CapacityIs(n, lockout, x - lockout);
      QuotientStep(x, lockout);
      Distributes(n, x / lockout);
    }
  }

  /** How many checks can still fail until `to`. */
  function Budget(p: Policy, a: Account, from: int, to: int): int
    requires Sensible(p)
  {
    var open := OpensAt(a, from);
    if to < open then 0 else Capacity(p.maxAttempts, p.lockout, to - open) - a.failures
  }

  /** Every failed check uses up one unit of the budget. */
  lemma StepWithinBudget(p: Policy, a: Account, t: Attempt, from: int, to: int)
    requires Sensible(p) && a.failures < p.maxAttempts && !ReplyTo(a, t).Welcome?
    requires from <= t.now <= t.later && t.now <= to
    ensures After(p, a, t).failures < p.maxAttempts
    ensures (if ReplyTo(a, t).BadCredentials? then 1 else 0) + Budget(p, After(p, a, t), t.later, to)
            <= Budget(p, a, from, to)
  {
    var n, l := p.maxAttempts, p.lockout;
    var open, open' := OpensAt(a, from), OpensAt(After(p, a, t), t.later);
    CapacityMonotone(n, l, to - open', to - open);
    if ReplyTo(a, t).BadCredentials? && a.failures + 1 >= n {
      CapacityMonotone(n, l, to - open', to - open - l);
    }
  }

  lemma {:induction false} WithinBudget(p: Policy, a: Account, ts: seq<Attempt>, from: int, to: int)
    requires Sensible(p) && a.failures < p.maxAttempts
    requires Sequential(ts, from, to) && NoSuccess(p, a, ts)
    ensures FailedChecks(p, a, ts) <= Budget(p, a, from, to)
    decreases |ts|
  {
    if ts != [] {
      var t := ts[0];
      StepWithinBudget(p, a, t, from, to);
      WithinBudget(p, After(p, a, t), ts[1..], t.later, to);
    }
  }

  /** In any window of length T, attempts without a success among them have at
      most max * (floor(T / lockout) + 1) failed password checks. */
  lemma LockoutBound(p: Policy, a: Account, ts: seq<Attempt>, from: int, length: nat)
    requires Sensible(p) && a.failures < p.maxAttempts
    requires Sequential(ts, from, from + length) && NoSuccess(p, a, ts)
    ensures FailedChecks(p, a, ts) <= p.maxAttempts * (length / p.lockout + 1)
  {
    CapacityMonotone(p.maxAttempts, p.lockout, from + length - OpensAt(a, from), length);
    CapacityIs(p.maxAttempts, p.lockout, length);
    WithinBudget(p, a, ts, from, from + length);
  }

  // ── The bound is attained ────────────────────────────────────────────────

  /** `n` wrong passwords at once. */
  function Burst(n: nat, at: int): (r: seq<Attempt>)
    ensures forall t | t in r :: !t.correct
  {
    if n == 0 then [] else [Attempt(at, at, false)] + Burst(n - 1, at)
  }

  /** A full burst whenever the lock has just run out. */
  function Siege(p: Policy, from: int, to: int): (r: seq<Attempt>)
    requires Sensible(p)
    ensures forall t | t in r :: !t.correct
    decreases if to < from then 0 else to - from + 1
  {
    if to < from then [] else Burst(p.maxAttempts, from) + Siege(p, from + p.lockout, to)
  }

  lemma {:induction false} FailedChecksSplit(p: Policy, a: Account, xs: seq<Attempt>, ys: seq<Attempt>)
    ensures FailedChecks(p, a, xs + ys) == FailedChecks(p, a, xs) + FailedChecks(p, Run(p, a, xs), ys)
    decreases |xs|
  {
    if xs == [] {
      assert xs + ys == ys;
    } else {
      assert (xs + ys)[1..] == xs[1..] + ys;
      FailedChecksSplit(p, After(p, a, xs[0]), xs[1..], ys);
    }
  }

  lemma {:induction false} BurstLocks(p: Policy, a: Account, n: nat, at: int)
    requires Sensible(p) && a.active && !Blocked(a, at) && 1 <= n && a.failures + n == p.maxAttempts
    ensures FailedChecks(p, a, Burst(n, at)) == n
    ensures Run(p, a, Burst(n, at)) == a.(failures := 0, locked := true, lockedUntil := Some(at + p.lockout))
    decreases n
  {
    var ts := Burst(n, at);
    assert ts[1..] == Burst(n - 1, at);
    if n > 1 { BurstLocks(p, After(p, a, ts[0]), n - 1, at); }
  }

  /** The schedule stays inside the window. */
  lemma {:induction false} SiegeFits(p: Policy, from: int, to: int, earlier: int)
    requires Sensible(p) && earlier <= from
    ensures Sequential(Siege(p, from, to), earlier, to)
    decreases if to < from then 0 else to - from + 1
  {
    if from <= to {
      SiegeFits(p, from + p.lockout, to, from);
      BurstThen(p.maxAttempts, from, Siege(p, from + p.lockout, to), earlier, to);
    }
  }

  lemma {:induction false} SequentialCons(t: Attempt, ts: seq<Attempt>, from: int, to: int)
    requires from <= t.now <= t.later && t.now <= to && Sequential(ts, t.later, to)
    ensures Sequential([t] + ts, from, to)
  {}

  lemma {:induction false} BurstThen(n: nat, at: int, rest: seq<Attempt>, earlier: int, to: int)
    requires 1 <= n && earlier <= at <= to && Sequential(rest, at, to)
    ensures Sequential(Burst(n, at) + rest, earlier, to)
  {
    var t := Attempt(at, at, false);
    assert Burst(n, at) + rest == [t] + (Burst(n - 1, at) + rest);
    if n == 1 { assert [] + rest == rest; } else { BurstThen(n - 1, at, rest, at, to); }
    SequentialCons(t, Burst(n - 1, at) + rest, earlier, to);
  }

  /** No smaller bound would do: the schedule meets it exactly. */
  lemma {:induction false} LockoutBoundAttained(p: Policy, a: Account, from: int, length: nat)
    requires Sensible(p) && a.active && a.failures == 0 && !Blocked(a, from)
    ensures Sequential(Siege(p, from, from + length), from, from + length)
    ensures forall t | t in Siege(p, from, from + length) :: !t.correct
    ensures NoSuccess(p, a, Siege(p, from, from + length))
    ensures FailedChecks(p, a, Siege(p, from, from + length)) == p.maxAttempts * (length / p.lockout + 1)
  {
    SiegeFits(p, from, from + length, from);
    WrongIsNoSuccess(p, a, Siege(p, from, from + length));
    SiegeCounts(p, a, from, from + length);
    CapacityIs(p.maxAttempts, p.lockout, length);
  }

  lemma {:induction false} WrongIsNoSuccess(p: Policy, a: Account, ts: seq<Attempt>)
    requires forall t | t in ts :: !t.correct
    ensures NoSuccess(p, a, ts)
    decreases |ts|
  {
    if ts != [] {
      assert ts[0] in ts;
      WrongIsNoSuccess(p, After(p, a, ts[0]), ts[1..]);
    }
  }

  lemma {:induction false} SiegeCounts(p: Policy, a: Account, from: int, to: int)
    requires Sensible(p) && a.active && a.failures == 0 && !Blocked(a, from)
    ensures FailedChecks(p, a, Siege(p, from, to)) == Capacity(p.maxAttempts, p.lockout, to - from)
    decreases if to < from then 0 else to - from + 1
  {
    if from <= to {
      var first := Burst(p.maxAttempts, from);
      BurstLocks(p, a, p.maxAttempts, from);
      FailedChecksSplit(p, a, first, Siege(p, from + p.lockout, to));
      SiegeCounts(p, Run(p, a, first), from + p.lockout, to);
    }
  }
}
