/** Failed-login lockout (verifyCredentials in backend/src/stores/auth.store.ts with
    recordFailure of backend/src/queries/auth.queries.ts). */
module Lockout {
  import opened Modular
  import opened Wrappers

  datatype AuthConfig = AuthConfig(maxFailedLogins: int, lockoutMs: int)

  datatype Principal = Principal(failedLogins: nat, lockedUntil: Option<int>)

  datatype Outcome = Locked | Wrong | Right

  /** One attempt: locked out before the password is looked at, or counted. */
  function Attempt(config: AuthConfig, p: Principal, good: bool, now: int): (Outcome, Principal)
  {
    if p.lockedUntil.Some? && p.lockedUntil.value > now then (Locked, p)
    else if good then (Right, Principal(0, None))
    else
      var failures := p.failedLogins + 1;
      (Wrong, Principal(failures, LockAfter(config, failures, now)))
  }

  function LockAfter(config: AuthConfig, failures: nat, now: int): Option<int>
  {
    if failures >= config.maxFailedLogins then Some(now + config.lockoutMs) else None
  }

  /** Wrong attempts at the given times: the principal afterwards and the times at which a
      password was actually checked. */
  function Checks(config: AuthConfig, p: Principal, times: seq<int>): (Principal, seq<int>)
  {
    if times == [] then (p, [])
    else
      var (before, checked) := Checks(config, p, times[..|times| - 1]);
      var now := times[|times| - 1];
      var (outcome, after) := Attempt(config, before, false, now);
      (after, if outcome == Wrong then checked + [now] else checked)
  }

  ghost predicate Sorted(times: seq<int>)
  {
    forall i, j :: 0 <= i < j < |times| ==> times[i] <= times[j]
  }

  /** After n checks from p: the counter, and the lock that the last check set. */
  ghost predicate Tracks(config: AuthConfig, p: Principal, after: Principal, checked: seq<int>)
  {
    && after.failedLogins == p.failedLogins + |checked|
    && (checked == [] ==> after == p)
    && (checked != [] ==> after.lockedUntil == LockAfter(config, p.failedLogins + |checked|, checked[|checked| - 1]))
  }

  /** Once the counter has reached the limit, checks are at least a lockout apart. */
  ghost predicate Spaced(config: AuthConfig, p: Principal, checked: seq<int>)
  {
    forall i :: 0 <= i < |checked| - 1 && p.failedLogins + i + 1 >= config.maxFailedLogins ==>
      checked[i] + config.lockoutMs <= checked[i + 1]
  }

  lemma {:induction false} ChecksTrack(config: AuthConfig, p: Principal, times: seq<int>)
    requires Sorted(times)
    ensures var (after, checked) := Checks(config, p, times);
      && Tracks(config, p, after, checked) && Spaced(config, p, checked) && Sorted(checked)
      && (forall i :: 0 <= i < |checked| ==> times != [] && checked[i] <= times[|times| - 1])
  {
    if times != [] { ChecksTrack(config, p, times[..|times| - 1]); }
  }

  /** Checks i .. j of a run, all past the limit, take at least (j - i) lockouts. */
  lemma {:induction false} SpanOf(config: AuthConfig, p: Principal, checked: seq<int>, i: nat, j: nat)
    requires Spaced(config, p, checked) && i <= j < |checked|
    requires p.failedLogins + i + 1 >= config.maxFailedLogins
    ensures checked[i] + (j - i) * config.lockoutMs <= checked[j]
  {
    if i < j {
      SpanOf(config, p, checked, i, j - 1);
      assert (j - i) * config.lockoutMs == (j - 1 - i) * config.lockoutMs + config.lockoutMs;
    }
  }

  lemma {:induction false} DivAtLeast(n: nat, l: int, t: int)
    requires l > 0 && n * l <= t
    ensures n <= t / l
  {
    var r := t - n * l;
    assert r == (r / l) * l + r % l;
    assert (n + r / l) * l == n * l + (r / l) * l;
    ModIs(t, r % l, n + r / l, l);
  }

  /** However an attacker spaces wrong guesses, the number that are actually checked within
      any stretch of T milliseconds is at most the failure limit (at least one) plus one per
      full lockout period in T. i and j are the first and last check of the stretch. */
  lemma {:induction false} GuessesBounded(config: AuthConfig, p: Principal, times: seq<int>, i: nat, j: nat, span: int)
    requires Sorted(times) && config.lockoutMs > 0
    requires var checked := Checks(config, p, times).1;
      i <= j < |checked| && checked[j] - checked[i] <= span
    ensures var limit := if config.maxFailedLogins > 1 then config.maxFailedLogins else 1;
      j - i + 1 <= limit + span / config.lockoutMs
  {
    var checked := Checks(config, p, times).1;
    ChecksTrack(config, p, times);
    assert checked[i] <= checked[j];
    var limit := if config.maxFailedLogins > 1 then config.maxFailedLogins else 1;
    var m := if limit - 1 > i then limit - 1 else i;
    if m <= j {
      SpanOf(config, p, checked, m, j);
      assert checked[i] <= checked[m];
      DivAtLeast(j - m, config.lockoutMs, span);
    } else {
      DivAtLeast(0, config.lockoutMs, span);
    }
  }

  /** Guesses i to j of a run all fall within a span. */
  ghost predicate Within(config: AuthConfig, p: Principal, times: seq<int>, i: nat, j: nat, span: int)
  {
    var checked := Checks(config, p, times).1;
    Sorted(times) && i <= j < |checked| && checked[j] - checked[i] <= span
  }

  /** The bound with the configured limit itself: limit plus whole lockouts. */
  ghost predicate PlainBound(config: AuthConfig)
    requires config.lockoutMs > 0
  {
    forall p: Principal, times: seq<int>, i: nat, j: nat, span: int :: Within(config, p, times, i, j, span) ==>
      j - i + 1 <= config.maxFailedLogins + span / config.lockoutMs
  }

  /** It holds if and only if the limit is at least one: the lock comes after the check, so
      one guess is always made. */
  lemma {:induction false} PlainBoundExactly(config: AuthConfig)
    requires config.lockoutMs > 0
    ensures PlainBound(config) <==> config.maxFailedLogins >= 1
  {
    if config.maxFailedLogins >= 1 {
      forall p: Principal, times: seq<int>, i: nat, j: nat, span: int | Within(config, p, times, i, j, span)
        ensures j - i + 1 <= config.maxFailedLogins + span / config.lockoutMs
      {
        GuessesBounded(config, p, times, i, j, span);
      }
    } else {
      var p, times := Principal(0, None), [0];
      assert times[..0] == [];
      assert Checks(config, p, times).1 == [] + [0] == [0];
      assert Within(config, p, times, 0, 0, 0);
      assert 0 / config.lockoutMs == 0;
    }
  }

  /** While locked, a right password is refused like a wrong one; otherwise it is accepted. */
  lemma {:induction false} RightPassword(config: AuthConfig, p: Principal, now: int)
    ensures var locked := p.lockedUntil.Some? && now < p.lockedUntil.value;
      && (locked ==> Attempt(config, p, true, now) == Attempt(config, p, false, now) == (Locked, p))
      && (!locked ==> Attempt(config, p, true, now).0 == Right && Attempt(config, p, false, now).0 == Wrong)
  {
  }

  /** An accepted password gives all guesses back: as many wrong ones as the limit allows, at
      any times, are checked afterwards. */
  lemma {:induction false} RightPasswordResets(config: AuthConfig, p: Principal, now: int, times: seq<int>)
    requires Attempt(config, p, true, now).0 == Right
    requires |times| <= if config.maxFailedLogins > 1 then config.maxFailedLogins else 1
    ensures Checks(config, Attempt(config, p, true, now).1, times).1 == times
  {
    FreshGuesses(config, times);
  }

  lemma {:induction false} FreshGuesses(config: AuthConfig, times: seq<int>)
    requires |times| <= if config.maxFailedLogins > 1 then config.maxFailedLogins else 1
    ensures var (after, checked) := Checks(config, Principal(0, None), times);
      && checked == times && after.failedLogins == |times|
      && (|times| < config.maxFailedLogins ==> after.lockedUntil == None)
      && (times == [] ==> after == Principal(0, None))
  {
    if times != [] {
      var n := |times| - 1;
      FreshGuesses(config, times[..n]);
      assert times == times[..n] + [times[n]];
    }
  }

  /** After a wrong guess at t the next attempt, right or wrong, is turned away if and only if
      the limit was reached and it comes before t plus the lockout. */
  lemma {:induction false} LockedExactly(config: AuthConfig, p: Principal, t: int, u: int, good: bool)
    requires Attempt(config, p, false, t).0 == Wrong
    ensures var after := Attempt(config, p, false, t).1;
      Attempt(config, after, good, u).0 == Locked
      <==> p.failedLogins + 1 >= config.maxFailedLogins && u < t + config.lockoutMs
  {
  }
}
