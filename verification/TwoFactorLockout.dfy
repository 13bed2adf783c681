/** The in-memory lockout counter in front of TOTP verification. */
module TwoFactorLockout {
  import opened Wrappers

  const MAX_FAILURES: int := 5
  const FAILURE_WINDOW_MS: int := 10 * 60 * 1000
  const LOCK_MS: int := 15 * 60 * 1000

  datatype Action = Verify | Disable | Login | Sensitive

  datatype Attempts = Attempts(failures: int, lastFailedAt: int, lockedUntil: int)

  /** What checking the code yields: the secret may fail to decrypt, which counts neither way. */
  datatype Check = CodeValid | CodeInvalid | SecretUnreadable

  datatype Verdict = NotEnabled | Locked(waitMinutes: int) | Rejected | Unreadable | Accepted

  function ActionName(a: Action): string {
    match a
    case Verify => "verify"
    case Disable => "disable"
    case Login => "login"
    case Sensitive => "sensitive"
  }

  function AttemptKey(userId: string, action: Action): string {
    userId + ":" + ActionName(action)
  }

  /** Different user/action pairs never share a counter. */
  lemma AttemptKeyInjective(u: string, a: Action, v: string, b: Action)
    requires AttemptKey(u, a) == AttemptKey(v, b)
    ensures u == v && a == b
  {
    var s, t := AttemptKey(u, a), AttemptKey(v, b);
    assert s[|s| - 1] == ActionName(a)[|ActionName(a)| - 1];
    assert t[|t| - 1] == ActionName(b)[|ActionName(b)| - 1];
    assert s[|s| - 2] == ActionName(a)[|ActionName(a)| - 2];
    assert t[|t| - 2] == ActionName(b)[|ActionName(b)| - 2];
    assert s[|s| - 3] == ActionName(a)[|ActionName(a)| - 3];
    assert t[|t| - 3] == ActionName(b)[|ActionName(b)| - 3];
    assert a == b;
    assert u == s[..|s| - |ActionName(a)| - 1] == t[..|t| - |ActionName(b)| - 1] == v;
  }

  // ---- One counter, one attempt ------------------------------------------------------

  function CeilMinutes(ms: int): int { (ms + 59_999) / 60_000 }

  /** The check made before the code is looked at: either a lock, or the counter with stale failures dropped. */
  function Admit(state: Option<Attempts>, now: int): Result<Option<Attempts>, int> {
    match state
    case None => Ok(None)
    case Some(s) =>
      if s.lockedUntil > now then
        Err(if CeilMinutes(s.lockedUntil - now) > 1 then CeilMinutes(s.lockedUntil - now) else 1)
      else if now - s.lastFailedAt > FAILURE_WINDOW_MS then Ok(None)
      else Ok(state)
  }

  function Register(state: Option<Attempts>, now: int): Attempts {
    var stale := state.None? || now - state.value.lastFailedAt > FAILURE_WINDOW_MS;
    var failures := if stale then 1 else state.value.failures + 1;
    Attempts(failures, now, if failures >= MAX_FAILURES then now + LOCK_MS else 0)
  }

  /** A whole attempt: checked at one clock reading, its failure recorded at a later one. */
  function Attempt(state: Option<Attempts>, checkedAt: int, recordedAt: int, check: Check)
    : (Option<Attempts>, Verdict)
  {
    match Admit(state, checkedAt)
    case Err(wait) => (state, Locked(wait))
    case Ok(kept) =>
      match check
      case CodeValid => (None, Accepted)
      case CodeInvalid => (Some(Register(kept, recordedAt)), Rejected)
      case SecretUnreadable => (kept, Unreadable)
  }

  /** Failures are being refused at this time. */
  ghost predicate InForce(state: Option<Attempts>, now: int) {
    state.Some? && state.value.lockedUntil > now
  }

  /** The last failure still counts, that is, it lies no more than ten minutes back. */
  ghost predicate Recent(state: Option<Attempts>, now: int) {
    state.Some? && now - state.value.lastFailedAt <= 10 * 60 * 1000
  }

  /** The counter after one more failure: a new one unless the last failure is recent, and locked from the fifth on. */
  ghost predicate CountedOn(was: Option<Attempts>, checkedAt: int, recordedAt: int, now: Attempts) {
    && now.failures == (if Recent(was, checkedAt) && Recent(was, recordedAt) then was.value.failures + 1 else 1)
    && now.lastFailedAt == recordedAt
    && now.lockedUntil == if now.failures >= 5 then recordedAt + 15 * 60 * 1000 else 0
  }

  /** The service's map of counters. */
  class TwoFactorAttempts {
    var attempts: map<string, Attempts>

    constructor ()
      ensures attempts == map[]
    {
      attempts := map[];
    }

    function StateOf(key: string): Option<Attempts>
      reads this
    {
      if key in attempts then Some(attempts[key]) else None
    }

    method AssertAttemptAllowed(userId: string, action: Action, now: int) returns (wait: Option<int>)
      modifies this
      ensures var key := AttemptKey(userId, action);
              match Admit(old(StateOf(key)), now)
              case Err(w) => wait == Some(w) && attempts == old(attempts)
              case Ok(kept) => wait == None && StateOf(key) == kept
      ensures forall k | k != AttemptKey(userId, action) :: StateOf(k) == old(StateOf(k))
    {
      var key := AttemptKey(userId, action);
      if key !in attempts {
        return None;
      }
      var state := attempts[key];
      if state.lockedUntil > now {
        var waitMinutes := CeilMinutes(state.lockedUntil - now);
        return Some(if waitMinutes > 1 then waitMinutes else 1);
      }
      if now - state.lastFailedAt > FAILURE_WINDOW_MS {
        attempts := attempts - {key};
      }
      return None;
    }

    method RegisterFailure(userId: string, action: Action, now: int)
      modifies this
      ensures var key := AttemptKey(userId, action);
              StateOf(key) == Some(Register(old(StateOf(key)), now))
      ensures forall k | k != AttemptKey(userId, action) :: StateOf(k) == old(StateOf(k))
    {
      var key := AttemptKey(userId, action);
      var current := StateOf(key);
      var stale := current.None? || now - current.value.lastFailedAt > FAILURE_WINDOW_MS;
      var failures := if stale then 1 else current.value.failures + 1;
      var lockedUntil := if failures >= MAX_FAILURES then now + LOCK_MS else 0;
      attempts := attempts[key := Attempts(failures, now, lockedUntil)];
    }

    method ClearFailures(userId: string, action: Action)
      modifies this
      ensures StateOf(AttemptKey(userId, action)) == None
      ensures forall k | k != AttemptKey(userId, action) :: StateOf(k) == old(StateOf(k))
    {
      attempts := attempts - {AttemptKey(userId, action)};
    }

    /** The synchronous TOTP path: nothing interleaves between its three steps. */
    method VerifyTotp(userId: string, storedSecret: Option<string>, action: Action,
                      checkedAt: int, recordedAt: int, check: Check) returns (verdict: Verdict)
      modifies this
      ensures var key := AttemptKey(userId, action);
              if storedSecret == None || storedSecret == Some("") then
                verdict == NotEnabled && attempts == old(attempts)
              else (StateOf(key), verdict) == Attempt(old(StateOf(key)), checkedAt, recordedAt, check)
      ensures verdict == NotEnabled <==> storedSecret == None || storedSecret == Some("")
      ensures verdict.Locked? <==> verdict != NotEnabled && InForce(old(StateOf(AttemptKey(userId, action))), checkedAt)
      ensures var admitted := verdict != NotEnabled && !InForce(old(StateOf(AttemptKey(userId, action))), checkedAt);
              && (verdict == Accepted <==> admitted && check == CodeValid)
              && (verdict == Rejected <==> admitted && check == CodeInvalid)
              && (verdict == Unreadable <==> admitted && check == SecretUnreadable)
      ensures var was, now := old(StateOf(AttemptKey(userId, action))), StateOf(AttemptKey(userId, action));
              match verdict
              case NotEnabled => now == was
              case Locked(wait) =>
                now == was && 60_000 * (wait - 1) < was.value.lockedUntil - checkedAt <= 60_000 * wait
              case Accepted => now == None
              case Rejected => now.Some? && CountedOn(was, checkedAt, recordedAt, now.value)
              case Unreadable => now == if Recent(was, checkedAt) then was else None
      ensures forall u, a | (u, a) != (userId, action) :: StateOf(AttemptKey(u, a)) == old(StateOf(AttemptKey(u, a)))
    {
      forall u, a | (u, a) != (userId, action) ensures AttemptKey(u, a) != AttemptKey(userId, action) {
        if AttemptKey(u, a) == AttemptKey(userId, action) {
          AttemptKeyInjective(u, a, userId, action);
        }
      }
      if storedSecret == None || storedSecret == Some("") {
        return NotEnabled;
      }
      var wait := AssertAttemptAllowed(userId, action, checkedAt);
      if wait.Some? {
        return Locked(wait.value);
      }
      match check {
        case SecretUnreadable =>
          return Unreadable;
        case CodeInvalid =>
          RegisterFailure(userId, action, recordedAt);
          return Rejected;
        case CodeValid =>
          ClearFailures(userId, action);
          return Accepted;
      }
    }
  }

  // ---- Runs on one counter -----------------------------------------------------------

  datatype Try = Try(checkedAt: int, recordedAt: int, check: Check)

  /** The clock never goes back, within an attempt or between attempts. */
  ghost predicate Chronological(tries: seq<Try>, from: int) {
    tries == [] || (from <= tries[0].checkedAt <= tries[0].recordedAt && Chronological(tries[1..], tries[0].recordedAt))
  }

  ghost function FinalState(state: Option<Attempts>, tries: seq<Try>): Option<Attempts>
    decreases tries
  {
    if tries == [] then state
    else FinalState(Attempt(state, tries[0].checkedAt, tries[0].recordedAt, tries[0].check).0, tries[1..])
  }

  /** When the run's admitted failures were recorded. */
  ghost function AdmittedFailures(state: Option<Attempts>, tries: seq<Try>): seq<int>
    decreases tries
  {
    if tries == [] then []
    else
      var (next, verdict) := Attempt(state, tries[0].checkedAt, tries[0].recordedAt, tries[0].check);
      (if verdict == Rejected then [tries[0].recordedAt] else []) + AdmittedFailures(next, tries[1..])
  }

  /** What every stored counter satisfies at time now. */
  ghost predicate Sound(state: Option<Attempts>, now: int) {
    state.Some? ==>
      var s := state.value;
      && 1 <= s.failures <= MAX_FAILURES
      && s.lastFailedAt <= now
      && s.lockedUntil == if s.failures == MAX_FAILURES then s.lastFailedAt + LOCK_MS else 0
  }

  lemma AttemptKeepsSound(state: Option<Attempts>, t: Try, from: int)
    requires 0 <= from <= t.checkedAt <= t.recordedAt && Sound(state, from)
    ensures Sound(Attempt(state, t.checkedAt, t.recordedAt, t.check).0, t.recordedAt)
  {
  }

  /** A run never stores more than five failures, and a full counter is locked for fifteen minutes after the last. */
  lemma {:induction false} RunKeepsSound(state: Option<Attempts>, tries: seq<Try>, from: int, until: int)
    requires 0 <= from && Sound(state, from) && Chronological(tries, from)
    requires tries == [] ==> from <= until
    requires tries != [] ==> tries[|tries| - 1].recordedAt <= until
    ensures Sound(FinalState(state, tries), until)
    decreases tries
  {
    if tries != [] {
      AttemptKeepsSound(state, tries[0], from);
      RunKeepsSound(Attempt(state, tries[0].checkedAt, tries[0].recordedAt, tries[0].check).0, tries[1..],
                    tries[0].recordedAt, until);
    }
  }

  ghost predicate NoSuccess(tries: seq<Try>) {
    forall t | t in tries :: t.check != CodeValid
  }

  ghost predicate Ascending(f: seq<int>, from: int) {
    && (forall i | 0 <= i < |f| :: from <= f[i])
    && (forall i, j | 0 <= i <= j < |f| :: f[i] <= f[j])
  }

  lemma {:induction false} FailuresChronological(state: Option<Attempts>, tries: seq<Try>, from: int)
    requires Chronological(tries, from)
    ensures Ascending(AdmittedFailures(state, tries), from)
    decreases tries
  {
    if tries != [] {
      var (next, verdict) := Attempt(state, tries[0].checkedAt, tries[0].recordedAt, tries[0].check);
      FailuresChronological(next, tries[1..], tries[0].recordedAt);
    }
  }

  /** How many more admitted failures fit before the counter is full; the next one must wait out the window. */
  lemma {:induction false} FullCounterWaits(state: Option<Attempts>, tries: seq<Try>, from: int, last: int, left: nat)
    requires 0 <= from && Sound(state, from) && Chronological(tries, from) && NoSuccess(tries) && last <= from
    requires match state
             case Some(s) => s.lastFailedAt == last && s.failures + left == MAX_FAILURES
             case None => from - last > FAILURE_WINDOW_MS
    requires left < |AdmittedFailures(state, tries)|
    ensures AdmittedFailures(state, tries)[left] - last > FAILURE_WINDOW_MS
    decreases tries
  {
    FailuresChronological(state, tries, from);
    if state.Some? {
      var t, rest := tries[0], tries[1..];
      assert t in tries;
      assert NoSuccess(rest);
      var (next, verdict) := Attempt(state, t.checkedAt, t.recordedAt, t.check);
      AttemptKeepsSound(state, t, from);
      FailuresChronological(next, rest, t.recordedAt);
      if verdict != Rejected {
        FullCounterWaits(next, rest, t.recordedAt, last, left);
      } else if t.recordedAt - last <= FAILURE_WINDOW_MS {
        FullCounterWaits(next, rest, t.recordedAt, t.recordedAt, left - 1);
      }
    }
  }

  /** Any six consecutive admitted failures span more than the failure window. */
  lemma {:induction false} SixFailuresSpan(state: Option<Attempts>, tries: seq<Try>, from: int, i: nat)
    requires 0 <= from && Sound(state, from) && Chronological(tries, from) && NoSuccess(tries)
    requires i + MAX_FAILURES < |AdmittedFailures(state, tries)|
    ensures var f := AdmittedFailures(state, tries); f[i + MAX_FAILURES] - f[i] > FAILURE_WINDOW_MS
    decreases tries
  {
    var t, rest := tries[0], tries[1..];
    assert forall x | x in rest :: x in tries;
    var (next, verdict) := Attempt(state, t.checkedAt, t.recordedAt, t.check);
    AttemptKeepsSound(state, t, from);
    if verdict != Rejected {
      SixFailuresSpan(next, rest, t.recordedAt, i);
    } else if i > 0 {
      SixFailuresSpan(next, rest, t.recordedAt, i - 1);
    } else {
      var left := MAX_FAILURES - next.value.failures;
      FullCounterWaits(next, rest, t.recordedAt, t.recordedAt, left);
      FailuresChronological(next, rest, t.recordedAt);
    }
  }

  lemma {:induction false} ManyFailuresSpan(state: Option<Attempts>, tries: seq<Try>, from: int, i: nat, k: nat)
    requires 0 <= from && Sound(state, from) && Chronological(tries, from) && NoSuccess(tries)
    requires i + MAX_FAILURES * k < |AdmittedFailures(state, tries)|
    ensures var f := AdmittedFailures(state, tries); f[i + MAX_FAILURES * k] - f[i] >= (FAILURE_WINDOW_MS + 1) * k
  {
    if k > 0 {
      ManyFailuresSpan(state, tries, from, i, k - 1);
      SixFailuresSpan(state, tries, from, i + MAX_FAILURES * (k - 1));
    }
  }

  /**
   * The attempt bound: the admitted failures number i to j - 1, if they all fall within some span of W
   * milliseconds, number at most 5 * (floor(W / 600000) + 1).
   */
  lemma AttemptBound(state: Option<Attempts>, tries: seq<Try>, from: int, i: nat, j: nat, W: nat)
    requires 0 <= from && Sound(state, from) && Chronological(tries, from) && NoSuccess(tries)
    requires i < j <= |AdmittedFailures(state, tries)|
    requires var f := AdmittedFailures(state, tries); f[j - 1] - f[i] <= W
    ensures j - i <= MAX_FAILURES * (W / FAILURE_WINDOW_MS + 1)
  {
    var k := W / FAILURE_WINDOW_MS + 1;
    BeyondWindow(W, k);
    if j - i > MAX_FAILURES * k {
      ManyFailuresSpan(state, tries, from, i, k);
      FailuresChronological(state, tries, from);
      hide AdmittedFailures, Chronological, Sound, NoSuccess;
      assert false;
    }
  }

  lemma BeyondWindow(W: nat, k: nat)
    requires k == W / FAILURE_WINDOW_MS + 1
    ensures (FAILURE_WINDOW_MS + 1) * k > W
  {
  }

  // ---- What a lock stands for --------------------------------------------------------

  ghost function Verdicts(state: Option<Attempts>, tries: seq<Try>): (v: seq<Verdict>)
    ensures |v| == |tries|
    decreases tries
  {
    if tries == [] then []
    else
      var (next, verdict) := Attempt(state, tries[0].checkedAt, tries[0].recordedAt, tries[0].check);
      [verdict] + Verdicts(next, tries[1..])
  }

  lemma {:induction false} OneMoreTry(state: Option<Attempts>, tries: seq<Try>, t: Try)
    ensures var (next, verdict) := Attempt(FinalState(state, tries), t.checkedAt, t.recordedAt, t.check);
            FinalState(state, tries + [t]) == next && Verdicts(state, tries + [t]) == Verdicts(state, tries) + [verdict]
    decreases tries
  {
    if tries == [] {
      assert [t][1..] == [] && [] + [t] == [t];
    } else {
      assert (tries + [t])[1..] == tries[1..] + [t];
      OneMoreTry(Attempt(state, tries[0].checkedAt, tries[0].recordedAt, tries[0].check).0, tries[1..], t);
    }
  }

  /**
   * The tries at these places, and no others since the first of them, were admitted and failed, each within ten minutes
   * of the one before, and nothing was accepted since.
   */
  ghost predicate FailedAt(tries: seq<Try>, verdicts: seq<Verdict>, places: seq<nat>)
    requires |verdicts| == |tries|
  {
    && places != []
    && (forall k | 0 <= k < |places| :: places[k] < |tries|)
    && (forall k | 0 < k < |places| ::
          && places[k - 1] < places[k]
          && tries[places[k]].recordedAt - tries[places[k - 1]].recordedAt <= 10 * 60 * 1000)
    && (forall j | places[0] <= j < |tries| :: verdicts[j] != Accepted && (verdicts[j] == Rejected <==> j in places))
  }

  ghost predicate Accounts(tries: seq<Try>, verdicts: seq<Verdict>, places: seq<nat>, s: Attempts)
    requires |verdicts| == |tries|
  {
    && FailedAt(tries, verdicts, places)
    && s.failures == |places| <= 5 && s.lastFailedAt == tries[places[|places| - 1]].recordedAt
    && s.lockedUntil == if s.failures == 5 then s.lastFailedAt + 15 * 60 * 1000 else 0
  }

  lemma UncountedTry(tries: seq<Try>, verdicts: seq<Verdict>, places: seq<nat>, t: Try, verdict: Verdict)
    requires |verdicts| == |tries| && FailedAt(tries, verdicts, places) && verdict != Accepted && verdict != Rejected
    ensures FailedAt(tries + [t], verdicts + [verdict], places)
  {
  }

  lemma FirstFailure(tries: seq<Try>, verdicts: seq<Verdict>, t: Try)
    requires |verdicts| == |tries|
    ensures FailedAt(tries + [t], verdicts + [Rejected], [|tries|])
  {
  }

  lemma NextFailure(tries: seq<Try>, verdicts: seq<Verdict>, places: seq<nat>, t: Try)
    requires |verdicts| == |tries| && FailedAt(tries, verdicts, places)
    requires t.recordedAt - tries[places[|places| - 1]].recordedAt <= 10 * 60 * 1000
    ensures FailedAt(tries + [t], verdicts + [Rejected], places + [|tries|])
  {
    var all, v, now := tries + [t], verdicts + [Rejected], places + [|tries|];
    assert forall k | 0 <= k < |places| :: now[k] == places[k] && all[now[k]] == tries[places[k]];
    forall j | now[0] <= j < |all| ensures v[j] != Accepted && (v[j] == Rejected <==> j in now) {
      assert now[|places|] == |tries|;
      if j < |tries| {
        assert v[j] == verdicts[j];
        assert j in now <==> j in places;
      }
    }
  }

  /** Every stored counter stands for as many admitted failures, the last at its time, with no success in between. */
  lemma {:induction false} CounterEarned(tries: seq<Try>) returns (places: seq<nat>)
    requires FinalState(None, tries).Some?
    ensures Accounts(tries, Verdicts(None, tries), places, FinalState(None, tries).value)
  {
    var n := |tries| - 1;
    var front, t := tries[..n], tries[n];
    assert tries == front + [t];
    OneMoreTry(None, front, t);
    var before, v := FinalState(None, front), Verdicts(None, front);
    var (after, verdict) := Attempt(before, t.checkedAt, t.recordedAt, t.check);
    if before.Some? {
      places := CounterEarned(front);
    }
    hide FailedAt, FinalState, Verdicts;
    if verdict != Rejected {
      UncountedTry(front, v, places, t, verdict);
    } else if after.value.failures == 1 {
      FirstFailure(front, v, t);
      places := [n];
    } else {
      NextFailure(front, v, places, t);
      places := places + [n];
    }
  }

  /**
   * A lock was earned: whenever one is stored, five tries were admitted and failed, the fifth fifteen minutes before
   * the lock ends, each at most ten minutes after the one before, and no try between the first and now was accepted.
   */
  lemma LockEarned(tries: seq<Try>)
    requires FinalState(None, tries).Some? && FinalState(None, tries).value.lockedUntil != 0
    ensures exists places: seq<nat> ::
              && |places| == 5 && FailedAt(tries, Verdicts(None, tries), places)
              && FinalState(None, tries).value.lockedUntil == tries[places[4]].recordedAt + 15 * 60 * 1000
  {
    var places := CounterEarned(tries);
    hide FailedAt, Verdicts, FinalState;
    assert |places| == 5;
  }

  /** While a full counter's lock lasts nothing is admitted, whatever code is offered. */
  lemma {:induction false} LockHolds(state: Option<Attempts>, tries: seq<Try>)
    requires state.Some? && forall t | t in tries :: t.checkedAt < state.value.lockedUntil
    ensures AdmittedFailures(state, tries) == [] && FinalState(state, tries) == state
  {
    if tries != [] {
      assert tries[0] in tries;
      LockHolds(state, tries[1..]);
    }
  }
}
