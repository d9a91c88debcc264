/**
 The TOTP manager: enrollment, confirmation, verification and revocation of
 time-based factors (RFC 6238) over an uninterpreted code function.
 */
module Totp {
  import opened Strings
  import opened Attempts

  datatype Status = Pending | Active | Revoked

  datatype Record = Record(tenant: string, user: string, status: Status, lastUsed: Option<nat>, sealed: string)

  datatype Config = Config(
    limits: Limits, periodSeconds: nat, digits: nat, window: nat,
    codeAt: (string, nat) -> string,       // HOTP code of a secret at a counter
    unseal: string -> Option<string>)      // the secret protector, `None` when it throws

  predicate ValidConfig(c: Config) {
    ValidLimits(c.limits) && 15 <= c.periodSeconds <= 300 && 6 <= c.digits <= 8 && c.window <= 2
  }

  datatype State = State(factors: map<string, Record>, attempts: map<string, Attempt>)

  datatype Reason =
    | FactorNotFound | ScopeViolation | NotAuthorized | FactorExists
    | FactorRevoked | FactorNotActive | AlreadyActive
    | InvalidCode | RateLimitedOrLocked | SecretUnavailable | ReplayedCode

  datatype Verdict = Verified(counter: nat) | Done | Refusal(reason: Reason)

  datatype Call =
    | Enroll(id: string, tenant: string, user: string, sealed: string)
    | Confirm(id: string, tenant: string, user: string, code: string, now: nat, admitted: bool)
    | Verify(id: string, tenant: string, user: string, code: string, now: nat, admitted: bool)
    | Revoke(id: string, tenant: string, user: string, authorized: bool, now: nat)

  function WithAttempt(attempts: map<string, Attempt>, id: string, a: Option<Attempt>): (r: map<string, Attempt>)
    ensures forall k :: k != id ==> (k in r <==> k in attempts) && (k in r ==> r[k] == attempts[k])
    ensures id in r <==> a.Some?
    ensures a.Some? ==> r[id] == a.value
  {
    match a case Some(x) => attempts[id := x] case None => attempts - {id}
  }

  lemma WithAttemptSame(m: map<string, Attempt>, id: string, a: Option<Attempt>)
    requires a == if id in m then Some(m[id]) else None
    ensures WithAttempt(m, id, a) == m
  {
  }

  lemma WithAttemptNone(m: map<string, Attempt>, id: string)
    ensures WithAttempt(m, id, None) == m - {id}
  {
  }

  lemma WithAttemptTwice(m: map<string, Attempt>, id: string, a: Option<Attempt>, b: Option<Attempt>)
    ensures WithAttempt(WithAttempt(m, id, a), id, b) == WithAttempt(m, id, b)
  {
  }

  predicate WellFormedCode(code: string, digits: nat) { |code| == digits && AllDigits(code) }

  /** The first counter in `from..last` whose code is the given one. */
  function FirstMatch(c: Config, secret: string, code: string, from: int, last: int): (r: Option<nat>)
    ensures r.Some? ==> from <= r.value <= last && c.codeAt(secret, r.value) == code
    decreases last - from + 1
  {
    if from > last then None
    else if from >= 0 && c.codeAt(secret, from) == code then Some(from)
    else FirstMatch(c, secret, code, from + 1, last)
  }

  function CounterAt(c: Config, now: nat): (n: nat)
    requires c.periodSeconds > 0
  {
    now / 1000 / c.periodSeconds
  }

  datatype Evaluation = Evaluation(record: Record, attempt: Option<Attempt>, verdict: Verdict, event: Event)

  /** `evaluate`: the record and the counter afterwards, the answer, and what happened. */
  function Evaluated(c: Config, rec: Record, a: Option<Attempt>, code: string, now: nat, admitted: bool,
    allowPending: bool): (r: Evaluation)
    requires ValidConfig(c)
  {
    if rec.status.Revoked? then Evaluation(rec, a, Refusal(FactorRevoked), Silent)
    else if !allowPending && !rec.status.Active? then Evaluation(rec, a, Refusal(FactorNotActive), Silent)
    else if !WellFormedCode(code, c.digits) then
      Evaluation(rec, Some(Failed(c.limits, a, now)), Refusal(InvalidCode), Unchecked)
    else if Locked(a, now) then
      Evaluation(rec, Some(Failed(c.limits, a, now)), Refusal(RateLimitedOrLocked), Refused)
    else
      var cleared := Cleared(a, now);
      var failed := Some(Failed(c.limits, cleared, now));
      if !admitted then Evaluation(rec, failed, Refusal(RateLimitedOrLocked), Refused)
      else match c.unseal(rec.sealed)
        case None => Evaluation(rec, failed, Refusal(SecretUnavailable), Uncompared)
        case Some(secret) =>
          var current := CounterAt(c, now);
          match FirstMatch(c, secret, code, current - c.window, current + c.window)
          case None => Evaluation(rec, failed, Refusal(InvalidCode), Mismatch)
          case Some(counter) =>
            if rec.lastUsed.Some? && counter <= rec.lastUsed.value
            then Evaluation(rec, failed, Refusal(ReplayedCode), Mismatch)
            else Evaluation(rec.(lastUsed := Some(counter)), None, Verified(counter), Match)
  }

  datatype Outcome = Outcome(state: State, verdict: Verdict, event: Event)

  function Unchanged(s: State, reason: Reason): (o: Outcome) { Outcome(s, Refusal(reason), Silent) }

  function InScope(s: State, call: Call): (b: bool)
    requires call.id in s.factors
  {
    s.factors[call.id].tenant == call.tenant && s.factors[call.id].user == call.user
  }

  function Stored(s: State, id: string, e: Evaluation): (t: State) {
    State(s.factors[id := e.record], WithAttempt(s.attempts, id, e.attempt))
  }

  function Apply(c: Config, s: State, call: Call): (o: Outcome)
    requires ValidConfig(c)
  {
    match call
    case Enroll(id, tenant, user, sealed) =>
      if id in s.factors then Unchanged(s, FactorExists)
      else Outcome(State(s.factors[id := Record(tenant, user, Pending, None, sealed)], s.attempts), Done, Silent)
    case Confirm(id, _, _, code, now, admitted) =>
      if id !in s.factors then Unchanged(s, FactorNotFound)
      else if !InScope(s, call) then Unchanged(s, ScopeViolation)
      else if s.factors[id].status.Revoked? then Unchanged(s, FactorRevoked)
      else if s.factors[id].status.Active? then Unchanged(s, AlreadyActive)
      else
        var e := Evaluated(c, s.factors[id], AttemptOf(s.attempts, id), code, now, admitted, true);
        var t := Stored(s, id, e);
        if e.verdict.Verified? then
          Outcome(t.(factors := t.factors[id := t.factors[id].(status := Active)]), e.verdict, e.event)
        else Outcome(t, e.verdict, e.event)
    case Verify(id, _, _, code, now, admitted) =>
      if id !in s.factors then Unchanged(s, FactorNotFound)
      else if !InScope(s, call) then Unchanged(s, ScopeViolation)
      else
        var e := Evaluated(c, s.factors[id], AttemptOf(s.attempts, id), code, now, admitted, false);
        Outcome(Stored(s, id, e), e.verdict, e.event)
    case Revoke(id, _, _, authorized, now) =>
      if id !in s.factors then Unchanged(s, FactorNotFound)
      else if !InScope(s, call) then Unchanged(s, ScopeViolation)
      else if !authorized then Unchanged(s, NotAuthorized)
      else
        Outcome(State(s.factors[id := s.factors[id].(status := Revoked)], s.attempts - {id}), Done, Dropped)
  }

  // ------------------------------------------------------ the manager object

  class Manager {
    const config: Config
    var factors: map<string, Record>
    var attempts: map<string, Attempt>

    constructor (config: Config)
      requires ValidConfig(config)
      ensures this.config == config && factors == map[] && attempts == map[]
    {
      this.config := config;
      factors, attempts := map[], map[];
    }

    function Abs(): (s: State) reads this { State(factors, attempts) }

    method EmitFailure(id: string, now: nat)
      modifies this`attempts
      ensures attempts == WithAttempt(old(attempts), id, Some(Failed(config.limits, old(AttemptOf(attempts, id)), now)))
    {
      var previous := if id in attempts then attempts[id] else Attempt(0, 0);
      var failed := previous.failed + 1;
      var lockedUntil := if failed >= config.limits.maxFailures then now + config.limits.lockoutMs
        else previous.lockedUntil;
      attempts := attempts[id := Attempt(failed, lockedUntil)];
    }

    method AllowAttempt(id: string, now: nat, admitted: bool) returns (allowed: bool)
      modifies this`attempts
      ensures var a := old(AttemptOf(attempts, id));
              && allowed == (!Locked(a, now) && admitted)
              && attempts == if Locked(a, now) then old(attempts) else WithAttempt(old(attempts), id, Cleared(a, now))
    {
      if id in attempts && attempts[id].lockedUntil > now { return false; }
      if id in attempts && attempts[id].lockedUntil != 0 && attempts[id].lockedUntil <= now {
        attempts := attempts - {id};
      }
      allowed := admitted;
    }

    method Evaluate(id: string, code: string, now: nat, admitted: bool, allowPending: bool) returns (verdict: Verdict)
      requires ValidConfig(config) && id in factors
      modifies this
      ensures var e := Evaluated(config, old(factors[id]), old(AttemptOf(attempts, id)), code, now, admitted,
        allowPending);
              verdict == e.verdict && Abs() == Stored(old(Abs()), id, e)
    {
      hide FirstMatch, Failed, Cleared, Locked, CounterAt, WellFormedCode, WithAttempt;
      var rec := factors[id];
      ghost var before := attempts;
      ghost var a := AttemptOf(attempts, id);
      ghost var cleared := Cleared(a, now);
      WithAttemptSame(before, id, a);
      WithAttemptTwice(before, id, cleared, Some(Failed(config.limits, cleared, now)));
      WithAttemptTwice(before, id, cleared, None);
      assert factors == factors[id := rec];
      if rec.status.Revoked? { return Refusal(FactorRevoked); }
      if !allowPending && !rec.status.Active? { return Refusal(FactorNotActive); }
      if !WellFormedCode(code, config.digits) {
        EmitFailure(id, now);
        return Refusal(InvalidCode);
      }
      var allowed := AllowAttempt(id, now, admitted);
      if !allowed {
        EmitFailure(id, now);
        return Refusal(RateLimitedOrLocked);
      }
      var secret := config.unseal(rec.sealed);
      if secret.None? {
        EmitFailure(id, now);
        return Refusal(SecretUnavailable);
      }
      var matched := FindCounter(secret.value, code, CounterAt(config, now));
      if matched.None? {
        EmitFailure(id, now);
        return Refusal(InvalidCode);
      }
      if rec.lastUsed.Some? && matched.value <= rec.lastUsed.value {
        EmitFailure(id, now);
        return Refusal(ReplayedCode);
      }
      WithAttemptNone(attempts, id);
      attempts := attempts - {id};
      factors := factors[id := rec.(lastUsed := matched)];
      verdict := Verified(matched.value);
    }

    /** The loop over the time window. */
    method FindCounter(secret: string, code: string, current: nat) returns (matched: Option<nat>)
      ensures matched == FirstMatch(config, secret, code, current - config.window, current + config.window)
    {
      var offset: int := 0 - config.window;
      while offset <= config.window
        invariant 0 - config.window <= offset <= config.window + 1
        invariant FirstMatch(config, secret, code, current - config.window, current + config.window)
                  == FirstMatch(config, secret, code, current + offset, current + config.window)
      {
        var candidate := current + offset;
        if candidate >= 0 && config.codeAt(secret, candidate) == code { return Some(candidate); }
        offset := offset + 1;
      }
      matched := None;
    }

    method ConfirmEnrollment(id: string, tenant: string, user: string, code: string, now: nat, admitted: bool)
      returns (verdict: Verdict)
      requires ValidConfig(config)
      modifies this
      ensures var o := Apply(config, old(Abs()), Confirm(id, tenant, user, code, now, admitted));
              verdict == o.verdict && Abs() == o.state
    {
      hide Evaluated;
      if id !in factors { return Refusal(FactorNotFound); }
      if factors[id].tenant != tenant || factors[id].user != user { return Refusal(ScopeViolation); }
      if factors[id].status.Revoked? { return Refusal(FactorRevoked); }
      if factors[id].status.Active? { return Refusal(AlreadyActive); }
      verdict := Evaluate(id, code, now, admitted, true);
      if verdict.Verified? {
        factors := factors[id := factors[id].(status := Active)];
      }
    }

    method VerifyCode(id: string, tenant: string, user: string, code: string, now: nat, admitted: bool)
      returns (verdict: Verdict)
      requires ValidConfig(config)
      modifies this
      ensures var o := Apply(config, old(Abs()), Verify(id, tenant, user, code, now, admitted));
              verdict == o.verdict && Abs() == o.state
    {
      hide Evaluated;
      if id !in factors { return Refusal(FactorNotFound); }
      if factors[id].tenant != tenant || factors[id].user != user { return Refusal(ScopeViolation); }
      verdict := Evaluate(id, code, now, admitted, false);
    }

    method EnrollFactor(id: string, tenant: string, user: string, sealed: string) returns (verdict: Verdict)
      requires ValidConfig(config)
      modifies this
      ensures var o := Apply(config, old(Abs()), Enroll(id, tenant, user, sealed));
              verdict == o.verdict && Abs() == o.state
    {
      if id in factors { return Refusal(FactorExists); }
      factors := factors[id := Record(tenant, user, Pending, None, sealed)];
      verdict := Done;
    }

    method RevokeFactor(id: string, tenant: string, user: string, authorized: bool, now: nat) returns (verdict: Verdict)
      requires ValidConfig(config)
      modifies this
      ensures var o := Apply(config, old(Abs()), Revoke(id, tenant, user, authorized, now));
              verdict == o.verdict && Abs() == o.state
    {
      if id !in factors { return Refusal(FactorNotFound); }
      if factors[id].tenant != tenant || factors[id].user != user { return Refusal(ScopeViolation); }
      if !authorized { return Refusal(NotAuthorized); }
      factors := factors[id := factors[id].(status := Revoked)];
      attempts := attempts - {id};
      verdict := Done;
    }
  }

  // ------------------------------------------------------ one factor over a run

  lemma EvaluatedFollowsLimiter(c: Config, rec: Record, a: Option<Attempt>, code: string, now: nat, admitted: bool,
    allowPending: bool)
    requires ValidConfig(c)
    ensures var e := Evaluated(c, rec, a, code, now, admitted, allowPending);
            && Enabled(a, e.event, now)
            && e.attempt == After(c.limits, a, e.event, now)
            && (rec.status.Revoked? ==> e.event.Silent?)
            && !e.event.Dropped?
            && e.record.status == rec.status
            && (e.verdict.Verified? <==> e.event.Match?)
            && (e.verdict.Verified? ==> e.record.lastUsed == Some(e.verdict.counter))
            && (e.verdict.Verified? && rec.lastUsed.Some? ==> e.verdict.counter > rec.lastUsed.value)
            && (!e.verdict.Verified? ==> e.record == rec)
  {
    hide FirstMatch, Failed, Cleared;
  }

  function Concerns(call: Call, id: string): (b: bool) { call.id == id && !call.Enroll? }

  /** A call on another factor leaves this one alone; a call on this one acts on its counter as the limiter says. */
  lemma CallOnFactor(c: Config, s: State, call: Call, id: string)
    requires ValidConfig(c)
    ensures var o := Apply(c, s, call);
            && (!Concerns(call, id) ==> AttemptOf(o.state.attempts, id) == AttemptOf(s.attempts, id))
            && (Concerns(call, id) ==> Enabled(AttemptOf(s.attempts, id), o.event, call.now))
            && (Concerns(call, id) ==>
                  AttemptOf(o.state.attempts, id) == After(c.limits, AttemptOf(s.attempts, id), o.event, call.now))
            && (id in s.factors ==> id in o.state.factors)
            && (id in s.factors && s.factors[id].status.Revoked? ==> o.state.factors[id].status.Revoked?)
            && (id in s.factors && s.factors[id].status.Revoked? && Concerns(call, id) ==> !o.event.Mismatch?)
            && (Concerns(call, id) && o.event.Dropped? ==> id in o.state.factors && o.state.factors[id].status.Revoked?)
  {
    hide Evaluated, Failed, Cleared;
    if call.Confirm? && call.id in s.factors {
      EvaluatedFollowsLimiter(c, s.factors[call.id], AttemptOf(s.attempts, call.id), call.code, call.now,
        call.admitted, true);
    }
    if call.Verify? && call.id in s.factors {
      EvaluatedFollowsLimiter(c, s.factors[call.id], AttemptOf(s.attempts, call.id), call.code, call.now,
        call.admitted, false);
    }
  }

  predicate IsRevoked(s: State, id: string) { id in s.factors && s.factors[id].status.Revoked? }

  /** A run of calls as one factor sees it. */
  function Moments(c: Config, s: State, calls: seq<Call>, id: string): (ms: seq<Moment>)
    requires ValidConfig(c)
    decreases |calls|
  {
    if calls == [] then []
    else
      var o := Apply(c, s, calls[0]);
      [Moment(
         Concerns(calls[0], id), o.event, if calls[0].Enroll? then 0 else calls[0].now,
         AttemptOf(s.attempts, id), AttemptOf(o.state.attempts, id), IsRevoked(s, id), IsRevoked(o.state, id))]
      + Moments(c, o.state, calls[1..], id)
  }

  lemma {:induction false} MomentsChain(c: Config, s: State, calls: seq<Call>, id: string)
    requires ValidConfig(c)
    ensures Chain(c.limits, Moments(c, s, calls, id), AttemptOf(s.attempts, id), IsRevoked(s, id))
    decreases |calls|
  {
    hide Apply, After, Enabled;
    if calls != [] {
      CallOnFactor(c, s, calls[0], id);
      MomentsChain(c, Apply(c, s, calls[0]).state, calls[1..], id);
    }
  }

  const EMPTY: State := State(map[], map[])

  /**
   However enrollments, confirmations, verifications and revocations of any
   factors are mixed, an interval of length `lockoutMs` in which this factor
   succeeds at nothing holds at most `maxFailures` failed code comparisons.
   */
  lemma TotpGuessingIsBounded(c: Config, calls: seq<Call>, id: string, lo: nat)
    requires ValidConfig(c)
    requires Monotone(EventsOf(Moments(c, EMPTY, calls, id)))
    requires NoMatch(EventsOf(Moments(c, EMPTY, calls, id)), lo, lo + c.limits.lockoutMs)
    ensures Mismatches(EventsOf(Moments(c, EMPTY, calls, id)), lo, lo + c.limits.lockoutMs) <= c.limits.maxFailures
  {
    hide EventsOf, Moments, Chain;
    MomentsChain(c, EMPTY, calls, id);
    ChainIsPossible(c.limits, Moments(c, EMPTY, calls, id), None, false);
    GuessingIsBounded(c.limits, EventsOf(Moments(c, EMPTY, calls, id)), lo);
  }

  // ------------------------------------------------------ replay

  /** The counters that were accepted for a factor in a run, in order. */
  function AcceptedCounters(c: Config, s: State, calls: seq<Call>, id: string): (ns: seq<nat>)
    requires ValidConfig(c)
    decreases |calls|
  {
    if calls == [] then []
    else
      var o := Apply(c, s, calls[0]);
      (if calls[0].id == id && o.verdict.Verified? then [o.verdict.counter] else [])
        + AcceptedCounters(c, o.state, calls[1..], id)
  }

  lemma LastUsedAdvances(c: Config, s: State, call: Call, id: string)
    requires ValidConfig(c)
    ensures var o := Apply(c, s, call);
            && (id in s.factors ==> id in o.state.factors)
            && (call.id == id && o.verdict.Verified? ==> id in s.factors)
            && (call.id == id && o.verdict.Verified? ==> o.state.factors[id].lastUsed == Some(o.verdict.counter))
            && (call.id == id && o.verdict.Verified? && s.factors[id].lastUsed.Some? ==>
                  s.factors[id].lastUsed.value < o.verdict.counter)
            && (id in s.factors && !(call.id == id && o.verdict.Verified?) ==>
                  o.state.factors[id].lastUsed == s.factors[id].lastUsed)
  {
    hide Evaluated, Failed, Cleared, After, Enabled;
    if call.Confirm? && call.id in s.factors {
      EvaluatedFollowsLimiter(c, s.factors[call.id], AttemptOf(s.attempts, call.id), call.code, call.now,
        call.admitted, true);
    }
    if call.Verify? && call.id in s.factors {
      EvaluatedFollowsLimiter(c, s.factors[call.id], AttemptOf(s.attempts, call.id), call.code, call.now,
        call.admitted, false);
    }
  }

  predicate Increasing(ns: seq<nat>) { forall i, j :: 0 <= i < j < |ns| ==> ns[i] < ns[j] }

  predicate AllAbove(ns: seq<nat>, bound: Option<nat>) {
    bound.Some? ==> forall i :: 0 <= i < |ns| ==> bound.value < ns[i]
  }

  function LastUsedOf(s: State, id: string): (n: Option<nat>) {
    if id in s.factors then s.factors[id].lastUsed else None
  }

  /** Accepted counters strictly increase, so no time step of a factor is ever accepted twice (RFC 6238 section 5.2). */
  lemma {:induction false} CountersStrictlyIncrease(c: Config, s: State, calls: seq<Call>, id: string)
    requires ValidConfig(c)
    ensures Increasing(AcceptedCounters(c, s, calls, id))
    ensures AllAbove(AcceptedCounters(c, s, calls, id), LastUsedOf(s, id))
    decreases |calls|
  {
    hide Apply;
    if calls != [] {
      var o := Apply(c, s, calls[0]);
      LastUsedAdvances(c, s, calls[0], id);
      CountersStrictlyIncrease(c, o.state, calls[1..], id);
      var rest := AcceptedCounters(c, o.state, calls[1..], id);
      if calls[0].id == id && o.verdict.Verified? {
        assert AcceptedCounters(c, s, calls, id) == [o.verdict.counter] + rest;
      } else {
        assert AcceptedCounters(c, s, calls, id) == [] + rest;
        assert [] + rest == rest;
      }
    }
  }
}
