/**
 When a time-based code is accepted, in terms of the clock, the window and the
 codes used before; and when a factor is locked.
 */
module TotpPolicy {
  import opened Strings
  import opened Attempts
  import opened Totp

  // ------------------------------------------------------ the lock

  /** A failure locks the factor exactly when it is the last one allowed, for exactly the lockout time. */
  lemma LocksExactly(c: Limits, a: Option<Attempt>, now: nat, t: nat)
    requires !Locked(a, now) && now <= t
    ensures var failed := if a.Some? then a.value.failed + 1 else 1;
            && Failed(c, a, now).failed == failed
            && (Locked(Some(Failed(c, a, now)), t) <==> failed >= c.maxFailures && t < now + c.lockoutMs)
  {
  }

  /** After an expired lock the count begins anew; before any lock it goes on. */
  lemma CountBeginsAnew(c: Limits, a: Option<Attempt>, now: nat)
    requires a.Some? && !Locked(a, now)
    ensures Failed(c, Cleared(a, now), now).failed == if a.value.lockedUntil == 0 then a.value.failed + 1 else 1
  {
  }

  // ------------------------------------------------------ the code

  /** The code of counter `k`, which is at most `window` steps off the current one. */
  predicate Fits(c: Config, secret: string, code: string, now: nat, k: nat)
    requires c.periodSeconds > 0
  {
    var step := now / 1000 / c.periodSeconds;
    step <= k + c.window && k <= step + c.window && c.codeAt(secret, k) == code
  }

  lemma {:induction false} FirstMatchExactly(c: Config, secret: string, code: string, from: int, last: int)
    ensures var r := FirstMatch(c, secret, code, from, last);
            && (r.None? <==> forall k: nat :: from <= k <= last ==> c.codeAt(secret, k) != code)
            && (r.Some? ==> forall k: nat :: from <= k < r.value ==> c.codeAt(secret, k) != code)
    decreases last - from + 1
  {
    if from <= last { FirstMatchExactly(c, secret, code, from + 1, last); }
  }

  /** The earliest time step of the window that has this code. */
  ghost predicate EarliestFit(c: Config, secret: string, code: string, now: nat, k: nat)
    requires c.periodSeconds > 0
  {
    Fits(c, secret, code, now, k) && forall j: nat :: j < k ==> !Fits(c, secret, code, now, j)
  }

  /** The factor is asked within its scope and admitted, and the code looks like one. */
  predicate Considered(c: Config, s: State, id: string, tenant: string, user: string, code: string, now: nat,
    admitted: bool, status: Status)
  {
    && id in s.factors && s.factors[id].tenant == tenant && s.factors[id].user == user
    && s.factors[id].status == status
    && |code| == c.digits && (forall i :: 0 <= i < |code| ==> '0' <= code[i] <= '9')
    && (id in s.attempts ==> s.attempts[id].lockedUntil <= now) && admitted
  }

  lemma EvaluatesExactly(c: Config, rec: Record, a: Option<Attempt>, code: string, now: nat, allowPending: bool)
    requires ValidConfig(c) && !rec.status.Revoked? && (allowPending || rec.status.Active?)
    requires WellFormedCode(code, c.digits) && !Locked(a, now)
    ensures var e := Evaluated(c, rec, a, code, now, true, allowPending);
            && (e.verdict.Verified? <==>
                  && c.unseal(rec.sealed).Some?
                  && exists k: nat :: EarliestFit(c, c.unseal(rec.sealed).value, code, now, k)
                                 && (rec.lastUsed.Some? ==> k > rec.lastUsed.value))
            && (e.verdict.Verified? ==>
                  && EarliestFit(c, c.unseal(rec.sealed).value, code, now, e.verdict.counter)
                  && e.record == rec.(lastUsed := Some(e.verdict.counter)) && e.attempt == None)
  {
    hide WellFormedCode;
    if c.unseal(rec.sealed).Some? {
      var secret := c.unseal(rec.sealed).value;
      var step := CounterAt(c, now);
      var r := FirstMatch(c, secret, code, step - c.window, step + c.window);
      FirstMatchExactly(c, secret, code, step - c.window, step + c.window);
      if r.Some? {
        FitsHere(c, secret, code, now, r.value);
        forall j: nat | j < r.value ensures !Fits(c, secret, code, now, j) {
          FitsHere(c, secret, code, now, j);
        }
        assert EarliestFit(c, secret, code, now, r.value);
        forall k: nat | EarliestFit(c, secret, code, now, k) ensures k == r.value {
          EarliestIsOne(c, secret, code, now, k, r.value);
        }
      } else {
        forall k: nat ensures !EarliestFit(c, secret, code, now, k) {
          FitsHere(c, secret, code, now, k);
        }
      }
    }
  }

  lemma EarliestIsOne(c: Config, secret: string, code: string, now: nat, k: nat, l: nat)
    requires c.periodSeconds > 0 && EarliestFit(c, secret, code, now, k) && EarliestFit(c, secret, code, now, l)
    ensures k == l
  {
    hide Fits;
  }

  lemma FitsHere(c: Config, secret: string, code: string, now: nat, k: nat)
    requires c.periodSeconds > 0
    ensures var step := CounterAt(c, now);
            Fits(c, secret, code, now, k)
            <==> step - c.window <= k <= step + c.window && c.codeAt(secret, k) == code
  {
  }

  /**
   A code is accepted if and only if the factor is active, in scope and not
   locked, and the earliest time step within the window that has this code is
   later than the last one used.
   */
  lemma VerifySucceedsExactly(c: Config, s: State, call: Call)
    requires ValidConfig(c) && call.Verify?
    ensures var o := Apply(c, s, call);
            && (o.verdict.Verified? <==>
                  && Considered(c, s, call.id, call.tenant, call.user, call.code, call.now, call.admitted, Active)
                  && var rec := s.factors[call.id];
                     && c.unseal(rec.sealed).Some?
                     && exists k: nat :: EarliestFit(c, c.unseal(rec.sealed).value, call.code, call.now, k)
                                    && (rec.lastUsed.Some? ==> k > rec.lastUsed.value))
            && (o.verdict.Verified? ==>
                  && o.state.factors == s.factors[call.id := s.factors[call.id].(lastUsed := Some(o.verdict.counter))]
                  && o.state.attempts == s.attempts - {call.id})
  {
    hide FirstMatch, EarliestFit;
    if Considered(c, s, call.id, call.tenant, call.user, call.code, call.now, call.admitted, Active) {
      EvaluatesExactly(c, s.factors[call.id], AttemptOf(s.attempts, call.id), call.code, call.now, false);
    }
  }

  /** Confirmation accepts under the same condition while the factor is pending, and makes it active. */
  lemma ConfirmSucceedsExactly(c: Config, s: State, call: Call)
    requires ValidConfig(c) && call.Confirm?
    ensures var o := Apply(c, s, call);
            && (o.verdict.Verified? <==>
                  && Considered(c, s, call.id, call.tenant, call.user, call.code, call.now, call.admitted, Pending)
                  && var rec := s.factors[call.id];
                     && c.unseal(rec.sealed).Some?
                     && exists k: nat :: EarliestFit(c, c.unseal(rec.sealed).value, call.code, call.now, k)
                                    && (rec.lastUsed.Some? ==> k > rec.lastUsed.value))
            && (o.verdict.Verified? ==>
                  && o.state.factors
                     == s.factors[call.id :=
                          s.factors[call.id].(status := Active, lastUsed := Some(o.verdict.counter))]
                  && o.state.attempts == s.attempts - {call.id})
  {
    hide FirstMatch, EarliestFit;
    if Considered(c, s, call.id, call.tenant, call.user, call.code, call.now, call.admitted, Pending) {
      EvaluatesExactly(c, s.factors[call.id], AttemptOf(s.attempts, call.id), call.code, call.now, true);
    }
  }

  /** In particular the code of the current step, if no earlier step in the window has it and it is unused. */
  lemma CurrentCodeIsAccepted(c: Config, s: State, call: Call, secret: string, step: nat)
    requires ValidConfig(c) && call.Verify? && step == call.now / 1000 / c.periodSeconds
    requires Considered(c, s, call.id, call.tenant, call.user, call.code, call.now, call.admitted, Active)
    requires c.unseal(s.factors[call.id].sealed) == Some(secret)
    requires EarliestFit(c, secret, call.code, call.now, step)
    requires s.factors[call.id].lastUsed.Some? ==> s.factors[call.id].lastUsed.value < step
    ensures Apply(c, s, call).verdict == Verified(step)
  {
    hide Apply, Considered, EarliestFit;
    VerifySucceedsExactly(c, s, call);
    var verdict := Apply(c, s, call).verdict;
    assert verdict.Verified?;
    VerifiedEarliest(c, s, call);
    EarliestIsOne(c, secret, call.code, call.now, verdict.counter, step);
  }

  lemma VerifiedEarliest(c: Config, s: State, call: Call)
    requires ValidConfig(c) && call.Verify? && Apply(c, s, call).verdict.Verified?
    ensures call.id in s.factors && c.unseal(s.factors[call.id].sealed).Some?
    ensures EarliestFit(c, c.unseal(s.factors[call.id].sealed).value, call.code, call.now,
                        Apply(c, s, call).verdict.counter)
  {
    hide FirstMatch, EarliestFit;
    EvaluatesExactly(c, s.factors[call.id], AttemptOf(s.attempts, call.id), call.code, call.now, false);
  }

  /** Enrollment and revocation succeed exactly under their own conditions. */
  lemma EnrollAndRevokeExactly(c: Config, s: State, call: Call)
    requires ValidConfig(c) && (call.Enroll? || call.Revoke?)
    ensures var o := Apply(c, s, call);
            && (call.Enroll? ==>
                  && (o.verdict.Done? <==> call.id !in s.factors)
                  && (o.verdict.Done? ==>
                        o.state == s.(factors := s.factors[call.id :=
                                        Record(call.tenant, call.user, Pending, None, call.sealed)])))
            && (call.Revoke? ==>
                  && (o.verdict.Done? <==>
                        && call.id in s.factors && s.factors[call.id].tenant == call.tenant
                        && s.factors[call.id].user == call.user && call.authorized)
                  && (o.verdict.Done? ==>
                        && o.state.factors == s.factors[call.id := s.factors[call.id].(status := Revoked)]
                        && o.state.attempts == s.attempts - {call.id}))
            && (!o.verdict.Done? ==> o.state == s)
  {
  }
}
