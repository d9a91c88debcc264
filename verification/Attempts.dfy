/**
 The failure counter and lock that the TOTP and the recovery-code managers keep
 for each factor, and the bound it puts on guessing.
 */
module Attempts {
  import opened Strings

  datatype Attempt = Attempt(failed: nat, lockedUntil: nat)

  datatype Limits = Limits(maxFailures: nat, lockoutMs: nat)

  predicate ValidLimits(c: Limits) { 1 <= c.maxFailures <= 20 && c.lockoutMs >= 1000 }

  /** What a manager's map of attempts holds for one factor. */
  function AttemptOf(attempts: map<string, Attempt>, id: string): (a: Option<Attempt>) {
    if id in attempts then Some(attempts[id]) else None
  }

  predicate Locked(a: Option<Attempt>, now: nat) { a.Some? && a.value.lockedUntil > now }

  /** `emitFailure` and `failure`: one more failure, and a fresh lock once there are too many. */
  function Failed(c: Limits, a: Option<Attempt>, now: nat): (r: Attempt) {
    var previous := if a.Some? then a.value else Attempt(0, 0);
    var failed := previous.failed + 1;
    Attempt(failed, if failed >= c.maxFailures then now + c.lockoutMs else previous.lockedUntil)
  }

  /** An attempt that finds an expired lock forgets it, and the failures before it. */
  function Cleared(a: Option<Attempt>, now: nat): (r: Option<Attempt>) {
    if a.Some? && a.value.lockedUntil != 0 && a.value.lockedUntil <= now then None else a
  }

  /** What one call on a factor did. */
  datatype Event =
    | Silent      // nothing was recorded
    | Unchecked   // a failure recorded without looking at the lock
    | Refused     // locked, or stopped by the rate limiter
    | Uncompared  // admitted, but failed before any code was compared
    | Mismatch    // a code was compared and not accepted
    | Match       // a code was accepted
    | Dropped     // the factor was revoked and its counter dropped

  predicate Enabled(a: Option<Attempt>, e: Event, now: nat) {
    e.Uncompared? || e.Mismatch? || e.Match? ==> !Locked(a, now)
  }

  function After(c: Limits, a: Option<Attempt>, e: Event, now: nat): (r: Option<Attempt>) {
    match e
    case Silent => a
    case Unchecked => Some(Failed(c, a, now))
    case Refused => Some(Failed(c, if Locked(a, now) then a else Cleared(a, now), now))
    case Uncompared => Some(Failed(c, Cleared(a, now), now))
    case Mismatch => Some(Failed(c, Cleared(a, now), now))
    case Match => None
    case Dropped => None
  }

  // ------------------------------------------------------ the bound

  /** Something that happened to one factor at some time. */
  datatype Stamped = Stamped(event: Event, now: nat)

  predicate Monotone(es: seq<Stamped>) {
    forall i, j :: 0 <= i < j < |es| ==> es[i].now <= es[j].now
  }

  /** The events are possible one after the other, and nothing is compared once the factor is revoked. */
  predicate Possible(c: Limits, a: Option<Attempt>, es: seq<Stamped>)
    decreases |es|
  {
    es != [] ==>
    && Enabled(a, es[0].event, es[0].now)
    && (es[0].event.Dropped? ==> Quiet(es[1..]))
    && Possible(c, After(c, a, es[0].event, es[0].now), es[1..])
  }

  predicate Quiet(es: seq<Stamped>) { forall e :: e in es ==> !e.event.Mismatch? }

  predicate Inside(e: Stamped, lo: nat, hi: nat) { lo <= e.now < hi }

  function Mismatches(es: seq<Stamped>, lo: nat, hi: nat): (n: nat) {
    if es == [] then 0
    else (if es[0].event.Mismatch? && Inside(es[0], lo, hi) then 1 else 0) + Mismatches(es[1..], lo, hi)
  }

  predicate NoMatch(es: seq<Stamped>, lo: nat, hi: nat) {
    forall e :: e in es && Inside(e, lo, hi) ==> !e.event.Match?
  }

  /** A counter holds a lock exactly when it is full. */
  predicate Sound(c: Limits, a: Option<Attempt>) {
    a.Some? ==> (a.value.lockedUntil != 0 <==> a.value.failed >= c.maxFailures)
  }

  lemma SoundAfter(c: Limits, a: Option<Attempt>, e: Event, now: nat)
    requires ValidLimits(c) && Sound(c, a)
    ensures Sound(c, After(c, a, e, now))
  {
  }

  /** Comparisons that can still fail before `hi`. */
  function Budget(c: Limits, a: Option<Attempt>, hi: nat): (n: nat)
    ensures n <= c.maxFailures
  {
    match a
    case None => c.maxFailures
    case Some(x) =>
      if x.lockedUntil >= hi then 0
      else if x.lockedUntil == 0 && x.failed < c.maxFailures then c.maxFailures - x.failed
      else c.maxFailures
  }

  lemma BudgetSpent(c: Limits, a: Option<Attempt>, e: Event, now: nat, lo: nat)
    requires ValidLimits(c) && Sound(c, a) && Enabled(a, e, now)
    requires lo <= now < lo + c.lockoutMs && !e.Match? && !e.Dropped?
    ensures Budget(c, After(c, a, e, now), lo + c.lockoutMs) + (if e.Mismatch? then 1 else 0)
            <= Budget(c, a, lo + c.lockoutMs)
  {
  }

  lemma {:induction false} QuietMismatches(es: seq<Stamped>, lo: nat, hi: nat)
    requires Quiet(es)
    ensures Mismatches(es, lo, hi) == 0
    decreases |es|
  {
    if es != [] { QuietMismatches(es[1..], lo, hi); }
  }

  lemma {:induction false} LateMismatches(es: seq<Stamped>, lo: nat, hi: nat)
    requires Monotone(es) && es != [] && es[0].now >= hi
    ensures Mismatches(es, lo, hi) == 0
    decreases |es|
  {
    if |es| > 1 { LateMismatches(es[1..], lo, hi); }
  }

  lemma {:induction false} WithinBudget(c: Limits, a: Option<Attempt>, es: seq<Stamped>, lo: nat)
    requires ValidLimits(c) && Sound(c, a) && Possible(c, a, es) && Monotone(es)
    requires NoMatch(es, lo, lo + c.lockoutMs)
    ensures Mismatches(es, lo, lo + c.lockoutMs) <= c.maxFailures
    ensures es != [] && es[0].now >= lo ==> Mismatches(es, lo, lo + c.lockoutMs) <= Budget(c, a, lo + c.lockoutMs)
    decreases |es|
  {
    hide After, Budget, Enabled;
    if es != [] {
      var e, rest, hi := es[0], es[1..], lo + c.lockoutMs;
      var next := After(c, a, e.event, e.now);
      SoundAfter(c, a, e.event, e.now);
      WithinBudget(c, next, rest, lo);
      if e.now >= hi {
        LateMismatches(es, lo, hi);
      } else if e.now >= lo {
        if e.event.Dropped? { QuietMismatches(rest, lo, hi); }
        else {
          assert e in es;
          BudgetSpent(c, a, e.event, e.now, lo);
        }
      }
    }
  }

  /**
   With a clock that never runs backwards, no half-open interval of length
   `lockoutMs` without a success holds more than `maxFailures` failed
   comparisons for a factor, whatever other attempts are mixed in.
   */
  lemma GuessingIsBounded(c: Limits, es: seq<Stamped>, lo: nat)
    requires ValidLimits(c) && Possible(c, None, es) && Monotone(es)
    requires NoMatch(es, lo, lo + c.lockoutMs)
    ensures Mismatches(es, lo, lo + c.lockoutMs) <= c.maxFailures
  {
    WithinBudget(c, None, es, lo);
  }

  // ------------------------------------------------------ one factor in a run of calls on many

  /** What one call did, seen from one factor: whether it concerned it, and counter and revocation before and after. */
  datatype Moment = Moment(
    concerned: bool, event: Event, now: nat,
    before: Option<Attempt>, after: Option<Attempt>, revoked: bool, gone: bool)

  /** The call acted on the counter as the limiter says, and a revoked factor stays revoked and compares nothing. */
  predicate Faithful(c: Limits, m: Moment) {
    && (m.concerned ==> Enabled(m.before, m.event, m.now))
    && m.after == (if m.concerned then After(c, m.before, m.event, m.now) else m.before)
    && (m.revoked || (m.concerned && m.event.Dropped?) ==> m.gone)
    && (m.revoked && m.concerned ==> !m.event.Mismatch?)
  }

  /** Every moment is faithful and begins where the one before it ended. */
  predicate Chain(c: Limits, ms: seq<Moment>, a: Option<Attempt>, revoked: bool) {
    ms != [] ==>
    && Faithful(c, ms[0]) && ms[0].before == a && ms[0].revoked == revoked
    && Chain(c, ms[1..], ms[0].after, ms[0].gone)
  }

  /** What happened to the factor, in order. */
  function EventsOf(ms: seq<Moment>): (es: seq<Stamped>) {
    if ms == [] then []
    else (if ms[0].concerned then [Stamped(ms[0].event, ms[0].now)] else []) + EventsOf(ms[1..])
  }

  lemma {:induction false} RevokedIsQuiet(c: Limits, ms: seq<Moment>, a: Option<Attempt>)
    requires Chain(c, ms, a, true)
    ensures Quiet(EventsOf(ms))
    decreases |ms|
  {
    hide After, Enabled;
    if ms != [] { RevokedIsQuiet(c, ms[1..], ms[0].after); }
  }

  lemma {:induction false} ChainIsPossible(c: Limits, ms: seq<Moment>, a: Option<Attempt>, revoked: bool)
    requires Chain(c, ms, a, revoked)
    ensures Possible(c, a, EventsOf(ms))
    decreases |ms|
  {
    hide After, Enabled, Quiet;
    if ms != [] {
      var m, rest := ms[0], ms[1..];
      ChainIsPossible(c, rest, m.after, m.gone);
      if m.concerned {
        assert EventsOf(ms)[1..] == EventsOf(rest);
        if m.event.Dropped? { RevokedIsQuiet(c, rest, m.after); }
      } else {
        assert EventsOf(ms) == EventsOf(rest);
      }
    }
  }
}
