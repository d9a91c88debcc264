/**
 The login policy as users see it: which factors a login asks for, which answers
 complete it, and how many wrong ones it takes.
 */
module MfaPolicy {
  import opened Strings
  import opened MfaGate

  // ------------------------------------------------------ what a login asks for

  function ModeOf(c: Config, f: Factor): (m: Mode) { if f == TOTP then c.totpMode else c.webauthnMode }

  predicate HasManager(c: Config, f: Factor) { if f == TOTP then c.hasTotp else c.hasWebauthn }

  function ReadOf(begin: Op, f: Factor): (r: Read)
    requires begin.Begin?
  {
    if f == TOTP then begin.totp else begin.webauthn
  }

  /** The user has the factor, and it is in use. */
  predicate ActiveIn(c: Config, begin: Op, f: Factor)
    requires begin.Begin?
  {
    !ModeOf(c, f).Disabled? && HasManager(c, f) && ReadOf(begin, f) == Has
  }

  /** The login needs nothing for this factor. */
  predicate Waived(c: Config, begin: Op, f: Factor)
    requires begin.Begin?
  {
    || ModeOf(c, f).Disabled?
    || (ModeOf(c, f).Optional? && (!HasManager(c, f) || ReadOf(begin, f) == HasNot))
  }

  /** The factor cannot be decided: its manager is missing although required, or does not answer. */
  predicate Broken(c: Config, begin: Op, f: Factor)
    requires begin.Begin?
  {
    || (ModeOf(c, f).Required? && !HasManager(c, f))
    || (!ModeOf(c, f).Disabled? && HasManager(c, f) && ReadOf(begin, f) == ReadThrows)
  }

  /** Active factors and needs as the modes, managers and reads demand. */
  ghost predicate AsksExactly(c: Config, begin: Op, active: set<Factor>, needs: set<Factor>)
    requires begin.Begin?
  {
    forall f: Factor ::
      (f in active <==> ActiveIn(c, begin, f)) && (f in needs <==> ActiveIn(c, begin, f) || ModeOf(c, f).Required?)
  }

  lemma NeedsAreExact(c: Config, op: Op)
    requires op.Begin?
    ensures var n := NeedsOf(c, op.totp, op.webauthn);
            && (n.None? <==> Broken(c, op, TOTP) || Broken(c, op, WEBAUTHN))
            && (n.Some? ==> AsksExactly(c, op, n.value.enrolled, n.value.needs))
            && (n.Some? ==> (n.value.needs == {} <==> Waived(c, op, TOTP) && Waived(c, op, WEBAUTHN)))
  {
    var n := NeedsOf(c, op.totp, op.webauthn);
    if n.Some? && Waived(c, op, TOTP) && Waived(c, op, WEBAUTHN) {
      forall f: Factor ensures f !in n.value.needs {
      }
    }
    if n.Some? && n.value.needs == {} {
      assert TOTP !in n.value.needs && WEBAUTHN !in n.value.needs;
    }
  }

  /**
   A login passes without a challenge exactly when both factors are waived, and is
   unavailable exactly when one is broken or a needed challenge finds no room.
   Otherwise one fresh challenge is stored that asks for exactly the active and the
   required factors, and every unexpired challenge stays.
   */
  lemma BeginDecidesExactly(c: Config, g: Gate, op: Op)
    requires op.Begin?
    ensures var o := Step(c, g, op);
            var waived := Waived(c, op, TOTP) && Waived(c, op, WEBAUTHN);
            var broken := Broken(c, op, TOTP) || Broken(c, op, WEBAUTHN);
            var open := map t | t in g.pending && g.pending[t].expiresAt > op.now :: g.pending[t];
            && (o.result == NotRequired <==> waived)
            && (o.result == Unavailable <==> broken || (!waived && |open| >= c.maxPending))
            && (waived || broken || |open| >= c.maxPending ==> o.gate == Gate(open, g.log))
            && (!waived && !broken && |open| < c.maxPending ==>
                  && op.token in o.gate.pending
                  && var e := o.gate.pending[op.token];
                  && o.gate.pending == open[op.token := e]
                  && o.gate.log == g.log + [Began(op.token, op.login, e.enrolled, e.needs, e.expiresAt)]
                  && AsksExactly(c, op, e.enrolled, e.needs)
                  && e.login == op.login && e.tenant == op.tenant && e.user == op.user
                  && e.expiresAt == op.later + c.ttlMs
                  && e.satisfied == {} && e.failures == 0 && e.enrollment == None && !e.recoveryIssued)
  {
    hide NeedsOf, Waived, Broken, AsksExactly;
    NeedsAreExact(c, op);
    WaivedIsWhole(c, op);
    assert Unexpired(g.pending, op.now) == map t | t in g.pending && g.pending[t].expiresAt > op.now :: g.pending[t];
  }

  lemma WaivedIsWhole(c: Config, op: Op)
    requires op.Begin?
    ensures forall f :: Waived(c, op, f) ==> !Broken(c, op, f)
  {
  }

  // ------------------------------------------------------ what each event goes back to

  /** The step presents an answer that its manager accepts. */
  predicate Accepted(op: Op) { (op.VerifyTotp? || op.VerifyRecovery? || op.WebauthnComplete?) && op.env.accepted }

  /** The manager of the factor itself accepts the answer. */
  predicate Answers(op: Op, f: Factor) {
    Accepted(op) && ((op.VerifyTotp? && f == TOTP) || (op.WebauthnComplete? && f == WEBAUTHN))
  }

  ghost predicate Causes(c: Config, op: Op, e: Event) {
    && op.token == e.token
    && match e
       case Began(_, login, active, needs, expiresAt) =>
         op.Begin? && op.login == login && AsksExactly(c, op, active, needs) && expiresAt == op.later + c.ttlMs
       case Verified(_, f) => Answers(op, f) && HasManager(c, f)
       case Recovered(_, f) => Accepted(op) && op.VerifyRecovery? && c.recoveryEnabled
       case Enrolled(_, f) => Answers(op, f) && HasManager(c, f)
       case Completed(_, _, at) => Accepted(op) && op.now == at
  }

  ghost predicate Caused(c: Config, ops: seq<Op>, e: Event) { exists op :: op in ops && Causes(c, op, e) }

  lemma AdvanceCauses(c: Config, g: Gate, e: Entry, event: Event, now: nat, throws: bool, op: Op)
    requires Causes(c, op, event) && Accepted(op) && op.now == now
    ensures var h := Advance(c, g, event.token, e, event, now, throws).gate;
            && |g.log| <= |h.log| && h.log[..|g.log|] == g.log
            && forall k :: |g.log| <= k < |h.log| ==> Causes(c, op, h.log[k])
  {
    hide AsksExactly, Answers;
    var h := Advance(c, g, event.token, e, event, now, throws).gate;
    assert h.log == g.log + [event] || h.log == g.log + [event] + [Completed(event.token, e.login, now)];
  }

  lemma AnswerCauses(c: Config, g: Gate, f: Factor, event: Event, op: Op)
    requires Causes(c, op, event) && Accepted(op) && event.token in g.pending
    requires event.Recovered? || Causes(c, op, Enrolled(event.token, f))
    ensures var h := Satisfy(c, g, event.token, f, event, op.now, op.env).gate;
            && |g.log| <= |h.log| && h.log[..|g.log|] == g.log
            && forall k :: |g.log| <= k < |h.log| ==> Causes(c, op, h.log[k])
    ensures !event.Recovered? ==>
              var h := Adopt(c, g, event.token, f, op.now, op.env).gate;
              && |g.log| <= |h.log| && h.log[..|g.log|] == g.log
              && forall k :: |g.log| <= k < |h.log| ==> Causes(c, op, h.log[k])
  {
    hide Advance, Causes, Accepted;
    forall e, throws { AdvanceCauses(c, g, e, event, op.now, throws, op); }
    if !event.Recovered? {
      forall e, throws { AdvanceCauses(c, g, e, Enrolled(event.token, f), op.now, throws, op); }
    }
  }

  /** A step adds only events that its own answer causes. */
  lemma StepCauses(c: Config, g: Gate, op: Op)
    ensures var h := Step(c, g, op).gate;
            && |g.log| <= |h.log| && h.log[..|g.log|] == g.log
            && forall k :: |g.log| <= k < |h.log| ==> Causes(c, op, h.log[k])
  {
    hide Satisfy, Adopt, RecoveryTarget, AsksExactly, NeedsOf, Unexpired;
    var l := Looked(g, op.token, op.now);
    match op {
      case Begin(_, _, _, token, _, _, _, _, _) => NeedsAreExact(c, op);
      case VerifyTotp(token, _, _, env) =>
        if token in l.pending && env.accepted && c.hasTotp { AnswerCauses(c, l, TOTP, Verified(token, TOTP), op); }
      case VerifyRecovery(token, _, _, env) =>
        if token in l.pending && env.accepted && c.recoveryEnabled && RecoveryTarget(l.pending[token]).Some? {
          var f := RecoveryTarget(l.pending[token]).value;
          AnswerCauses(c, l, f, Recovered(token, f), op);
        }
      case WebauthnComplete(token, _, env) =>
        if token in l.pending && env.accepted && c.hasWebauthn {
          AnswerCauses(c, l, WEBAUTHN, Verified(token, WEBAUTHN), op);
        }
      case _ =>
    }
  }

  lemma {:induction false} RunCauses(c: Config, g: Gate, ops: seq<Op>)
    ensures var h := Run(c, g, ops);
            && |g.log| <= |h.log| && h.log[..|g.log|] == g.log
            && forall k :: |g.log| <= k < |h.log| ==> Caused(c, ops, h.log[k])
    decreases |ops|
  {
    hide Step, Causes;
    if ops != [] {
      var h := Step(c, g, ops[0]).gate;
      var z := Run(c, g, ops);
      StepCauses(c, g, ops[0]);
      RunCauses(c, h, ops[1..]);
      assert z.log[..|g.log|] == z.log[..|h.log|][..|g.log|];
      forall k | |g.log| <= k < |z.log| ensures Caused(c, ops, z.log[k]) {
        if k < |h.log| {
          assert z.log[k] == z.log[..|h.log|][k];
          assert ops[0] in ops;
        } else {
          assert Caused(c, ops[1..], z.log[k]);
          var op :| op in ops[1..] && Causes(c, op, z.log[k]);
          assert op in ops;
        }
      }
    }
  }

  // ------------------------------------------------------ every login is earned

  lemma {:induction false} BegunAt(log: seq<Event>, t: Token)
    requires BeginOf(log, t).Some?
    ensures exists j :: 0 <= j < |log| && log[j] == BeginOf(log, t).value
    decreases |log|
  {
    if BeginOf(Front(log), t).Some? {
      BegunAt(Front(log), t);
      var j :| 0 <= j < |Front(log)| && Front(log)[j] == BeginOf(log, t).value;
      assert log[j] == BeginOf(log, t).value;
    } else {
      assert log[|log| - 1] == BeginOf(log, t).value;
    }
  }

  lemma {:induction false} CoveredAt(log: seq<Event>, t: Token, f: Factor)
    requires f in Covered(log, t)
    ensures exists j :: 0 <= j < |log| && (log[j] == Verified(t, f) || log[j] == Recovered(t, f))
    decreases |log|
  {
    if f in Covered(Front(log), t) {
      CoveredAt(Front(log), t, f);
      var j :| 0 <= j < |Front(log)| && (Front(log)[j] == Verified(t, f) || Front(log)[j] == Recovered(t, f));
      assert log[j] == Verified(t, f) || log[j] == Recovered(t, f);
    } else {
      assert log[|log| - 1] == Verified(t, f) || log[|log| - 1] == Recovered(t, f);
    }
  }

  lemma {:induction false} RegisteredAt(log: seq<Event>, t: Token, f: Factor)
    requires f in Registered(log, t)
    ensures exists j :: 0 <= j < |log| && log[j] == Enrolled(t, f)
    decreases |log|
  {
    if f in Registered(Front(log), t) {
      RegisteredAt(Front(log), t, f);
      var j :| 0 <= j < |Front(log)| && Front(log)[j] == Enrolled(t, f);
      assert log[j] == Enrolled(t, f);
    } else {
      assert log[|log| - 1] == Enrolled(t, f);
    }
  }

  /** Some step of the run answered for the factor under this token, itself or by a recovery code. */
  ghost predicate AnsweredFor(ops: seq<Op>, t: Token, f: Factor) {
    exists op :: op in ops && op.token == t && Accepted(op) && (Answers(op, f) || op.VerifyRecovery?)
  }

  ghost predicate AnsweredItself(ops: seq<Op>, t: Token, f: Factor) {
    exists op :: op in ops && op.token == t && Answers(op, f)
  }

  /** The login began in this run, asked for what the policy demands, and got it in time. */
  ghost predicate Earned(c: Config, ops: seq<Op>, done: Event) {
    done.Completed? &&
    exists begin :: begin in ops && begin.Begin? && begin.token == done.token && begin.login == done.login
      && done.at < begin.later + c.ttlMs
      && (forall f: Factor :: ActiveIn(c, begin, f) ==> AnsweredFor(ops, done.token, f))
      && (forall f: Factor :: ModeOf(c, f).Required? && !ActiveIn(c, begin, f) ==> AnsweredItself(ops, done.token, f))
      && !(Waived(c, begin, TOTP) && Waived(c, begin, WEBAUTHN))
  }

  lemma AnswerOf(c: Config, ops: seq<Op>, log: seq<Event>, t: Token, f: Factor)
    requires forall k :: 0 <= k < |log| ==> Caused(c, ops, log[k])
    ensures f in Covered(log, t) ==> AnsweredFor(ops, t, f)
    ensures f in Registered(log, t) ==> AnsweredItself(ops, t, f)
  {
    hide AsksExactly;
    if f in Covered(log, t) {
      CoveredAt(log, t, f);
      var j :| 0 <= j < |log| && (log[j] == Verified(t, f) || log[j] == Recovered(t, f));
      assert Caused(c, ops, log[j]);
    }
    if f in Registered(log, t) {
      RegisteredAt(log, t, f);
      var j :| 0 <= j < |log| && log[j] == Enrolled(t, f);
      assert Caused(c, ops, log[j]);
    }
  }

  /**
   On every run from a new gate, whatever the managers answer: a login completes
   only if it began in the run, not later than its time to live allows, after an
   accepted answer for each factor the user had, and one for each required factor.
   */
  lemma EveryLoginIsEarned(c: Config, ops: seq<Op>, k: nat)
    requires FreshRun(c, START, ops) && c.maxFailures >= 1
    requires k < |Run(c, START, ops).log| && Run(c, START, ops).log[k].Completed?
    ensures Earned(c, ops, Run(c, START, ops).log[k])
  {
    hide Run, FreshRun, Lawful, BeginOf, Covered, Registered, Causes, Finished, Answers, Accepted;
    EveryLifeIsLawful(c, ops);
    RunCauses(c, START, ops);
    var log := Run(c, START, ops).log;
    CompletionsAreEarned(log, k);
    var t, past := log[k].token, log[..k];
    assert forall i :: 0 <= i < |past| ==> past[i] == log[i];
    BegunAt(past, t);
    var begun := BeginOf(past, t).value;
    assert Caused(c, ops, begun);
    var begin :| begin in ops && Causes(c, begin, begun);
    CausedBegin(c, begin, begun);
    forall f: Factor ensures f in Covered(past, t) ==> AnsweredFor(ops, t, f)
                     ensures f in Registered(past, t) ==> AnsweredItself(ops, t, f)
    {
      AnswerOf(c, ops, past, t, f);
    }
    assert Lawful(past) by { LawfulPrefix(log, k); }
    CoveredWereActive(past, t);
    EarnedBy(c, ops, log[k], begin, begun, Covered(past, t), Registered(past, t));
  }

  lemma {:induction false} LawfulPrefix(log: seq<Event>, k: nat)
    requires Lawful(log) && k <= |log|
    ensures Lawful(log[..k])
    decreases |log|
  {
    hide LawfulNext;
    if k < |log| {
      LawfulPrefix(Front(log), k);
      assert Front(log)[..k] == log[..k];
    } else {
      assert log[..k] == log;
    }
  }

  lemma CausedBegin(c: Config, op: Op, e: Event)
    requires Causes(c, op, e) && e.Began?
    ensures op.Begin? && op.token == e.token && op.login == e.login && AsksExactly(c, op, e.active, e.needs)
    ensures e.expiresAt == op.later + c.ttlMs
  {
  }

  lemma EarnedBy(c: Config, ops: seq<Op>, done: Event, begin: Op, begun: Event, covered: set<Factor>,
    registered: set<Factor>)
    requires done.Completed? && begin in ops && begin.Begin? && begun.Began?
    requires begin.token == done.token && begin.login == done.login
    requires begun.expiresAt == begin.later + c.ttlMs && done.at < begun.expiresAt
    requires AsksExactly(c, begin, begun.active, begun.needs)
    requires begun.active <= covered <= begun.needs && begun.needs <= covered + registered && covered <= begun.active
    requires begun.needs != {}
    requires forall f: Factor :: f in covered ==> AnsweredFor(ops, done.token, f)
    requires forall f: Factor :: f in registered ==> AnsweredItself(ops, done.token, f)
    ensures Earned(c, ops, done)
  {
    hide AnsweredFor, AnsweredItself;
    forall f: Factor | ModeOf(c, f).Required? && !ActiveIn(c, begin, f) ensures AnsweredItself(ops, done.token, f) {
      assert f in begun.needs && f !in covered;
    }
    var f :| f in begun.needs;
    assert !Waived(c, begin, f);
  }

  // ------------------------------------------------------ which answer completes a login

  /** The user's own factor is asked, or a new one may be enrolled and its recovery codes can be issued. */
  predicate Takes(c: Config, e: Entry, f: Factor, env: Env) {
    && f in e.needs && f !in e.satisfied
    && (f in e.enrolled
        || (&& e.enrolled <= e.satisfied
            && (c.recoveryEnabled && !e.recoveryIssued ==>
                  env.recoveryRead == Has || (env.recoveryRead == HasNot && !env.enrollThrows))))
  }

  /** The factor that a recovery code stands in for. */
  predicate StandsIn(e: Entry, f: Factor) {
    && f in e.needs && f in e.enrolled && f !in e.satisfied
    && (f == WEBAUTHN ==> !(TOTP in e.needs && TOTP in e.enrolled && TOTP !in e.satisfied))
  }

  /** The accepted answer is the last one that the challenge waits for. */
  ghost predicate Finishes(c: Config, e: Entry, op: Op) {
    && Accepted(op)
    && match op
       case VerifyTotp(_, isText, _, env) =>
         && c.hasTotp && isText && Takes(c, e, TOTP, env) && e.needs <= e.satisfied + {TOTP}
         && (TOTP in e.enrolled || e.enrollment.Some?)
       case WebauthnComplete(_, _, env) =>
         c.hasWebauthn && Takes(c, e, WEBAUTHN, env) && e.needs <= e.satisfied + {WEBAUTHN}
       case VerifyRecovery(_, isText, _, _) =>
         c.recoveryEnabled && isText && exists f :: StandsIn(e, f) && e.needs <= e.satisfied + {f}
       case _ => false
  }

  /** A step hands a login over exactly when its answer is the last one an unexpired challenge waits for. */
  lemma CompletesExactly(c: Config, g: Gate, op: Op)
    ensures var o := Step(c, g, op);
            var waiting := op.token in g.pending && g.pending[op.token].expiresAt > op.now;
            && (o.result.Complete? <==> !op.Begin? && waiting && Finishes(c, g.pending[op.token], op))
            && (o.result.Complete? ==> o.result.login == g.pending[op.token].login && op.token !in o.gate.pending)
  {
    hide NeedsOf, Unexpired;
    if op.VerifyRecovery? && op.token in g.pending {
      var e := g.pending[op.token];
      forall f ensures StandsIn(e, f) <==> RecoveryTarget(e) == Some(f) {
      }
    }
  }

  /** An answer for this factor is awaited, whether or not its manager will accept it. */
  ghost predicate Awaited(c: Config, e: Entry, op: Op) {
    match op
    case VerifyTotp(_, isText, _, _) =>
      && c.hasTotp && isText && TOTP in e.needs && TOTP !in e.satisfied
      && (TOTP in e.enrolled || (e.enrollment.Some? && e.enrolled <= e.satisfied))
    case WebauthnComplete(_, _, _) =>
      && c.hasWebauthn && WEBAUTHN in e.needs && WEBAUTHN !in e.satisfied
      && (WEBAUTHN in e.enrolled || e.enrolled <= e.satisfied)
    case VerifyRecovery(_, isText, _, _) => c.recoveryEnabled && isText && exists f :: StandsIn(e, f)
    case _ => false
  }

  /** Every awaited answer that is not accepted fails, and nothing fails that was not awaited. */
  lemma RejectedAnswersFail(c: Config, g: Gate, op: Op)
    requires !op.Begin?
    ensures var o := Step(c, g, op);
            var awaited := op.token in g.pending && g.pending[op.token].expiresAt > op.now
                           && Awaited(c, g.pending[op.token], op);
            && (awaited && !Accepted(op) ==> o.result == StepFailed)
            && (o.result == StepFailed ==> awaited)
  {
    hide NeedsOf, Unexpired;
    if op.VerifyRecovery? && op.token in g.pending {
      var e := g.pending[op.token];
      forall f ensures StandsIn(e, f) <==> RecoveryTarget(e) == Some(f) {
      }
    }
  }

  /**
   A ceremony is offered, and an enrollment started, exactly while its factor is
   needed and open, and a new one only after every factor the user had; starting
   one remembers it and changes nothing else.
   */
  lemma OffersExactly(c: Config, g: Gate, op: Op)
    requires op.WebauthnOptions? || op.EnrollTotp?
    ensures var o := Step(c, g, op);
            var f := if op.EnrollTotp? then TOTP else WEBAUTHN;
            var waiting := op.token in g.pending && g.pending[op.token].expiresAt > op.now;
            && (o.result == Ok
                <==> && waiting && HasManager(c, f)
                     && var e := g.pending[op.token];
                        && f in e.needs
                        && (f in e.enrolled ==> op.WebauthnOptions? && f !in e.satisfied)
                        && (f !in e.enrolled ==>
                              e.enrolled <= e.satisfied && (op.WebauthnOptions? ==> f !in e.satisfied))
                        && (op.EnrollTotp? ==> op.reply.Some?))
            && (waiting && o.result == Ok && op.EnrollTotp? ==>
                  o.gate == g.(pending := g.pending[op.token := g.pending[op.token].(enrollment := op.reply)]))
            && (waiting && !(o.result == Ok && op.EnrollTotp?) ==> o.gate == g)
  {
  }

  /** A failed step counts once, and the last one allowed drops the challenge. */
  lemma FailureCounts(c: Config, g: Gate, op: Op)
    ensures var o := Step(c, g, op);
            o.result == StepFailed ==>
              && !op.Begin? && op.token in g.pending
              && var n := g.pending[op.token].failures + 1;
              && (op.token in o.gate.pending <==> n < c.maxFailures)
              && (op.token in o.gate.pending ==> o.gate.pending[op.token].failures == n)
  {
    hide NeedsOf, Unexpired, RecoveryTarget;
  }

  lemma FailuresKept(c: Config, g: Gate, op: Op, token: Token)
    requires !(op.Begin? && op.token == token)
    ensures var h := Step(c, g, op).gate;
            token in h.pending ==> token in g.pending && h.pending[token].failures >= g.pending[token].failures
  {
    hide Step;
    if op.token != token { StepContinues(c, g, op); } else { OwnFailuresKept(c, g, op); }
  }

  lemma OwnFailuresKept(c: Config, g: Gate, op: Op)
    requires !op.Begin?
    ensures var h := Step(c, g, op).gate;
            op.token in h.pending ==>
              op.token in g.pending && h.pending[op.token].failures >= g.pending[op.token].failures
  {
    hide RecoveryTarget;
  }

  /** Wrong answers given to one challenge in a run. */
  function FailedSteps(c: Config, g: Gate, ops: seq<Op>, token: Token): (n: nat)
    decreases |ops|
  {
    if ops == [] then 0
    else
      var o := Step(c, g, ops[0]);
      (if ops[0].token == token && o.result == StepFailed then 1 else 0) + FailedSteps(c, o.gate, ops[1..], token)
  }

  /** How many more a challenge takes; one that was never begun has all of them ahead. */
  function Left(c: Config, g: Gate, token: Token): (n: int) {
    if token in g.pending then c.maxFailures - g.pending[token].failures
    else if BeginOf(g.log, token).Some? then 0 else c.maxFailures
  }

  lemma StepLeft(c: Config, g: Gate, op: Op, token: Token)
    requires Inv(c, g) && Fresh(g, op) && c.maxFailures >= 1
    ensures var o := Step(c, g, op);
            Left(c, o.gate, token) + (if op.token == token && o.result == StepFailed then 1 else 0) <= Left(c, g, token)
  {
    hide Step, BeginOf, Inv;
    var o := Step(c, g, op);
    if token in g.pending { PendingIsOpen(c, g, token); }
    StepKeepsInv(c, g, op);
    FailureCounts(c, g, op);
    if op.Begin? && op.token == token {
      BeginFailsNothing(c, g, op);
      if BeginOf(o.gate.log, token).None? && token in o.gate.pending { PendingIsOpen(c, o.gate, token); }
    } else {
      FailuresKept(c, g, op, token);
      if BeginOf(g.log, token).Some? {
        StepContinues(c, g, op);
        ContinuesBegun(g, o.gate, op.token, token);
      }
      if token in o.gate.pending { PendingLeft(c, o.gate, token); }
    }
    if token in g.pending { PendingLeft(c, g, token); }
  }

  lemma PendingLeft(c: Config, g: Gate, token: Token)
    requires Inv(c, g) && token in g.pending
    ensures g.pending[token].failures < c.maxFailures
  {
    assert Linked(c, g.log, token, g.pending[token]);
  }

  lemma BeginFailsNothing(c: Config, g: Gate, op: Op)
    requires op.Begin?
    ensures var o := Step(c, g, op);
            && o.result != StepFailed
            && (op.token in o.gate.pending && op.token !in g.pending ==> o.gate.pending[op.token].failures == 0)
  {
    hide NeedsOf;
  }

  lemma {:induction false} FailedStepsLeft(c: Config, g: Gate, ops: seq<Op>, token: Token)
    requires Inv(c, g) && FreshRun(c, g, ops) && c.maxFailures >= 1
    ensures FailedSteps(c, g, ops, token) <= Left(c, g, token)
    decreases |ops|
  {
    hide Step, Inv;
    if ops == [] {
      if token in g.pending { PendingLeft(c, g, token); }
    } else {
      StepKeepsInv(c, g, ops[0]);
      StepLeft(c, g, ops[0], token);
      FailedStepsLeft(c, Step(c, g, ops[0]).gate, ops[1..], token);
    }
  }

  /** On every run no challenge takes more wrong answers than configured. */
  lemma WrongAnswersAreBounded(c: Config, ops: seq<Op>, token: Token)
    requires FreshRun(c, START, ops) && c.maxFailures >= 1
    ensures FailedSteps(c, START, ops, token) <= c.maxFailures
  {
    hide FailedSteps, FreshRun;
    assert Inv(c, START);
    FailedStepsLeft(c, START, ops, token);
  }
}
