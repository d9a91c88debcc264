/**
 The gate together with its TOTP and recovery-code managers: a time step of a
 factor, or a recovery code, satisfies at most one challenge.
 */
module MfaSystem {
  import opened Strings
  import opened MapSums
  import Totp
  import Recovery
  import opened MfaGate

  datatype Settings = Settings(gate: Config, totp: Totp.Config, recovery: Recovery.Config)

  /** The challenge that a time step of a factor was used for. */
  datatype Use = Use(token: Token, factor: string, counter: nat)

  datatype System = System(gate: Gate, totp: Totp.State, recovery: Recovery.State, uses: seq<Use>)

  datatype SysOp =
    | Other(op: Op)                                     // steps that ask neither manager to accept anything
    | TotpStep(op: Op, pick: string, code: string, admitted: bool)
    | RecoveryStep(op: Op, pick: string, code: string, admitted: bool)
    | TotpElsewhere(call: Totp.Call)                    // enrollments, revocations, verifications outside the gate
    | RecoveryElsewhere(rcall: Recovery.Call)

  predicate WellTyped(sop: SysOp) {
    match sop
    case Other(op) => !op.VerifyTotp? && !op.VerifyRecovery?
    case TotpStep(op, _, _, _) => op.VerifyTotp?
    case RecoveryStep(op, _, _, _) => op.VerifyRecovery?
    case TotpElsewhere(_) => true
    case RecoveryElsewhere(call) => !call.Consume?
  }

  /** The call `verifyTotp` makes, if it gets that far: verify the picked factor, or confirm the pending enrollment. */
  function TotpCall(c: Config, g: Gate, op: Op, pick: string, code: string, admitted: bool): (r: Option<Totp.Call>)
    requires op.VerifyTotp?
  {
    var l := Looked(g, op.token, op.now);
    if op.token !in l.pending then None
    else
      var e := l.pending[op.token];
      if !c.hasTotp || TOTP !in e.needs || TOTP in e.satisfied || !op.isText then None
      else if TOTP in e.enrolled then Some(Totp.Verify(pick, e.tenant, e.user, code, op.now, admitted))
      else if e.enrollment.None? || !MayEnroll(e, TOTP) then None
      else Some(Totp.Confirm(e.enrollment.value, e.tenant, e.user, code, op.now, admitted))
  }

  function RecoveryCall(c: Config, g: Gate, op: Op, pick: string, code: string,
    admitted: bool): (r: Option<Recovery.Call>)
    requires op.VerifyRecovery?
  {
    var l := Looked(g, op.token, op.now);
    if op.token !in l.pending || !c.recoveryEnabled || !op.isText || RecoveryTarget(l.pending[op.token]).None? then None
    else
      var e := l.pending[op.token];
      Some(Recovery.Consume(pick, e.tenant, e.user, code, op.now, admitted))
  }

  /** The same step with the manager's answer filled in. */
  function Accepting(op: Op, accepted: bool): (r: Op) {
    match op
    case VerifyTotp(token, isText, now, env) => VerifyTotp(token, isText, now, env.(accepted := accepted))
    case VerifyRecovery(token, isText, now, env) => VerifyRecovery(token, isText, now, env.(accepted := accepted))
    case _ => op
  }

  function SysStep(s: Settings, y: System, sop: SysOp): (z: System)
    requires Totp.ValidConfig(s.totp) && WellTyped(sop)
  {
    match sop
    case Other(op) => y.(gate := Step(s.gate, y.gate, op).gate)
    case TotpElsewhere(call) => y.(totp := Totp.Apply(s.totp, y.totp, call).state)
    case RecoveryElsewhere(call) => y.(recovery := Recovery.Apply(s.recovery, y.recovery, call).state)
    case TotpStep(op, pick, code, admitted) =>
      var call := TotpCall(s.gate, y.gate, op, pick, code, admitted);
      if call.None? then y.(gate := Step(s.gate, y.gate, Accepting(op, false)).gate)
      else
        var o := Totp.Apply(s.totp, y.totp, call.value);
        var accepted := o.verdict.Verified?;
        System(Step(s.gate, y.gate, Accepting(op, accepted)).gate, o.state, y.recovery,
               if accepted then y.uses + [Use(op.token, call.value.id, o.verdict.counter)] else y.uses)
    case RecoveryStep(op, pick, code, admitted) =>
      var call := RecoveryCall(s.gate, y.gate, op, pick, code, admitted);
      if call.None? then y.(gate := Step(s.gate, y.gate, Accepting(op, false)).gate)
      else
        var o := Recovery.Apply(s.recovery, y.recovery, call.value);
        System(Step(s.gate, y.gate, Accepting(op, o.verdict.Recovered?)).gate, y.totp, o.state, y.uses)
  }

  // ------------------------------------------------------ what the gate's log says

  predicate ByTotp(e: Event) { (e.Verified? || e.Enrolled?) && e.factor == TOTP }

  /** The challenges whose TOTP factor was satisfied by a code, in order. */
  function TotpTokens(log: seq<Event>): (ts: seq<Token>) {
    if log == [] then [] else TotpTokens(Front(log)) + if ByTotp(Last(log)) then [Last(log).token] else []
  }

  /** Factors satisfied by a recovery code. */
  function Recoveries(log: seq<Event>): (n: nat) {
    if log == [] then 0 else Recoveries(Front(log)) + if Last(log).Recovered? then 1 else 0
  }

  lemma LogSnoc(log: seq<Event>, e: Event)
    ensures TotpTokens(log + [e]) == TotpTokens(log) + (if ByTotp(e) then [e.token] else [])
    ensures Recoveries(log + [e]) == Recoveries(log) + (if e.Recovered? then 1 else 0)
  {
    Snoc(log, e);
  }

  lemma AdvanceLogs(c: Config, g: Gate, token: Token, e: Entry, event: Event, now: nat, throws: bool)
    ensures var h := Advance(c, g, token, e, event, now, throws).gate;
            && TotpTokens(h.log) == TotpTokens(g.log) + (if ByTotp(event) then [event.token] else [])
            && Recoveries(h.log) == Recoveries(g.log) + (if event.Recovered? then 1 else 0)
  {
    hide TotpTokens, Recoveries;
    LogSnoc(g.log, event);
    LogSnoc(g.log + [event], Completed(token, e.login, now));
  }

  lemma SatisfyLogs(c: Config, g: Gate, token: Token, f: Factor, event: Event, now: nat, env: Env)
    requires token in g.pending
    ensures var h := Satisfy(c, g, token, f, event, now, env).gate;
            && TotpTokens(h.log) == TotpTokens(g.log) + (if ByTotp(event) then [event.token] else [])
            && Recoveries(h.log) == Recoveries(g.log) + (if event.Recovered? then 1 else 0)
  {
    hide TotpTokens, Recoveries, Advance;
    forall e, throws { AdvanceLogs(c, g, token, e, event, now, throws); }
  }

  lemma AdoptLogs(c: Config, g: Gate, token: Token, f: Factor, now: nat, env: Env)
    requires token in g.pending
    ensures var h := Adopt(c, g, token, f, now, env).gate;
            && TotpTokens(h.log) == TotpTokens(g.log) + (if f == TOTP then [token] else [])
            && Recoveries(h.log) == Recoveries(g.log)
  {
    hide TotpTokens, Recoveries, Advance;
    forall e, throws { AdvanceLogs(c, g, token, e, Enrolled(token, f), now, throws); }
  }

  /** Exactly the steps whose manager call was accepted satisfy a factor by that manager. */
  lemma TotpStepLogs(c: Config, g: Gate, op: Op, pick: string, code: string, admitted: bool)
    requires op.VerifyTotp?
    ensures var h := Step(c, g, op).gate;
            var call := TotpCall(c, g, op, pick, code, admitted);
            && TotpTokens(h.log) == TotpTokens(g.log) + (if call.Some? && op.env.accepted then [op.token] else [])
            && Recoveries(h.log) == Recoveries(g.log)
  {
    hide TotpTokens, Recoveries, Satisfy, Adopt;
    var l := Looked(g, op.token, op.now);
    if op.token in l.pending {
      SatisfyLogs(c, l, op.token, TOTP, Verified(op.token, TOTP), op.now, op.env);
      AdoptLogs(c, l, op.token, TOTP, op.now, op.env);
    }
  }

  lemma RecoveryStepLogs(c: Config, g: Gate, op: Op, pick: string, code: string, admitted: bool)
    requires op.VerifyRecovery?
    ensures var h := Step(c, g, op).gate;
            var call := RecoveryCall(c, g, op, pick, code, admitted);
            && TotpTokens(h.log) == TotpTokens(g.log)
            && Recoveries(h.log) == Recoveries(g.log) + (if call.Some? && op.env.accepted then 1 else 0)
  {
    hide TotpTokens, Recoveries, Satisfy, RecoveryTarget;
    var l := Looked(g, op.token, op.now);
    if op.token in l.pending && RecoveryTarget(l.pending[op.token]).Some? {
      var f := RecoveryTarget(l.pending[op.token]).value;
      SatisfyLogs(c, l, op.token, f, Recovered(op.token, f), op.now, op.env);
    }
  }

  lemma OtherStepLogs(c: Config, g: Gate, op: Op)
    requires !op.VerifyTotp? && !op.VerifyRecovery?
    ensures var h := Step(c, g, op).gate;
            TotpTokens(h.log) == TotpTokens(g.log) && Recoveries(h.log) == Recoveries(g.log)
  {
    hide TotpTokens, Recoveries, Satisfy, Adopt, NeedsOf, Unexpired;
    var l := Looked(g, op.token, op.now);
    if op.Begin? {
      var n := NeedsOf(c, op.totp, op.webauthn);
      if n.Some? {
        LogSnoc(g.log, Began(op.token, op.login, n.value.enrolled, n.value.needs, op.later + c.ttlMs));
      }
    } else if op.WebauthnComplete? && op.token in l.pending {
      SatisfyLogs(c, l, op.token, WEBAUTHN, Verified(op.token, WEBAUTHN), op.now, op.env);
      AdoptLogs(c, l, op.token, WEBAUTHN, op.now, op.env);
    }
  }

  // ------------------------------------------------------ used recovery codes

  ghost function UsedByFactor(s: Recovery.State): (m: map<string, nat>) {
    map id | id in s.factors :: Recovery.Used(s.factors[id].entries)
  }

  /** All recovery codes ever used up. */
  ghost function UsedTotal(s: Recovery.State): (n: nat) { Sum(UsedByFactor(s)) }

  lemma UsedTotalStep(c: Recovery.Config, s: Recovery.State, call: Recovery.Call)
    ensures var o := Recovery.Apply(c, s, call);
            UsedTotal(o.state) == UsedTotal(s) + if o.verdict.Recovered? then 1 else 0
  {
    hide Recovery.Used, Sum, Recovery.Apply;
    var o := Recovery.Apply(c, s, call);
    forall id | id != call.id ensures
      && (id in o.state.factors <==> id in s.factors)
      && (id in s.factors ==> o.state.factors[id] == s.factors[id])
      && (call.id in s.factors ==> call.id in o.state.factors)
    {
      Recovery.OthersUntouched(c, s, call, id);
    }
    Recovery.OthersUntouched(c, s, call, call.id + "'");
    Recovery.OneCodePerRecovery(c, s, call, call.id);
    var m, n := UsedByFactor(s), UsedByFactor(o.state);
    if call.id in o.state.factors {
      SumUpdate(m, call.id, n[call.id]);
      assert n == m[call.id := n[call.id]];
      if call.id in m { SumRemove(m, call.id); } else { SumAbsent(m, call.id); }
    } else {
      assert n == m;
    }
  }

  // ------------------------------------------------------ the invariant

  /** Distinct uses of one factor have distinct counters. */
  predicate OncePerStep(uses: seq<Use>) {
    forall i, j :: 0 <= i < j < |uses| && uses[i].factor == uses[j].factor ==> uses[i].counter < uses[j].counter
  }

  predicate Behind(uses: seq<Use>, totp: Totp.State) {
    forall i :: 0 <= i < |uses| ==>
      && uses[i].factor in totp.factors
      && totp.factors[uses[i].factor].lastUsed.Some?
      && uses[i].counter <= totp.factors[uses[i].factor].lastUsed.value
  }

  ghost predicate SysInv(y: System) {
    && OncePerStep(y.uses)
    && Behind(y.uses, y.totp)
    && TotpTokens(y.gate.log) == seq(|y.uses|, i requires 0 <= i < |y.uses| => y.uses[i].token)
    && Recoveries(y.gate.log) == UsedTotal(y.recovery)
  }

  lemma UsesAdvance(c: Totp.Config, s: Totp.State, call: Totp.Call, uses: seq<Use>)
    requires Totp.ValidConfig(c) && Behind(uses, s)
    ensures Behind(uses, Totp.Apply(c, s, call).state)
    ensures var o := Totp.Apply(c, s, call);
            o.verdict.Verified? ==>
              && call.id in o.state.factors
              && o.state.factors[call.id].lastUsed == Some(o.verdict.counter)
              && forall i :: 0 <= i < |uses| && uses[i].factor == call.id ==> uses[i].counter < o.verdict.counter
  {
    hide Totp.Apply;
    forall i | 0 <= i < |uses| ensures
      && uses[i].factor in Totp.Apply(c, s, call).state.factors
      && Totp.Apply(c, s, call).state.factors[uses[i].factor].lastUsed.Some?
      && uses[i].counter <= Totp.Apply(c, s, call).state.factors[uses[i].factor].lastUsed.value
    {
      Totp.LastUsedAdvances(c, s, call, uses[i].factor);
    }
    Totp.LastUsedAdvances(c, s, call, call.id);
  }

  lemma SysStepKeepsInv(s: Settings, y: System, sop: SysOp)
    requires Totp.ValidConfig(s.totp) && WellTyped(sop) && SysInv(y)
    ensures SysInv(SysStep(s, y, sop))
  {
    hide Step, Totp.Apply, Recovery.Apply, TotpTokens, Recoveries, UsedTotal, Behind, TotpCall, RecoveryCall;
    match sop
    case Other(op) => OtherStepLogs(s.gate, y.gate, op);
    case TotpElsewhere(call) => UsesAdvance(s.totp, y.totp, call, y.uses);
    case RecoveryElsewhere(call) =>
      UsedTotalStep(s.recovery, y.recovery, call);
      OnlyConsumeRecovers(s.recovery, y.recovery, call);
    case RecoveryStep(op, pick, code, admitted) =>
      var call := RecoveryCall(s.gate, y.gate, op, pick, code, admitted);
      var accepted := call.Some? && Recovery.Apply(s.recovery, y.recovery, call.value).verdict.Recovered?;
      RecoveryCallSame(s.gate, y.gate, op, pick, code, admitted, accepted);
      RecoveryStepLogs(s.gate, y.gate, Accepting(op, accepted), pick, code, admitted);
      if call.Some? { UsedTotalStep(s.recovery, y.recovery, call.value); }
    case TotpStep(op, pick, code, admitted) => TotpStepKeepsInv(s, y, op, pick, code, admitted);
  }

  lemma OnlyConsumeRecovers(c: Recovery.Config, s: Recovery.State, call: Recovery.Call)
    requires !call.Consume?
    ensures !Recovery.Apply(c, s, call).verdict.Recovered?
  {
  }

  /** Which call is made does not depend on the answer. */
  lemma RecoveryCallSame(c: Config, g: Gate, op: Op, pick: string, code: string, admitted: bool, accepted: bool)
    requires op.VerifyRecovery?
    ensures RecoveryCall(c, g, Accepting(op, accepted), pick, code, admitted)
            == RecoveryCall(c, g, op, pick, code, admitted)
  {
  }

  lemma TotpCallSame(c: Config, g: Gate, op: Op, pick: string, code: string, admitted: bool, accepted: bool)
    requires op.VerifyTotp?
    ensures TotpCall(c, g, Accepting(op, accepted), pick, code, admitted) == TotpCall(c, g, op, pick, code, admitted)
  {
  }

  lemma TotpStepKeepsInv(s: Settings, y: System, op: Op, pick: string, code: string, admitted: bool)
    requires Totp.ValidConfig(s.totp) && op.VerifyTotp? && SysInv(y)
    ensures SysInv(SysStep(s, y, TotpStep(op, pick, code, admitted)))
  {
    hide Step, Totp.Apply, TotpTokens, Recoveries, UsedTotal, TotpCall;
    var call := TotpCall(s.gate, y.gate, op, pick, code, admitted);
    if call.None? {
      TotpCallSame(s.gate, y.gate, op, pick, code, admitted, false);
      TotpStepLogs(s.gate, y.gate, Accepting(op, false), pick, code, admitted);
    } else {
      var o := Totp.Apply(s.totp, y.totp, call.value);
      UsesAdvance(s.totp, y.totp, call.value, y.uses);
      TotpCallSame(s.gate, y.gate, op, pick, code, admitted, o.verdict.Verified?);
      TotpStepLogs(s.gate, y.gate, Accepting(op, o.verdict.Verified?), pick, code, admitted);
    }
  }

  const BLANK: System := System(START, Totp.EMPTY, Recovery.EMPTY, [])

  ghost function SysRun(s: Settings, y: System, sops: seq<SysOp>): (z: System)
    requires Totp.ValidConfig(s.totp) && forall sop :: sop in sops ==> WellTyped(sop)
    decreases |sops|
  {
    if sops == [] then y else SysRun(s, SysStep(s, y, sops[0]), sops[1..])
  }

  lemma {:induction false} SysRunKeepsInv(s: Settings, y: System, sops: seq<SysOp>)
    requires Totp.ValidConfig(s.totp) && (forall sop :: sop in sops ==> WellTyped(sop)) && SysInv(y)
    ensures SysInv(SysRun(s, y, sops))
    decreases |sops|
  {
    hide SysStep, SysInv;
    if sops != [] {
      SysStepKeepsInv(s, y, sops[0]);
      SysRunKeepsInv(s, SysStep(s, y, sops[0]), sops[1..]);
    }
  }

  /**
   Over the whole life of the system each challenge satisfied by a TOTP code
   consumed a time step of a factor that no other challenge consumed, and the
   factors satisfied by recovery are as many as the recovery codes used up.
   */
  lemma EachCredentialCountsOnce(s: Settings, sops: seq<SysOp>)
    requires Totp.ValidConfig(s.totp) && forall sop :: sop in sops ==> WellTyped(sop)
    ensures var z := SysRun(s, BLANK, sops);
            && TotpTokens(z.gate.log) == seq(|z.uses|, i requires 0 <= i < |z.uses| => z.uses[i].token)
            && (forall i, j :: 0 <= i < j < |z.uses| && z.uses[i].factor == z.uses[j].factor ==>
                  z.uses[i].counter != z.uses[j].counter)
            && Recoveries(z.gate.log) == UsedTotal(z.recovery)
  {
    hide SysRun;
    assert UsedByFactor(Recovery.EMPTY) == map[];
    SysRunKeepsInv(s, BLANK, sops);
  }
}
