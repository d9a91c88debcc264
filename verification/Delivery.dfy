/**
 Delivery of one queue entry by any number of concurrent `deliver` calls.  Every
 `await` is a step; what the SMTP server does is chosen freely at each of them.
 */
module Delivery {
  import opened Dates
  import opened MailQueue

  /** Why a command failed: the server's reply code, or anything else, such as a lost connection. */
  datatype Failure = Code(code: nat) | NoCode

  predicate Temporary(f: Failure) { f.Code? ==> 400 <= f.code < 500 }

  datatype Report = Reported(state: QueueState) | Raised

  /** Where one `deliver` call stands. */
  datatype Phase =
    | Idle
    | Connecting                                                        // connect, EHLO, STARTTLS, AUTH, MAIL FROM
    | Offering(accepted: seq<string>, rejected: seq<Failure>)           // RCPT TO, one recipient after the other
    | ClosingRefused(rejected: seq<Failure>)                            // no recipient was accepted
    | Reading                                                           // fetching the message text
    | Sending                                                           // DATA
    | ClosingSent                                                       // the server has confirmed the message
    | Ended(report: Report)

  predicate InFlight(p: Phase) { !p.Idle? && !p.Ended? }

  /** What happens next in one call. */
  datatype Action =
    | Start(factoryThrows: bool)
    | ConnectOk
    | ConnectFails(failure: Failure)
    | RcptOk
    | RcptFails(failure: Failure)
    | Proceed                        // past the last recipient
    | Closed                         // the connection is closed, or closing it failed
    | ReadOk
    | ReadFails
    | DataOk
    | DataFails(failure: Failure)    // a definite refusal, or a failure before the message was sent
    | DataUnknown(accepted: bool)    // the connection failed after the message was sent

  /** The entry, the calls, and how often the server took the message. */
  datatype World = World(entry: Entry, calls: map<nat, Phase>, accepts: nat, claims: nat, unknowns: nat)

  function PhaseOf(w: World, id: nat): (p: Phase) { if id in w.calls then w.calls[id] else Idle }

  function Stands(w: World, id: nat, p: Phase): (r: World) { w.(calls := w.calls[id := p]) }

  /** `queue.defer`, and the report of the call that made it. */
  function DeferStep(c: Config, w: World, id: nat, now: int): (r: World) {
    if Terminal(w.entry) then Stands(w, id, Ended(Raised))
    else
      var e := DeferredEntry(c, w.entry, now, "smtp_temporary_failure");
      Stands(w.(entry := e), id, Ended(if RetryAt(c, w.entry, now) <= MAX_DATE then Reported(e.state) else Raised))
  }

  /** `queue.complete`. */
  function CompleteStep(w: World, id: nat, state: QueueState, reason: string): (r: World) {
    Stands(w.(entry := CompletedEntry(w.entry, state, reason)), id, Ended(Reported(state)))
  }

  /** The `catch` block for everything but an unknown outcome. */
  function Recover(c: Config, w: World, id: nat, f: Failure, now: int): (r: World) {
    if Temporary(f) then DeferStep(c, w, id, now) else CompleteStep(w, id, Bounced, "smtp_rejected")
  }

  predicate PermanentOnly(rejected: seq<Failure>) {
    |rejected| > 0 && forall i :: 0 <= i < |rejected| ==> rejected[i].Code? && rejected[i].code >= 500
  }

  /** One step of call `id`; an action the call is not waiting for changes nothing. */
  function Step(c: Config, w: World, id: nat, a: Action, now: int): (r: World) {
    match (PhaseOf(w, id), a)
    case (Idle, Start(factoryThrows)) =>
      if !Claimable(w.entry) then Stands(w, id, Ended(Raised))
      else
        Stands(w.(entry := Claimed(w.entry), claims := w.claims + 1), id,
          if factoryThrows then Ended(Raised) else Connecting)
    case (Connecting, ConnectOk) => Stands(w, id, Offering([], []))
    case (Connecting, ConnectFails(f)) => Recover(c, w, id, f, now)
    case (Offering(accepted, rejected), RcptOk) =>
      var next := |accepted| + |rejected|;
      if next < |w.entry.recipients| then Stands(w, id, Offering(accepted + [w.entry.recipients[next]], rejected))
      else w
    case (Offering(accepted, rejected), RcptFails(f)) =>
      if |accepted| + |rejected| < |w.entry.recipients| then Stands(w, id, Offering(accepted, rejected + [f])) else w
    case (Offering(accepted, rejected), Proceed) =>
      if |accepted| + |rejected| < |w.entry.recipients| then w
      else Stands(w, id, if accepted == [] then ClosingRefused(rejected) else Reading)
    case (ClosingRefused(rejected), Closed) =>
      if PermanentOnly(rejected) then CompleteStep(w, id, Bounced, "smtp_rejected") else DeferStep(c, w, id, now)
    case (Reading, ReadOk) => Stands(w, id, Sending)
    case (Reading, ReadFails) => Recover(c, w, id, NoCode, now)
    case (Sending, DataOk) => Stands(w.(accepts := w.accepts + 1), id, ClosingSent)
    case (Sending, DataFails(f)) => Recover(c, w, id, f, now)
    case (Sending, DataUnknown(accepted)) =>
      CompleteStep(w.(accepts := if accepted then w.accepts + 1 else w.accepts, unknowns := w.unknowns + 1), id,
        Quarantined, "smtp_outcome_unknown")
    case (ClosingSent, Closed) => CompleteStep(w, id, Delivered, "smtp_delivered")
    case _ => w
  }

  // ------------------------------------------------------ the invariant

  ghost predicate OneInFlight(w: World) {
    forall i, j :: i in w.calls && j in w.calls && InFlight(w.calls[i]) && InFlight(w.calls[j]) ==> i == j
  }

  predicate NoneInFlight(w: World) { forall i :: i in w.calls ==> !InFlight(w.calls[i]) }

  ghost predicate Inv(c: Config, w: World) {
    && OneInFlight(w)
    && (!w.entry.state.Delivering? ==> NoneInFlight(w))
    && w.claims == w.entry.attempts
    && (Claimable(w.entry) ==> w.claims < c.maxAttempts)
    && w.claims <= c.maxAttempts
    && w.accepts <= 1
    && (w.accepts == 1 && !w.entry.state.Delivered? && !w.entry.state.Quarantined? ==>
          w.entry.state.Delivering? && forall i :: i in w.calls && InFlight(w.calls[i]) ==> w.calls[i].ClosingSent?)
    && (w.unknowns > 0 ==> w.entry.state.Quarantined?)
    && (w.accepts == 0 ==> (forall i :: i in w.calls ==> !w.calls[i].ClosingSent?) && !w.entry.state.Delivered?)
  }

  /** A call that ends its delivery leaves no call in flight. */
  lemma EndingKeepsInv(c: Config, w: World, id: nat, e: Entry, report: Report)
    requires Inv(c, w) && id in w.calls && InFlight(w.calls[id])
    requires e.attempts == w.entry.attempts && !e.state.Delivering?
    requires Claimable(e) ==> w.claims < c.maxAttempts && w.accepts == 0
    requires w.accepts == 1 ==> e.state.Delivered? || e.state.Quarantined?
    requires w.unknowns > 0 ==> e.state.Quarantined?
    requires w.accepts == 0 ==> !e.state.Delivered?
    ensures Inv(c, Stands(w.(entry := e), id, Ended(report)))
  {
  }

  lemma RecoverKeepsInv(c: Config, w: World, id: nat, f: Failure, now: int)
    requires Inv(c, w) && id in w.calls && InFlight(w.calls[id]) && !w.calls[id].ClosingSent?
    ensures Inv(c, Recover(c, w, id, f, now)) && Inv(c, DeferStep(c, w, id, now))
    ensures Inv(c, CompleteStep(w, id, Bounced, "smtp_rejected"))
  {
    hide Inv;
    InFlightFacts(c, w, id);
    EndingKeepsInv(c, w, id, CompletedEntry(w.entry, Bounced, "smtp_rejected"), Reported(Bounced));
    var e := DeferredEntry(c, w.entry, now, "smtp_temporary_failure");
    EndingKeepsInv(c, w, id, e, Reported(e.state));
    EndingKeepsInv(c, w, id, e, Raised);
  }

  /** While a call is in flight before the server's confirmation, nothing was accepted and nothing is unknown. */
  lemma InFlightFacts(c: Config, w: World, id: nat)
    requires Inv(c, w) && id in w.calls && InFlight(w.calls[id])
    ensures w.entry.state.Delivering? && w.unknowns == 0 && w.claims <= c.maxAttempts && w.claims == w.entry.attempts
    ensures w.accepts == if w.calls[id].ClosingSent? then 1 else 0
  {
  }

  /** Moving on within a delivery, without touching the entry. */
  lemma MovingKeepsInv(c: Config, w: World, id: nat, p: Phase)
    requires Inv(c, w) && id in w.calls && InFlight(w.calls[id]) && InFlight(p)
    requires !w.calls[id].ClosingSent? && !p.ClosingSent?
    ensures Inv(c, Stands(w, id, p))
  {
  }

  lemma StartKeepsInv(c: Config, w: World, id: nat, factoryThrows: bool)
    requires Inv(c, w) && PhaseOf(w, id).Idle?
    ensures Inv(c, Stands(w, id, Ended(Raised)))
    ensures Claimable(w.entry) ==>
              Inv(c,
                Stands(w.(entry := Claimed(w.entry), claims := w.claims + 1), id,
                  if factoryThrows then Ended(Raised) else Connecting))
  {
  }

  lemma SentKeepsInv(c: Config, w: World, id: nat, accepted: bool)
    requires Inv(c, w) && id in w.calls && w.calls[id].Sending?
    ensures Inv(c, Stands(w.(accepts := w.accepts + 1), id, ClosingSent))
    ensures Inv(c,
      CompleteStep(w.(accepts := if accepted then w.accepts + 1 else w.accepts, unknowns := w.unknowns + 1), id,
        Quarantined, "smtp_outcome_unknown"))
  {
    InFlightFacts(c, w, id);
  }

  lemma StepKeepsInv(c: Config, w: World, id: nat, a: Action, now: int)
    requires Inv(c, w)
    ensures Inv(c, Step(c, w, id, a, now))
  {
    hide Inv, PermanentOnly, Recover, DeferStep, CompleteStep, Claimable;
    var p := PhaseOf(w, id);
    if InFlight(p) {
      InFlightFacts(c, w, id);
      if !p.ClosingSent? {
        RecoverKeepsInv(c, w, id, if a.ConnectFails? || a.DataFails? then a.failure else NoCode, now);
      }
    }
    match (p, a)
    case (Idle, Start(factoryThrows)) => StartKeepsInv(c, w, id, factoryThrows);
    case (Connecting, ConnectOk) => MovingKeepsInv(c, w, id, Offering([], []));
    case (Offering(accepted, rejected), RcptOk) =>
      var next := |accepted| + |rejected|;
      if next < |w.entry.recipients| {
        MovingKeepsInv(c, w, id, Offering(accepted + [w.entry.recipients[next]], rejected));
      }
    case (Offering(accepted, rejected), RcptFails(f)) => MovingKeepsInv(c, w, id, Offering(accepted, rejected + [f]));
    case (Offering(accepted, rejected), Proceed) =>
      MovingKeepsInv(c, w, id, if accepted == [] then ClosingRefused(rejected) else Reading);
    case (Reading, ReadOk) => MovingKeepsInv(c, w, id, Sending);
    case (Sending, DataOk) => SentKeepsInv(c, w, id, true);
    case (Sending, DataUnknown(accepted)) => SentKeepsInv(c, w, id, accepted);
    case (ClosingSent, Closed) => DeliveredKeepsInv(c, w, id);
    case _ =>
  }

  lemma DeliveredKeepsInv(c: Config, w: World, id: nat)
    requires Inv(c, w) && id in w.calls && w.calls[id].ClosingSent?
    ensures Inv(c, CompleteStep(w, id, Delivered, "smtp_delivered"))
  {
    hide Inv;
    InFlightFacts(c, w, id);
    EndingKeepsInv(c, w, id, CompletedEntry(w.entry, Delivered, "smtp_delivered"), Reported(Delivered));
  }

  // ------------------------------------------------------ every interleaving

  datatype Move = Move(id: nat, action: Action, now: int)

  function Run(c: Config, w: World, moves: seq<Move>): (r: World)
    decreases |moves|
  {
    if moves == [] then w else Run(c, Step(c, w, moves[0].id, moves[0].action, moves[0].now), moves[1..])
  }

  predicate Enqueued(c: Config, w: World) {
    ValidConfig(c) && w.entry.state.Queued? && w.entry.attempts == 0 && w == World(w.entry, map[], 0, 0, 0)
  }

  lemma {:induction false} RunKeepsInv(c: Config, w: World, moves: seq<Move>)
    requires Inv(c, w)
    ensures Inv(c, Run(c, w, moves))
    decreases |moves|
  {
    hide Inv, Step;
    if moves != [] {
      StepKeepsInv(c, w, moves[0].id, moves[0].action, moves[0].now);
      RunKeepsInv(c, Step(c, w, moves[0].id, moves[0].action, moves[0].now), moves[1..]);
    }
  }

  /**
   For every interleaving of any number of `deliver` calls and every server
   behaviour: at most one delivery is in flight, the server takes the message
   at most once, an unknown outcome means quarantine, and the entry is claimed
   at most `maxAttempts` times.
   */
  lemma DeliveryIsExclusive(c: Config, w: World, moves: seq<Move>)
    requires Enqueued(c, w)
    ensures var z := Run(c, w, moves);
            && OneInFlight(z)
            && z.accepts <= 1
            && (z.accepts == 1 ==> !Claimable(z.entry) && !z.entry.state.Bounced?)
            && (z.entry.state.Delivered? ==> z.accepts == 1)
            && (z.unknowns > 0 ==> z.entry.state.Quarantined? && NoneInFlight(z))
            && z.claims == z.entry.attempts <= c.maxAttempts
  {
    hide Run;
    RunKeepsInv(c, w, moves);
  }

  /** Delivered, bounced and quarantined are final: no later move claims, changes or sends the entry again. */
  lemma TerminalIsFinal(c: Config, w: World, move: Move)
    requires Inv(c, w) && Terminal(w.entry)
    ensures var z := Step(c, w, move.id, move.action, move.now);
            z.entry == w.entry && z.accepts == w.accepts && z.claims == w.claims && z.unknowns == w.unknowns
  {
    var p := PhaseOf(w, move.id);
    assert move.id in w.calls ==> !InFlight(w.calls[move.id]);
  }

  lemma {:induction false} TerminalStays(c: Config, w: World, moves: seq<Move>)
    requires Inv(c, w) && Terminal(w.entry)
    ensures var z := Run(c, w, moves);
            z.entry == w.entry && z.accepts == w.accepts && z.claims == w.claims && z.unknowns == w.unknowns
    decreases |moves|
  {
    hide Inv, Step;
    if moves != [] {
      TerminalIsFinal(c, w, moves[0]);
      StepKeepsInv(c, w, moves[0].id, moves[0].action, moves[0].now);
      TerminalStays(c, Step(c, w, moves[0].id, moves[0].action, moves[0].now), moves[1..]);
    }
  }

  // ------------------------------------------------------ an entry that nobody can claim again

  /** The entry is being delivered, but no call is delivering it. */
  predicate Stuck(w: World) { w.entry.state.Delivering? && NoneInFlight(w) }

  /** The move claims the entry, and then the client factory throws. */
  predicate Strands(w: World, m: Move) { PhaseOf(w, m.id).Idle? && m.action == Start(true) && Claimable(w.entry) }

  /** One step leaves the entry stuck if and only if it claims it and the client factory throws. */
  lemma StepStrandsExactly(c: Config, w: World, m: Move)
    requires Inv(c, w) && !Stuck(w)
    ensures Stuck(Step(c, w, m.id, m.action, m.now)) <==> Strands(w, m)
  {
    hide PermanentOnly, RetryAt;
    var p := PhaseOf(w, m.id);
    var z := Step(c, w, m.id, m.action, m.now);
    if InFlight(p) {
      InFlightFacts(c, w, m.id);
      assert PhaseOf(z, m.id) == z.calls[m.id];
    } else if w.entry.state.Delivering? {
      var i :| i in w.calls && InFlight(w.calls[i]);
      assert i in z.calls && z.calls[i] == w.calls[i];
    } else if Strands(w, m) {
      assert z.calls == w.calls[m.id := Ended(Raised)];
    } else {
      assert !z.entry.state.Delivering? || (m.id in z.calls && InFlight(z.calls[m.id]));
    }
  }

  lemma StuckIsQuiet(c: Config, w: World, m: Move)
    requires Stuck(w)
    ensures var z := Step(c, w, m.id, m.action, m.now);
            Stuck(z) && z.entry == w.entry && z.accepts == w.accepts && z.claims == w.claims
  {
    assert m.id in w.calls ==> !InFlight(w.calls[m.id]);
  }

  /** A stuck entry stays as it is over every further run: never claimed, never sent, never reported on. */
  lemma {:induction false} StuckForever(c: Config, w: World, moves: seq<Move>)
    requires Stuck(w)
    ensures var z := Run(c, w, moves);
            Stuck(z) && z.entry == w.entry && z.accepts == w.accepts && z.claims == w.claims
    decreases |moves|
  {
    hide Stuck, Step;
    if moves != [] {
      StuckIsQuiet(c, w, moves[0]);
      StuckForever(c, Step(c, w, moves[0].id, moves[0].action, moves[0].now), moves[1..]);
    }
  }

  /** Some move of the run strands the entry. */
  predicate StrandsIn(c: Config, w: World, moves: seq<Move>)
    decreases |moves|
  {
    moves != []
    && (Strands(w, moves[0]) || StrandsIn(c, Step(c, w, moves[0].id, moves[0].action, moves[0].now), moves[1..]))
  }

  /** Over every run the entry ends up stuck if and only if some claim was followed by a throwing factory. */
  lemma {:induction false} RunStrandsExactly(c: Config, w: World, moves: seq<Move>)
    requires Inv(c, w) && !Stuck(w)
    ensures Stuck(Run(c, w, moves)) <==> StrandsIn(c, w, moves)
    decreases |moves|
  {
    hide Inv, Stuck, Step, Strands;
    if moves != [] {
      var z := Step(c, w, moves[0].id, moves[0].action, moves[0].now);
      StepKeepsInv(c, w, moves[0].id, moves[0].action, moves[0].now);
      StepStrandsExactly(c, w, moves[0]);
      if Stuck(z) { StuckForever(c, z, moves[1..]); } else { RunStrandsExactly(c, z, moves[1..]); }
    }
  }

  /** A fresh entry is stuck after one call whose factory throws. */
  lemma FactoryStrands(c: Config, w: World, call: nat, now: int)
    requires Enqueued(c, w)
    ensures Stuck(Run(c, w, [Move(call, Start(true), now)]))
  {
    var m := Move(call, Start(true), now);
    assert [m][1..] == [];
    assert Run(c, Step(c, w, call, Start(true), now), []) == Step(c, w, call, Start(true), now);
  }
}
