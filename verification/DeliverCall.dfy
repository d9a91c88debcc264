/**
 One `deliver` call from beginning to end, over the queue object: what it does
 is a run of the delivery machine.
 */
module DeliverCall {
  import opened Strings
  import opened Dates
  import opened Radix
  import opened MailQueue
  import opened Delivery

  /** What the client and the server do in one call. */
  datatype Server = Server(
    factoryThrows: bool, connect: Option<Failure>, rcpt: seq<Option<Failure>>, readFails: bool, data: DataOutcome,
    now: int)

  datatype DataOutcome = Taken | Failing(failure: Failure) | Lost(accepted: bool)

  function RcptAt(s: Server, i: nat): (r: Option<Failure>) { if i < |s.rcpt| then s.rcpt[i] else None }

  lemma {:induction false} RunSnoc(c: Config, w: World, moves: seq<Move>, m: Move)
    ensures Run(c, w, moves + [m]) == Step(c, Run(c, w, moves), m.id, m.action, m.now)
    decreases |moves|
  {
    hide Step;
    if moves == [] {
      assert [] + [m] == [m] && [m][1..] == [];
    } else {
      assert (moves + [m])[1..] == moves[1..] + [m];
      RunSnoc(c, Step(c, w, moves[0].id, moves[0].action, moves[0].now), moves[1..], m);
    }
  }

  lemma RunOne(c: Config, w: World, m: Move)
    ensures Run(c, w, [m]) == Step(c, w, m.id, m.action, m.now)
  {
    hide Step;
    assert [m][1..] == [];
  }

  // ------------------------------------------------------ how a call must end

  /** A retry later, with the backoff doubled at every attempt, until the attempts are used up. */
  function Later(c: Config, e: Entry, now: int): (r: Entry) {
    var at := now + c.retryBaseMs * Pow2(if e.attempts == 0 then 0 else e.attempts - 1);
    var stored := if e.attempts < c.maxAttempts then e.(state := Deferred, reason := "smtp_temporary_failure")
                  else e.(state := Bounced, reason := "retry_exhausted");
    if at > MAX_DATE then stored else stored.(nextAttemptAt := at)
  }

  /** A reply from 400 to 499, or none at all, may pass; any other refuses for good. */
  function AfterFailure(c: Config, e: Entry, f: Failure, now: int): (r: Entry) {
    match f
    case NoCode => Later(c, e, now)
    case Code(k) => if k < 400 || k > 499 then e.(state := Bounced, reason := "smtp_rejected") else Later(c, e, now)
  }

  function Taking(recipients: seq<string>, s: Server): (r: seq<string>) {
    if recipients == [] then []
    else
      var n := |recipients| - 1;
      Taking(recipients[..n], s) + (if RcptAt(s, n).None? then [recipients[n]] else [])
  }

  function Refusing(recipients: seq<string>, s: Server): (r: seq<Failure>) {
    if recipients == [] then []
    else
      var n := |recipients| - 1;
      Refusing(recipients[..n], s) + (if RcptAt(s, n).Some? then [RcptAt(s, n).value] else [])
  }

  /** With every recipient refused: for good only if every reply says so. */
  function AfterRefusals(c: Config, e: Entry, s: Server): (r: Entry) {
    if e.recipients != [] && forall i :: 0 <= i < |e.recipients| ==>
      RcptAt(s, i).Some? && RcptAt(s, i).value.Code? && RcptAt(s, i).value.code >= 500
    then e.(state := Bounced, reason := "smtp_rejected")
    else Later(c, e, s.now)
  }

  /** After the message was offered to the server. */
  function AfterSending(c: Config, e: Entry, s: Server): (r: Entry) {
    if s.readFails then Later(c, e, s.now)
    else match s.data
      case Taken => e.(state := Delivered, reason := "smtp_delivered")
      case Failing(f) => AfterFailure(c, e, f, s.now)
      case Lost(_) => e.(state := Quarantined, reason := "smtp_outcome_unknown")
  }

  /** The entry that a call leaves behind, from what the client and the server did. */
  function AfterCall(c: Config, e: Entry, s: Server): (r: Entry) {
    if s.connect.Some? then AfterFailure(c, e, s.connect.value, s.now)
    else if forall i :: 0 <= i < |e.recipients| ==> RcptAt(s, i).Some? then AfterRefusals(c, e, s)
    else AfterSending(c, e, s)
  }

  lemma NoneTaken(recipients: seq<string>, s: Server)
    ensures Taking(recipients, s) == [] <==> forall i :: 0 <= i < |recipients| ==> RcptAt(s, i).Some?
    ensures Taking(recipients, s) == [] ==> |Refusing(recipients, s)| == |recipients|
    ensures Taking(recipients, s) == [] ==>
              forall i :: 0 <= i < |recipients| ==> Refusing(recipients, s)[i] == RcptAt(s, i).value
  {
    if recipients != [] {
      var n := |recipients| - 1;
      NoneTaken(recipients[..n], s);
      if RcptAt(s, n).Some? && Taking(recipients[..n], s) == [] {
        assert Refusing(recipients, s) == Refusing(recipients[..n], s) + [RcptAt(s, n).value];
      }
    }
  }

  // ------------------------------------------------------ the call

  /** The queue holds the entry of the world, and the call stands at `p`. */
  ghost predicate Tracks(queue: Queue, key: string, w: World, call: nat, p: Phase)
    reads queue
  {
    key in queue.entries && queue.entries[key] == w.entry && PhaseOf(w, call) == p
  }

  /** The call reports the state it leaves behind; only a retry time that is no date makes it throw. */
  ghost predicate Reports(queue: Queue, key: string, e: Entry, now: int, report: Report)
    reads queue
  {
    && key in queue.entries
    && (report.Reported? ==> report.state == queue.entries[key].state)
    && (now + queue.config.retryBaseMs * Pow2(if e.attempts == 0 then 0 else e.attempts - 1) <= MAX_DATE ==>
          report.Reported?)
  }

  lemma ReportsState(queue: Queue, key: string, e: Entry, now: int, report: Report)
    requires key in queue.entries && report == Reported(queue.entries[key].state)
    ensures Reports(queue, key, e, now, report)
  {
  }

  /** `defer`, after a failure that may pass. */
  method DeferEntry(queue: Queue, key: string, tenant: string, now: int, ghost w: World, ghost call: nat)
    returns (report: Report)
    requires key in queue.entries && queue.entries[key] == w.entry && w.entry.tenant == tenant
    modifies queue
    ensures Tracks(queue, key, DeferStep(queue.config, w, call, now), call, Ended(report))
    ensures !Terminal(w.entry) ==> Reports(queue, key, w.entry, now, report)
    ensures !Terminal(w.entry) ==> queue.entries[key] == Later(queue.config, w.entry, now)
    ensures queue.entries.Keys == old(queue.entries.Keys)
    ensures forall k :: k in queue.entries && k != key ==> queue.entries[k] == old(queue.entries[k])
  {
    hide Pow2;
    var reply := queue.Defer(key, tenant, now, "smtp_temporary_failure");
    report := if reply.Done? then Reported(reply.entry.state) else Raised;
  }

  /** `complete`. */
  method CompleteEntry(queue: Queue, key: string, tenant: string, state: QueueState, reason: string, ghost w: World,
    ghost call: nat)
    returns (report: Report)
    requires key in queue.entries && queue.entries[key] == w.entry && w.entry.tenant == tenant
    requires state.Delivered? || state.Bounced? || state.Quarantined?
    modifies queue
    ensures Tracks(queue, key, CompleteStep(w, call, state, reason), call, Ended(report))
    ensures queue.entries[key] == w.entry.(state := state, reason := reason) && report == Reported(state)
    ensures queue.entries.Keys == old(queue.entries.Keys)
    ensures forall k :: k in queue.entries && k != key ==> queue.entries[k] == old(queue.entries[k])
  {
    var reply := queue.Complete(key, tenant, state, reason);
    report := Reported(reply.entry.state);
  }

  /** The `catch` block. */
  method RecoverEntry(queue: Queue, key: string, tenant: string, failure: Failure, now: int, ghost w: World,
    ghost call: nat)
    returns (report: Report)
    requires key in queue.entries && queue.entries[key] == w.entry && w.entry.tenant == tenant
    modifies queue
    ensures Tracks(queue, key, Recover(queue.config, w, call, failure, now), call, Ended(report))
    ensures !Terminal(w.entry) ==> Reports(queue, key, w.entry, now, report)
    ensures !Terminal(w.entry) ==> queue.entries[key] == AfterFailure(queue.config, w.entry, failure, now)
    ensures queue.entries.Keys == old(queue.entries.Keys)
    ensures forall k :: k in queue.entries && k != key ==> queue.entries[k] == old(queue.entries[k])
  {
    hide DeferStep, CompleteStep, Later, Terminal;
    if Temporary(failure) {
      report := DeferEntry(queue, key, tenant, now, w, call);
    } else {
      report := CompleteEntry(queue, key, tenant, Bounced, "smtp_rejected", w, call);
    }
  }

  /** The loop over the recipients. */
  method Offer(ghost c: Config, recipients: seq<string>, s: Server, ghost w: World, ghost call: nat)
    returns (accepted: seq<string>, rejected: seq<Failure>, ghost moves: seq<Move>)
    requires w.entry.recipients == recipients && PhaseOf(w, call) == Offering([], [])
    ensures var z := Run(c, w, moves); z == Stands(w, call, Offering(accepted, rejected))
    ensures |accepted| + |rejected| == |recipients|
    ensures accepted == Taking(recipients, s) && rejected == Refusing(recipients, s)
    ensures forall m :: m in moves ==> m.id == call
  {
    hide Run;
    accepted, rejected, moves := [], [], [];
    ghost var z := w;
    RunNothing(c, w);
    assert Stands(w, call, Offering([], [])) == w;
    for i := 0 to |recipients|
      invariant |accepted| + |rejected| == i
      invariant accepted == Taking(recipients[..i], s) && rejected == Refusing(recipients[..i], s)
      invariant z == Run(c, w, moves) && z == Stands(w, call, Offering(accepted, rejected))
      invariant forall m :: m in moves ==> m.id == call
    {
      assert recipients[..i + 1][..i] == recipients[..i];
      match RcptAt(s, i) {
        case None =>
          RunSnoc(c, w, moves, Move(call, RcptOk, s.now));
          moves := moves + [Move(call, RcptOk, s.now)];
          accepted := accepted + [recipients[i]];
        case Some(f) =>
          RunSnoc(c, w, moves, Move(call, RcptFails(f), s.now));
          moves := moves + [Move(call, RcptFails(f), s.now)];
          rejected := rejected + [f];
      }
      z := Run(c, w, moves);
    }
    assert recipients[..|recipients|] == recipients;
  }

  lemma RunNothing(c: Config, w: World)
    ensures Run(c, w, []) == w
  {
  }

  lemma {:induction false} RunAppend(c: Config, w: World, a: seq<Move>, b: seq<Move>)
    ensures Run(c, w, a + b) == Run(c, Run(c, w, a), b)
    decreases |a|
  {
    hide Step;
    if a == [] {
      assert a + b == b;
    } else {
      assert (a + b)[1..] == a[1..] + b;
      RunAppend(c, Step(c, w, a[0].id, a[0].action, a[0].now), a[1..], b);
    }
  }

  lemma RunTwo(c: Config, w: World, a: Move, b: Move)
    ensures Run(c, w, [a, b]) == Step(c, Step(c, w, a.id, a.action, a.now), b.id, b.action, b.now)
  {
    hide Step;
    assert [a, b][1..] == [b];
    RunOne(c, Step(c, w, a.id, a.action, a.now), b);
  }

  function SendingWorld(w: World, call: nat): (r: World) { Stands(w, call, Sending) }

  function SentWorld(w: World, call: nat): (r: World) {
    Stands(SendingWorld(w, call).(accepts := w.accepts + 1), call, ClosingSent)
  }

  function LostWorld(w: World, call: nat, taken: bool): (r: World) {
    SendingWorld(w, call).(accepts := if taken then w.accepts + 1 else w.accepts, unknowns := w.unknowns + 1)
  }

  lemma ReadSteps(c: Config, w: World, call: nat, now: int)
    requires PhaseOf(w, call) == Reading
    ensures Step(c, w, call, ReadFails, now) == Recover(c, w, call, NoCode, now)
    ensures Step(c, w, call, ReadOk, now) == SendingWorld(w, call)
  {
    hide Recover;
  }

  lemma DataSteps(c: Config, w: World, call: nat, f: Failure, taken: bool, now: int)
    ensures Step(c, SendingWorld(w, call), call, DataOk, now) == SentWorld(w, call)
    ensures Step(c, SendingWorld(w, call), call, DataFails(f), now) == Recover(c, SendingWorld(w, call), call, f, now)
    ensures Step(c, SendingWorld(w, call), call, DataUnknown(taken), now)
            == CompleteStep(LostWorld(w, call, taken), call, Quarantined, "smtp_outcome_unknown")
    ensures Step(c, SentWorld(w, call), call, Closed, now)
            == CompleteStep(SentWorld(w, call), call, Delivered, "smtp_delivered")
  {
    hide Recover, CompleteStep;
  }

  /** DATA and what follows it. */
  method Send(queue: Queue, key: string, tenant: string, s: Server, ghost w: World, ghost call: nat)
    returns (report: Report, ghost moves: seq<Move>)
    requires Tracks(queue, key, w, call, Reading) && w.entry.tenant == tenant
    modifies queue
    ensures Tracks(queue, key, Run(queue.config, w, moves), call, Ended(report))
    ensures !Terminal(w.entry) ==> Reports(queue, key, w.entry, s.now, report)
    ensures !Terminal(w.entry) ==> queue.entries[key] == AfterSending(queue.config, w.entry, s)
    ensures queue.entries.Keys == old(queue.entries.Keys)
    ensures forall k :: k in queue.entries && k != key ==> queue.entries[k] == old(queue.entries[k])
    ensures forall m :: m in moves ==> m.id == call
  {
    hide Recover, CompleteStep, Run, Step, PhaseOf, Later, Terminal;
    ghost var c := queue.config;
    ReadSteps(c, w, call, s.now);
    DataSteps(c, w, call, if s.data.Failing? then s.data.failure else NoCode, s.data.Lost? && s.data.accepted, s.now);
    if s.readFails {
      moves := [Move(call, ReadFails, s.now)];
      RunOne(c, w, moves[0]);
      report := RecoverEntry(queue, key, tenant, NoCode, s.now, w, call);
      return;
    }
    match s.data {
      case Taken =>
        moves := [Move(call, ReadOk, s.now), Move(call, DataOk, s.now)];
        RunTwo(c, w, moves[0], moves[1]);
        RunSnoc(c, w, moves, Move(call, Closed, s.now));
        moves := moves + [Move(call, Closed, s.now)];
        report := CompleteEntry(queue, key, tenant, Delivered, "smtp_delivered", SentWorld(w, call), call);
      case Failing(f) =>
        moves := [Move(call, ReadOk, s.now), Move(call, DataFails(f), s.now)];
        RunTwo(c, w, moves[0], moves[1]);
        report := RecoverEntry(queue, key, tenant, f, s.now, SendingWorld(w, call), call);
      case Lost(taken) =>
        moves := [Move(call, ReadOk, s.now), Move(call, DataUnknown(taken), s.now)];
        RunTwo(c, w, moves[0], moves[1]);
        report := CompleteEntry(queue, key, tenant, Quarantined, "smtp_outcome_unknown", LostWorld(w, call, taken),
          call);
    }
  }

  lemma OfferSteps(c: Config, w: World, call: nat, f: Failure, accepted: seq<string>, rejected: seq<Failure>, now: int)
    requires PhaseOf(w, call) == Connecting && |accepted| + |rejected| == |w.entry.recipients|
    ensures Step(c, w, call, ConnectFails(f), now) == Recover(c, w, call, f, now)
    ensures Step(c, w, call, ConnectOk, now) == Stands(w, call, Offering([], []))
    ensures Step(c, Stands(w, call, Offering(accepted, rejected)), call, Proceed, now)
            == Stands(w, call, if accepted == [] then ClosingRefused(rejected) else Reading)
    ensures var z := Stands(w, call, ClosingRefused(rejected));
            Step(c, z, call, Closed, now)
            == if PermanentOnly(rejected) then CompleteStep(z, call, Bounced, "smtp_rejected")
               else DeferStep(c, z, call, now)
    ensures forall p, q :: Stands(Stands(w, call, p), call, q) == Stands(w, call, q)
  {
    hide Recover, CompleteStep, DeferStep, PermanentOnly;
    forall p, q ensures Stands(Stands(w, call, p), call, q) == Stands(w, call, q) {
      assert w.calls[call := p][call := q] == w.calls[call := q];
    }
    assert Stands(Stands(w, call, Offering(accepted, rejected)), call, Reading) == Stands(w, call, Reading);
  }

  lemma RefusalsAgree(c: Config, e: Entry, s: Server)
    requires Taking(e.recipients, s) == []
    ensures AfterRefusals(c, e, s) == if PermanentOnly(Refusing(e.recipients, s))
                                      then e.(state := Bounced, reason := "smtp_rejected") else Later(c, e, s.now)
  {
    hide Later, Taking, Refusing;
    NoneTaken(e.recipients, s);
  }

  /** From the connection on. */
  method Converse(queue: Queue, key: string, tenant: string, s: Server, ghost w: World, ghost call: nat)
    returns (report: Report, accepted: seq<string>, rejected: seq<Failure>, ghost moves: seq<Move>)
    requires Tracks(queue, key, w, call, Connecting) && w.entry.tenant == tenant
    modifies queue
    ensures Tracks(queue, key, Run(queue.config, w, moves), call, Ended(report))
    ensures !Terminal(w.entry) ==> Reports(queue, key, w.entry, s.now, report)
    ensures !Terminal(w.entry) ==> queue.entries[key] == AfterCall(queue.config, w.entry, s)
    ensures accepted == (if s.connect.Some? then [] else Taking(w.entry.recipients, s))
    ensures rejected == (if s.connect.Some? then [] else Refusing(w.entry.recipients, s))
    ensures queue.entries.Keys == old(queue.entries.Keys)
    ensures forall k :: k in queue.entries && k != key ==> queue.entries[k] == old(queue.entries[k])
    ensures forall m :: m in moves ==> m.id == call
  {
    hide Recover, CompleteStep, DeferStep, Run, Step, PermanentOnly, Later, AfterFailure, AfterSending, Taking,
      Refusing, Terminal, AfterRefusals, Reports;
    ghost var c := queue.config;
    accepted, rejected := [], [];
    if s.connect.Some? {
      moves := [Move(call, ConnectFails(s.connect.value), s.now)];
      RunOne(c, w, moves[0]);
      OfferSteps(c, w, call, s.connect.value, w.entry.recipients, [], s.now);
      report := RecoverEntry(queue, key, tenant, s.connect.value, s.now, w, call);
      return;
    }
    ghost var offering := Stands(w, call, Offering([], []));
    ghost var offers: seq<Move>;
    accepted, rejected, offers := Offer(c, queue.entries[key].recipients, s, offering, call);
    OfferSteps(c, w, call, NoCode, accepted, rejected, s.now);
    moves := [Move(call, ConnectOk, s.now)];
    RunOne(c, w, moves[0]);
    RunAppend(c, w, moves, offers);
    moves := moves + offers;
    assert Run(c, w, moves) == Stands(w, call, Offering(accepted, rejected));
    RunSnoc(c, w, moves, Move(call, Proceed, s.now));
    moves := moves + [Move(call, Proceed, s.now)];
    assert Run(c, w, moves) == Stands(w, call, if accepted == [] then ClosingRefused(rejected) else Reading);
    NoneTaken(w.entry.recipients, s);
    if accepted == [] {
      RefusalsAgree(c, w.entry, s);
      ghost var closing := Stands(w, call, ClosingRefused(rejected));
      RunSnoc(c, w, moves, Move(call, Closed, s.now));
      moves := moves + [Move(call, Closed, s.now)];
      assert Run(c, w, moves) == if PermanentOnly(rejected) then CompleteStep(closing, call, Bounced, "smtp_rejected")
                                 else DeferStep(c, closing, call, s.now);
      if PermanentOnly(rejected) {
        report := CompleteEntry(queue, key, tenant, Bounced, "smtp_rejected", closing, call);
        ReportsState(queue, key, w.entry, s.now, report);
      } else {
        report := DeferEntry(queue, key, tenant, s.now, closing, call);
      }
    } else {
      ghost var rest: seq<Move>;
      report, rest := Send(queue, key, tenant, s, Stands(w, call, Reading), call);
      RunAppend(c, w, moves, rest);
      moves := moves + rest;
    }
  }

  predicate Opens(e: Entry, s: Server) { (e.state.Queued? || e.state.Deferred?) && !s.factoryThrows }

  /** The entry after a whole call: only a queued or deferred one is claimed, and counts an attempt. */
  function AfterDelivery(c: Config, e: Entry, s: Server): (r: Entry) {
    if !e.state.Queued? && !e.state.Deferred? then e
    else
      var claimed := e.(state := Delivering, attempts := e.attempts + 1);
      if s.factoryThrows then claimed else AfterCall(c, claimed, s)
  }

  /**
   A whole call.  Seen from any world in which it has not started, it is a run of
   its own moves, ending in its report; no other entry is touched.
   */
  method Deliver(queue: Queue, key: string, tenant: string, s: Server, ghost w: World, ghost call: nat)
    returns (report: Report, accepted: seq<string>, rejected: seq<Failure>, ghost moves: seq<Move>)
    requires key in queue.entries ==> queue.entries[key] == w.entry
    requires PhaseOf(w, call).Idle?
    modifies queue
    ensures key !in old(queue.entries) || old(queue.entries)[key].tenant != tenant ==>
              report == Raised && queue.entries == old(queue.entries)
    ensures key in old(queue.entries) && w.entry.tenant == tenant ==>
              Tracks(queue, key, Run(queue.config, w, moves), call, Ended(report))
    ensures key in old(queue.entries) && w.entry.tenant == tenant ==>
              queue.entries[key] == AfterDelivery(queue.config, w.entry, s)
    ensures report.Reported? ==> key in queue.entries && report == Reported(queue.entries[key].state)
    ensures key in old(queue.entries) && w.entry.tenant == tenant && Opens(w.entry, s) ==>
              (s.now + queue.config.retryBaseMs * Pow2(w.entry.attempts) <= MAX_DATE ==> report.Reported?)
    ensures var open := key in old(queue.entries) && w.entry.tenant == tenant && Opens(w.entry, s);
            && accepted == (if open && s.connect.None? then Taking(w.entry.recipients, s) else [])
            && rejected == (if open && s.connect.None? then Refusing(w.entry.recipients, s) else [])
    ensures queue.entries.Keys == old(queue.entries.Keys)
    ensures forall k :: k in queue.entries && k != key ==> queue.entries[k] == old(queue.entries[k])
    ensures forall m :: m in moves ==> m.id == call
  {
    hide Run, AfterCall, Taking, Refusing;
    ghost var c := queue.config;
    accepted, rejected, moves := [], [], [];
    RunNothing(c, w);
    var claimed := queue.Claim(key, tenant);
    moves := [Move(call, Start(s.factoryThrows), s.now)];
    RunOne(c, w, moves[0]);
    if !claimed.Done? || s.factoryThrows {
      report := Raised;
      return;
    }
    ghost var started := Stands(w.(entry := Claimed(w.entry), claims := w.claims + 1), call, Connecting);
    ghost var rest: seq<Move>;
    report, accepted, rejected, rest := Converse(queue, key, tenant, s, started, call);
    RunAppend(c, w, moves, rest);
    moves := moves + rest;
  }
}
