/**
 The lifecycle store as the program keeps it: every call assigns the fields of
 the account's record, and may still fail while writing the audit entry.
 */
module AccountStore {
  import opened Strings
  import opened Account

  class LifecycleStore {
    var accounts: map<Scope, Record>
    var results: map<string, Result>
    var events: seq<Event>
    ghost var history: seq<Fact>

    ghost function Abs(): (s: Store)
      reads this
    {
      Store(accounts, results, events, history)
    }

    constructor ()
      ensures Abs() == EMPTY
    {
      accounts, results, events, history := map[], map[], [], [];
    }

    method RegisterAccount(call: Call) returns (reply: Reply)
      requires call.Register? && WellFormed(call)
      modifies this
      ensures Outcome(Abs(), reply) == Apply(old(Abs()), call)
    {
      hide WellFormed, NormalPlan;
      if call.scope in accounts { return Raised(Exists); }
      if call.createdAt.None? { return Raised(InvalidTime); }
      var plan := NormalPlan(call.plan);
      if plan.None? { return Raised(InvalidPlan); }
      var account := Record(call.kind, Active, call.createdAt.value, None, None, None, None, None, plan.value, {},
        None);
      accounts := accounts[call.scope := account];
      if !call.auditable { return Raised(NotAuditable); }
      events := events + [RegisteredEvent(call.scope, plan.value)];
      reply := Output(Result("account_registered", account));
    }

    /** The deadline and the plan are computed after the state is assigned; either may fail. */
    method AssignRequest(call: Call, was: Record, key: string) returns (reply: Reply)
      requires call.Request? && call.requestedAt.Some? && call.scope in accounts && accounts[call.scope] == was
      modifies this
      ensures Outcome(Abs(), reply) == Perform(old(Abs()), call.scope, RequestChange(was, call, key))
    {
      hide NormalPlan, Deadline;
      var account, others := was, accounts;
      history := history
        + [RequestedFact(call.scope, call.requestedAt.value, call.days, RequestedRecord(account, call).plan)];
      account := account.(state := DeletionRequested, requestedAt := call.requestedAt);
      accounts := others[call.scope := account];
      var until := Deadline(call.requestedAt.value, call.days);
      if until.None? { return Raised(NotAuditable); }
      account := account.(until := until);
      accounts := others[call.scope := account];
      var plan := NormalPlan(Some(if call.plan.Some? then call.plan.value else account.plan));
      if plan.None? { return Raised(NotAuditable); }
      account := account.(plan := plan.value, request := Some(call.id));
      accounts := others[call.scope := account];
      events := events + [RequestedEvent(call.scope, call.id, account.until, account.plan)];
      results := results[key := Result("deletion_requested", account)];
      reply := Output(results[key]);
    }

    method RequestDeletion(call: Call) returns (reply: Reply)
      requires call.Request? && WellFormed(call)
      modifies this
      ensures Outcome(Abs(), reply) == Apply(old(Abs()), call)
    {
      hide WellFormed, CacheKey, RequestChange;
      var key := CacheKey("request", call.scope, call.id);
      if key in results { return Output(results[key]); }
      if call.confirmation != "DELETE:" + call.scope.user { return Raised(NotConfirmed); }
      if !call.actorOk || call.days < 1 || call.days > 3650 { return Raised(InvalidInput); }
      if call.requestedAt.None? { return Raised(InvalidTime); }
      if call.scope !in accounts { return Raised(NotFound); }
      var account := accounts[call.scope];
      if account.state != Active { return Raised(InvalidState); }
      if account.holds != {} { return Raised(OnHold); }
      reply := AssignRequest(call, account, key);
    }

    method SoftDeleteAccount(call: Call) returns (reply: Reply)
      requires call.SoftDelete? && WellFormed(call)
      modifies this
      ensures Outcome(Abs(), reply) == Apply(old(Abs()), call)
    {
      hide WellFormed;
      if call.scope !in accounts { return Raised(NotFound); }
      var account := accounts[call.scope];
      if account.state != DeletionRequested { return Raised(InvalidState); }
      if call.confirmation != "DELETE:" + call.scope.user { return Raised(NotConfirmed); }
      if call.request.Some? && call.request != account.request { return Raised(RequestMismatch); }
      if call.deletedAt.None? { return Raised(InvalidTime); }
      account := account.(state := SoftDeleted, softDeletedAt := call.deletedAt);
      accounts := accounts[call.scope := account];
      history := history + [SoftDeletedFact(call.scope)];
      if !call.auditable { return Raised(NotAuditable); }
      events := events + [SoftDeletedEvent(call.scope)];
      reply := Output(Result("soft_deleted", account));
    }

    method RestoreAccount(call: Call) returns (reply: Reply)
      requires call.Restore? && WellFormed(call)
      modifies this
      ensures Outcome(Abs(), reply) == Apply(old(Abs()), call)
    {
      hide WellFormed, CacheKey;
      var key := CacheKey("restore", call.scope, call.id);
      if key in results { return Output(results[key]); }
      if call.scope !in accounts { return Raised(NotFound); }
      var account := accounts[call.scope];
      if account.state != DeletionRequested && account.state != SoftDeleted && account.state != PurgePending {
        return Raised(InvalidState);
      }
      if call.restoredAt.None? { return Raised(InvalidTime); }
      if account.until.Some? && call.restoredAt.value > account.until.value { return Raised(WindowElapsed); }
      account := account.(state := Active);
      account := account.(until := None, queuedAt := None, requestedAt := None, softDeletedAt := None, request := None);
      accounts := accounts[call.scope := account];
      history := history + [RestoredFact(call.scope)];
      if !call.auditable { return Raised(NotAuditable); }
      events := events + [RestoredEvent(call.scope, call.id)];
      results := results[key := Result("account_restored", account)];
      reply := Output(results[key]);
    }

    method AddAccountHold(call: Call) returns (reply: Reply)
      requires call.AddHold? && WellFormed(call)
      modifies this
      ensures Outcome(Abs(), reply) == Apply(old(Abs()), call)
    {
      hide WellFormed;
      if call.scope !in accounts { return Raised(NotFound); }
      var account := accounts[call.scope];
      if call.hold in account.holds { return Output(Result("account_hold_added", account)); }
      if call.addedAt.None? { return Raised(InvalidTime); }
      account := account.(holds := account.holds + {call.hold});
      accounts := accounts[call.scope := account];
      history := history + [HeldFact(call.scope, call.hold)];
      if !call.auditable { return Raised(NotAuditable); }
      events := events + [HoldAddedEvent(call.scope, call.hold)];
      reply := Output(Result("account_hold_added", account));
    }

    method ReleaseAccountHold(call: Call) returns (reply: Reply)
      requires call.ReleaseHold? && WellFormed(call)
      modifies this
      ensures Outcome(Abs(), reply) == Apply(old(Abs()), call)
    {
      hide WellFormed;
      if call.scope !in accounts { return Raised(NotFound); }
      var account := accounts[call.scope];
      if call.hold !in account.holds { return Output(Result("account_hold_released", account)); }
      account := account.(holds := account.holds - {call.hold});
      accounts := accounts[call.scope := account];
      history := history + [FreedFact(call.scope, call.hold)];
      if !call.auditable { return Raised(NotAuditable); }
      events := events + [HoldReleasedEvent(call.scope, call.hold)];
      reply := Output(Result("account_hold_released", account));
    }

    method QueuePurge(call: Call) returns (reply: Reply)
      requires call.Queue? && WellFormed(call)
      modifies this
      ensures Outcome(Abs(), reply) == Apply(old(Abs()), call)
    {
      hide WellFormed, CacheKey;
      var key := CacheKey("queue", call.scope, call.id);
      if key in results { return Output(results[key]); }
      if call.scope !in accounts { return Raised(NotFound); }
      var account := accounts[call.scope];
      if account.state != SoftDeleted { return Raised(InvalidState); }
      if call.queuedAt.None? { return Raised(InvalidTime); }
      if account.until.None? || call.queuedAt.value < account.until.value { return Raised(WindowActive); }
      if account.holds != {} { return Raised(OnHold); }
      account := account.(state := PurgePending, queuedAt := call.queuedAt);
      accounts := accounts[call.scope := account];
      history := history + [QueuedFact(call.scope, call.queuedAt.value)];
      if !call.auditable { return Raised(NotAuditable); }
      events := events + [QueuedEvent(call.scope, call.id)];
      results := results[key := Result("purge_queued", account)];
      reply := Output(results[key]);
    }

    /** `normalizeResourceResults`: the first planned resource that is not reported purged refuses the call. */
    method ResourcesPurged(plan: seq<string>, done: set<string>) returns (ok: bool)
      ensures ok <==> AllDone(plan, done)
    {
      for i := 0 to |plan|
        invariant forall k :: 0 <= k < i ==> plan[k] in done
      {
        if plan[i] !in done { return false; }
      }
      ok := true;
    }

    method CompletePurge(call: Call) returns (reply: Reply)
      requires call.Complete? && WellFormed(call)
      modifies this
      ensures Outcome(Abs(), reply) == Apply(old(Abs()), call)
    {
      hide WellFormed, CacheKey, AllDone;
      var key := CacheKey("complete", call.scope, call.id);
      if key in results { return Output(results[key]); }
      if call.scope !in accounts { return Raised(NotFound); }
      var account := accounts[call.scope];
      if account.state != PurgePending { return Raised(InvalidState); }
      if call.confirmation != "PURGE:" + call.scope.user { return Raised(NotConfirmed); }
      if account.holds != {} { return Raised(OnHold); }
      var ok := ResourcesPurged(account.plan, call.done);
      if !ok { return Raised(Incomplete); }
      if call.completedAt.None? { return Raised(InvalidTime); }
      account := account.(state := Purged, purgedAt := call.completedAt);
      accounts := accounts[call.scope := account];
      history := history + [PurgedFact(call.scope, call.done)];
      if !call.auditable { return Raised(NotAuditable); }
      events := events + [PurgedEvent(call.scope, call.id)];
      results := results[key := Result("account_purged", account)];
      reply := Output(results[key]);
    }

    /** Any call, after the checks on the form of its ids. */
    method Call(call: Call) returns (reply: Reply)
      modifies this
      ensures Outcome(Abs(), reply) == Apply(old(Abs()), call)
    {
      var wellFormed := WellFormed(call);
      if !wellFormed { return Raised(InvalidInput); }
      hide WellFormed, Apply;
      match call {
        case Register(_, _, _, _, _) => reply := RegisterAccount(call);
        case Request(_, _, _, _, _, _, _) => reply := RequestDeletion(call);
        case SoftDelete(_, _, _, _, _) => reply := SoftDeleteAccount(call);
        case Restore(_, _, _, _) => reply := RestoreAccount(call);
        case AddHold(_, _, _, _) => reply := AddAccountHold(call);
        case ReleaseHold(_, _, _) => reply := ReleaseAccountHold(call);
        case Queue(_, _, _, _) => reply := QueuePurge(call);
        case Complete(_, _, _, _, _, _) => reply := CompletePurge(call);
      }
    }

    /** One call after the other. */
    method CallAll(calls: seq<Call>)
      modifies this
      ensures Abs() == Run(old(Abs()), calls)
    {
      hide Apply;
      assert calls[0..] == calls;
      for i := 0 to |calls|
        invariant Run(Abs(), calls[i..]) == Run(old(Abs()), calls)
      {
        assert calls[i..][1..] == calls[i + 1..];
        var _ := Call(calls[i]);
      }
    }
  }
}
