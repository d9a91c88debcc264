/**
 The account deletion lifecycle: five states, a recovery window, holds, cached
 results and an audit log.
 */
module Account {
  import opened Strings
  import opened CacheKeys
  import opened Dates

  const RESOURCES: seq<string> := ["aliases", "delegations", "factors", "backups", "mailbox", "dav_collections",
    "preferences"]

  datatype Scope = Scope(tenant: string, user: string)

  datatype AccountState = Active | DeletionRequested | SoftDeleted | PurgePending | Purged

  datatype Record = Record(
    kind: string, state: AccountState, createdAt: int, requestedAt: Option<int>, softDeletedAt: Option<int>,
    until: Option<int>, queuedAt: Option<int>, purgedAt: Option<int>, plan: seq<string>, holds: set<string>,
    request: Option<string>)

  datatype Event =
    | RegisteredEvent(scope: Scope, plan: seq<string>)
    | RequestedEvent(scope: Scope, id: string, until: Option<int>, plan: seq<string>)
    | SoftDeletedEvent(scope: Scope)
    | RestoredEvent(scope: Scope, id: string)
    | HoldAddedEvent(scope: Scope, hold: string)
    | HoldReleasedEvent(scope: Scope, hold: string)
    | QueuedEvent(scope: Scope, id: string)
    | PurgedEvent(scope: Scope, id: string)

  /** What happened to an account, whether or not the audit log has heard of it. */
  datatype Fact =
    | RequestedFact(scope: Scope, at: int, days: int, plan: seq<string>)
    | SoftDeletedFact(scope: Scope)
    | RestoredFact(scope: Scope)
    | HeldFact(scope: Scope, hold: string)
    | FreedFact(scope: Scope, hold: string)
    | QueuedFact(scope: Scope, at: int)
    | PurgedFact(scope: Scope, done: set<string>)

  datatype Result = Result(operation: string, account: Record)

  datatype Store = Store(
    accounts: map<Scope, Record>, results: map<string, Result>, events: seq<Event>, history: seq<Fact>)

  /**
   A call.  A missing time is malformed.  `auditable` says whether the values
   that are read only once the account has been changed are well formed: actor,
   reason of a restore, time of a hold's release.
   */
  datatype Call =
    | Register(scope: Scope, kind: string, createdAt: Option<int>, plan: Option<seq<string>>, auditable: bool)
    | Request(
        scope: Scope, id: string, confirmation: string, actorOk: bool, requestedAt: Option<int>, days: int,
        plan: Option<seq<string>>)
    | SoftDelete(scope: Scope, confirmation: string, request: Option<string>, deletedAt: Option<int>, auditable: bool)
    | Restore(scope: Scope, id: string, restoredAt: Option<int>, auditable: bool)
    | AddHold(scope: Scope, hold: string, addedAt: Option<int>, auditable: bool)
    | ReleaseHold(scope: Scope, hold: string, auditable: bool)
    | Queue(scope: Scope, id: string, queuedAt: Option<int>, auditable: bool)
    | Complete(
        scope: Scope, id: string, confirmation: string, done: set<string>, completedAt: Option<int>, auditable: bool)

  datatype Reason =
    | InvalidInput | Exists | NotFound | InvalidState | OnHold | NotConfirmed | InvalidTime | InvalidPlan
    | RequestMismatch | WindowElapsed | WindowActive | Incomplete | NotAuditable

  datatype Reply = Output(result: Result) | Raised(reason: Reason)

  datatype Outcome = Outcome(store: Store, reply: Reply)

  // ------------------------------------------------------ input checks

  function Dedup(plan: seq<string>): (r: seq<string>) {
    if plan == [] then []
    else
      var r := Dedup(plan[..|plan| - 1]);
      if plan[|plan| - 1] in r then r else r + [plan[|plan| - 1]]
  }

  /** `normalizeCleanupPlan`: the default is every resource; repetitions go; nothing else may be missing or unknown. */
  function NormalPlan(plan: Option<seq<string>>): (r: Option<seq<string>>)
    ensures r.Some? ==> r.value != [] && forall x :: x in r.value ==> x in RESOURCES
  {
    var selected := if plan.Some? then plan.value else RESOURCES;
    var unique := Dedup(selected);
    if unique == [] || exists x :: x in unique && x !in RESOURCES then None else Some(unique)
  }

  predicate WellFormed(call: Call) {
    && IsId(call.scope.tenant) && IsId(call.scope.user)
    && match call
      case Register(_, kind, _, _, _) => IsId(kind)
      case Request(_, id, _, _, _, _, _) => IsOperationId(id)
      case SoftDelete(_, _, _, _, _) => true
      case Restore(_, id, _, _) => IsOperationId(id)
      case AddHold(_, hold, _, _) => IsOperationId(hold)
      case ReleaseHold(_, hold, _) => IsOperationId(hold)
      case Queue(_, id, _, _) => IsOperationId(id)
      case Complete(_, id, _, _, _, _) => IsOperationId(id)
  }

  function CacheKey(operation: string, scope: Scope, id: string): (k: string) {
    Join([operation, scope.tenant, scope.user, id])
  }

  function KeyOf(call: Call): (k: Option<string>) {
    match call
    case Request(scope, id, _, _, _, _, _) => Some(CacheKey("request", scope, id))
    case Restore(scope, id, _, _) => Some(CacheKey("restore", scope, id))
    case Queue(scope, id, _, _) => Some(CacheKey("queue", scope, id))
    case Complete(scope, id, _, _, _, _) => Some(CacheKey("complete", scope, id))
    case _ => None
  }

  // ------------------------------------------------------ the calls

  /** A call either just answers, or changes its account to `account`, after which the audit entry may still fail. */
  datatype Decision =
    | Answer(reply: Reply)
    | Change(account: Record, facts: seq<Fact>, auditable: bool, event: Event, operation: string, key: Option<string>)

  function Refuse(reason: Reason): (d: Decision) { Answer(Raised(reason)) }

  function Changed(s: Store, scope: Scope, d: Decision): (r: Store)
    requires d.Change?
  {
    s.(accounts := s.accounts[scope := d.account], history := s.history + d.facts)
  }

  /** An error in the audit entry leaves the change in place. */
  function Perform(s: Store, scope: Scope, d: Decision): (o: Outcome) {
    match d
    case Answer(reply) => Outcome(s, reply)
    case Change(account, _, auditable, event, operation, key) =>
      var z := Changed(s, scope, d);
      if !auditable then Outcome(z, Raised(NotAuditable))
      else
        var result := Result(operation, account);
        Outcome(
          z.(events := z.events + [event], results := if key.Some? then z.results[key.value := result] else z.results),
          Output(result))
  }

  function DecideRegister(s: Store, call: Call): (d: Decision)
    requires call.Register?
  {
    if call.scope in s.accounts then Refuse(Exists)
    else if call.createdAt.None? then Refuse(InvalidTime)
    else match NormalPlan(call.plan)
      case None => Refuse(InvalidPlan)
      case Some(plan) =>
        var a := Record(call.kind, Active, call.createdAt.value, None, None, None, None, None, plan, {}, None);
        Change(a, [], call.auditable, RegisteredEvent(call.scope, plan), "account_registered", None)
  }

  function Deadline(at: int, days: int): (t: Option<int>) {
    if at + days * DAY_MS <= MAX_DATE then Some(at + days * DAY_MS) else None
  }

  /** The assignments of `requestDeletion`, which stop at a deadline that is no date and at an unusable plan. */
  function RequestedRecord(a: Record, call: Call): (r: Record)
    requires call.Request? && call.requestedAt.Some?
  {
    var at := call.requestedAt.value;
    var first := a.(state := DeletionRequested, requestedAt := Some(at));
    match Deadline(at, call.days)
    case None => first
    case Some(until) =>
      (match NormalPlan(Some(if call.plan.Some? then call.plan.value else a.plan))
       case None => first.(until := Some(until))
       case Some(plan) => first.(until := Some(until), plan := plan, request := Some(call.id)))
  }

  predicate RequestCompletes(a: Record, call: Call)
    requires call.Request? && call.requestedAt.Some?
  {
    && Deadline(call.requestedAt.value, call.days).Some?
    && NormalPlan(Some(if call.plan.Some? then call.plan.value else a.plan)).Some?
  }

  function RequestChange(a: Record, call: Call, key: string): (d: Decision)
    requires call.Request? && call.requestedAt.Some?
  {
    var z := RequestedRecord(a, call);
    Change(
      z, [RequestedFact(call.scope, call.requestedAt.value, call.days, z.plan)], RequestCompletes(a, call),
      RequestedEvent(call.scope, call.id, z.until, z.plan), "deletion_requested", Some(key))
  }

  function DecideRequest(s: Store, call: Call): (d: Decision)
    requires call.Request?
  {
    var key := CacheKey("request", call.scope, call.id);
    if key in s.results then Answer(Output(s.results[key]))
    else if call.confirmation != "DELETE:" + call.scope.user then Refuse(NotConfirmed)
    else if !call.actorOk || call.days < 1 || call.days > 3650 then Refuse(InvalidInput)
    else if call.requestedAt.None? then Refuse(InvalidTime)
    else if call.scope !in s.accounts then Refuse(NotFound)
    else
      var a := s.accounts[call.scope];
      if a.state != Active then Refuse(InvalidState)
      else if a.holds != {} then Refuse(OnHold)
      else RequestChange(a, call, key)
  }

  function DecideSoftDelete(s: Store, call: Call): (d: Decision)
    requires call.SoftDelete?
  {
    if call.scope !in s.accounts then Refuse(NotFound)
    else
      var a := s.accounts[call.scope];
      if a.state != DeletionRequested then Refuse(InvalidState)
      else if call.confirmation != "DELETE:" + call.scope.user then Refuse(NotConfirmed)
      else if call.request.Some? && call.request != a.request then Refuse(RequestMismatch)
      else if call.deletedAt.None? then Refuse(InvalidTime)
      else
        var z := a.(state := SoftDeleted, softDeletedAt := call.deletedAt);
        Change(z, [SoftDeletedFact(call.scope)], call.auditable, SoftDeletedEvent(call.scope), "soft_deleted", None)
  }

  function DecideRestore(s: Store, call: Call): (d: Decision)
    requires call.Restore?
  {
    var key := CacheKey("restore", call.scope, call.id);
    if key in s.results then Answer(Output(s.results[key]))
    else if call.scope !in s.accounts then Refuse(NotFound)
    else
      var a := s.accounts[call.scope];
      if a.state == Active || a.state == Purged then Refuse(InvalidState)
      else if call.restoredAt.None? then Refuse(InvalidTime)
      else if a.until.Some? && call.restoredAt.value > a.until.value then Refuse(WindowElapsed)
      else
        var z := a.(state := Active, until := None, queuedAt := None, requestedAt := None, softDeletedAt := None,
          request := None);
        Change(z, [RestoredFact(call.scope)], call.auditable, RestoredEvent(call.scope, call.id), "account_restored",
          Some(key))
  }

  function DecideAddHold(s: Store, call: Call): (d: Decision)
    requires call.AddHold?
  {
    if call.scope !in s.accounts then Refuse(NotFound)
    else
      var a := s.accounts[call.scope];
      if call.hold in a.holds then Answer(Output(Result("account_hold_added", a)))
      else if call.addedAt.None? then Refuse(InvalidTime)
      else
        var z := a.(holds := a.holds + {call.hold});
        Change(z, [HeldFact(call.scope, call.hold)], call.auditable, HoldAddedEvent(call.scope, call.hold),
          "account_hold_added", None)
  }

  function DecideReleaseHold(s: Store, call: Call): (d: Decision)
    requires call.ReleaseHold?
  {
    if call.scope !in s.accounts then Refuse(NotFound)
    else
      var a := s.accounts[call.scope];
      if call.hold !in a.holds then Answer(Output(Result("account_hold_released", a)))
      else
        var z := a.(holds := a.holds - {call.hold});
        Change(z, [FreedFact(call.scope, call.hold)], call.auditable, HoldReleasedEvent(call.scope, call.hold),
          "account_hold_released", None)
  }

  function DecideQueue(s: Store, call: Call): (d: Decision)
    requires call.Queue?
  {
    var key := CacheKey("queue", call.scope, call.id);
    if key in s.results then Answer(Output(s.results[key]))
    else if call.scope !in s.accounts then Refuse(NotFound)
    else
      var a := s.accounts[call.scope];
      if a.state != SoftDeleted then Refuse(InvalidState)
      else if call.queuedAt.None? then Refuse(InvalidTime)
      else if a.until.None? || call.queuedAt.value < a.until.value then Refuse(WindowActive)
      else if a.holds != {} then Refuse(OnHold)
      else
        var z := a.(state := PurgePending, queuedAt := call.queuedAt);
        Change(z, [QueuedFact(call.scope, call.queuedAt.value)], call.auditable, QueuedEvent(call.scope, call.id),
          "purge_queued", Some(key))
  }

  predicate AllDone(plan: seq<string>, done: set<string>) { forall x :: x in plan ==> x in done }

  function DecideComplete(s: Store, call: Call): (d: Decision)
    requires call.Complete?
  {
    var key := CacheKey("complete", call.scope, call.id);
    if key in s.results then Answer(Output(s.results[key]))
    else if call.scope !in s.accounts then Refuse(NotFound)
    else
      var a := s.accounts[call.scope];
      if a.state != PurgePending then Refuse(InvalidState)
      else if call.confirmation != "PURGE:" + call.scope.user then Refuse(NotConfirmed)
      else if a.holds != {} then Refuse(OnHold)
      else if !AllDone(a.plan, call.done) then Refuse(Incomplete)
      else if call.completedAt.None? then Refuse(InvalidTime)
      else
        var z := a.(state := Purged, purgedAt := call.completedAt);
        Change(z, [PurgedFact(call.scope, call.done)], call.auditable, PurgedEvent(call.scope, call.id),
          "account_purged", Some(key))
  }

  function Decide(s: Store, call: Call): (d: Decision) {
    if !WellFormed(call) then Refuse(InvalidInput)
    else match call
      case Register(_, _, _, _, _) => DecideRegister(s, call)
      case Request(_, _, _, _, _, _, _) => DecideRequest(s, call)
      case SoftDelete(_, _, _, _, _) => DecideSoftDelete(s, call)
      case Restore(_, _, _, _) => DecideRestore(s, call)
      case AddHold(_, _, _, _) => DecideAddHold(s, call)
      case ReleaseHold(_, _, _) => DecideReleaseHold(s, call)
      case Queue(_, _, _, _) => DecideQueue(s, call)
      case Complete(_, _, _, _, _, _) => DecideComplete(s, call)
  }

  function Apply(s: Store, call: Call): (o: Outcome) { Perform(s, call.scope, Decide(s, call)) }

  function Run(s: Store, calls: seq<Call>): (r: Store)
    decreases |calls|
  {
    if calls == [] then s else Run(Apply(s, calls[0]).store, calls[1..])
  }

  const EMPTY: Store := Store(map[], map[], [], [])
}
