/**
 The trash-retention store: item generations, holds, leases and purge batches
 whose adapter callback may call the store again in mid-batch.
 */
module Retention {
  import opened Strings
  import opened CacheKeys
  import opened Dates

  const LEASE_MS: int := 30_000

  datatype Scope = Scope(tenant: string, user: string, item: string)

  /** A record object: every deletion of an item makes a new generation of it. */
  datatype Ref = Ref(scope: Scope, generation: nat)

  datatype ItemState = Trashed | Restored | Purged

  datatype Lease = Lease(id: string, owner: string, expiresAt: int)

  datatype Item = Item(
    resource: string, state: ItemState, deletedAt: int, until: Option<int>,
    restoredAt: Option<int>, purgedAt: Option<int>, lock: Option<Lease>)

  datatype Event =
    | ItemTrashed(ref: Ref, until: int, at: int, operation: string)
    | ItemRestored(ref: Ref, at: int, operation: string)
    | HoldAdded(scope: Scope, hold: string, expires: Option<int>)
    | HoldReleased(scope: Scope, hold: string)
    | PurgeDone(ref: Ref, at: int, operation: string)
    | PurgeFailed(ref: Ref, at: int, operation: string, code: string)

  datatype Metrics = Metrics(
    trashed: nat, restored: nat, held: nat, locked: nat, batches: nat, candidates: nat,
    purged: nat, skipped: nat, failures: nat, holdsAdded: nat, holdsReleased: nat)

  datatype Skip = Skip(item: string, reason: SkipReason)

  datatype SkipReason = StateChanged | AdapterFailed

  datatype Failure = Failure(item: string, code: string)

  /** An item as a batch found and left it. */
  datatype Gone = Gone(ref: Ref, item: Item)

  /** What a batch reports of its candidates, and the audit entries it wrote. */
  datatype Report = Report(items: seq<Gone>, skipped: seq<Skip>, failures: seq<Failure>, events: seq<Event>)

  const NOTHING: Report := Report([], [], [], [])

  datatype Result =
    | ItemResult(ref: Ref, item: Item)
    | BatchResult(batch: Batch, completedAt: int, scanned: nat, report: Report, remaining: nat, metrics: Metrics)

  /** What happened to records and holds, whether or not the audit log has heard of it. */
  datatype Fact =
    | TrashedFact(ref: Ref, until: int)
    | RestoredFact(ref: Ref)
    | HeldFact(scope: Scope, hold: string, expires: Option<int>)
    | FreedFact(scope: Scope, hold: string)
    | PurgedFact(ref: Ref, at: int)

  datatype Store = Store(
    order: seq<Scope>, current: map<Scope, nat>, items: map<Ref, Item>, holds: map<Scope, map<string, Option<int>>>,
    results: map<string, Result>, events: seq<Event>, metrics: Metrics, history: seq<Fact>)

  /** `tie` is the order in which `localeCompare` puts the keys of items due at the same time. */
  datatype Config = Config(days: nat, maxBatch: nat, resources: set<string>, tie: (Scope, Scope) -> bool)

  /**
   A call.  `auditable` says whether the actor, and any time that is read only
   for the audit entry, are well formed.  A purge carries what its callback does
   at each candidate: the calls it makes, and the error it ends with, if any.
   */
  datatype Call =
    | Mark(scope: Scope, resource: string, id: string, deletedAt: int, auditable: bool)
    | Restore(scope: Scope, id: string, restoredAt: int, auditable: bool)
    | AddHold(scope: Scope, hold: string, expires: Option<int>, now: int, auditable: bool)
    | ReleaseHold(scope: Scope, hold: string, auditable: bool)
    | AcquireLock(scope: Scope, lock: string, owner: string, leaseMs: int, at: int)
    | ReleaseLock(scope: Scope, lock: string, owner: string)
    | Purge(batch: Batch, completedAt: int, script: seq<Callback>)

  datatype Callback = Callback(calls: seq<Call>, error: Option<string>)

  datatype Batch = Batch(
    worker: string, tenant: Option<string>, user: Option<string>, id: string, startedAt: int, limit: int)

  datatype Reason =
    | InvalidInput | ResourceDisabled | InvalidDate | NotAuditable | NotFound | AlreadyPurged | HoldExpired | Locked
    | LockNotOwned

  datatype Reply = Output(result: Result) | Raised(reason: Reason)

  datatype Outcome = Outcome(store: Store, reply: Reply)

  // ------------------------------------------------------ keys

  predicate IsScope(scope: Scope) { IsId(scope.tenant) && IsId(scope.user) && IsId(scope.item) }

  function MarkKey(scope: Scope, id: string): (k: string) { Join(["delete", scope.tenant, scope.user, scope.item, id]) }

  function RestoreKey(scope: Scope, id: string): (k: string) {
    Join(["restore", scope.tenant, scope.user, scope.item, id])
  }

  function PurgeKey(b: Batch): (k: string) { Join(["purge", b.worker, Wildcard(b.tenant), Wildcard(b.user), b.id]) }

  predicate ValidBatch(c: Config, b: Batch) {
    && IsId(b.worker) && IsOperationId(b.id)
    && (b.tenant.Some? ==> IsId(b.tenant.value)) && (b.user.Some? ==> IsId(b.user.value) && b.tenant.Some?)
    && 1 <= b.limit <= c.maxBatch
  }

  /** The fields whose form is checked before anything else happens. */
  predicate WellFormed(c: Config, call: Call) {
    match call
    case Mark(scope, _, id, _, _) => IsScope(scope) && IsOperationId(id)
    case Restore(scope, id, _, _) => IsScope(scope) && IsOperationId(id)
    case AddHold(scope, hold, _, _, _) => IsScope(scope) && IsOperationId(hold)
    case ReleaseHold(scope, hold, _) => IsScope(scope) && IsOperationId(hold)
    case AcquireLock(scope, lock, owner, leaseMs, _) =>
      IsScope(scope) && IsOperationId(lock) && IsId(owner) && 1000 <= leaseMs <= DAY_MS
    case ReleaseLock(scope, lock, owner) => IsScope(scope) && IsOperationId(lock) && IsId(owner)
    case Purge(batch, _, _) => ValidBatch(c, batch)
  }

  /** The key under which a call's result is cached, for the calls that cache one. */
  function KeyOf(call: Call): (k: Option<string>) {
    match call
    case Mark(scope, _, id, _, _) => Some(MarkKey(scope, id))
    case Restore(scope, id, _, _) => Some(RestoreKey(scope, id))
    case Purge(batch, _, _) => Some(PurgeKey(batch))
    case _ => None
  }

  // ------------------------------------------------------ what a batch selects

  function HoldsOf(s: Store, scope: Scope): (m: map<string, Option<int>>) {
    if scope in s.holds then s.holds[scope] else map[]
  }

  /** No hold is in force at `at`. */
  predicate Free(holds: map<string, Option<int>>, at: int) {
    forall h :: h in holds ==> holds[h].Some? && holds[h].value <= at
  }

  predicate LockedAt(item: Item, at: int) { item.lock.Some? && item.lock.value.expiresAt > at }

  predicate Due(s: Store, ref: Ref, at: int) {
    && ref in s.items && s.items[ref].state == Trashed && s.items[ref].until.Some? && s.items[ref].until.value <= at
    && Free(HoldsOf(s, ref.scope), at)
  }

  predicate Eligible(s: Store, scope: Scope, at: int) {
    scope in s.current && var ref := Ref(scope, s.current[scope]); Due(s, ref, at) && !LockedAt(s.items[ref], at)
  }

  predicate Matches(tenant: Option<string>, user: Option<string>, scope: Scope) {
    (tenant.Some? ==> scope.tenant == tenant.value) && (user.Some? ==> scope.user == user.value)
  }

  /** The eligible items, in the order in which they were first deleted. */
  function Pool(s: Store, order: seq<Scope>, tenant: Option<string>, user: Option<string>, at: int): (r: seq<Scope>) {
    if order == [] then []
    else
      (if Matches(tenant, user, order[0]) && Eligible(s, order[0], at) then [order[0]] else [])
        + Pool(s, order[1..], tenant, user, at)
  }

  function UntilOf(s: Store, scope: Scope): (t: int) {
    if scope in s.current && Ref(scope, s.current[scope]) in s.items
      && s.items[Ref(scope, s.current[scope])].until.Some?
    then s.items[Ref(scope, s.current[scope])].until.value else 0
  }

  predicate Before(c: Config, s: Store, a: Scope, b: Scope) {
    UntilOf(s, a) < UntilOf(s, b) || (UntilOf(s, a) == UntilOf(s, b) && c.tie(a, b))
  }

  /** Stable insertion: `x` goes behind everything that `Before` does not put after it. */
  function Insert(c: Config, s: Store, sorted: seq<Scope>, x: Scope): (r: seq<Scope>)
    ensures multiset(r) == multiset(sorted) + multiset{x}
  {
    if sorted == [] then [x]
    else if Before(c, s, sorted[0], x) then
      assert sorted == [sorted[0]] + sorted[1..];
      [sorted[0]] + Insert(c, s, sorted[1..], x)
    else [x] + sorted
  }

  function Sort(c: Config, s: Store, pool: seq<Scope>): (r: seq<Scope>)
    ensures multiset(r) == multiset(pool)
  {
    if pool == [] then []
    else
      assert pool == pool[..|pool| - 1] + [pool[|pool| - 1]];
      Insert(c, s, Sort(c, s, pool[..|pool| - 1]), pool[|pool| - 1])
  }

  function Take(s: seq<Scope>, n: int): (r: seq<Scope>) { if n < 0 then [] else if n < |s| then s[..n] else s }

  function Candidates(c: Config, s: Store, tenant: Option<string>, user: Option<string>, at: int,
    limit: int): (r: seq<Scope>) {
    Take(Sort(c, s, Pool(s, s.order, tenant, user, at)), limit)
  }

  // ------------------------------------------------------ the calls

  function Recorded(s: Store, f: Fact): (r: Store) { s.(history := s.history + [f]) }

  function Logged(s: Store, e: Event): (r: Store) { s.(events := s.events + [e]) }

  function WithItem(s: Store, ref: Ref, item: Item): (r: Store) { s.(items := s.items[ref := item]) }

  function Cached(s: Store, key: string, result: Result): (o: Outcome) {
    Outcome(s.(results := s.results[key := result]), Output(result))
  }

  function Marked(s: Store, scope: Scope, resource: string, deletedAt: int, until: int): (r: Store) {
    var g := if scope in s.current then s.current[scope] + 1 else 1;
    Recorded(
      s.(order := if scope in s.current then s.order else s.order + [scope],
         current := s.current[scope := g],
         items := s.items[Ref(scope, g) := Item(resource, Trashed, deletedAt, Some(until), None, None, None)],
         holds := if scope in s.current then s.holds else s.holds[scope := map[]],
         metrics := s.metrics.(trashed := s.metrics.trashed + 1)),
      TrashedFact(Ref(scope, g), until))
  }

  function ApplyMark(c: Config, s: Store, scope: Scope, resource: string, id: string, deletedAt: int,
    auditable: bool): (o: Outcome) {
    var until := deletedAt + c.days * DAY_MS;
    if resource !in c.resources then Outcome(s, Raised(ResourceDisabled))
    else if MarkKey(scope, id) in s.results then Outcome(s, Output(s.results[MarkKey(scope, id)]))
    else if until > MAX_DATE then Outcome(s, Raised(InvalidDate))
    else
      var z := Marked(s, scope, resource, deletedAt, until);
      var ref := Ref(scope, z.current[scope]);
      if !auditable then Outcome(z, Raised(NotAuditable))
      else Cached(Logged(z, ItemTrashed(ref, until, deletedAt, id)), MarkKey(scope, id), ItemResult(ref, z.items[ref]))
  }

  function RestoredStore(s: Store, ref: Ref, restoredAt: int): (r: Store)
    requires ref in s.items
  {
    Recorded(
      WithItem(s, ref, s.items[ref].(state := Restored, restoredAt := Some(restoredAt), until := None, lock := None))
      .(metrics := s.metrics.(restored := s.metrics.restored + 1)),
      RestoredFact(ref))
  }

  function CurrentRef(s: Store, scope: Scope): (r: Option<Ref>)
    ensures r.Some? ==>
              r.value.scope == scope && r.value in s.items && scope in s.current
                && r.value.generation == s.current[scope]
  {
    if scope in s.current && Ref(scope, s.current[scope]) in s.items then Some(Ref(scope, s.current[scope])) else None
  }

  function ApplyRestore(s: Store, scope: Scope, id: string, restoredAt: int, auditable: bool): (o: Outcome) {
    if RestoreKey(scope, id) in s.results then Outcome(s, Output(s.results[RestoreKey(scope, id)]))
    else match CurrentRef(s, scope)
      case None => Outcome(s, Raised(NotFound))
      case Some(ref) =>
        if s.items[ref].state == Purged then Outcome(s, Raised(AlreadyPurged))
        else
          var z := RestoredStore(s, ref, restoredAt);
          if !auditable then Outcome(z, Raised(NotAuditable))
          else
            Cached(Logged(z, ItemRestored(ref, restoredAt, id)), RestoreKey(scope, id), ItemResult(ref, z.items[ref]))
  }

  function HeldStore(s: Store, scope: Scope, hold: string, expires: Option<int>): (r: Store) {
    Recorded(
      s.(holds := s.holds[scope := HoldsOf(s, scope)[hold := expires]],
         metrics := s.metrics.(held := s.metrics.held + 1, holdsAdded := s.metrics.holdsAdded + 1)),
      HeldFact(scope, hold, expires))
  }

  function ApplyAddHold(s: Store, scope: Scope, hold: string, expires: Option<int>, now: int,
    auditable: bool): (o: Outcome) {
    match CurrentRef(s, scope)
    case None => Outcome(s, Raised(NotFound))
    case Some(ref) =>
      if expires.Some? && expires.value <= now then Outcome(s, Raised(HoldExpired))
      else if hold in HoldsOf(s, scope) then Outcome(s, Output(ItemResult(ref, s.items[ref])))
      else
        var z := HeldStore(s, scope, hold, expires);
        if !auditable then Outcome(z, Raised(NotAuditable))
        else Outcome(Logged(z, HoldAdded(scope, hold, expires)), Output(ItemResult(ref, s.items[ref])))
  }

  function FreedStore(s: Store, scope: Scope, hold: string): (r: Store) {
    Recorded(
      s.(holds := s.holds[scope := HoldsOf(s, scope) - {hold}],
        metrics := s.metrics.(holdsReleased := s.metrics.holdsReleased + 1)),
      FreedFact(scope, hold))
  }

  function ApplyReleaseHold(s: Store, scope: Scope, hold: string, auditable: bool): (o: Outcome) {
    match CurrentRef(s, scope)
    case None => Outcome(s, Raised(NotFound))
    case Some(ref) =>
      if hold !in HoldsOf(s, scope) then Outcome(s, Output(ItemResult(ref, s.items[ref])))
      else
        var z := FreedStore(s, scope, hold);
        if !auditable then Outcome(z, Raised(NotAuditable))
        else Outcome(Logged(z, HoldReleased(scope, hold)), Output(ItemResult(ref, s.items[ref])))
  }

  function ApplyAcquireLock(s: Store, scope: Scope, lock: string, owner: string, leaseMs: int, at: int): (o: Outcome) {
    match CurrentRef(s, scope)
    case None => Outcome(s, Raised(NotFound))
    case Some(ref) =>
      var item := s.items[ref];
      if LockedAt(item, at) && item.lock.value.owner != owner then Outcome(s, Raised(Locked))
      else if at + leaseMs > MAX_DATE then Outcome(s, Raised(InvalidDate))
      else
        var leased := item.(lock := Some(Lease(lock, owner, at + leaseMs)));
        var z := WithItem(s, ref, leased).(metrics := s.metrics.(locked := s.metrics.locked + 1));
        Outcome(z, Output(ItemResult(ref, z.items[ref])))
  }

  function ApplyReleaseLock(s: Store, scope: Scope, lock: string, owner: string): (o: Outcome) {
    match CurrentRef(s, scope)
    case None => Outcome(s, Raised(NotFound))
    case Some(ref) =>
      var item := s.items[ref];
      if item.lock.None? || item.lock.value.id != lock || item.lock.value.owner != owner then
        Outcome(s, Raised(LockNotOwned))
      else
        var z := WithItem(s, ref, item.(lock := None));
        Outcome(z, Output(ItemResult(ref, z.items[ref])))
  }

  // ------------------------------------------------------ purge batches

  datatype Progress = Progress(store: Store, report: Report)

  /** The batch's own lease on the record, taken before the callback runs. */
  function Leased(s: Store, b: Batch, ref: Ref): (r: Store)
    requires ref in s.items
  {
    WithItem(s, ref, s.items[ref].(lock := Some(Lease(b.id, b.worker, b.startedAt + LEASE_MS))))
  }

  function Unlocked(s: Store, ref: Ref): (r: Store) {
    if ref in s.items then WithItem(s, ref, s.items[ref].(lock := None)) else s
  }

  function PurgedStore(s: Store, b: Batch, ref: Ref): (r: Store)
    requires ref in s.items
  {
    Recorded(
      Logged(
        WithItem(s, ref, s.items[ref].(state := Purged, purgedAt := Some(b.startedAt), lock := None))
        .(metrics := s.metrics.(purged := s.metrics.purged + 1)),
        PurgeDone(ref, b.startedAt, b.id)),
      PurgedFact(ref, b.startedAt))
  }

  function Skipping(r: Report, item: string): (z: Report) { r.(skipped := r.skipped + [Skip(item, StateChanged)]) }

  function Failing(r: Report, e: Event, code: string): (z: Report)
    requires e.PurgeFailed?
  {
    var item := e.ref.scope.item;
    r.(skipped := r.skipped + [Skip(item, AdapterFailed)], failures := r.failures + [Failure(item, code)],
       events := r.events + [e])
  }

  /** What the batch does with the record it holds once the callback is back. */
  function Settle(b: Batch, ref: Ref, error: Option<string>, p: Progress): (r: Progress) {
    match error
    case Some(code) =>
      var e := PurgeFailed(ref, b.startedAt, b.id, code);
      Progress(
        Logged(Unlocked(p.store, ref).(metrics := p.store.metrics.(failures := p.store.metrics.failures + 1)), e),
        Failing(p.report, e, code))
    case None =>
      if Due(p.store, ref, b.startedAt) then
        var z := PurgedStore(p.store, b, ref);
        Progress(z, p.report.(items := p.report.items + [Gone(ref, z.items[ref])],
                              events := p.report.events + [PurgeDone(ref, b.startedAt, b.id)]))
      else Progress(Unlocked(p.store, ref), Skipping(p.report, ref.scope.item))
  }

  function First(script: seq<Callback>): (cb: Callback) { if script == [] then Callback([], None) else script[0] }

  function Loop(c: Config, b: Batch, p: Progress, candidates: seq<Scope>, script: seq<Callback>): (r: Progress)
    decreases script, |candidates|
  {
    if candidates == [] then p
    else if !Eligible(p.store, candidates[0], b.startedAt) then
      Loop(c, b, p.(report := Skipping(p.report, candidates[0].item)), candidates[1..], script)
    else
      var ref := Ref(candidates[0], p.store.current[candidates[0]]);
      var leased := Leased(p.store, b, ref);
      if script == [] then Loop(c, b, Settle(b, ref, None, p.(store := leased)), candidates[1..], [])
      else
        assert script[0] in script;
        var called := RunCalls(c, leased, script[0].calls);
        Loop(c, b, Settle(b, ref, script[0].error, p.(store := called)), candidates[1..], script[1..])
  }

  function Begun(s: Store, n: nat): (r: Store) {
    s.(metrics := s.metrics.(batches := s.metrics.batches + 1, candidates := s.metrics.candidates + n))
  }

  function Finished(c: Config, b: Batch, completedAt: int, scanned: nat, p: Progress): (o: Outcome) {
    var z := p.store.(metrics := p.store.metrics.(skipped := p.store.metrics.skipped + |p.report.skipped|));
    var remaining := |Candidates(c, z, b.tenant, b.user, completedAt, c.maxBatch)|;
    Cached(z, PurgeKey(b), BatchResult(b, completedAt, scanned, p.report, remaining, z.metrics))
  }

  function ApplyPurge(c: Config, s: Store, b: Batch, completedAt: int, script: seq<Callback>): (o: Outcome)
    decreases script
  {
    if PurgeKey(b) in s.results then Outcome(s, Output(s.results[PurgeKey(b)]))
    else
      var candidates := Candidates(c, s, b.tenant, b.user, b.startedAt, b.limit);
      var begun := Begun(s, |candidates|);
      if candidates != [] && b.startedAt + LEASE_MS > MAX_DATE then Outcome(begun, Raised(InvalidDate))
      else Finished(c, b, completedAt, |candidates|, Loop(c, b, Progress(begun, NOTHING), candidates, script))
  }

  function Apply(c: Config, s: Store, call: Call): (o: Outcome)
    decreases call
  {
    if !WellFormed(c, call) then Outcome(s, Raised(InvalidInput))
    else match call
      case Mark(scope, resource, id, deletedAt, auditable) => ApplyMark(c, s, scope, resource, id, deletedAt, auditable)
      case Restore(scope, id, restoredAt, auditable) => ApplyRestore(s, scope, id, restoredAt, auditable)
      case AddHold(scope, hold, expires, now, auditable) => ApplyAddHold(s, scope, hold, expires, now, auditable)
      case ReleaseHold(scope, hold, auditable) => ApplyReleaseHold(s, scope, hold, auditable)
      case AcquireLock(scope, lock, owner, leaseMs, at) => ApplyAcquireLock(s, scope, lock, owner, leaseMs, at)
      case ReleaseLock(scope, lock, owner) => ApplyReleaseLock(s, scope, lock, owner)
      case Purge(batch, completedAt, script) => ApplyPurge(c, s, batch, completedAt, script)
  }

  function RunCalls(c: Config, s: Store, calls: seq<Call>): (r: Store)
    decreases calls
  {
    if calls == [] then s else RunCalls(c, Apply(c, s, calls[0]).store, calls[1..])
  }

  // ------------------------------------------------------ lawful histories

  datatype Seen = Unseen | TrashedUntil(until: int) | RestoredOnce | PurgedOnce

  /** What a history says of a record. */
  function SeenIn(h: seq<Fact>, ref: Ref): (r: Seen) {
    if h == [] then Unseen else SeenAfter(h[|h| - 1], ref, SeenIn(h[..|h| - 1], ref))
  }

  /** What a history says of a hold: none, or its expiry, if it has one. */
  function HoldIn(h: seq<Fact>, scope: Scope, hold: string): (r: Option<Option<int>>) {
    if h == [] then None else HoldAfter(h[|h| - 1], scope, hold, HoldIn(h[..|h| - 1], scope, hold))
  }

  /** No hold that the history knows of is in force at `at`. */
  ghost predicate FreeIn(h: seq<Fact>, scope: Scope, at: int) {
    forall hold :: HoldIn(h, scope, hold).Some? ==>
      HoldIn(h, scope, hold).value.Some? && HoldIn(h, scope, hold).value.value <= at
  }

  /** What may happen next: in particular, what a purge needs. */
  ghost predicate Allowed(h: seq<Fact>, f: Fact) {
    match f
    case TrashedFact(ref, _) => SeenIn(h, ref) == Unseen
    case RestoredFact(ref) => SeenIn(h, ref).TrashedUntil? || SeenIn(h, ref).RestoredOnce?
    case PurgedFact(ref, at) => SeenIn(h, ref).TrashedUntil? && SeenIn(h, ref).until <= at && FreeIn(h, ref.scope, at)
    case HeldFact(scope, hold, _) => HoldIn(h, scope, hold).None?
    case FreedFact(scope, hold) => HoldIn(h, scope, hold).Some?
  }

  ghost predicate Lawful(h: seq<Fact>) {
    forall k :: 0 <= k < |h| ==> Allowed(h[..k], h[k])
  }

  predicate IsPurgeOf(f: Fact, ref: Ref) { f.PurgedFact? && f.ref == ref }

  /** In a lawful history a purged record stays purged. */
  lemma {:induction false} PurgedStays(h: seq<Fact>, ref: Ref, j: nat, k: nat)
    requires Lawful(h) && j < k <= |h| && IsPurgeOf(h[j], ref)
    ensures SeenIn(h[..k], ref) == PurgedOnce
    decreases k - j
  {
    assert h[..k][..k - 1] == h[..k - 1];
    if k > j + 1 {
      PurgedStays(h, ref, j, k - 1);
      assert Allowed(h[..k - 1], h[k - 1]);
    }
  }

  /** No generation is purged twice. */
  lemma PurgedAtMostOnce(h: seq<Fact>, ref: Ref, k: nat)
    requires Lawful(h) && k < |h| && IsPurgeOf(h[k], ref)
    ensures forall j :: 0 <= j < k ==> !IsPurgeOf(h[j], ref)
  {
    assert Allowed(h[..k], h[k]);
    forall j | 0 <= j < k ensures !IsPurgeOf(h[j], ref) {
      if IsPurgeOf(h[j], ref) { PurgedStays(h, ref, j, k); }
    }
  }

  function SeenAfter(f: Fact, ref: Ref, was: Seen): (r: Seen) {
    match f
    case TrashedFact(x, until) => if x == ref then TrashedUntil(until) else was
    case RestoredFact(x) => if x == ref then RestoredOnce else was
    case PurgedFact(x, _) => if x == ref then PurgedOnce else was
    case _ => was
  }

  function HoldAfter(f: Fact, scope: Scope, hold: string, was: Option<Option<int>>): (r: Option<Option<int>>) {
    match f
    case HeldFact(x, id, expires) => if x == scope && id == hold then Some(expires) else was
    case FreedFact(x, id) => if x == scope && id == hold then None else was
    case _ => was
  }

  lemma SeenSnoc(h: seq<Fact>, f: Fact, ref: Ref)
    ensures SeenIn(h + [f], ref) == SeenAfter(f, ref, SeenIn(h, ref))
  {
    assert (h + [f])[..|h|] == h;
  }

  lemma HoldSnoc(h: seq<Fact>, f: Fact, scope: Scope, hold: string)
    ensures HoldIn(h + [f], scope, hold) == HoldAfter(f, scope, hold, HoldIn(h, scope, hold))
  {
    assert (h + [f])[..|h|] == h;
  }

  lemma LawfulSnoc(h: seq<Fact>, f: Fact)
    requires Lawful(h) && Allowed(h, f)
    ensures Lawful(h + [f])
  {
    hide Allowed;
    var z := h + [f];
    forall k | 0 <= k < |z| ensures Allowed(z[..k], z[k]) {
      assert z[..k] == h[..k];
      assert k == |h| ==> h[..k] == h;
    }
  }

  // ------------------------------------------------------ the invariant

  /** The items in order of first deletion, without repetition. */
  ghost predicate OrderOk(order: seq<Scope>, current: map<Scope, nat>) {
    && (forall i, j :: 0 <= i < j < |order| ==> order[i] != order[j])
    && (forall x :: x in order <==> x in current)
  }

  predicate ItemOk(current: map<Scope, nat>, ref: Ref, item: Item) {
    ref.scope in current && ref.generation <= current[ref.scope] && (item.state == Trashed ==> item.until.Some?)
  }

  ghost predicate ItemsOk(current: map<Scope, nat>, items: map<Ref, Item>) {
    && (forall x :: x in current ==> Ref(x, current[x]) in items)
    && (forall r :: r in items ==> ItemOk(current, r, items[r]))
  }

  ghost predicate Shape(s: Store) {
    OrderOk(s.order, s.current) && ItemsOk(s.current, s.items) && s.holds.Keys <= s.current.Keys
  }

  function SeenOf(s: Store, ref: Ref): (r: Seen) {
    if ref !in s.items then Unseen
    else match s.items[ref].state
      case Trashed => TrashedUntil(if s.items[ref].until.Some? then s.items[ref].until.value else 0)
      case Restored => RestoredOnce
      case Purged => PurgedOnce
  }

  function HoldOf(s: Store, scope: Scope, hold: string): (r: Option<Option<int>>) {
    if hold in HoldsOf(s, scope) then Some(HoldsOf(s, scope)[hold]) else None
  }

  /** Records and holds are exactly what the history says. */
  ghost predicate Mirror(s: Store) {
    && (forall ref :: SeenOf(s, ref) == SeenIn(s.history, ref))
    && (forall scope, hold :: HoldOf(s, scope, hold) == HoldIn(s.history, scope, hold))
  }

  datatype Removal = Removal(ref: Ref, at: int)

  /** The purges that the audit log reports, and those that took place. */
  function Reported(events: seq<Event>): (r: seq<Removal>) {
    if events == [] then []
    else
      Reported(events[..|events| - 1])
        + match events[|events| - 1] case PurgeDone(ref, at, _) => [Removal(ref, at)] case _ => []
  }

  function Happened(h: seq<Fact>): (r: seq<Removal>) {
    if h == [] then []
    else Happened(h[..|h| - 1]) + match h[|h| - 1] case PurgedFact(ref, at) => [Removal(ref, at)] case _ => []
  }

  lemma ReportedSnoc(events: seq<Event>, e: Event)
    ensures Reported(events + [e])
            == Reported(events) + match e case PurgeDone(ref, at, _) => [Removal(ref, at)] case _ => []
  {
    assert (events + [e])[..|events|] == events;
  }

  lemma HappenedSnoc(h: seq<Fact>, f: Fact)
    ensures Happened(h + [f]) == Happened(h) + match f case PurgedFact(ref, at) => [Removal(ref, at)] case _ => []
  {
    assert (h + [f])[..|h|] == h;
  }

  ghost predicate Agree(s: Store) {
    Reported(s.events) == Happened(s.history) && |Reported(s.events)| == s.metrics.purged
  }

  /** The purges of a batch as its audit entries should tell them. */
  function Removals(items: seq<Gone>, at: int): (r: seq<Removal>) {
    seq(|items|, i requires 0 <= i < |items| => Removal(items[i].ref, at))
  }

  /** Every one of `n` candidates is purged or skipped, every failure is skipped, and the entries tell both. */
  predicate ReportOk(r: Report, at: int, n: int) {
    && |r.items| + |r.skipped| == n && |r.failures| <= |r.skipped|
    && Reported(r.events) == Removals(r.items, at) && |r.events| == |r.items| + |r.failures|
    && forall i :: 0 <= i < |r.items| ==> r.items[i].item.state == Purged
  }

  predicate SoundResult(r: Result) {
    r.BatchResult? ==> ReportOk(r.report, r.batch.startedAt, r.scanned)
  }

  ghost predicate Sound(s: Store) { forall k :: k in s.results ==> SoundResult(s.results[k]) }

  ghost predicate Inv(s: Store) { Shape(s) && Mirror(s) && Lawful(s.history) && Agree(s) && Sound(s) }

  // ------------------------------------------------------ every mutation keeps it

  predicate SameButLock(a: Item, b: Item) { a.(lock := None) == b.(lock := None) }

  /** Leases, metrics other than `purged`, audit entries other than purges and sound results are free to change. */
  ghost predicate SameCore(s: Store, z: Store) {
    && z.order == s.order && z.current == s.current && z.holds == s.holds && z.history == s.history
    && z.items.Keys == s.items.Keys && (forall r :: r in s.items ==> SameButLock(s.items[r], z.items[r]))
    && Reported(z.events) == Reported(s.events) && z.metrics.purged == s.metrics.purged
    && (Sound(s) ==> Sound(z))
  }

  lemma SameCoreMirror(s: Store, z: Store)
    requires Mirror(s) && SameCore(s, z)
    ensures Mirror(z)
  {
    hide Reported, SeenIn, HoldIn, Sound;
    forall ref ensures SeenOf(z, ref) == SeenIn(z.history, ref) {
      assert SeenOf(s, ref) == SeenIn(s.history, ref);
      if ref in s.items { assert SameButLock(s.items[ref], z.items[ref]); }
    }
    forall scope, hold ensures HoldOf(z, scope, hold) == HoldIn(z.history, scope, hold) {
      assert HoldOf(s, scope, hold) == HoldIn(s.history, scope, hold);
    }
  }

  lemma SameCoreShape(s: Store, z: Store)
    requires Shape(s) && SameCore(s, z)
    ensures Shape(z)
  {
    hide Reported, Sound, OrderOk;
    forall r | r in z.items ensures ItemOk(z.current, r, z.items[r]) {
      assert SameButLock(s.items[r], z.items[r]) && ItemOk(s.current, r, s.items[r]);
    }
  }

  lemma SameCoreKeepsInv(s: Store, z: Store)
    requires Inv(s) && SameCore(s, z)
    ensures Inv(z)
  {
    SameCoreMirror(s, z);
    SameCoreShape(s, z);
    hide Lawful, Mirror, Shape, Sound, Reported, Happened;
  }

  /** One more fact, with records and holds following it. */
  lemma FactKeepsInv(s: Store, z: Store, f: Fact)
    requires Inv(s) && Allowed(s.history, f) && z.history == s.history + [f] && Shape(z) && z.results == s.results
    requires forall ref :: SeenOf(z, ref) == SeenAfter(f, ref, SeenOf(s, ref))
    requires forall scope, hold :: HoldOf(z, scope, hold) == HoldAfter(f, scope, hold, HoldOf(s, scope, hold))
    requires if f.PurgedFact? then
               && Reported(z.events) == Reported(s.events) + [Removal(f.ref, f.at)]
               && z.metrics.purged == s.metrics.purged + 1
             else z.events == s.events && z.metrics.purged == s.metrics.purged
    ensures Inv(z)
  {
    hide Lawful, Allowed, Shape, SeenIn, HoldIn, SeenOf, HoldOf, SeenAfter, HoldAfter, Reported, Happened;
    LawfulSnoc(s.history, f);
    HappenedSnoc(s.history, f);
    forall ref ensures SeenOf(z, ref) == SeenIn(z.history, ref) {
      assert SeenOf(s, ref) == SeenIn(s.history, ref);
      SeenSnoc(s.history, f, ref);
    }
    forall scope, hold ensures HoldOf(z, scope, hold) == HoldIn(z.history, scope, hold) {
      assert HoldOf(s, scope, hold) == HoldIn(s.history, scope, hold);
      HoldSnoc(s.history, f, scope, hold);
    }
  }

  lemma MirrorAt(s: Store, ref: Ref)
    requires Inv(s)
    ensures SeenOf(s, ref) == SeenIn(s.history, ref)
  {
  }

  lemma MirrorHold(s: Store, scope: Scope, hold: string)
    requires Inv(s)
    ensures HoldOf(s, scope, hold) == HoldIn(s.history, scope, hold)
  {
  }

  lemma ItemsUpdate(current: map<Scope, nat>, items: map<Ref, Item>, ref: Ref, item: Item)
    requires ItemsOk(current, items) && ref in items && (item.state == Trashed ==> item.until.Some?)
    ensures ItemsOk(current, items[ref := item])
  {
    var m := items[ref := item];
    forall r | r in m ensures ItemOk(current, r, m[r]) {
      assert ItemOk(current, r, items[r]);
    }
  }

  lemma ItemsAdd(current: map<Scope, nat>, items: map<Ref, Item>, scope: Scope, g: nat, item: Item)
    requires ItemsOk(current, items) && item.until.Some? && (scope in current ==> g > current[scope])
    ensures ItemsOk(current[scope := g], items[Ref(scope, g) := item])
    ensures Ref(scope, g) !in items
  {
    assert Ref(scope, g) in items ==> ItemOk(current, Ref(scope, g), items[Ref(scope, g)]);
    var c, m := current[scope := g], items[Ref(scope, g) := item];
    forall r | r in m ensures ItemOk(c, r, m[r]) {
      assert r in items ==> ItemOk(current, r, items[r]);
    }
  }

  lemma OrderAdd(order: seq<Scope>, current: map<Scope, nat>, scope: Scope, g: nat)
    requires OrderOk(order, current)
    ensures OrderOk(if scope in current then order else order + [scope], current[scope := g])
  {
    if scope !in current {
      assert scope !in order;
      assert forall x :: x in order + [scope] <==> x in order || x == scope;
    }
  }

  lemma MarkedKeepsInv(s: Store, scope: Scope, resource: string, deletedAt: int, until: int)
    requires Inv(s)
    ensures Inv(Marked(s, scope, resource, deletedAt, until))
  {
    hide Mirror, Lawful, Agree, Sound, SeenIn, HoldIn, Reported, OrderOk, ItemsOk;
    var z := Marked(s, scope, resource, deletedAt, until);
    var g := z.current[scope];
    var ref := Ref(scope, g);
    OrderAdd(s.order, s.current, scope, g);
    ItemsAdd(s.current, s.items, scope, g, z.items[ref]);
    MirrorAt(s, ref);
    FactKeepsInv(s, z, TrashedFact(ref, until));
  }

  lemma RestoredKeepsInv(s: Store, ref: Ref, restoredAt: int)
    requires Inv(s) && ref in s.items && s.items[ref].state != Purged
    ensures Inv(RestoredStore(s, ref, restoredAt))
  {
    hide Mirror, Lawful, Agree, Sound, SeenIn, HoldIn, Reported, OrderOk, ItemsOk;
    MirrorAt(s, ref);
    var z := RestoredStore(s, ref, restoredAt);
    ItemsUpdate(s.current, s.items, ref, z.items[ref]);
    FactKeepsInv(s, z, RestoredFact(ref));
  }

  lemma HeldKeepsInv(s: Store, scope: Scope, hold: string, expires: Option<int>)
    requires Inv(s) && scope in s.current && hold !in HoldsOf(s, scope)
    ensures Inv(HeldStore(s, scope, hold, expires))
  {
    hide Mirror, Lawful, Agree, Sound, SeenIn, HoldIn, Reported, OrderOk, ItemsOk;
    MirrorHold(s, scope, hold);
    FactKeepsInv(s, HeldStore(s, scope, hold, expires), HeldFact(scope, hold, expires));
  }

  lemma FreedKeepsInv(s: Store, scope: Scope, hold: string)
    requires Inv(s) && scope in s.current && hold in HoldsOf(s, scope)
    ensures Inv(FreedStore(s, scope, hold))
  {
    hide Mirror, Lawful, Agree, Sound, SeenIn, HoldIn, Reported, OrderOk, ItemsOk;
    MirrorHold(s, scope, hold);
    FactKeepsInv(s, FreedStore(s, scope, hold), FreedFact(scope, hold));
  }

  lemma DueAllowed(s: Store, ref: Ref, at: int)
    requires Inv(s) && Due(s, ref, at)
    ensures Allowed(s.history, PurgedFact(ref, at))
  {
    hide Inv, SeenIn, HoldIn;
    MirrorAt(s, ref);
    forall hold | HoldIn(s.history, ref.scope, hold).Some?
      ensures HoldIn(s.history, ref.scope, hold).value.Some? && HoldIn(s.history, ref.scope, hold).value.value <= at
    {
      MirrorHold(s, ref.scope, hold);
    }
  }

  lemma PurgedKeepsInv(s: Store, b: Batch, ref: Ref)
    requires Inv(s) && Due(s, ref, b.startedAt)
    ensures Inv(PurgedStore(s, b, ref))
  {
    hide Mirror, Lawful, Agree, Sound, SeenIn, HoldIn, Reported, OrderOk, ItemsOk, Allowed;
    DueAllowed(s, ref, b.startedAt);
    var z := PurgedStore(s, b, ref);
    ItemsUpdate(s.current, s.items, ref, z.items[ref]);
    ReportedSnoc(s.events, PurgeDone(ref, b.startedAt, b.id));
    FactKeepsInv(s, z, PurgedFact(ref, b.startedAt));
  }

  lemma LoggedKeepsInv(s: Store, e: Event)
    requires Inv(s) && !e.PurgeDone?
    ensures Inv(Logged(s, e))
  {
    hide Inv, Reported;
    ReportedSnoc(s.events, e);
    assert Reported(s.events) + [] == Reported(s.events);
    SameCoreKeepsInv(s, Logged(s, e));
  }

  lemma CachedKeepsInv(s: Store, key: string, result: Result)
    requires Inv(s) && SoundResult(result)
    ensures Inv(Cached(s, key, result).store)
  {
    hide Inv, Reported;
    SameCoreKeepsInv(s, Cached(s, key, result).store);
  }

  lemma WithLockKeepsInv(s: Store, ref: Ref, item: Item)
    requires Inv(s) && ref in s.items && SameButLock(s.items[ref], item)
    ensures Inv(WithItem(s, ref, item))
  {
    hide Inv, Reported;
    SameCoreKeepsInv(s, WithItem(s, ref, item));
  }

  lemma MetricsKeepInv(s: Store, m: Metrics)
    requires Inv(s) && m.purged == s.metrics.purged
    ensures Inv(s.(metrics := m))
  {
    hide Inv, Reported;
    SameCoreKeepsInv(s, s.(metrics := m));
  }

  lemma ItemCallsKeepInv(c: Config, s: Store, call: Call)
    requires Inv(s) && !call.Purge?
    ensures Inv(Apply(c, s, call).store)
  {
    hide Inv, WellFormed, MarkKey, RestoreKey, Marked, RestoredStore, HeldStore, FreedStore, LockedAt, WithItem, Logged;
    match call {
      case Mark(scope, resource, id, deletedAt, auditable) =>
        ApplyMarkKeepsInv(c, s, scope, resource, id, deletedAt, auditable);
      case Restore(scope, id, restoredAt, auditable) => ApplyRestoreKeepsInv(s, scope, id, restoredAt, auditable);
      case AddHold(scope, hold, expires, now, auditable) =>
        if CurrentRef(s, scope).Some? && hold !in HoldsOf(s, scope) {
          HeldKeepsInv(s, scope, hold, expires);
          LoggedKeepsInv(HeldStore(s, scope, hold, expires), HoldAdded(scope, hold, expires));
        }
      case ReleaseHold(scope, hold, auditable) =>
        if CurrentRef(s, scope).Some? && hold in HoldsOf(s, scope) {
          FreedKeepsInv(s, scope, hold);
          LoggedKeepsInv(FreedStore(s, scope, hold), HoldReleased(scope, hold));
        }
      case AcquireLock(scope, lock, owner, leaseMs, at) =>
        if CurrentRef(s, scope).Some? {
          var ref := CurrentRef(s, scope).value;
          var z := WithItem(s, ref, s.items[ref].(lock := Some(Lease(lock, owner, at + leaseMs))));
          WithLockKeepsInv(s, ref, s.items[ref].(lock := Some(Lease(lock, owner, at + leaseMs))));
          assert z.metrics == s.metrics by {
            SameMetrics(s, ref, s.items[ref].(lock := Some(Lease(lock, owner, at + leaseMs))));
          }
          MetricsKeepInv(z, s.metrics.(locked := s.metrics.locked + 1));
        }
      case ReleaseLock(scope, lock, owner) =>
        if CurrentRef(s, scope).Some? {
          var ref := CurrentRef(s, scope).value;
          WithLockKeepsInv(s, ref, s.items[ref].(lock := None));
        }
    }
  }

  lemma SameMetrics(s: Store, ref: Ref, item: Item)
    ensures WithItem(s, ref, item).metrics == s.metrics
  {
  }

  lemma ApplyMarkKeepsInv(c: Config, s: Store, scope: Scope, resource: string, id: string, deletedAt: int,
    auditable: bool)
    requires Inv(s)
    ensures Inv(ApplyMark(c, s, scope, resource, id, deletedAt, auditable).store)
  {
    hide Inv, MarkKey, Cached;
    var until := deletedAt + c.days * DAY_MS;
    var z := Marked(s, scope, resource, deletedAt, until);
    var ref := Ref(scope, z.current[scope]);
    MarkedKeepsInv(s, scope, resource, deletedAt, until);
    LoggedKeepsInv(z, ItemTrashed(ref, until, deletedAt, id));
    CachedKeepsInv(Logged(z, ItemTrashed(ref, until, deletedAt, id)), MarkKey(scope, id),
      ItemResult(ref, z.items[ref]));
  }

  lemma ApplyRestoreKeepsInv(s: Store, scope: Scope, id: string, restoredAt: int, auditable: bool)
    requires Inv(s)
    ensures Inv(ApplyRestore(s, scope, id, restoredAt, auditable).store)
  {
    hide Inv, RestoreKey, Cached;
    if CurrentRef(s, scope).Some? && s.items[CurrentRef(s, scope).value].state != Purged {
      var ref := CurrentRef(s, scope).value;
      var z := RestoredStore(s, ref, restoredAt);
      RestoredKeepsInv(s, ref, restoredAt);
      LoggedKeepsInv(z, ItemRestored(ref, restoredAt, id));
      CachedKeepsInv(Logged(z, ItemRestored(ref, restoredAt, id)), RestoreKey(scope, id),
        ItemResult(ref, z.items[ref]));
    }
  }

  lemma UnlockedKeepsInv(s: Store, ref: Ref)
    requires Inv(s)
    ensures Inv(Unlocked(s, ref))
  {
    hide Inv;
    if ref in s.items { WithLockKeepsInv(s, ref, s.items[ref].(lock := None)); }
  }

  lemma SettleReports(b: Batch, ref: Ref, error: Option<string>, p: Progress, n: int)
    requires ReportOk(p.report, b.startedAt, n)
    ensures ReportOk(Settle(b, ref, error, p).report, b.startedAt, n + 1)
  {
    hide Reported, Due, Unlocked;
    var r, z := p.report, Settle(b, ref, error, p).report;
    if error.Some? {
      ReportedSnoc(r.events, PurgeFailed(ref, b.startedAt, b.id, error.value));
      assert Removals(z.items, b.startedAt) == Removals(r.items, b.startedAt);
    } else if Due(p.store, ref, b.startedAt) {
      ReportedSnoc(r.events, PurgeDone(ref, b.startedAt, b.id));
      assert Removals(z.items, b.startedAt) == Removals(r.items, b.startedAt) + [Removal(ref, b.startedAt)];
    }
  }

  lemma SettleKeepsInv(b: Batch, ref: Ref, error: Option<string>, p: Progress, n: int)
    requires Inv(p.store) && ReportOk(p.report, b.startedAt, n)
    ensures Inv(Settle(b, ref, error, p).store) && ReportOk(Settle(b, ref, error, p).report, b.startedAt, n + 1)
  {
    hide Inv, Due, PurgedStore, ReportOk;
    SettleReports(b, ref, error, p, n);
    UnlockedKeepsInv(p.store, ref);
    if error.Some? {
      var z := Unlocked(p.store, ref);
      MetricsKeepInv(z, p.store.metrics.(failures := p.store.metrics.failures + 1));
      LoggedKeepsInv(z.(metrics := p.store.metrics.(failures := p.store.metrics.failures + 1)),
        PurgeFailed(ref, b.startedAt, b.id, error.value));
    } else if Due(p.store, ref, b.startedAt) {
      PurgedKeepsInv(p.store, b, ref);
    }
  }

  lemma LeasedKeepsInv(s: Store, b: Batch, ref: Ref)
    requires Inv(s) && ref in s.items
    ensures Inv(Leased(s, b, ref))
  {
    hide Inv;
    WithLockKeepsInv(s, ref, s.items[ref].(lock := Some(Lease(b.id, b.worker, b.startedAt + LEASE_MS))));
  }

  lemma EligibleRef(s: Store, scope: Scope, at: int)
    requires Eligible(s, scope, at)
    ensures scope in s.current && Ref(scope, s.current[scope]) in s.items && Due(s, Ref(scope, s.current[scope]), at)
  {
  }

  lemma {:induction false} LoopKeepsInv(c: Config, b: Batch, p: Progress, candidates: seq<Scope>, script: seq<Callback>,
    n: int)
    requires Inv(p.store) && ReportOk(p.report, b.startedAt, n)
    ensures Inv(Loop(c, b, p, candidates, script).store)
    ensures ReportOk(Loop(c, b, p, candidates, script).report, b.startedAt, n + |candidates|)
    decreases script, |candidates|
  {
    hide Inv, Eligible, Settle, Leased;
    if candidates != [] {
      if !Eligible(p.store, candidates[0], b.startedAt) {
        LoopKeepsInv(c, b, p.(report := Skipping(p.report, candidates[0].item)), candidates[1..], script, n + 1);
      } else {
        EligibleRef(p.store, candidates[0], b.startedAt);
        var ref := Ref(candidates[0], p.store.current[candidates[0]]);
        LeasedKeepsInv(p.store, b, ref);
        var leased := Leased(p.store, b, ref);
        if script == [] {
          SettleKeepsInv(b, ref, None, p.(store := leased), n);
          LoopKeepsInv(c, b, Settle(b, ref, None, p.(store := leased)), candidates[1..], [], n + 1);
        } else {
          assert script[0] in script;
          RunKeepsInv(c, leased, script[0].calls);
          var q := p.(store := RunCalls(c, leased, script[0].calls));
          SettleKeepsInv(b, ref, script[0].error, q, n);
          LoopKeepsInv(c, b, Settle(b, ref, script[0].error, q), candidates[1..], script[1..], n + 1);
        }
      }
    }
  }

  lemma FinishedKeepsInv(c: Config, b: Batch, completedAt: int, scanned: nat, p: Progress)
    requires Inv(p.store) && ReportOk(p.report, b.startedAt, scanned)
    ensures Inv(Finished(c, b, completedAt, scanned, p).store)
  {
    hide Inv, Candidates, PurgeKey, Cached;
    var z := p.store.(metrics := p.store.metrics.(skipped := p.store.metrics.skipped + |p.report.skipped|));
    MetricsKeepInv(p.store, z.metrics);
    var remaining := |Candidates(c, z, b.tenant, b.user, completedAt, c.maxBatch)|;
    CachedKeepsInv(z, PurgeKey(b), BatchResult(b, completedAt, scanned, p.report, remaining, z.metrics));
  }

  lemma {:induction false} ApplyPurgeKeepsInv(c: Config, s: Store, b: Batch, completedAt: int, script: seq<Callback>)
    requires Inv(s)
    ensures Inv(ApplyPurge(c, s, b, completedAt, script).store)
    decreases script
  {
    hide Inv, Candidates, Finished, Loop, PurgeKey;
    var candidates := Candidates(c, s, b.tenant, b.user, b.startedAt, b.limit);
    var begun := Begun(s, |candidates|);
    MetricsKeepInv(s, begun.metrics);
    LoopKeepsInv(c, b, Progress(begun, NOTHING), candidates, script, 0);
    FinishedKeepsInv(c, b, completedAt, |candidates|, Loop(c, b, Progress(begun, NOTHING), candidates, script));
  }

  lemma {:induction false} ApplyKeepsInv(c: Config, s: Store, call: Call)
    requires Inv(s)
    ensures Inv(Apply(c, s, call).store)
    decreases call
  {
    hide Inv, ApplyMark, ApplyRestore, ApplyAddHold, ApplyReleaseHold, ApplyAcquireLock, ApplyReleaseLock, ApplyPurge,
      WellFormed;
    match call {
      case Purge(batch, completedAt, script) => ApplyPurgeKeepsInv(c, s, batch, completedAt, script);
      case _ => ItemCallsKeepInv(c, s, call);
    }
  }

  lemma {:induction false} RunKeepsInv(c: Config, s: Store, calls: seq<Call>)
    requires Inv(s)
    ensures Inv(RunCalls(c, s, calls))
    decreases calls
  {
    hide Inv, Apply;
    if calls != [] {
      ApplyKeepsInv(c, s, calls[0]);
      RunKeepsInv(c, Apply(c, s, calls[0]).store, calls[1..]);
    }
  }

  // ------------------------------------------------------ every run

  const EMPTY: Store := Store([], map[], map[], map[], map[], [], Metrics(0, 0, 0, 0, 0, 0, 0, 0, 0, 0, 0), [])

  /**
   Over every run, whatever the callbacks do: the history of records and holds is
   lawful, the records are what it says, the audit log reports exactly the purges
   that took place, and the metric counts them.
   */
  lemma EveryRunIsLawful(c: Config, calls: seq<Call>)
    ensures var s := RunCalls(c, EMPTY, calls);
            && Lawful(s.history) && Mirror(s)
            && Reported(s.events) == Happened(s.history) && s.metrics.purged == |Reported(s.events)|
  {
    hide RunCalls;
    assert Inv(EMPTY);
    RunKeepsInv(c, EMPTY, calls);
  }

  /** An answered batch is cached, whatever happened in its callbacks. */
  lemma PurgeIsCached(c: Config, s: Store, call: Call)
    requires call.Purge? && Apply(c, s, call).reply.Output?
    ensures var o := Apply(c, s, call);
            PurgeKey(call.batch) in o.store.results && o.store.results[PurgeKey(call.batch)] == o.reply.result
  {
    hide Loop, Candidates, PurgeKey;
  }

  /** Every batch result accounts for each scanned item once, and its audit entries tell its purges and failures. */
  lemma EveryBatchAddsUp(c: Config, calls: seq<Call>, call: Call)
    requires call.Purge?
    ensures var o := Apply(c, RunCalls(c, EMPTY, calls), call);
            o.reply.Output? && o.reply.result.BatchResult? ==>
              ReportOk(o.reply.result.report, o.reply.result.batch.startedAt, o.reply.result.scanned)
  {
    hide RunCalls, Apply, PurgeKey;
    assert Inv(EMPTY);
    RunKeepsInv(c, EMPTY, calls);
    var s := RunCalls(c, EMPTY, calls);
    ApplyKeepsInv(c, s, call);
    if Apply(c, s, call).reply.Output? { PurgeIsCached(c, s, call); }
  }
}
