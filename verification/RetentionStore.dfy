/**
 The store as the program keeps it: fields changed in place by each call, and the
 batch loop with its callback.
 */
module RetentionStore {
  import opened Strings
  import opened Dates
  import opened Retention
  import opened RetentionReplay

  lemma {:induction false} InsertSame(c: Config, s: Store, z: Store, sorted: seq<Scope>, x: Scope)
    requires s.current == z.current && s.items == z.items
    ensures Insert(c, s, sorted, x) == Insert(c, z, sorted, x)
  {
    if sorted != [] { InsertSame(c, s, z, sorted[1..], x); }
  }

  lemma {:induction false} SortSame(c: Config, s: Store, z: Store, pool: seq<Scope>)
    requires s.current == z.current && s.items == z.items
    ensures Sort(c, s, pool) == Sort(c, z, pool)
  {
    hide Insert;
    if pool != [] {
      SortSame(c, s, z, pool[..|pool| - 1]);
      InsertSame(c, s, z, Sort(c, z, pool[..|pool| - 1]), pool[|pool| - 1]);
    }
  }

  /** What a listing depends on. */
  lemma CandidatesSame(c: Config, s: Store, z: Store, tenant: Option<string>, user: Option<string>, at: int, limit: int)
    requires s.order == z.order && s.current == z.current && s.items == z.items && s.holds == z.holds
    ensures Candidates(c, s, tenant, user, at, limit) == Candidates(c, z, tenant, user, at, limit)
  {
    hide Sort, Pool;
    SamePool(s, z, Batch("", tenant, user, "", at, limit));
    SortSame(c, s, z, Pool(s, s.order, tenant, user, at));
  }

  lemma LoopSkips(c: Config, b: Batch, p: Progress, candidates: seq<Scope>, script: seq<Callback>)
    requires candidates != [] && !Eligible(p.store, candidates[0], b.startedAt)
    ensures Loop(c, b, p, candidates, script)
            == Loop(c, b, p.(report := Skipping(p.report, candidates[0].item)), candidates[1..], script)
  {
    hide Eligible, Settle, Leased;
  }

  lemma LoopSettles(c: Config, b: Batch, p: Progress, candidates: seq<Scope>, script: seq<Callback>)
    requires candidates != [] && Eligible(p.store, candidates[0], b.startedAt)
    ensures candidates[0] in p.store.current && Ref(candidates[0], p.store.current[candidates[0]]) in p.store.items
    ensures var ref := Ref(candidates[0], p.store.current[candidates[0]]);
            var called := RunCalls(c, Leased(p.store, b, ref), First(script).calls);
            Loop(c, b, p, candidates, script)
            == Loop(c, b, Settle(b, ref, First(script).error, p.(store := called)), candidates[1..],
                    if script == [] then [] else script[1..])
  {
    hide Eligible, Settle, Leased, Apply;
    EligibleRef(p.store, candidates[0], b.startedAt);
  }

  lemma RunStep(c: Config, s: Store, calls: seq<Call>)
    requires calls != []
    ensures RunCalls(c, s, calls) == RunCalls(c, Apply(c, s, calls[0]).store, calls[1..])
  {
    hide Apply;
  }

  class TrashStore {
    const config: Config
    var order: seq<Scope>
    var current: map<Scope, nat>
    var items: map<Ref, Item>
    var holds: map<Scope, map<string, Option<int>>>
    var results: map<string, Result>
    var events: seq<Event>
    var metrics: Metrics
    ghost var history: seq<Fact>

    ghost function Abs(): (s: Store)
      reads this
    {
      Store(order, current, items, holds, results, events, metrics, history)
    }

    /** What a running program can see of the store. */
    function View(): (s: Store)
      reads this
      ensures s == Abs().(history := [])
    {
      Store(order, current, items, holds, results, events, metrics, [])
    }

    constructor (config: Config)
      ensures this.config == config && Abs() == EMPTY
    {
      this.config := config;
      order, current, items, holds, results, events := [], map[], map[], map[], map[], [];
      metrics := Metrics(0, 0, 0, 0, 0, 0, 0, 0, 0, 0, 0);
      history := [];
    }

    method ListCandidates(tenant: Option<string>, user: Option<string>, at: int, limit: int) returns (r: seq<Scope>)
      ensures r == Candidates(config, Abs(), tenant, user, at, limit)
    {
      hide Candidates;
      CandidatesSame(config, View(), Abs(), tenant, user, at, limit);
      r := Candidates(config, View(), tenant, user, at, limit);
    }

    method MarkDeleted(scope: Scope, resource: string, id: string, deletedAt: int, auditable: bool)
      returns (reply: Reply)
      modifies this
      ensures Outcome(Abs(), reply) == ApplyMark(config, old(Abs()), scope, resource, id, deletedAt, auditable)
    {
      hide MarkKey;
      if resource !in config.resources { return Raised(ResourceDisabled); }
      var key := MarkKey(scope, id);
      if key in results { return Output(results[key]); }
      var until := deletedAt + config.days * DAY_MS;
      if until > MAX_DATE { return Raised(InvalidDate); }
      var generation := if scope in current then current[scope] + 1 else 1;
      var ref := Ref(scope, generation);
      if scope !in current {
        order := order + [scope];
        holds := holds[scope := map[]];
      }
      current := current[scope := generation];
      items := items[ref := Item(resource, Trashed, deletedAt, Some(until), None, None, None)];
      metrics := metrics.(trashed := metrics.trashed + 1);
      history := history + [TrashedFact(ref, until)];
      if !auditable { return Raised(NotAuditable); }
      events := events + [ItemTrashed(ref, until, deletedAt, id)];
      results := results[key := ItemResult(ref, items[ref])];
      reply := Output(results[key]);
    }

    method RestoreItem(scope: Scope, id: string, restoredAt: int, auditable: bool) returns (reply: Reply)
      modifies this
      ensures Outcome(Abs(), reply) == ApplyRestore(old(Abs()), scope, id, restoredAt, auditable)
    {
      hide RestoreKey;
      var key := RestoreKey(scope, id);
      if key in results { return Output(results[key]); }
      if scope !in current || Ref(scope, current[scope]) !in items { return Raised(NotFound); }
      var ref := Ref(scope, current[scope]);
      if items[ref].state == Purged { return Raised(AlreadyPurged); }
      items := items[ref := items[ref].(state := Restored, restoredAt := Some(restoredAt), until := None,
        lock := None)];
      metrics := metrics.(restored := metrics.restored + 1);
      history := history + [RestoredFact(ref)];
      if !auditable { return Raised(NotAuditable); }
      events := events + [ItemRestored(ref, restoredAt, id)];
      results := results[key := ItemResult(ref, items[ref])];
      reply := Output(results[key]);
    }

    method PlaceHold(scope: Scope, hold: string, expires: Option<int>, now: int, auditable: bool) returns (reply: Reply)
      modifies this
      ensures Outcome(Abs(), reply) == ApplyAddHold(old(Abs()), scope, hold, expires, now, auditable)
    {
      if scope !in current || Ref(scope, current[scope]) !in items { return Raised(NotFound); }
      var ref := Ref(scope, current[scope]);
      if expires.Some? && expires.value <= now { return Raised(HoldExpired); }
      var mine := if scope in holds then holds[scope] else map[];
      if hold in mine { return Output(ItemResult(ref, items[ref])); }
      holds := holds[scope := mine[hold := expires]];
      metrics := metrics.(held := metrics.held + 1, holdsAdded := metrics.holdsAdded + 1);
      history := history + [HeldFact(scope, hold, expires)];
      if !auditable { return Raised(NotAuditable); }
      events := events + [HoldAdded(scope, hold, expires)];
      reply := Output(ItemResult(ref, items[ref]));
    }

    method LiftHold(scope: Scope, hold: string, auditable: bool) returns (reply: Reply)
      modifies this
      ensures Outcome(Abs(), reply) == ApplyReleaseHold(old(Abs()), scope, hold, auditable)
    {
      if scope !in current || Ref(scope, current[scope]) !in items { return Raised(NotFound); }
      var ref := Ref(scope, current[scope]);
      var mine := if scope in holds then holds[scope] else map[];
      if hold !in mine { return Output(ItemResult(ref, items[ref])); }
      holds := holds[scope := mine - {hold}];
      metrics := metrics.(holdsReleased := metrics.holdsReleased + 1);
      history := history + [FreedFact(scope, hold)];
      if !auditable { return Raised(NotAuditable); }
      events := events + [HoldReleased(scope, hold)];
      reply := Output(ItemResult(ref, items[ref]));
    }

    method TakeLock(scope: Scope, lock: string, owner: string, leaseMs: int, at: int) returns (reply: Reply)
      modifies this
      ensures Outcome(Abs(), reply) == ApplyAcquireLock(old(Abs()), scope, lock, owner, leaseMs, at)
    {
      if scope !in current || Ref(scope, current[scope]) !in items { return Raised(NotFound); }
      var ref := Ref(scope, current[scope]);
      var item := items[ref];
      if item.lock.Some? && item.lock.value.expiresAt > at && item.lock.value.owner != owner { return Raised(Locked); }
      if at + leaseMs > MAX_DATE { return Raised(InvalidDate); }
      items := items[ref := item.(lock := Some(Lease(lock, owner, at + leaseMs)))];
      metrics := metrics.(locked := metrics.locked + 1);
      reply := Output(ItemResult(ref, items[ref]));
    }

    method DropLock(scope: Scope, lock: string, owner: string) returns (reply: Reply)
      modifies this
      ensures Outcome(Abs(), reply) == ApplyReleaseLock(old(Abs()), scope, lock, owner)
    {
      if scope !in current || Ref(scope, current[scope]) !in items { return Raised(NotFound); }
      var ref := Ref(scope, current[scope]);
      var item := items[ref];
      if item.lock.None? || item.lock.value.id != lock || item.lock.value.owner != owner {
        return Raised(LockNotOwned);
      }
      items := items[ref := item.(lock := None)];
      reply := Output(ItemResult(ref, items[ref]));
    }

    /** Any call; what a callback does is a sequence of these. */
    method Perform(call: Call) returns (reply: Reply)
      modifies this
      ensures Outcome(Abs(), reply) == Apply(config, old(Abs()), call)
      decreases call
    {
      hide WellFormed, ApplyMark, ApplyRestore, ApplyAddHold, ApplyReleaseHold, ApplyAcquireLock, ApplyReleaseLock,
        ApplyPurge;
      if !WellFormed(config, call) { return Raised(InvalidInput); }
      match call {
        case Mark(scope, resource, id, deletedAt, auditable) =>
          reply := MarkDeleted(scope, resource, id, deletedAt, auditable);
        case Restore(scope, id, restoredAt, auditable) => reply := RestoreItem(scope, id, restoredAt, auditable);
        case AddHold(scope, hold, expires, now, auditable) => reply := PlaceHold(scope, hold, expires, now, auditable);
        case ReleaseHold(scope, hold, auditable) => reply := LiftHold(scope, hold, auditable);
        case AcquireLock(scope, lock, owner, leaseMs, at) => reply := TakeLock(scope, lock, owner, leaseMs, at);
        case ReleaseLock(scope, lock, owner) => reply := DropLock(scope, lock, owner);
        case Purge(batch, completedAt, script) => reply := RunPurgeBatch(batch, completedAt, script);
      }
    }

    method PerformAll(calls: seq<Call>)
      modifies this
      ensures Abs() == RunCalls(config, old(Abs()), calls)
      decreases calls
    {
      hide Apply, RunCalls;
      assert calls[0..] == calls;
      for i := 0 to |calls|
        invariant RunCalls(config, Abs(), calls[i..]) == RunCalls(config, old(Abs()), calls)
      {
        RunStep(config, Abs(), calls[i..]);
        assert calls[i..][1..] == calls[i + 1..];
        var _ := Perform(calls[i]);
      }
      RunNothing(config, Abs());
    }

    /** What follows the callback: failure, change of heart, or the purge. */
    method SettleItem(b: Batch, ref: Ref, error: Option<string>, report: Report) returns (r: Report)
      modifies this
      ensures Progress(Abs(), r) == Settle(b, ref, error, Progress(old(Abs()), report))
    {
      r := report;
      var item := ref.scope.item;
      if error.Some? {
        r := r.(failures := r.failures + [Failure(item, error.value)]);
        metrics := metrics.(failures := metrics.failures + 1);
        var entry := PurgeFailed(ref, b.startedAt, b.id, error.value);
        events := events + [entry];
        r := r.(events := r.events + [entry]);
        if ref in items { items := items[ref := items[ref].(lock := None)]; }
        r := r.(skipped := r.skipped + [Skip(item, AdapterFailed)]);
        return;
      }
      if ref !in items {
        r := r.(skipped := r.skipped + [Skip(item, StateChanged)]);
        return;
      }
      var found := items[ref];
      var mine := if ref.scope in holds then holds[ref.scope] else map[];
      if found.state != Trashed || found.until.None? || found.until.value > b.startedAt || !Free(mine, b.startedAt) {
        items := items[ref := found.(lock := None)];
        r := r.(skipped := r.skipped + [Skip(item, StateChanged)]);
        return;
      }
      items := items[ref := found.(state := Purged, purgedAt := Some(b.startedAt), lock := None)];
      metrics := metrics.(purged := metrics.purged + 1);
      var entry := PurgeDone(ref, b.startedAt, b.id);
      events := events + [entry];
      history := history + [PurgedFact(ref, b.startedAt)];
      r := r.(events := r.events + [entry], items := r.items + [Gone(ref, items[ref])]);
    }

    /** The loop of a batch over its candidates. */
    method PurgeEach(b: Batch, candidates: seq<Scope>, script: seq<Callback>) returns (report: Report)
      modifies this
      ensures Progress(Abs(), report) == Loop(config, b, Progress(old(Abs()), NOTHING), candidates, script)
      decreases script, 0
    {
      hide Loop, Eligible, Settle, RunCalls;
      report := NOTHING;
      var next := 0;
      assert candidates[0..] == candidates && script[0..] == script;
      for i := 0 to |candidates|
        invariant next <= |script|
        invariant Loop(config, b, Progress(Abs(), report), candidates[i..], script[next..])
               == Loop(config, b, Progress(old(Abs()), NOTHING), candidates, script)
      {
        var candidate := candidates[i];
        ghost var p := Progress(Abs(), report);
        assert candidates[i..][1..] == candidates[i + 1..];
        SameEligible(View(), Abs(), candidate, b.startedAt);
        if !Eligible(View(), candidate, b.startedAt) {
          LoopSkips(config, b, p, candidates[i..], script[next..]);
          report := Skipping(report, candidate.item);
          continue;
        }
        LoopSettles(config, b, p, candidates[i..], script[next..]);
        var ref := Ref(candidate, current[candidate]);
        items := items[ref := items[ref].(lock := Some(Lease(b.id, b.worker, b.startedAt + LEASE_MS)))];
        assert Abs() == Leased(p.store, b, ref);
        if next < |script| {
          assert script[next] in script && script[next..][0] == script[next];
          assert script[next..][1..] == script[next + 1..];
          PerformAll(script[next].calls);
          report := SettleItem(b, ref, script[next].error, report);
          next := next + 1;
        } else {
          RunNothing(config, Abs());
          report := SettleItem(b, ref, None, report);
        }
      }
      LoopEnds(config, b, Progress(Abs(), report), script[next..]);
    }

    method RunPurgeBatch(b: Batch, completedAt: int, script: seq<Callback>) returns (reply: Reply)
      modifies this
      ensures Outcome(Abs(), reply) == ApplyPurge(config, old(Abs()), b, completedAt, script)
      decreases script, 1
    {
      hide PurgeKey, Loop, Candidates;
      var key := PurgeKey(b);
      if key in results { return Output(results[key]); }
      var candidates := ListCandidates(b.tenant, b.user, b.startedAt, b.limit);
      metrics := metrics.(batches := metrics.batches + 1, candidates := metrics.candidates + |candidates|);
      if candidates != [] && b.startedAt + LEASE_MS > MAX_DATE { return Raised(InvalidDate); }
      var report := PurgeEach(b, candidates, script);
      metrics := metrics.(skipped := metrics.skipped + |report.skipped|);
      var remaining := ListCandidates(b.tenant, b.user, completedAt, config.maxBatch);
      results := results[key := BatchResult(b, completedAt, |candidates|, report, |remaining|, metrics)];
      reply := Output(results[key]);
    }
  }

  lemma RunNothing(c: Config, s: Store)
    ensures RunCalls(c, s, []) == s
  {
  }

  lemma LoopEnds(c: Config, b: Batch, p: Progress, script: seq<Callback>)
    ensures Loop(c, b, p, [], script) == p
  {
  }

  lemma SameEligible(s: Store, z: Store, x: Scope, at: int)
    requires s.current == z.current && s.items == z.items && s.holds == z.holds
    ensures Eligible(s, x, at) <==> Eligible(z, x, at)
  {
  }
}
