/**
 The deletion policy as callers see it: every change goes back to a call that
 asked for it, each call succeeds exactly under its conditions, and the recovery
 window lasts for exactly the days of the request.
 */
module AccountPolicy {
  import opened Strings
  import opened Account
  import opened AccountPurge

  // ------------------------------------------------------ cleanup plans

  lemma {:induction false} DedupKeeps(plan: seq<string>)
    ensures forall x :: x in Dedup(plan) <==> x in plan
    ensures forall i, j :: 0 <= i < j < |Dedup(plan)| ==> Dedup(plan)[i] != Dedup(plan)[j]
    decreases |plan|
  {
    if plan != [] {
      var front, last := plan[..|plan| - 1], plan[|plan| - 1];
      DedupKeeps(front);
      assert plan == front + [last];
    }
  }

  predicate Known(x: string) {
    || x == "aliases" || x == "delegations" || x == "factors" || x == "backups" || x == "mailbox"
    || x == "dav_collections" || x == "preferences"
  }

  lemma KnownExactly()
    ensures forall x :: x in RESOURCES <==> Known(x)
  {
    var r := RESOURCES;
    assert r[0] == "aliases" && r[1] == "delegations" && r[2] == "factors" && r[3] == "backups";
    assert r[4] == "mailbox" && r[5] == "dav_collections" && r[6] == "preferences";
    forall x ensures x in r <==> Known(x) {
      if Known(x) {
        assert r[0] in r && r[1] in r && r[2] in r && r[3] in r && r[4] in r && r[5] in r && r[6] in r;
      }
    }
  }

  /** A plan is usable exactly when it is not empty and names known resources only; it keeps each of them once. */
  lemma PlanExactly(plan: seq<string>)
    ensures NormalPlan(Some(plan)).Some? <==> plan != [] && forall x :: x in plan ==> Known(x)
    ensures NormalPlan(Some(plan)).Some? ==>
              var r := NormalPlan(Some(plan)).value;
              && (forall x :: x in r <==> x in plan)
              && (forall i, j :: 0 <= i < j < |r| ==> r[i] != r[j])
  {
    hide Dedup, Known;
    DedupKeeps(plan);
    KnownExactly();
    if plan != [] { assert plan[0] in Dedup(plan); }
    if Dedup(plan) != [] { assert Dedup(plan)[0] in plan; }
  }

  // ------------------------------------------------------ when a call succeeds

  predicate Waiting(a: Record) { a.state.DeletionRequested? || a.state.SoftDeleted? || a.state.PurgePending? }

  /** A restoration succeeds from every waiting state, up to the last instant of the window. */
  lemma RestoreSucceedsExactly(s: Store, call: Call)
    requires call.Restore? && WellFormed(call) && CacheKey("restore", call.scope, call.id) !in s.results
    ensures var o := Apply(s, call);
            && (o.reply.Output?
                <==> && call.scope in s.accounts && Waiting(s.accounts[call.scope])
                     && call.restoredAt.Some? && call.auditable
                     && (s.accounts[call.scope].until.Some? ==>
                           call.restoredAt.value <= s.accounts[call.scope].until.value))
            && (o.reply.Output? ==>
                  && o.reply.result.account == o.store.accounts[call.scope]
                  && var a, b := s.accounts[call.scope], o.store.accounts[call.scope];
                  && b == a.(state := Active, until := None, queuedAt := None, requestedAt := None,
                             softDeletedAt := None, request := None))
  {
    hide WellFormed, CacheKey;
  }

  /** A request succeeds for an active account without holds, confirmed, with one to 3650 days and a usable plan. */
  lemma RequestSucceedsExactly(s: Store, call: Call)
    requires call.Request? && WellFormed(call) && CacheKey("request", call.scope, call.id) !in s.results
    ensures var o := Apply(s, call);
            && (o.reply.Output?
                <==> && call.scope in s.accounts && s.accounts[call.scope].state.Active?
                     && s.accounts[call.scope].holds == {}
                     && call.confirmation == "DELETE:" + call.scope.user && call.actorOk
                     && 1 <= call.days <= 3650 && call.requestedAt.Some?
                     && call.requestedAt.value + call.days * 86_400_000 <= 8_640_000_000_000_000
                     && var plan := if call.plan.Some? then call.plan.value else s.accounts[call.scope].plan;
                        plan != [] && forall x :: x in plan ==> Known(x))
            && (o.reply.Output? ==>
                  && call.scope in o.store.accounts
                  && var a, b := s.accounts[call.scope], o.store.accounts[call.scope];
                  && b == a.(state := DeletionRequested, requestedAt := call.requestedAt, request := Some(call.id),
                             until := Some(call.requestedAt.value + call.days * 86_400_000), plan := b.plan)
                  && forall x :: x in b.plan <==> x in if call.plan.Some? then call.plan.value else a.plan)
  {
    hide WellFormed, CacheKey, NormalPlan, Known;
    if call.scope in s.accounts {
      PlanExactly(if call.plan.Some? then call.plan.value else s.accounts[call.scope].plan);
    }
  }

  lemma SoftDeleteSucceedsExactly(s: Store, call: Call)
    requires call.SoftDelete? && WellFormed(call)
    ensures var o := Apply(s, call);
            && (o.reply.Output?
                <==> && call.scope in s.accounts && s.accounts[call.scope].state.DeletionRequested?
                     && call.confirmation == "DELETE:" + call.scope.user
                     && (call.request.Some? ==> s.accounts[call.scope].request == call.request)
                     && call.deletedAt.Some? && call.auditable)
            && (o.reply.Output? ==>
                  o.store.accounts[call.scope]
                  == s.accounts[call.scope].(state := SoftDeleted, softDeletedAt := call.deletedAt))
  {
    hide WellFormed;
  }

  /** Queueing succeeds from the last instant of the window on. */
  lemma QueueSucceedsExactly(s: Store, call: Call)
    requires call.Queue? && WellFormed(call) && CacheKey("queue", call.scope, call.id) !in s.results
    ensures var o := Apply(s, call);
            && (o.reply.Output?
                <==> && call.scope in s.accounts && s.accounts[call.scope].state.SoftDeleted?
                     && s.accounts[call.scope].holds == {} && call.queuedAt.Some? && call.auditable
                     && s.accounts[call.scope].until.Some?
                     && call.queuedAt.value >= s.accounts[call.scope].until.value)
            && (o.reply.Output? ==>
                  o.store.accounts[call.scope]
                  == s.accounts[call.scope].(state := PurgePending, queuedAt := call.queuedAt))
  {
    hide WellFormed, CacheKey;
  }

  lemma CompleteSucceedsExactly(s: Store, call: Call)
    requires call.Complete? && WellFormed(call) && CacheKey("complete", call.scope, call.id) !in s.results
    ensures var o := Apply(s, call);
            && (o.reply.Output?
                <==> && call.scope in s.accounts && s.accounts[call.scope].state.PurgePending?
                     && call.confirmation == "PURGE:" + call.scope.user && s.accounts[call.scope].holds == {}
                     && (forall x :: x in s.accounts[call.scope].plan ==> x in call.done)
                     && call.completedAt.Some? && call.auditable)
            && (o.reply.Output? ==>
                  o.store.accounts[call.scope]
                  == s.accounts[call.scope].(state := Purged, purgedAt := call.completedAt))
  {
    hide WellFormed, CacheKey;
  }

  /** Holds are added and removed in every state, each once. */
  lemma HoldsSucceedExactly(s: Store, call: Call)
    requires (call.AddHold? || call.ReleaseHold?) && WellFormed(call)
    ensures var o := Apply(s, call);
            && (o.reply.Output?
                <==> && call.scope in s.accounts
                     && var held := call.hold in s.accounts[call.scope].holds;
                     && (call.AddHold? && !held ==> call.addedAt.Some? && call.auditable)
                     && (call.ReleaseHold? && held ==> call.auditable))
            && (o.reply.Output? ==>
                  var a := s.accounts[call.scope];
                  o.store.accounts[call.scope]
                  == a.(holds := if call.AddHold? then a.holds + {call.hold} else a.holds - {call.hold}))
  {
    hide WellFormed;
    var o := Apply(s, call);
    if o.reply.Output? {
      var a := s.accounts[call.scope];
      assert call.hold in a.holds ==> a.holds + {call.hold} == a.holds;
      assert call.hold !in a.holds ==> a.holds - {call.hold} == a.holds;
    }
  }

  /** A new account is active, with every known resource planned unless the call plans otherwise. */
  lemma RegisterSucceedsExactly(s: Store, call: Call)
    requires call.Register? && WellFormed(call)
    ensures var o := Apply(s, call);
            && (o.reply.Output?
                <==> && call.scope !in s.accounts && call.createdAt.Some? && call.auditable
                     && (call.plan.Some? ==> call.plan.value != [] && forall x :: x in call.plan.value ==> Known(x)))
            && (o.reply.Output? ==>
                  var a := o.store.accounts[call.scope];
                  && a == Record(call.kind, Active, call.createdAt.value, None, None, None, None, None, a.plan, {},
                                 None)
                  && forall x :: x in a.plan <==> if call.plan.Some? then x in call.plan.value else Known(x))
  {
    hide WellFormed, NormalPlan, Known;
    PlanExactly(if call.plan.Some? then call.plan.value else RESOURCES);
    KnownExactly();
    DefaultIsAll();
  }

  lemma DefaultIsAll()
    ensures NormalPlan(None) == NormalPlan(Some(RESOURCES))
  {
  }

  // ------------------------------------------------------ the window

  /** The account waits, and may be restored until `until`. */
  predicate Recoverable(s: Store, scope: Scope, until: int) {
    scope in s.accounts && Waiting(s.accounts[scope]) && s.accounts[scope].until == Some(until)
  }

  predicate Settles(call: Call, scope: Scope) { (call.Restore? || call.Complete?) && call.scope == scope }

  lemma WaitingStays(s: Store, call: Call, scope: Scope, until: int)
    requires Recoverable(s, scope, until) && !Settles(call, scope)
    ensures Recoverable(Apply(s, call).store, scope, until)
  {
    hide WellFormed, CacheKey, NormalPlan;
  }

  lemma {:induction false} RunWaits(s: Store, calls: seq<Call>, scope: Scope, until: int)
    requires Recoverable(s, scope, until) && forall i :: 0 <= i < |calls| ==> !Settles(calls[i], scope)
    ensures Recoverable(Run(s, calls), scope, until)
    decreases |calls|
  {
    hide Apply, Recoverable, Settles;
    if calls != [] {
      WaitingStays(s, calls[0], scope, until);
      RunWaits(Apply(s, calls[0]).store, calls[1..], scope, until);
    }
  }

  /**
   After an accepted request, and whatever is called meanwhile short of restoring
   or completing, the account can be restored at an instant if and only if that is
   no later than the days of the request after it; soft deletion, queueing, holds
   and other accounts make no difference.
   */
  lemma WindowIsExact(s: Store, request: Call, between: seq<Call>, restore: Call)
    requires request.Request? && Apply(s, request).reply.Output? && WellFormed(request)
    requires CacheKey("request", request.scope, request.id) !in s.results
    requires forall i :: 0 <= i < |between| ==> !Settles(between[i], request.scope)
    requires restore.Restore? && WellFormed(restore) && restore.scope == request.scope
    requires restore.restoredAt.Some? && restore.auditable
    ensures var z := Run(Apply(s, request).store, between);
            CacheKey("restore", restore.scope, restore.id) !in z.results ==>
              (Apply(z, restore).reply.Output?
               <==> restore.restoredAt.value <= request.requestedAt.value + request.days * 86_400_000)
  {
    hide Apply, WellFormed, CacheKey, Run, Settles, Known;
    RequestSucceedsExactly(s, request);
    var z := Run(Apply(s, request).store, between);
    var until := request.requestedAt.value + request.days * 86_400_000;
    RunWaits(Apply(s, request).store, between, request.scope, until);
    if CacheKey("restore", restore.scope, restore.id) !in z.results { RestoreSucceedsExactly(z, restore); }
  }

  // ------------------------------------------------------ where facts come from

  ghost predicate AsksFor(call: Call, f: Fact) {
    match f
    case RequestedFact(scope, at, days, plan) =>
      && call.Request? && call.scope == scope && call.requestedAt == Some(at) && call.days == days
      && call.confirmation == "DELETE:" + scope.user
      && (call.plan.Some? && NormalPlan(call.plan).Some? && at + days * 86_400_000 <= 8_640_000_000_000_000 ==>
            forall x :: x in plan <==> x in call.plan.value)
    case SoftDeletedFact(scope) =>
      call.SoftDelete? && call.scope == scope && call.confirmation == "DELETE:" + scope.user
    case RestoredFact(scope) => call.Restore? && call.scope == scope
    case HeldFact(scope, hold) => call.AddHold? && call.scope == scope && call.hold == hold
    case FreedFact(scope, hold) => call.ReleaseHold? && call.scope == scope && call.hold == hold
    case QueuedFact(scope, at) => call.Queue? && call.scope == scope && call.queuedAt == Some(at)
    case PurgedFact(scope, done) =>
      call.Complete? && call.scope == scope && call.done == done && call.confirmation == "PURGE:" + scope.user
  }

  ghost predicate Asked(calls: seq<Call>, f: Fact) {
    exists call :: call in calls && WellFormed(call) && AsksFor(call, f)
  }

  /** At most one fact is added, and it is what the call asks for. */
  ghost predicate AddsAsked(s: Store, call: Call) {
    var h := Apply(s, call).store.history;
    || h == s.history
    || (WellFormed(call) && |h| == |s.history| + 1 && h == s.history + [h[|s.history|]]
        && AsksFor(call, h[|s.history|]))
  }

  lemma RequestAsks(s: Store, call: Call)
    requires call.Request?
    ensures AddsAsked(s, call)
  {
    hide WellFormed, CacheKey, NormalPlan, Known;
    if call.plan.Some? {
      PlanExactly(call.plan.value);
      assert call.plan == Some(call.plan.value);
    }
  }

  lemma OneFact(s: Store, call: Call)
    ensures AddsAsked(s, call)
  {
    hide WellFormed, CacheKey, AllDone, NormalPlan, RequestChange;
    if call.Request? { RequestAsks(s, call); }
  }

  lemma {:induction false} FactsAreAsked(s: Store, calls: seq<Call>)
    ensures var h := Run(s, calls).history;
            && |s.history| <= |h| && h[..|s.history|] == s.history
            && forall k :: |s.history| <= k < |h| ==> Asked(calls, h[k])
    decreases |calls|
  {
    hide Apply, AsksFor, WellFormed;
    if calls != [] {
      var z := Apply(s, calls[0]).store;
      OneFact(s, calls[0]);
      assert AddsAsked(s, calls[0]);
      FactsAreAsked(z, calls[1..]);
      var h := Run(s, calls).history;
      assert h[..|s.history|] == h[..|z.history|][..|s.history|];
      forall k | |s.history| <= k < |h| ensures Asked(calls, h[k]) {
        if k < |z.history| {
          assert h[k] == h[..|z.history|][k];
          assert calls[0] in calls;
        } else {
          assert Asked(calls[1..], h[k]);
          var call :| call in calls[1..] && WellFormed(call) && AsksFor(call, h[k]);
          assert call in calls;
        }
      }
    }
  }

  ghost predicate Requests(calls: seq<Call>, request: Call, scope: Scope) {
    && request in calls && request.Request? && request.scope == scope && request.requestedAt.Some?
    && 1 <= request.days <= 3650 && request.confirmation == "DELETE:" + scope.user
  }

  ghost predicate SoftDeletes(calls: seq<Call>, soft: Call, scope: Scope) {
    soft in calls && soft.SoftDelete? && soft.scope == scope && soft.confirmation == "DELETE:" + scope.user
  }

  /** Queued at least the days of the request after it. */
  ghost predicate Queues(calls: seq<Call>, request: Call, queue: Call, scope: Scope) {
    && queue in calls && queue.Queue? && queue.scope == scope && queue.queuedAt.Some?
    && request.Request? && request.requestedAt.Some?
    && queue.queuedAt.value >= request.requestedAt.value + request.days * 86_400_000
  }

  /** Completed with every resource that the request planned reported purged. */
  ghost predicate Completes(calls: seq<Call>, request: Call, complete: Call, scope: Scope) {
    && complete in calls && complete.Complete? && complete.scope == scope
    && complete.confirmation == "PURGE:" + scope.user && request.Request? && request.requestedAt.Some?
    && (request.plan.Some? && NormalPlan(request.plan).Some?
        && request.requestedAt.value + request.days * 86_400_000 <= 8_640_000_000_000_000 ==>
          forall x :: x in request.plan.value ==> x in complete.done)
  }

  ghost predicate AskedFor(calls: seq<Call>, scope: Scope) {
    exists request, soft, queue, complete ::
      && Requests(calls, request, scope) && SoftDeletes(calls, soft, scope)
      && Queues(calls, request, queue, scope) && Completes(calls, request, complete, scope)
  }

  ghost function Asker(calls: seq<Call>, f: Fact): (call: Call)
    requires Asked(calls, f)
    ensures call in calls && AsksFor(call, f)
  {
    var call :| call in calls && WellFormed(call) && AsksFor(call, f);
    call
  }

  /**
   Every purge goes back to four calls of the run: a confirmed request for some
   days, a confirmed soft deletion, a queueing at least those days later, and a
   confirmed completion that reports every planned resource purged.
   */
  lemma PurgesAreAsked(calls: seq<Call>, scope: Scope)
    requires var s := Run(EMPTY, calls); scope in s.accounts && s.accounts[scope].state == Purged
    ensures AskedFor(calls, scope)
  {
    hide Run, NormalPlan, HoldsIn, Asked, AskedFor, AsksFor;
    PurgesAreEarned(calls, scope);
    FactsAreAsked(EMPTY, calls);
    var h := Run(EMPTY, calls).history;
    var j :| CompleteStep(h, scope, j);
    var request, soft := Asker(calls, h[j.request]), Asker(calls, h[j.soft]);
    var queue, complete := Asker(calls, h[j.queue]), Asker(calls, h[j.complete]);
    FourAsk(calls, scope, h[j.request], h[j.queue], h[j.complete], request, soft, queue, complete);
  }

  lemma FourAsk(calls: seq<Call>, scope: Scope, r: Fact, q: Fact, p: Fact, request: Call, soft: Call, queue: Call,
    complete: Call)
    requires request in calls && soft in calls && queue in calls && complete in calls
    requires r.RequestedFact? && AsksFor(request, r) && r.scope == scope && 1 <= r.days <= 3650
    requires AsksFor(soft, SoftDeletedFact(scope))
    requires q.QueuedFact? && AsksFor(queue, q) && q.scope == scope && q.at >= r.at + r.days * 86_400_000
    requires p.PurgedFact? && AsksFor(complete, p) && p.scope == scope && AllDone(r.plan, p.done)
    ensures AskedFor(calls, scope)
  {
    hide NormalPlan;
    assert Requests(calls, request, scope) && SoftDeletes(calls, soft, scope);
    assert Queues(calls, request, queue, scope) && Completes(calls, request, complete, scope);
  }
}
