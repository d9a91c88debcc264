/**
 The retention policy as callers see it: every change in the history goes back to
 a call, a purge to a deletion `days` days before it, and each call selects an
 item for purging or protects it for exactly as long as it says.
 */
module RetentionPolicy {
  import opened Strings
  import opened Dates
  import opened CacheKeys
  import opened Retention
  import opened RetentionDrain

  // ------------------------------------------------------ where facts come from

  /** The calls of a run, at any depth of its callbacks. */
  function CallsOf(calls: seq<Call>): (r: set<Call>)
    decreases calls
  {
    if calls == [] then {}
    else {calls[0]} + (if calls[0].Purge? then ScriptCalls(calls[0].script) else {}) + CallsOf(calls[1..])
  }

  function ScriptCalls(script: seq<Callback>): (r: set<Call>)
    decreases script
  {
    if script == [] then {} else assert script[0] in script; CallsOf(script[0].calls) + ScriptCalls(script[1..])
  }

  /** The call asks for just this change; a deletion keeps the item for the configured number of days. */
  predicate AsksFor(c: Config, call: Call, f: Fact) {
    match f
    case TrashedFact(ref, until) =>
      call.Mark? && call.scope == ref.scope && until == call.deletedAt + c.days * 86_400_000
    case RestoredFact(ref) => call.Restore? && call.scope == ref.scope
    case HeldFact(scope, hold, expires) =>
      call.AddHold? && call.scope == scope && call.hold == hold && call.expires == expires
    case FreedFact(scope, hold) => call.ReleaseHold? && call.scope == scope && call.hold == hold
    case PurgedFact(ref, at) =>
      && call.Purge? && call.batch.startedAt == at
      && (call.batch.tenant.Some? ==> call.batch.tenant.value == ref.scope.tenant)
      && (call.batch.user.Some? ==> call.batch.user.value == ref.scope.user)
  }

  ghost predicate Asked(c: Config, source: set<Call>, f: Fact) {
    exists call :: call in source && WellFormed(c, call) && AsksFor(c, call, f)
  }

  /** From index `n` on, every fact was asked for by one of the calls. */
  ghost predicate Sourced(c: Config, h: seq<Fact>, n: nat, source: set<Call>) {
    n <= |h| && forall k :: n <= k < |h| ==> Asked(c, source, h[k])
  }

  lemma SourcedSnoc(c: Config, h: seq<Fact>, n: nat, source: set<Call>, call: Call, f: Fact)
    requires Sourced(c, h, n, source) && call in source && WellFormed(c, call) && AsksFor(c, call, f)
    ensures Sourced(c, h + [f], n, source)
  {
    hide WellFormed, AsksFor;
    assert Asked(c, source, f);
  }

  /** At most one fact is added, and it is what the call asks for. */
  ghost predicate AddsAsked(c: Config, s: Store, call: Call) {
    var h := Apply(c, s, call).store.history;
    || h == s.history
    || (WellFormed(c, call) && |h| == |s.history| + 1 && h == s.history + [h[|s.history|]]
        && AsksFor(c, call, h[|s.history|]))
  }

  lemma ItemFacts(c: Config, s: Store, call: Call)
    requires call.Mark? || call.Restore?
    ensures AddsAsked(c, s, call)
  {
    hide WellFormed, MarkKey, RestoreKey, ApplyAddHold, ApplyReleaseHold, ApplyAcquireLock, ApplyReleaseLock,
      ApplyPurge;
  }

  lemma HoldFacts(c: Config, s: Store, call: Call)
    requires call.AddHold? || call.ReleaseHold?
    ensures AddsAsked(c, s, call)
  {
    hide WellFormed, ApplyMark, ApplyRestore, ApplyAcquireLock, ApplyReleaseLock, ApplyPurge;
  }

  lemma LockFacts(c: Config, s: Store, call: Call)
    requires call.AcquireLock? || call.ReleaseLock?
    ensures Apply(c, s, call).store.history == s.history
  {
    hide WellFormed, ApplyMark, ApplyRestore, ApplyAddHold, ApplyReleaseHold, ApplyPurge, LockedAt;
  }

  lemma ItemCallSourced(c: Config, s: Store, call: Call, n: nat, source: set<Call>)
    requires !call.Purge? && call in source && Sourced(c, s.history, n, source)
    ensures Sourced(c, Apply(c, s, call).store.history, n, source)
  {
    hide Apply, WellFormed, AsksFor, Sourced;
    if call.AcquireLock? || call.ReleaseLock? {
      LockFacts(c, s, call);
    } else {
      if call.AddHold? || call.ReleaseHold? { HoldFacts(c, s, call); } else { ItemFacts(c, s, call); }
      var h := Apply(c, s, call).store.history;
      if h != s.history { SourcedSnoc(c, s.history, n, source, call, h[|s.history|]); }
    }
  }

  lemma SettleFacts(b: Batch, ref: Ref, error: Option<string>, p: Progress)
    ensures var h := Settle(b, ref, error, p).store.history;
            h == p.store.history || h == p.store.history + [PurgedFact(ref, b.startedAt)]
  {
    hide Due;
  }

  lemma {:induction false} LoopSourced(c: Config, purge: Call, p: Progress, candidates: seq<Scope>,
    script: seq<Callback>, n: nat, source: set<Call>)
    requires purge.Purge? && purge in source && WellFormed(c, purge) && ScriptCalls(script) <= source
    requires Sourced(c, p.store.history, n, source)
    requires forall x :: x in candidates ==> Matches(purge.batch.tenant, purge.batch.user, x)
    ensures Sourced(c, Loop(c, purge.batch, p, candidates, script).store.history, n, source)
    decreases script, |candidates|
  {
    hide Eligible, Settle, Leased, Matches, WellFormed, Sourced;
    var b := purge.batch;
    if candidates != [] {
      var x := candidates[0];
      assert Matches(b.tenant, b.user, x);
      if !Eligible(p.store, x, b.startedAt) {
        LoopSourced(c, purge, p.(report := Skipping(p.report, x.item)), candidates[1..], script, n, source);
      } else {
        EligibleRef(p.store, x, b.startedAt);
        var ref := Ref(x, p.store.current[x]);
        var leased := Leased(p.store, b, ref);
        assert leased.history == p.store.history by { LeasedFacts(p.store, b, ref); }
        if script == [] {
          SettledSourced(c, purge, p.(store := leased), ref, None, n, source);
          LoopSourced(c, purge, Settle(b, ref, None, p.(store := leased)), candidates[1..], [], n, source);
        } else {
          assert script[0] in script;
          RunSourced(c, leased, script[0].calls, n, source);
          var q := p.(store := RunCalls(c, leased, script[0].calls));
          SettledSourced(c, purge, q, ref, script[0].error, n, source);
          LoopSourced(c, purge, Settle(b, ref, script[0].error, q), candidates[1..], script[1..], n, source);
        }
      }
    }
  }

  lemma LeasedFacts(s: Store, b: Batch, ref: Ref)
    requires ref in s.items
    ensures Leased(s, b, ref).history == s.history
  {
  }

  lemma SettledSourced(c: Config, purge: Call, p: Progress, ref: Ref, error: Option<string>, n: nat, source: set<Call>)
    requires purge.Purge? && purge in source && WellFormed(c, purge) && Sourced(c, p.store.history, n, source)
    requires Matches(purge.batch.tenant, purge.batch.user, ref.scope)
    ensures Sourced(c, Settle(purge.batch, ref, error, p).store.history, n, source)
  {
    hide WellFormed, Sourced, Settle;
    SettleFacts(purge.batch, ref, error, p);
    SourcedSnoc(c, p.store.history, n, source, purge, PurgedFact(ref, purge.batch.startedAt));
  }

  lemma {:induction false} PoolMatches(s: Store, order: seq<Scope>, tenant: Option<string>, user: Option<string>,
    at: int)
    ensures forall x :: x in Pool(s, order, tenant, user, at) ==> Matches(tenant, user, x)
  {
    hide Eligible, Matches;
    if order != [] { PoolMatches(s, order[1..], tenant, user, at); }
  }

  lemma CandidatesMatch(c: Config, s: Store, tenant: Option<string>, user: Option<string>, at: int, limit: int)
    ensures forall x :: x in Candidates(c, s, tenant, user, at, limit) ==> Matches(tenant, user, x)
  {
    hide Matches, Pool, Sort;
    var pool := Pool(s, s.order, tenant, user, at);
    PoolMatches(s, s.order, tenant, user, at);
    var sorted := Sort(c, s, pool);
    forall x | x in Take(sorted, limit) ensures Matches(tenant, user, x) {
      assert x in multiset(sorted);
      assert x in pool;
    }
  }

  lemma {:induction false} ApplySourced(c: Config, s: Store, call: Call, n: nat, source: set<Call>)
    requires CallsOf([call]) <= source && Sourced(c, s.history, n, source)
    ensures Sourced(c, Apply(c, s, call).store.history, n, source)
    decreases call
  {
    hide Candidates, Loop, PurgeKey, WellFormed, ApplyMark, ApplyRestore, ApplyAddHold, ApplyReleaseHold,
      ApplyAcquireLock, ApplyReleaseLock, Sourced;
    OneCall(call);
    match call {
      case Purge(b, completedAt, script) =>
        if WellFormed(c, call) {
          var candidates := Candidates(c, s, b.tenant, b.user, b.startedAt, b.limit);
          CandidatesMatch(c, s, b.tenant, b.user, b.startedAt, b.limit);
          LoopSourced(c, call, Progress(Begun(s, |candidates|), NOTHING), candidates, script, n, source);
          assert Apply(c, s, call) == ApplyPurge(c, s, b, completedAt, script);
        }
      case _ =>
        ItemCallSourced(c, s, call, n, source);
    }
  }

  lemma OneCall(call: Call)
    ensures call in CallsOf([call]) && (call.Purge? ==> ScriptCalls(call.script) <= CallsOf([call]))
  {
  }

  lemma {:induction false} RunSourced(c: Config, s: Store, calls: seq<Call>, n: nat, source: set<Call>)
    requires CallsOf(calls) <= source && Sourced(c, s.history, n, source)
    ensures Sourced(c, RunCalls(c, s, calls).history, n, source)
    decreases calls
  {
    hide Apply, Sourced;
    if calls != [] {
      assert CallsOf([calls[0]]) <= CallsOf(calls) by { assert [calls[0]][1..] == []; }
      ApplySourced(c, s, calls[0], n, source);
      RunSourced(c, Apply(c, s, calls[0]).store, calls[1..], n, source);
    }
  }

  /** Nothing changes that no call asked for: deletions, restorations, holds, releases and purges alike. */
  lemma EveryFactIsAsked(c: Config, calls: seq<Call>)
    ensures var h := RunCalls(c, EMPTY, calls).history;
            forall k :: 0 <= k < |h| ==> Asked(c, CallsOf(calls), h[k])
  {
    hide RunCalls, Asked;
    RunSourced(c, EMPTY, calls, 0, CallsOf(calls));
  }

  // ------------------------------------------------------ what a purge goes back to

  predicate About(f: Fact, ref: Ref) { (f.TrashedFact? || f.RestoredFact? || f.PurgedFact?) && f.ref == ref }

  /** The last thing that happened to the record is its deletion. */
  lemma {:induction false} LastDeletion(h: seq<Fact>, ref: Ref)
    requires SeenIn(h, ref).TrashedUntil?
    ensures exists j :: 0 <= j < |h| && h[j] == TrashedFact(ref, SeenIn(h, ref).until)
                        && forall i :: j < i < |h| ==> !About(h[i], ref)
    decreases |h|
  {
    var n := |h| - 1;
    if About(h[n], ref) {
      assert h[n] == TrashedFact(ref, SeenIn(h, ref).until);
    } else {
      LastDeletion(h[..n], ref);
      var j :| 0 <= j < n && h[..n][j] == TrashedFact(ref, SeenIn(h, ref).until)
               && forall i :: j < i < n ==> !About(h[..n][i], ref);
      forall i | j < i < |h| ensures !About(h[i], ref) {
        assert i < n ==> h[..n][i] == h[i];
      }
      assert h[j] == TrashedFact(ref, SeenIn(h, ref).until);
    }
  }

  /** The fact at `k` purges a record that a deletion put aside at `j`, at least `days` days before. */
  ghost predicate KeptLongEnough(c: Config, source: set<Call>, h: seq<Fact>, k: nat) {
    k < |h| && h[k].PurgedFact? &&
    exists j, mark ::
      && 0 <= j < k && mark in source && mark.Mark? && mark.scope == h[k].ref.scope
      && h[j] == TrashedFact(h[k].ref, mark.deletedAt + c.days * 86_400_000)
      && mark.deletedAt + c.days * 86_400_000 <= h[k].at
      && forall i :: j < i < k ==> !About(h[i], h[k].ref)
  }

  /**
   On every run, whatever the callbacks do, a record is purged only at an instant
   at least the configured number of days after a deletion that a call asked for,
   with no restoration since, and with no hold in force.
   */
  lemma PurgesKeepThePolicy(c: Config, calls: seq<Call>, k: nat)
    requires k < |RunCalls(c, EMPTY, calls).history| && RunCalls(c, EMPTY, calls).history[k].PurgedFact?
    ensures var h := RunCalls(c, EMPTY, calls).history;
            KeptLongEnough(c, CallsOf(calls), h, k) && FreeIn(h[..k], h[k].ref.scope, h[k].at)
  {
    hide RunCalls, Mirror, SeenIn, FreeIn, Asked, CallsOf, WellFormed;
    EveryRunIsLawful(c, calls);
    EveryFactIsAsked(c, calls);
    var h := RunCalls(c, EMPTY, calls).history;
    var ref := h[k].ref;
    assert Allowed(h[..k], h[k]);
    LastDeletion(h[..k], ref);
    var j :| 0 <= j < k && h[..k][j] == TrashedFact(ref, SeenIn(h[..k], ref).until)
             && forall i :: j < i < k ==> !About(h[..k][i], ref);
    assert forall i :: 0 <= i < k ==> h[..k][i] == h[i];
    var mark := Asker(c, CallsOf(calls), h[j]);
    assert h[j] == TrashedFact(ref, mark.deletedAt + c.days * 86_400_000);
  }

  ghost function Asker(c: Config, source: set<Call>, f: Fact): (call: Call)
    requires Asked(c, source, f)
    ensures call in source && WellFormed(c, call) && AsksFor(c, call, f)
  {
    var call :| call in source && WellFormed(c, call) && AsksFor(c, call, f);
    call
  }

  // ------------------------------------------------------ what the calls do to the selection

  /** Due at `at`, with neither a hold nor a lease in force: what a batch selects. */
  lemma EligibleExactly(s: Store, x: Scope, at: int)
    ensures Eligible(s, x, at)
            <==> && x in s.current && Ref(x, s.current[x]) in s.items
                 && var item := s.items[Ref(x, s.current[x])];
                    && item.state == Trashed && item.until.Some? && item.until.value <= at
                    && (forall h :: h in HoldsOf(s, x) ==> HoldsOf(s, x)[h].Some? && HoldsOf(s, x)[h].value <= at)
                    && (item.lock.Some? ==> item.lock.value.expiresAt <= at)
  {
  }

  /** A deletion that is not a replay selects the item from `days` days later on, unless a hold is in force then. */
  lemma MarkSelectsExactly(c: Config, s: Store, call: Call, at: int)
    requires call.Mark? && WellFormed(c, call) && MarkKey(call.scope, call.id) !in s.results
    ensures var o := Apply(c, s, call);
            var due := call.deletedAt + c.days * 86_400_000;
            && (o.reply.Output? <==> call.resource in c.resources && due <= 8_640_000_000_000_000 && call.auditable)
            && (o.reply.Output? ==>
                  (Eligible(o.store, call.scope, at) <==> at >= due && Free(HoldsOf(o.store, call.scope), at)))
            && (call.scope in s.current ==> HoldsOf(o.store, call.scope) == HoldsOf(s, call.scope))
            && (o.reply.Output? && call.scope !in s.current ==> HoldsOf(o.store, call.scope) == map[])
  {
    hide WellFormed, MarkKey;
  }

  /** A restored item is never selected, until it is deleted again. */
  lemma RestoreUnselects(c: Config, s: Store, call: Call, at: int)
    requires call.Restore? && WellFormed(c, call) && RestoreKey(call.scope, call.id) !in s.results
    ensures var o := Apply(c, s, call);
            && (o.reply.Output?
                <==> && call.auditable && call.scope in s.current && Ref(call.scope, s.current[call.scope]) in s.items
                     && s.items[Ref(call.scope, s.current[call.scope])].state != Purged)
            && (o.reply.Output? ==> !Eligible(o.store, call.scope, at))
  {
    hide WellFormed, RestoreKey, MarkKey, LockedAt;
  }

  /** A new hold keeps the item from being selected until it expires, or for good; nothing else changes. */
  lemma HoldProtectsExactly(c: Config, s: Store, call: Call, x: Scope, at: int)
    requires call.AddHold? && WellFormed(c, call)
    ensures var o := Apply(c, s, call);
            var known := call.scope in s.current && Ref(call.scope, s.current[call.scope]) in s.items;
            && (o.reply.Output?
                <==> && known && (call.expires.Some? ==> call.expires.value > call.now)
                     && (call.hold in HoldsOf(s, call.scope) || call.auditable))
            && (o.reply.Output? && call.hold !in HoldsOf(s, call.scope) ==>
                  (Eligible(o.store, x, at)
                   <==> && Eligible(s, x, at)
                        && (x == call.scope ==> call.expires.Some? && call.expires.value <= at)))
  {
    hide WellFormed, LockedAt;
    var o := Apply(c, s, call);
    if o.reply.Output? && call.hold !in HoldsOf(s, call.scope) {
      forall h ensures h in HoldsOf(o.store, call.scope) <==> h in HoldsOf(s, call.scope) || h == call.hold {
      }
    }
  }

  /** A released hold counts no more; the others do. */
  lemma ReleaseUnprotectsExactly(c: Config, s: Store, call: Call, at: int)
    requires call.ReleaseHold? && WellFormed(c, call)
    ensures var o := Apply(c, s, call);
            var known := call.scope in s.current && Ref(call.scope, s.current[call.scope]) in s.items;
            && (o.reply.Output? <==> known && (call.hold in HoldsOf(s, call.scope) ==> call.auditable))
            && (o.reply.Output? ==>
                  (Eligible(o.store, call.scope, at)
                   <==> && Due(s.(holds := map[]), Ref(call.scope, s.current[call.scope]), at)
                        && !LockedAt(s.items[Ref(call.scope, s.current[call.scope])], at)
                        && Free(HoldsOf(s, call.scope) - {call.hold}, at)))
  {
    hide WellFormed, LockedAt;
    assert HoldsOf(s, call.scope) - {call.hold} == HoldsOf(s, call.scope) || call.hold in HoldsOf(s, call.scope);
  }

  /** A lease is granted unless another owner holds one; while it lasts the item is not selected. */
  lemma LeaseExcludesExactly(c: Config, s: Store, call: Call, at: int)
    requires call.AcquireLock? && WellFormed(c, call)
    ensures var o := Apply(c, s, call);
            var ref := Ref(call.scope, if call.scope in s.current then s.current[call.scope] else 0);
            && (o.reply.Output?
                <==> && call.scope in s.current && ref in s.items && call.at + call.leaseMs <= 8_640_000_000_000_000
                     && (s.items[ref].lock.Some? && s.items[ref].lock.value.expiresAt > call.at ==>
                           s.items[ref].lock.value.owner == call.owner))
            && (o.reply.Output? ==>
                  (Eligible(o.store, call.scope, at) <==> Due(s, ref, at) && at >= call.at + call.leaseMs))
  {
    hide WellFormed;
  }

  /** Only the lease of this owner and id is dropped; then nothing but holds keeps a due item back. */
  lemma DroppedLeaseExactly(c: Config, s: Store, call: Call, at: int)
    requires call.ReleaseLock? && WellFormed(c, call)
    ensures var o := Apply(c, s, call);
            var ref := Ref(call.scope, if call.scope in s.current then s.current[call.scope] else 0);
            && (o.reply.Output?
                <==> && call.scope in s.current && ref in s.items && s.items[ref].lock.Some?
                     && s.items[ref].lock.value.id == call.lock && s.items[ref].lock.value.owner == call.owner)
            && (o.reply.Output? ==> (Eligible(o.store, call.scope, at) <==> Due(s, ref, at)))
  {
    hide WellFormed;
  }

  /** While a batch has an item in hand no other batch selects it, for thirty seconds. */
  lemma ItemInHandExactly(s: Store, b: Batch, x: Scope, at: int)
    requires x in s.current && Ref(x, s.current[x]) in s.items
    ensures var ref := Ref(x, s.current[x]);
            Eligible(Leased(s, b, ref), x, at) <==> Due(s, ref, at) && at >= b.startedAt + 30_000
  {
  }
}
