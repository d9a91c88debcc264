/**
 Replays: a request whose result is cached returns that result and changes
 nothing, in every later state; and where that stops being so.
 */
module RetentionReplay {
  import opened Strings
  import opened Dates
  import opened CacheKeys
  import opened Retention
  import opened RetentionDrain

  /** The two calls name the same operation, scope and id. */
  predicate SameRequest(a: Call, b: Call) {
    match (a, b)
    case (Mark(s, _, i, _, _), Mark(t, _, j, _, _)) => s == t && i == j
    case (Restore(s, i, _, _), Restore(t, j, _, _)) => s == t && i == j
    case (Purge(x, _, _), Purge(y, _, _)) =>
      x.worker == y.worker && x.tenant == y.tenant && x.user == y.user && x.id == y.id
    case _ => false
  }

  function Parts(call: Call): (p: seq<string>)
    requires call.Mark? || call.Restore? || call.Purge?
    ensures |p| == 5
  {
    match call
    case Mark(scope, _, id, _, _) => ["delete", scope.tenant, scope.user, scope.item, id]
    case Restore(scope, id, _, _) => ["restore", scope.tenant, scope.user, scope.item, id]
    case Purge(b, _, _) => ["purge", b.worker, Wildcard(b.tenant), Wildcard(b.user), b.id]
  }

  lemma WellFormedParts(c: Config, call: Call)
    requires WellFormed(c, call) && (call.Mark? || call.Restore? || call.Purge?)
    ensures AllNulFree(Parts(call)) && KeyOf(call) == Some(Join(Parts(call)))
  {
    hide IsId, IsOperationId, Join;
    match call {
      case Mark(scope, _, id, _, _) =>
        IdNulFree(scope.tenant); IdNulFree(scope.user); IdNulFree(scope.item); IdNulFree(id);
      case Restore(scope, id, _, _) =>
        IdNulFree(scope.tenant); IdNulFree(scope.user); IdNulFree(scope.item); IdNulFree(id);
      case Purge(b, _, _) => PartsNulFree(c, b);
    }
  }

  /** Keys of different operations, scopes or ids never collide. */
  lemma KeysNeverCollide(c: Config, a: Call, b: Call)
    requires WellFormed(c, a) && WellFormed(c, b) && KeyOf(a).Some? && KeyOf(a) == KeyOf(b)
    ensures SameRequest(a, b)
  {
    hide IsId, IsOperationId, Join;
    WellFormedParts(c, a);
    WellFormedParts(c, b);
    var p, q := Parts(a), Parts(b);
    JoinInjective(p, q);
    assert p[0] == q[0] && p[1] == q[1] && p[2] == q[2] && p[3] == q[3] && p[4] == q[4];
    assert "delete" != "restore" && "delete" != "purge" && "restore" != "purge";
    match (a, b) {
      case (Purge(x, _, _), Purge(y, _, _)) => SamePurgeKey(c, x, y);
      case _ =>
    }
  }

  // ------------------------------------------------------ cached results stay

  lemma ItemCallsExtend(c: Config, s: Store, call: Call)
    requires !call.Purge?
    ensures Extends(s.results, Apply(c, s, call).store.results)
  {
    hide WellFormed, MarkKey, RestoreKey, LockedAt;
  }

  lemma StepResults(b: Batch, p: Progress, ref: Ref, error: Option<string>)
    ensures Settle(b, ref, error, p).store.results == p.store.results
    ensures ref in p.store.items ==> Leased(p.store, b, ref).results == p.store.results
  {
    hide Due;
  }

  lemma {:induction false} LoopExtends(c: Config, b: Batch, p: Progress, candidates: seq<Scope>, script: seq<Callback>)
    ensures Extends(p.store.results, Loop(c, b, p, candidates, script).store.results)
    decreases script, |candidates|
  {
    hide Eligible, Settle, Leased;
    if candidates != [] {
      if !Eligible(p.store, candidates[0], b.startedAt) {
        LoopExtends(c, b, p.(report := Skipping(p.report, candidates[0].item)), candidates[1..], script);
      } else {
        EligibleRef(p.store, candidates[0], b.startedAt);
        var ref := Ref(candidates[0], p.store.current[candidates[0]]);
        var leased := Leased(p.store, b, ref);
        StepResults(b, p, ref, None);
        StepResults(b, p.(store := leased), ref, None);
        if script == [] {
          LoopExtends(c, b, Settle(b, ref, None, p.(store := leased)), candidates[1..], []);
        } else {
          assert script[0] in script;
          RunExtends(c, leased, script[0].calls);
          StepResults(b, p.(store := RunCalls(c, leased, script[0].calls)), ref, script[0].error);
          LoopExtends(c, b, Settle(b, ref, script[0].error, p.(store := RunCalls(c, leased, script[0].calls))),
            candidates[1..], script[1..]);
        }
      }
    }
  }

  lemma {:induction false} ApplyExtends(c: Config, s: Store, call: Call)
    ensures Extends(s.results, Apply(c, s, call).store.results)
    decreases call
  {
    hide Candidates, Loop, PurgeKey, WellFormed, ApplyMark, ApplyRestore, ApplyAddHold, ApplyReleaseHold,
      ApplyAcquireLock, ApplyReleaseLock;
    match call {
      case Purge(b, completedAt, script) =>
        var candidates := Candidates(c, s, b.tenant, b.user, b.startedAt, b.limit);
        LoopExtends(c, b, Progress(Begun(s, |candidates|), NOTHING), candidates, script);
        assert Apply(c, s, call) == Outcome(s, Raised(InvalidInput))
               || Apply(c, s, call) == ApplyPurge(c, s, b, completedAt, script);
      case _ => ItemCallsExtend(c, s, call);
    }
  }

  lemma {:induction false} RunExtends(c: Config, s: Store, calls: seq<Call>)
    ensures Extends(s.results, RunCalls(c, s, calls).results)
    decreases calls
  {
    hide Apply;
    if calls != [] {
      ApplyExtends(c, s, calls[0]);
      RunExtends(c, Apply(c, s, calls[0]).store, calls[1..]);
    }
  }

  /** The check on the resource type comes before the cache. */
  predicate Enabled(c: Config, call: Call) { call.Mark? ==> call.resource in c.resources }

  lemma AnsweredIsCached(c: Config, s: Store, call: Call)
    requires KeyOf(call).Some? && Apply(c, s, call).reply.Output?
    ensures var o := Apply(c, s, call);
            KeyOf(call).value in o.store.results && o.store.results[KeyOf(call).value] == o.reply.result
  {
    hide WellFormed, MarkKey, RestoreKey, PurgeKey, Loop, Candidates;
    if call.Purge? { PurgeIsCached(c, s, call); }
  }

  lemma CachedIsAnswered(c: Config, s: Store, call: Call)
    requires WellFormed(c, call) && Enabled(c, call) && KeyOf(call).Some? && KeyOf(call).value in s.results
    ensures Apply(c, s, call) == Outcome(s, Output(s.results[KeyOf(call).value]))
  {
    hide WellFormed, MarkKey, RestoreKey, PurgeKey, Loop, Candidates;
    match call {
      case Purge(b, completedAt, script) => assert Apply(c, s, call) == ApplyPurge(c, s, b, completedAt, script);
      case _ =>
    }
  }

  /**
   After any number of further calls, a request with the same key returns the
   first result and changes nothing, whatever else it says.
   */
  lemma ReplayReturnsFirst(c: Config, s: Store, call: Call, between: seq<Call>, again: Call)
    requires KeyOf(call).Some? && Apply(c, s, call).reply.Output?
    requires WellFormed(c, again) && Enabled(c, again) && KeyOf(again) == KeyOf(call)
    ensures var z := RunCalls(c, Apply(c, s, call).store, between);
            Apply(c, z, again) == Outcome(z, Apply(c, s, call).reply)
  {
    hide Apply, RunCalls, WellFormed, KeyOf;
    AnsweredIsCached(c, s, call);
    RunExtends(c, Apply(c, s, call).store, between);
    CachedIsAnswered(c, RunCalls(c, Apply(c, s, call).store, between), again);
  }

  // ------------------------------------------------------ inside a callback

  /** Some call in the tree, at any depth, is cached under `k`. */
  predicate Uses(calls: seq<Call>, k: string)
    decreases calls
  {
    calls != []
      && (KeyOf(calls[0]) == Some(k) || (calls[0].Purge? && ScriptUses(calls[0].script, k)) || Uses(calls[1..], k))
  }

  predicate ScriptUses(script: seq<Callback>, k: string)
    decreases script
  {
    script != [] && (assert script[0] in script; Uses(script[0].calls, k) || ScriptUses(script[1..], k))
  }

  lemma {:induction false} LoopAddsUsed(c: Config, b: Batch, p: Progress, candidates: seq<Scope>, script: seq<Callback>,
    k: string)
    requires k !in p.store.results && !ScriptUses(script, k)
    ensures k !in Loop(c, b, p, candidates, script).store.results
    decreases script, |candidates|
  {
    hide Eligible, Settle, Leased;
    if candidates != [] {
      if !Eligible(p.store, candidates[0], b.startedAt) {
        LoopAddsUsed(c, b, p.(report := Skipping(p.report, candidates[0].item)), candidates[1..], script, k);
      } else {
        EligibleRef(p.store, candidates[0], b.startedAt);
        var ref := Ref(candidates[0], p.store.current[candidates[0]]);
        var leased := Leased(p.store, b, ref);
        StepResults(b, p, ref, None);
        StepResults(b, p.(store := leased), ref, None);
        if script == [] {
          LoopAddsUsed(c, b, Settle(b, ref, None, p.(store := leased)), candidates[1..], [], k);
        } else {
          assert script[0] in script;
          RunAddsUsed(c, leased, script[0].calls, k);
          StepResults(b, p.(store := RunCalls(c, leased, script[0].calls)), ref, script[0].error);
          LoopAddsUsed(c, b, Settle(b, ref, script[0].error, p.(store := RunCalls(c, leased, script[0].calls))),
            candidates[1..], script[1..], k);
        }
      }
    }
  }

  lemma ItemCallsAddUsed(c: Config, s: Store, call: Call, k: string)
    requires k !in s.results && KeyOf(call) != Some(k) && !call.Purge?
    ensures k !in Apply(c, s, call).store.results
  {
    hide WellFormed, MarkKey, RestoreKey, LockedAt;
  }

  lemma {:induction false} ApplyAddsUsed(c: Config, s: Store, call: Call, k: string)
    requires k !in s.results && KeyOf(call) != Some(k) && (call.Purge? ==> !ScriptUses(call.script, k))
    ensures k !in Apply(c, s, call).store.results
    decreases call
  {
    hide Candidates, Loop, PurgeKey, WellFormed, ApplyMark, ApplyRestore, ApplyAddHold, ApplyReleaseHold,
      ApplyAcquireLock, ApplyReleaseLock;
    match call {
      case Purge(b, completedAt, script) =>
        var candidates := Candidates(c, s, b.tenant, b.user, b.startedAt, b.limit);
        LoopAddsUsed(c, b, Progress(Begun(s, |candidates|), NOTHING), candidates, script, k);
        assert Apply(c, s, call) == Outcome(s, Raised(InvalidInput))
               || Apply(c, s, call) == ApplyPurge(c, s, b, completedAt, script);
      case _ => ItemCallsAddUsed(c, s, call, k);
    }
  }

  lemma {:induction false} RunAddsUsed(c: Config, s: Store, calls: seq<Call>, k: string)
    requires k !in s.results && !Uses(calls, k)
    ensures k !in RunCalls(c, s, calls).results
    decreases calls
  {
    hide Apply, KeyOf, ScriptUses;
    if calls != [] {
      ApplyAddsUsed(c, s, calls[0], k);
      RunAddsUsed(c, Apply(c, s, calls[0]).store, calls[1..], k);
    }
  }

  /** The store as the callbacks of a batch leave it. */
  function AfterCallbacks(c: Config, s: Store, b: Batch, script: seq<Callback>): (r: Store) {
    var candidates := Candidates(c, s, b.tenant, b.user, b.startedAt, b.limit);
    Loop(c, b, Progress(Begun(s, |candidates|), NOTHING), candidates, script).store
  }

  // ------------------------------------------------------ which nested results survive

  /** Purges, skips and failures so far: what the metrics say of settled candidates. */
  function Weight(m: Metrics): (w: nat) { m.purged + m.skipped + m.failures }

  /** The same in mid-batch, with the skipped items that the metrics do not count yet. */
  function Total(p: Progress): (w: nat) { Weight(p.store.metrics) + |p.report.skipped| }

  /** No batch result beyond those of `base` carries metrics of more than `w`. */
  predicate Aged(base: set<string>, results: map<string, Result>, w: int) {
    forall k :: k in results && k !in base && results[k].BatchResult? ==> Weight(results[k].metrics) <= w
  }

  predicate StoreAged(base: set<string>, s: Store) { Aged(base, s.results, Weight(s.metrics)) }

  lemma ItemCallsAge(c: Config, s: Store, call: Call, base: set<string>)
    requires !call.Purge? && StoreAged(base, s)
    ensures StoreAged(base, Apply(c, s, call).store)
  {
    hide WellFormed, MarkKey, RestoreKey, LockedAt;
  }

  /** Settling a candidate adds to the total, whichever way it goes. */
  lemma SettleAges(b: Batch, ref: Ref, error: Option<string>, p: Progress)
    ensures var q := Settle(b, ref, error, p);
            && q.store.results == p.store.results && Weight(p.store.metrics) <= Weight(q.store.metrics)
            && Total(p) < Total(q)
  {
    hide Due;
  }

  lemma LeasedAges(s: Store, b: Batch, ref: Ref, base: set<string>)
    requires ref in s.items && StoreAged(base, s)
    ensures StoreAged(base, Leased(s, b, ref))
  {
  }

  /** New results stay behind the metrics; those cached in this batch's callbacks stay behind its total. */
  lemma {:induction false} LoopAges(c: Config, b: Batch, p: Progress, candidates: seq<Scope>, script: seq<Callback>,
    base: set<string>)
    requires StoreAged(base, p.store)
    ensures var q := Loop(c, b, p, candidates, script);
            && StoreAged(base, q.store)
            && (Aged(base, p.store.results, Total(p) - 1) ==> Aged(base, q.store.results, Total(q) - 1))
    decreases script, |candidates|
  {
    hide Eligible, Settle, Leased, Weight;
    if candidates != [] {
      if !Eligible(p.store, candidates[0], b.startedAt) {
        LoopAges(c, b, p.(report := Skipping(p.report, candidates[0].item)), candidates[1..], script, base);
      } else {
        EligibleRef(p.store, candidates[0], b.startedAt);
        var ref := Ref(candidates[0], p.store.current[candidates[0]]);
        var leased := Leased(p.store, b, ref);
        LeasedAges(p.store, b, ref, base);
        if script == [] {
          SettleAges(b, ref, None, p.(store := leased));
          LoopAges(c, b, Settle(b, ref, None, p.(store := leased)), candidates[1..], [], base);
        } else {
          assert script[0] in script;
          RunAges(c, leased, script[0].calls, base);
          var q := p.(store := RunCalls(c, leased, script[0].calls));
          SettleAges(b, ref, script[0].error, q);
          LoopAges(c, b, Settle(b, ref, script[0].error, q), candidates[1..], script[1..], base);
        }
      }
    }
  }

  lemma {:induction false} ApplyAges(c: Config, s: Store, call: Call, base: set<string>)
    requires StoreAged(base, s)
    ensures StoreAged(base, Apply(c, s, call).store)
    decreases call
  {
    hide Candidates, Loop, PurgeKey, WellFormed, ApplyMark, ApplyRestore, ApplyAddHold, ApplyReleaseHold,
      ApplyAcquireLock, ApplyReleaseLock;
    match call {
      case Purge(b, completedAt, script) =>
        var candidates := Candidates(c, s, b.tenant, b.user, b.startedAt, b.limit);
        LoopAges(c, b, Progress(Begun(s, |candidates|), NOTHING), candidates, script, base);
        assert Apply(c, s, call) == Outcome(s, Raised(InvalidInput))
               || Apply(c, s, call) == ApplyPurge(c, s, b, completedAt, script);
      case _ => ItemCallsAge(c, s, call, base);
    }
  }

  lemma {:induction false} RunAges(c: Config, s: Store, calls: seq<Call>, base: set<string>)
    requires StoreAged(base, s)
    ensures StoreAged(base, RunCalls(c, s, calls))
    decreases calls
  {
    hide Apply, StoreAged;
    if calls != [] {
      ApplyAges(c, s, calls[0], base);
      RunAges(c, Apply(c, s, calls[0]).store, calls[1..], base);
    }
  }

  /**
   A result cached inside a callback survives the enclosing batch if and only if
   it was not cached under that batch's own key, which no call can do when none
   in the callbacks repeats the batch's worker, scope and operation id.
   */
  lemma NestedResultSurvivesExactly(c: Config, s: Store, b: Batch, completedAt: int, script: seq<Callback>, k: string)
    requires ValidBatch(c, b) && PurgeKey(b) !in s.results && k in AfterCallbacks(c, s, b, script).results
    requires Apply(c, s, Purge(b, completedAt, script)).reply.Output?
    ensures var z := Apply(c, s, Purge(b, completedAt, script)).store;
            k in z.results && (z.results[k] == AfterCallbacks(c, s, b, script).results[k] <==> k != PurgeKey(b))
    ensures !ScriptUses(script, PurgeKey(b)) ==> k != PurgeKey(b)
  {
    hide Candidates, Loop, PurgeKey, ValidBatch;
    var candidates := Candidates(c, s, b.tenant, b.user, b.startedAt, b.limit);
    var p := Progress(Begun(s, |candidates|), NOTHING);
    if !ScriptUses(script, PurgeKey(b)) { LoopAddsUsed(c, b, p, candidates, script, PurgeKey(b)); }
    LoopAges(c, b, p, candidates, script, s.results.Keys);
    assert Apply(c, s, Purge(b, completedAt, script)) == ApplyPurge(c, s, b, completedAt, script);
  }

  /** After the batch and any further calls, a replay returns a nested result under that condition only. */
  lemma NestedReplayExactly(c: Config, s: Store, b: Batch, completedAt: int, script: seq<Callback>,
    between: seq<Call>, again: Call)
    requires ValidBatch(c, b) && PurgeKey(b) !in s.results
    requires Apply(c, s, Purge(b, completedAt, script)).reply.Output?
    requires WellFormed(c, again) && Enabled(c, again) && KeyOf(again).Some?
    requires KeyOf(again).value in AfterCallbacks(c, s, b, script).results
    ensures var first := AfterCallbacks(c, s, b, script).results[KeyOf(again).value];
            var z := RunCalls(c, Apply(c, s, Purge(b, completedAt, script)).store, between);
            Apply(c, z, again).reply == Output(first) <==> KeyOf(again).value != PurgeKey(b)
  {
    hide Apply, RunCalls, WellFormed, KeyOf, PurgeKey, ValidBatch, AfterCallbacks;
    NestedResultSurvivesExactly(c, s, b, completedAt, script, KeyOf(again).value);
    var z := Apply(c, s, Purge(b, completedAt, script)).store;
    RunExtends(c, z, between);
    CachedIsAnswered(c, RunCalls(c, z, between), again);
  }

  // ------------------------------------------------------ the overwritten result

  /** A callback that runs the batch it is part of once more. */
  function Again(b: Batch, completedAt: int): (script: seq<Callback>) { [Callback([Purge(b, completedAt, [])], None)] }

  lemma OnlyOneDue(s: Store, b: Batch, x: Scope)
    requires Shape(s) && Pool(s, s.order, b.tenant, b.user, b.startedAt) == [x]
    ensures Eligible(s, x, b.startedAt)
    ensures var leased := Leased(s, b, Ref(x, s.current[x]));
            Shape(leased) && Pool(leased, s.order, b.tenant, b.user, b.startedAt) == []
  {
    hide Pool, Matches, OrderOk, ItemsOk;
    assert Distinct(s.order) by { OrderDistinct(s); }
    PoolIs(s, s.order, b.tenant, b.user, b.startedAt);
    assert x in [x];
    var ref := Ref(x, s.current[x]);
    var leased := Leased(s, b, ref);
    ItemsUpdate(s.current, s.items, ref, leased.items[ref]);
    PoolIs(leased, s.order, b.tenant, b.user, b.startedAt);
    var pool := Pool(leased, s.order, b.tenant, b.user, b.startedAt);
    forall y ensures y !in pool {
      assert Eligible(leased, y, b.startedAt) ==> Eligible(s, y, b.startedAt) && y != x;
      assert y in [x] ==> y == x;
    }
    DistinctCount(pool);
    assert Elements(pool) == {};
  }

  lemma OrderDistinct(s: Store)
    requires Shape(s)
    ensures Distinct(s.order)
  {
  }

  lemma EmptyBatch(c: Config, s: Store, b: Batch, completedAt: int)
    requires ValidBatch(c, b) && PurgeKey(b) !in s.results && Pool(s, s.order, b.tenant, b.user, b.startedAt) == []
    ensures Apply(c, s, Purge(b, completedAt, []))
            == Finished(c, b, completedAt, 0, Progress(Begun(s, 0), NOTHING))
  {
    hide ValidBatch, PurgeKey, Finished, Pool;
    assert Candidates(c, s, b.tenant, b.user, b.startedAt, b.limit) == [];
    assert Apply(c, s, Purge(b, completedAt, [])) == ApplyPurge(c, s, b, completedAt, []);
  }

  /**
   With one item due, the inner call finds it leased, reports an empty batch and
   caches that; the outer batch then purges the item and overwrites the entry, so
   a replay of the inner request no longer returns what it returned first.
   */
  lemma SameKeyOverwrites(c: Config, s: Store, b: Batch, completedAt: int, x: Scope)
    requires Shape(s) && ValidBatch(c, b) && PurgeKey(b) !in s.results && b.startedAt + LEASE_MS <= MAX_DATE
    requires Pool(s, s.order, b.tenant, b.user, b.startedAt) == [x]
    ensures x in s.current && Ref(x, s.current[x]) in s.items
    ensures var inner := Apply(c, Leased(Begun(s, 1), b, Ref(x, s.current[x])), Purge(b, completedAt, []));
            var outer := Apply(c, s, Purge(b, completedAt, Again(b, completedAt)));
            && inner.reply.Output? && inner.reply.result.BatchResult? && inner.reply.result.report == NOTHING
            && outer.reply.Output? && outer.reply.result.BatchResult?
            && ScopesOf(outer.reply.result.report.items) == [x] && SameSkips(NOTHING, outer.reply.result.report)
            && Apply(c, outer.store, Purge(b, completedAt, [])) == Outcome(outer.store, outer.reply)
  {
    hide Shape, ValidBatch, PurgeKey, Pool, Candidates, Eligible, Due;
    OnlyOneDue(s, b, x);
    EligibleRef(s, x, b.startedAt);
    var ref := Ref(x, s.current[x]);
    var begun := Begun(s, 1);
    var leased := Leased(begun, b, ref);
    SamePool(s, begun, b);
    SamePool(Leased(s, b, ref), leased, b);
    EmptyBatch(c, leased, b, completedAt);
    var inner := Apply(c, leased, Purge(b, completedAt, []));
    OneCandidate(c, s, b, x);
    OneCallback(c, b, begun, x, completedAt);
    var q := Progress(inner.store, NOTHING);
    LeasedStaysDue(s, inner.store, b, ref);
    var outer := Apply(c, s, Purge(b, completedAt, Again(b, completedAt)));
    assert outer == ApplyPurge(c, s, b, completedAt, Again(b, completedAt));
    assert outer == Finished(c, b, completedAt, 1, Settle(b, ref, None, q));
    CachedIsAnswered(c, outer.store, Purge(b, completedAt, []));
  }

  lemma SamePool(s: Store, z: Store, b: Batch)
    requires s.order == z.order && s.current == z.current && s.items == z.items && s.holds == z.holds
    ensures Pool(s, s.order, b.tenant, b.user, b.startedAt) == Pool(z, z.order, b.tenant, b.user, b.startedAt)
    ensures forall x :: Eligible(s, x, b.startedAt) <==> Eligible(z, x, b.startedAt)
  {
    SameItems(s, z, b.startedAt);
    SamePoolOf(s, z, s.order, b);
  }

  lemma {:induction false} SamePoolOf(s: Store, z: Store, order: seq<Scope>, b: Batch)
    requires forall x :: Eligible(s, x, b.startedAt) <==> Eligible(z, x, b.startedAt)
    ensures Pool(s, order, b.tenant, b.user, b.startedAt) == Pool(z, order, b.tenant, b.user, b.startedAt)
  {
    hide Eligible;
    if order != [] { SamePoolOf(s, z, order[1..], b); }
  }

  lemma OneCandidate(c: Config, s: Store, b: Batch, x: Scope)
    requires ValidBatch(c, b) && Pool(s, s.order, b.tenant, b.user, b.startedAt) == [x]
    ensures Candidates(c, s, b.tenant, b.user, b.startedAt, b.limit) == [x]
  {
    hide Pool;
    assert [x][..0] == [];
    assert Sort(c, s, [x]) == [x];
  }

  lemma OneCallback(c: Config, b: Batch, s: Store, x: Scope, completedAt: int)
    requires Eligible(s, x, b.startedAt)
    ensures x in s.current && Ref(x, s.current[x]) in s.items
    ensures var ref := Ref(x, s.current[x]);
            var nested := Apply(c, Leased(s, b, ref), Purge(b, completedAt, [])).store;
            Loop(c, b, Progress(s, NOTHING), [x], Again(b, completedAt))
            == Settle(b, ref, None, Progress(nested, NOTHING))
  {
    hide Eligible, Apply, Settle, Leased;
    EligibleRef(s, x, b.startedAt);
    var ref := Ref(x, s.current[x]);
    var script := Again(b, completedAt);
    var calls := script[0].calls;
    assert calls[1..] == [];
    assert RunCalls(c, Leased(s, b, ref), calls) == Apply(c, Leased(s, b, ref), calls[0]).store;
    var p := Settle(b, ref, None, Progress(RunCalls(c, Leased(s, b, ref), calls), NOTHING));
    assert [x][1..] == [];
    assert Loop(c, b, p, [], script[1..]) == p;
  }

  lemma LeasedStaysDue(s: Store, z: Store, b: Batch, ref: Ref)
    requires ref in s.items && Due(s, ref, b.startedAt) && z.items == Leased(s, b, ref).items && z.holds == s.holds
    ensures Due(z, ref, b.startedAt)
  {
  }

  /** Such a store is one deletion away from the empty one. */
  lemma OneDeletionOneDue(c: Config, scope: Scope, resource: string, id: string, deletedAt: int, b: Batch)
    requires WellFormed(c, Mark(scope, resource, id, deletedAt, true)) && resource in c.resources
    requires deletedAt + c.days * DAY_MS <= b.startedAt <= MAX_DATE && b.tenant.None? && b.user.None?
    ensures var s := RunCalls(c, EMPTY, [Mark(scope, resource, id, deletedAt, true)]);
            s.results.Keys == {MarkKey(scope, id)} && Pool(s, s.order, b.tenant, b.user, b.startedAt) == [scope]
  {
    hide WellFormed, MarkKey;
    var call := Mark(scope, resource, id, deletedAt, true);
    var z := Apply(c, EMPTY, call).store;
    assert [call][1..] == [];
    assert RunCalls(c, EMPTY, [call]) == RunCalls(c, z, []);
    assert z.order == [scope] && z.holds[scope] == map[];
    assert Eligible(z, scope, b.startedAt);
    assert [scope][1..] == [];
  }
}
