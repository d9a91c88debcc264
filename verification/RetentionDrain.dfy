/**
 Draining the trash: with an accepting adapter and no other calls, every batch
 at a fixed instant removes as many of the due items as its limit allows,
 earliest first.
 */
module RetentionDrain {
  import opened Strings
  import opened Dates
  import opened CacheKeys
  import opened Retention

  predicate Distinct(s: seq<Scope>) { forall i, j :: 0 <= i < j < |s| ==> s[i] != s[j] }

  function Elements(s: seq<Scope>): (r: set<Scope>) { set x | x in s }

  lemma {:induction false} DistinctCount(s: seq<Scope>)
    requires Distinct(s)
    ensures |Elements(s)| == |s|
  {
    if s != [] {
      DistinctCount(s[1..]);
      assert Elements(s) == {s[0]} + Elements(s[1..]);
      assert s[0] !in s[1..];
    }
  }

  lemma PermutationDistinct(s: seq<Scope>, t: seq<Scope>)
    requires Distinct(s) && multiset(s) == multiset(t)
    ensures Distinct(t) && Elements(s) == Elements(t)
  {
    assert forall x :: x in s <==> x in multiset(s);
    assert forall x :: x in t <==> x in multiset(t);
    forall i, j | 0 <= i < j < |t| ensures t[i] != t[j] {
      if t[i] == t[j] {
        Twice(t, i, j);
        assert t[i] in s;
        Once(s, t[i]);
      }
    }
  }

  lemma Twice(t: seq<Scope>, i: nat, j: nat)
    requires i < j < |t| && t[i] == t[j]
    ensures multiset(t)[t[i]] >= 2
  {
    assert t == t[..i] + [t[i]] + t[i + 1..j] + [t[j]] + t[j + 1..];
  }

  lemma {:induction false} Once(s: seq<Scope>, x: Scope)
    requires Distinct(s)
    ensures multiset(s)[x] <= 1
  {
    if s != [] {
      Once(s[1..], x);
      assert s == [s[0]] + s[1..];
      assert s[0] !in s[1..];
    }
  }

  // ------------------------------------------------------ the pool

  lemma {:induction false} PoolIs(s: Store, order: seq<Scope>, tenant: Option<string>, user: Option<string>, at: int)
    requires Distinct(order)
    ensures var pool := Pool(s, order, tenant, user, at);
            Distinct(pool) && forall x :: x in pool <==> x in order && Matches(tenant, user, x) && Eligible(s, x, at)
  {
    hide Eligible, Matches;
    if order != [] {
      PoolIs(s, order[1..], tenant, user, at);
      assert order[0] !in order[1..];
      assert order == [order[0]] + order[1..];
    }
  }

  /** Sorted by the end of retention, whatever breaks ties. */
  predicate Ascending(s: Store, list: seq<Scope>) {
    forall i, j :: 0 <= i < j < |list| ==> UntilOf(s, list[i]) <= UntilOf(s, list[j])
  }

  lemma {:induction false} InsertAscending(c: Config, s: Store, sorted: seq<Scope>, x: Scope)
    requires Ascending(s, sorted)
    ensures Ascending(s, Insert(c, s, sorted, x))
  {
    hide UntilOf;
    if sorted != [] && Before(c, s, sorted[0], x) {
      InsertAscending(c, s, sorted[1..], x);
      var rest := Insert(c, s, sorted[1..], x);
      forall y | y in rest ensures UntilOf(s, sorted[0]) <= UntilOf(s, y) {
        assert y in multiset(rest);
        assert y == x || y in sorted[1..];
      }
      assert Insert(c, s, sorted, x) == [sorted[0]] + rest;
    }
  }

  lemma {:induction false} SortAscending(c: Config, s: Store, pool: seq<Scope>)
    ensures Ascending(s, Sort(c, s, pool))
  {
    if pool != [] {
      SortAscending(c, s, pool[..|pool| - 1]);
      InsertAscending(c, s, Sort(c, s, pool[..|pool| - 1]), pool[|pool| - 1]);
    }
  }

  // ------------------------------------------------------ one batch

  function ScopesOf(items: seq<Gone>): (r: seq<Scope>)
    ensures |r| == |items|
  {
    seq(|items|, i requires 0 <= i < |items| => items[i].ref.scope)
  }

  predicate SameSkips(a: Report, b: Report) { a.skipped == b.skipped && a.failures == b.failures }

  /** Purging one record leaves the others as they were. */
  lemma StepDrains(b: Batch, p: Progress, x: Scope)
    requires Shape(p.store) && Eligible(p.store, x, b.startedAt)
    ensures var ref := Ref(x, p.store.current[x]);
            var q := Settle(b, ref, None, p.(store := Leased(p.store, b, ref)));
            && ScopesOf(q.report.items) == ScopesOf(p.report.items) + [x] && SameSkips(p.report, q.report)
            && q.store.order == p.store.order && q.store.current == p.store.current
            && q.store.results == p.store.results
            && Shape(q.store)
            && forall y :: Eligible(q.store, y, b.startedAt) <==> Eligible(p.store, y, b.startedAt) && y != x
  {
    hide OrderOk, ItemsOk;
    var s := p.store;
    var ref := Ref(x, s.current[x]);
    var leased := Leased(s, b, ref);
    assert Due(leased, ref, b.startedAt);
    var q := Settle(b, ref, None, p.(store := leased));
    ItemsUpdate(s.current, s.items, ref, leased.items[ref]);
    ItemsUpdate(s.current, leased.items, ref, q.store.items[ref]);
    forall y ensures Eligible(q.store, y, b.startedAt) <==> Eligible(s, y, b.startedAt) && y != x {
    }
  }

  lemma {:induction false} LoopDrains(c: Config, b: Batch, p: Progress, list: seq<Scope>)
    requires Shape(p.store) && Distinct(list) && forall x :: x in list ==> Eligible(p.store, x, b.startedAt)
    ensures var q := Loop(c, b, p, list, []);
            && ScopesOf(q.report.items) == ScopesOf(p.report.items) + list && SameSkips(p.report, q.report)
            && q.store.order == p.store.order && q.store.current == p.store.current
            && q.store.results == p.store.results
            && Shape(q.store)
            && forall y :: Eligible(q.store, y, b.startedAt) <==> Eligible(p.store, y, b.startedAt) && y !in list
    decreases |list|
  {
    hide Shape, Eligible, Settle, Leased;
    if list != [] {
      EligibleRef(p.store, list[0], b.startedAt);
      var ref := Ref(list[0], p.store.current[list[0]]);
      StepDrains(b, p, list[0]);
      var q := Settle(b, ref, None, p.(store := Leased(p.store, b, ref)));
      assert list[0] !in list[1..];
      LoopDrains(c, b, q, list[1..]);
      assert list == [list[0]] + list[1..];
    }
  }

  function DueCount(s: Store, b: Batch): (n: nat) { |Pool(s, s.order, b.tenant, b.user, b.startedAt)| }

  function Least(a: int, b: int): (r: int) { if a < b then a else b }

  /** What a batch takes: due, distinct, as many as allowed, and none due later than one left behind. */
  lemma CandidatesAre(c: Config, s: Store, b: Batch)
    requires Shape(s) && b.limit >= 1
    ensures var list := Candidates(c, s, b.tenant, b.user, b.startedAt, b.limit);
            var pool := Pool(s, s.order, b.tenant, b.user, b.startedAt);
            && |list| == Least(b.limit, |pool|) && Distinct(list)
            && (forall x :: x in list ==> x in pool)
            && (forall x, y :: x in list && y in pool && y !in list ==> UntilOf(s, x) <= UntilOf(s, y))
  {
    hide UntilOf, Eligible, Matches, Sort, Pool;
    var pool := Pool(s, s.order, b.tenant, b.user, b.startedAt);
    var sorted := Sort(c, s, pool);
    PoolIs(s, s.order, b.tenant, b.user, b.startedAt);
    PermutationDistinct(pool, sorted);
    SortAscending(c, s, pool);
    assert |sorted| == |multiset(sorted)| == |pool|;
    var list := Take(sorted, b.limit);
    forall x | x in list ensures x in pool {
      assert x in Elements(sorted);
    }
    forall x, y | x in list && y in pool && y !in list ensures UntilOf(s, x) <= UntilOf(s, y) {
      assert y in Elements(pool);
      TakenFirst(s, sorted, b.limit, x, y);
    }
  }

  lemma TakenFirst(s: Store, sorted: seq<Scope>, n: int, x: Scope, y: Scope)
    requires Ascending(s, sorted) && 1 <= n && x in Take(sorted, n) && y in sorted && y !in Take(sorted, n)
    ensures UntilOf(s, x) <= UntilOf(s, y)
  {
    hide UntilOf;
    var i :| 0 <= i < |Take(sorted, n)| && Take(sorted, n)[i] == x;
    var j :| 0 <= j < |sorted| && sorted[j] == y;
    forall k | 0 <= k < |Take(sorted, n)| ensures sorted[k] != y {
      assert Take(sorted, n)[k] in Take(sorted, n);
    }
    assert sorted[i] == x;
  }

  lemma PoolShrinks(s: Store, z: Store, b: Batch, list: seq<Scope>)
    requires Shape(s) && z.order == s.order && Distinct(list)
    requires forall x :: x in list ==> x in Pool(s, s.order, b.tenant, b.user, b.startedAt)
    requires forall y :: Eligible(z, y, b.startedAt) <==> Eligible(s, y, b.startedAt) && y !in list
    ensures DueCount(z, b) == DueCount(s, b) - |list|
  {
    hide Eligible, Matches, Pool;
    var before := Pool(s, s.order, b.tenant, b.user, b.startedAt);
    var after := Pool(z, z.order, b.tenant, b.user, b.startedAt);
    PoolIs(s, s.order, b.tenant, b.user, b.startedAt);
    PoolIs(z, z.order, b.tenant, b.user, b.startedAt);
    DistinctCount(before);
    DistinctCount(after);
    DistinctCount(list);
    assert Elements(after) == Elements(before) - Elements(list);
    assert Elements(list) <= Elements(before);
  }

  /** One batch at a fixed instant lowers the number of due items by exactly the smaller of limit and number. */
  lemma BatchDrains(c: Config, s: Store, b: Batch, completedAt: int)
    requires Shape(s) && ValidBatch(c, b) && PurgeKey(b) !in s.results && b.startedAt + LEASE_MS <= MAX_DATE
    ensures var o := Apply(c, s, Purge(b, completedAt, []));
            var taken := Least(b.limit, DueCount(s, b));
            && o.reply.Output? && o.reply.result.BatchResult?
            && o.reply.result.scanned == taken
            && ScopesOf(o.reply.result.report.items) == Candidates(c, s, b.tenant, b.user, b.startedAt, b.limit)
            && o.reply.result.report.skipped == [] && o.reply.result.report.failures == []
            && DueCount(o.store, b) == DueCount(s, b) - taken
            && Shape(o.store)
            && o.store.results == s.results[PurgeKey(b) := o.reply.result]
  {
    hide ValidBatch, PurgeKey, Shape, Eligible, Loop, Candidates, Pool;
    var list := Candidates(c, s, b.tenant, b.user, b.startedAt, b.limit);
    LimitPositive(c, b);
    CandidatesAre(c, s, b);
    var begun := Begun(s, |list|);
    SameItems(s, begun, b.startedAt);
    PoolEligible(s, b);
    LoopDrains(c, b, Progress(begun, NOTHING), list);
    var q := Loop(c, b, Progress(begun, NOTHING), list, []);
    var o := Apply(c, s, Purge(b, completedAt, []));
    assert o == ApplyPurge(c, s, b, completedAt, []);
    assert o.store == Finished(c, b, completedAt, |list|, q).store;
    SameItems(q.store, o.store, b.startedAt);
    PoolShrinks(s, o.store, b, list);
  }

  lemma LimitPositive(c: Config, b: Batch)
    requires ValidBatch(c, b)
    ensures b.limit >= 1
  {
  }

  lemma PoolEligible(s: Store, b: Batch)
    requires Shape(s)
    ensures forall x :: x in Pool(s, s.order, b.tenant, b.user, b.startedAt) ==> Eligible(s, x, b.startedAt)
  {
    hide Eligible, Pool;
    PoolIs(s, s.order, b.tenant, b.user, b.startedAt);
  }

  lemma SameItems(s: Store, z: Store, at: int)
    requires s.order == z.order && s.current == z.current && s.items == z.items && s.holds == z.holds
    ensures Shape(s) <==> Shape(z)
    ensures forall x :: Eligible(s, x, at) <==> Eligible(z, x, at)
  {
    forall x ensures Eligible(s, x, at) <==> Eligible(z, x, at) {
    }
  }

  // ------------------------------------------------------ many batches

  /** The same batch run under one operation id after the other. */
  function Batches(b: Batch, completedAt: int, ids: seq<string>): (calls: seq<Call>) {
    seq(|ids|, i requires 0 <= i < |ids| => Purge(b.(id := ids[i]), completedAt, []))
  }

  lemma SamePurgeKey(c: Config, a: Batch, b: Batch)
    requires ValidBatch(c, a) && ValidBatch(c, b) && PurgeKey(a) == PurgeKey(b)
    ensures a.worker == b.worker && a.tenant == b.tenant && a.user == b.user && a.id == b.id
  {
    var p := ["purge", a.worker, Wildcard(a.tenant), Wildcard(a.user), a.id];
    var q := ["purge", b.worker, Wildcard(b.tenant), Wildcard(b.user), b.id];
    PartsNulFree(c, a);
    PartsNulFree(c, b);
    JoinInjective(p, q);
    assert p[1] == q[1] && p[2] == q[2] && p[3] == q[3] && p[4] == q[4];
    SameWildcard(a.tenant, b.tenant);
    SameWildcard(a.user, b.user);
  }

  lemma SameWildcard(a: Option<string>, b: Option<string>)
    requires (a.Some? ==> IsId(a.value)) && (b.Some? ==> IsId(b.value)) && Wildcard(a) == Wildcard(b)
    ensures a == b
  {
    hide IsId;
    if a.Some? { IdNulFree(a.value); }
    if b.Some? { IdNulFree(b.value); }
  }

  lemma PartsNulFree(c: Config, b: Batch)
    requires ValidBatch(c, b)
    ensures AllNulFree(["purge", b.worker, Wildcard(b.tenant), Wildcard(b.user), b.id])
  {
    hide IsId, IsOperationId;
    IdNulFree(b.worker);
    IdNulFree(b.id);
    if b.tenant.Some? { IdNulFree(b.tenant.value); }
    if b.user.Some? { IdNulFree(b.user.value); }
  }

  predicate FreshIds(c: Config, s: Store, b: Batch, ids: seq<string>) {
    && (forall i :: 0 <= i < |ids| ==> ValidBatch(c, b.(id := ids[i])) && PurgeKey(b.(id := ids[i])) !in s.results)
    && (forall i, j :: 0 <= i < j < |ids| ==> ids[i] != ids[j])
  }

  /** k batches leave n - k * limit due items, or none. */
  lemma {:induction false} DrainsInBatches(c: Config, s: Store, b: Batch, completedAt: int, ids: seq<string>)
    requires Shape(s) && FreshIds(c, s, b, ids) && 1 <= b.limit && b.startedAt + LEASE_MS <= MAX_DATE
    ensures var z := RunCalls(c, s, Batches(b, completedAt, ids));
            DueCount(z, b) == if DueCount(s, b) <= |ids| * b.limit then 0 else DueCount(s, b) - |ids| * b.limit
    decreases |ids|
  {
    hide Shape, ValidBatch, PurgeKey, Apply, Pool, Candidates, ScopesOf;
    var calls := Batches(b, completedAt, ids);
    if ids != [] {
      var first := b.(id := ids[0]);
      BatchDrains(c, s, first, completedAt);
      var z := Apply(c, s, calls[0]).store;
      forall i | 0 <= i < |ids[1..]| ensures PurgeKey(b.(id := ids[1..][i])) !in z.results {
        if PurgeKey(b.(id := ids[i + 1])) == PurgeKey(first) { SamePurgeKey(c, b.(id := ids[i + 1]), first); }
      }
      DrainsInBatches(c, z, b, completedAt, ids[1..]);
      assert calls[1..] == Batches(b, completedAt, ids[1..]);
      assert |ids| * b.limit == b.limit + (|ids| - 1) * b.limit;
      assert (|ids| - 1) * b.limit >= 0;
    }
  }
}
