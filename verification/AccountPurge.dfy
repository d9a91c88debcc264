/**
 What a purge presupposes, over every run: request, soft deletion, queueing
 after the deadline and completion, in that order since the account was last
 active, without holds, and with the planned resources reported purged.
 */
module AccountPurge {
  import opened Strings
  import opened Dates
  import opened Account

  function HoldsAfter(f: Fact, scope: Scope, was: set<string>): (r: set<string>) {
    match f
    case HeldFact(x, hold) => if x == scope then was + {hold} else was
    case FreedFact(x, hold) => if x == scope then was - {hold} else was
    case _ => was
  }

  /** The holds that a history leaves on an account. */
  function HoldsIn(h: seq<Fact>, scope: Scope): (r: set<string>) {
    if h == [] then {} else HoldsAfter(h[|h| - 1], scope, HoldsIn(h[..|h| - 1], scope))
  }

  lemma HoldsSnoc(h: seq<Fact>, f: Fact, scope: Scope)
    ensures HoldsIn(h + [f], scope) == HoldsAfter(f, scope, HoldsIn(h, scope))
  {
    assert (h + [f])[..|h|] == h;
  }

  /** Where in the history the four steps of a purge are. */
  datatype Journey = Journey(request: nat, soft: nat, queue: nat, complete: nat)

  ghost predicate RequestStep(h: seq<Fact>, scope: Scope, j: Journey) {
    && j.request < |h| && h[j.request].RequestedFact? && h[j.request].scope == scope && 1 <= h[j.request].days <= 3650
    && HoldsIn(h[..j.request], scope) == {}
    && forall i :: j.request < i < |h| ==> h[i] != RestoredFact(scope)
  }

  ghost predicate SoftStep(h: seq<Fact>, scope: Scope, j: Journey) {
    RequestStep(h, scope, j) && j.request < j.soft < |h| && h[j.soft] == SoftDeletedFact(scope)
  }

  /** Queued at or after the time of the request plus the recovery days. */
  ghost predicate QueueStep(h: seq<Fact>, scope: Scope, j: Journey) {
    && SoftStep(h, scope, j)
    && j.soft < j.queue < |h| && h[j.queue].QueuedFact? && h[j.queue].scope == scope
    && h[j.queue].at >= h[j.request].at + h[j.request].days * DAY_MS
    && HoldsIn(h[..j.queue], scope) == {}
  }

  /** Everything planned when the deletion was requested is reported purged. */
  ghost predicate CompleteStep(h: seq<Fact>, scope: Scope, j: Journey) {
    && QueueStep(h, scope, j)
    && j.queue < j.complete < |h| && h[j.complete].PurgedFact? && h[j.complete].scope == scope
    && AllDone(h[j.request].plan, h[j.complete].done)
    && HoldsIn(h[..j.complete], scope) == {}
  }

  /** The record remembers the request. */
  ghost predicate Remembers(h: seq<Fact>, a: Record, j: Journey)
    requires j.request < |h| && h[j.request].RequestedFact?
  {
    a.plan == h[j.request].plan && a.until == Deadline(h[j.request].at, h[j.request].days)
  }

  ghost predicate Story(h: seq<Fact>, scope: Scope, a: Record, j: Journey) {
    match a.state
    case Active => a.until.None?
    case DeletionRequested => RequestStep(h, scope, j) && Remembers(h, a, j)
    case SoftDeleted => SoftStep(h, scope, j) && Remembers(h, a, j)
    case PurgePending => QueueStep(h, scope, j) && Remembers(h, a, j) && a.queuedAt == Some(h[j.queue].at)
    case Purged => CompleteStep(h, scope, j)
  }

  ghost predicate RecordOk(h: seq<Fact>, scope: Scope, a: Record) {
    HoldsIn(h, scope) == a.holds && exists j :: Story(h, scope, a, j)
  }

  ghost predicate Inv(s: Store) {
    && (forall scope :: scope in s.accounts ==> RecordOk(s.history, scope, s.accounts[scope]))
    && (forall scope :: scope !in s.accounts ==> HoldsIn(s.history, scope) == {})
  }

  lemma StoryStays(h: seq<Fact>, f: Fact, scope: Scope, a: Record, b: Record, j: Journey)
    requires Story(h, scope, a, j) && f != RestoredFact(scope)
    requires b.state == a.state && b.until == a.until && b.plan == a.plan && b.queuedAt == a.queuedAt
    ensures Story(h + [f], scope, b, j)
  {
    hide HoldsIn, AllDone;
    var z := h + [f];
    assert j.request <= |h| ==> z[..j.request] == h[..j.request];
    assert j.queue <= |h| ==> z[..j.queue] == h[..j.queue];
    assert j.complete <= |h| ==> z[..j.complete] == h[..j.complete];
  }

  /** Nothing that happens to one account disturbs another. */
  lemma OthersStay(h: seq<Fact>, f: Fact, scope: Scope, a: Record)
    requires RecordOk(h, scope, a) && f.scope != scope
    ensures RecordOk(h + [f], scope, a)
  {
    hide Story, HoldsIn;
    HoldsSnoc(h, f, scope);
    var j :| Story(h, scope, a, j);
    StoryStays(h, f, scope, a, a, j);
  }

  lemma RequestOk(s: Store, call: Call)
    requires Inv(s) && call.Request? && DecideRequest(s, call).Change?
    ensures var d := DecideRequest(s, call); RecordOk(s.history + d.facts, call.scope, d.account)
  {
    hide HoldsIn, NormalPlan, CacheKey, WellFormed;
    var d := DecideRequest(s, call);
    var a := s.accounts[call.scope];
    assert RecordOk(s.history, call.scope, a);
    HoldsSnoc(s.history, d.facts[0], call.scope);
    var h := s.history + d.facts;
    var j := Journey(|s.history|, 0, 0, 0);
    assert h[..j.request] == s.history;
    assert Story(h, call.scope, d.account, j);
  }

  lemma SoftDeleteOk(s: Store, call: Call)
    requires Inv(s) && call.SoftDelete? && DecideSoftDelete(s, call).Change?
    ensures var d := DecideSoftDelete(s, call); RecordOk(s.history + d.facts, call.scope, d.account)
  {
    hide HoldsIn, CacheKey, WellFormed, RequestStep, Remembers;
    var d := DecideSoftDelete(s, call);
    var a := s.accounts[call.scope];
    assert RecordOk(s.history, call.scope, a);
    var j :| Story(s.history, call.scope, a, j);
    HoldsSnoc(s.history, d.facts[0], call.scope);
    StoryStays(s.history, d.facts[0], call.scope, a, a, j);
    RequestBound(s.history, call.scope, j);
    var k := j.(soft := |s.history|);
    SameRequestStep(s.history + d.facts, call.scope, a, d.account, j, k);
    assert Story(s.history + d.facts, call.scope, d.account, k);
  }

  lemma RequestBound(h: seq<Fact>, scope: Scope, j: Journey)
    requires RequestStep(h, scope, j)
    ensures j.request < |h| && h[j.request].RequestedFact?
  {
  }

  lemma SameRequestStep(h: seq<Fact>, scope: Scope, a: Record, b: Record, j: Journey, k: Journey)
    requires RequestStep(h, scope, j) && j.request < |h| && h[j.request].RequestedFact? && Remembers(h, a, j)
    requires j.request == k.request && a.plan == b.plan && a.until == b.until
    ensures RequestStep(h, scope, k) && Remembers(h, b, k)
  {
  }

  lemma QueueOk(s: Store, call: Call)
    requires Inv(s) && call.Queue? && DecideQueue(s, call).Change?
    ensures var d := DecideQueue(s, call); RecordOk(s.history + d.facts, call.scope, d.account)
  {
    hide HoldsIn, CacheKey, WellFormed;
    var d := DecideQueue(s, call);
    var a := s.accounts[call.scope];
    assert RecordOk(s.history, call.scope, a);
    var j :| Story(s.history, call.scope, a, j);
    HoldsSnoc(s.history, d.facts[0], call.scope);
    StoryStays(s.history, d.facts[0], call.scope, a, a, j);
    var h := s.history + d.facts;
    var k := j.(queue := |s.history|);
    assert h[..k.queue] == s.history;
    assert Story(h, call.scope, d.account, k);
  }

  lemma CompleteOk(s: Store, call: Call)
    requires Inv(s) && call.Complete? && DecideComplete(s, call).Change?
    ensures var d := DecideComplete(s, call); RecordOk(s.history + d.facts, call.scope, d.account)
  {
    hide HoldsIn, CacheKey, WellFormed, AllDone;
    var d := DecideComplete(s, call);
    var a := s.accounts[call.scope];
    assert RecordOk(s.history, call.scope, a);
    var j :| Story(s.history, call.scope, a, j);
    HoldsSnoc(s.history, d.facts[0], call.scope);
    StoryStays(s.history, d.facts[0], call.scope, a, a, j);
    var h := s.history + d.facts;
    var k := j.(complete := |s.history|);
    assert h[..k.complete] == s.history;
    assert Story(h, call.scope, d.account, k);
  }

  lemma HoldsOk(s: Store, call: Call)
    requires Inv(s) && (call.AddHold? || call.ReleaseHold?) && Decide(s, call).Change?
    ensures var d := Decide(s, call);
            |d.facts| == 1 && d.facts[0].scope == call.scope && RecordOk(s.history + d.facts, call.scope, d.account)
  {
    hide HoldsIn, CacheKey, WellFormed, Story;
    var d := Decide(s, call);
    var a := s.accounts[call.scope];
    assert RecordOk(s.history, call.scope, a);
    var j :| Story(s.history, call.scope, a, j);
    HoldsSnoc(s.history, d.facts[0], call.scope);
    StoryStays(s.history, d.facts[0], call.scope, a, d.account, j);
  }

  lemma RestoreOk(s: Store, call: Call)
    requires Inv(s) && call.Restore? && DecideRestore(s, call).Change?
    ensures var d := DecideRestore(s, call); RecordOk(s.history + d.facts, call.scope, d.account)
  {
    hide HoldsIn, CacheKey, WellFormed;
    var d := DecideRestore(s, call);
    assert RecordOk(s.history, call.scope, s.accounts[call.scope]);
    HoldsSnoc(s.history, d.facts[0], call.scope);
    assert Story(s.history + d.facts, call.scope, d.account, Journey(0, 0, 0, 0));
  }

  lemma RegisterOk(s: Store, call: Call)
    requires Inv(s) && call.Register? && DecideRegister(s, call).Change?
    ensures var d := DecideRegister(s, call); d.facts == [] && RecordOk(s.history, call.scope, d.account)
  {
    hide HoldsIn, NormalPlan, WellFormed;
    assert Story(s.history, call.scope, DecideRegister(s, call).account, Journey(0, 0, 0, 0));
  }

  /** What a change does to the history and to its own record. */
  lemma ChangeOk(s: Store, call: Call)
    requires Inv(s) && Decide(s, call).Change?
    ensures var d := Decide(s, call);
            && RecordOk(s.history + d.facts, call.scope, d.account)
            && (d.facts == [] || (|d.facts| == 1 && d.facts[0].scope == call.scope))
  {
    hide Inv, RecordOk, WellFormed, NormalPlan, CacheKey, AllDone;
    match call {
      case Register(_, _, _, _, _) => RegisterOk(s, call); assert s.history + [] == s.history;
      case Request(_, _, _, _, _, _, _) => RequestOk(s, call);
      case SoftDelete(_, _, _, _, _) => SoftDeleteOk(s, call);
      case Restore(_, _, _, _) => RestoreOk(s, call);
      case AddHold(_, _, _, _) => HoldsOk(s, call);
      case ReleaseHold(_, _, _) => HoldsOk(s, call);
      case Queue(_, _, _, _) => QueueOk(s, call);
      case Complete(_, _, _, _, _, _) => CompleteOk(s, call);
    }
  }

  lemma ApplyKeepsInv(s: Store, call: Call)
    requires Inv(s)
    ensures Inv(Apply(s, call).store)
  {
    hide Decide, RecordOk, HoldsIn;
    var d := Decide(s, call);
    var z := Apply(s, call).store;
    if d.Change? {
      ChangeOk(s, call);
      assert d.facts == [] ==> s.history + d.facts == s.history;
      assert d.facts != [] ==> d.facts == [d.facts[0]];
      assert z.history == s.history + d.facts;
      forall scope | scope in z.accounts ensures RecordOk(z.history, scope, z.accounts[scope]) {
        if scope != call.scope && d.facts != [] { OthersStay(s.history, d.facts[0], scope, z.accounts[scope]); }
      }
      forall scope | scope !in z.accounts ensures HoldsIn(z.history, scope) == {} {
        if d.facts != [] { HoldsSnoc(s.history, d.facts[0], scope); OtherHolds(d.facts[0], scope, {}); }
      }
    }
  }

  lemma OtherHolds(f: Fact, scope: Scope, was: set<string>)
    requires f.scope != scope
    ensures HoldsAfter(f, scope, was) == was
  {
  }

  lemma {:induction false} RunKeepsInv(s: Store, calls: seq<Call>)
    requires Inv(s)
    ensures Inv(Run(s, calls))
    decreases |calls|
  {
    hide Inv, Apply;
    if calls != [] {
      ApplyKeepsInv(s, calls[0]);
      RunKeepsInv(Apply(s, calls[0]).store, calls[1..]);
    }
  }

  /** On every run, torn calls included, a purged account went through all four steps. */
  lemma PurgesAreEarned(calls: seq<Call>, scope: Scope)
    requires var s := Run(EMPTY, calls); scope in s.accounts && s.accounts[scope].state == Purged
    ensures exists j :: CompleteStep(Run(EMPTY, calls).history, scope, j)
  {
    hide Run, CompleteStep, HoldsIn;
    assert Inv(EMPTY) by { NoHolds(); }
    RunKeepsInv(EMPTY, calls);
    var s := Run(EMPTY, calls);
    assert RecordOk(s.history, scope, s.accounts[scope]);
    var j :| Story(s.history, scope, s.accounts[scope], j);
    assert CompleteStep(s.history, scope, j);
  }

  lemma NoHolds()
    ensures forall scope :: HoldsIn([], scope) == {}
  {
  }

  // ------------------------------------------------------ what is final

  predicate Gone(s: Store, scope: Scope) { scope in s.accounts && s.accounts[scope].state == Purged }

  lemma PurgedStays(s: Store, call: Call, scope: Scope)
    requires Gone(s, scope)
    ensures Gone(Apply(s, call).store, scope)
  {
    hide WellFormed, NormalPlan, CacheKey, AllDone;
  }

  /** Purged is final. */
  lemma {:induction false} PurgedIsFinal(s: Store, calls: seq<Call>, scope: Scope)
    requires Gone(s, scope)
    ensures Gone(Run(s, calls), scope)
    decreases |calls|
  {
    hide Apply, Gone;
    if calls != [] {
      PurgedStays(s, calls[0], scope);
      PurgedIsFinal(Apply(s, calls[0]).store, calls[1..], scope);
    }
  }

  /** The account is purged, or waits for it past its deadline at `now`. */
  predicate Doomed(s: Store, scope: Scope, now: int) {
    && scope in s.accounts
    && (s.accounts[scope].state == Purged
        || (&& s.accounts[scope].state == PurgePending
            && s.accounts[scope].until.Some?
            && s.accounts[scope].until.value < now))
  }

  /** No call carries a time before `now`. */
  predicate NotBefore(call: Call, now: int) { call.Restore? && call.restoredAt.Some? ==> call.restoredAt.value >= now }

  lemma DoomedStays(s: Store, call: Call, scope: Scope, now: int)
    requires Doomed(s, scope, now) && NotBefore(call, now)
    ensures Doomed(Apply(s, call).store, scope, now)
  {
    hide WellFormed, NormalPlan, CacheKey, AllDone;
  }

  lemma {:induction false} DoomedForever(s: Store, calls: seq<Call>, scope: Scope, now: int)
    requires Doomed(s, scope, now) && forall i :: 0 <= i < |calls| ==> NotBefore(calls[i], now)
    ensures Doomed(Run(s, calls), scope, now)
    decreases |calls|
  {
    hide Apply, Doomed, NotBefore;
    if calls != [] {
      DoomedStays(s, calls[0], scope, now);
      DoomedForever(Apply(s, calls[0]).store, calls[1..], scope, now);
    }
  }

  lemma QueueDooms(s: Store, queue: Call)
    requires queue.Queue? && DecideQueue(s, queue).Change? && queue.queuedAt.value > s.accounts[queue.scope].until.value
    requires WellFormed(queue)
    ensures Doomed(Apply(s, queue).store, queue.scope, queue.queuedAt.value)
  {
    hide WellFormed, CacheKey;
  }

  /** With times that do not go back, an account queued strictly after its deadline is never active again. */
  lemma QueuedLateNeverActive(s: Store, queue: Call, later: seq<Call>)
    requires queue.Queue? && DecideQueue(s, queue).Change? && queue.queuedAt.value > s.accounts[queue.scope].until.value
    requires WellFormed(queue) && forall i :: 0 <= i < |later| ==> NotBefore(later[i], queue.queuedAt.value)
    ensures var z := Run(Apply(s, queue).store, later);
            queue.scope in z.accounts
              && (z.accounts[queue.scope].state == PurgePending || z.accounts[queue.scope].state == Purged)
  {
    hide WellFormed, CacheKey, NotBefore, Run, Apply;
    QueueDooms(s, queue);
    DoomedForever(Apply(s, queue).store, later, queue.scope, queue.queuedAt.value);
  }

  /** Queued exactly at its deadline, an account can still be restored at that instant. */
  lemma QueuedOnTimeCanReturn(s: Store, queue: Call, restore: Call)
    requires queue.Queue? && WellFormed(queue) && DecideQueue(s, queue).Change?
    requires queue.queuedAt == s.accounts[queue.scope].until
    requires restore.Restore? && WellFormed(restore) && restore.scope == queue.scope
    requires restore.restoredAt == queue.queuedAt
    requires KeyOf(restore).value !in Apply(s, queue).store.results
    ensures Apply(Apply(s, queue).store, restore).store.accounts[queue.scope].state == Active
  {
    hide WellFormed, CacheKey;
  }
}
