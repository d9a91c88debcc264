/**
 The audit log alone rebuilds every account, exactly as long as no call fails
 between changing an account and writing its audit entry.
 */
module AccountAudit {
  import opened Strings
  import opened Account

  /** What the log is to rebuild. */
  datatype View = View(
    state: AccountState, until: Option<int>, plan: seq<string>, holds: set<string>, request: Option<string>)

  function ViewOf(a: Record): (v: View) { View(a.state, a.until, a.plan, a.holds, a.request) }

  function Shown(s: Store, scope: Scope): (v: Option<View>) {
    if scope in s.accounts then Some(ViewOf(s.accounts[scope])) else None
  }

  /** The meaning of one entry, for the account it names. */
  function Told(e: Event, was: Option<View>): (v: Option<View>) {
    match was
    case None => (match e case RegisteredEvent(_, plan) => Some(View(Active, None, plan, {}, None)) case _ => None)
    case Some(v) =>
      (match e
       case RegisteredEvent(_, plan) => Some(View(Active, None, plan, {}, None))
       case RequestedEvent(_, id, until, plan) =>
         Some(v.(state := DeletionRequested, until := until, plan := plan, request := Some(id)))
       case SoftDeletedEvent(_) => Some(v.(state := SoftDeleted))
       case RestoredEvent(_, _) => Some(v.(state := Active, until := None, request := None))
       case HoldAddedEvent(_, hold) => Some(v.(holds := v.holds + {hold}))
       case HoldReleasedEvent(_, hold) => Some(v.(holds := v.holds - {hold}))
       case QueuedEvent(_, _) => Some(v.(state := PurgePending))
       case PurgedEvent(_, _) => Some(v.(state := Purged)))
  }

  function Rebuild(events: seq<Event>, scope: Scope): (v: Option<View>) {
    if events == [] then None
    else
      var e := events[|events| - 1];
      var was := Rebuild(events[..|events| - 1], scope);
      if e.scope == scope then Told(e, was) else was
  }

  ghost predicate Rebuilds(s: Store) { forall scope :: Rebuild(s.events, scope) == Shown(s, scope) }

  lemma RebuildSnoc(events: seq<Event>, e: Event, scope: Scope)
    ensures Rebuild(events + [e], scope)
            == if e.scope == scope then Told(e, Rebuild(events, scope)) else Rebuild(events, scope)
  {
    assert (events + [e])[..|events|] == events;
  }

  /** The call changes its account and then fails. */
  predicate Tears(s: Store, call: Call) { Decide(s, call).Change? && !Decide(s, call).auditable }

  /** The entry a call writes tells exactly the change it made. */
  lemma EntryTellsChange(s: Store, call: Call)
    requires Decide(s, call).Change? && Decide(s, call).auditable
    ensures Decide(s, call).event.scope == call.scope
    ensures Told(Decide(s, call).event, Shown(s, call.scope)) == Some(ViewOf(Decide(s, call).account))
  {
    hide WellFormed, NormalPlan, CacheKey;
  }

  /** No change is invisible. */
  lemma ChangeShows(s: Store, call: Call)
    requires Decide(s, call).Change?
    ensures Shown(s, call.scope) != Some(ViewOf(Decide(s, call).account))
  {
    hide WellFormed, NormalPlan, CacheKey;
  }

  lemma RebuildsUnlessTorn(s: Store, call: Call)
    requires Rebuilds(s)
    ensures Rebuilds(Apply(s, call).store) <==> !Tears(s, call)
  {
    hide Decide, Rebuild, Told, ViewOf;
    var z := Apply(s, call).store;
    var d := Decide(s, call);
    assert Rebuild(s.events, call.scope) == Shown(s, call.scope);
    if d.Change? {
      ChangeShows(s, call);
      if d.auditable {
        EntryTellsChange(s, call);
        forall scope ensures Rebuild(z.events, scope) == Shown(z, scope) {
          assert Rebuild(s.events, scope) == Shown(s, scope);
          RebuildSnoc(s.events, d.event, scope);
        }
      } else {
        assert Rebuild(z.events, call.scope) != Shown(z, call.scope);
      }
    }
  }

  // ------------------------------------------------------ well-formed calls

  /** What a caller can see before the call: every field well formed, and a deadline that is a date. */
  predicate Clean(call: Call) {
    match call
    case Request(_, _, _, _, at, days, plan) =>
      (at.Some? ==> Deadline(at.value, days).Some?) && (plan.Some? ==> NormalPlan(plan).Some?)
    case Register(_, _, _, _, auditable) => auditable
    case SoftDelete(_, _, _, _, auditable) => auditable
    case Restore(_, _, _, auditable) => auditable
    case AddHold(_, _, _, auditable) => auditable
    case ReleaseHold(_, _, auditable) => auditable
    case Queue(_, _, _, auditable) => auditable
    case Complete(_, _, _, _, _, auditable) => auditable
  }

  lemma {:induction false} DedupElements(plan: seq<string>, x: string)
    ensures x in Dedup(plan) <==> x in plan
  {
    if plan != [] {
      DedupElements(plan[..|plan| - 1], x);
      assert plan == plan[..|plan| - 1] + [plan[|plan| - 1]];
    }
  }

  /** Normalizing a normalized plan succeeds. */
  lemma PlanStays(plan: Option<seq<string>>)
    requires NormalPlan(plan).Some?
    ensures NormalPlan(Some(NormalPlan(plan).value)).Some?
  {
    hide Dedup;
    var p := NormalPlan(plan).value;
    assert p[0] in Dedup(p) by { DedupElements(p, p[0]); }
    forall x | x in Dedup(p) ensures x in RESOURCES {
      DedupElements(p, x);
    }
  }

  ghost predicate PlansOk(s: Store) {
    forall scope :: scope in s.accounts ==> NormalPlan(Some(s.accounts[scope].plan)).Some?
  }

  lemma ApplyKeepsPlans(s: Store, call: Call)
    requires PlansOk(s)
    ensures PlansOk(Apply(s, call).store)
  {
    hide WellFormed, NormalPlan, CacheKey;
    if call.Register? && NormalPlan(call.plan).Some? { PlanStays(call.plan); }
    if call.Request? && call.plan.Some? && NormalPlan(call.plan).Some? { PlanStays(call.plan); }
    if call.Request? && call.scope in s.accounts { PlanStays(Some(s.accounts[call.scope].plan)); }
  }

  lemma CleanNeverTears(s: Store, call: Call)
    requires PlansOk(s) && Clean(call)
    ensures !Tears(s, call)
  {
    hide WellFormed, NormalPlan, CacheKey;
  }

  /** A change tears exactly when some field that the call reads late is malformed. */
  lemma TearsExactly(s: Store, call: Call)
    requires PlansOk(s) && Decide(s, call).Change?
    ensures Tears(s, call) <==> !Clean(call)
  {
    hide WellFormed, CacheKey, NormalPlan, AllDone;
  }

  /**
   From a store that its log rebuilds, a call keeps that so if and only if its
   late fields are well formed or it leaves every account as it was.
   */
  lemma RebuildsExactly(s: Store, call: Call)
    requires Rebuilds(s) && PlansOk(s)
    ensures Rebuilds(Apply(s, call).store) <==> Clean(call) || Apply(s, call).store.accounts == s.accounts
  {
    hide Rebuilds, PlansOk, Decide, Clean, ViewOf;
    RebuildsUnlessTorn(s, call);
    if Decide(s, call).Change? {
      TearsExactly(s, call);
      ChangeShows(s, call);
      assert Apply(s, call).store.accounts[call.scope] == Decide(s, call).account;
    }
  }

  /** Every reachable store has usable plans, so the condition above decides every run, call by call. */
  lemma {:induction false} RunKeepsPlans(s: Store, calls: seq<Call>)
    requires PlansOk(s)
    ensures PlansOk(Run(s, calls))
    decreases |calls|
  {
    hide PlansOk, Apply;
    if calls != [] {
      ApplyKeepsPlans(s, calls[0]);
      RunKeepsPlans(Apply(s, calls[0]).store, calls[1..]);
    }
  }

  lemma {:induction false} CleanRunRebuilds(s: Store, calls: seq<Call>)
    requires Rebuilds(s) && PlansOk(s) && forall i :: 0 <= i < |calls| ==> Clean(calls[i])
    ensures Rebuilds(Run(s, calls))
    decreases |calls|
  {
    hide Rebuilds, PlansOk, Apply, Clean, Tears;
    if calls != [] {
      CleanNeverTears(s, calls[0]);
      RebuildsUnlessTorn(s, calls[0]);
      ApplyKeepsPlans(s, calls[0]);
      CleanRunRebuilds(Apply(s, calls[0]).store, calls[1..]);
    }
  }

  /**
   On every run of well-formed calls, folding the audit log gives each account's
   state, recovery deadline, cleanup plan, hold ids and deletion request id.
   */
  lemma LogRebuildsAccounts(calls: seq<Call>, scope: Scope)
    requires forall i :: 0 <= i < |calls| ==> Clean(calls[i])
    ensures Rebuild(Run(EMPTY, calls).events, scope) == Shown(Run(EMPTY, calls), scope)
  {
    hide Run, Clean;
    CleanRunRebuilds(EMPTY, calls);
  }

  // ------------------------------------------------------ a torn request

  /**
   A request whose cleanup plan is empty is refused, yet leaves the account awaiting
   deletion without a request id.
   */
  lemma EmptyPlanTears(s: Store, call: Call)
    requires WellFormed(call) && call.Request? && call.plan == Some([]) && KeyOf(call).value !in s.results
    requires call.scope in s.accounts && s.accounts[call.scope].state == Active && s.accounts[call.scope].holds == {}
    requires call.confirmation == "DELETE:" + call.scope.user && call.actorOk && 1 <= call.days <= 3650
    requires call.requestedAt.Some? && Deadline(call.requestedAt.value, call.days).Some?
    ensures Apply(s, call).reply.Raised? && Apply(s, call).store.events == s.events
    ensures var a := Apply(s, call).store.accounts[call.scope];
            a.state == DeletionRequested && a.until == Deadline(call.requestedAt.value, call.days)
              && a.request == s.accounts[call.scope].request
  {
    hide WellFormed, CacheKey;
  }

  /** A concrete run whose log no longer rebuilds the account. */
  lemma TornRun()
    ensures var scope := Scope("t", "u");
            var calls := [Register(scope, "user", Some(0), None, true),
              Request(scope, "r", "DELETE:u", true, Some(0), 28, Some([]))];
            !Rebuilds(Run(EMPTY, calls))
  {
    var scope := Scope("t", "u");
    var first := Register(scope, "user", Some(0), None, true);
    var second := Request(scope, "r", "DELETE:u", true, Some(0), 28, Some([]));
    assert WellFormed(first) && WellFormed(second);
    DefaultPlan();
    hide WellFormed, NormalPlan, Rebuild;
    var s := Apply(EMPTY, first).store;
    assert scope in s.accounts && s.results == map[];
    assert Rebuilds(s) by { RegisteredRebuilds(first); }
    EmptyPlanFails();
    assert Tears(s, second);
    RebuildsUnlessTorn(s, second);
    var calls := [first, second];
    assert calls[1..] == [second] && [second][1..] == [];
    assert Run(s, [second]) == Run(Apply(s, second).store, []);
  }

  lemma EmptyPlanFails()
    ensures NormalPlan(Some([])).None?
  {
  }

  lemma DefaultPlan()
    ensures NormalPlan(None).Some?
  {
    hide Dedup;
    assert RESOURCES[0] in Dedup(RESOURCES) by { DedupElements(RESOURCES, RESOURCES[0]); }
    forall x | x in Dedup(RESOURCES) ensures x in RESOURCES {
      DedupElements(RESOURCES, x);
    }
  }

  lemma RegisteredRebuilds(call: Call)
    requires Clean(call)
    ensures Rebuilds(Apply(EMPTY, call).store)
  {
    hide Clean, Apply, Tears;
    CleanNeverTears(EMPTY, call);
    RebuildsUnlessTorn(EMPTY, call);
  }
}
