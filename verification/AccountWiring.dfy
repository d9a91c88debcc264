/**
 Completing a purge with the adapters that delete the resources.  Other calls
 may reach the store while an adapter is awaited.
 */
module AccountWiring {
  import opened Strings
  import opened Dates
  import opened CacheKeys
  import opened Account
  import opened AccountAudit
  import opened AccountPurge
  import opened AccountReplay
  import opened AccountStore

  /** What an adapter reports in the end. */
  datatype Report = PurgedReport | OtherReport | Thrown

  /** What happens while one adapter is awaited: calls of others, then its report. */
  datatype Await = Await(calls: seq<Call>, report: Report)

  datatype Input = Input(
    scope: Scope, id: string, confirmation: string, completedAt: Option<int>, auditable: bool,
    backupAdapter: bool, awaits: seq<Await>, retentionThrows: bool)

  datatype Cause = NotAllowed | AdapterFailed | RetentionFailed | ByStore(reason: Reason)

  datatype Answered = Completed(result: Result) | Refused(cause: Cause)

  /** `called` lists the resources whose deleting adapter was called. */
  datatype Ending = Ending(store: Store, reply: Answered, called: seq<string>)

  function AwaitAt(input: Input, i: nat): (a: Await) {
    if i < |input.awaits| then input.awaits[i] else Await([], PurgedReport)
  }

  /** The backup adapter's report is not looked at. */
  predicate Succeeds(input: Input, resource: string, report: Report) {
    report == PurgedReport || (report == OtherReport && resource == "backups" && input.backupAdapter)
  }

  /** What the store itself demands of a completion, checked before any adapter is called. */
  predicate Permitted(s: Store, input: Input) {
    && IsId(input.scope.tenant) && IsId(input.scope.user) && input.scope in s.accounts
    && s.accounts[input.scope].state == PurgePending
    && input.confirmation == "PURGE:" + input.scope.user
    && s.accounts[input.scope].holds == {}
  }

  datatype Progress = Progress(store: Store, called: seq<string>, failed: bool)

  /** The loop over the cleanup plan. */
  function Sweep(input: Input, s: Store, plan: seq<string>, i: nat): (p: Progress)
    decreases |plan| - i
  {
    if i >= |plan| then Progress(s, plan, false)
    else
      var a := AwaitAt(input, i);
      var z := Run(s, a.calls);
      if Succeeds(input, plan[i], a.report) then Sweep(input, z, plan, i + 1) else Progress(z, plan[..i + 1], true)
  }

  function Done(plan: seq<string>): (r: set<string>) { set x | x in plan }

  function Completion(input: Input, plan: seq<string>): (call: Call) {
    Complete(input.scope, input.id, input.confirmation, Done(plan), input.completedAt, input.auditable)
  }

  function CompletePurge(s: Store, input: Input): (o: Ending) {
    if !Permitted(s, input) then Ending(s, Refused(NotAllowed), [])
    else
      var plan := s.accounts[input.scope].plan;
      var p := Sweep(input, s, plan, 0);
      if p.failed then Ending(p.store, Refused(AdapterFailed), p.called)
      else if input.retentionThrows then Ending(p.store, Refused(RetentionFailed), p.called)
      else
        var o := Apply(p.store, Completion(input, plan));
        match o.reply
        case Output(result) => Ending(o.store, Completed(result), p.called)
        case Raised(reason) => Ending(o.store, Refused(ByStore(reason)), p.called)
  }

  /** No adapter is called before the store's own preconditions hold, and then for the plan in order. */
  lemma AdaptersAreGuarded(s: Store, input: Input)
    ensures CompletePurge(s, input).called != [] ==> Permitted(s, input)
    ensures Permitted(s, input) ==> CompletePurge(s, input).called <= s.accounts[input.scope].plan
  {
    hide Apply, Permitted;
    if Permitted(s, input) {
      assert input.scope in s.accounts by { PermittedAccount(s, input); }
      SweepCalls(input, s, s.accounts[input.scope].plan, 0);
    }
  }

  lemma PermittedAccount(s: Store, input: Input)
    requires Permitted(s, input)
    ensures input.scope in s.accounts
  {
  }

  lemma {:induction false} SweepCalls(input: Input, s: Store, plan: seq<string>, i: nat)
    ensures Sweep(input, s, plan, i).called <= plan
    decreases |plan| - i
  {
    hide Run;
    if i < |plan| { SweepCalls(input, Run(s, AwaitAt(input, i).calls), plan, i + 1); }
  }

  /** Nobody else calls the store, and every adapter succeeds. */
  predicate Quiet(input: Input, plan: seq<string>) {
    && !input.retentionThrows
    && forall i :: 0 <= i < |plan| ==>
      AwaitAt(input, i).calls == [] && Succeeds(input, plan[i], AwaitAt(input, i).report)
  }

  lemma {:induction false} QuietSweep(input: Input, s: Store, plan: seq<string>, i: nat)
    requires Quiet(input, plan)
    ensures Sweep(input, s, plan, i) == Progress(s, plan, false)
    decreases |plan| - i
  {
    if i < |plan| {
      assert Run(s, []) == s;
      QuietSweep(input, s, plan, i + 1);
    }
  }

  /**
   With nobody else calling and every adapter succeeding, the purge is recorded if
   and only if operation id, completion time and actor are well formed.
   */
  lemma QuietPurgeSucceedsExactly(s: Store, input: Input)
    requires Permitted(s, input) && CompletionsPurged(s) && Quiet(input, s.accounts[input.scope].plan)
    ensures var o := CompletePurge(s, input);
            && o.called == s.accounts[input.scope].plan
            && (o.reply.Completed? <==> IsOperationId(input.id) && input.completedAt.Some? && input.auditable)
            && (o.reply.Completed? ==> Gone(o.store, input.scope))
  {
    hide Sweep, IsId, IsOperationId, CacheKey, Succeeds, AwaitAt;
    var plan := s.accounts[input.scope].plan;
    QuietSweep(input, s, plan, 0);
    var call := Completion(input, plan);
    if IsOperationId(input.id) {
      NoCachedCompletion(s, input.scope, input.id);
      assert AllDone(plan, Done(plan));
    }
  }

  lemma NoCachedCompletion(s: Store, scope: Scope, id: string)
    requires CompletionsPurged(s) && scope in s.accounts && s.accounts[scope].state == PurgePending
    requires IsId(scope.tenant) && IsId(scope.user) && IsOperationId(id)
    ensures CacheKey("complete", scope, id) !in s.results
  {
    hide IsId, IsOperationId, CacheKey;
    OperationsDiffer();
    assert ValidKey("complete", scope, id);
  }

  /** Every store reached from the empty one qualifies. */
  lemma ReachableCompletions(calls: seq<Call>)
    ensures CompletionsPurged(Run(EMPTY, calls))
  {
    hide Run;
    RunKeepsCompletions(EMPTY, calls);
  }

  /**
   A malformed operation id is noticed only after every adapter has deleted its resource;
   the account stays as it was.
   */
  lemma MalformedIdDeletesFirst(s: Store, input: Input)
    requires Permitted(s, input) && Quiet(input, s.accounts[input.scope].plan) && !IsOperationId(input.id)
    ensures CompletePurge(s, input) == Ending(s, Refused(ByStore(InvalidInput)), s.accounts[input.scope].plan)
  {
    hide Sweep, IsId, IsOperationId, Succeeds, AwaitAt;
    QuietSweep(input, s, s.accounts[input.scope].plan, 0);
  }

  /** What the store finds when every adapter has reported, whoever called it meanwhile. */
  predicate Recordable(s: Store, input: Input, plan: seq<string>) {
    && input.scope in s.accounts && s.accounts[input.scope].state == PurgePending && s.accounts[input.scope].holds == {}
    && AllDone(s.accounts[input.scope].plan, Done(plan))
    && input.completedAt.Some? && input.auditable
  }

  /** Every adapter reports its resource purged; of the one for backups, any report at all will do. */
  predicate AllSucceed(input: Input, plan: seq<string>) {
    forall i :: 0 <= i < |plan| ==>
      && AwaitAt(input, i).report != Thrown
      && (AwaitAt(input, i).report == OtherReport ==> plan[i] == "backups" && input.backupAdapter)
  }

  lemma SucceedExactly(input: Input, plan: seq<string>)
    ensures AllSucceed(input, plan) <==>
              forall i :: 0 <= i < |plan| ==> Succeeds(input, plan[i], AwaitAt(input, i).report)
  {
    hide AwaitAt;
  }

  /** What others call while the adapters from `i` to `n` are awaited. */
  function Meanwhile(input: Input, i: nat, n: nat): (calls: seq<Call>)
    decreases n - i
  {
    if i >= n then [] else AwaitAt(input, i).calls + Meanwhile(input, i + 1, n)
  }

  lemma {:induction false} RunConcat(s: Store, a: seq<Call>, b: seq<Call>)
    ensures Run(s, a + b) == Run(Run(s, a), b)
    decreases |a|
  {
    hide Apply;
    if a == [] {
      assert a + b == b;
    } else {
      assert (a + b)[1..] == a[1..] + b;
      RunConcat(Apply(s, a[0]).store, a[1..], b);
    }
  }

  lemma {:induction false} SweepEndsExactly(input: Input, s: Store, plan: seq<string>, i: nat)
    ensures var p := Sweep(input, s, plan, i);
            && (p.failed <==> exists j :: i <= j < |plan| && !Succeeds(input, plan[j], AwaitAt(input, j).report))
            && (!p.failed ==> p == Progress(Run(s, Meanwhile(input, i, |plan|)), plan, false))
    decreases |plan| - i
  {
    hide Run, Succeeds, AwaitAt;
    if i < |plan| {
      var calls := AwaitAt(input, i).calls;
      RunConcat(s, calls, Meanwhile(input, i + 1, |plan|));
      SweepEndsExactly(input, Run(s, calls), plan, i + 1);
    } else {
      assert Run(s, []) == s by { RunNothing(s); }
    }
  }

  lemma RunNothing(s: Store)
    ensures Run(s, []) == s
  {
  }

  /**
   Whatever is called meanwhile, the purge is recorded if and only if every
   adapter and the trash batch succeed, the operation id is well formed and,
   after the calls of others, either the same completion is cached, or the
   account is still to be purged, without holds and with no more planned than
   was deleted, and time and actor are well formed.
   */
  lemma InterleavedPurgeSucceedsExactly(s: Store, input: Input)
    requires Permitted(s, input)
    ensures var plan := s.accounts[input.scope].plan;
            var end := Run(s, Meanwhile(input, 0, |plan|));
            var o := CompletePurge(s, input);
            && (o.reply.Completed?
                <==> AllSucceed(input, plan) && !input.retentionThrows && IsOperationId(input.id)
                     && (CacheKey("complete", input.scope, input.id) in end.results || Recordable(end, input, plan)))
            && (AllSucceed(input, plan) ==> o.called == plan)
            && (o.reply.Completed? && CompletionsPurged(s) ==> Gone(o.store, input.scope))
  {
    hide IsId, IsOperationId, CacheKey, Sweep, AllDone, CompletionsPurged, Run, Meanwhile, Succeeds, AwaitAt,
      AllSucceed;
    var plan := s.accounts[input.scope].plan;
    SucceedExactly(input, plan);
    SweepEndsExactly(input, s, plan, 0);
    var end := Run(s, Meanwhile(input, 0, |plan|));
    if AllSucceed(input, plan) && CompletionsPurged(s) && IsOperationId(input.id) {
      RunKeepsCompletions(s, Meanwhile(input, 0, |plan|));
      if CacheKey("complete", input.scope, input.id) in end.results { CachedIsGone(end, input.scope, input.id); }
    }
  }

  lemma CachedIsGone(s: Store, scope: Scope, id: string)
    requires CompletionsPurged(s) && CacheKey("complete", scope, id) in s.results
    requires IsId(scope.tenant) && IsId(scope.user) && IsOperationId(id)
    ensures Gone(s, scope)
  {
    hide IsId, IsOperationId, CacheKey;
    OperationsDiffer();
    assert ValidKey("complete", scope, id);
  }

  /** A hold placed while the first adapter is awaited. */
  predicate HoldsMeanwhile(input: Input, hold: Call) {
    input.awaits == [Await([hold], PurgedReport)] && hold.AddHold? && hold.scope == input.scope
      && hold.addedAt.Some? && WellFormed(hold)
  }

  lemma HeldSweep(s: Store, input: Input, hold: Call)
    requires Permitted(s, input) && HoldsMeanwhile(input, hold) && s.accounts[input.scope].plan != []
    ensures Sweep(input, s, s.accounts[input.scope].plan, 0)
            == Progress(Apply(s, hold).store, s.accounts[input.scope].plan, false)
  {
    hide Apply, IsId, WellFormed;
    var plan := s.accounts[input.scope].plan;
    SweepStep(input, s, plan, 0);
    assert [hold][1..] == [];
    assert Run(s, [hold]) == Run(Apply(s, hold).store, []);
    QuietRest(input, Apply(s, hold).store, plan, 1);
  }

  lemma {:induction false} QuietRest(input: Input, s: Store, plan: seq<string>, i: nat)
    requires i >= |input.awaits|
    ensures Sweep(input, s, plan, i) == Progress(s, plan, false)
    decreases |plan| - i
  {
    if i < |plan| {
      assert Run(s, []) == s;
      QuietRest(input, s, plan, i + 1);
    }
  }

  /** A hold placed during the first deletion stops no adapter: all of them delete, and only the record is refused. */
  lemma LateHoldRefusesOnlyTheRecord(s: Store, input: Input, hold: Call)
    requires Permitted(s, input) && CompletionsPurged(s) && s.accounts[input.scope].plan != []
    requires HoldsMeanwhile(input, hold) && IsOperationId(input.id) && !input.retentionThrows
    ensures var o := CompletePurge(s, input);
            && o.called == s.accounts[input.scope].plan && o.reply == Refused(ByStore(OnHold))
            && o.store.accounts[input.scope].state == PurgePending
  {
    hide IsId, IsOperationId, CacheKey, Sweep, CompletionsPurged, HoldsMeanwhile;
    HeldSweep(s, input, hold);
    var end := Apply(s, hold).store;
    ApplyKeepsCompletions(s, hold);
    assert end.accounts[input.scope].holds == {hold.hold} && end.accounts[input.scope].state == PurgePending by {
      HeldAccount(s, input, hold);
    }
    NoCachedCompletion(end, input.scope, input.id);
  }

  lemma HeldAccount(s: Store, input: Input, hold: Call)
    requires Permitted(s, input) && HoldsMeanwhile(input, hold)
    ensures var end := Apply(s, hold).store;
            && input.scope in end.accounts && end.accounts[input.scope].state == PurgePending
            && end.accounts[input.scope].holds == {hold.hold}
  {
    hide IsId, WellFormed;
  }

  /** The four calls that bring an account to the point where its purge may be completed. */
  function Prelude(scope: Scope): (calls: seq<Call>) {
    [Register(scope, "user", Some(0), None, true),
     Request(scope, "r", "DELETE:" + scope.user, true, Some(0), 1, None),
     SoftDelete(scope, "DELETE:" + scope.user, None, Some(0), true),
     Queue(scope, "q", Some(DAY_MS), true)]
  }

  /** Every account can get there from the empty store. */
  lemma PermittedIsReachable(input: Input)
    requires IsId(input.scope.tenant) && IsId(input.scope.user) && input.confirmation == "PURGE:" + input.scope.user
    ensures var s := Run(EMPTY, Prelude(input.scope)); Permitted(s, input) && s.accounts[input.scope].plan != []
  {
    PreludeRuns(input.scope);
  }

  lemma PreludeWellFormed(scope: Scope)
    requires IsId(scope.tenant) && IsId(scope.user)
    ensures forall i :: 0 <= i < 4 ==> WellFormed(Prelude(scope)[i])
  {
    assert IsId("user") && IsOperationId("r") && IsOperationId("q");
  }

  lemma KeysApart(scope: Scope)
    requires IsId(scope.tenant) && IsId(scope.user)
    ensures CacheKey("queue", scope, "q") != CacheKey("request", scope, "r")
  {
    hide IsId, CacheKey;
    OperationsDiffer();
    assert IsOperationId("r") && IsOperationId("q");
    if CacheKey("queue", scope, "q") == CacheKey("request", scope, "r") {
      SameKey("queue", scope, "q", "request", scope, "r");
    }
  }

  lemma RunFour(s: Store, a: Call, b: Call, c: Call, d: Call)
    ensures Run(s, [a, b, c, d]) == Apply(Apply(Apply(Apply(s, a).store, b).store, c).store, d).store
  {
    hide Apply;
    assert [a, b, c, d][1..] == [b, c, d] && [b, c, d][1..] == [c, d] && [c, d][1..] == [d] && [d][1..] == [];
    var z := Apply(Apply(s, a).store, b).store;
    assert Run(z, [c, d]) == Run(Apply(z, c).store, [d]);
    assert Run(Apply(z, c).store, [d]) == Run(Apply(Apply(z, c).store, d).store, []);
  }

  lemma PreludeRuns(scope: Scope)
    requires IsId(scope.tenant) && IsId(scope.user)
    ensures var s := Run(EMPTY, Prelude(scope));
            && scope in s.accounts && s.accounts[scope].state == PurgePending && s.accounts[scope].holds == {}
            && s.accounts[scope].plan != []
  {
    var c := Prelude(scope);
    PreludeWellFormed(scope);
    DefaultPlan();
    PlanStays(None);
    KeysApart(scope);
    hide WellFormed, NormalPlan, IsId, CacheKey, Run;
    RunFour(EMPTY, c[0], c[1], c[2], c[3]);
    var s1 := Apply(EMPTY, c[0]).store;
    var s2 := Apply(s1, c[1]).store;
    assert s2.accounts[scope].state == DeletionRequested && s2.accounts[scope].until == Some(DAY_MS);
    var s3 := Apply(s2, c[2]).store;
    assert s3.accounts[scope].state == SoftDeleted && s3.accounts[scope].until == Some(DAY_MS);
  }

  /** The composed operation, over the store object. */
  method CompleteWithAdapters(store: LifecycleStore, input: Input) returns (reply: Answered, called: seq<string>)
    modifies store
    ensures Ending(store.Abs(), reply, called) == CompletePurge(old(store.Abs()), input)
  {
    hide Apply, Run, IsId, Sweep;
    called := [];
    if !IsId(input.scope.tenant) || !IsId(input.scope.user) || input.scope !in store.accounts {
      return Refused(NotAllowed), called;
    }
    var account := store.accounts[input.scope];
    if account.state != PurgePending { return Refused(NotAllowed), called; }
    if input.confirmation != "PURGE:" + input.scope.user { return Refused(NotAllowed), called; }
    if account.holds != {} { return Refused(NotAllowed), called; }
    var done: set<string> := {};
    for i := 0 to |account.plan|
      invariant called == account.plan[..i] && done == Done(called)
      invariant Sweep(input, store.Abs(), account.plan, i) == Sweep(input, old(store.Abs()), account.plan, 0)
    {
      var resource := account.plan[i];
      SweepStep(input, store.Abs(), account.plan, i);
      called := called + [resource];
      assert account.plan[..i + 1] == account.plan[..i] + [resource];
      var waiting := AwaitAt(input, i);
      store.CallAll(waiting.calls);
      if !Succeeds(input, resource, waiting.report) { return Refused(AdapterFailed), called; }
      done := done + {resource};
    }
    SweepEnd(input, store.Abs(), account.plan);
    assert account.plan[..|account.plan|] == account.plan;
    if input.retentionThrows { return Refused(RetentionFailed), called; }
    var answer := store.Call(Complete(input.scope, input.id, input.confirmation, done, input.completedAt,
      input.auditable));
    reply := match answer case Output(result) => Completed(result) case Raised(reason) => Refused(ByStore(reason));
  }

  lemma SweepStep(input: Input, s: Store, plan: seq<string>, i: nat)
    requires i < |plan|
    ensures var a := AwaitAt(input, i);
            Sweep(input, s, plan, i)
            == if Succeeds(input, plan[i], a.report) then Sweep(input, Run(s, a.calls), plan, i + 1)
               else Progress(Run(s, a.calls), plan[..i + 1], true)
  {
    hide Run;
  }

  lemma SweepEnd(input: Input, s: Store, plan: seq<string>)
    ensures Sweep(input, s, plan, |plan|) == Progress(s, plan, false)
  {
  }
}
