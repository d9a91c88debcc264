/**
 Replays of account requests, and what a cached completion says of its account.
 */
module AccountReplay {
  import opened Strings
  import opened CacheKeys
  import opened Account
  import opened AccountPurge

  predicate SameRequest(a: Call, b: Call) {
    match (a, b)
    case (Request(s, i, _, _, _, _, _), Request(t, j, _, _, _, _, _)) => s == t && i == j
    case (Restore(s, i, _, _), Restore(t, j, _, _)) => s == t && i == j
    case (Queue(s, i, _, _), Queue(t, j, _, _)) => s == t && i == j
    case (Complete(s, i, _, _, _, _), Complete(t, j, _, _, _, _)) => s == t && i == j
    case _ => false
  }

  function Operation(call: Call): (r: string) {
    match call
    case Request(_, _, _, _, _, _, _) => "request"
    case Restore(_, _, _, _) => "restore"
    case Queue(_, _, _, _) => "queue"
    case Complete(_, _, _, _, _, _) => "complete"
    case _ => ""
  }

  function IdOf(call: Call): (r: string) {
    match call
    case Request(_, id, _, _, _, _, _) => id
    case Restore(_, id, _, _) => id
    case Queue(_, id, _, _) => id
    case Complete(_, id, _, _, _, _) => id
    case _ => ""
  }

  lemma OperationsDiffer()
    ensures "request" != "restore" && "request" != "queue" && "request" != "complete"
    ensures "restore" != "queue" && "restore" != "complete" && "queue" != "complete"
    ensures NulFree("request") && NulFree("restore") && NulFree("queue") && NulFree("complete")
  {
  }

  predicate ValidKey(operation: string, scope: Scope, id: string) {
    NulFree(operation) && IsId(scope.tenant) && IsId(scope.user) && IsOperationId(id)
  }

  lemma SameKey(op1: string, s1: Scope, id1: string, op2: string, s2: Scope, id2: string)
    requires ValidKey(op1, s1, id1) && ValidKey(op2, s2, id2) && CacheKey(op1, s1, id1) == CacheKey(op2, s2, id2)
    ensures op1 == op2 && s1 == s2 && id1 == id2
  {
    hide IsId, IsOperationId, Join;
    IdNulFree(s1.tenant); IdNulFree(s1.user); IdNulFree(id1);
    IdNulFree(s2.tenant); IdNulFree(s2.user); IdNulFree(id2);
    var p, q := [op1, s1.tenant, s1.user, id1], [op2, s2.tenant, s2.user, id2];
    JoinInjective(p, q);
    assert p[0] == q[0] && p[1] == q[1] && p[2] == q[2] && p[3] == q[3];
  }

  lemma KeyFacts(call: Call)
    requires WellFormed(call) && KeyOf(call).Some?
    ensures ValidKey(Operation(call), call.scope, IdOf(call))
    ensures KeyOf(call) == Some(CacheKey(Operation(call), call.scope, IdOf(call)))
  {
    hide IsId, IsOperationId, CacheKey, NulFree;
    OperationsDiffer();
  }

  /** Keys of different operations, accounts or ids never collide. */
  lemma KeysNeverCollide(a: Call, b: Call)
    requires WellFormed(a) && WellFormed(b) && KeyOf(a).Some? && KeyOf(a) == KeyOf(b)
    ensures SameRequest(a, b)
  {
    hide WellFormed, ValidKey, CacheKey;
    KeyFacts(a);
    KeyFacts(b);
    SameKey(Operation(a), a.scope, IdOf(a), Operation(b), b.scope, IdOf(b));
    OperationsDiffer();
  }

  // ------------------------------------------------------ cached results stay

  /** A change writes only under a key that was free. */
  lemma ChangeKeyIsFree(s: Store, call: Call)
    requires Decide(s, call).Change?
    ensures Decide(s, call).key == KeyOf(call) && WellFormed(call)
    ensures KeyOf(call).Some? ==> KeyOf(call).value !in s.results
  {
    hide WellFormed, CacheKey, NormalPlan, AllDone;
  }

  lemma ApplyExtends(s: Store, call: Call)
    ensures Extends(s.results, Apply(s, call).store.results)
  {
    hide Decide, KeyOf, WellFormed;
    if Decide(s, call).Change? { ChangeKeyIsFree(s, call); }
  }

  lemma {:induction false} RunExtends(s: Store, calls: seq<Call>)
    ensures Extends(s.results, Run(s, calls).results)
    decreases |calls|
  {
    hide Apply;
    if calls != [] {
      ApplyExtends(s, calls[0]);
      RunExtends(Apply(s, calls[0]).store, calls[1..]);
    }
  }

  lemma AnsweredIsCached(s: Store, call: Call)
    requires KeyOf(call).Some? && Apply(s, call).reply.Output?
    ensures var o := Apply(s, call);
            KeyOf(call).value in o.store.results && o.store.results[KeyOf(call).value] == o.reply.result
  {
    hide WellFormed, CacheKey, NormalPlan, AllDone;
  }

  lemma CachedIsAnswered(s: Store, call: Call)
    requires WellFormed(call) && KeyOf(call).Some? && KeyOf(call).value in s.results
    ensures Apply(s, call) == Outcome(s, Output(s.results[KeyOf(call).value]))
  {
    hide WellFormed, CacheKey, NormalPlan, AllDone;
  }

  /** In every later state a request with the same key returns the first result and changes nothing. */
  lemma ReplayReturnsFirst(s: Store, call: Call, between: seq<Call>, again: Call)
    requires KeyOf(call).Some? && Apply(s, call).reply.Output? && WellFormed(again) && KeyOf(again) == KeyOf(call)
    ensures var z := Run(Apply(s, call).store, between); Apply(z, again) == Outcome(z, Apply(s, call).reply)
  {
    hide Apply, Run, WellFormed, KeyOf;
    AnsweredIsCached(s, call);
    RunExtends(Apply(s, call).store, between);
    CachedIsAnswered(Run(Apply(s, call).store, between), again);
  }

  // ------------------------------------------------------ cached completions

  /** Only purged accounts have a cached completion. */
  ghost predicate CompletionsPurged(s: Store) {
    forall scope, id :: ValidKey("complete", scope, id) && CacheKey("complete", scope, id) in s.results ==>
      Gone(s, scope)
  }

  lemma CompleteChange(s: Store, call: Call)
    requires Decide(s, call).Change? && call.Complete?
    ensures Decide(s, call).account.state == Purged
  {
    hide WellFormed, CacheKey, AllDone;
  }

  lemma ApplyKeepsCompletions(s: Store, call: Call)
    requires CompletionsPurged(s)
    ensures CompletionsPurged(Apply(s, call).store)
  {
    hide Decide, KeyOf, WellFormed, ValidKey, CacheKey, IdOf;
    var d, z := Decide(s, call), Apply(s, call).store;
    forall scope, id | ValidKey("complete", scope, id) && CacheKey("complete", scope, id) in z.results
      ensures Gone(z, scope)
    {
      if CacheKey("complete", scope, id) in s.results {
        PurgedStays(s, call, scope);
      } else {
        ChangeKeyIsFree(s, call);
        KeyFacts(call);
        SameKey("complete", scope, id, Operation(call), call.scope, IdOf(call));
        OperationsDiffer();
        CompleteChange(s, call);
      }
    }
  }

  lemma {:induction false} RunKeepsCompletions(s: Store, calls: seq<Call>)
    requires CompletionsPurged(s)
    ensures CompletionsPurged(Run(s, calls))
    decreases |calls|
  {
    hide Apply, CompletionsPurged;
    if calls != [] {
      ApplyKeepsCompletions(s, calls[0]);
      RunKeepsCompletions(Apply(s, calls[0]).store, calls[1..]);
    }
  }
}
