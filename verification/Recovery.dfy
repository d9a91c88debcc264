/**
 The recovery-code manager: one-time codes stored as salted digests, over an
 uninterpreted hash.
 */
module Recovery {
  import opened Strings
  import opened Attempts
  import opened BitGroups
  import opened Secrets

  datatype Entry = Entry(salt: string, digest: string, used: bool)

  datatype Record = Record(tenant: string, user: string, revoked: bool, entries: seq<Entry>)

  datatype Config = Config(limits: Limits, digest: (string, string) -> string)

  datatype State = State(factors: map<string, Record>, attempts: map<string, Attempt>)

  datatype Reason =
    | FactorNotFound | ScopeViolation | NotAuthorized | FactorExists | FactorRevoked | InvalidCode | RateLimitedOrLocked

  datatype Verdict = Recovered | Done | Refusal(reason: Reason)

  /** One code to issue: its ten random octets and its salt. */
  datatype Issue = Issue(octets: seq<byte>, salt: string)

  datatype Call =
    | Enroll(id: string, tenant: string, user: string, issues: seq<Issue>)
    | Consume(id: string, tenant: string, user: string, code: string, now: nat, admitted: bool)
    | Revoke(id: string, tenant: string, user: string, authorized: bool, now: nat)

  datatype Outcome = Outcome(state: State, verdict: Verdict, event: Event)

  /** The first unused entry that the code opens. */
  function FirstUnused(c: Config, entries: seq<Entry>, code: string, from: nat): (r: Option<nat>)
    ensures r.Some? ==> from <= r.value < |entries| && !entries[r.value].used
    ensures r.Some? ==> entries[r.value].digest == c.digest(entries[r.value].salt, code)
    decreases |entries| - from
  {
    if from >= |entries| then None
    else if !entries[from].used && entries[from].digest == c.digest(entries[from].salt, code) then Some(from)
    else FirstUnused(c, entries, code, from + 1)
  }

  function Entries(c: Config, issues: seq<Issue>): (r: seq<Entry>) {
    seq(|issues|, i requires 0 <= i < |issues| =>
      Entry(issues[i].salt, c.digest(issues[i].salt, Plain(issues[i].octets)), false))
  }

  function Unchanged(s: State, reason: Reason): (o: Outcome) { Outcome(s, Refusal(reason), Silent) }

  predicate InScope(s: State, call: Call)
    requires call.id in s.factors
  {
    s.factors[call.id].tenant == call.tenant && s.factors[call.id].user == call.user
  }

  function Counted(s: State, id: string, a: Attempt): (t: State) { s.(attempts := s.attempts[id := a]) }

  function Apply(c: Config, s: State, call: Call): (o: Outcome) {
    match call
    case Enroll(id, tenant, user, issues) =>
      if id in s.factors then Unchanged(s, FactorExists)
      else Outcome(State(s.factors[id := Record(tenant, user, false, Entries(c, issues))], s.attempts), Done, Silent)
    case Consume(id, _, _, code, now, admitted) =>
      if id !in s.factors then Unchanged(s, FactorNotFound)
      else if !InScope(s, call) then Unchanged(s, ScopeViolation)
      else if s.factors[id].revoked then Unchanged(s, FactorRevoked)
      else
        var a := AttemptOf(s.attempts, id);
        if Locked(a, now) then
          Outcome(Counted(s, id, Failed(c.limits, a, now)), Refusal(RateLimitedOrLocked), Refused)
        else
          var failed := Counted(s, id, Failed(c.limits, Cleared(a, now), now));
          if !admitted then Outcome(failed, Refusal(RateLimitedOrLocked), Refused)
          else (match NormalizeCode(code)
            case None => Outcome(failed, Refusal(InvalidCode), Uncompared)
            case Some(canonical) =>
              var rec := s.factors[id];
              match FirstUnused(c, rec.entries, canonical, 0)
              case None => Outcome(failed, Refusal(InvalidCode), Mismatch)
              case Some(i) =>
                var entries := rec.entries[i := rec.entries[i].(used := true)];
                Outcome(State(s.factors[id := rec.(entries := entries)], s.attempts - {id}), Recovered, Match))
    case Revoke(id, _, _, authorized, now) =>
      if !authorized then Unchanged(s, NotAuthorized)
      else if id !in s.factors || !InScope(s, call) then Unchanged(s, FactorNotFound)
      else Outcome(State(s.factors[id := s.factors[id].(revoked := true)], s.attempts - {id}), Done, Dropped)
  }

  // ------------------------------------------------------ the manager object

  class Manager {
    const config: Config
    var factors: map<string, Record>
    var attempts: map<string, Attempt>

    constructor (config: Config)
      ensures this.config == config && factors == map[] && attempts == map[]
    {
      this.config := config;
      factors, attempts := map[], map[];
    }

    function Abs(): (s: State) reads this { State(factors, attempts) }

    method Failure(id: string, now: nat)
      modifies this`attempts
      ensures attempts == old(attempts)[id := Failed(config.limits, old(AttemptOf(attempts, id)), now)]
    {
      var previous := if id in attempts then attempts[id] else Attempt(0, 0);
      var failed := previous.failed + 1;
      var lockedUntil := if failed >= config.limits.maxFailures then now + config.limits.lockoutMs
        else previous.lockedUntil;
      attempts := attempts[id := Attempt(failed, lockedUntil)];
    }

    method Allowed(id: string, now: nat, admitted: bool) returns (allowed: bool)
      modifies this`attempts
      ensures var a := old(AttemptOf(attempts, id));
              && allowed == (!Locked(a, now) && admitted)
              && attempts - {id} == old(attempts) - {id}
              && AttemptOf(attempts, id) == if Locked(a, now) then a else Cleared(a, now)
    {
      if id in attempts && attempts[id].lockedUntil > now { return false; }
      if id in attempts && attempts[id].lockedUntil != 0 && attempts[id].lockedUntil <= now {
        attempts := attempts - {id};
      }
      allowed := admitted;
    }

    /** The loop of `find` over the stored entries. */
    method FindUnused(entries: seq<Entry>, code: string) returns (r: Option<nat>)
      ensures r == FirstUnused(config, entries, code, 0)
    {
      var i: nat := 0;
      while i < |entries|
        invariant i <= |entries|
        invariant FirstUnused(config, entries, code, 0) == FirstUnused(config, entries, code, i)
      {
        if !entries[i].used && entries[i].digest == config.digest(entries[i].salt, code) { return Some(i); }
        i := i + 1;
      }
      r := None;
    }

    method ConsumeCode(id: string, tenant: string, user: string, code: string, now: nat, admitted: bool)
      returns (verdict: Verdict)
      modifies this
      ensures var o := Apply(config, old(Abs()), Consume(id, tenant, user, code, now, admitted));
              verdict == o.verdict && Abs() == o.state
    {
      hide FirstUnused, NormalizeCode, Failed, Cleared, Locked;
      if id !in factors { return Refusal(FactorNotFound); }
      var rec := factors[id];
      if rec.tenant != tenant || rec.user != user { return Refusal(ScopeViolation); }
      if rec.revoked { return Refusal(FactorRevoked); }
      ghost var before := attempts;
      var allowed := Allowed(id, now, admitted);
      SameBut(before, attempts, id, Failed(config.limits, AttemptOf(attempts, id), now));
      if !allowed {
        Failure(id, now);
        return Refusal(RateLimitedOrLocked);
      }
      var canonical := NormalizeCode(code);
      if canonical.None? {
        Failure(id, now);
        return Refusal(InvalidCode);
      }
      var found := FindUnused(rec.entries, canonical.value);
      if found.None? {
        Failure(id, now);
        return Refusal(InvalidCode);
      }
      attempts := attempts - {id};
      factors := factors[id := rec.(entries := rec.entries[found.value := rec.entries[found.value].(used := true)])];
      verdict := Recovered;
    }

    /** The issuing loop of `enroll`. */
    method EnrollCodes(id: string, tenant: string, user: string, issues: seq<Issue>) returns (verdict: Verdict)
      modifies this
      ensures var o := Apply(config, old(Abs()), Enroll(id, tenant, user, issues));
              verdict == o.verdict && Abs() == o.state
    {
      hide Plain;
      if id in factors { return Refusal(FactorExists); }
      var codes: seq<Entry> := [];
      for i := 0 to |issues|
        invariant codes == Entries(config, issues)[..i]
        invariant Abs() == old(Abs())
      {
        codes := codes + [Entry(issues[i].salt, config.digest(issues[i].salt, Plain(issues[i].octets)), false)];
      }
      EntriesLength(config, issues);
      assert codes == Entries(config, issues);
      factors := factors[id := Record(tenant, user, false, codes)];
      verdict := Done;
    }

    method RevokeFactor(id: string, tenant: string, user: string, authorized: bool, now: nat) returns (verdict: Verdict)
      modifies this
      ensures var o := Apply(config, old(Abs()), Revoke(id, tenant, user, authorized, now));
              verdict == o.verdict && Abs() == o.state
    {
      if !authorized { return Refusal(NotAuthorized); }
      if id !in factors || factors[id].tenant != tenant || factors[id].user != user { return Refusal(FactorNotFound); }
      factors := factors[id := factors[id].(revoked := true)];
      attempts := attempts - {id};
      verdict := Done;
    }
  }

  lemma SameBut(m: map<string, Attempt>, n: map<string, Attempt>, id: string, x: Attempt)
    requires m - {id} == n - {id}
    ensures m[id := x] == n[id := x]
  {
    assert forall k :: k != id ==> (k in m <==> k in m - {id}) && (k in n <==> k in n - {id});
    assert forall k :: k != id && k in m ==> m[k] == (m - {id})[k] && n[k] == (n - {id})[k];
  }

  // ------------------------------------------------------ one factor over a run

  predicate Concerns(call: Call, id: string) { call.id == id && !call.Enroll? }

  lemma CallOnFactor(c: Config, s: State, call: Call, id: string)
    ensures var o := Apply(c, s, call);
            && (!Concerns(call, id) ==> AttemptOf(o.state.attempts, id) == AttemptOf(s.attempts, id))
            && (Concerns(call, id) ==> Enabled(AttemptOf(s.attempts, id), o.event, call.now))
            && (Concerns(call, id) ==>
                  AttemptOf(o.state.attempts, id) == After(c.limits, AttemptOf(s.attempts, id), o.event, call.now))
            && (id in s.factors ==> id in o.state.factors)
            && (id in s.factors && s.factors[id].revoked ==> o.state.factors[id].revoked)
            && (id in s.factors && s.factors[id].revoked && Concerns(call, id) ==> !o.event.Mismatch?)
            && (Concerns(call, id) && o.event.Dropped? ==> id in o.state.factors && o.state.factors[id].revoked)
  {
    hide FirstUnused, NormalizeCode, Failed, Cleared, Entries;
  }

  lemma OthersUntouched(c: Config, s: State, call: Call, id: string)
    requires id != call.id
    ensures var t := Apply(c, s, call).state;
            (id in t.factors <==> id in s.factors) && (id in s.factors ==> t.factors[id] == s.factors[id])
    ensures call.id in s.factors ==> call.id in Apply(c, s, call).state.factors
  {
    hide FirstUnused, NormalizeCode, Failed, Cleared, Locked, Entries;
  }

  predicate IsRevoked(s: State, id: string) { id in s.factors && s.factors[id].revoked }

  /** A run of calls as one factor sees it. */
  function Moments(c: Config, s: State, calls: seq<Call>, id: string): (ms: seq<Moment>)
    decreases |calls|
  {
    if calls == [] then []
    else
      var o := Apply(c, s, calls[0]);
      [Moment(
         Concerns(calls[0], id), o.event, if calls[0].Enroll? then 0 else calls[0].now,
         AttemptOf(s.attempts, id), AttemptOf(o.state.attempts, id), IsRevoked(s, id), IsRevoked(o.state, id))]
      + Moments(c, o.state, calls[1..], id)
  }

  lemma {:induction false} MomentsChain(c: Config, s: State, calls: seq<Call>, id: string)
    ensures Chain(c.limits, Moments(c, s, calls, id), AttemptOf(s.attempts, id), IsRevoked(s, id))
    decreases |calls|
  {
    hide Apply, After, Enabled;
    if calls != [] {
      CallOnFactor(c, s, calls[0], id);
      MomentsChain(c, Apply(c, s, calls[0]).state, calls[1..], id);
    }
  }

  const EMPTY: State := State(map[], map[])

  /** The bound on failed comparisons holds for recovery codes as well. */
  lemma RecoveryGuessingIsBounded(c: Config, calls: seq<Call>, id: string, lo: nat)
    requires ValidLimits(c.limits)
    requires Monotone(EventsOf(Moments(c, EMPTY, calls, id)))
    requires NoMatch(EventsOf(Moments(c, EMPTY, calls, id)), lo, lo + c.limits.lockoutMs)
    ensures Mismatches(EventsOf(Moments(c, EMPTY, calls, id)), lo, lo + c.limits.lockoutMs) <= c.limits.maxFailures
  {
    hide EventsOf, Moments, Chain;
    MomentsChain(c, EMPTY, calls, id);
    ChainIsPossible(c.limits, Moments(c, EMPTY, calls, id), None, false);
    GuessingIsBounded(c.limits, EventsOf(Moments(c, EMPTY, calls, id)), lo);
  }

  // ------------------------------------------------------ each code works once

  function Used(entries: seq<Entry>): (n: nat)
    ensures n <= |entries|
  {
    if entries == [] then 0
    else Used(entries[..|entries| - 1]) + if entries[|entries| - 1].used then 1 else 0
  }

  lemma {:induction false} MarkOneUsed(entries: seq<Entry>, i: nat)
    requires i < |entries| && !entries[i].used
    ensures Used(entries[i := entries[i].(used := true)]) == Used(entries) + 1
    decreases |entries|
  {
    var marked := entries[i := entries[i].(used := true)];
    var n := |entries| - 1;
    if i < n {
      MarkOneUsed(entries[..n], i);
      assert marked[..n] == entries[..n][i := entries[i].(used := true)];
    } else {
      assert marked[..n] == entries[..n];
    }
  }

  lemma {:induction false} FreshEntriesUnused(c: Config, issues: seq<Issue>, k: nat)
    requires k <= |issues|
    ensures Used(Entries(c, issues)[..k]) == 0
    decreases k
  {
    if k > 0 {
      FreshEntriesUnused(c, issues, k - 1);
      assert Entries(c, issues)[..k][..k - 1] == Entries(c, issues)[..k - 1];
    }
  }

  function UsedOf(s: State, id: string): (n: nat) {
    if id in s.factors then Used(s.factors[id].entries) else 0
  }

  /** Successful consumptions of a factor in a run. */
  function Recoveries(c: Config, s: State, calls: seq<Call>, id: string): (n: nat)
    decreases |calls|
  {
    if calls == [] then 0
    else
      var o := Apply(c, s, calls[0]);
      (if calls[0].id == id && o.verdict.Recovered? then 1 else 0) + Recoveries(c, o.state, calls[1..], id)
  }

  lemma OneCodePerRecovery(c: Config, s: State, call: Call, id: string)
    ensures var o := Apply(c, s, call);
            UsedOf(o.state, id) == UsedOf(s, id) + if call.id == id && o.verdict.Recovered? then 1 else 0
  {
    hide FirstUnused, NormalizeCode, Failed, Cleared, Used, Entries;
    if call.id == id {
      if call.Enroll? {
        FreshEntriesUnused(c, call.issues, |call.issues|);
        assert Entries(c, call.issues)[..|Entries(c, call.issues)|] == Entries(c, call.issues);
        EntriesLength(c, call.issues);
      } else if call.Consume? && Apply(c, s, call).verdict.Recovered? {
        var i := FirstUnused(c, s.factors[id].entries, NormalizeCode(call.code).value, 0).value;
        MarkOneUsed(s.factors[id].entries, i);
      }
    }
  }

  lemma EntriesLength(c: Config, issues: seq<Issue>)
    ensures |Entries(c, issues)| == |issues|
  {
  }

  /** Every acceptance uses up exactly one entry that was unused before. */
  lemma {:induction false} UsedEntriesCountRecoveries(c: Config, s: State, calls: seq<Call>, id: string)
    ensures UsedOf(Final(c, s, calls), id) == UsedOf(s, id) + Recoveries(c, s, calls, id)
    decreases |calls|
  {
    hide Apply, UsedOf;
    if calls != [] {
      OneCodePerRecovery(c, s, calls[0], id);
      UsedEntriesCountRecoveries(c, Apply(c, s, calls[0]).state, calls[1..], id);
    }
  }

  function Final(c: Config, s: State, calls: seq<Call>): (t: State)
    decreases |calls|
  {
    if calls == [] then s else Final(c, Apply(c, s, calls[0]).state, calls[1..])
  }
}
