/**
 When a recovery code is accepted: every issued code works until it is used.
 */
module RecoveryPolicy {
  import opened Strings
  import opened Attempts
  import opened Secrets
  import opened Recovery

  lemma {:induction false} FirstUnusedExactly(c: Config, entries: seq<Entry>, code: string, from: nat)
    ensures var r := FirstUnused(c, entries, code, from);
            && (r.None? <==> forall i :: from <= i < |entries| ==>
                               entries[i].used || entries[i].digest != c.digest(entries[i].salt, code))
            && (r.Some? ==> forall i :: from <= i < r.value ==>
                              entries[i].used || entries[i].digest != c.digest(entries[i].salt, code))
    decreases |entries| - from
  {
    if from < |entries| { FirstUnusedExactly(c, entries, code, from + 1); }
  }

  /** An unused entry whose digest is that of the code. */
  predicate Opens(c: Config, e: Entry, code: string) { !e.used && e.digest == c.digest(e.salt, code) }

  /** The factor is asked within its scope, not revoked, not locked, and admitted. */
  predicate Considered(s: State, call: Call)
    requires call.Consume?
  {
    && call.id in s.factors && s.factors[call.id].tenant == call.tenant && s.factors[call.id].user == call.user
    && !s.factors[call.id].revoked && (call.id in s.attempts ==> s.attempts[call.id].lockedUntil <= call.now)
    && call.admitted
  }

  /** A code is accepted if and only if it opens an unused entry; the first such entry, and no other, is used up. */
  lemma ConsumeSucceedsExactly(c: Config, s: State, call: Call)
    requires call.Consume?
    ensures var o := Apply(c, s, call);
            && (o.verdict.Recovered? <==>
                  && Considered(s, call) && NormalizeCode(call.code).Some?
                  && exists i :: 0 <= i < |s.factors[call.id].entries|
                                 && Opens(c, s.factors[call.id].entries[i], NormalizeCode(call.code).value))
            && (o.verdict.Recovered? ==>
                  && var before := s.factors[call.id].entries;
                  && var code := NormalizeCode(call.code).value;
                  && o.state.attempts == s.attempts - {call.id}
                  && exists i :: 0 <= i < |before| && Opens(c, before[i], code)
                                 && (forall j :: 0 <= j < i ==> !Opens(c, before[j], code))
                                 && o.state.factors == s.factors[call.id := s.factors[call.id].(entries :=
                                                         before[i := before[i].(used := true)])])
  {
    hide NormalizeCode, FirstUnused, Failed;
    if Considered(s, call) && NormalizeCode(call.code).Some? {
      var entries, code := s.factors[call.id].entries, NormalizeCode(call.code).value;
      FirstUnusedExactly(c, entries, code, 0);
      var r := FirstUnused(c, entries, code, 0);
      if r.Some? { assert Opens(c, entries[r.value], code); }
    }
  }

  // ------------------------------------------------------ issued codes

  /** The entry at `i` still stands for the issued code. */
  ghost predicate Stands(c: Config, s: State, id: string, i: nat, issue: Issue) {
    && id in s.factors && i < |s.factors[id].entries|
    && s.factors[id].entries[i].salt == issue.salt
    && s.factors[id].entries[i].digest == c.digest(issue.salt, Plain(issue.octets))
  }

  lemma StandsOn(c: Config, s: State, call: Call, id: string, i: nat, issue: Issue)
    requires Stands(c, s, id, i, issue)
    ensures Stands(c, Apply(c, s, call).state, id, i, issue)
  {
    hide NormalizeCode, FirstUnused, Failed, Plain;
  }

  lemma {:induction false} StandsThroughout(c: Config, s: State, calls: seq<Call>, id: string, i: nat, issue: Issue)
    requires Stands(c, s, id, i, issue)
    ensures Stands(c, Final(c, s, calls), id, i, issue)
    decreases |calls|
  {
    hide Apply, Stands;
    if calls != [] {
      StandsOn(c, s, calls[0], id, i, issue);
      StandsThroughout(c, Apply(c, s, calls[0]).state, calls[1..], id, i, issue);
    }
  }

  /**
   Every code that was issued, typed as printed, is accepted as long as its entry
   is unused, however many other codes were used or mistyped in between.
   */
  lemma IssuedCodeWorksUntilUsed(c: Config, s: State, enroll: Call, between: seq<Call>, i: nat, consume: Call)
    requires enroll.Enroll? && enroll.id !in s.factors
    requires i < |enroll.issues| && |enroll.issues[i].octets| == RECOVERY_CODE_BYTES
    requires consume.Consume? && consume.id == enroll.id
    requires consume.code == Dashed(Plain(enroll.issues[i].octets))
    ensures var z := Final(c, Apply(c, s, enroll).state, between);
            && enroll.id in z.factors && i < |z.factors[enroll.id].entries|
            && (Considered(z, consume) && !z.factors[enroll.id].entries[i].used ==>
                  Apply(c, z, consume).verdict.Recovered?)
  {
    hide Apply, Final, Plain, Dashed, NormalizeCode;
    var issue := enroll.issues[i];
    EnrollStands(c, s, enroll, i);
    StandsThroughout(c, Apply(c, s, enroll).state, between, enroll.id, i, issue);
    var z := Final(c, Apply(c, s, enroll).state, between);
    GeneratedCodeNormalizes(issue.octets);
    if Considered(z, consume) && !z.factors[enroll.id].entries[i].used {
      assert Opens(c, z.factors[enroll.id].entries[i], Plain(issue.octets));
      ConsumeSucceedsExactly(c, z, consume);
    }
  }

  lemma EnrollStands(c: Config, s: State, enroll: Call, i: nat)
    requires enroll.Enroll? && enroll.id !in s.factors && i < |enroll.issues|
    ensures Stands(c, Apply(c, s, enroll).state, enroll.id, i, enroll.issues[i])
    ensures var o := Apply(c, s, enroll);
            && o.verdict.Done?
            && o.state.factors[enroll.id].tenant == enroll.tenant && o.state.factors[enroll.id].user == enroll.user
            && !o.state.factors[enroll.id].revoked && |o.state.factors[enroll.id].entries| == |enroll.issues|
            && !o.state.factors[enroll.id].entries[i].used
  {
    hide Plain;
  }

  /** Only the factor's own user and tenant, with authorization, can revoke it. */
  lemma RevokesExactly(c: Config, s: State, call: Call)
    requires call.Revoke?
    ensures var o := Apply(c, s, call);
            && (o.verdict.Done? <==>
                  && call.id in s.factors && s.factors[call.id].tenant == call.tenant
                  && s.factors[call.id].user == call.user && call.authorized)
            && (o.verdict.Done? ==>
                  && o.state.factors == s.factors[call.id := s.factors[call.id].(revoked := true)]
                  && o.state.attempts == s.attempts - {call.id})
            && (!o.verdict.Done? ==> o.state == s)
  {
  }
}
