/**
 The metrics of the retention store against its history: every count is the number
 of times the thing happened, and every candidate of a batch is counted once more,
 as purged or as skipped.
 */
module RetentionMetrics {
  import opened Strings
  import opened Dates
  import opened CacheKeys
  import opened Retention
  import opened RetentionDrain

  // ------------------------------------------------------ counting

  datatype Counts = Counts(trashed: nat, restored: nat, held: nat, freed: nat, purged: nat)

  function Add(n: Counts, f: Fact): (r: Counts) {
    match f
    case TrashedFact(_, _) => n.(trashed := n.trashed + 1)
    case RestoredFact(_) => n.(restored := n.restored + 1)
    case HeldFact(_, _, _) => n.(held := n.held + 1)
    case FreedFact(_, _) => n.(freed := n.freed + 1)
    case PurgedFact(_, _) => n.(purged := n.purged + 1)
  }

  function Count(h: seq<Fact>): (n: Counts) {
    if h == [] then Counts(0, 0, 0, 0, 0) else Add(Count(h[..|h| - 1]), h[|h| - 1])
  }

  function Failed(events: seq<Event>): (n: nat) {
    if events == [] then 0
    else Failed(events[..|events| - 1]) + if events[|events| - 1].PurgeFailed? then 1 else 0
  }

  lemma CountSnoc(h: seq<Fact>, f: Fact)
    ensures Count(h + [f]) == Add(Count(h), f)
  {
    assert (h + [f])[..|h|] == h;
  }

  lemma FailedSnoc(events: seq<Event>, e: Event)
    ensures Failed(events + [e]) == Failed(events) + if e.PurgeFailed? then 1 else 0
  {
    assert (events + [e])[..|events|] == events;
  }

  predicate Counted(s: Store) {
    var n, m := Count(s.history), s.metrics;
    && m.trashed == n.trashed && m.restored == n.restored && m.purged == n.purged
    && m.held == m.holdsAdded == n.held && m.holdsReleased == n.freed && m.failures == Failed(s.events)
  }

  /** Candidates that are neither purged nor skipped. */
  function Open(s: Store): (n: int) { s.metrics.candidates - s.metrics.purged - s.metrics.skipped }

  /** Every batch, at any depth, begins early enough for its leases to have an end. */
  predicate OnTime(calls: seq<Call>)
    decreases calls
  {
    calls != [] ==>
      && (calls[0].Purge? ==>
            calls[0].batch.startedAt + 30_000 <= 8_640_000_000_000_000 && ScriptOnTime(calls[0].script))
      && OnTime(calls[1..])
  }

  predicate ScriptOnTime(script: seq<Callback>)
    decreases script
  {
    script != [] ==> assert script[0] in script; OnTime(script[0].calls) && ScriptOnTime(script[1..])
  }

  // ------------------------------------------------------ the calls

  /** One more fact and at most one audit entry that is no failure. */
  lemma ItemCallCounts(c: Config, s: Store, call: Call)
    requires !call.Purge? && Counted(s)
    ensures var z := Apply(c, s, call).store; Counted(z) && Open(z) == Open(s)
  {
    hide Count, Failed, Apply;
    match call {
      case Mark(_, _, _, _, _) => MarkCounts(c, s, call);
      case Restore(_, _, _, _) => RestoreCounts(c, s, call);
      case AddHold(_, _, _, _, _) => HoldCounts(c, s, call);
      case ReleaseHold(_, _, _) => HoldCounts(c, s, call);
      case AcquireLock(_, _, _, _, _) => LockCounts(c, s, call);
      case ReleaseLock(_, _, _) => LockCounts(c, s, call);
    }
  }

  lemma MarkCounts(c: Config, s: Store, call: Call)
    requires call.Mark? && Counted(s)
    ensures var z := Apply(c, s, call).store; Counted(z) && Open(z) == Open(s)
  {
    hide Count, Failed, WellFormed, MarkKey;
    var g := if call.scope in s.current then s.current[call.scope] + 1 else 1;
    var until := call.deletedAt + c.days * DAY_MS;
    CountSnoc(s.history, TrashedFact(Ref(call.scope, g), until));
    FailedSnoc(s.events, ItemTrashed(Ref(call.scope, g), until, call.deletedAt, call.id));
  }

  lemma RestoreCounts(c: Config, s: Store, call: Call)
    requires call.Restore? && Counted(s)
    ensures var z := Apply(c, s, call).store; Counted(z) && Open(z) == Open(s)
  {
    hide Count, Failed, WellFormed, RestoreKey;
    if call.scope in s.current {
      var ref := Ref(call.scope, s.current[call.scope]);
      CountSnoc(s.history, RestoredFact(ref));
      FailedSnoc(s.events, ItemRestored(ref, call.restoredAt, call.id));
    }
  }

  lemma HoldCounts(c: Config, s: Store, call: Call)
    requires (call.AddHold? || call.ReleaseHold?) && Counted(s)
    ensures var z := Apply(c, s, call).store; Counted(z) && Open(z) == Open(s)
  {
    hide Count, Failed, WellFormed;
    if call.AddHold? {
      CountSnoc(s.history, HeldFact(call.scope, call.hold, call.expires));
      FailedSnoc(s.events, HoldAdded(call.scope, call.hold, call.expires));
    } else {
      CountSnoc(s.history, FreedFact(call.scope, call.hold));
      FailedSnoc(s.events, HoldReleased(call.scope, call.hold));
    }
  }

  lemma LockCounts(c: Config, s: Store, call: Call)
    requires (call.AcquireLock? || call.ReleaseLock?) && Counted(s)
    ensures var z := Apply(c, s, call).store; Counted(z) && Open(z) == Open(s)
  {
    hide Count, Failed, WellFormed, LockedAt;
  }

  /** A settled candidate is one that is no longer open, or one more on the list of skipped items. */
  lemma SettleCounts(b: Batch, ref: Ref, error: Option<string>, p: Progress)
    requires Counted(p.store)
    ensures var q := Settle(b, ref, error, p);
            && Counted(q.store)
            && Open(q.store) - |q.report.skipped| == Open(p.store) - |p.report.skipped| - 1
  {
    hide Count, Failed, Due;
    if error.Some? {
      FailedSnoc(p.store.events, PurgeFailed(ref, b.startedAt, b.id, error.value));
    } else {
      CountSnoc(p.store.history, PurgedFact(ref, b.startedAt));
      FailedSnoc(p.store.events, PurgeDone(ref, b.startedAt, b.id));
    }
  }

  lemma LeasedCounts(s: Store, b: Batch, ref: Ref)
    requires ref in s.items && Counted(s)
    ensures Counted(Leased(s, b, ref)) && Open(Leased(s, b, ref)) == Open(s)
  {
  }

  lemma {:induction false} LoopCounts(c: Config, b: Batch, p: Progress, candidates: seq<Scope>, script: seq<Callback>)
    requires Counted(p.store) && ScriptOnTime(script)
    ensures var q := Loop(c, b, p, candidates, script);
            && Counted(q.store)
            && Open(q.store) - |q.report.skipped| == Open(p.store) - |p.report.skipped| - |candidates|
    decreases script, |candidates|
  {
    hide Eligible, Settle, Leased, Counted, Open;
    if candidates != [] {
      if !Eligible(p.store, candidates[0], b.startedAt) {
        LoopCounts(c, b, p.(report := Skipping(p.report, candidates[0].item)), candidates[1..], script);
      } else {
        EligibleRef(p.store, candidates[0], b.startedAt);
        var ref := Ref(candidates[0], p.store.current[candidates[0]]);
        var leased := Leased(p.store, b, ref);
        LeasedCounts(p.store, b, ref);
        if script == [] {
          SettleCounts(b, ref, None, p.(store := leased));
          LoopCounts(c, b, Settle(b, ref, None, p.(store := leased)), candidates[1..], []);
        } else {
          assert script[0] in script;
          RunCounts(c, leased, script[0].calls);
          var q := p.(store := RunCalls(c, leased, script[0].calls));
          SettleCounts(b, ref, script[0].error, q);
          LoopCounts(c, b, Settle(b, ref, script[0].error, q), candidates[1..], script[1..]);
        }
      }
    }
  }

  lemma BegunCounts(s: Store, n: nat)
    requires Counted(s)
    ensures Counted(Begun(s, n)) && Open(Begun(s, n)) == Open(s) + n
  {
  }

  lemma FinishedCounts(c: Config, b: Batch, completedAt: int, scanned: nat, p: Progress)
    requires Counted(p.store)
    ensures var z := Finished(c, b, completedAt, scanned, p).store;
            Counted(z) && Open(z) == Open(p.store) - |p.report.skipped|
  {
    hide Count, Failed, Candidates, PurgeKey;
  }

  lemma {:induction false} ApplyCounts(c: Config, s: Store, call: Call)
    requires Counted(s) && OnTime([call])
    ensures var z := Apply(c, s, call).store; Counted(z) && Open(z) == Open(s)
    decreases call
  {
    hide Candidates, Loop, PurgeKey, WellFormed, ApplyMark, ApplyRestore, ApplyAddHold, ApplyReleaseHold,
      ApplyAcquireLock, ApplyReleaseLock, Counted, Open, Begun, Finished;
    match call {
      case Purge(b, completedAt, script) =>
        if WellFormed(c, call) {
          var candidates := Candidates(c, s, b.tenant, b.user, b.startedAt, b.limit);
          var begun := Begun(s, |candidates|);
          BegunCounts(s, |candidates|);
          LoopCounts(c, b, Progress(begun, NOTHING), candidates, script);
          FinishedCounts(c, b, completedAt, |candidates|, Loop(c, b, Progress(begun, NOTHING), candidates, script));
          assert Apply(c, s, call) == ApplyPurge(c, s, b, completedAt, script);
        }
      case _ => ItemCallCounts(c, s, call);
    }
  }

  lemma {:induction false} RunCounts(c: Config, s: Store, calls: seq<Call>)
    requires Counted(s) && OnTime(calls)
    ensures var z := RunCalls(c, s, calls); Counted(z) && Open(z) == Open(s)
    decreases calls
  {
    hide Apply, Counted, Open;
    if calls != [] {
      assert OnTime([calls[0]]) by { assert [calls[0]][1..] == []; }
      ApplyCounts(c, s, calls[0]);
      RunCounts(c, Apply(c, s, calls[0]).store, calls[1..]);
    }
  }

  lemma NoneCounted(s: Store)
    requires s.history == [] && s.events == [] && s.metrics == Metrics(0, 0, 0, 0, 0, 0, 0, 0, 0, 0, 0)
    ensures Counted(s) && Open(s) == 0
  {
  }

  lemma AllSettled(s: Store)
    requires Open(s) == 0
    ensures s.metrics.candidates == s.metrics.purged + s.metrics.skipped
  {
  }

  /**
   On every run, callbacks included, each metric is the number of times its thing
   happened, and all candidates of all batches are purged or skipped.
   */
  lemma MetricsAreExact(c: Config, calls: seq<Call>)
    requires OnTime(calls)
    ensures var s := RunCalls(c, EMPTY, calls);
            Counted(s) && s.metrics.candidates == s.metrics.purged + s.metrics.skipped
  {
    hide RunCalls, OnTime, Counted, Open;
    NoneCounted(EMPTY);
    RunCounts(c, EMPTY, calls);
    AllSettled(RunCalls(c, EMPTY, calls));
  }
}
