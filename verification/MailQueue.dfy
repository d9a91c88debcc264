/**
 The outgoing mail queue: claiming, deferring with exponential backoff, and
 completing an entry.
 */
module MailQueue {
  import opened Radix
  import opened Dates

  datatype QueueState = Queued | Delivering | Deferred | Delivered | Bounced | Quarantined

  datatype Entry = Entry(
    tenant: string, sender: string, recipients: seq<string>,
    state: QueueState, attempts: nat, nextAttemptAt: int, reason: string)

  datatype Config = Config(maxAttempts: nat, retryBaseMs: nat)

  predicate ValidConfig(c: Config) { 1 <= c.maxAttempts <= 100 && c.retryBaseMs >= 1000 }

  predicate Claimable(e: Entry) { e.state.Queued? || e.state.Deferred? }

  predicate Terminal(e: Entry) { e.state.Delivered? || e.state.Bounced? || e.state.Quarantined? }

  datatype Reply = Done(entry: Entry) | NotFound | AccessDenied | InvalidState | InvalidInput | InvalidDate

  function Claimed(e: Entry): (r: Entry) { e.(state := Delivering, attempts := e.attempts + 1) }

  /** The backoff: doubled with every attempt after the first. */
  function RetryAt(c: Config, e: Entry, now: int): (t: int) {
    now + c.retryBaseMs * Pow2(if e.attempts == 0 then 0 else e.attempts - 1)
  }

  /** State and reason are stored first; a retry time that is no date is then thrown, not stored. */
  function DeferredEntry(c: Config, e: Entry, now: int, reason: string): (r: Entry) {
    var exhausted := e.attempts >= c.maxAttempts;
    var stored := e.(state := if exhausted then Bounced else Deferred,
      reason := if exhausted then "retry_exhausted" else reason);
    if RetryAt(c, e, now) <= MAX_DATE then stored.(nextAttemptAt := RetryAt(c, e, now)) else stored
  }

  function CompletedEntry(e: Entry, state: QueueState, reason: string): (r: Entry) {
    e.(state := state, reason := reason)
  }

  /** `x` occurs before any occurrence of `y`. */
  ghost predicate MentionedFirst(list: seq<string>, x: string, y: string) {
    exists p :: 0 <= p < |list| && list[p] == x && forall q :: 0 <= q <= p ==> list[q] != y
  }

  class Queue {
    const config: Config
    var entries: map<string, Entry>

    constructor (config: Config)
      requires ValidConfig(config)
      ensures this.config == config && entries == map[]
    {
      this.config := config;
      entries := map[];
    }

    /** The recipients without repetitions, in order of first mention. */
    method Distinct(recipients: seq<string>) returns (r: seq<string>)
      ensures forall x :: x in r <==> x in recipients
      ensures forall i, j :: 0 <= i < j < |r| ==> r[i] != r[j]
      ensures forall i, j :: 0 <= i < j < |r| ==> MentionedFirst(recipients, r[i], r[j])
    {
      r := [];
      for i := 0 to |recipients|
        invariant forall x :: x in r <==> x in recipients[..i]
        invariant forall k, j :: 0 <= k < j < |r| ==> r[k] != r[j]
        invariant forall k, j :: 0 <= k < j < |r| ==> MentionedFirst(recipients, r[k], r[j])
      {
        assert recipients[..i + 1] == recipients[..i] + [recipients[i]];
        if recipients[i] !in r {
          forall k | 0 <= k < |r| ensures MentionedFirst(recipients, r[k], recipients[i]) {
            assert r[k] in recipients[..i];
            var p :| 0 <= p < i && recipients[..i][p] == r[k];
            assert forall q :: 0 <= q <= p ==> recipients[q] in recipients[..i];
          }
          r := r + [recipients[i]];
        }
      }
      assert recipients[..|recipients|] == recipients;
    }

    method Enqueue(id: string, tenant: string, sender: string, recipients: seq<string>, now: int) returns (reply: Reply)
      modifies this
      ensures sender == "" || recipients == [] ==> reply == InvalidInput && entries == old(entries)
      ensures sender != "" && recipients != [] ==> reply.Done? && entries == old(entries)[id := reply.entry]
      ensures reply.Done? ==>
                && reply.entry.state == Queued && reply.entry.attempts == 0 && reply.entry.nextAttemptAt == now
                && reply.entry.tenant == tenant && reply.entry.sender == sender && reply.entry.reason == "accepted"
                && reply.entry.recipients != [] && forall x :: x in reply.entry.recipients <==> x in recipients
    {
      if sender == "" || recipients == [] { return InvalidInput; }
      var unique := Distinct(recipients);
      assert recipients[0] in unique;
      var entry := Entry(tenant, sender, unique, Queued, 0, now, "accepted");
      entries := entries[id := entry];
      reply := Done(entry);
    }

    method Claim(id: string, tenant: string) returns (reply: Reply)
      modifies this
      ensures reply.Done? <==> id in old(entries) && old(entries)[id].tenant == tenant && Claimable(old(entries)[id])
      ensures reply.Done? ==> reply.entry == Claimed(old(entries)[id]) && entries == old(entries)[id := reply.entry]
      ensures !reply.Done? ==>
                && entries == old(entries)
                && reply == if id !in entries then NotFound
                            else if entries[id].tenant != tenant then AccessDenied else InvalidState
    {
      if id !in entries { return NotFound; }
      var entry := entries[id];
      if entry.tenant != tenant { return AccessDenied; }
      if !entry.state.Queued? && !entry.state.Deferred? { return InvalidState; }
      entry := entry.(state := Delivering);
      entry := entry.(attempts := entry.attempts + 1);
      entries := entries[id := entry];
      reply := Done(entry);
    }

    method Defer(id: string, tenant: string, now: int, reason: string) returns (reply: Reply)
      modifies this
      ensures id !in old(entries) ==> reply == NotFound
      ensures id in old(entries) && old(entries)[id].tenant != tenant ==> reply == AccessDenied
      ensures id in old(entries) && old(entries)[id].tenant == tenant && Terminal(old(entries)[id]) ==>
                reply == InvalidState
      ensures id in old(entries) && old(entries)[id].tenant == tenant && !Terminal(old(entries)[id]) ==>
                && entries == old(entries)[id := DeferredEntry(config, old(entries)[id], now, reason)]
                && reply == if RetryAt(config, old(entries)[id], now) <= MAX_DATE then Done(entries[id])
                            else InvalidDate
      ensures reply.NotFound? || reply.AccessDenied? || reply.InvalidState? ==> entries == old(entries)
    {
      if id !in entries { return NotFound; }
      var entry := entries[id];
      if entry.tenant != tenant { return AccessDenied; }
      if entry.state.Delivered? || entry.state.Bounced? || entry.state.Quarantined? { return InvalidState; }
      var at := RetryAt(config, entry, now);
      entry := entry.(state := if entry.attempts >= config.maxAttempts then Bounced else Deferred);
      entry := entry.(reason := if entry.state.Bounced? then "retry_exhausted" else reason);
      entries := entries[id := entry];
      if at > MAX_DATE { return InvalidDate; }
      entries := entries[id := entry.(nextAttemptAt := at)];
      reply := Done(entries[id]);
    }

    method Complete(id: string, tenant: string, state: QueueState, reason: string) returns (reply: Reply)
      modifies this
      ensures reply.Done?
              <==> && id in old(entries) && old(entries)[id].tenant == tenant
                   && (state.Delivered? || state.Bounced? || state.Quarantined?)
      ensures reply.Done? ==>
                && reply.entry == CompletedEntry(old(entries)[id], state, reason)
                && entries == old(entries)[id := reply.entry]
      ensures !reply.Done? ==>
                && entries == old(entries)
                && reply == if id !in entries then NotFound
                            else if entries[id].tenant != tenant then AccessDenied else InvalidState
    {
      if id !in entries { return NotFound; }
      if entries[id].tenant != tenant { return AccessDenied; }
      if !(state.Delivered? || state.Bounced? || state.Quarantined?) { return InvalidState; }
      entries := entries[id := entries[id].(state := state, reason := reason)];
      reply := Done(entries[id]);
    }
  }
}
