/**
 The in-memory quota ledger: allocations under a tenant's gross quota, and usage
 reserved and released against each allocation.
 */
module Quota {
  import opened Strings
  import opened MapSums

  /** JavaScript `Number.MAX_SAFE_INTEGER`. */
  const MAX_SAFE: int := 9_007_199_254_740_991

  predicate IsBytes(value: int) { 0 <= value <= MAX_SAFE }

  datatype Reservation = Reservation(user: string, size: nat, released: bool)

  datatype Ledger = Ledger(
    gross: nat, allocations: map<string, nat>, usage: map<string, nat>,
    sequence: nat, reservations: map<string, Reservation>)

  datatype Reason =
    | InvalidQuota | Overflow | Exceeded | Conflict | UnknownUser | BelowUsage | InvalidUsage
    | InvalidReservation | UnknownReservation

  datatype Reply = Stored | Reserved(id: string) | Rejected(overflow: bool) | Released(already: bool)
    | Refused(reason: Reason)

  datatype Outcome = Outcome(ledger: Ledger, reply: Reply)

  datatype InitialUser = InitialUser(user: string, quota: int, used: int)

  datatype Call =
    | Register(user: string, bytes: int)
    | Allocate(user: string, bytes: int)
    | Reserve(user: string, bytes: int)
    | Release(id: string)

  // ------------------------------------------------------ reservation ids

  function ReservationId(n: nat): (id: string) { "quota-" + PadStart(Decimal(n), 8) }

  /** The pattern that `release` demands of an id. */
  predicate IsReservationId(id: string) { |id| == 14 && id[..6] == "quota-" && AllDigits(id[6..]) }

  // ------------------------------------------------------ the decision

  /** What `setAllocation` decides; the database makes the same decision. */
  ghost function Decide(gross: nat, allocations: map<string, nat>, user: string, bytes: int): (reason: Option<Reason>) {
    if !IsBytes(bytes) then Some(InvalidQuota)
    else if Sum(allocations - {user}) + bytes > MAX_SAFE then Some(Overflow)
    else if Sum(allocations - {user}) + bytes > gross then Some(Exceeded)
    else None
  }

  ghost function SetAllocation(l: Ledger, user: string, bytes: int): (o: Outcome) {
    match Decide(l.gross, l.allocations, user, bytes)
    case Some(reason) => Outcome(l, Refused(reason))
    case None =>
      Outcome(l.(allocations := l.allocations[user := bytes],
        usage := if user in l.usage then l.usage else l.usage[user := 0]), Stored)
  }

  function UsageOf(l: Ledger, user: string): (n: nat) { if user in l.usage then l.usage[user] else 0 }

  function AllocationOf(l: Ledger, user: string): (n: nat) { if user in l.allocations then l.allocations[user] else 0 }

  /** `reserve`, for a known user and a valid size. */
  function ReserveKnown(l: Ledger, user: string, size: nat): (o: Outcome) {
    var next := UsageOf(l, user) + size;
    if size > AllocationOf(l, user) - UsageOf(l, user) then Outcome(l, Rejected(false))
    else if next > MAX_SAFE then Outcome(l, Rejected(true))
    else
      var id := ReservationId(l.sequence + 1);
      Outcome(
        l.(usage := l.usage[user := next], sequence := l.sequence + 1,
           reservations := l.reservations[id := Reservation(user, size, false)]),
        Reserved(id))
  }

  function Clamp(n: int): (r: nat) { if n < 0 then 0 else n }

  /** `release`, of a reservation that exists. */
  function ReleaseKnown(l: Ledger, id: string): (o: Outcome)
    requires id in l.reservations
  {
    var r := l.reservations[id];
    if r.released then Outcome(l, Released(true))
    else
      Outcome(
        l.(usage := l.usage[r.user := Clamp(UsageOf(l, r.user) - r.size)],
           reservations := l.reservations[id := r.(released := true)]),
        Released(false))
  }

  ghost function Apply(l: Ledger, call: Call): (o: Outcome) {
    match call
    case Register(user, bytes) =>
      if user in l.allocations then Outcome(l, Refused(Conflict)) else SetAllocation(l, user, bytes)
    case Allocate(user, bytes) =>
      if user !in l.allocations then Outcome(l, Refused(UnknownUser))
      else if !IsBytes(bytes) then Outcome(l, Refused(InvalidQuota))
      else if bytes < UsageOf(l, user) then Outcome(l, Refused(BelowUsage))
      else SetAllocation(l, user, bytes)
    case Reserve(user, bytes) =>
      if user !in l.allocations then Outcome(l, Refused(UnknownUser))
      else if !IsBytes(bytes) then Outcome(l, Refused(InvalidQuota))
      else ReserveKnown(l, user, bytes)
    case Release(id) =>
      if !IsReservationId(id) then Outcome(l, Refused(InvalidReservation))
      else if id !in l.reservations then Outcome(l, Refused(UnknownReservation))
      else ReleaseKnown(l, id)
  }

  ghost function Run(l: Ledger, calls: seq<Call>): (r: Ledger)
    decreases |calls|
  {
    if calls == [] then l else Run(Apply(l, calls[0]).ledger, calls[1..])
  }

  /** Creation: the initial users one after the other; any refusal means there is no ledger. */
  ghost function AddInitial(l: Ledger, u: InitialUser): (r: Option<Ledger>) {
    if u.user in l.allocations then None
    else
      var o := SetAllocation(l, u.user, u.quota);
      if !o.reply.Stored? || !IsBytes(u.used) || u.used > AllocationOf(o.ledger, u.user) then None
      else Some(o.ledger.(usage := o.ledger.usage[u.user := u.used]))
  }

  ghost function AddAll(l: Ledger, users: seq<InitialUser>): (r: Option<Ledger>)
    decreases |users|
  {
    if users == [] then Some(l)
    else match AddInitial(l, users[0])
      case None => None
      case Some(next) => AddAll(next, users[1..])
  }

  function Empty(gross: nat): (l: Ledger) { Ledger(gross, map[], map[], 0, map[]) }

  ghost function Created(gross: int, users: seq<InitialUser>): (r: Option<Ledger>) {
    if gross <= 0 || gross > MAX_SAFE then None else AddAll(Empty(gross), users)
  }

  // ------------------------------------------------------ the invariant

  /** The sizes of one user's unreleased reservations, by id. */
  function OpenSizes(reservations: map<string, Reservation>, user: string): (m: map<string, nat>) {
    map id | id in reservations && reservations[id].user == user && !reservations[id].released :: reservations[id].size
  }

  ghost function Outstanding(l: Ledger, user: string): (n: nat) { Sum(OpenSizes(l.reservations, user)) }

  function InitialOf(initial: map<string, nat>, user: string): (n: nat) { if user in initial then initial[user] else 0 }

  /** A user's usage is what it was initially plus what is reserved, and fits the allocation. */
  ghost predicate Balanced(l: Ledger, initial: map<string, nat>, user: string) {
    UsageOf(l, user) <= AllocationOf(l, user) && UsageOf(l, user) == InitialOf(initial, user) + Outstanding(l, user)
  }

  ghost predicate Issued(l: Ledger, id: string) { exists n :: 1 <= n <= l.sequence && id == ReservationId(n) }

  ghost predicate Inv(l: Ledger, initial: map<string, nat>) {
    && l.gross <= MAX_SAFE
    && Sum(l.allocations) <= l.gross
    && l.usage.Keys == l.allocations.Keys
    && (forall u :: Balanced(l, initial, u))
    && (forall id :: id in l.reservations ==> l.reservations[id].user in l.usage && Issued(l, id))
    && (forall n :: 1 <= n <= l.sequence ==> ReservationId(n) in l.reservations)
  }

  /** Different sequence numbers have different ids. */
  lemma IdsDiffer(n: nat, m: nat)
    requires ReservationId(n) == ReservationId(m)
    ensures n == m
  {
    assert ReservationId(n)[6..] == PadStart(Decimal(n), 8) && ReservationId(m)[6..] == PadStart(Decimal(m), 8);
    DecimalRoundTrip(n);
    DecimalRoundTrip(m);
  }

  function Pow10(k: nat): (r: nat)
    ensures r >= 1
  {
    if k == 0 then 1 else 10 * Pow10(k - 1)
  }

  lemma {:induction false} DecimalLength(n: nat, k: nat)
    requires k >= 1
    ensures |Decimal(n)| <= k <==> n < Pow10(k)
  {
    if n < 10 {
      assert Pow10(k) >= 10;
    } else if k == 1 {
      assert Pow10(1) == 10;
    } else {
      DecimalLength(n / 10, k - 1);
    }
  }

  /** An id that `reserve` hands out has the form that `release` demands exactly below a hundred million. */
  lemma IdAcceptedExactly(n: nat)
    ensures IsReservationId(ReservationId(n)) <==> n < 100_000_000
  {
    assert ReservationId(n)[6..] == PadStart(Decimal(n), 8) && ReservationId(n)[..6] == "quota-";
    DecimalLength(n, 8);
    assert Pow10(8) == 100_000_000 by {
      assert Pow10(2) == 100 && Pow10(4) == 10_000 && Pow10(6) == 1_000_000;
    }
  }

  // ------------------------------------------------------ every call keeps it

  lemma AllocationBelowSum(l: Ledger, user: string)
    ensures AllocationOf(l, user) <= Sum(l.allocations)
  {
    if user in l.allocations { SumRemove(l.allocations, user); }
  }

  lemma SetAllocationKeepsInv(l: Ledger, initial: map<string, nat>, user: string, bytes: int)
    requires Inv(l, initial) && bytes >= UsageOf(l, user)
    ensures Inv(SetAllocation(l, user, bytes).ledger, initial)
  {
    hide Sum, OpenSizes;
    var z := SetAllocation(l, user, bytes).ledger;
    if Decide(l.gross, l.allocations, user, bytes).None? {
      SumUpdate(l.allocations, user, bytes);
      forall u ensures Balanced(z, initial, u) {
        assert Balanced(l, initial, u);
      }
      forall id | id in z.reservations ensures Issued(z, id) {
        assert Issued(l, id);
      }
    }
  }

  lemma OpenAfterReserve(rs: map<string, Reservation>, id: string, user: string, size: nat, u: string)
    requires id !in rs
    ensures Sum(OpenSizes(rs[id := Reservation(user, size, false)], u))
            == Sum(OpenSizes(rs, u)) + if u == user then size else 0
  {
    var before, after := OpenSizes(rs, u), OpenSizes(rs[id := Reservation(user, size, false)], u);
    if u == user {
      assert after == before[id := size];
      SumUpdate(before, id, size);
      SumAbsent(before, id);
    } else {
      assert after == before;
    }
  }

  lemma OpenAfterRelease(rs: map<string, Reservation>, id: string, u: string)
    requires id in rs && !rs[id].released
    ensures Sum(OpenSizes(rs, u))
            == Sum(OpenSizes(rs[id := rs[id].(released := true)], u)) + if u == rs[id].user then rs[id].size else 0
  {
    var before, after := OpenSizes(rs, u), OpenSizes(rs[id := rs[id].(released := true)], u);
    if u == rs[id].user {
      assert after == before - {id};
      SumRemove(before, id);
    } else {
      assert after == before;
    }
  }

  /** The next id is unused. */
  lemma NextIdFresh(l: Ledger, initial: map<string, nat>)
    requires Inv(l, initial)
    ensures ReservationId(l.sequence + 1) !in l.reservations
  {
    hide ReservationId, Sum, OpenSizes;
    var id := ReservationId(l.sequence + 1);
    if id in l.reservations {
      assert Issued(l, id);
      var n :| 1 <= n <= l.sequence && id == ReservationId(n);
      IdsDiffer(n, l.sequence + 1);
    }
  }

  lemma IssuedStays(l: Ledger, z: Ledger, id: string)
    requires Issued(l, id) && l.sequence <= z.sequence
    ensures Issued(z, id)
  {
    hide ReservationId;
    var n :| 1 <= n <= l.sequence && id == ReservationId(n);
    assert 1 <= n <= z.sequence;
  }

  /** The overflow branch of `reserve` is unreachable. */
  lemma ReserveNeverOverflows(l: Ledger, initial: map<string, nat>, user: string, size: nat)
    requires Inv(l, initial)
    ensures ReserveKnown(l, user, size).reply != Rejected(true)
  {
    hide ReservationId, Sum, OpenSizes;
    assert Balanced(l, initial, user);
    AllocationBelowSum(l, user);
  }

  lemma ReserveKeepsInv(l: Ledger, initial: map<string, nat>, user: string, size: nat)
    requires Inv(l, initial) && user in l.allocations
    ensures Inv(ReserveKnown(l, user, size).ledger, initial)
  {
    hide ReservationId, Sum, OpenSizes;
    var o := ReserveKnown(l, user, size);
    var z := o.ledger;
    if o.reply.Reserved? {
      var id := ReservationId(l.sequence + 1);
      NextIdFresh(l, initial);
      forall u ensures Balanced(z, initial, u) {
        assert Balanced(l, initial, u);
        OpenAfterReserve(l.reservations, id, user, size, u);
      }
      forall k | k in z.reservations ensures Issued(z, k) {
        if k == id { assert 1 <= z.sequence <= z.sequence; } else { IssuedStays(l, z, k); }
      }
    }
  }

  /** The clamp in `release` never acts: the reservation's size is part of the usage. */
  lemma ClampNeverActs(l: Ledger, initial: map<string, nat>, id: string)
    requires Inv(l, initial) && id in l.reservations && !l.reservations[id].released
    ensures l.reservations[id].size <= UsageOf(l, l.reservations[id].user)
  {
    hide ReservationId, Sum, OpenSizes;
    assert Balanced(l, initial, l.reservations[id].user);
    OpenAfterRelease(l.reservations, id, l.reservations[id].user);
  }

  lemma ReleaseKeepsInv(l: Ledger, initial: map<string, nat>, id: string)
    requires Inv(l, initial) && id in l.reservations
    ensures Inv(ReleaseKnown(l, id).ledger, initial)
  {
    hide ReservationId, Sum, OpenSizes;
    var z := ReleaseKnown(l, id).ledger;
    if !l.reservations[id].released {
      ClampNeverActs(l, initial, id);
      forall u ensures Balanced(z, initial, u) {
        assert Balanced(l, initial, u);
        OpenAfterRelease(l.reservations, id, u);
      }
      forall k | k in z.reservations ensures Issued(z, k) {
        IssuedStays(l, z, k);
      }
    }
  }

  lemma ApplyKeepsInv(l: Ledger, initial: map<string, nat>, call: Call)
    requires Inv(l, initial)
    ensures Inv(Apply(l, call).ledger, initial)
  {
    hide Inv, SetAllocation, ReserveKnown, ReleaseKnown, Sum;
    match call {
      case Register(user, bytes) =>
        if user !in l.allocations {
          NewUserUnused(l, initial, user);
          if IsBytes(bytes) { SetAllocationKeepsInv(l, initial, user, bytes); } else { NotBytes(l, user, bytes); }
        }
      case Allocate(user, bytes) =>
        if bytes >= UsageOf(l, user) { SetAllocationKeepsInv(l, initial, user, bytes); }
      case Reserve(user, bytes) =>
        if user in l.allocations && IsBytes(bytes) { ReserveKeepsInv(l, initial, user, bytes); }
      case Release(id) =>
        if id in l.reservations { ReleaseKeepsInv(l, initial, id); }
    }
  }

  lemma NewUserUnused(l: Ledger, initial: map<string, nat>, user: string)
    requires Inv(l, initial) && user !in l.allocations
    ensures UsageOf(l, user) == 0
  {
  }

  lemma NotBytes(l: Ledger, user: string, bytes: int)
    requires !IsBytes(bytes)
    ensures SetAllocation(l, user, bytes).ledger == l
  {
  }

  // ------------------------------------------------------ whole lives of a ledger

  lemma AddInitialKeepsInv(l: Ledger, u: InitialUser)
    requires Inv(l, l.usage) && l.reservations == map[] && l.sequence == 0 && AddInitial(l, u).Some?
    ensures var z := AddInitial(l, u).value; Inv(z, z.usage) && z.reservations == map[] && z.sequence == 0
  {
    hide Sum;
    var z := AddInitial(l, u).value;
    SumUpdate(l.allocations, u.user, u.quota);
    forall v ensures Balanced(z, z.usage, v) {
      assert Balanced(l, l.usage, v);
      assert OpenSizes(map[], v) == map[];
    }
  }

  lemma {:induction false} AddAllKeepsInv(l: Ledger, users: seq<InitialUser>)
    requires Inv(l, l.usage) && l.reservations == map[] && l.sequence == 0 && AddAll(l, users).Some?
    ensures var z := AddAll(l, users).value; Inv(z, z.usage)
    decreases |users|
  {
    hide Inv, AddInitial;
    if users != [] {
      AddInitialKeepsInv(l, users[0]);
      AddAllKeepsInv(AddInitial(l, users[0]).value, users[1..]);
    }
  }

  lemma CreatedInv(gross: int, users: seq<InitialUser>)
    requires Created(gross, users).Some?
    ensures var l := Created(gross, users).value; Inv(l, l.usage)
  {
    var e := Empty(gross);
    forall u ensures Balanced(e, e.usage, u) {
      assert OpenSizes(map[], u) == map[];
    }
    AddAllKeepsInv(e, users);
  }

  lemma {:induction false} RunKeepsInv(l: Ledger, initial: map<string, nat>, calls: seq<Call>)
    requires Inv(l, initial)
    ensures Inv(Run(l, calls), initial)
    decreases |calls|
  {
    hide Inv, Apply;
    if calls != [] {
      ApplyKeepsInv(l, initial, calls[0]);
      RunKeepsInv(Apply(l, calls[0]).ledger, initial, calls[1..]);
    }
  }

  /** Over its whole life: allocations fit the gross quota, usage fits the allocation, and usage is accounted for. */
  lemma LedgerIsSound(gross: int, users: seq<InitialUser>, calls: seq<Call>, user: string)
    requires Created(gross, users).Some?
    ensures var start := Created(gross, users).value;
            var l := Run(start, calls);
            && Sum(l.allocations) <= l.gross == start.gross
            && UsageOf(l, user) <= AllocationOf(l, user)
            && UsageOf(l, user) == UsageOf(start, user) + Outstanding(l, user)
  {
    hide Run, Created;
    var start := Created(gross, users).value;
    CreatedInv(gross, users);
    RunKeepsInv(start, start.usage, calls);
    RunKeeps(start, start.usage, calls, "");
    assert Balanced(Run(start, calls), start.usage, user);
  }

  predicate IsReleased(l: Ledger, id: string) { id in l.reservations && l.reservations[id].released }

  lemma ApplyKeeps(l: Ledger, initial: map<string, nat>, call: Call, id: string)
    requires Inv(l, initial)
    ensures Apply(l, call).ledger.gross == l.gross
    ensures IsReleased(l, id) ==> IsReleased(Apply(l, call).ledger, id)
  {
    hide Inv, Sum, ReservationId, IsReservationId;
    NextIdFresh(l, initial);
  }

  lemma {:induction false} RunKeeps(l: Ledger, initial: map<string, nat>, calls: seq<Call>, id: string)
    requires Inv(l, initial)
    ensures Run(l, calls).gross == l.gross
    ensures IsReleased(l, id) ==> IsReleased(Run(l, calls), id)
    decreases |calls|
  {
    hide Inv, Apply, IsReleased;
    if calls != [] {
      ApplyKeepsInv(l, initial, calls[0]);
      ApplyKeeps(l, initial, calls[0], id);
      RunKeeps(Apply(l, calls[0]).ledger, initial, calls[1..], id);
    }
  }

  /** However much happens in between, a second release changes nothing and says so. */
  lemma SecondReleaseChangesNothing(l: Ledger, initial: map<string, nat>, id: string, calls: seq<Call>)
    requires Inv(l, initial) && Apply(l, Release(id)).reply.Released?
    ensures var z := Run(Apply(l, Release(id)).ledger, calls); Apply(z, Release(id)) == Outcome(z, Released(true))
  {
    hide Inv, Run, Sum, ReservationId;
    ApplyKeepsInv(l, initial, Release(id));
    RunKeeps(Apply(l, Release(id)).ledger, initial, calls, id);
  }

  /**
   Of the reservations handed out, exactly those numbered below a hundred million
   can be released; a later one holds its usage for good.
   */
  lemma ReleasableExactly(l: Ledger, initial: map<string, nat>, n: nat)
    requires Inv(l, initial) && 1 <= n <= l.sequence
    ensures Apply(l, Release(ReservationId(n))).reply.Released? <==> n < 100_000_000
    ensures n >= 100_000_000 ==> Apply(l, Release(ReservationId(n))) == Outcome(l, Refused(InvalidReservation))
  {
    hide ReservationId, IsReservationId, Sum;
    IdAcceptedExactly(n);
  }

  function EmptyReserves(user: string, n: nat): (calls: seq<Call>) { seq(n, _ => Reserve(user, 0)) }

  /** Any number of reservations can be handed out, so the limit is reached. */
  lemma {:induction false} ReservationsUnbounded(l: Ledger, initial: map<string, nat>, user: string, n: nat)
    requires Inv(l, initial) && user in l.allocations
    ensures Run(l, EmptyReserves(user, n)).sequence == l.sequence + n
    decreases n
  {
    hide Inv, ReservationId, Sum;
    var calls := EmptyReserves(user, n);
    if n > 0 {
      var z := Apply(l, calls[0]).ledger;
      ApplyKeepsInv(l, initial, calls[0]);
      assert Balanced(l, initial, user) by { UserBalanced(l, initial, user); }
      ReserveNeverOverflows(l, initial, user, 0);
      assert z.sequence == l.sequence + 1 && user in z.allocations;
      ReservationsUnbounded(z, initial, user, n - 1);
      assert calls[1..] == EmptyReserves(user, n - 1);
    }
  }

  lemma UserBalanced(l: Ledger, initial: map<string, nat>, user: string)
    requires Inv(l, initial)
    ensures Balanced(l, initial, user)
  {
  }

  // ------------------------------------------------------ the ledger itself

  /** The allocations that the summing loop still has to add. */
  ghost function Counted(m: map<string, nat>, users: set<string>, exclude: Option<string>): (r: map<string, nat>) {
    map u | u in m && u in users && exclude != Some(u) :: m[u]
  }

  lemma CountedStep(m: map<string, nat>, users: set<string>, exclude: Option<string>, user: string)
    requires user in users && user in m
    ensures Sum(Counted(m, users, exclude))
            == Sum(Counted(m, users - {user}, exclude)) + if exclude != Some(user) then m[user] else 0
  {
    var now, next := Counted(m, users, exclude), Counted(m, users - {user}, exclude);
    if exclude != Some(user) {
      assert next == now - {user};
      SumRemove(now, user);
    } else {
      assert next == now;
    }
  }

  lemma CountedAll(m: map<string, nat>, exclude: Option<string>)
    ensures Counted(m, m.Keys, exclude) == if exclude.Some? then m - {exclude.value} else m
  {
  }

  lemma CountedNone(m: map<string, nat>, exclude: Option<string>)
    ensures Sum(Counted(m, {}, exclude)) == 0
  {
    assert Counted(m, {}, exclude) == map[];
  }

  class QuotaLedger {
    const gross: nat
    var allocations: map<string, nat>
    var usage: map<string, nat>
    var sequence: nat
    var reservations: map<string, Reservation>

    ghost function Abs(): (l: Ledger)
      reads this
    {
      Ledger(gross, allocations, usage, sequence, reservations)
    }

    constructor (gross: nat)
      ensures Abs() == Empty(gross)
    {
      this.gross := gross;
      allocations, usage, sequence, reservations := map[], map[], 0, map[];
    }

    /** The summing loop, which visits the users in some order and stops at the first unsafe total. */
    method TotalAllocated(exclude: Option<string>) returns (total: Option<nat>)
      ensures var counted := if exclude.Some? then allocations - {exclude.value} else allocations;
              total == if Sum(counted) <= MAX_SAFE then Some(Sum(counted)) else None
    {
      hide Sum, Counted;
      CountedAll(allocations, exclude);
      var sum: nat := 0;
      var users := allocations.Keys;
      while users != {}
        invariant users <= allocations.Keys && sum <= MAX_SAFE
        invariant sum + Sum(Counted(allocations, users, exclude))
                  == Sum(Counted(allocations, allocations.Keys, exclude))
        decreases |users|
      {
        var user :| user in users;
        CountedStep(allocations, users, exclude, user);
        users := users - {user};
        if exclude != Some(user) {
          sum := sum + allocations[user];
          if sum > MAX_SAFE { return None; }
        }
      }
      CountedNone(allocations, exclude);
      total := Some(sum);
    }

    method Set(user: string, bytes: int) returns (reply: Reply)
      modifies this
      ensures Outcome(Abs(), reply) == SetAllocation(old(Abs()), user, bytes)
    {
      hide Sum;
      if !IsBytes(bytes) { return Refused(InvalidQuota); }
      var others := TotalAllocated(Some(user));
      if others.None? || others.value + bytes > MAX_SAFE { return Refused(Overflow); }
      if others.value + bytes > gross { return Refused(Exceeded); }
      allocations := allocations[user := bytes];
      if user !in usage { usage := usage[user := 0]; }
      reply := Stored;
    }

    method RegisterUser(user: string, bytes: int) returns (reply: Reply)
      modifies this
      ensures Outcome(Abs(), reply) == Apply(old(Abs()), Register(user, bytes))
    {
      if user in allocations { return Refused(Conflict); }
      reply := Set(user, bytes);
    }

    method AllocateQuota(user: string, bytes: int) returns (reply: Reply)
      modifies this
      ensures Outcome(Abs(), reply) == Apply(old(Abs()), Allocate(user, bytes))
    {
      if user !in allocations { return Refused(UnknownUser); }
      var current := if user in usage then usage[user] else 0;
      if !IsBytes(bytes) { return Refused(InvalidQuota); }
      if bytes < current { return Refused(BelowUsage); }
      reply := Set(user, bytes);
    }

    method ReserveBytes(user: string, bytes: int) returns (reply: Reply)
      modifies this
      ensures Outcome(Abs(), reply) == Apply(old(Abs()), Reserve(user, bytes))
    {
      hide ReservationId;
      if user !in allocations { return Refused(UnknownUser); }
      if !IsBytes(bytes) { return Refused(InvalidQuota); }
      var current := if user in usage then usage[user] else 0;
      if bytes > allocations[user] - current { return Rejected(false); }
      var next := current + bytes;
      if next > MAX_SAFE { return Rejected(true); }
      usage := usage[user := next];
      sequence := sequence + 1;
      var id := ReservationId(sequence);
      reservations := reservations[id := Reservation(user, bytes, false)];
      reply := Reserved(id);
    }

    method ReleaseReservation(id: string) returns (reply: Reply)
      modifies this
      ensures Outcome(Abs(), reply) == Apply(old(Abs()), Release(id))
    {
      hide IsReservationId;
      if !IsReservationId(id) { return Refused(InvalidReservation); }
      if id !in reservations { return Refused(UnknownReservation); }
      var reservation := reservations[id];
      if reservation.released { return Released(true); }
      var current := if reservation.user in usage then usage[reservation.user] else 0;
      usage := usage[reservation.user := if current - reservation.size < 0 then 0 else current - reservation.size];
      reservations := reservations[id := reservation.(released := true)];
      reply := Released(false);
    }
  }

  /** `createQuotaLedger`: the loop over the initial users. */
  method CreateLedger(gross: int, users: seq<InitialUser>) returns (created: Option<QuotaLedger>)
    ensures created.Some? <==> Created(gross, users).Some?
    ensures created.Some? ==> fresh(created.value) && created.value.Abs() == Created(gross, users).value
  {
    if gross <= 0 || gross > MAX_SAFE { return None; }
    var ledger := new QuotaLedger(gross);
    assert users[0..] == users;
    for i := 0 to |users|
      invariant fresh(ledger)
      invariant AddAll(ledger.Abs(), users[i..]) == Created(gross, users)
    {
      hide SetAllocation, Created;
      var u := users[i];
      assert users[i..][0] == u && users[i..][1..] == users[i + 1..];
      if u.user in ledger.allocations { return None; }
      var reply := ledger.Set(u.user, u.quota);
      if reply != Stored { return None; }
      var quota := if u.user in ledger.allocations then ledger.allocations[u.user] else 0;
      if !IsBytes(u.used) || u.used > quota { return None; }
      ledger.usage := ledger.usage[u.user := u.used];
    }
    created := Some(ledger);
  }
}
