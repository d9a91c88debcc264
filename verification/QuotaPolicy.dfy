/**
 When a quota request succeeds: in the ledger, and as a database transaction that
 runs without being disturbed.
 */
module QuotaPolicy {
  import opened Strings
  import opened MapSums
  import Quota
  import QuotaStore

  // ------------------------------------------------------ the ledger

  predicate Bytes(n: int) { 0 <= n <= 9_007_199_254_740_991 }

  /** An allocation is stored exactly when the user is new or known, as the call says, and everything fits. */
  lemma AllocationsSucceedExactly(l: Quota.Ledger, call: Quota.Call)
    requires (call.Register? || call.Allocate?) && l.gross <= 9_007_199_254_740_991
    ensures var o := Quota.Apply(l, call);
            && (o.reply.Stored?
                <==> && Bytes(call.bytes) && (call.Register? <==> call.user !in l.allocations)
                     && (call.Allocate? ==> call.bytes >= Quota.UsageOf(l, call.user))
                     && Sum(l.allocations - {call.user}) + call.bytes <= l.gross)
            && (o.reply.Stored? ==>
                  && o.ledger.allocations == l.allocations[call.user := call.bytes]
                  && o.ledger.usage == (if call.user in l.usage then l.usage else l.usage[call.user := 0])
                  && o.ledger.reservations == l.reservations && o.ledger.sequence == l.sequence)
            && (!o.reply.Stored? ==> o.ledger == l)
  {
    hide Sum;
  }

  /** Bytes are reserved exactly when they fit what is left of the user's allocation. */
  lemma ReservesExactly(l: Quota.Ledger, initial: map<string, nat>, user: string, bytes: int)
    requires Quota.Inv(l, initial)
    ensures var o := Quota.Apply(l, Quota.Reserve(user, bytes));
            && (o.reply.Reserved?
                <==> user in l.allocations && 0 <= bytes && l.usage[user] + bytes <= l.allocations[user])
            && (o.reply.Reserved? ==>
                  && o.ledger.usage == l.usage[user := l.usage[user] + bytes]
                  && o.ledger.allocations == l.allocations && o.ledger.sequence == l.sequence + 1
                  && o.reply.id !in l.reservations
                  && o.ledger.reservations == l.reservations[o.reply.id := Quota.Reservation(user, bytes, false)])
  {
    hide Sum, Quota.ReservationId, Quota.OpenSizes;
    assert Quota.Balanced(l, initial, user);
    if user in l.allocations && Quota.IsBytes(bytes) { Quota.ReserveNeverOverflows(l, initial, user, bytes); }
    if user in l.allocations { Quota.AllocationBelowSum(l, user); }
    NextIsNew(l, initial);
  }

  lemma NextIsNew(l: Quota.Ledger, initial: map<string, nat>)
    requires Quota.Inv(l, initial)
    ensures Quota.ReservationId(l.sequence + 1) !in l.reservations
  {
    hide Sum, Quota.ReservationId, Quota.OpenSizes;
    var id := Quota.ReservationId(l.sequence + 1);
    if id in l.reservations {
      assert Quota.Issued(l, id);
      var n :| 1 <= n <= l.sequence && id == Quota.ReservationId(n);
      Quota.IdsDiffer(n, l.sequence + 1);
    }
  }

  /** The first release of a reservation frees exactly its bytes, and its user can reserve them again. */
  lemma ReleaseFreesExactly(l: Quota.Ledger, initial: map<string, nat>, id: string)
    requires Quota.Inv(l, initial) && Quota.IsReservationId(id) && id in l.reservations && !l.reservations[id].released
    ensures var r := l.reservations[id];
            var o := Quota.Apply(l, Quota.Release(id));
            && o.reply == Quota.Released(false)
            && r.user in l.usage && r.size <= l.usage[r.user]
            && o.ledger.usage == l.usage[r.user := l.usage[r.user] - r.size]
            && o.ledger.allocations == l.allocations
            && o.ledger.reservations == l.reservations[id := r.(released := true)]
            && Quota.Apply(o.ledger, Quota.Reserve(r.user, r.size)).reply.Reserved?
  {
    hide Sum, Quota.ReservationId, Quota.IsReservationId, Quota.OpenSizes, Quota.Inv;
    var r := l.reservations[id];
    ReservationFacts(l, initial, id);
    Quota.ClampNeverActs(l, initial, id);
    Quota.ApplyKeepsInv(l, initial, Quota.Release(id));
    var z := Quota.Apply(l, Quota.Release(id)).ledger;
    ReservesExactly(z, initial, r.user, r.size);
  }

  lemma ReservationFacts(l: Quota.Ledger, initial: map<string, nat>, id: string)
    requires Quota.Inv(l, initial) && id in l.reservations
    ensures var user := l.reservations[id].user;
            user in l.usage && user in l.allocations && l.usage[user] <= l.allocations[user]
  {
    hide Sum, Quota.ReservationId, Quota.OpenSizes;
    assert Quota.Balanced(l, initial, l.reservations[id].user);
  }

  // ------------------------------------------------------ a new ledger

  function Total(users: seq<Quota.InitialUser>): (n: int) {
    if users == [] then 0 else users[0].quota + Total(users[1..])
  }

  predicate EachFits(users: seq<Quota.InitialUser>) {
    forall i :: 0 <= i < |users| ==> Bytes(users[i].quota) && 0 <= users[i].used <= users[i].quota
  }

  predicate AllDistinct(users: seq<Quota.InitialUser>) {
    forall i, j :: 0 <= i < j < |users| ==> users[i].user != users[j].user
  }

  lemma {:induction false} TotalIsPositive(users: seq<Quota.InitialUser>)
    requires EachFits(users)
    ensures Total(users) >= 0
  {
    if users != [] { TotalIsPositive(users[1..]); }
  }

  lemma AddsExactly(l: Quota.Ledger, u: Quota.InitialUser)
    requires l.gross <= 9_007_199_254_740_991
    ensures var r := Quota.AddInitial(l, u);
            && (r.Some?
                <==> && u.user !in l.allocations && Bytes(u.quota) && 0 <= u.used <= u.quota
                     && Sum(l.allocations) + u.quota <= l.gross)
            && (r.Some? ==>
                  && r.value.gross == l.gross && r.value.allocations == l.allocations[u.user := u.quota]
                  && u.user in r.value.usage && r.value.usage[u.user] == u.used
                  && (forall v :: v in l.usage && v != u.user ==> v in r.value.usage && r.value.usage[v] == l.usage[v])
                  && Sum(r.value.allocations) == Sum(l.allocations) + u.quota)
  {
    hide Sum;
    if u.user !in l.allocations {
      SumAbsent(l.allocations, u.user);
      if u.quota >= 0 { SumUpdate(l.allocations, u.user, u.quota); }
    }
  }

  lemma NoneFit(users: seq<Quota.InitialUser>)
    requires users == []
    ensures EachFits(users) && AllDistinct(users)
  {
  }

  lemma ConsFits(users: seq<Quota.InitialUser>)
    requires users != []
    ensures var u, rest := users[0], users[1..];
            && (AllDistinct(users) <==>
                  AllDistinct(rest) && forall i :: 0 <= i < |rest| ==> rest[i].user != u.user)
            && (EachFits(users) <==> Bytes(u.quota) && 0 <= u.used <= u.quota && EachFits(rest))
  {
    hide Bytes;
    var u, rest := users[0], users[1..];
    assert users == [u] + rest;
  }

  lemma {:induction false} AddsAllExactly(l: Quota.Ledger, users: seq<Quota.InitialUser>)
    requires Sum(l.allocations) <= l.gross <= 9_007_199_254_740_991 && l.allocations.Keys <= l.usage.Keys
    ensures var r := Quota.AddAll(l, users);
            && (r.Some?
                <==> && EachFits(users) && AllDistinct(users)
                     && (forall i :: 0 <= i < |users| ==> users[i].user !in l.allocations)
                     && Sum(l.allocations) + Total(users) <= l.gross)
            && (r.Some? ==>
                  && (forall v :: v in l.allocations ==>
                        && v in r.value.allocations && r.value.allocations[v] == l.allocations[v]
                        && v in r.value.usage && r.value.usage[v] == l.usage[v])
                  && (forall i :: 0 <= i < |users| ==>
                        && users[i].user in r.value.allocations
                        && r.value.allocations[users[i].user] == users[i].quota
                        && users[i].user in r.value.usage && r.value.usage[users[i].user] == users[i].used))
    decreases |users|
  {
    hide Sum, Quota.AddInitial, Bytes, AllDistinct, EachFits;
    if users == [] {
      assert EachFits(users) && AllDistinct(users) by { NoneFit(users); }
    } else {
      var u, rest := users[0], users[1..];
      assert users == [u] + rest;
      AddsExactly(l, u);
      var r := Quota.AddInitial(l, u);
      if r.Some? {
        AddsAllExactly(r.value, rest);
        ConsFits(users);
        forall i | 1 <= i < |users| && Quota.AddAll(l, users).Some?
          ensures users[i].user in Quota.AddAll(l, users).value.allocations
        {
          assert users[i] == rest[i - 1];
        }
      } else if EachFits(users) {
        ConsFits(users);
        TotalIsPositive(rest);
      }
    }
  }

  /**
   A ledger comes into being exactly when the gross quota is positive and safe and
   the initial users are distinct, each within its allocation, and fit together.
   */
  lemma CreatedExactly(gross: int, users: seq<Quota.InitialUser>)
    ensures var r := Quota.Created(gross, users);
            && (r.Some?
                <==> 0 < gross <= 9_007_199_254_740_991 && EachFits(users) && AllDistinct(users)
                     && Total(users) <= gross)
            && (r.Some? ==>
                  forall i :: 0 <= i < |users| ==>
                    && users[i].user in r.value.allocations && r.value.allocations[users[i].user] == users[i].quota
                    && users[i].user in r.value.usage && r.value.usage[users[i].user] == users[i].used)
  {
    hide Quota.AddAll;
    if 0 < gross <= 9_007_199_254_740_991 { AddsAllExactly(Quota.Empty(gross), users); }
  }

  // ------------------------------------------------------ the transactions

  /** What a request needs of the committed rows. */
  ghost predicate Fits(db: QuotaStore.Db, q: QuotaStore.Request) {
    match q
    case Bootstrap(t, domain, gross) =>
      0 < gross <= 9_007_199_254_740_991 && (t in db ==> db[t].domain == domain && db[t].gross == gross)
    case CreateUser(t, user, bytes) =>
      Bytes(bytes) && t in db && user !in db[t].users && Sum(db[t].allocations) + bytes <= db[t].gross
    case AllocateQuota(t, user, bytes) =>
      Bytes(bytes) && t in db && user in db[t].users && Sum(db[t].allocations - {user}) + bytes <= db[t].gross
  }

  /** The rows afterwards. */
  ghost predicate Stores(before: QuotaStore.Db, q: QuotaStore.Request, after: QuotaStore.Db) {
    && q.tenant in after && after - {q.tenant} == before - {q.tenant}
    && var row := after[q.tenant];
    match q
    case Bootstrap(t, domain, gross) =>
      && (t in before ==> row == before[t])
      && row.domain == domain && row.gross == gross
      && (t !in before ==> row.users == {} && row.allocations == map[])
    case CreateUser(t, user, bytes) =>
      && t in before && row.domain == before[t].domain && row.gross == before[t].gross
      && row.users == before[t].users + {user}
      && user in row.allocations && row.allocations[user] == bytes
      && row.allocations - {user} == before[t].allocations - {user}
    case AllocateQuota(t, user, bytes) =>
      && t in before && row.domain == before[t].domain && row.gross == before[t].gross
      && row.users == before[t].users
      && user in row.allocations && row.allocations[user] == bytes
      && row.allocations - {user} == before[t].allocations - {user}
  }

  /** One transaction from beginning to end, undisturbed. */
  function Alone(id: nat, q: QuotaStore.Request): (actions: seq<QuotaStore.Action>) {
    [QuotaStore.Begin(id, q), QuotaStore.Advance(id), QuotaStore.Advance(id), QuotaStore.Advance(id),
     QuotaStore.Advance(id), QuotaStore.Advance(id)]
  }

  ghost function Again(w: QuotaStore.World, id: nat, n: nat): (r: QuotaStore.World)
    decreases n
  {
    if n == 0 then w else Again(QuotaStore.Step(w, QuotaStore.Advance(id)), id, n - 1)
  }

  lemma {:induction false} RunAgain(w: QuotaStore.World, id: nat, n: nat)
    ensures QuotaStore.Run(w, seq(n, _ => QuotaStore.Advance(id))) == Again(w, id, n)
    decreases n
  {
    hide QuotaStore.Step;
    if n > 0 {
      var actions := seq(n, _ => QuotaStore.Advance(id));
      assert actions[1..] == seq(n - 1, _ => QuotaStore.Advance(id));
      RunAgain(QuotaStore.Step(w, QuotaStore.Advance(id)), id, n - 1);
    }
  }

  lemma AloneIs(w: QuotaStore.World, id: nat, q: QuotaStore.Request)
    ensures QuotaStore.Run(w, Alone(id, q)) == Again(QuotaStore.Step(w, QuotaStore.Begin(id, q)), id, 5)
  {
    hide QuotaStore.Step, Again;
    assert Alone(id, q)[1..] == seq(5, _ => QuotaStore.Advance(id));
    RunAgain(QuotaStore.Step(w, QuotaStore.Begin(id, q)), id, 5);
  }

  lemma AgainStep(w: QuotaStore.World, id: nat, n: nat)
    requires n > 0
    ensures Again(w, id, n) == Again(QuotaStore.Step(w, QuotaStore.Advance(id)), id, n - 1)
    ensures Again(w, id, 0) == w
  {
    hide QuotaStore.Step;
  }

  /** The transaction is over with this ending, its lock is free, and the rows are `db`. */
  ghost predicate Ends(z: QuotaStore.World, id: nat, e: QuotaStore.Ending, tenant: string, db: QuotaStore.Db) {
    id in z.txns && z.txns[id].phase == QuotaStore.Closed(e) && tenant !in z.locks && z.db == db
  }

  ghost predicate Ready(w: QuotaStore.World, id: nat, q: QuotaStore.Request, p: QuotaStore.Phase) {
    && id in w.txns && w.txns[id] == QuotaStore.Txn(q, p)
    && (q.tenant in w.locks ==> w.locks[q.tenant] == id)
  }

  lemma CommitsNext(w: QuotaStore.World, id: nat, q: QuotaStore.Request)
    requires Ready(w, id, q, QuotaStore.Ready)
    ensures Ends(QuotaStore.Step(w, QuotaStore.Advance(id)), id, QuotaStore.Committed, q.tenant,
                 QuotaStore.Written(w.db, q))
  {
    hide QuotaStore.Written;
  }

  lemma BootstrapAlone(w: QuotaStore.World, id: nat, q: QuotaStore.Request)
    requires q.Bootstrap? && q.tenant !in w.locks && Ready(w, id, q, QuotaStore.Begun)
    ensures var z := Again(w, id, 5);
            if q.tenant in w.db && (w.db[q.tenant].domain != q.domain || w.db[q.tenant].gross != q.gross)
            then Ends(z, id, QuotaStore.Refused(QuotaStore.Conflict), q.tenant, w.db)
            else Ends(z, id, QuotaStore.Committed, q.tenant, QuotaStore.Written(w.db, q))
  {
    hide QuotaStore.Written, Again;
    var w1 := QuotaStore.Step(w, QuotaStore.Advance(id));
    var w2 := QuotaStore.Step(w1, QuotaStore.Advance(id));
    var w3 := QuotaStore.Step(w2, QuotaStore.Advance(id));
    FiveSteps(w, id);
    if q.tenant in w.db {
      if w.db[q.tenant].domain == q.domain && w.db[q.tenant].gross == q.gross { CommitsNext(w2, id, q); }
    } else {
      CommitsNext(w3, id, q);
    }
  }

  /** The five steps one by one; a closed transaction takes no more. */
  lemma FiveSteps(w: QuotaStore.World, id: nat)
    ensures var w1 := QuotaStore.Step(w, QuotaStore.Advance(id));
            var w2 := QuotaStore.Step(w1, QuotaStore.Advance(id));
            var w3 := QuotaStore.Step(w2, QuotaStore.Advance(id));
            var w4 := QuotaStore.Step(w3, QuotaStore.Advance(id));
            Again(w, id, 5) == QuotaStore.Step(w4, QuotaStore.Advance(id))
  {
    hide QuotaStore.Step, Again;
    var w1 := QuotaStore.Step(w, QuotaStore.Advance(id));
    var w2 := QuotaStore.Step(w1, QuotaStore.Advance(id));
    var w3 := QuotaStore.Step(w2, QuotaStore.Advance(id));
    var w4 := QuotaStore.Step(w3, QuotaStore.Advance(id));
    AgainStep(w, id, 5);
    AgainStep(w1, id, 4);
    AgainStep(w2, id, 3);
    AgainStep(w3, id, 2);
    AgainStep(w4, id, 1);
    AgainStep(QuotaStore.Step(w4, QuotaStore.Advance(id)), id, 1);
  }

  lemma UserAlone(w: QuotaStore.World, id: nat, q: QuotaStore.Request)
    requires q.CreateUser? && q.tenant !in w.locks && Ready(w, id, q, QuotaStore.Begun) && Bytes(q.bytes)
    requires q.tenant in w.db ==> w.db[q.tenant].users == w.db[q.tenant].allocations.Keys
    ensures var z := Again(w, id, 5);
            if q.tenant !in w.db then Ends(z, id, QuotaStore.Refused(QuotaStore.NotFound), q.tenant, w.db)
            else if Sum(w.db[q.tenant].allocations) + q.bytes > w.db[q.tenant].gross
            then Ends(z, id, QuotaStore.Refused(QuotaStore.QuotaExceeded), q.tenant, w.db)
            else if q.user in w.db[q.tenant].users then Ends(z, id, QuotaStore.RolledBack, q.tenant, w.db)
            else Ends(z, id, QuotaStore.Committed, q.tenant, QuotaStore.Written(w.db, q))
  {
    hide QuotaStore.Written, Again, Sum;
    var w1 := QuotaStore.Step(w, QuotaStore.Advance(id));
    var w2 := QuotaStore.Step(w1, QuotaStore.Advance(id));
    var w3 := QuotaStore.Step(w2, QuotaStore.Advance(id));
    var w4 := QuotaStore.Step(w3, QuotaStore.Advance(id));
    FiveSteps(w, id);
    if q.tenant in w.db {
      var t := w.db[q.tenant];
      assert Ready(w2, id, q, QuotaStore.Summed(t.gross, Sum(t.allocations)));
      if Sum(t.allocations) + q.bytes <= t.gross && q.user !in t.users { CommitsNext(w4, id, q); }
    }
  }

  lemma AllocationAlone(w: QuotaStore.World, id: nat, q: QuotaStore.Request)
    requires q.AllocateQuota? && q.tenant !in w.locks && Ready(w, id, q, QuotaStore.Begun) && Bytes(q.bytes)
    ensures var z := Again(w, id, 5);
            if q.tenant !in w.db || q.user !in w.db[q.tenant].users
            then Ends(z, id, QuotaStore.Refused(QuotaStore.NotFound), q.tenant, w.db)
            else if Sum(w.db[q.tenant].allocations - {q.user}) + q.bytes > w.db[q.tenant].gross
            then Ends(z, id, QuotaStore.Refused(QuotaStore.QuotaExceeded), q.tenant, w.db)
            else Ends(z, id, QuotaStore.Committed, q.tenant, QuotaStore.Written(w.db, q))
  {
    hide QuotaStore.Written, Again, Sum;
    var w1 := QuotaStore.Step(w, QuotaStore.Advance(id));
    var w2 := QuotaStore.Step(w1, QuotaStore.Advance(id));
    var w3 := QuotaStore.Step(w2, QuotaStore.Advance(id));
    var w4 := QuotaStore.Step(w3, QuotaStore.Advance(id));
    FiveSteps(w, id);
    if q.tenant in w.db && q.user in w.db[q.tenant].users {
      var t := w.db[q.tenant];
      assert Ready(w3, id, q, QuotaStore.Summed(t.gross, Sum(t.allocations - {q.user})));
      if Sum(t.allocations - {q.user}) + q.bytes <= t.gross { CommitsNext(w4, id, q); }
    }
  }

  /**
   Undisturbed, from any reachable state in which the tenant's row is not locked: a
   request commits exactly when it fits, with just its own rows changed; otherwise
   nothing changes.  Either way the row is free again.
   */
  lemma CommitsExactly(w: QuotaStore.World, id: nat, q: QuotaStore.Request)
    requires QuotaStore.Inv(w) && id !in w.txns && q.tenant !in w.locks
    ensures var z := QuotaStore.Run(w, Alone(id, q));
            && (id in z.txns && z.txns[id].phase == QuotaStore.Closed(QuotaStore.Committed) <==> Fits(w.db, q))
            && (Fits(w.db, q) ==> Stores(w.db, q, z.db))
            && (!Fits(w.db, q) ==> z.db == w.db)
            && q.tenant !in z.locks
  {
    hide QuotaStore.Run, QuotaStore.Inv, QuotaStore.Step, Again, Sum, QuotaStore.Written;
    AloneIs(w, id, q);
    RowFacts(w, q.tenant);
    if QuotaStore.ValidRequest(q) {
      var b := QuotaStore.Step(w, QuotaStore.Begin(id, q));
      assert b == QuotaStore.At(w, id, q, QuotaStore.Begun) by { BeginIs(w, id, q); }
      match q {
        case Bootstrap(_, _, _) => BootstrapAlone(b, id, q);
        case CreateUser(_, _, _) => UserAlone(b, id, q);
        case AllocateQuota(_, _, _) => AllocationAlone(b, id, q);
      }
      if Fits(w.db, q) { WrittenStores(w.db, q); }
    } else {
      NotBegun(w, id, q);
    }
  }

  lemma BeginIs(w: QuotaStore.World, id: nat, q: QuotaStore.Request)
    requires id !in w.txns && QuotaStore.ValidRequest(q)
    ensures QuotaStore.Step(w, QuotaStore.Begin(id, q)) == QuotaStore.At(w, id, q, QuotaStore.Begun)
  {
  }

  lemma NotBegun(w: QuotaStore.World, id: nat, q: QuotaStore.Request)
    requires id !in w.txns && !QuotaStore.ValidRequest(q)
    ensures Again(QuotaStore.Step(w, QuotaStore.Begin(id, q)), id, 5) == w
  {
    FiveSteps(w, id);
  }

  lemma RowFacts(w: QuotaStore.World, tenant: string)
    requires QuotaStore.Inv(w)
    ensures tenant in w.db ==> w.db[tenant].users == w.db[tenant].allocations.Keys && 0 < w.db[tenant].gross
  {
    if tenant in w.db { assert QuotaStore.TenantOk(w.db[tenant]); }
  }

  lemma WrittenStores(db: QuotaStore.Db, q: QuotaStore.Request)
    requires Fits(db, q)
    ensures Stores(db, q, QuotaStore.Written(db, q))
  {
    hide Sum;
    var z := QuotaStore.Written(db, q);
    assert z - {q.tenant} == db - {q.tenant};
  }

  /** A transaction that is not over waits for nothing but the lock of its own tenant's row. */
  lemma OnlyLocksStall(w: QuotaStore.World, id: nat)
    requires QuotaStore.Inv(w) && id in w.txns && !w.txns[id].phase.Closed?
    requires QuotaStore.Step(w, QuotaStore.Advance(id)).txns[id] == w.txns[id]
    ensures var t := w.txns[id].request.tenant;
            && t in w.locks
            && (w.txns[id].phase.Begun? || w.txns[id].phase == QuotaStore.Selected(None))
  {
    hide Sum, QuotaStore.Atomic, QuotaStore.TenantOk;
    QuotaStore.TxnFact(w, id);
  }
}
