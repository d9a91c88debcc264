/**
 The PostgreSQL store: interleaved transactions under READ COMMITTED, in which
 `SELECT ... FOR UPDATE` on the tenant row is a lock held to COMMIT or ROLLBACK.
 A retry, also one after a COMMIT whose answer was lost, is one more transaction.
 */
module QuotaStore {
  import opened Strings
  import opened MapSums
  import Quota

  /** One tenant's committed rows. */
  datatype Tenant = Tenant(domain: string, gross: nat, users: set<string>, allocations: map<string, nat>)

  type Db = map<string, Tenant>

  datatype Request =
    | Bootstrap(tenant: string, domain: string, gross: int)
    | CreateUser(tenant: string, user: string, bytes: int)
    | AllocateQuota(tenant: string, user: string, bytes: int)

  /** What is checked before a transaction begins. */
  predicate ValidRequest(q: Request) {
    match q
    case Bootstrap(_, _, gross) => 0 < gross <= Quota.MAX_SAFE
    case CreateUser(_, _, bytes) => Quota.IsBytes(bytes)
    case AllocateQuota(_, _, bytes) => Quota.IsBytes(bytes)
  }

  datatype Row = Row(domain: string, gross: nat)

  datatype Ending = Committed | RolledBack | Refused(reason: Reason)

  datatype Reason = NotFound | Conflict | QuotaExceeded

  /** How far a transaction is: the statements behind it and what they returned. */
  datatype Phase =
    | Begun
    | Selected(row: Option<Row>)                // SELECT ... FROM tenants ... FOR UPDATE
    | UserSelected(row: Option<Row>, found: bool)
    | Summed(gross: nat, used: nat)
    | TenantInserted
    | UserInserted
    | Ready                                     // every statement before COMMIT has succeeded
    | Closed(ending: Ending)

  datatype Txn = Txn(request: Request, phase: Phase)

  /** Committed data, transactions, and who holds the lock of which tenant row (or of its key, while inserting it). */
  datatype World = World(db: Db, txns: map<nat, Txn>, locks: map<string, nat>, log: seq<Request>)

  datatype Action =
    | Begin(id: nat, request: Request)
    | Advance(id: nat)     // the next statement, unless it has to wait
    | Abort(id: nat)       // any failure: the client rolls back, or the connection is gone

  // ------------------------------------------------------ the transactions

  function AllocationsOf(db: Db, tenant: string): (m: map<string, nat>) {
    if tenant in db then db[tenant].allocations else map[]
  }

  predicate UserExists(db: Db, tenant: string, user: string) { tenant in db && user in db[tenant].users }

  function At(w: World, id: nat, q: Request, p: Phase): (r: World) { w.(txns := w.txns[id := Txn(q, p)]) }

  function Unlocked(locks: map<string, nat>, id: nat): (r: map<string, nat>) {
    map t | t in locks && locks[t] != id :: locks[t]
  }

  function Close(w: World, id: nat, q: Request, e: Ending): (r: World) {
    At(w.(locks := Unlocked(w.locks, id)), id, q, Closed(e))
  }

  /** The rows a request writes, visible to others from its COMMIT on. */
  function Written(db: Db, q: Request): (r: Db) {
    match q
    case Bootstrap(t, domain, gross) => if t in db || gross < 0 then db else db[t := Tenant(domain, gross, {}, map[])]
    case CreateUser(t, user, bytes) =>
      if t !in db || bytes < 0 then db
      else db[t := db[t].(users := db[t].users + {user}, allocations := db[t].allocations[user := bytes])]
    case AllocateQuota(t, user, bytes) =>
      if t !in db || bytes < 0 then db else db[t := db[t].(allocations := db[t].allocations[user := bytes])]
  }

  function SelectForUpdate(w: World, id: nat, q: Request): (r: World) {
    var t := q.tenant;
    if t !in w.db then At(w, id, q, Selected(None))
    else if t in w.locks then w
    else At(w.(locks := w.locks[t := id]), id, q, Selected(Some(Row(w.db[t].domain, w.db[t].gross))))
  }

  ghost function AfterSelect(w: World, id: nat, q: Request, row: Option<Row>): (r: World) {
    match q
    case Bootstrap(t, domain, gross) =>
      (match row
       case None =>
         if t in w.db then Close(w, id, q, RolledBack)
         else if t in w.locks then w
         else At(w.(locks := w.locks[t := id]), id, q, TenantInserted)
       case Some(row) =>
         if row.domain != domain || row.gross != gross then Close(w, id, q, Refused(Conflict)) else At(w, id, q, Ready))
    case CreateUser(t, _, _) =>
      (match row
       case None => Close(w, id, q, Refused(NotFound))
       case Some(row) => At(w, id, q, Summed(row.gross, Sum(AllocationsOf(w.db, t)))))
    case AllocateQuota(t, user, _) => At(w, id, q, UserSelected(row, UserExists(w.db, t, user)))
  }

  ghost function AfterUserSelect(w: World, id: nat, q: Request, row: Option<Row>, found: bool): (r: World) {
    match (q, row)
    case (AllocateQuota(t, user, _), Some(row)) =>
      if !found then Close(w, id, q, Refused(NotFound))
      else At(w, id, q, Summed(row.gross, Sum(AllocationsOf(w.db, t) - {user})))
    case _ => Close(w, id, q, Refused(NotFound))
  }

  function AfterSum(w: World, id: nat, q: Request, gross: nat, used: nat): (r: World) {
    match q
    case Bootstrap(_, _, _) => w
    case CreateUser(t, user, bytes) =>
      if used + bytes > gross then Close(w, id, q, Refused(QuotaExceeded))
      else if UserExists(w.db, t, user) then Close(w, id, q, RolledBack)
      else At(w, id, q, UserInserted)
    case AllocateQuota(_, _, bytes) =>
      if used + bytes > gross then Close(w, id, q, Refused(QuotaExceeded)) else At(w, id, q, Ready)
  }

  function AfterUserInsert(w: World, id: nat, q: Request): (r: World) {
    match q
    case CreateUser(t, user, _) =>
      if user in AllocationsOf(w.db, t) then Close(w, id, q, RolledBack) else At(w, id, q, Ready)
    case _ => w
  }

  function Commit(w: World, id: nat, q: Request): (r: World) {
    Close(w.(db := Written(w.db, q), log := w.log + [q]), id, q, Committed)
  }

  ghost function Step(w: World, a: Action): (r: World) {
    match a
    case Begin(id, q) => if id in w.txns || !ValidRequest(q) then w else At(w, id, q, Begun)
    case Abort(id) =>
      if id !in w.txns || w.txns[id].phase.Closed? then w else Close(w, id, w.txns[id].request, RolledBack)
    case Advance(id) => if id !in w.txns then w else Next(w, id, w.txns[id].request, w.txns[id].phase)
  }

  ghost function Next(w: World, id: nat, q: Request, p: Phase): (r: World) {
    match p
    case Begun => SelectForUpdate(w, id, q)
    case Selected(row) => AfterSelect(w, id, q, row)
    case UserSelected(row, found) => AfterUserSelect(w, id, q, row, found)
    case Summed(gross, used) => AfterSum(w, id, q, gross, used)
    case TenantInserted => At(w, id, q, Ready)
    case UserInserted => AfterUserInsert(w, id, q)
    case Ready => Commit(w, id, q)
    case Closed(_) => w
  }

  ghost function Run(w: World, actions: seq<Action>): (r: World)
    decreases |actions|
  {
    if actions == [] then w else Run(Step(w, actions[0]), actions[1..])
  }

  // ------------------------------------------------------ the sequential reference

  /** A tenant's rows as a quota ledger without usage. */
  function LedgerOf(t: Tenant): (l: Quota.Ledger) {
    Quota.Ledger(t.gross, t.allocations, map u | u in t.allocations :: 0, 0, map[])
  }

  /** One request carried out alone: the decision is the in-memory ledger's. */
  ghost function Atomic(db: Db, q: Request): (r: Option<Db>) {
    match q
    case Bootstrap(t, domain, gross) =>
      if t !in db then (if gross > 0 then Some(db[t := Tenant(domain, gross, {}, map[])]) else None)
      else if db[t].domain == domain && db[t].gross == gross then Some(db) else None
    case CreateUser(t, user, bytes) =>
      if t !in db then None
      else
        var o := Quota.Apply(LedgerOf(db[t]), Quota.Register(user, bytes));
        if o.reply.Stored? then
          Some(db[t := db[t].(users := db[t].users + {user}, allocations := o.ledger.allocations)])
        else None
    case AllocateQuota(t, user, bytes) =>
      if t !in db then None
      else
        var o := Quota.Apply(LedgerOf(db[t]), Quota.Allocate(user, bytes));
        if o.reply.Stored? then Some(db[t := db[t].(allocations := o.ledger.allocations)]) else None
  }

  /** The requests one after the other; `None` if any of them is refused. */
  ghost function Replay(log: seq<Request>): (r: Option<Db>) {
    if log == [] then Some(map[])
    else match Replay(log[..|log| - 1])
      case None => None
      case Some(db) => Atomic(db, log[|log| - 1])
  }

  // ------------------------------------------------------ the invariant

  ghost predicate TenantOk(t: Tenant) {
    0 < t.gross <= Quota.MAX_SAFE && t.users == t.allocations.Keys && Sum(t.allocations) <= t.gross
  }

  predicate Holds(locks: map<string, nat>, t: string, id: nat) { t in locks && locks[t] == id }

  predicate RowIs(db: Db, t: string, row: Row) { t in db && db[t].gross == row.gross && db[t].domain == row.domain }

  /** What a transaction relies on; it speaks only of its own tenant and its own lock. */
  ghost predicate TxnOk(db: Db, locks: map<string, nat>, id: nat, x: Txn) {
    var q, t := x.request, x.request.tenant;
    && ValidRequest(q)
    && match x.phase
      case Begun => true
      case Selected(row) => row.Some? ==> Holds(locks, t, id) && RowIs(db, t, row.value)
      case UserSelected(row, found) =>
        && q.AllocateQuota?
        && (row.Some? ==> Holds(locks, t, id) && RowIs(db, t, row.value) && found == UserExists(db, t, q.user))
      case Summed(gross, used) =>
        && !q.Bootstrap? && Holds(locks, t, id) && t in db && gross == db[t].gross
        && used == Sum(if q.CreateUser? then db[t].allocations else db[t].allocations - {q.user})
        && (q.AllocateQuota? ==> q.user in db[t].users)
      case TenantInserted => q.Bootstrap? && Holds(locks, t, id) && t !in db
      case UserInserted =>
        && q.CreateUser? && Holds(locks, t, id) && t in db && q.user !in db[t].users
        && Sum(db[t].allocations) + q.bytes <= db[t].gross
      case Ready => Holds(locks, t, id) && Atomic(db, q).Some?
      case Closed(_) => true
  }

  ghost predicate Inv(w: World) {
    && (forall t :: t in w.db ==> TenantOk(w.db[t]))
    && (forall id :: id in w.txns ==> TxnOk(w.db, w.locks, id, w.txns[id]))
    && Replay(w.log) == Some(w.db)
  }

  /** Nothing that happens to other tenants or other locks disturbs a transaction. */
  lemma TxnOkStable(db: Db, locks: map<string, nat>, after: Db, held: map<string, nat>, id: nat, x: Txn)
    requires TxnOk(db, locks, id, x)
    requires Holds(locks, x.request.tenant, id) ==> Holds(held, x.request.tenant, id)
    requires Holds(locks, x.request.tenant, id) ==> (x.request.tenant in db <==> x.request.tenant in after)
    requires Holds(locks, x.request.tenant, id) && x.request.tenant in db ==>
               after[x.request.tenant] == db[x.request.tenant]
    ensures TxnOk(after, held, id, x)
  {
    hide Sum, Quota.Apply;
  }

  /** A step that leaves the committed data alone and touches only locks that are free or its own. */
  lemma LocalStepKeepsInv(w: World, locks: map<string, nat>, id: nat, x: Txn)
    requires Inv(w) && TxnOk(w.db, locks, id, x)
    requires forall t, i :: i != id && Holds(w.locks, t, i) ==> Holds(locks, t, i)
    ensures Inv(w.(locks := locks, txns := w.txns[id := x]))
  {
    hide TxnOk, TenantOk, Replay;
    forall i | i in w.txns && i != id ensures TxnOk(w.db, locks, i, w.txns[i]) {
      TxnOkStable(w.db, w.locks, w.db, locks, i, w.txns[i]);
    }
  }

  lemma CloseKeepsInv(w: World, id: nat, q: Request, e: Ending)
    requires Inv(w) && ValidRequest(q)
    ensures Inv(Close(w, id, q, e))
  {
    hide Inv;
    LocalStepKeepsInv(w, Unlocked(w.locks, id), id, Txn(q, Closed(e)));
  }

  lemma AtKeepsInv(w: World, id: nat, q: Request, p: Phase)
    requires Inv(w) && TxnOk(w.db, w.locks, id, Txn(q, p))
    ensures Inv(At(w, id, q, p))
  {
    hide Inv, TxnOk;
    LocalStepKeepsInv(w, w.locks, id, Txn(q, p));
  }

  lemma LockKeepsInv(w: World, id: nat, q: Request, p: Phase)
    requires Inv(w) && q.tenant !in w.locks && TxnOk(w.db, w.locks[q.tenant := id], id, Txn(q, p))
    ensures Inv(At(w.(locks := w.locks[q.tenant := id]), id, q, p))
  {
    hide Inv, TxnOk;
    LocalStepKeepsInv(w, w.locks[q.tenant := id], id, Txn(q, p));
  }

  /** What an accepted request does to the rows is what the transaction writes. */
  lemma AtomicIsWritten(db: Db, q: Request)
    requires ValidRequest(q) && Atomic(db, q).Some?
    ensures Atomic(db, q) == Some(Written(db, q))
  {
    hide Sum;
  }

  /** An atomic request keeps every tenant within its gross quota: the ledger's own invariant. */
  lemma AtomicKeepsTenants(db: Db, q: Request)
    requires ValidRequest(q) && Atomic(db, q).Some? && forall t :: t in db ==> TenantOk(db[t])
    ensures var z := Atomic(db, q).value; forall t :: t in z ==> TenantOk(z[t])
  {
    hide Sum;
    AtomicIsWritten(db, q);
    var t := q.tenant;
    match q {
      case Bootstrap(_, _, _) =>
        assert Sum<string>(map[]) == 0 by { EmptySum(); }
      case CreateUser(_, user, bytes) => SumUpdate(db[t].allocations, user, bytes);
      case AllocateQuota(_, user, bytes) => SumUpdate(db[t].allocations, user, bytes);
    }
  }

  lemma EmptySum()
    ensures Sum<string>(map[]) == 0
  {
  }

  lemma CommitKeepsInv(w: World, id: nat)
    requires Inv(w) && id in w.txns && w.txns[id].phase.Ready?
    ensures Inv(Commit(w, id, w.txns[id].request))
  {
    hide Atomic, Written, TenantOk, Replay;
    var q := w.txns[id].request;
    var z := Commit(w, id, q);
    assert TxnOk(w.db, w.locks, id, w.txns[id]);
    AtomicIsWritten(w.db, q);
    AtomicKeepsTenants(w.db, q);
    ReplaySnoc(w.log, q);
    hide TxnOk;
    forall i | i in z.txns ensures TxnOk(z.db, z.locks, i, z.txns[i]) {
      if i == id {
        ClosedOk(z.db, z.locks, id, q);
      } else {
        if w.txns[i].request.tenant != q.tenant { WrittenElsewhere(w.db, q, w.txns[i].request.tenant); }
        TxnOkStable(w.db, w.locks, z.db, z.locks, i, w.txns[i]);
      }
    }
  }

  lemma ClosedOk(db: Db, locks: map<string, nat>, id: nat, q: Request)
    requires ValidRequest(q)
    ensures TxnOk(db, locks, id, Txn(q, Closed(Committed)))
  {
  }

  lemma WrittenElsewhere(db: Db, q: Request, t: string)
    requires t != q.tenant
    ensures (t in db <==> t in Written(db, q)) && (t in db ==> Written(db, q)[t] == db[t])
  {
  }

  lemma ReplaySnoc(log: seq<Request>, q: Request)
    ensures Replay(log + [q]) == match Replay(log) case None => None case Some(db) => Atomic(db, q)
  {
    hide Atomic;
    assert (log + [q])[..|log|] == log;
  }

  /** The sum read under the lock is the ledger's sum, so the test is the ledger's decision. */
  lemma CreateAgrees(t: Tenant, user: string, bytes: int)
    requires TenantOk(t) && Quota.IsBytes(bytes) && user !in t.users
    ensures Quota.Apply(LedgerOf(t), Quota.Register(user, bytes)).reply.Stored?
            <==> Sum(t.allocations) + bytes <= t.gross
    ensures Sum(t.allocations) + bytes > t.gross <==> Quota.Decide(t.gross, t.allocations, user, bytes).Some?
  {
    hide Sum;
    SumAbsent(t.allocations, user);
  }

  lemma AllocateAgrees(t: Tenant, user: string, bytes: int)
    requires TenantOk(t) && Quota.IsBytes(bytes) && user in t.users
    ensures Quota.Apply(LedgerOf(t), Quota.Allocate(user, bytes)).reply.Stored?
            <==> Sum(t.allocations - {user}) + bytes <= t.gross
    ensures Sum(t.allocations - {user}) + bytes > t.gross <==> Quota.Decide(t.gross, t.allocations, user, bytes).Some?
  {
    hide Sum;
  }

  lemma SelectKeepsInv(w: World, id: nat, q: Request)
    requires Inv(w) && ValidRequest(q)
    ensures Inv(SelectForUpdate(w, id, q))
  {
    hide Inv;
    var t := q.tenant;
    if t !in w.db {
      AtKeepsInv(w, id, q, Selected(None));
    } else if t !in w.locks {
      LockKeepsInv(w, id, q, Selected(Some(Row(w.db[t].domain, w.db[t].gross))));
    }
  }

  lemma AfterSelectKeepsInv(w: World, id: nat, q: Request, row: Option<Row>)
    requires Inv(w) && TxnOk(w.db, w.locks, id, Txn(q, Selected(row)))
    ensures Inv(AfterSelect(w, id, q, row))
  {
    hide Inv, Sum;
    match q {
      case Bootstrap(t, domain, gross) =>
        if row.None? {
          if t in w.db { CloseKeepsInv(w, id, q, RolledBack); }
          else if t !in w.locks { LockKeepsInv(w, id, q, TenantInserted); }
        } else if row.value.domain != domain || row.value.gross != gross {
          CloseKeepsInv(w, id, q, Refused(Conflict));
        } else {
          AtKeepsInv(w, id, q, Ready);
        }
      case CreateUser(t, _, _) =>
        if row.None? { CloseKeepsInv(w, id, q, Refused(NotFound)); }
        else { AtKeepsInv(w, id, q, Summed(row.value.gross, Sum(AllocationsOf(w.db, t)))); }
      case AllocateQuota(t, user, _) =>
        AtKeepsInv(w, id, q, UserSelected(row, UserExists(w.db, t, user)));
    }
  }

  lemma AfterUserSelectKeepsInv(w: World, id: nat, q: Request, row: Option<Row>, found: bool)
    requires Inv(w) && TxnOk(w.db, w.locks, id, Txn(q, UserSelected(row, found)))
    ensures Inv(AfterUserSelect(w, id, q, row, found))
  {
    hide Inv, Sum;
    CloseKeepsInv(w, id, q, Refused(NotFound));
    if row.Some? && found {
      AtKeepsInv(w, id, q, Summed(row.value.gross, Sum(AllocationsOf(w.db, q.tenant) - {q.user})));
    }
  }

  lemma AfterSumKeepsInv(w: World, id: nat, q: Request, gross: nat, used: nat)
    requires Inv(w) && TxnOk(w.db, w.locks, id, Txn(q, Summed(gross, used)))
    ensures Inv(AfterSum(w, id, q, gross, used))
  {
    hide Sum, TenantOk, Quota.Apply, Quota.IsBytes;
    CloseKeepsInv(w, id, q, Refused(QuotaExceeded));
    CloseKeepsInv(w, id, q, RolledBack);
    if used + q.bytes <= gross {
      var t := w.db[q.tenant];
      if q.CreateUser? {
        if q.user !in t.users { AtKeepsInv(w, id, q, UserInserted); }
      } else {
        AllocateAgrees(t, q.user, q.bytes);
        AtKeepsInv(w, id, q, Ready);
      }
    }
  }

  lemma AfterUserInsertKeepsInv(w: World, id: nat, q: Request)
    requires Inv(w) && TxnOk(w.db, w.locks, id, Txn(q, UserInserted))
    ensures Inv(AfterUserInsert(w, id, q))
  {
    hide Sum, TenantOk, Quota.Apply, Quota.IsBytes;
    CloseKeepsInv(w, id, q, RolledBack);
    if q.user !in AllocationsOf(w.db, q.tenant) {
      CreateAgrees(w.db[q.tenant], q.user, q.bytes);
      AtKeepsInv(w, id, q, Ready);
    }
  }

  lemma NextKeepsInv(w: World, id: nat)
    requires Inv(w) && id in w.txns
    ensures Inv(Next(w, id, w.txns[id].request, w.txns[id].phase))
  {
    hide Inv, SelectForUpdate, AfterSelect, AfterUserSelect, AfterSum, AfterUserInsert, Commit, Sum;
    var q := w.txns[id].request;
    TxnFact(w, id);
    match w.txns[id].phase {
      case Begun => SelectKeepsInv(w, id, q);
      case Selected(row) => AfterSelectKeepsInv(w, id, q, row);
      case UserSelected(row, found) => AfterUserSelectKeepsInv(w, id, q, row, found);
      case Summed(gross, used) => AfterSumKeepsInv(w, id, q, gross, used);
      case TenantInserted => AtKeepsInv(w, id, q, Ready);
      case UserInserted => AfterUserInsertKeepsInv(w, id, q);
      case Ready => CommitKeepsInv(w, id);
      case Closed(_) =>
    }
  }

  lemma TxnFact(w: World, id: nat)
    requires Inv(w) && id in w.txns
    ensures TxnOk(w.db, w.locks, id, w.txns[id])
  {
  }

  lemma StepKeepsInv(w: World, a: Action)
    requires Inv(w)
    ensures Inv(Step(w, a))
  {
    hide Inv, Next, Close;
    match a {
      case Begin(id, q) => if ValidRequest(q) { AtKeepsInv(w, id, q, Begun); }
      case Abort(id) => if id in w.txns { TxnFact(w, id); CloseKeepsInv(w, id, w.txns[id].request, RolledBack); }
      case Advance(id) => if id in w.txns { NextKeepsInv(w, id); }
    }
  }

  // ------------------------------------------------------ every interleaving

  const START: World := World(map[], map[], map[], [])

  lemma {:induction false} RunKeepsInv(w: World, actions: seq<Action>)
    requires Inv(w)
    ensures Inv(Run(w, actions))
    decreases |actions|
  {
    hide Inv, Step;
    if actions != [] {
      StepKeepsInv(w, actions[0]);
      RunKeepsInv(Step(w, actions[0]), actions[1..]);
    }
  }

  /**
   Every interleaving is serialisable in commit order: the committed rows are
   what the sequential ledger gives, each request accepted by it; so no tenant's
   allocations ever sum above its gross quota.
   */
  lemma CommitsAreSequential(actions: seq<Action>, tenant: string)
    ensures var w := Run(START, actions);
            && Replay(w.log) == Some(w.db)
            && (tenant in w.db ==> Sum(w.db[tenant].allocations) <= w.db[tenant].gross)
  {
    hide Run;
    RunKeepsInv(START, actions);
  }

  /** A request is refused for quota only when the ledger refuses it on the rows committed at that moment. */
  lemma QuotaRefusalsAreJustified(w: World, id: nat)
    requires Inv(w) && id in w.txns && !w.txns[id].phase.Closed?
    requires var z := Step(w, Advance(id)); id in z.txns && z.txns[id].phase == Closed(Refused(QuotaExceeded))
    ensures var q := w.txns[id].request;
            && !q.Bootstrap? && q.tenant in w.db
            && ((q.CreateUser? && q.user in w.db[q.tenant].users)
                || Quota.Decide(w.db[q.tenant].gross, w.db[q.tenant].allocations, q.user, q.bytes).Some?)
  {
    hide Sum, TenantOk, Replay;
    TxnFact(w, id);
    var q := w.txns[id].request;
    var t := w.db[q.tenant];
    if q.CreateUser? {
      if q.user !in t.users { CreateAgrees(t, q.user, q.bytes); }
    } else {
      AllocateAgrees(t, q.user, q.bytes);
    }
  }

  /** Domain and gross quota never change, and no tenant disappears. */
  lemma {:induction false} TenantIsImmutable(w: World, actions: seq<Action>, tenant: string)
    requires tenant in w.db
    ensures var z := Run(w, actions);
            tenant in z.db && z.db[tenant].gross == w.db[tenant].gross && z.db[tenant].domain == w.db[tenant].domain
    decreases |actions|
  {
    hide Sum, AfterUserSelect;
    if actions != [] {
      StepKeepsTenant(w, actions[0], tenant);
      TenantIsImmutable(Step(w, actions[0]), actions[1..], tenant);
    }
  }

  lemma StepKeepsTenant(w: World, a: Action, tenant: string)
    requires tenant in w.db
    ensures var z := Step(w, a);
            tenant in z.db && z.db[tenant].gross == w.db[tenant].gross && z.db[tenant].domain == w.db[tenant].domain
  {
    hide Sum;
  }
}
