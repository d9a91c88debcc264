/**
 The second-factor gate of the web login: pending challenges, the factors they
 need, and when a challenge hands its login back.  What the factor managers
 answer is left open: every answer, and every exception, is an input.
 */
module MfaGate {
  import opened Strings

  datatype Factor = TOTP | WEBAUTHN

  datatype Mode = Disabled | Optional | Required

  datatype Config = Config(
    totpMode: Mode, webauthnMode: Mode, hasTotp: bool, hasWebauthn: bool,
    recoveryEnabled: bool, ttlMs: nat, maxFailures: nat, maxPending: nat)

  type Token = string
  type Login = string

  datatype Entry = Entry(
    login: Login, tenant: string, user: string, expiresAt: nat,
    needs: set<Factor>, required: set<Factor>, enrolled: set<Factor>, satisfied: set<Factor>,
    failures: nat, enrollment: Option<string>, recoveryIssued: bool)

  /** What the gate did, in order. */
  datatype Event =
    | Began(token: Token, login: Login, active: set<Factor>, needs: set<Factor>, expiresAt: nat)
    | Verified(token: Token, factor: Factor)
    | Recovered(token: Token, factor: Factor)
    | Enrolled(token: Token, factor: Factor)
    | Completed(token: Token, login: Login, at: nat)

  datatype Gate = Gate(pending: map<Token, Entry>, log: seq<Event>)

  datatype Result = NotRequired | Unavailable | Invalid | NotAllowed | StepFailed | StepPending
    | Complete(login: Login) | Ok | Crashed

  /** Reading the factor metadata of one type. */
  datatype Read = Has | HasNot | ReadThrows

  /** What a manager and the calls after it do during one step. */
  datatype Env = Env(
    accepted: bool,           // the manager verified, confirmed, registered or consumed
    viewThrows: bool,         // building the challenge view afterwards throws
    recoveryRead: Read,       // is there an active recovery factor
    enrollThrows: bool)       // issuing recovery codes throws

  datatype Op =
    | Begin(
        login: Login, tenant: string, user: string, token: Token, now: nat, later: nat, totp: Read, webauthn: Read,
        viewThrows: bool)
    | EnrollTotp(token: Token, now: nat, reply: Option<string>)
    | VerifyTotp(token: Token, isText: bool, now: nat, env: Env)
    | VerifyRecovery(token: Token, isText: bool, now: nat, env: Env)
    | WebauthnOptions(token: Token, now: nat)
    | WebauthnComplete(token: Token, now: nat, env: Env)

  // ------------------------------------------------------ helpers of the gate

  function Unexpired(pending: map<Token, Entry>, now: nat): (r: map<Token, Entry>) {
    map t | t in pending && pending[t].expiresAt > now :: pending[t]
  }

  /** `lookup`: an expired challenge is dropped on sight. */
  function Looked(g: Gate, token: Token, now: nat): (r: Gate) {
    if token in g.pending && g.pending[token].expiresAt <= now then g.(pending := g.pending - {token}) else g
  }

  predicate MayEnroll(e: Entry, f: Factor) { f in e.needs && f !in e.enrolled && e.enrolled <= e.satisfied }

  /** `failure`. */
  function Fail(c: Config, g: Gate, token: Token): (r: Gate)
    requires token in g.pending
  {
    var e := g.pending[token].(failures := g.pending[token].failures + 1);
    if e.failures >= c.maxFailures then g.(pending := g.pending - {token}) else g.(pending := g.pending[token := e])
  }

  datatype Outcome = Outcome(gate: Gate, result: Result)

  /** A factor was satisfied: store the entry, then `advance`; an exception in there counts as a failure. */
  function Advance(c: Config, g: Gate, token: Token, e: Entry, event: Event, now: nat, throws: bool): (o: Outcome) {
    var stored := Gate(g.pending[token := e], g.log + [event]);
    if throws then Outcome(Fail(c, stored, token), StepFailed)
    else if e.needs <= e.satisfied then
      Outcome(Gate(stored.pending - {token}, stored.log + [Completed(token, e.login, now)]), Complete(e.login))
    else Outcome(stored, StepPending)
  }

  /** A factor the user already had was satisfied. */
  function Satisfy(c: Config, g: Gate, token: Token, f: Factor, event: Event, now: nat, env: Env): (o: Outcome)
    requires token in g.pending
  {
    var e := g.pending[token];
    var e' := e.(satisfied := e.satisfied + {f});
    Advance(c, g, token, e', event, now, !(e'.needs <= e'.satisfied) && env.viewThrows)
  }

  /** A new factor was enrolled; recovery codes are issued with the first one. */
  function Adopt(c: Config, g: Gate, token: Token, f: Factor, now: nat, env: Env): (o: Outcome)
    requires token in g.pending
  {
    var e := g.pending[token];
    var e' := e.(enrolled := e.enrolled + {f}, satisfied := e.satisfied + {f});
    var asks := c.recoveryEnabled && !e.recoveryIssued;
    var issues := asks && env.recoveryRead.HasNot?;
    var e'' := if issues then e'.(recoveryIssued := true) else e';
    var throws := (asks && env.recoveryRead.ReadThrows?) || (issues && env.enrollThrows);
    Advance(c, g, token, e'', Enrolled(token, f), now, throws || (!(e'.needs <= e'.satisfied) && env.viewThrows))
  }

  datatype Needs = Needs(needs: set<Factor>, required: set<Factor>, enrolled: set<Factor>)

  /** One round of the loop over the factor types; `None` is the thrown error. */
  function AddFactor(n: Needs, f: Factor, mode: Mode, hasManager: bool, read: Read): (r: Option<Needs>) {
    if mode.Disabled? then Some(n)
    else if !hasManager then (if mode.Required? then None else Some(n))
    else if read.ReadThrows? then None
    else
      var has := read.Has?;
      Some(Needs(
        if mode.Required? || has then n.needs + {f} else n.needs,
        if mode.Required? then n.required + {f} else n.required,
        if has then n.enrolled + {f} else n.enrolled))
  }

  function NeedsOf(c: Config, totp: Read, webauthn: Read): (r: Option<Needs>) {
    var first := AddFactor(Needs({}, {}, {}), TOTP, c.totpMode, c.hasTotp, totp);
    if first.None? then None else AddFactor(first.value, WEBAUTHN, c.webauthnMode, c.hasWebauthn, webauthn)
  }

  /** The factor a recovery code stands in for: the first one that is enrolled and still open. */
  function RecoveryTarget(e: Entry): (r: Option<Factor>) {
    if TOTP in e.needs && TOTP in e.enrolled && TOTP !in e.satisfied then Some(TOTP)
    else if WEBAUTHN in e.needs && WEBAUTHN in e.enrolled && WEBAUTHN !in e.satisfied then Some(WEBAUTHN)
    else None
  }

  function Step(c: Config, g: Gate, op: Op): (o: Outcome) {
    match op
    case Begin(login, tenant, user, token, now, later, totp, webauthn, viewThrows) =>
      var purged := g.(pending := Unexpired(g.pending, now));
      var n := NeedsOf(c, totp, webauthn);
      if n.None? then Outcome(purged, Unavailable)
      else if n.value.needs == {} then Outcome(purged, NotRequired)
      else if |purged.pending| >= c.maxPending then Outcome(purged, Unavailable)
      else
        var e := Entry(login, tenant, user, later + c.ttlMs, n.value.needs, n.value.required, n.value.enrolled, {}, 0,
          None, false);
        var event := Began(token, login, e.enrolled, e.needs, e.expiresAt);
        Outcome(Gate(purged.pending[token := e], purged.log + [event]), if viewThrows then Crashed else StepPending)
    case EnrollTotp(token, now, reply) =>
      var l := Looked(g, token, now);
      if token !in l.pending then Outcome(l, Invalid)
      else if !c.hasTotp || !MayEnroll(l.pending[token], TOTP) || reply.None? then Outcome(l, NotAllowed)
      else Outcome(l.(pending := l.pending[token := l.pending[token].(enrollment := reply)]), Ok)
    case VerifyTotp(token, isText, now, env) =>
      var l := Looked(g, token, now);
      if token !in l.pending then Outcome(l, Invalid)
      else
        var e := l.pending[token];
        if !c.hasTotp || TOTP !in e.needs || TOTP in e.satisfied || !isText then Outcome(l, NotAllowed)
        else if TOTP in e.enrolled then
          if !env.accepted then Outcome(Fail(c, l, token), StepFailed)
          else Satisfy(c, l, token, TOTP, Verified(token, TOTP), now, env)
        else if e.enrollment.None? || !MayEnroll(e, TOTP) then Outcome(l, NotAllowed)
        else if !env.accepted then Outcome(Fail(c, l, token), StepFailed)
        else Adopt(c, l, token, TOTP, now, env)
    case VerifyRecovery(token, isText, now, env) =>
      var l := Looked(g, token, now);
      if token !in l.pending then Outcome(l, Invalid)
      else if !c.recoveryEnabled || !isText then Outcome(l, NotAllowed)
      else
        var target := RecoveryTarget(l.pending[token]);
        if target.None? then Outcome(l, NotAllowed)
        else if !env.accepted then Outcome(Fail(c, l, token), StepFailed)
        else Satisfy(c, l, token, target.value, Recovered(token, target.value), now, env)
    case WebauthnOptions(token, now) =>
      var l := Looked(g, token, now);
      if token !in l.pending then Outcome(l, Invalid)
      else
        var e := l.pending[token];
        if !c.hasWebauthn || WEBAUTHN !in e.needs || WEBAUTHN in e.satisfied then Outcome(l, NotAllowed)
        else if WEBAUTHN in e.enrolled || MayEnroll(e, WEBAUTHN) then Outcome(l, Ok)
        else Outcome(l, NotAllowed)
    case WebauthnComplete(token, now, env) =>
      var l := Looked(g, token, now);
      if token !in l.pending then Outcome(l, Invalid)
      else
        var e := l.pending[token];
        if !c.hasWebauthn || WEBAUTHN !in e.needs || WEBAUTHN in e.satisfied then Outcome(l, NotAllowed)
        else if WEBAUTHN in e.enrolled then
          if !env.accepted then Outcome(Fail(c, l, token), StepFailed)
          else Satisfy(c, l, token, WEBAUTHN, Verified(token, WEBAUTHN), now, env)
        else if !MayEnroll(e, WEBAUTHN) then Outcome(l, NotAllowed)
        else if !env.accepted then Outcome(Fail(c, l, token), StepFailed)
        else Adopt(c, l, token, WEBAUTHN, now, env)
  }

  // ------------------------------------------------------ reading the log

  function Last<T>(s: seq<T>): (t: T)
    requires s != []
  {
    s[|s| - 1]
  }

  function Front<T>(s: seq<T>): (t: seq<T>)
    requires s != []
    ensures |t| == |s| - 1
  {
    s[..|s| - 1]
  }

  lemma Snoc<T>(s: seq<T>, x: T)
    ensures Last(s + [x]) == x && Front(s + [x]) == s
  {
  }

  /** How the challenge with this token began. */
  function BeginOf(log: seq<Event>, t: Token): (r: Option<Event>)
    ensures r.Some? ==> r.value.Began? && r.value.token == t
  {
    if log == [] then None
    else if BeginOf(Front(log), t).Some? then BeginOf(Front(log), t)
    else if Last(log).Began? && Last(log).token == t then Some(Last(log))
    else None
  }

  /** Factors of a challenge that were verified or covered by a recovery code. */
  function Covered(log: seq<Event>, t: Token): (r: set<Factor>) {
    if log == [] then {}
    else
      Covered(Front(log), t)
      + if (Last(log).Verified? || Last(log).Recovered?) && Last(log).token == t then {Last(log).factor} else {}
  }

  /** Factors enrolled during a challenge. */
  function Registered(log: seq<Event>, t: Token): (r: set<Factor>) {
    if log == [] then {}
    else Registered(Front(log), t) + if Last(log).Enrolled? && Last(log).token == t then {Last(log).factor} else {}
  }

  function Finished(log: seq<Event>, t: Token): (b: bool) {
    log != [] && (Finished(Front(log), t) || (Last(log).Completed? && Last(log).token == t))
  }

  /** What may happen after the events in `log`. */
  predicate LawfulNext(log: seq<Event>, e: Event) {
    match e
    case Began(t, _, active, needs, _) => BeginOf(log, t).None? && active <= needs && needs != {}
    case Verified(t, f) =>
      Open(log, t) && f in BeginOf(log, t).value.active && Unsettled(log, t, f) && f !in Registered(log, t)
    case Recovered(t, f) =>
      Open(log, t) && f in BeginOf(log, t).value.active && Unsettled(log, t, f) && f !in Registered(log, t)
    case Enrolled(t, f) =>
      && Open(log, t) && f !in Registered(log, t)
      && f !in BeginOf(log, t).value.active
      && BeginOf(log, t).value.active <= Covered(log, t)
    case Completed(t, login, at) =>
      && Open(log, t)
      && login == BeginOf(log, t).value.login
      && at < BeginOf(log, t).value.expiresAt
      && BeginOf(log, t).value.active <= Covered(log, t)
      && BeginOf(log, t).value.needs <= Covered(log, t) + Registered(log, t)
  }

  /** The challenge has begun and has not completed. */
  predicate Open(log: seq<Event>, t: Token) { BeginOf(log, t).Some? && !Finished(log, t) }

  predicate Unsettled(log: seq<Event>, t: Token, f: Factor) { f !in Covered(log, t) }

  /**
   Every event was lawful when it happened: a token begins once and completes
   at most once, before its expiry, with the login it began with, after every
   factor active at the beginning was verified or covered by a recovery code
   of its own; a new factor is enrolled only after all of those.
   */
  predicate Lawful(log: seq<Event>) {
    log == [] || (Lawful(Front(log)) && LawfulNext(Front(log), Last(log)))
  }

  // ------------------------------------------------------ the invariant

  predicate Linked(c: Config, log: seq<Event>, t: Token, e: Entry) {
    && Open(log, t)
    && var b := BeginOf(log, t).value;
    && b.login == e.login && b.needs == e.needs && b.expiresAt == e.expiresAt
    && b.active <= e.needs
    && e.satisfied == Covered(log, t) + Registered(log, t)
    && e.enrolled == b.active + Registered(log, t)
    && Covered(log, t) <= b.active
    && (Registered(log, t) != {} ==> b.active <= Covered(log, t))
    && e.satisfied <= e.enrolled <= e.needs
    && e.failures < c.maxFailures
  }

  ghost predicate Inv(c: Config, g: Gate) {
    && Lawful(g.log)
    && |g.pending| <= c.maxPending
    && forall t :: t in g.pending ==> Linked(c, g.log, t, g.pending[t])
  }

  /** The token that `begin` draws was never used before. */
  predicate Fresh(g: Gate, op: Op) { op.Begin? ==> BeginOf(g.log, op.token).None? }

  lemma AppendKeepsOthers(log: seq<Event>, e: Event, t: Token)
    requires e.token != t
    ensures BeginOf(log + [e], t) == BeginOf(log, t) && Covered(log + [e], t) == Covered(log, t)
    ensures Registered(log + [e], t) == Registered(log, t) && Finished(log + [e], t) == Finished(log, t)
  {
    Snoc(log, e);
  }

  lemma AppendOwn(log: seq<Event>, e: Event)
    ensures var t := e.token;
            && (BeginOf(log, t).Some? ==> BeginOf(log + [e], t) == BeginOf(log, t))
            && (BeginOf(log, t).None? && e.Began? ==> BeginOf(log + [e], t) == Some(e))
            && Covered(log + [e], t) == Covered(log, t) + (if e.Verified? || e.Recovered? then {e.factor} else {})
            && Registered(log + [e], t) == Registered(log, t) + (if e.Enrolled? then {e.factor} else {})
            && Finished(log + [e], t) == (Finished(log, t) || e.Completed?)
            && (Lawful(log) && LawfulNext(log, e) ==> Lawful(log + [e]))
  {
    Snoc(log, e);
  }

  lemma {:induction false} NothingBeforeBegin(log: seq<Event>, t: Token)
    requires Lawful(log) && BeginOf(log, t).None?
    ensures Covered(log, t) == {} && Registered(log, t) == {} && !Finished(log, t)
    decreases |log|
  {
    if log != [] { NothingBeforeBegin(Front(log), t); }
  }

  lemma OthersStayLinked(c: Config, g: Gate, e: Event)
    requires Inv(c, g)
    ensures forall t :: t in g.pending && t != e.token ==> Linked(c, g.log + [e], t, g.pending[t])
  {
    hide BeginOf, Covered, Registered, Finished, Lawful;
    forall t | t in g.pending && t != e.token ensures Linked(c, g.log + [e], t, g.pending[t]) {
      AppendKeepsOthers(g.log, e, t);
    }
  }

  lemma FewerKeepsInv(c: Config, g: Gate, pending: map<Token, Entry>)
    requires Inv(c, g) && pending.Keys <= g.pending.Keys && forall t :: t in pending ==> pending[t] == g.pending[t]
    ensures Inv(c, g.(pending := pending))
  {
    hide Linked, Lawful;
    Subset(pending.Keys, g.pending.Keys);
    assert |pending| == |pending.Keys| && |g.pending| == |g.pending.Keys|;
  }

  lemma {:induction false} Subset<T>(a: set<T>, b: set<T>)
    requires a <= b
    ensures |a| <= |b|
  {
    if a != {} {
      var x :| x in a;
      Subset(a - {x}, b - {x});
    }
  }

  lemma SameSize(m: map<Token, Entry>, t: Token, e: Entry)
    requires t in m
    ensures |m[t := e]| == |m|
  {
    assert m[t := e].Keys == m.Keys;
    assert |m[t := e]| == |m[t := e].Keys| && |m| == |m.Keys|;
  }

  /** Storing an entry that is as much in step with the log as the one before. */
  lemma EntryKeepsInv(c: Config, g: Gate, token: Token, e: Entry)
    requires Inv(c, g) && token in g.pending && Linked(c, g.log, token, e)
    ensures Inv(c, g.(pending := g.pending[token := e]))
  {
    hide Linked, Lawful;
    SameSize(g.pending, token, e);
  }

  lemma LinkedStays(c: Config, log: seq<Event>, token: Token, e: Entry, failures: nat, enrollment: Option<string>)
    requires Linked(c, log, token, e) && failures < c.maxFailures
    ensures Linked(c, log, token, e.(failures := failures, enrollment := enrollment))
  {
    hide BeginOf, Covered, Registered, Finished;
  }

  lemma FailKeepsInv(c: Config, g: Gate, token: Token)
    requires Inv(c, g) && token in g.pending
    ensures Inv(c, Fail(c, g, token))
  {
    hide Linked, Lawful;
    var e := g.pending[token];
    if e.failures + 1 >= c.maxFailures {
      FewerKeepsInv(c, g, g.pending - {token});
    } else {
      LinkedStays(c, g.log, token, e, e.failures + 1, e.enrollment);
      EntryKeepsInv(c, g, token, e.(failures := e.failures + 1));
    }
  }

  /** Storing an entry together with the event that changed it. */
  lemma StoreKeepsInv(c: Config, g: Gate, e: Entry, event: Event)
    requires Inv(c, g) && event.token in g.pending
    requires LawfulNext(g.log, event) && Linked(c, g.log + [event], event.token, e)
    ensures Inv(c, Gate(g.pending[event.token := e], g.log + [event]))
  {
    hide BeginOf, Covered, Registered, Finished, Lawful, Linked, LawfulNext;
    OthersStayLinked(c, g, event);
    AppendOwn(g.log, event);
    SameSize(g.pending, event.token, e);
  }

  lemma AdvanceKeepsInv(c: Config, g: Gate, token: Token, e: Entry, event: Event, now: nat, throws: bool)
    requires Inv(c, g) && token in g.pending && event.token == token
    requires LawfulNext(g.log, event) && Linked(c, g.log + [event], token, e) && now < e.expiresAt
    ensures Inv(c, Advance(c, g, token, e, event, now, throws).gate)
  {
    hide BeginOf, Covered, Registered, Finished, Lawful;
    var stored := Gate(g.pending[token := e], g.log + [event]);
    StoreKeepsInv(c, g, e, event);
    if throws {
      FailKeepsInv(c, stored, token);
    } else if e.needs <= e.satisfied {
      var done := Completed(token, e.login, now);
      assert LawfulNext(stored.log, done);
      AppendOwn(stored.log, done);
      OthersStayLinked(c, stored, done);
      DropKeepsSize(stored.pending, token);
    }
  }

  lemma DropKeepsSize(m: map<Token, Entry>, t: Token)
    ensures |m - {t}| <= |m|
  {
    Subset((m - {t}).Keys, m.Keys);
    assert |m - {t}| == |(m - {t}).Keys| && |m| == |m.Keys|;
  }

  lemma SatisfyKeepsInv(c: Config, g: Gate, token: Token, f: Factor, event: Event, now: nat, env: Env)
    requires Inv(c, g) && token in g.pending && now < g.pending[token].expiresAt
    requires event == Verified(token, f) || event == Recovered(token, f)
    requires f in g.pending[token].enrolled && f !in g.pending[token].satisfied
    ensures Inv(c, Satisfy(c, g, token, f, event, now, env).gate)
  {
    hide BeginOf, Covered, Registered, Finished, Lawful;
    var e := g.pending[token];
    assert Linked(c, g.log, token, e);
    AppendOwn(g.log, event);
    AdvanceKeepsInv(c, g, token, e.(satisfied := e.satisfied + {f}), event, now,
                    !(e.needs <= e.satisfied + {f}) && env.viewThrows);
  }

  lemma AdoptKeepsInv(c: Config, g: Gate, token: Token, f: Factor, now: nat, env: Env)
    requires Inv(c, g) && token in g.pending && now < g.pending[token].expiresAt
    requires MayEnroll(g.pending[token], f)
    ensures Inv(c, Adopt(c, g, token, f, now, env).gate)
  {
    hide BeginOf, Covered, Registered, Finished, Lawful, Inv, Advance;
    var e := g.pending[token];
    assert Linked(c, g.log, token, e) by { InvAt(c, g, token); }
    var event := Enrolled(token, f);
    AppendOwn(g.log, event);
    var e' := e.(enrolled := e.enrolled + {f}, satisfied := e.satisfied + {f});
    assert Linked(c, g.log + [event], token, e');
    assert Linked(c, g.log + [event], token, e'.(recoveryIssued := true));
    var asks := c.recoveryEnabled && !e.recoveryIssued;
    var issues := asks && env.recoveryRead.HasNot?;
    var throws := (asks && env.recoveryRead.ReadThrows?) || (issues && env.enrollThrows);
    AdvanceKeepsInv(c, g, token, if issues then e'.(recoveryIssued := true) else e', event, now,
                    throws || (!(e'.needs <= e'.satisfied) && env.viewThrows));
  }

  lemma InvAt(c: Config, g: Gate, token: Token)
    requires Inv(c, g) && token in g.pending
    ensures Linked(c, g.log, token, g.pending[token])
  {
  }

  lemma LookedKeepsInv(c: Config, g: Gate, token: Token, now: nat)
    requires Inv(c, g)
    ensures Inv(c, Looked(g, token, now))
    ensures token in Looked(g, token, now).pending ==> now < Looked(g, token, now).pending[token].expiresAt
  {
    hide Inv;
    if token in g.pending && g.pending[token].expiresAt <= now { FewerKeepsInv(c, g, g.pending - {token}); }
  }

  lemma AddKeepsInv(c: Config, g: Gate, token: Token, e: Entry)
    requires Inv(c, g) && BeginOf(g.log, token).None? && |g.pending| < c.maxPending && c.maxFailures >= 1
    requires e.satisfied == {} && e.failures == 0 && e.enrolled <= e.needs && e.needs != {}
    ensures Inv(c, Gate(g.pending[token := e], g.log + [Began(token, e.login, e.enrolled, e.needs, e.expiresAt)]))
  {
    hide BeginOf, Covered, Registered, Finished, Lawful;
    var event := Began(token, e.login, e.enrolled, e.needs, e.expiresAt);
    NothingBeforeBegin(g.log, token);
    AppendOwn(g.log, event);
    OthersStayLinked(c, g, event);
    assert LawfulNext(g.log, event);
    assert Linked(c, g.log + [event], token, e);
    OneMore(g.pending, token, e);
  }

  lemma UnexpiredIsPart(pending: map<Token, Entry>, now: nat)
    ensures var r := Unexpired(pending, now);
            r.Keys <= pending.Keys && forall t :: t in r ==> r[t] == pending[t]
  {
  }

  lemma EnrolledAreNeeded(c: Config, totp: Read, webauthn: Read)
    ensures var n := NeedsOf(c, totp, webauthn); n.Some? ==> n.value.enrolled <= n.value.needs
  {
  }

  lemma BeginKeepsInv(c: Config, g: Gate, op: Op)
    requires Inv(c, g) && op.Begin? && Fresh(g, op) && c.maxFailures >= 1
    ensures Inv(c, Step(c, g, op).gate)
  {
    hide Inv, BeginOf, NeedsOf, Unexpired;
    UnexpiredIsPart(g.pending, op.now);
    var purged := g.(pending := Unexpired(g.pending, op.now));
    FewerKeepsInv(c, g, purged.pending);
    var n := NeedsOf(c, op.totp, op.webauthn);
    EnrolledAreNeeded(c, op.totp, op.webauthn);
    if n.Some? && n.value.needs != {} && |purged.pending| < c.maxPending {
      AddKeepsInv(c, purged, op.token,
        Entry(op.login, op.tenant, op.user, op.later + c.ttlMs, n.value.needs, n.value.required, n.value.enrolled, {},
          0, None, false));
    }
  }

  lemma OneMore(m: map<Token, Entry>, t: Token, e: Entry)
    ensures |m[t := e]| <= |m| + 1
  {
    assert m[t := e].Keys == m.Keys + {t};
    assert |m[t := e]| == |m[t := e].Keys| && |m| == |m.Keys|;
  }

  lemma StepKeepsInv(c: Config, g: Gate, op: Op)
    requires Inv(c, g) && Fresh(g, op) && c.maxFailures >= 1
    ensures Inv(c, Step(c, g, op).gate)
  {
    hide Inv, Satisfy, Adopt, Fail, Linked, Looked;
    if op.Begin? {
      BeginKeepsInv(c, g, op);
    } else {
      var token, l := op.token, Looked(g, op.token, op.now);
      LookedKeepsInv(c, g, token, op.now);
      if token in l.pending {
        var e := l.pending[token];
        FailKeepsInv(c, l, token);
        match op
        case EnrollTotp(_, _, reply) => EnrollmentKeepsInv(c, l, token, reply);
        case VerifyTotp(_, _, now, env) =>
          if TOTP in e.enrolled && TOTP !in e.satisfied {
            SatisfyKeepsInv(c, l, token, TOTP, Verified(token, TOTP), now, env);
          }
          if MayEnroll(e, TOTP) { AdoptKeepsInv(c, l, token, TOTP, now, env); }
        case VerifyRecovery(_, _, now, env) =>
          var target := RecoveryTarget(e);
          if target.Some? { SatisfyKeepsInv(c, l, token, target.value, Recovered(token, target.value), now, env); }
        case WebauthnComplete(_, now, env) =>
          if WEBAUTHN in e.enrolled && WEBAUTHN !in e.satisfied {
            SatisfyKeepsInv(c, l, token, WEBAUTHN, Verified(token, WEBAUTHN), now, env);
          }
          if MayEnroll(e, WEBAUTHN) { AdoptKeepsInv(c, l, token, WEBAUTHN, now, env); }
        case WebauthnOptions(_, _) =>
      }
    }
  }

  lemma EnrollmentKeepsInv(c: Config, g: Gate, token: Token, reply: Option<string>)
    requires Inv(c, g) && token in g.pending
    ensures Inv(c, g.(pending := g.pending[token := g.pending[token].(enrollment := reply)]))
  {
    var e := g.pending[token];
    assert e.failures < c.maxFailures;
    hide Linked, Lawful;
    LinkedStays(c, g.log, token, e, e.failures, reply);
    EntryKeepsInv(c, g, token, e.(enrollment := reply));
  }

  // ------------------------------------------------------ every run

  const START: Gate := Gate(map[], [])

  function Run(c: Config, g: Gate, ops: seq<Op>): (r: Gate)
    decreases |ops|
  {
    if ops == [] then g else Run(c, Step(c, g, ops[0]).gate, ops[1..])
  }

  /** Every `begin` of the run draws a token no earlier `begin` drew. */
  predicate FreshRun(c: Config, g: Gate, ops: seq<Op>)
    decreases |ops|
  {
    ops != [] ==> Fresh(g, ops[0]) && FreshRun(c, Step(c, g, ops[0]).gate, ops[1..])
  }

  /** Whatever the managers answer or throw, every run of the gate keeps the invariant and writes a lawful log. */
  lemma {:induction false} EveryRunIsLawful(c: Config, g: Gate, ops: seq<Op>)
    requires Inv(c, g) && FreshRun(c, g, ops) && c.maxFailures >= 1
    ensures Inv(c, Run(c, g, ops)) && Lawful(Run(c, g, ops).log)
    decreases |ops|
  {
    hide Step;
    if ops != [] {
      StepKeepsInv(c, g, ops[0]);
      EveryRunIsLawful(c, Step(c, g, ops[0]).gate, ops[1..]);
    }
  }

  /** From a new gate on: the invariant and the lawful log of every run. */
  lemma EveryLifeIsLawful(c: Config, ops: seq<Op>)
    requires FreshRun(c, START, ops) && c.maxFailures >= 1
    ensures var g := Run(c, START, ops);
            && Lawful(g.log) && |g.pending| <= c.maxPending
            && forall t :: t in g.pending ==>
                 g.pending[t].satisfied <= g.pending[t].enrolled <= g.pending[t].needs
                   && g.pending[t].failures < c.maxFailures
  {
    hide Run, FreshRun;
    assert Inv(c, START);
    EveryRunIsLawful(c, START, ops);
    var g := Run(c, START, ops);
    forall t | t in g.pending
      ensures g.pending[t].satisfied <= g.pending[t].enrolled <= g.pending[t].needs
      ensures g.pending[t].failures < c.maxFailures
    {
      assert Linked(c, g.log, t, g.pending[t]);
    }
  }

  /** Only factors that were active at the beginning count as covered. */
  lemma {:induction false} CoveredWereActive(log: seq<Event>, t: Token)
    requires Lawful(log) && BeginOf(log, t).Some?
    ensures var b := BeginOf(log, t).value; Covered(log, t) <= b.active <= b.needs && b.needs != {}
    decreases |log|
  {
    if BeginOf(Front(log), t).Some? {
      CoveredWereActive(Front(log), t);
    } else {
      NothingBeforeBegin(Front(log), t);
    }
  }

  /** In particular, whatever the gate completed was begun once, completed once and fully covered. */
  lemma {:induction false} CompletionsAreEarned(log: seq<Event>, k: nat)
    requires Lawful(log) && k < |log| && log[k].Completed?
    ensures LawfulNext(log[..k], log[k])
    ensures forall j :: k < j < |log| && log[j].Completed? ==> log[j].token != log[k].token
    decreases |log|
  {
    hide LawfulNext, BeginOf, Covered, Registered;
    if k == |log| - 1 {
      assert Front(log) == log[..k];
    } else {
      CompletionsAreEarned(Front(log), k);
      assert Front(log)[..k] == log[..k];
      FinishedAt(Front(log), k);
      assert Last(log).Completed? ==> Open(Front(log), Last(log).token) by {
        CompletedNeedsOpen(Front(log), Last(log));
      }
    }
  }

  lemma CompletedNeedsOpen(log: seq<Event>, e: Event)
    requires LawfulNext(log, e)
    ensures e.Completed? ==> Open(log, e.token)
  {
  }

  lemma {:induction false} FinishedAt(log: seq<Event>, k: nat)
    requires k < |log| && log[k].Completed?
    ensures Finished(log, log[k].token)
    decreases |log|
  {
    if k < |log| - 1 { FinishedAt(Front(log), k); }
  }

  // ------------------------------------------------------ a challenge that can no longer complete

  predicate FullySatisfied(e: Entry) { e.needs <= e.satisfied }

  /** Issuing the recovery codes that go with a first enrollment throws. */
  predicate IssueFails(c: Config, e: Entry, env: Env) {
    c.recoveryEnabled && !e.recoveryIssued
      && (env.recoveryRead.ReadThrows? || (env.recoveryRead.HasNot? && env.enrollThrows))
  }

  /**
   Enrolling the last open factor leaves the challenge pending with nothing
   left to satisfy exactly when issuing the recovery codes throws and the
   failure this counts as is not the last one allowed.
   */
  lemma EnrollmentStrandsExactly(c: Config, g: Gate, token: Token, f: Factor, now: nat, env: Env)
    requires token in g.pending && MayEnroll(g.pending[token], f)
    ensures var e := g.pending[token];
            var h := Adopt(c, g, token, f, now, env).gate;
            (token in h.pending && FullySatisfied(h.pending[token]))
            <==> (e.needs <= e.satisfied + {f} && IssueFails(c, e, env) && e.failures + 1 < c.maxFailures)
  {
  }

  /** `h` continues `g`: at most two more events, all of this token, and other challenges untouched or dropped. */
  predicate Continues(g: Gate, h: Gate, token: Token) {
    && |g.log| <= |h.log| <= |g.log| + 2 && h.log[..|g.log|] == g.log
    && (forall i :: |g.log| <= i < |h.log| ==> h.log[i].token == token)
    && (forall t :: t != token && t in h.pending ==> t in g.pending && h.pending[t] == g.pending[t])
  }

  lemma AdvanceContinues(c: Config, g: Gate, token: Token, e: Entry, event: Event, now: nat, throws: bool)
    requires event.token == token
    ensures Continues(g, Advance(c, g, token, e, event, now, throws).gate, token)
  {
  }

  lemma BeginContinues(c: Config, g: Gate, op: Op)
    requires op.Begin?
    ensures Continues(g, Step(c, g, op).gate, op.token)
  {
    hide NeedsOf, Unexpired;
    UnexpiredIsPart(g.pending, op.now);
  }

  lemma StepContinues(c: Config, g: Gate, op: Op)
    ensures Continues(g, Step(c, g, op).gate, op.token)
  {
    hide NeedsOf, Unexpired, Satisfy, Adopt, RecoveryTarget;
    if op.Begin? {
      BeginContinues(c, g, op);
    } else {
      var token, l := op.token, Looked(g, op.token, op.now);
      if token in l.pending {
        var e := l.pending[token];
        match op
        case VerifyTotp(_, _, now, env) => SettleContinues(c, l, token, TOTP, Verified(token, TOTP), now, env);
        case VerifyRecovery(_, _, now, env) =>
          if RecoveryTarget(e).Some? {
            SettleContinues(c, l, token, RecoveryTarget(e).value, Recovered(token, RecoveryTarget(e).value), now, env);
          }
        case WebauthnComplete(_, now, env) =>
          SettleContinues(c, l, token, WEBAUTHN, Verified(token, WEBAUTHN), now, env);
        case _ =>
      }
    }
  }

  lemma SettleContinues(c: Config, g: Gate, token: Token, f: Factor, event: Event, now: nat, env: Env)
    requires token in g.pending && event.token == token
    ensures Continues(g, Satisfy(c, g, token, f, event, now, env).gate, token)
    ensures Continues(g, Adopt(c, g, token, f, now, env).gate, token)
  {
    hide Advance, Continues;
    forall e, throws { AdvanceContinues(c, g, token, e, event, now, throws); }
    forall e, throws { AdvanceContinues(c, g, token, e, Enrolled(token, f), now, throws); }
  }

  lemma StrandedOwnStep(c: Config, g: Gate, op: Op)
    requires op.token in g.pending && FullySatisfied(g.pending[op.token]) && !op.Begin?
    ensures var h := Step(c, g, op).gate;
            h.log == g.log && (op.token in h.pending ==> FullySatisfied(h.pending[op.token]))
  {
    hide Satisfy, Adopt, Fail;
  }

  lemma ContinuesUnfinished(g: Gate, h: Gate, other: Token, token: Token)
    requires Continues(g, h, other) && other != token
    ensures Finished(h.log, token) == Finished(g.log, token)
  {
    hide Finished, BeginOf, Covered, Registered;
    var n := |g.log|;
    if |h.log| == n {
      assert h.log == g.log;
    } else {
      var first := g.log + [h.log[n]];
      AppendKeepsOthers(g.log, h.log[n], token);
      if |h.log| == n + 1 {
        assert h.log == first;
      } else {
        assert h.log == first + [h.log[n + 1]];
        AppendKeepsOthers(first, h.log[n + 1], token);
      }
    }
  }

  /** The challenge is gone, or pending with nothing left to satisfy. */
  predicate Dead(g: Gate, token: Token) { token in g.pending ==> FullySatisfied(g.pending[token]) }

  lemma GoneOwnStep(c: Config, g: Gate, op: Op)
    requires op.token !in g.pending && !op.Begin?
    ensures Step(c, g, op).gate == g
  {
    hide Satisfy, Adopt, Fail;
  }

  lemma DeadStep(c: Config, g: Gate, op: Op, token: Token)
    requires Dead(g, token) && (op.Begin? ==> op.token != token)
    ensures var h := Step(c, g, op).gate; Dead(h, token) && Finished(h.log, token) == Finished(g.log, token)
  {
    hide Step, Finished;
    if op.token != token {
      StepContinues(c, g, op);
      ContinuesUnfinished(g, Step(c, g, op).gate, op.token, token);
    } else if token in g.pending {
      StrandedOwnStep(c, g, op);
    } else {
      GoneOwnStep(c, g, op);
    }
  }

  /**
   Such a challenge never completes: over every further run in which its token is
   not drawn again it stays stranded or is dropped, and no completion is logged.
   */
  lemma {:induction false} StrandedNeverCompletes(c: Config, g: Gate, ops: seq<Op>, token: Token)
    requires Dead(g, token) && forall i :: 0 <= i < |ops| && ops[i].Begin? ==> ops[i].token != token
    ensures var h := Run(c, g, ops); Dead(h, token) && Finished(h.log, token) == Finished(g.log, token)
    decreases |ops|
  {
    hide Step, Finished, Dead;
    if ops != [] {
      DeadStep(c, g, ops[0], token);
      StrandedNeverCompletes(c, Step(c, g, ops[0]).gate, ops[1..], token);
    }
  }

  predicate Stranded(g: Gate, token: Token) { token in g.pending && FullySatisfied(g.pending[token]) }

  /** The factor that a step may enrol, and what happens around it. */
  predicate StrandsAt(c: Config, g: Gate, op: Op) {
    match op
    case VerifyTotp(token, isText, now, env) =>
      && token in g.pending && g.pending[token].expiresAt > now && c.hasTotp && isText
      && g.pending[token].enrollment.Some? && StrandsBy(c, g.pending[token], TOTP, env)
    case WebauthnComplete(token, now, env) =>
      && token in g.pending && g.pending[token].expiresAt > now && c.hasWebauthn
      && StrandsBy(c, g.pending[token], WEBAUTHN, env)
    case _ => false
  }

  /** The last open factor is enrolled, issuing the recovery codes throws, and a failure is still allowed. */
  predicate StrandsBy(c: Config, e: Entry, f: Factor, env: Env) {
    && env.accepted && MayEnroll(e, f) && e.needs <= e.satisfied + {f}
    && IssueFails(c, e, env) && e.failures + 1 < c.maxFailures
  }

  lemma SatisfyStrandsNot(c: Config, g: Gate, token: Token, f: Factor, event: Event, now: nat, env: Env)
    requires token in g.pending
    ensures !Stranded(Satisfy(c, g, token, f, event, now, env).gate, token)
  {
  }

  lemma FailStrandsNot(c: Config, g: Gate, token: Token)
    requires token in g.pending && !Stranded(g, token)
    ensures !Stranded(Fail(c, g, token), token)
  {
  }

  /**
   One step strands its own challenge if and only if it enrols the last open factor and
   issuing recovery codes throws.
   */
  lemma StepStrandsExactly(c: Config, g: Gate, op: Op)
    requires !op.Begin? && !Stranded(g, op.token)
    ensures Stranded(Step(c, g, op).gate, op.token) <==> StrandsAt(c, g, op)
  {
    hide Satisfy, Adopt, Fail, RecoveryTarget, IssueFails;
    var token, l := op.token, Looked(g, op.token, op.now);
    if token in l.pending {
      var e := l.pending[token];
      FailStrandsNot(c, l, token);
      match op
      case VerifyTotp(_, _, now, env) =>
        SatisfyStrandsNot(c, l, token, TOTP, Verified(token, TOTP), now, env);
        if MayEnroll(e, TOTP) { EnrollmentStrandsExactly(c, l, token, TOTP, now, env); }
      case VerifyRecovery(_, _, now, env) =>
        if RecoveryTarget(e).Some? {
          SatisfyStrandsNot(c, l, token, RecoveryTarget(e).value, Recovered(token, RecoveryTarget(e).value), now, env);
        }
      case WebauthnComplete(_, now, env) =>
        SatisfyStrandsNot(c, l, token, WEBAUTHN, Verified(token, WEBAUTHN), now, env);
        if MayEnroll(e, WEBAUTHN) { EnrollmentStrandsExactly(c, l, token, WEBAUTHN, now, env); }
      case _ =>
    }
  }

  // ------------------------------------------------------ stranding over a run

  /** Some step of the run strands the challenge. */
  predicate StrandsIn(c: Config, g: Gate, ops: seq<Op>, token: Token)
    decreases |ops|
  {
    ops != []
    && ((ops[0].token == token && StrandsAt(c, g, ops[0])) || StrandsIn(c, Step(c, g, ops[0]).gate, ops[1..], token))
  }

  lemma BeginStrandsNot(c: Config, g: Gate, op: Op)
    requires op.Begin? && !Stranded(g, op.token)
    ensures !Stranded(Step(c, g, op).gate, op.token)
  {
    hide NeedsOf, Unexpired;
    UnexpiredIsPart(g.pending, op.now);
  }

  /** Which steps strand a given challenge, whosever they are. */
  lemma AnyStepStrandsExactly(c: Config, g: Gate, op: Op, token: Token)
    requires !Stranded(g, token)
    ensures Stranded(Step(c, g, op).gate, token) <==> op.token == token && StrandsAt(c, g, op)
  {
    hide Step;
    if op.token != token {
      StepContinues(c, g, op);
    } else if op.Begin? {
      BeginStrandsNot(c, g, op);
    } else {
      StepStrandsExactly(c, g, op);
    }
  }

  lemma ContinuesBegun(g: Gate, h: Gate, other: Token, token: Token)
    requires Continues(g, h, other) && BeginOf(g.log, token).Some?
    ensures BeginOf(h.log, token).Some?
  {
    hide Finished, BeginOf, Covered, Registered;
    if g.log != h.log {
      var first := g.log + [h.log[|g.log|]];
      AppendBegun(g.log, h.log[|g.log|], token);
      if h.log != first {
        assert h.log == first + [h.log[|g.log| + 1]];
        AppendBegun(first, h.log[|g.log| + 1], token);
      }
    }
  }

  lemma AppendBegun(log: seq<Event>, e: Event, token: Token)
    requires BeginOf(log, token).Some?
    ensures BeginOf(log + [e], token).Some?
  {
    hide Finished, BeginOf, Covered, Registered;
    if e.token == token { AppendOwn(log, e); } else { AppendKeepsOthers(log, e, token); }
  }

  lemma PendingIsOpen(c: Config, g: Gate, token: Token)
    requires Inv(c, g) && token in g.pending
    ensures BeginOf(g.log, token).Some? && !Finished(g.log, token)
  {
    assert Linked(c, g.log, token, g.pending[token]);
  }

  lemma {:induction false} DeadStays(c: Config, g: Gate, ops: seq<Op>, token: Token)
    requires Dead(g, token) && BeginOf(g.log, token).Some? && FreshRun(c, g, ops)
    ensures var h := Run(c, g, ops); Dead(h, token) && Finished(h.log, token) == Finished(g.log, token)
    decreases |ops|
  {
    hide Step, Finished, Dead, BeginOf, Continues;
    if ops != [] {
      var h := Step(c, g, ops[0]).gate;
      DeadStep(c, g, ops[0], token);
      StepContinues(c, g, ops[0]);
      ContinuesBegun(g, h, ops[0].token, token);
      DeadStays(c, h, ops[1..], token);
    }
  }

  /**
   Over every run with fresh tokens a challenge ends up stranded if and only if
   one of its steps strands it and it has not been dropped since; and one that a
   step stranded has not completed, dropped or not.
   */
  lemma {:induction false} RunStrandsExactly(c: Config, g: Gate, ops: seq<Op>, token: Token)
    requires Inv(c, g) && FreshRun(c, g, ops) && c.maxFailures >= 1 && !Stranded(g, token)
    ensures var h := Run(c, g, ops);
            && (Stranded(h, token) <==> StrandsIn(c, g, ops, token) && token in h.pending)
            && (StrandsIn(c, g, ops, token) ==> !Finished(h.log, token))
    decreases |ops|
  {
    hide Step, Finished, BeginOf, Inv, StrandsAt, FullySatisfied;
    if ops != [] {
      var h := Step(c, g, ops[0]).gate;
      StepKeepsInv(c, g, ops[0]);
      AnyStepStrandsExactly(c, g, ops[0], token);
      if Stranded(h, token) {
        PendingIsOpen(c, h, token);
        DeadStays(c, h, ops[1..], token);
      } else {
        RunStrandsExactly(c, h, ops[1..], token);
      }
    }
  }

  // ------------------------------------------------------ a stranded first login

  /** The three steps of a first login with a required TOTP factor, in which issuing the recovery codes throws. */
  function StrandingOps(login: Login, token: Token, now: nat): (ops: seq<Op>) {
    [Begin(login, "tenant", "user", token, now, now, HasNot, HasNot, false),
     EnrollTotp(token, now, Some("factor")),
     VerifyTotp(token, true, now, Env(true, false, HasNot, true))]
  }

  /** With TOTP required and recovery codes enabled, every first login can be stranded, and then never completes. */
  lemma FirstLoginStrands(c: Config, login: Login, token: Token, now: nat, later: seq<Op>)
    requires c.totpMode.Required? && c.hasTotp && c.webauthnMode.Disabled? && c.recoveryEnabled
    requires c.ttlMs >= 1 && c.maxFailures >= 2 && c.maxPending >= 1
    requires forall i :: 0 <= i < |later| && later[i].Begin? ==> later[i].token != token
    ensures var g := Run(c, START, StrandingOps(login, token, now));
            Stranded(g, token) && !Finished(Run(c, g, later).log, token)
  {
    hide Step, Finished, Stranded, StrandsAt;
    var ops := StrandingOps(login, token, now);
    var e := FirstEntry(c, login, now);
    BeginsFirst(c, login, token, now);
    EnrollsFirst(c, login, token, now);
    var g2 := Gate(map[token := e.(enrollment := Some("factor"))], [Began(token, login, {}, {TOTP}, e.expiresAt)]);
    var g3 := Step(c, g2, ops[2]).gate;
    StepStrandsExactly(c, g2, ops[2]);
    RunThree(c, START, ops[0], ops[1], ops[2]);
    StrandedUnfinished(c, g2, ops[2]);
    StrandedIsDead(g3, token);
    StrandedNeverCompletes(c, g3, later, token);
  }

  lemma StrandedIsDead(g: Gate, token: Token)
    requires Stranded(g, token)
    ensures Dead(g, token)
  {
  }

  function FirstEntry(c: Config, login: Login, now: nat): (e: Entry) {
    Entry(login, "tenant", "user", now + c.ttlMs, {TOTP}, {TOTP}, {}, {}, 0, None, false)
  }

  lemma BeginsFirst(c: Config, login: Login, token: Token, now: nat)
    requires c.totpMode.Required? && c.hasTotp && c.webauthnMode.Disabled? && c.maxPending >= 1
    ensures var e := FirstEntry(c, login, now);
            Step(c, START, StrandingOps(login, token, now)[0]).gate
            == Gate(map[token := e], [Began(token, login, {}, {TOTP}, e.expiresAt)])
  {
    assert Unexpired(map[], now) == map[];
  }

  lemma EnrollsFirst(c: Config, login: Login, token: Token, now: nat)
    requires c.hasTotp && c.ttlMs >= 1
    ensures var e := FirstEntry(c, login, now);
            var log := [Began(token, login, {}, {TOTP}, e.expiresAt)];
            var z := Gate(map[token := e.(enrollment := Some("factor"))], log);
            && Step(c, Gate(map[token := e], log), StrandingOps(login, token, now)[1]).gate == z
            && !Stranded(z, token)
            && (c.recoveryEnabled && c.maxFailures >= 2 ==> StrandsAt(c, z, StrandingOps(login, token, now)[2]))
            && !Finished(log, token)
  {
    var e := FirstEntry(c, login, now);
    assert map[token := e][token := e.(enrollment := Some("factor"))] == map[token := e.(enrollment := Some("factor"))];
    assert !Finished(Front([Began(token, login, {}, {TOTP}, e.expiresAt)]), token);
  }

  /** A step that strands its challenge logs no completion of it. */
  lemma StrandedUnfinished(c: Config, g: Gate, op: Op)
    requires op.VerifyTotp? && !Stranded(g, op.token) && StrandsAt(c, g, op)
    ensures Finished(Step(c, g, op).gate.log, op.token) == Finished(g.log, op.token)
  {
    hide Finished, Fail;
    var l := Looked(g, op.token, op.now);
    AppendOwn(l.log, Enrolled(op.token, TOTP));
    assert Step(c, g, op).gate == Adopt(c, l, op.token, TOTP, op.now, op.env).gate;
    FailKeepsLog(c, Gate(l.pending, l.log + [Enrolled(op.token, TOTP)]), op.token);
  }

  lemma FailKeepsLog(c: Config, g: Gate, token: Token)
    requires token in g.pending
    ensures forall p :: token in p ==> Fail(c, Gate(p, g.log), token).log == g.log
  {
  }

  lemma RunThree(c: Config, g: Gate, a: Op, b: Op, d: Op)
    ensures Run(c, g, [a, b, d]) == Step(c, Step(c, Step(c, g, a).gate, b).gate, d).gate
  {
    hide Step;
    assert [a, b, d][1..] == [b, d] && [b, d][1..] == [d] && [d][1..] == [];
    var z := Step(c, Step(c, g, a).gate, b).gate;
    assert Run(c, z, [d]) == Run(c, Step(c, z, d).gate, []);
  }

  // ------------------------------------------------------ the gate object

  class GateObject {
    const config: Config
    var pending: map<Token, Entry>
    ghost var log: seq<Event>

    constructor (config: Config)
      ensures this.config == config && Abs() == START
    {
      this.config := config;
      pending, log := map[], [];
    }

    ghost function Abs(): (g: Gate) reads this { Gate(pending, log) }

    method PurgeExpired(now: nat)
      modifies this`pending
      ensures pending == Unexpired(old(pending), now)
    {
      ghost var all := pending;
      var todo := pending.Keys;
      while todo != {}
        invariant todo <= pending.Keys <= all.Keys
        invariant forall t :: t in all ==> (t in pending <==> t in todo || all[t].expiresAt > now)
        invariant forall t :: t in pending ==> pending[t] == all[t]
      {
        var token :| token in todo;
        todo := todo - {token};
        if pending[token].expiresAt <= now { pending := pending - {token}; }
      }
    }

    method Lookup(token: Token, now: nat) returns (found: bool)
      modifies this`pending
      ensures Abs() == Looked(old(Abs()), token, now) && found == (token in pending)
    {
      if token !in pending { return false; }
      if pending[token].expiresAt <= now {
        pending := pending - {token};
        return false;
      }
      found := true;
    }

    method Failure(token: Token)
      requires token in pending
      modifies this`pending
      ensures Abs() == Fail(config, old(Abs()), token)
    {
      var failures := pending[token].failures + 1;
      if failures >= config.maxFailures {
        pending := pending - {token};
      } else {
        pending := pending[token := pending[token].(failures := failures)];
      }
    }

    /** `advance`, inside the `try` of its callers. */
    method Settle(token: Token, e: Entry, ghost event: Event, now: nat, throws: bool) returns (result: Result)
      modifies this`pending, this`log
      ensures var o := Advance(config, old(Abs()), token, e, event, now, throws);
              Abs() == o.gate && result == o.result
    {
      pending := pending[token := e];
      log := log + [event];
      if throws {
        Failure(token);
        return StepFailed;
      }
      if !(e.needs <= e.satisfied) { return StepPending; }
      pending := pending - {token};
      log := log + [Completed(token, e.login, now)];
      result := Complete(e.login);
    }

    /** The loop over the factor types; `None` is the thrown error. */
    method CollectNeeds(totp: Read, webauthn: Read) returns (n: Option<Needs>)
      ensures n == NeedsOf(config, totp, webauthn)
    {
      var types := [TOTP, WEBAUTHN];
      var needs: set<Factor>, required: set<Factor>, enrolled: set<Factor> := {}, {}, {};
      for i := 0 to |types|
        invariant i == 0 ==> Needs(needs, required, enrolled) == Needs({}, {}, {})
        invariant i == 1 ==>
                    Some(Needs(needs, required, enrolled))
                      == AddFactor(Needs({}, {}, {}), TOTP, config.totpMode, config.hasTotp, totp)
        invariant i == 2 ==> Some(Needs(needs, required, enrolled)) == NeedsOf(config, totp, webauthn)
      {
        var f := types[i];
        var mode := if f == TOTP then config.totpMode else config.webauthnMode;
        if mode.Disabled? { continue; }
        if !(if f == TOTP then config.hasTotp else config.hasWebauthn) {
          if mode.Required? { return None; }
          continue;
        }
        var read := if f == TOTP then totp else webauthn;
        if read.ReadThrows? { return None; }
        if read.Has? { enrolled := enrolled + {f}; }
        if mode.Required? { required := required + {f}; }
        if mode.Required? || read.Has? { needs := needs + {f}; }
      }
      n := Some(Needs(needs, required, enrolled));
    }

    method BeginLogin(login: Login, tenant: string, user: string, token: Token, now: nat, later: nat, totp: Read,
      webauthn: Read, viewThrows: bool)
      returns (result: Result)
      modifies this`pending, this`log
      ensures var op := Begin(login, tenant, user, token, now, later, totp, webauthn, viewThrows);
              var o := Step(config, old(Abs()), op);
              Abs() == o.gate && result == o.result
    {
      hide Unexpired, NeedsOf;
      PurgeExpired(now);
      var n := CollectNeeds(totp, webauthn);
      if n.None? { return Unavailable; }
      if n.value.needs == {} { return NotRequired; }
      if |pending| >= config.maxPending { return Unavailable; }
      var e := Entry(login, tenant, user, later + config.ttlMs, n.value.needs, n.value.required, n.value.enrolled, {},
        0, None, false);
      pending := pending[token := e];
      log := log + [Began(token, login, e.enrolled, e.needs, e.expiresAt)];
      result := if viewThrows then Crashed else StepPending;
    }

    method StartTotpEnrollment(token: Token, now: nat, reply: Option<string>) returns (result: Result)
      modifies this`pending
      ensures var o := Step(config, old(Abs()), EnrollTotp(token, now, reply)); Abs() == o.gate && result == o.result
    {
      var found := Lookup(token, now);
      if !found { return Invalid; }
      if !config.hasTotp || !MayEnroll(pending[token], TOTP) { return NotAllowed; }
      if reply.None? { return NotAllowed; }
      pending := pending[token := pending[token].(enrollment := reply)];
      result := Ok;
    }

    /** The step shared by `verifyTotp` and `webauthnComplete` once a factor may be satisfied or enrolled. */
    method SettleFactor(token: Token, f: Factor, now: nat, env: Env) returns (result: Result)
      requires token in pending
      modifies this`pending, this`log
      ensures var g := old(Abs());
              var o := if !env.accepted then Outcome(Fail(config, g, token), StepFailed)
                       else if f in g.pending[token].enrolled then
                         Satisfy(config, g, token, f, Verified(token, f), now, env)
                       else Adopt(config, g, token, f, now, env);
              Abs() == o.gate && result == o.result
    {
      if !env.accepted {
        Failure(token);
        return StepFailed;
      }
      var e := pending[token];
      if f in e.enrolled {
        e := e.(satisfied := e.satisfied + {f});
        result := Settle(token, e, Verified(token, f), now, !(e.needs <= e.satisfied) && env.viewThrows);
      } else {
        var asks := config.recoveryEnabled && !e.recoveryIssued;
        var issues := asks && env.recoveryRead.HasNot?;
        e := e.(enrolled := e.enrolled + {f}, satisfied := e.satisfied + {f});
        if issues { e := e.(recoveryIssued := true); }
        var throws := (asks && env.recoveryRead.ReadThrows?) || (issues && env.enrollThrows);
        result := Settle(token, e, Enrolled(token, f), now, throws || (!(e.needs <= e.satisfied) && env.viewThrows));
      }
    }

    method VerifyTotpCode(token: Token, isText: bool, now: nat, env: Env) returns (result: Result)
      modifies this`pending, this`log
      ensures var o := Step(config, old(Abs()), VerifyTotp(token, isText, now, env));
              Abs() == o.gate && result == o.result
    {
      hide Satisfy, Adopt, Fail;
      var found := Lookup(token, now);
      if !found { return Invalid; }
      var e := pending[token];
      if !config.hasTotp || TOTP !in e.needs || TOTP in e.satisfied || !isText { return NotAllowed; }
      if TOTP !in e.enrolled && (e.enrollment.None? || !MayEnroll(e, TOTP)) { return NotAllowed; }
      result := SettleFactor(token, TOTP, now, env);
    }

    method VerifyRecoveryCode(token: Token, isText: bool, now: nat, env: Env) returns (result: Result)
      modifies this`pending, this`log
      ensures var o := Step(config, old(Abs()), VerifyRecovery(token, isText, now, env));
              Abs() == o.gate && result == o.result
    {
      hide Fail, Advance;
      var found := Lookup(token, now);
      if !found { return Invalid; }
      if !config.recoveryEnabled || !isText { return NotAllowed; }
      var e := pending[token];
      var target := RecoveryTarget(e);
      if target.None? { return NotAllowed; }
      if !env.accepted {
        Failure(token);
        return StepFailed;
      }
      e := e.(satisfied := e.satisfied + {target.value});
      result := Settle(token, e, Recovered(token, target.value), now, !(e.needs <= e.satisfied) && env.viewThrows);
    }

    method CompleteWebauthn(token: Token, now: nat, env: Env) returns (result: Result)
      modifies this`pending, this`log
      ensures var o := Step(config, old(Abs()), WebauthnComplete(token, now, env));
              Abs() == o.gate && result == o.result
    {
      hide Satisfy, Adopt, Fail;
      var found := Lookup(token, now);
      if !found { return Invalid; }
      var e := pending[token];
      if !config.hasWebauthn || WEBAUTHN !in e.needs || WEBAUTHN in e.satisfied { return NotAllowed; }
      if WEBAUTHN !in e.enrolled && !MayEnroll(e, WEBAUTHN) { return NotAllowed; }
      result := SettleFactor(token, WEBAUTHN, now, env);
    }
  }
}
