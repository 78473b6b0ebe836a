/** What the replies of the Authentication Server mean, over every run. */
module Guarantees {
  import opened Options
  import opened Text
  import opened Protocol
  import opened Identifiers
  import opened Runs
  import Decimal
  import Device

  /** The stored maps of a user are those of the user's history, in every run. */
  lemma MapsAreHistory(r: Run, uid: string)
    requires Legit(r)
    ensures Known(ServerAfter(r), uid) ==> Recorded(r, UserOf(ServerAfter(r), uid))
    ensures LatestGrant(r, uid).Some? ==> Known(ServerAfter(r), uid)
    ensures forall i | 0 <= i < |ServerAfter(r).users| :: Slim(ServerAfter(r).users[i])
  {
    ConsistentAlways(r);
    RecordedIsSlim(r, ServerAfter(r));
  }

  lemma CountersClosedForm(r: Run)
    requires Legit(r)
    ensures ServerAfter(r).newTID == TidOf(Count(r))
    ensures ServerAfter(r).newVC == VcOf(Count(r))
  {
    ConsistentAlways(r);
  }

  /** The identifiers of two successful requests coincide exactly when so many lie between them. */
  lemma IssuedPairsRepeat(g: Run, h: Run)
    requires g.Then? && h.Then?
    ensures Tid(g) != "0000"
    ensures Tid(g) == Tid(h) <==> (Count(g.prev) - Count(h.prev)) % 9999 == 0
    ensures Tid(g) == Tid(h) && Vc(g) == Vc(h) <==> (Count(g.prev) - Count(h.prev)) % 99990000 == 0
  {
    TidNeverZero(Count(g.prev));
    Repeats(Count(g.prev), Count(h.prev));
  }

  // ---------- words ----------

  lemma RegisteredUser(a: Server, uid: string)
    requires Registered(a.users) && Known(a, uid)
    ensures ValidUid(uid) && IsWord(uid) && uid != "" && ValidPass(UserOf(a, uid).pw)
  {
    forall c | c in uid ensures !Blank(c) { assert Digit(c); }
  }

  lemma DigitsAreWords(s: string)
    requires s != [] && forall c | c in s :: Digit(c)
    ensures IsWord(s)
  {
    forall c | c in s ensures !Blank(c) { assert Digit(c); }
  }

  lemma VcIsWord(n: nat)
    ensures IsWord(VcOf(n))
  {
    Decimal.NumberDigits(n % 10000, 4);
    DigitsAreWords(VcOf(n));
  }

  // ---------- REQ ----------

  /** A REQ that is not answered RRQ OK changes nothing at all on the server. */
  lemma RefusedReqChangesNothing(a: Server, userID: string, m: Message, answer: Option<string>)
    ensures Req(a, userID, m, answer).1 != RrqOk ==> Req(a, userID, m, answer).0 == a
    ensures Req(a, userID, m, answer).1 == RrqOk ==>
              && Known(a, m.uid) && UserOf(a, m.uid).isLogged && UserOf(a, m.uid).isOn
              && userID == m.uid && WellFormed(m) && Accepted(answer)
  {
  }

  // ---------- VLD ----------

  /** What the history says VLD should answer: what the user's latest successful REQ asked for, if the TID is its. */
  function Confirmation(r: Run, uid: string, tid: string): string {
    match LatestGrant(r, uid)
    case None => "E"
    case Some(g) => if Tid(g) == tid then Asked(g) else "E"
  }

  lemma VldExact(r: Run, uid: string, tid: string)
    requires Legit(r)
    ensures var (b, reply) := Vld(ServerAfter(r), uid, tid);
            && reply == Cnf(uid, tid, Confirmation(r, uid, tid))
            && |b.users| == |ServerAfter(r).users|
            && forall i | 0 <= i < |b.users| :: SameMaps(ServerAfter(r).users[i], b.users[i])
  {
    MapsAreHistory(r, uid);
    VldKeepsTids(ServerAfter(r), uid, tid);
  }

  lemma GrantIsWellFormed(r: Run, uid: string)
    requires Legit(r) && Grants(r, uid)
    ensures WellFormed(r.e.m) && Asked(r) != "E"
  {
    assert r.reply == DoTcp(ServerAfter(r.prev), IdOf(After(r.prev), r.e.conn), r.e.m,
                            Exchange(After(r.prev), r.e.m, r.e.lost)).2;
    if r.e.m.words == 5 {
      assert Asked(r)[1] == ' ';
    }
  }

  lemma {:induction false} LegitPrefix(r: Run, p: Run)
    requires Legit(r) && Extends(r, p)
    ensures Legit(p)
    decreases r
  {
    if r != p {
      LegitPrefix(r.prev, p);
    }
  }

  /** VLD confirms exactly the TID of the user's latest successful REQ. */
  lemma VldConfirmsOnlyLatest(r: Run, uid: string, tid: string)
    requires Legit(r)
    ensures Vld(ServerAfter(r), uid, tid).1 != Cnf(uid, tid, "E")
       <==> LatestGrant(r, uid).Some? && tid == Tid(LatestGrant(r, uid).value)
  {
    VldExact(r, uid, tid);
    if LatestGrant(r, uid).Some? {
      LegitPrefix(r, LatestGrant(r, uid).value);
      GrantIsWellFormed(LatestGrant(r, uid).value, uid);
    }
  }

  /** The run went from p to r without a successful REQ for the user. */
  ghost predicate NoGrantSince(r: Run, p: Run, uid: string) {
    r == p || (r.Then? && !Grants(r, uid) && NoGrantSince(r.prev, p, uid))
  }

  lemma {:induction false} SameLatestGrant(r: Run, p: Run, uid: string)
    requires NoGrantSince(r, p, uid)
    ensures LatestGrant(r, uid) == LatestGrant(p, uid) && Extends(r, p)
    decreases r
  {
    if r != p {
      SameLatestGrant(r.prev, p, uid);
    }
  }

  /** A repeated VLD gets the same answer, whatever happened in between, until the user's next successful REQ. */
  lemma VldStable(r: Run, p: Run, uid: string, tid: string)
    requires Legit(r) && NoGrantSince(r, p, uid)
    ensures Vld(ServerAfter(r), uid, tid).1 == Vld(ServerAfter(p), uid, tid).1
  {
    SameLatestGrant(r, p, uid);
    LegitPrefix(r, p);
    VldExact(r, uid, tid);
    VldExact(p, uid, tid);
  }

  // ---------- AUT ----------

  /** AUT answers with the TID of the pending request for exactly its RID and VC, and never prints a missing TID. */
  lemma AutExact(r: Run, uid: string, rid: string, vc: string)
    requires Legit(r)
    ensures Aut(ServerAfter(r), uid, rid, vc).1 ==
            match PendingGrant(r, uid)
            case None => Rau("0000")
            case Some(g) => if g.e.m.pw == rid && Vc(g) == vc then Rau(Tid(g)) else Rau("0000")
  {
    MapsAreHistory(r, uid);
    AutSettles(ServerAfter(r), uid, rid, vc);
  }

  lemma LatestGrantIsPast(r: Run, uid: string)
    ensures PendingGrant(r, uid).Some? ==> Extends(r, PendingGrant(r, uid).value)
  {
    assert PendingGrant(r, uid).Some? ==> PendingGrant(r, uid) == LatestGrant(r, uid);
  }

  lemma GrantKnows(g: Run, uid: string)
    requires Legit(g) && Grants(g, uid)
    ensures Known(ServerAfter(g.prev), uid)
  {
    var w := After(g.prev);
    RefusedReqChangesNothing(w.a, IdOf(w, g.e.conn), g.e.m, Exchange(w, g.e.m, g.e.lost));
  }

  /** The line that a granted request had sent to the user's device. */
  lemma SentLine(g: Run, uid: string)
    requires Legit(g) && Grants(g, uid)
    ensures Known(ServerAfter(g.prev), uid)
    ensures var line := PdLine(ServerAfter(g.prev), g.e.m);
            && Field(line, 0) == "VLC" && Field(line, 1) == uid && Field(line, 2) == Vc(g) && Field(line, 3) == g.e.m.vc
            && Field(line, 4) == if Named(g.e.m).Some? then g.e.m.fname else ""
  {
    GrantKnows(g, uid);
    LegitPrefix(g, g.prev);
    CountersClosedForm(g.prev);
    VcIsWord(Count(g.prev));
    Device.VlcFields(uid, Vc(g), g.e.m.vc, Named(g.e.m));
  }

  /** AUT gives a TID exactly for the VC in the line that had been sent to the user's device for the pending request. */
  lemma SentVcIsAccepted(r: Run, uid: string, rid: string, vc: string)
    requires Legit(r)
    ensures Aut(ServerAfter(r), uid, rid, vc).1 != Rau("0000") <==>
              && PendingGrant(r, uid).Some?
              && var g := PendingGrant(r, uid).value;
              && g.e.m.pw == rid && Known(ServerAfter(g.prev), uid)
              && Field(PdLine(ServerAfter(g.prev), g.e.m), 2) == vc
  {
    AutExact(r, uid, rid, vc);
    if PendingGrant(r, uid).Some? {
      var g := PendingGrant(r, uid).value;
      LatestGrantIsPast(r, uid);
      LegitPrefix(r, g);
      SentLine(g, uid);
      TidNeverZero(Count(g.prev));
    }
  }

  predicate PeriodsApart(n: nat, m: nat, period: nat)
    requires period > 0
  {
    (n - m) % period == 0
  }

  lemma SameVc(a: Server, b: Server, n: nat, m: nat)
    requires a.newVC == VcOf(n) && b.newVC == VcOf(m)
    ensures a.newVC == b.newVC <==> PeriodsApart(n, m, 10000)
  {
    Repeats(n, m);
  }

  /**
   * The VC is printed for the device when the request comes and read again when the device has agreed. The two are
   * the same exactly when the successful requests in between are a multiple of ten thousand.
   */
  lemma VcStays(r: Run, p: Run)
    requires Legit(r) && Extends(r, p)
    ensures ServerAfter(r).newVC == ServerAfter(p).newVC <==> PeriodsApart(Count(r), Count(p), 10000)
  {
    LegitPrefix(r, p);
    CountersClosedForm(r);
    CountersClosedForm(p);
    SameVc(ServerAfter(r), ServerAfter(p), Count(r), Count(p));
  }

  lemma CountGrows(g: Run, uid: string)
    requires Grants(g, uid)
    ensures Count(g) == Count(g.prev) + 1 && !PeriodsApart(Count(g), Count(g.prev), 10000)
  {
  }

  /** One successful request in between is enough: the device was sent another VC than is then stored. */
  lemma GrantMovesVc(g: Run, uid: string)
    requires Legit(g) && Grants(g, uid)
    ensures ServerAfter(g).newVC != ServerAfter(g.prev).newVC
  {
    CountGrows(g, uid);
    LegitPrefix(g, g.prev);
    CountersClosedForm(g);
    CountersClosedForm(g.prev);
    SameVc(ServerAfter(g), ServerAfter(g.prev), Count(g), Count(g.prev));
  }

  lemma {:induction false} NothingPending(r: Run, p: Run, uid: string)
    requires Settles(p, uid) && NoGrantSince(r, p, uid)
    ensures PendingGrant(r, uid) == None
    decreases r
  {
    if r != p {
      NothingPending(r.prev, p, uid);
    }
  }

  /** Once an AUT has been answered with a TID, every later one gets 0000 until the user's next successful REQ. */
  lemma AutOnce(r: Run, p: Run, uid: string, rid: string, vc: string)
    requires Legit(r) && Settles(p, uid) && NoGrantSince(r, p, uid)
    ensures Aut(ServerAfter(r), uid, rid, vc).1 == Rau("0000")
  {
    NothingPending(r, p, uid);
    AutExact(r, uid, rid, vc);
  }

  /** The TID that AUT hands out is the one VLD confirms, until the user's next successful REQ. */
  lemma AutThenVld(r: Run, p: Run, uid: string, rid: string, vc: string, tid: string)
    requires Legit(r) && NoGrantSince(r, p, uid)
    requires Aut(ServerAfter(p), uid, rid, vc).1 == Rau(tid) && tid != "0000"
    ensures LatestGrant(p, uid).Some? && LatestGrant(p, uid).value.e.m.pw == rid
    ensures Vld(ServerAfter(r), uid, tid).1 == Cnf(uid, tid, Asked(LatestGrant(p, uid).value))
  {
    SameLatestGrant(r, p, uid);
    LegitPrefix(r, p);
    AutExact(p, uid, rid, vc);
    VldExact(r, uid, tid);
  }

  // ---------- sessions and devices ----------

  lemma LogResult(a: Server, userID: string, m: Message, answer: Option<string>)
    ensures var (b, id, reply) := DoTcp(a, userID, m, answer);
            if m.op == "LOG" && reply == RloOk then
              id == m.uid && Known(a, m.uid) && UserOf(a, m.uid).pw == m.pw
            else id == userID
  {
  }

  lemma SessionStep(w: World, e: Event, conn: nat)
    ensures var (v, reply) := Step(w, e);
            if e.Tcp? && e.conn == conn && e.m.op == "LOG" && reply == RloOk then
              IdOf(v, conn) == e.m.uid && Known(w.a, e.m.uid) && UserOf(w.a, e.m.uid).pw == e.m.pw
            else if (e.Close? || e.Drop?) && e.conn == conn then IdOf(v, conn) == ""
            else IdOf(v, conn) == IdOf(w, conn)
  {
    if e.Tcp? {
      LogResult(w.a, IdOf(w, e.conn), e.m, Exchange(w, e.m, e.lost));
    }
  }

  lemma StaysRegistered(r: Run, uid: string)
    requires r.Then? && Known(ServerAfter(r.prev), uid)
    ensures Known(ServerAfter(r), uid)
    ensures UserOf(ServerAfter(r), uid).pw == UserOf(ServerAfter(r.prev), uid).pw
  {
    RegistrationLasts(r, r.prev, uid);
  }

  /** A session speaks for the user of its latest successful LOG, which presented that user's password. */
  lemma {:induction false} SessionsHold(r: Run, conn: nat)
    requires Legit(r)
    ensures IdOf(After(r), conn) == match LatestLogin(r, conn) case None => "" case Some(l) => l.e.m.uid
    ensures LatestLogin(r, conn).Some? ==>
              var m := LatestLogin(r, conn).value.e.m;
              Known(ServerAfter(r), m.uid) && UserOf(ServerAfter(r), m.uid).pw == m.pw
  {
    if r.Then? {
      SessionsHold(r.prev, conn);
      SessionStep(After(r.prev), r.e, conn);
      if LatestLogin(r, conn).Some? {
        StaysRegistered(r, LatestLogin(r, conn).value.e.m.uid);
      }
    }
  }

  lemma RegResult(a: Server, uid: string, pw: string, pdip: string, pdport: string)
    ensures var (b, reply) := Reg(a, uid, pw, pdip, pdport);
            reply == RrgOk ==> Known(b, uid) && UserOf(b, uid).pw == pw
  {
    FindAfterAppend(a.users, NewUser(uid, pw, pdip, pdport), uid);
    var i := Find(a.users, uid);
    if i < |a.users| {
      FindAfterUpdate(a.users, i, Register(a.users[i], pdip, pdport), uid);
    }
  }

  lemma DeviceStep(w: World, e: Event, where: Address)
    ensures var (v, reply) := Step(w, e);
            if e.PdRegisters? && e.address == where && e.heard && reply == RrgOk then
              where in v.pds && v.pds[where] == e.uid && Known(v.a, e.uid) && UserOf(v.a, e.uid).pw == e.pw
            else if e.PdStops? && e.where == where then where !in v.pds
            else (where in v.pds <==> where in w.pds) && (where in w.pds ==> v.pds[where] == w.pds[where])
  {
    if e.PdRegisters? {
      RegResult(w.a, e.uid, e.pw, e.address.0, e.address.1);
    }
  }

  /** A device holds the user of its latest successful registration, which presented that user's password. */
  lemma {:induction false} DevicesHold(r: Run, where: Address)
    requires Legit(r)
    ensures where in After(r).pds <==> LatestRegistration(r, where).Some?
    ensures LatestRegistration(r, where).Some? ==>
              var e := LatestRegistration(r, where).value.e;
              && After(r).pds[where] == e.uid
              && Known(ServerAfter(r), e.uid) && UserOf(ServerAfter(r), e.uid).pw == e.pw
  {
    if r.Then? {
      DevicesHold(r.prev, where);
      DeviceStep(After(r.prev), r.e, where);
      if LatestRegistration(r.prev, where).Some? {
        StaysRegistered(r, LatestRegistration(r.prev, where).value.e.uid);
      }
    }
  }

  /** The device's answer is accepted exactly when it holds the user. */
  lemma DeviceAgrees(r: Run, held: string, m: Message)
    requires Legit(r) && Known(ServerAfter(r), m.uid)
    ensures var line := PdLine(ServerAfter(r), m);
            Accepted(Some(Device.Answer(held, line))) <==> held == m.uid && 4 <= WordCount(line) <= 5
  {
    RegistrationHolds(r);
    RegisteredUser(ServerAfter(r), m.uid);
    CountersClosedForm(r);
    VcIsWord(Count(r));
    Device.DeviceVouches(held, m.uid, ServerAfter(r).newVC, m.vc, Named(m));
  }

  lemma AnswerForHolder(r: Run, m: Message)
    requires Legit(r) && Known(ServerAfter(r), m.uid) && 4 <= WordCount(PdLine(ServerAfter(r), m)) <= 5
    ensures Device.Answer(m.uid, PdLine(ServerAfter(r), m)) == "RVC " + m.uid + " OK\n"
  {
    RegistrationHolds(r);
    RegisteredUser(ServerAfter(r), m.uid);
    CountersClosedForm(r);
    VcIsWord(Count(r));
    Device.VlcFields(m.uid, ServerAfter(r).newVC, m.vc, Named(m));
  }

  /** Everything a REQ needs: the user's own logged-in session, a well-formed request, and the user's device. */
  ghost predicate Grantable(w: World, conn: nat, m: Message, lost: bool) {
    && Known(w.a, m.uid)
    && var u := UserOf(w.a, m.uid);
    && u.isLogged && IdOf(w, conn) == m.uid
    && ((m.words == 4 && m.vc in {"L", "X"}) || (m.words == 5 && m.vc in {"R", "U", "D"}))
    && u.isOn && !lost && AddressOf(u) in w.pds && w.pds[AddressOf(u)] == m.uid
    && 4 <= WordCount(PdLine(w.a, m)) <= 5
  }

  lemma {:induction false} NoneHeard(heard: seq<Option<string>>, n: nat)
    requires n <= |heard| && forall k: nat | k < |heard| && heard[k].Some? :: exists j: nat :: j < k && heard[j].Some?
    ensures forall k | 0 <= k < n :: heard[k].None?
  {
    if n > 0 {
      NoneHeard(heard, n - 1);
    }
  }

  /** What comes of six waits for the device: its answer, unless every wait was in vain. */
  lemma ExchangeIsHeard(w: World, m: Message, heard: seq<Option<string>>)
    requires |heard| == 6 && forall k | 0 <= k < 6 && heard[k].Some? :: heard[k] == Exchange(w, m, false)
    ensures FirstHeard(heard) == Exchange(w, m, forall k | 0 <= k < 6 :: heard[k].None?)
  {
    if k: nat :| k < 6 && heard[k].Some? && forall j | 0 <= j < k :: heard[j].None? {
      FirstHeardIs(heard, k);
    } else {
      NoneHeard(heard, 6);
      FirstHeardIs(heard, 5);
    }
  }

  lemma ReqOk(a: Server, userID: string, m: Message, answer: Option<string>)
    ensures Req(a, userID, m, answer).1 == RrqOk <==>
              && Known(a, m.uid) && UserOf(a, m.uid).isLogged && UserOf(a, m.uid).isOn && userID == m.uid
              && ((m.words == 4 && m.vc in {"L", "X"}) || (m.words == 5 && m.vc in {"R", "U", "D"}))
              && Accepted(answer)
  {
  }

  lemma ExchangeAccepted(r: Run, m: Message, lost: bool)
    requires Legit(r) && Known(ServerAfter(r), m.uid)
    ensures var w, where := After(r), AddressOf(UserOf(ServerAfter(r), m.uid));
            Accepted(Exchange(w, m, lost)) <==>
              && !lost && where in w.pds && w.pds[where] == m.uid && 4 <= WordCount(PdLine(w.a, m)) <= 5
  {
    var w, where := After(r), AddressOf(UserOf(ServerAfter(r), m.uid));
    if where in w.pds {
      DeviceAgrees(r, w.pds[where], m);
    }
  }

  /** A REQ succeeds exactly when it has all that. */
  lemma ReqGrantedExactly(r: Run, conn: nat, m: Message, lost: bool)
    requires Legit(r) && m.op == "REQ"
    ensures Step(After(r), Tcp(conn, m, lost)).1 == RrqOk <==> Grantable(After(r), conn, m, lost)
  {
    ReqOk(ServerAfter(r), IdOf(After(r), conn), m, Exchange(After(r), m, lost));
    if Known(ServerAfter(r), m.uid) {
      ExchangeAccepted(r, m, lost);
    }
  }

  ghost predicate TwoFactors(g: Run, uid: string) {
    && g.Then? && g.e.Tcp? && g.e.m.uid == uid
    && var a := ServerAfter(g.prev);
    && Known(a, uid)
    && var u := UserOf(a, uid);
    var login, registration := LatestLogin(g.prev, g.e.conn), LatestRegistration(g.prev, AddressOf(u));
    && login.Some? && login.value.e.m.uid == uid && login.value.e.m.pw == u.pw
    && registration.Some? && registration.value.e.uid == uid && registration.value.e.pw == u.pw
    && !g.e.lost && Device.Answer(uid, PdLine(a, g.e.m)) == "RVC " + uid + " OK\n"
  }

  /**
   * Two factors stand behind every successful REQ: the session had logged in as the user with the user's
   * password, and the device at the user's registered address had registered the user with that password and
   * answered for the user.
   */
  lemma GrantHasTwoFactors(g: Run, uid: string)
    requires Legit(g)
    ensures Grants(g, uid) ==> TwoFactors(g, uid)
  {
    if Grants(g, uid) {
      ReqGrantedExactly(g.prev, g.e.conn, g.e.m, g.e.lost);
      SessionsHold(g.prev, g.e.conn);
      var where := AddressOf(UserOf(ServerAfter(g.prev), uid));
      DevicesHold(g.prev, where);
      AnswerForHolder(g.prev, g.e.m);
    }
  }

  /** A granted request's device shows its user the code and what was asked for. */
  lemma CodeIsShown(g: Run, uid: string)
    requires Legit(g) && Grants(g, uid)
    ensures TwoFactors(g, uid)
    ensures Device.Screen(uid, PdLine(ServerAfter(g.prev), g.e.m))
         == Device.Shown(Vc(g), g.e.m.vc, if Named(g.e.m).Some? then g.e.m.fname else "")
  {
    GrantHasTwoFactors(g, uid);
    SentLine(g, uid);
    ReqGrantedExactly(g.prev, g.e.conn, g.e.m, g.e.lost);
  }

  // ---------- the protocol can be completed ----------

  function AfterReg(uid: Word, pw: Word, address: (Word, Word)): Run {
    Then(Begin, PdRegisters(address, uid, pw, true), RrgOk)
  }

  lemma FirstRegistration(uid: Word, pw: Word, address: (Word, Word))
    requires ValidUid(uid) && ValidPass(pw)
    ensures var r := AfterReg(uid, pw, address);
            && Legit(r) && Count(r) == 0
            && ServerAfter(r).users == [NewUser(uid, pw, address.0, address.1)]
            && After(r).pds == map[address := uid] && After(r).ids == map[]
  {
  }

  function AfterLog(uid: Word, pw: Word, address: (Word, Word), conn: nat, login: Message): Run {
    Then(AfterReg(uid, pw, address), Tcp(conn, login, false), RloOk)
  }

  lemma FirstLogin(uid: Word, pw: Word, address: (Word, Word), conn: nat, login: Message)
    requires ValidUid(uid) && ValidPass(pw)
    requires login.words == 3 && login.op == "LOG" && login.uid == uid && login.pw == pw
    ensures var r := AfterLog(uid, pw, address, conn, login);
            && Legit(r) && Count(r) == 0
            && ServerAfter(r).users == [NewUser(uid, pw, address.0, address.1).(isLogged := true)]
            && After(r).pds == map[address := uid] && IdOf(After(r), conn) == uid
  {
    FirstRegistration(uid, pw, address);
  }

  /** A user who registers, logs in and asks gets the request approved, whatever well-formed request it is. */
  lemma ProtocolCompletes(uid: Word, pw: Word, address: (Word, Word), conn: nat, login: Message, m: Message)
    returns (r: Run)
    requires ValidUid(uid) && ValidPass(pw)
    requires login.words == 3 && login.op == "LOG" && login.uid == uid && login.pw == pw
    requires m.op == "REQ" && m.uid == uid && WellFormed(m)
    requires 4 <= WordCount(Vlc(uid, VcOf(0), m.vc, Named(m))) <= 5
    ensures Legit(r) && LatestGrant(r, uid) == Some(r) == PendingGrant(r, uid)
    ensures r == Then(AfterLog(uid, pw, address, conn, login), Tcp(conn, m, false), RrqOk) && Tid(r) == TidOf(0)
  {
    var p := AfterLog(uid, pw, address, conn, login);
    FirstLogin(uid, pw, address, conn, login);
    CountersClosedForm(p);
    ReqGrantedExactly(p, conn, m, false);
    r := Then(p, Tcp(conn, m, false), RrqOk);
  }
}
