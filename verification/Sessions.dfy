/** Who is logged in, over every run: when a LOG is refused, and when a user is left logged in without a session. */
module Sessions {
  import opened Options
  import opened Text
  import opened Assoc
  import opened Protocol
  import opened Identifiers
  import opened Runs
  import opened Guarantees

  // ---------- what the history says ----------

  /** The last event is a successful LOG of the user. */
  predicate LogsIn(r: Run, uid: string) {
    r.Then? && r.e.Tcp? && r.e.m.op == "LOG" && r.e.m.uid == uid && r.reply == RloOk
  }

  /** The last event confirms an X for the user. */
  predicate ConfirmsX(r: Run, uid: string) {
    r.Then? && r.e.Udp? && r.e.d.uid == uid && r.reply.Cnf? && r.reply.fop == "X"
  }

  /** The session's latest successful LOG was the user's. */
  predicate Holds(r: Run, conn: nat, uid: string) {
    LatestLogin(r, conn).Some? && LatestLogin(r, conn).value.e.m.uid == uid
  }

  /** The last event closes a session of the user. */
  predicate Closes(r: Run, uid: string) {
    r.Then? && r.e.Close? && Holds(r.prev, r.e.conn, uid)
  }

  /** The user's latest successful LOG, unless an X has been confirmed or a session of the user closed since. */
  function OpenLogin(r: Run, uid: string): (l: Option<Run>)
    ensures l.Some? ==> LogsIn(l.value, uid) && Extends(r, l.value)
  {
    if r.Begin? then None
    else if LogsIn(r, uid) then Some(r)
    else if ConfirmsX(r, uid) || Closes(r, uid) then None
    else OpenLogin(r.prev, uid)
  }

  // ---------- what each event does to the flag ----------

  predicate LoggedIn(a: Server, uid: string) {
    Known(a, uid) && UserOf(a, uid).isLogged
  }

  /** A user is replaced by one with the same uid. */
  lemma FlagAfterUpdate(a: Server, i: nat, u: User, uid: string)
    requires i < |a.users| && i == Find(a.users, u.uid)
    ensures LoggedIn(SetUser(a, i, u), uid) <==> if u.uid == uid then u.isLogged else LoggedIn(a, uid)
  {
    FindAfterUpdate(a.users, i, u, uid);
  }

  lemma RegFlag(a: Server, uid: string, pw: string, pdip: string, pdport: string, who: string)
    ensures LoggedIn(Reg(a, uid, pw, pdip, pdport).0, who) <==> LoggedIn(a, who)
  {
    var i := Find(a.users, uid);
    if i < |a.users| {
      FlagAfterUpdate(a, i, Register(a.users[i], pdip, pdport), who);
    } else {
      FindAfterAppend(a.users, NewUser(uid, pw, pdip, pdport), who);
    }
  }

  lemma UnrFlag(a: Server, uid: string, pw: string, who: string)
    ensures LoggedIn(Unr(a, uid, pw).0, who) <==> LoggedIn(a, who)
  {
    var i := Find(a.users, uid);
    if i < |a.users| {
      FlagAfterUpdate(a, i, Unregister(a.users[i]), who);
    }
  }

  lemma VldFlag(a: Server, uid: string, tid: string, who: string)
    ensures var (b, reply) := Vld(a, uid, tid);
            && reply.Cnf?
            && (LoggedIn(b, who) <==> LoggedIn(a, who) && !(uid == who && reply.fop == "X"))
  {
    var i := Find(a.users, uid);
    if i < |a.users| && Get(a.users[i].tids, tid).Some? {
      FlagAfterUpdate(a, i, Confirm(a.users[i], tid, Get(a.users[i].tids, tid).value), who);
    }
  }

  lemma UdpFlag(a: Server, d: Datagram, who: string)
    ensures var (b, reply) := DoUdp(a, d);
            LoggedIn(b, who) <==> LoggedIn(a, who) && !(d.uid == who && reply.Cnf? && reply.fop == "X")
  {
    if d.words == 5 && d.op == "REG" {
      RegFlag(a, d.uid, d.pw, d.pdip, d.pdport, who);
    } else if d.words == 3 && d.op == "UNR" {
      UnrFlag(a, d.uid, d.pw, who);
    } else if d.words == 3 && d.op == "VLD" {
      VldFlag(a, d.uid, d.pw, who);
    }
  }

  lemma LogFlag(a: Server, userID: string, uid: string, pw: string, who: string)
    ensures var (b, id, reply) := Log(a, userID, uid, pw);
            LoggedIn(b, who) <==> LoggedIn(a, who) || (uid == who && reply == RloOk)
  {
    var i := Find(a.users, uid);
    if i < |a.users| {
      FlagAfterUpdate(a, i, a.users[i].(isLogged := true), who);
    }
  }

  lemma ReqFlag(a: Server, userID: string, m: Message, answer: Option<string>, who: string)
    ensures LoggedIn(Req(a, userID, m, answer).0, who) <==> LoggedIn(a, who)
  {
    var i := Find(a.users, m.uid);
    if i < |a.users| {
      FlagAfterUpdate(a, i, Pend(a.users[i], m.pw, a.newVC, a.newTID, FopText(m.vc, Named(m))), who);
    }
  }

  lemma AutFlag(a: Server, uid: string, rid: string, vc: string, who: string)
    ensures LoggedIn(Aut(a, uid, rid, vc).0, who) <==> LoggedIn(a, who)
  {
    var i := Find(a.users, uid);
    if i < |a.users| {
      FlagAfterUpdate(a, i, Settle(a.users[i], rid), who);
    }
  }

  lemma TcpFlag(a: Server, userID: string, m: Message, answer: Option<string>, who: string)
    ensures var (b, id, reply) := DoTcp(a, userID, m, answer);
            LoggedIn(b, who) <==> LoggedIn(a, who) || (m.op == "LOG" && m.uid == who && reply == RloOk)
  {
    LogFlag(a, userID, m.uid, m.pw, who);
    ReqFlag(a, userID, m, answer, who);
    AutFlag(a, m.uid, m.pw, m.vc, who);
  }

  lemma HangupFlag(a: Server, userID: string, who: string)
    ensures LoggedIn(Hangup(a, userID), who) <==> LoggedIn(a, who) && userID != who
  {
    var i := Find(a.users, userID);
    if i < |a.users| {
      FlagAfterUpdate(a, i, a.users[i].(isLogged := false), who);
    }
  }

  lemma FlagStep(w: World, e: Event, who: string)
    ensures var (v, reply) := Step(w, e);
            LoggedIn(v.a, who) <==>
            if e.Tcp? && e.m.op == "LOG" && e.m.uid == who && reply == RloOk then true
            else if e.Udp? && e.d.uid == who && reply.Cnf? && reply.fop == "X" then false
            else if e.Close? && IdOf(w, e.conn) == who then false
            else LoggedIn(w.a, who)
  {
    match e
    case Udp(d) => UdpFlag(w.a, d, who);
    case PdRegisters(address, uid, pw, _) => RegFlag(w.a, uid, pw, address.0, address.1, who);
    case PdStops(_) =>
    case Tcp(conn, m, lost) => TcpFlag(w.a, IdOf(w, conn), m, Exchange(w, m, lost), who);
    case Close(conn) => HangupFlag(w.a, IdOf(w, conn), who);
    case Drop(_) =>
  }

  // ---------- when a LOG is refused ----------

  /** In every run a user is logged in exactly if the history holds an open login. */
  lemma {:induction false} LoggedExactly(r: Run, uid: string)
    requires Legit(r) && uid != ""
    ensures LoggedIn(ServerAfter(r), uid) <==> OpenLogin(r, uid).Some?
  {
    if r.Then? {
      LoggedExactly(r.prev, uid);
      FlagStep(After(r.prev), r.e, uid);
      if r.e.Close? {
        SessionsHold(r.prev, r.e.conn);
      }
    }
  }

  /** So a LOG succeeds exactly for a registered user with the right password and no open login. */
  lemma LoginExactly(r: Run, conn: nat, m: Message, lost: bool)
    requires Legit(r) && m.words == 3 && m.op == "LOG"
    ensures Step(After(r), Tcp(conn, m, lost)).1 == RloOk <==>
              Known(ServerAfter(r), m.uid) && UserOf(ServerAfter(r), m.uid).pw == m.pw && OpenLogin(r, m.uid).None?
  {
    LoggedExactly(r, m.uid);
  }

  // ---------- when a user is left logged in ----------

  /** Since that login its session has been lost, or has logged in another user. */
  predicate Abandoned(r: Run, l: Run)
    requires l.Then? && l.e.Tcp?
  {
    r != l && r.Then? &&
    ((r.e.Drop? && r.e.conn == l.e.conn) || Logs(r, l.e.conn) || Abandoned(r.prev, l))
  }

  /** The session of an open login still has the user exactly if it has not been abandoned. */
  lemma {:induction false} SessionLeft(r: Run, uid: string)
    requires OpenLogin(r, uid).Some?
    ensures var l := OpenLogin(r, uid).value;
            LatestLogin(r, l.e.conn) == Some(l) <==> !Abandoned(r, l)
  {
    if !LogsIn(r, uid) {
      SessionLeft(r.prev, uid);
    }
  }

  /** The user is logged in, and no session has the user. */
  ghost predicate Stranded(r: Run, uid: string) {
    OpenLogin(r, uid).Some? && forall conn: nat :: !Holds(r, conn, uid)
  }

  /** No X has been confirmed for the user between p and r. */
  predicate NoXSince(r: Run, p: Run, uid: string) {
    r == p || (r.Then? && !ConfirmsX(r, uid) && NoXSince(r.prev, p, uid))
  }

  lemma NoLoginWhileOpen(r: Run, uid: string)
    requires Legit(r) && r.Then? && OpenLogin(r.prev, uid).Some?
    ensures !LogsIn(r, uid)
  {
    if LogsIn(r, uid) {
      LoginExactly(r.prev, r.e.conn, r.e.m, r.e.lost);
    }
  }

  /** Until an X is confirmed, a session of the user is that of the user's open login. */
  lemma {:induction false} OnlySession(r: Run, conn: nat, uid: string)
    requires Legit(r) && NoXSince(r, Begin, uid) && Holds(r, conn, uid)
    ensures OpenLogin(r, uid) == LatestLogin(r, conn)
  {
    if LogsIn(r, uid) {
      if r.e.conn != conn {
        OnlySession(r.prev, conn, uid);
        NoLoginWhileOpen(r, uid);
      }
    } else {
      OnlySession(r.prev, conn, uid);
      if Closes(r, uid) {
        OnlySession(r.prev, r.e.conn, uid);
      }
    }
  }

  /** Then a user is stranded exactly if the session of the open login has been lost or taken over. */
  lemma StrandedExactly(r: Run, uid: string)
    requires Legit(r) && NoXSince(r, Begin, uid)
    ensures Stranded(r, uid) <==> OpenLogin(r, uid).Some? && Abandoned(r, OpenLogin(r, uid).value)
  {
    if OpenLogin(r, uid).Some? {
      var l := OpenLogin(r, uid).value;
      SessionLeft(r, uid);
      if conn: nat :| Holds(r, conn, uid) {
        OnlySession(r, conn, uid);
      } else {
        assert !Holds(r, l.e.conn, uid);
      }
    }
  }

  /** A stranded user stays so, and every LOG of the user is refused, until an X is confirmed. */
  lemma {:induction false} StrandedLasts(r: Run, p: Run, uid: string)
    requires Legit(r) && Stranded(p, uid) && NoXSince(r, p, uid)
    ensures Stranded(r, uid)
    decreases r
  {
    if r != p {
      StrandedLasts(r.prev, p, uid);
      NoLoginWhileOpen(r, uid);
      forall conn: nat ensures !Holds(r, conn, uid) {
        assert !Holds(r.prev, conn, uid);
      }
    }
  }

  /** It happens: after a login whose session is lost, the user cannot log in again. */
  lemma LossStrands(uid: Word, pw: Word, address: (Word, Word), conn: nat, login: Message, other: nat)
    requires ValidUid(uid) && ValidPass(pw)
    requires login.words == 3 && login.op == "LOG" && login.uid == uid && login.pw == pw
    ensures var r := Then(AfterLog(uid, pw, address, conn, login), Drop(conn), Silence);
            Legit(r) && Stranded(r, uid) && Step(After(r), Tcp(other, login, false)).1 == RloNok
  {
    var l := AfterLog(uid, pw, address, conn, login);
    var r := Then(l, Drop(conn), Silence);
    FirstLogin(uid, pw, address, conn, login);
    assert OpenLogin(r, uid) == Some(l) && Abandoned(r, l);
    assert NoXSince(AfterReg(uid, pw, address), Begin, uid);
    assert NoXSince(l, Begin, uid);
    StrandedExactly(r, uid);
    LoginExactly(r, other, login, false);
  }

  // ---------- two sessions of one user ----------

  /** VLD confirms an X that has been approved. */
  lemma ConfirmX(g: Run, uid: Word, d: Datagram)
    requires Legit(g) && LatestGrant(g, uid) == Some(g) && g.e.m.words == 4 && g.e.m.vc == "X"
    requires d.words == 3 && d.op == "VLD" && d.uid == uid && d.pw == Tid(g)
    ensures Legit(Then(g, Udp(d), Cnf(uid, Tid(g), "X")))
  {
    VldExact(g, uid, Tid(g));
    assert Asked(g) == "X";
  }

  lemma KeepsLogin(l: Run, g: Run, x: Run, conn: nat)
    requires Logs(l, conn) && g.Then? && g.prev == l && g.e.Tcp? && g.e.m.op == "REQ"
    requires x.Then? && x.prev == g && x.e.Udp?
    ensures Holds(x, conn, l.e.m.uid) && Extends(x, l)
  {
    assert LatestLogin(g, conn) == LatestLogin(l, conn) == Some(l);
    assert Extends(g, l);
  }

  /** A user asks for X, and it is confirmed: the session keeps its user. */
  lemma XConfirmed(uid: Word, pw: Word, address: (Word, Word), conn: nat, login: Message, m: Message, d: Datagram)
    returns (x: Run)
    requires ValidUid(uid) && ValidPass(pw)
    requires login.words == 3 && login.op == "LOG" && login.uid == uid && login.pw == pw
    requires m.op == "REQ" && m.uid == uid && m.words == 4 && m.vc == "X"
    requires 4 <= WordCount(Vlc(uid, VcOf(0), "X", None)) <= 5
    requires d.words == 3 && d.op == "VLD" && d.uid == uid && d.pw == TidOf(0)
    ensures Legit(x) && Extends(x, AfterLog(uid, pw, address, conn, login))
    ensures ConfirmsX(x, uid) && Holds(x, conn, uid)
  {
    var l := AfterLog(uid, pw, address, conn, login);
    var g := ProtocolCompletes(uid, pw, address, conn, login, m);
    x := Then(g, Udp(d), Cnf(uid, TidOf(0), "X"));
    ConfirmX(g, uid, d);
    KeepsLogin(l, g, x, conn);
  }

  /** When an X has been confirmed, another session can log in. */
  lemma SecondLogin(x: Run, uid: Word, conn: nat, other: nat, login: Message)
    requires Legit(x) && ConfirmsX(x, uid) && Holds(x, conn, uid) && conn != other
    requires Known(ServerAfter(x), uid) && UserOf(ServerAfter(x), uid).pw == login.pw
    requires login.words == 3 && login.op == "LOG" && login.uid == uid
    ensures var r := Then(x, Tcp(other, login, false), RloOk);
            Legit(r) && Holds(r, conn, uid) && Holds(r, other, uid) && OpenLogin(r, uid).Some?
  {
    LoginExactly(x, other, login, false);
    assert LatestLogin(Then(x, Tcp(other, login, false), RloOk), conn) == LatestLogin(x, conn);
  }

  /** So two sessions can have one user. */
  lemma TwoSessions(uid: Word, pw: Word, address: (Word, Word), conn: nat, other: nat, login: Message, m: Message,
                    d: Datagram)
    returns (r: Run)
    requires ValidUid(uid) && ValidPass(pw) && conn != other
    requires login.words == 3 && login.op == "LOG" && login.uid == uid && login.pw == pw
    requires m.op == "REQ" && m.uid == uid && m.words == 4 && m.vc == "X"
    requires 4 <= WordCount(Vlc(uid, VcOf(0), "X", None)) <= 5
    requires d.words == 3 && d.op == "VLD" && d.uid == uid && d.pw == TidOf(0)
    ensures Legit(r) && IdOf(After(r), conn) == uid == IdOf(After(r), other)
  {
    var x := XConfirmed(uid, pw, address, conn, login, m, d);
    FirstLogin(uid, pw, address, conn, login);
    RegistrationLasts(x, AfterLog(uid, pw, address, conn, login), uid);
    SecondLogin(x, uid, conn, other, login);
    r := Then(x, Tcp(other, login, false), RloOk);
    SessionsHold(r, conn);
    SessionsHold(r, other);
  }
}
