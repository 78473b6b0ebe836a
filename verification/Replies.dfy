/** Every reply of the Authentication Server, read off the history of requests and replies alone. */
module Replies {
  import opened Options
  import opened Text
  import opened Protocol
  import opened Identifiers
  import opened Runs
  import opened Guarantees
  import opened Sessions
  import opened Registrations

  // ---------- what each request should be answered ----------

  /** REG: a free address, a proper uid and password, and a user who is new, or inactive with that password. */
  ghost function RegReply(r: Run, uid: string, pw: string, address: Address): Reply {
    if AddressFree(r, address) && ValidUid(uid) && ValidPass(pw)
       && (Password(r, uid) == None || (Password(r, uid) == Some(pw) && Home(r, uid) == None))
    then RrgOk else RrgNok
  }

  /** UNR: the password decides; a wrong one gets an empty reply. */
  function UnrReply(r: Run, uid: string, pw: string): Reply {
    if Password(r, uid) == None then RunNok else if Password(r, uid) == Some(pw) then RunOk else Silence
  }

  function LogReply(r: Run, m: Message): Reply {
    if Password(r, m.uid) == Some(m.pw) && OpenLogin(r, m.uid) == None then RloOk else RloNok
  }

  /** The device at the user's address had registered the user, got a line of four or five words, and was heard. */
  predicate DeviceAgreed(r: Run, m: Message, lost: bool) {
    && Home(r, m.uid).Some? && !lost
    && var p := LatestRegistration(r, Home(r, m.uid).value);
    && p.Some? && p.value.e.uid == m.uid
    && 4 <= WordCount(Vlc(m.uid, VcOf(Count(r)), m.vc, Named(m))) <= 5
  }

  function ReqReply(r: Run, conn: nat, m: Message, lost: bool): Reply {
    if Password(r, m.uid) == None then RrqEuser
    else if OpenLogin(r, m.uid) == None then RrqElog
    else if !Holds(r, conn, m.uid) then RrqEuser
    else if (m.words == 4 && m.vc in {"L", "X"}) || (m.words == 5 && m.vc in {"R", "U", "D"}) then
      if DeviceAgreed(r, m, lost) then RrqOk else RrqEpd
    else if m.words == 4 || m.words == 5 then RrqEfop
    else RrqErr
  }

  function AutReply(r: Run, m: Message): Reply {
    match PendingGrant(r, m.uid)
    case None => Rau("0000")
    case Some(g) => if g.e.m.pw == m.pw && Vc(g) == m.vc then Rau(Tid(g)) else Rau("0000")
  }

  ghost function Expected(r: Run, e: Event): Reply {
    match e
    case Udp(d) =>
      if d.words == 5 && d.op == "REG" then RegReply(r, d.uid, d.pw, (d.pdip, d.pdport))
      else if d.words == 3 && d.op == "UNR" then UnrReply(r, d.uid, d.pw)
      else if d.words == 3 && d.op == "VLD" then Cnf(d.uid, d.pw, Confirmation(r, d.uid, d.pw))
      else Err
    case PdRegisters(address, uid, pw, _) => RegReply(r, uid, pw, address)
    case Tcp(conn, m, lost) =>
      if m.op == "LOG" && m.words == 3 then LogReply(r, m)
      else if m.op == "REQ" then ReqReply(r, conn, m, lost)
      else if m.op == "AUT" && m.words == 4 then AutReply(r, m)
      else Err
    case _ => Silence
  }

  // ---------- and is ----------

  function EntryFrom(password: Option<string>, home: Option<Address>): Entry {
    if password.None? then Absent else Entry(password.value, home)
  }

  lemma RegDecides(a: Server, uid: string, pw: string, address: Address, password: Option<string>,
                   home: Option<Address>)
    requires Look(a, uid) == EntryFrom(password, home)
    ensures Reg(a, uid, pw, address.0, address.1).1
         == if !AddressTaken(a.users, address.0, address.1) && ValidUid(uid) && ValidPass(pw)
               && (password == None || (password == Some(pw) && home == None))
            then RrgOk else RrgNok
  {
    RegEntry(a, uid, pw, address, uid);
  }

  lemma RegExactly(r: Run, uid: string, pw: string, address: (Word, Word))
    requires Legit(r)
    ensures Reg(ServerAfter(r), uid, pw, address.0, address.1).1 == RegReply(r, uid, pw, address)
  {
    EntryExactly(r, uid);
    RegDecides(ServerAfter(r), uid, pw, address, Password(r, uid), Home(r, uid));
    TakenExactly(r, address);
  }

  lemma UnrExactly(r: Run, uid: string, pw: string)
    requires Legit(r)
    ensures Unr(ServerAfter(r), uid, pw).1 == UnrReply(r, uid, pw)
    ensures UnrReply(r, uid, pw) != RunOk ==> Unr(ServerAfter(r), uid, pw).0 == ServerAfter(r)
  {
    UnrEntry(ServerAfter(r), uid, pw, uid);
    EntryExactly(r, uid);
  }

  lemma LogExactly(r: Run, conn: nat, m: Message, lost: bool)
    requires Legit(r) && m.op == "LOG" && m.words == 3
    ensures Step(After(r), Tcp(conn, m, lost)).1 == LogReply(r, m)
  {
    LoginExactly(r, conn, m, lost);
    EntryExactly(r, m.uid);
  }

  /** The replies of REQ in terms of the state. */
  lemma ReqCases(a: Server, userID: string, m: Message, answer: Option<string>)
    ensures var reply := Req(a, userID, m, answer).1;
            && (!LoggedIn(a, m.uid) ==> reply == if Known(a, m.uid) then RrqElog else RrqEuser)
            && (LoggedIn(a, m.uid) && userID != m.uid ==> reply == RrqEuser)
            && (LoggedIn(a, m.uid) && userID == m.uid && WellFormed(m) ==> reply in {RrqOk, RrqEpd})
            && (LoggedIn(a, m.uid) && userID == m.uid && !WellFormed(m) ==>
                  reply == if m.words == 4 || m.words == 5 then RrqEfop else RrqErr)
  {
  }

  lemma SessionIs(r: Run, conn: nat, uid: Word)
    requires Legit(r)
    ensures IdOf(After(r), conn) == uid <==> Holds(r, conn, uid)
  {
    SessionsHold(r, conn);
  }

  lemma AgreedExactly(r: Run, m: Message, lost: bool)
    requires Legit(r)
    ensures DeviceAgreed(r, m, lost) <==>
              && Home(r, m.uid).Some? && !lost
              && Home(r, m.uid).value in After(r).pds && After(r).pds[Home(r, m.uid).value] == m.uid
              && 4 <= WordCount(Vlc(m.uid, ServerAfter(r).newVC, m.vc, Named(m))) <= 5
  {
    CountersClosedForm(r);
    if Home(r, m.uid).Some? {
      DevicesHold(r, Home(r, m.uid).value);
    }
  }

  /** Everything that a REQ needs. */
  predicate HasAll(r: Run, conn: nat, m: Message, lost: bool) {
    && Password(r, m.uid).Some? && OpenLogin(r, m.uid).Some? && Holds(r, conn, m.uid)
    && WellFormed(m) && DeviceAgreed(r, m, lost)
  }

  lemma AllGivesOk(r: Run, conn: nat, m: Message, lost: bool)
    ensures ReqReply(r, conn, m, lost) == RrqOk <==> HasAll(r, conn, m, lost)
  {
  }

  /** What a REQ needs, in terms of what is known of its user. */
  lemma GrantableIs(w: World, conn: nat, m: Message, lost: bool, password: Option<string>, home: Option<Address>,
                    open: bool, own: bool, agreed: bool)
    requires Look(w.a, m.uid) == EntryFrom(password, home) && (LoggedIn(w.a, m.uid) <==> open)
    requires IdOf(w, conn) == m.uid <==> own
    requires agreed <==>
               && home.Some? && !lost && home.value in w.pds && w.pds[home.value] == m.uid
               && 4 <= WordCount(Vlc(m.uid, w.a.newVC, m.vc, Named(m))) <= 5
    ensures Grantable(w, conn, m, lost) <==> password.Some? && open && own && WellFormed(m) && agreed
  {
  }

  lemma GrantableExactly(r: Run, conn: nat, m: Message, lost: bool)
    requires Legit(r)
    ensures Grantable(After(r), conn, m, lost) <==> HasAll(r, conn, m, lost)
  {
    EntryExactly(r, m.uid);
    LoggedExactly(r, m.uid);
    SessionIs(r, conn, m.uid);
    AgreedExactly(r, m, lost);
    GrantableIs(After(r), conn, m, lost, Password(r, m.uid), Home(r, m.uid),
                OpenLogin(r, m.uid).Some?, Holds(r, conn, m.uid), DeviceAgreed(r, m, lost));
  }

  lemma StateCases(w: World, conn: nat, m: Message, lost: bool, open: bool, registered: bool, own: bool)
    requires m.op == "REQ" && (open <==> LoggedIn(w.a, m.uid)) && (registered <==> Known(w.a, m.uid))
    requires own <==> IdOf(w, conn) == m.uid
    ensures Step(w, Tcp(conn, m, lost)).1 ==
            if !registered then RrqEuser
            else if !open then RrqElog
            else if !own then RrqEuser
            else if WellFormed(m) then if Step(w, Tcp(conn, m, lost)).1 == RrqOk then RrqOk else RrqEpd
            else if m.words == 4 || m.words == 5 then RrqEfop
            else RrqErr
  {
    ReqCases(w.a, IdOf(w, conn), m, Exchange(w, m, lost));
  }

  lemma ReqExactly(r: Run, conn: nat, m: Message, lost: bool)
    requires Legit(r) && m.op == "REQ"
    ensures Step(After(r), Tcp(conn, m, lost)).1 == ReqReply(r, conn, m, lost)
  {
    ReqGrantedExactly(r, conn, m, lost);
    GrantableExactly(r, conn, m, lost);
    AllGivesOk(r, conn, m, lost);
    EntryExactly(r, m.uid);
    LoggedExactly(r, m.uid);
    SessionIs(r, conn, m.uid);
    StateCases(After(r), conn, m, lost, OpenLogin(r, m.uid).Some?, Password(r, m.uid).Some?, Holds(r, conn, m.uid));
  }

  lemma UdpExactly(r: Run, d: Datagram)
    requires Legit(r)
    ensures DoUdp(ServerAfter(r), d).1 == Expected(r, Udp(d))
  {
    if d.words == 5 && d.op == "REG" {
      RegExactly(r, d.uid, d.pw, (d.pdip, d.pdport));
    } else if d.words == 3 && d.op == "UNR" {
      UnrExactly(r, d.uid, d.pw);
    } else if d.words == 3 && d.op == "VLD" {
      VldExact(r, d.uid, d.pw);
    }
  }

  lemma TcpExactly(r: Run, conn: nat, m: Message, lost: bool)
    requires Legit(r)
    ensures Step(After(r), Tcp(conn, m, lost)).1 == Expected(r, Tcp(conn, m, lost))
  {
    if m.op == "LOG" && m.words == 3 {
      LogExactly(r, conn, m, lost);
    } else if m.op == "REQ" {
      ReqExactly(r, conn, m, lost);
    } else {
      AutExact(r, m.uid, m.pw, m.vc);
    }
  }

  /** In every run every reply is the one that the history calls for. */
  lemma RepliesExactly(r: Run, e: Event)
    requires Legit(r)
    ensures Step(After(r), e).1 == Expected(r, e)
  {
    match e
    case Udp(d) => UdpExactly(r, d);
    case PdRegisters(address, uid, pw, _) => RegExactly(r, uid, pw, address);
    case PdStops(_) =>
    case Tcp(conn, m, lost) => TcpExactly(r, conn, m, lost);
    case Close(_) =>
    case Drop(_) =>
  }
}
