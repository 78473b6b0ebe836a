/** Whole runs of the Authentication Server and the devices, one request at a time, and what every run keeps. */
module Runs {
  import opened Options
  import opened Text
  import opened Assoc
  import opened Protocol
  import opened Identifiers
  import Decimal
  import Device

  type Address = (string, string)

  datatype Event =
    | Udp(d: Datagram)                                                  // any datagram, from anyone
    | PdRegisters(address: (Word, Word), uid: Word, pw: Word, heard: bool) // REG from the device there; reply heard?
    | PdStops(where: Address)
    | Tcp(conn: nat, m: Message, lost: bool)                            // was the exchange with the device lost?
    | Close(conn: nat)                                                  // the peer closed the session
    | Drop(conn: nat)                                                   // the session failed

  /** A history: the empty one, or an earlier history, one more event and the reply it got. */
  datatype Run = Begin | Then(prev: Run, e: Event, reply: Reply)

  /** The server, the `userID` of each live session, and the uid each device holds. */
  datatype World = World(a: Server, ids: map<nat, string>, pds: map<Address, string>)

  function IdOf(w: World, conn: nat): string {
    if conn in w.ids then w.ids[conn] else ""
  }

  /** The line the server sends for this request, and what it gets back within its six attempts. */
  function PdLine(a: Server, m: Message): string
    requires Known(a, m.uid)
  {
    Vlc(m.uid, a.newVC, m.vc, Named(m))
  }

  function AddressOf(u: User): Address {
    (u.pdip, u.pdport)
  }

  function Exchange(w: World, m: Message, lost: bool): Option<string> {
    if lost || !Known(w.a, m.uid) || AddressOf(UserOf(w.a, m.uid)) !in w.pds then None
    else Some(Device.Answer(w.pds[AddressOf(UserOf(w.a, m.uid))], PdLine(w.a, m)))
  }

  function Step(w: World, e: Event): (World, Reply) {
    match e
    case Udp(d) =>
      var (a, reply) := DoUdp(w.a, d);
      (w.(a := a), reply)
    case PdRegisters(address, uid, pw, heard) =>
      var (a, reply) := Reg(w.a, uid, pw, address.0, address.1);
      (w.(a := a, pds := if heard && reply == RrgOk then w.pds[address := uid] else w.pds), reply)
    case PdStops(where) => (w.(pds := w.pds - {where}), Silence)
    case Tcp(conn, m, lost) =>
      var (a, id, reply) := DoTcp(w.a, IdOf(w, conn), m, Exchange(w, m, lost));
      (w.(a := a, ids := w.ids[conn := id]), reply)
    case Close(conn) => (w.(a := Hangup(w.a, IdOf(w, conn)), ids := w.ids - {conn}), Silence)
    case Drop(conn) => (w.(ids := w.ids - {conn}), Silence)
  }

  function After(r: Run): World {
    match r
    case Begin => World(Start(), map[], map[])
    case Then(prev, e, _) => Step(After(prev), e).0
  }

  /** The replies of the history are those that the server gives. */
  ghost predicate Legit(r: Run) {
    r.Then? ==> Legit(r.prev) && r.reply == Step(After(r.prev), r.e).1
  }

  function ServerAfter(r: Run): Server {
    After(r).a
  }

  predicate Extends(r: Run, p: Run) {
    r == p || (r.Then? && Extends(r.prev, p))
  }

  // ---------- what the history says, read off the requests and replies alone ----------

  /** The last event is a successful REQ for the user. */
  predicate Grants(r: Run, uid: string) {
    r.Then? && r.e.Tcp? && r.e.m.op == "REQ" && r.e.m.uid == uid && r.reply == RrqOk
  }

  /** The last event is an AUT for the user that was answered with a TID. */
  predicate Settles(r: Run, uid: string) {
    r.Then? && r.e.Tcp? && r.e.m.op == "AUT" && r.e.m.uid == uid && r.reply.Rau? && r.reply.tid != "0000"
  }

  /** The history up to and including the user's latest successful REQ. */
  function LatestGrant(r: Run, uid: string): (g: Option<Run>)
    ensures g.Some? ==> Grants(g.value, uid) && Extends(r, g.value)
  {
    if r.Begin? then None else if Grants(r, uid) then Some(r) else LatestGrant(r.prev, uid)
  }

  /** The same, unless an AUT has been answered since. */
  function PendingGrant(r: Run, uid: string): (g: Option<Run>)
    ensures g.Some? ==> Grants(g.value, uid) && g == LatestGrant(r, uid)
  {
    if r.Begin? then None
    else if Grants(r, uid) then Some(r)
    else if Settles(r, uid) then None
    else PendingGrant(r.prev, uid)
  }

  /** Successful requests so far, of all users. */
  function Count(r: Run): nat {
    if r.Begin? then 0 else Count(r.prev) + (if r.e.Tcp? && Grants(r, r.e.m.uid) then 1 else 0)
  }

  /** The identifiers that the successful request ending a history was given, and what it asked for. */
  function Tid(g: Run): string
    requires g.Then?
  {
    TidOf(Count(g.prev))
  }

  function Vc(g: Run): string
    requires g.Then?
  {
    VcOf(Count(g.prev))
  }

  function Asked(g: Run): string
    requires g.Then? && g.e.Tcp?
  {
    FopText(g.e.m.vc, Named(g.e.m))
  }

  predicate Logs(r: Run, conn: nat) {
    r.Then? && r.e.Tcp? && r.e.conn == conn && r.e.m.op == "LOG" && r.reply == RloOk
  }

  /** The session's latest successful LOG since it was opened. */
  function LatestLogin(r: Run, conn: nat): (l: Option<Run>)
    ensures l.Some? ==> Logs(l.value, conn) && Extends(r, l.value)
  {
    if r.Begin? then None
    else if Logs(r, conn) then Some(r)
    else if (r.e.Close? || r.e.Drop?) && r.e.conn == conn then None
    else LatestLogin(r.prev, conn)
  }

  predicate Registers(r: Run, where: Address) {
    r.Then? && r.e.PdRegisters? && r.e.address == where && r.e.heard && r.reply == RrgOk
  }

  /** The latest successful registration that the device at an address heard of, unless it has stopped since. */
  function LatestRegistration(r: Run, where: Address): (p: Option<Run>)
    ensures p.Some? ==> Registers(p.value, where) && Extends(r, p.value)
  {
    if r.Begin? then None
    else if Registers(r, where) then Some(r)
    else if r.e.PdStops? && r.e.where == where then None
    else LatestRegistration(r.prev, where)
  }

  // ---------- registration ----------

  /** The users are distinct and valid, no two active ones share a device, and the inactive ones have no address. */
  ghost predicate Registered(users: seq<User>) {
    && (forall i, j | 0 <= i < j < |users| :: users[i].uid != users[j].uid)
    && (forall i | 0 <= i < |users| :: ValidUid(users[i].uid) && ValidPass(users[i].pw))
    && (forall i | 0 <= i < |users| ::
          users[i].isOn <==> (users[i].pdip != "" || users[i].pdport != ""))
    && (forall i, j | 0 <= i < j < |users| && users[i].isOn && users[j].isOn ::
          AddressOf(users[i]) != AddressOf(users[j]))
  }

  /** No user of the first list is lost or renamed in the second, and no password changes. */
  ghost predicate Keeps(users: seq<User>, later: seq<User>) {
    |users| <= |later| && forall i | 0 <= i < |users| :: later[i].uid == users[i].uid && later[i].pw == users[i].pw
  }

  /** Same identity, password, device and activity; the rest may differ. */
  ghost predicate SamePerson(u: User, v: User) {
    u.uid == v.uid && u.pw == v.pw && u.pdip == v.pdip && u.pdport == v.pdport && u.isOn == v.isOn
  }

  ghost predicate SamePeople(users: seq<User>, later: seq<User>) {
    |users| == |later| && forall i | 0 <= i < |users| :: SamePerson(later[i], users[i])
  }

  lemma SamePeopleKeep(users: seq<User>, later: seq<User>)
    requires Registered(users) && SamePeople(users, later)
    ensures Registered(later) && Keeps(users, later)
  {
    forall i, j | 0 <= i < j < |users| && later[i].isOn && later[j].isOn
      ensures AddressOf(later[i]) != AddressOf(later[j])
    {
      assert SamePerson(later[i], users[i]) && SamePerson(later[j], users[j]);
    }
  }

  lemma LogKeepsPeople(a: Server, userID: string, uid: string, pw: string)
    ensures SamePeople(a.users, Log(a, userID, uid, pw).0.users)
  {
  }

  lemma ReqKeepsPeople(a: Server, userID: string, m: Message, answer: Option<string>)
    ensures SamePeople(a.users, Req(a, userID, m, answer).0.users)
  {
  }

  lemma AutKeepsPeople(a: Server, uid: string, rid: string, vc: string)
    ensures SamePeople(a.users, Aut(a, uid, rid, vc).0.users)
  {
  }

  lemma TcpKeepsPeople(a: Server, userID: string, m: Message, answer: Option<string>)
    ensures SamePeople(a.users, DoTcp(a, userID, m, answer).0.users)
  {
    LogKeepsPeople(a, userID, m.uid, m.pw);
    ReqKeepsPeople(a, userID, m, answer);
    AutKeepsPeople(a, m.uid, m.pw, m.vc);
  }

  lemma VldKeepsPeople(a: Server, uid: string, tid: string)
    ensures SamePeople(a.users, Vld(a, uid, tid).0.users)
  {
  }

  lemma RegKeeps(a: Server, uid: string, pw: string, address: (Word, Word))
    requires Registered(a.users)
    ensures var b := Reg(a, uid, pw, address.0, address.1).0;
            Registered(b.users) && Keeps(a.users, b.users)
  {
    var b := Reg(a, uid, pw, address.0, address.1).0;
    if b != a {
      forall i | 0 <= i < |a.users| ensures AddressOf(a.users[i]) != address {
        assert !AddressTaken(a.users, address.0, address.1);
      }
    }
  }

  lemma UnrKeeps(a: Server, uid: string, pw: string)
    requires Registered(a.users)
    ensures var b := Unr(a, uid, pw).0; Registered(b.users) && Keeps(a.users, b.users)
  {
  }

  lemma UdpKeeps(a: Server, d: Datagram)
    requires Registered(a.users)
    ensures var b := DoUdp(a, d).0; Registered(b.users) && Keeps(a.users, b.users)
  {
    if d.words == 5 && d.op == "REG" {
      RegKeeps(a, d.uid, d.pw, (d.pdip, d.pdport));
    } else if d.words == 3 && d.op == "UNR" {
      UnrKeeps(a, d.uid, d.pw);
    } else {
      VldKeepsPeople(a, d.uid, d.pw);
      SamePeopleKeep(a.users, Vld(a, d.uid, d.pw).0.users);
    }
  }

  lemma RegistrationStep(w: World, e: Event)
    requires Registered(w.a.users)
    ensures Registered(Step(w, e).0.a.users)
    ensures Keeps(w.a.users, Step(w, e).0.a.users)
  {
    match e
    case Udp(d) => UdpKeeps(w.a, d);
    case PdRegisters(address, uid, pw, heard) =>
      RegKeeps(w.a, uid, pw, address);
    case PdStops(where) =>
    case Tcp(conn, m, lost) =>
      TcpKeepsPeople(w.a, IdOf(w, conn), m, Exchange(w, m, lost));
      SamePeopleKeep(w.a.users, Step(w, e).0.a.users);
    case Close(conn) =>
      SamePeopleKeep(w.a.users, Hangup(w.a, IdOf(w, conn)).users);
    case Drop(conn) =>
  }

  /** In every run. */
  lemma {:induction false} RegistrationHolds(r: Run)
    ensures Registered(ServerAfter(r).users)
  {
    if r.Then? {
      RegistrationHolds(r.prev);
      RegistrationStep(After(r.prev), r.e);
    }
  }

  lemma {:induction false} FindKept(users: seq<User>, later: seq<User>, uid: string)
    requires Keeps(users, later) && Find(users, uid) < |users|
    ensures Find(later, uid) == Find(users, uid)
  {
    assert forall k | 0 <= k < |users| :: later[k].uid == users[k].uid;
  }

  /** A registered user stays registered, with the same password, however the run goes on. */
  lemma {:induction false} RegistrationLasts(r: Run, p: Run, uid: string)
    requires Extends(r, p) && Known(ServerAfter(p), uid)
    ensures Known(ServerAfter(r), uid)
    ensures UserOf(ServerAfter(r), uid).pw == UserOf(ServerAfter(p), uid).pw
    decreases r
  {
    if r != p {
      RegistrationLasts(r.prev, p, uid);
      RegistrationHolds(r.prev);
      RegistrationStep(After(r.prev), r.e);
      FindKept(ServerAfter(r.prev).users, ServerAfter(r).users, uid);
    }
  }

  // ---------- the stored maps are exactly what the history says ----------

  function TidsOf(g: Option<Run>): Entries
    requires g.Some? ==> g.value.Then? && g.value.e.Tcp?
  {
    if g.None? then [] else [(Tid(g.value), Asked(g.value))]
  }

  function RidsOf(g: Option<Run>): Entries
    requires g.Some? ==> g.value.Then? && g.value.e.Tcp?
  {
    if g.None? then [] else [(g.value.e.m.pw, Vc(g.value))]
  }

  function R2tOf(g: Option<Run>): Entries
    requires g.Some? ==> g.value.Then? && g.value.e.Tcp?
  {
    if g.None? then [] else [(g.value.e.m.pw, Tid(g.value))]
  }

  ghost predicate Recorded(r: Run, u: User) {
    && u.tids == TidsOf(LatestGrant(r, u.uid))
    && u.rids == RidsOf(PendingGrant(r, u.uid))
    && u.r2t == R2tOf(PendingGrant(r, u.uid))
  }

  ghost predicate Consistent(r: Run, a: Server) {
    && a.newTID == TidOf(Count(r))
    && a.newVC == VcOf(Count(r))
    && (forall i | 0 <= i < |a.users| :: Recorded(r, a.users[i]))
    && (forall uid | LatestGrant(r, uid).Some? :: Known(a, uid))
  }

  predicate SameMaps(u: User, v: User) {
    u.uid == v.uid && u.tids == v.tids && u.rids == v.rids && u.r2t == v.r2t
  }

  lemma RecordedIsSlim(r: Run, a: Server)
    requires Consistent(r, a)
    ensures forall i | 0 <= i < |a.users| :: Slim(a.users[i])
  {
    forall i | 0 <= i < |a.users| ensures Slim(a.users[i]) {
      assert Recorded(r, a.users[i]);
    }
  }

  lemma StillKnown(r: Run, a: Server, b: Server)
    requires Consistent(r, a) && Keeps(a.users, b.users)
    ensures forall uid | LatestGrant(r, uid).Some? :: Known(b, uid)
  {
    forall uid | LatestGrant(r, uid).Some? ensures Known(b, uid) {
      FindKept(a.users, b.users, uid);
    }
  }

  // A REQ.

  lemma ReqMaps(a: Server, userID: string, m: Message, answer: Option<string>, i: nat)
    requires Registered(a.users) && i < |a.users| && Slim(a.users[i])
    ensures var (b, reply) := Req(a, userID, m, answer);
            i < |b.users| && b.users[i] ==
            if reply == RrqOk && a.users[i].uid == m.uid then
              a.users[i].(tids := [(a.newTID, FopText(m.vc, Named(m)))],
                          rids := [(m.pw, a.newVC)], r2t := [(m.pw, a.newTID)])
            else a.users[i]
  {
    var k := Find(a.users, m.uid);
    assert k < |a.users| && k != i ==> a.users[k].uid != a.users[i].uid;
    PendReplaces(a.users[i], m.pw, a.newVC, a.newTID, FopText(m.vc, Named(m)));
  }

  lemma ReqCounters(a: Server, userID: string, m: Message, answer: Option<string>)
    ensures var (b, reply) := Req(a, userID, m, answer);
            && |b.users| == |a.users| && (forall i | 0 <= i < |a.users| :: SamePerson(b.users[i], a.users[i]))
            && if reply == RrqOk then
                 Known(a, m.uid) && b.newTID == NextTID(a.newTID) && b.newVC == Decimal.Incr(a.newVC)
               else b == a
  {
  }

  lemma RecordedAfterReq(r: Run, e: Event, reply: Reply, u: User, newTID: string, newVC: string)
    requires e.Tcp? && e.m.op == "REQ" && Recorded(r, u)
    requires newTID == TidOf(Count(r)) && newVC == VcOf(Count(r))
    ensures Recorded(Then(r, e, reply),
                     if reply == RrqOk && u.uid == e.m.uid then
                       u.(tids := [(newTID, FopText(e.m.vc, Named(e.m)))],
                          rids := [(e.m.pw, newVC)], r2t := [(e.m.pw, newTID)])
                     else u)
  {
    assert !Settles(Then(r, e, reply), u.uid);
  }

  lemma RecordedUserAfterReq(r: Run, e: Event, a: Server, userID: string, answer: Option<string>, i: nat)
    requires Consistent(r, a) && Registered(a.users) && e.Tcp? && e.m.op == "REQ" && i < |a.users|
    ensures var (b, reply) := Req(a, userID, e.m, answer);
            i < |b.users| && Recorded(Then(r, e, reply), b.users[i])
  {
    RecordedIsSlim(r, a);
    ReqMaps(a, userID, e.m, answer, i);
    RecordedAfterReq(r, e, Req(a, userID, e.m, answer).1, a.users[i], a.newTID, a.newVC);
  }

  lemma KnownAfterGrant(r: Run, s: Run, a: Server, b: Server)
    requires Consistent(r, a) && SamePeople(a.users, b.users) && s.Then? && s.prev == r
    requires s.e.Tcp? && (s.reply == RrqOk ==> Known(a, s.e.m.uid))
    ensures forall uid | LatestGrant(s, uid).Some? :: Known(b, uid)
  {
    StillKnown(r, a, b);
    forall uid | LatestGrant(s, uid).Some? ensures Known(b, uid) {
      if Grants(s, uid) {
        FindKept(a.users, b.users, uid);
      }
    }
  }

  lemma OneMoreGrant(r: Run, s: Run, a: Server, b: Server)
    requires Consistent(r, a) && SamePeople(a.users, b.users)
    requires s.Then? && s.prev == r && s.e.Tcp? && s.e.m.op == "REQ"
    requires if s.reply == RrqOk then
               Known(a, s.e.m.uid) && b.newTID == NextTID(a.newTID) && b.newVC == Decimal.Incr(a.newVC)
             else b.newTID == a.newTID && b.newVC == a.newVC
    requires forall i | 0 <= i < |b.users| :: Recorded(s, b.users[i])
    ensures Consistent(s, b)
  {
    TidAdvances(Count(r));
    VcAdvances(Count(r));
    KnownAfterGrant(r, s, a, b);
  }

  lemma ConsistentAfterReq(r: Run, e: Event, a: Server, userID: string, answer: Option<string>)
    requires Consistent(r, a) && Registered(a.users) && e.Tcp? && e.m.op == "REQ"
    ensures var (b, reply) := Req(a, userID, e.m, answer); Consistent(Then(r, e, reply), b)
  {
    var (b, reply) := Req(a, userID, e.m, answer);
    ReqCounters(a, userID, e.m, answer);
    forall i | 0 <= i < |b.users| ensures Recorded(Then(r, e, reply), b.users[i]) {
      RecordedUserAfterReq(r, e, a, userID, answer, i);
    }
    OneMoreGrant(r, Then(r, e, reply), a, b);
  }

  // An AUT.

  lemma AutMaps(a: Server, uid: string, rid: string, vc: string, i: nat)
    requires Registered(a.users) && i < |a.users| && forall k | 0 <= k < |a.users| :: Slim(a.users[k])
    ensures var (b, reply) := Aut(a, uid, rid, vc);
            && reply.Rau? && |b.users| == |a.users| && SamePerson(b.users[i], a.users[i])
            && b.newTID == a.newTID && b.newVC == a.newVC
            && if a.users[i].uid == uid && a.users[i].rids == [(rid, vc)] then
                 && b.users[i] == a.users[i].(rids := [], r2t := [])
                 && |a.users[i].r2t| == 1 && reply.tid == a.users[i].r2t[0].1
               else b.users[i] == a.users[i] && (a.users[i].uid == uid ==> reply.tid == "0000")
  {
    var k := Find(a.users, uid);
    assert k < |a.users| && k != i ==> a.users[k].uid != a.users[i].uid;
    AutSettles(a, uid, rid, vc);
  }

  lemma RecordedAfterAut(r: Run, e: Event, reply: Reply, u: User)
    requires e.Tcp? && e.m.op == "AUT" && Recorded(r, u) && reply.Rau?
    ensures var s := Then(r, e, reply);
            if u.uid == e.m.uid && |u.r2t| == 1 && reply.tid == u.r2t[0].1 then
              Recorded(s, u.(rids := [], r2t := []))
            else (u.uid == e.m.uid ==> reply.tid == "0000") ==> Recorded(s, u)
  {
    assert !Grants(Then(r, e, reply), u.uid);
    if PendingGrant(r, u.uid).Some? {
      TidNeverZero(Count(PendingGrant(r, u.uid).value.prev));
    }
  }

  lemma RecordedUserAfterAut(r: Run, e: Event, a: Server, i: nat)
    requires Consistent(r, a) && Registered(a.users) && e.Tcp? && e.m.op == "AUT" && i < |a.users|
    ensures var (b, reply) := Aut(a, e.m.uid, e.m.pw, e.m.vc);
            && reply.Rau? && |b.users| == |a.users| && SamePerson(b.users[i], a.users[i])
            && b.newTID == a.newTID && b.newVC == a.newVC
            && Recorded(Then(r, e, reply), b.users[i])
  {
    RecordedIsSlim(r, a);
    AutMaps(a, e.m.uid, e.m.pw, e.m.vc, i);
    RecordedAfterAut(r, e, Aut(a, e.m.uid, e.m.pw, e.m.vc).1, a.users[i]);
  }

  lemma NoNewGrant(r: Run, s: Run, a: Server, b: Server)
    requires Consistent(r, a) && SamePeople(a.users, b.users)
    requires s.Then? && s.prev == r && !(s.e.Tcp? && s.e.m.op == "REQ")
    requires b.newTID == a.newTID && b.newVC == a.newVC
    requires forall i | 0 <= i < |b.users| :: Recorded(s, b.users[i])
    ensures Consistent(s, b)
  {
    StillKnown(r, a, b);
    forall uid | LatestGrant(s, uid).Some? ensures Known(b, uid) {
      assert LatestGrant(s, uid) == LatestGrant(r, uid);
    }
  }

  lemma ConsistentAfterAut(r: Run, e: Event, a: Server)
    requires Consistent(r, a) && Registered(a.users) && e.Tcp? && e.m.op == "AUT"
    ensures var (b, reply) := Aut(a, e.m.uid, e.m.pw, e.m.vc); Consistent(Then(r, e, reply), b)
  {
    var (b, reply) := Aut(a, e.m.uid, e.m.pw, e.m.vc);
    forall i | 0 <= i < |a.users|
      ensures Recorded(Then(r, e, reply), b.users[i]) && SamePerson(b.users[i], a.users[i])
    {
      RecordedUserAfterAut(r, e, a, i);
    }
    NoNewGrant(r, Then(r, e, reply), a, b);
  }

  // Everything else.

  /** Maps and counters as they were; at most one newcomer, whose maps are empty. */
  ghost predicate MapsKept(a: Server, b: Server) {
    && b.newTID == a.newTID && b.newVC == a.newVC
    && |a.users| <= |b.users| <= |a.users| + 1
    && (forall i | 0 <= i < |a.users| :: SameMaps(a.users[i], b.users[i]))
    && (|b.users| > |a.users| ==>
          var u := b.users[|a.users|];
          u.tids == [] && u.rids == [] && u.r2t == [] && !Known(a, u.uid))
  }

  lemma RegKeepsMaps(a: Server, uid: string, pw: string, pdip: string, pdport: string)
    ensures var (b, reply) := Reg(a, uid, pw, pdip, pdport); MapsKept(a, b) && (reply == RrgOk || reply == RrgNok)
  {
  }

  lemma TcpKeepsMaps(a: Server, userID: string, m: Message, answer: Option<string>)
    requires m.op != "REQ" && (m.op != "AUT" || m.words != 4)
    ensures var (b, id, reply) := DoTcp(a, userID, m, answer); MapsKept(a, b) && reply != RrqOk && !reply.Rau?
  {
  }

  lemma UdpKeepsMaps(a: Server, d: Datagram)
    requires forall i | 0 <= i < |a.users| :: Slim(a.users[i])
    ensures var (b, reply) := DoUdp(a, d); MapsKept(a, b) && reply != RrqOk && !reply.Rau?
  {
    if d.words == 5 && d.op == "REG" {
      RegKeepsMaps(a, d.uid, d.pw, d.pdip, d.pdport);
    } else if d.words == 3 && d.op == "VLD" {
      VldKeepsTids(a, d.uid, d.pw);
    }
  }

  lemma OtherKeepsMaps(r: Run, w: World, e: Event)
    requires Consistent(r, w.a)
    requires e.Tcp? ==> e.m.op != "REQ" && (e.m.op != "AUT" || e.m.words != 4)
    ensures var (v, reply) := Step(w, e); MapsKept(w.a, v.a) && reply != RrqOk && !reply.Rau?
  {
    match e
    case Udp(d) =>
      RecordedIsSlim(r, w.a);
      UdpKeepsMaps(w.a, d);
    case PdRegisters(address, uid, pw, heard) =>
      RegKeepsMaps(w.a, uid, pw, address.0, address.1);
    case PdStops(where) =>
    case Tcp(conn, m, lost) =>
      TcpKeepsMaps(w.a, IdOf(w, conn), m, Exchange(w, m, lost));
    case Close(conn) =>
    case Drop(conn) =>
  }

  lemma ConsistentAfterOther(r: Run, e: Event, reply: Reply, a: Server, b: Server)
    requires Consistent(r, a) && MapsKept(a, b) && Keeps(a.users, b.users) && reply != RrqOk && !reply.Rau?
    ensures Consistent(Then(r, e, reply), b)
  {
    var s := Then(r, e, reply);
    StillKnown(r, a, b);
    forall i | 0 <= i < |b.users| ensures Recorded(s, b.users[i]) {
      assert !Grants(s, b.users[i].uid) && !Settles(s, b.users[i].uid);
      if i < |a.users| {
        assert Recorded(r, a.users[i]) && SameMaps(a.users[i], b.users[i]);
      } else {
        assert LatestGrant(r, b.users[|a.users|].uid) == None;
      }
    }
  }

  lemma ConsistentStep(r: Run, w: World, e: Event)
    requires Consistent(r, w.a) && Registered(w.a.users)
    ensures Consistent(Then(r, e, Step(w, e).1), Step(w, e).0.a)
  {
    var (v, reply) := Step(w, e);
    if e.Tcp? && e.m.op == "REQ" {
      ConsistentAfterReq(r, e, w.a, IdOf(w, e.conn), Exchange(w, e.m, e.lost));
    } else if e.Tcp? && e.m.op == "AUT" && e.m.words == 4 {
      ConsistentAfterAut(r, e, w.a);
    } else {
      RegistrationStep(w, e);
      OtherKeepsMaps(r, w, e);
      ConsistentAfterOther(r, e, reply, w.a, v.a);
    }
  }

  /** In every run, for every user. */
  lemma {:induction false} ConsistentAlways(r: Run)
    requires Legit(r)
    ensures Consistent(r, ServerAfter(r))
  {
    match r
    case Begin =>
      StartCounters();
    case Then(p, e, _) =>
      ConsistentAlways(p);
      RegistrationHolds(p);
      ConsistentStep(p, After(p), e);
  }
}
