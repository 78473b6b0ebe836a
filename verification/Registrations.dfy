/** Who is registered, with which password and which device, over every run: read off REG and UNR alone. */
module Registrations {
  import opened Options
  import opened Text
  import opened Protocol
  import opened Runs
  import opened Guarantees

  // ---------- what the history says ----------

  /** The registration that an event asks for: uid, password and address of the device. */
  function Wish(e: Event): Option<(string, string, Address)> {
    match e
    case Udp(d) => if d.words == 5 && d.op == "REG" then Some((d.uid, d.pw, (d.pdip, d.pdport))) else None
    case PdRegisters(address, uid, pw, _) => Some((uid, pw, address))
    case _ => None
  }

  /** The last event is a successful REG of the user. */
  predicate Enrols(r: Run, uid: string) {
    r.Then? && Wish(r.e).Some? && Wish(r.e).value.0 == uid && r.reply == RrgOk
  }

  /** The last event is a successful UNR of the user. */
  predicate Leaves(r: Run, uid: string) {
    r.Then? && r.e.Udp? && r.e.d.uid == uid && r.reply == RunOk
  }

  /** The password of the user's first successful REG. */
  function Password(r: Run, uid: string): Option<string> {
    if r.Begin? then None
    else if Password(r.prev, uid).Some? then Password(r.prev, uid)
    else if Enrols(r, uid) then Some(Wish(r.e).value.1)
    else None
  }

  /** The address of the user's latest successful REG, unless a successful UNR came after it. */
  function Home(r: Run, uid: string): Option<Address> {
    if r.Begin? then None
    else if Enrols(r, uid) then Some(Wish(r.e).value.2)
    else if Leaves(r, uid) then None
    else Home(r.prev, uid)
  }

  // ---------- what each request does to one user ----------

  /** A user's password, and address while active. */
  datatype Entry = Absent | Entry(pw: string, home: Option<Address>)

  function EntryOf(u: User): Entry {
    Entry(u.pw, if u.isOn then Some(AddressOf(u)) else None)
  }

  function Look(a: Server, uid: string): Entry {
    if Known(a, uid) then EntryOf(UserOf(a, uid)) else Absent
  }

  /** A user is replaced by one with the same uid. */
  lemma LookAfterUpdate(a: Server, i: nat, u: User, uid: string)
    requires i < |a.users| && i == Find(a.users, u.uid)
    ensures Look(SetUser(a, i, u), uid) == if u.uid == uid then EntryOf(u) else Look(a, uid)
  {
    FindAfterUpdate(a.users, i, u, uid);
  }

  /** What REG needs: a free address, a proper uid and password, and a user that is new, or off with that password. */
  predicate MayEnrol(a: Server, uid: string, pw: string, address: Address) {
    && !AddressTaken(a.users, address.0, address.1) && ValidUid(uid) && ValidPass(pw)
    && (Look(a, uid).Absent? || Look(a, uid) == Entry(pw, None))
  }

  lemma RegEntry(a: Server, uid: string, pw: string, address: Address, who: string)
    ensures var (b, reply) := Reg(a, uid, pw, address.0, address.1);
            && reply == (if MayEnrol(a, uid, pw, address) then RrgOk else RrgNok)
            && (reply == RrgNok ==> b == a)
            && Look(b, who) == if reply == RrgOk && uid == who then Entry(pw, Some(address)) else Look(a, who)
  {
    var i := Find(a.users, uid);
    if i < |a.users| {
      LookAfterUpdate(a, i, Register(a.users[i], address.0, address.1), who);
    } else {
      FindAfterAppend(a.users, NewUser(uid, pw, address.0, address.1), who);
    }
  }

  /** UNR: the password decides; without it nothing changes. */
  lemma UnrEntry(a: Server, uid: string, pw: string, who: string)
    ensures var (b, reply) := Unr(a, uid, pw);
            && reply == (match Look(a, uid)
                         case Absent => RunNok
                         case Entry(p, _) => if p == pw then RunOk else Silence)
            && (reply != RunOk ==> b == a)
            && Look(b, who) == if reply == RunOk && uid == who then Entry(pw, None) else Look(a, who)
  {
    var i := Find(a.users, uid);
    if i < |a.users| {
      LookAfterUpdate(a, i, Unregister(a.users[i]), who);
    }
  }

  lemma PeopleKeepEntry(a: Server, b: Server, who: string)
    requires SamePeople(a.users, b.users)
    ensures Look(b, who) == Look(a, who)
  {
    assert forall i | 0 <= i < |a.users| :: SamePerson(b.users[i], a.users[i]);
    assert forall i | 0 <= i < |a.users| :: b.users[i].uid == a.users[i].uid;
  }

  lemma VldEntry(a: Server, uid: string, tid: string, who: string)
    ensures Look(Vld(a, uid, tid).0, who) == Look(a, who) && Vld(a, uid, tid).1.Cnf?
  {
    VldKeepsPeople(a, uid, tid);
    PeopleKeepEntry(a, Vld(a, uid, tid).0, who);
  }

  lemma UdpEntry(a: Server, d: Datagram, who: string)
    ensures var (b, reply) := DoUdp(a, d);
            var w := Wish(Udp(d));
            && (reply == RrgOk <==> w.Some? && MayEnrol(a, d.uid, d.pw, (d.pdip, d.pdport)))
            && (reply == RunOk <==> d.words == 3 && d.op == "UNR" && Look(a, d.uid).Entry? && Look(a, d.uid).pw == d.pw)
            && Look(b, who) ==
               if reply == RrgOk && d.uid == who then Entry(d.pw, Some((d.pdip, d.pdport)))
               else if reply == RunOk && d.uid == who then Entry(d.pw, None)
               else Look(a, who)
  {
    if d.words == 5 && d.op == "REG" {
      RegEntry(a, d.uid, d.pw, (d.pdip, d.pdport), who);
    } else if d.words == 3 && d.op == "UNR" {
      UnrEntry(a, d.uid, d.pw, who);
    } else if d.words == 3 && d.op == "VLD" {
      VldEntry(a, d.uid, d.pw, who);
    }
  }

  lemma HangupKeepsPeople(a: Server, userID: string)
    ensures SamePeople(a.users, Hangup(a, userID).users)
  {
  }

  lemma TcpReplies(a: Server, userID: string, m: Message, answer: Option<string>)
    ensures DoTcp(a, userID, m, answer).2 !in {RrgOk, RunOk}
  {
  }

  lemma OtherEntry(w: World, e: Event, who: string)
    requires !e.Udp? && !e.PdRegisters?
    ensures Look(Step(w, e).0.a, who) == Look(w.a, who) && Step(w, e).1 !in {RrgOk, RunOk}
  {
    match e
    case PdStops(_) =>
    case Tcp(conn, m, lost) =>
      TcpKeepsPeople(w.a, IdOf(w, conn), m, Exchange(w, m, lost));
      TcpReplies(w.a, IdOf(w, conn), m, Exchange(w, m, lost));
      PeopleKeepEntry(w.a, Step(w, e).0.a, who);
    case Close(conn) =>
      HangupKeepsPeople(w.a, IdOf(w, conn));
      PeopleKeepEntry(w.a, Step(w, e).0.a, who);
    case Drop(_) =>
  }

  // ---------- in every run ----------

  /** How an event changes the entry of a user. */
  lemma EntryStep(r: Run, uid: string)
    requires Legit(r) && r.Then?
    ensures var before := Look(ServerAfter(r.prev), uid);
            Look(ServerAfter(r), uid) ==
            if Enrols(r, uid) then Entry(Wish(r.e).value.1, Some(Wish(r.e).value.2))
            else if Leaves(r, uid) && before.Entry? then Entry(before.pw, None)
            else before
    ensures Enrols(r, uid) ==>
              var before := Look(ServerAfter(r.prev), uid);
              before.Absent? || before == Entry(Wish(r.e).value.1, None)
    ensures Leaves(r, uid) ==> Look(ServerAfter(r.prev), uid).Entry?
  {
    var w := After(r.prev);
    if r.e.Udp? {
      UdpEntry(w.a, r.e.d, uid);
    } else if r.e.PdRegisters? {
      RegEntry(w.a, r.e.uid, r.e.pw, r.e.address, uid);
    } else {
      OtherEntry(w, r.e, uid);
    }
  }

  /** Every user has the password of the first REG, and is active just at the address of the latest one not undone. */
  lemma {:induction false} EntryExactly(r: Run, uid: string)
    requires Legit(r)
    ensures Look(ServerAfter(r), uid)
         == if Password(r, uid).None? then Absent else Entry(Password(r, uid).value, Home(r, uid))
  {
    if r.Then? {
      EntryExactly(r.prev, uid);
      EntryStep(r, uid);
    }
  }

  ghost predicate AddressFree(r: Run, address: Address) {
    forall other :: Home(r, other) != Some(address)
  }

  lemma FirstOfUid(users: seq<User>, i: nat)
    requires Registered(users) && i < |users|
    ensures Find(users, users[i].uid) == i
  {
    var k := Find(users, users[i].uid);
    assert k <= i;
  }

  /** Only a registered user has an address. */
  lemma {:induction false} HomeIsKnown(r: Run, uid: string)
    requires Legit(r)
    ensures Home(r, uid).Some? ==> Password(r, uid).Some?
  {
    if r.Then? {
      HomeIsKnown(r.prev, uid);
    }
  }

  /** An address is taken exactly if some user is active there. */
  lemma TakenExactly(r: Run, address: (Word, Word))
    requires Legit(r)
    ensures AddressTaken(ServerAfter(r).users, address.0, address.1) <==> !AddressFree(r, address)
  {
    var users := ServerAfter(r).users;
    RegistrationHolds(r);
    if i :| 0 <= i < |users| && users[i].pdip == address.0 && users[i].pdport == address.1 {
      FirstOfUid(users, i);
      EntryExactly(r, users[i].uid);
      assert Home(r, users[i].uid) == Some(address);
    }
    if uid :| Home(r, uid) == Some(address) {
      HomeIsKnown(r, uid);
      EntryExactly(r, uid);
      assert users[Find(users, uid)].pdip == address.0;
    }
  }
}
