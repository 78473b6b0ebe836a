/** What the interleaved server keeps of its users, their maps and the sessions, under every schedule. */
module Interleaving {
  import opened Options
  import opened Text
  import opened Assoc
  import opened P = Protocol
  import opened L = Locks
  import R = Runs

  // ---------- what is known at each place ----------

  /** A registration that passed the checks: its address stays free, since only the UDP thread writes addresses. */
  ghost predicate Cleared(users: seq<User>, d: Datagram) {
    !AddressTaken(users, d.pdip, d.pdport) && ValidUid(d.uid) && ValidPass(d.pw)
  }

  ghost predicate Fitting(users: seq<User>, t: nat, job: Job) {
    Suits(t, job) && (job.Datagrams? && IsReg(job.d) ==> Cleared(users, job.d))
  }

  ghost predicate IsUser(users: seq<User>, i: nat, uid: string) {
    i < |users| && users[i].uid == uid
  }

  ghost predicate PlaceHolds(users: seq<User>, t: nat, th: Thread) {
    match th.pc
    case Idle => true
    case Done => true
    case WantScan(d) => t == 0 && IsReg(d)
    case Scanning(d) => t == 0 && IsReg(d)
    case WantRead(job, again) => Fitting(users, t, job)
    case Searching(job, again) => Fitting(users, t, job)
    case WantMutex(job, again, i) => Fitting(users, t, job) && IsUser(users, i, Wanted(job, th))
    case Locked(job, again, i) => Fitting(users, t, job) && IsUser(users, i, Wanted(job, th))
    case Serving(job, again, i) => Fitting(users, t, job) && IsUser(users, i, Wanted(job, th))
    case Asking(m, i, sends) => t > 0 && i < |users| && sends <= 5
    case Leaving(i, last) => i < |users|
    case NotFound(job, again) => Fitting(users, t, job) && (t == 0 ==> Find(users, Wanted(job, th)) == |users|)
    case Missing(job, again) => Fitting(users, t, job) && (t == 0 ==> Find(users, Wanted(job, th)) == |users|)
    case WantWrite(d) => t == 0 && Cleared(users, d) && Find(users, d.uid) == |users|
    case Writing(d) => t == 0 && Cleared(users, d) && Find(users, d.uid) == |users|
  }

  /** A session's user is registered, and the session presented that user's password. */
  ghost predicate Backed(users: seq<User>, th: Thread) {
    th.id != "" ==>
      && th.login.Some? && th.login.value.0 == th.id
      && Find(users, th.id) < |users| && users[Find(users, th.id)].pw == th.login.value.1
  }

  ghost predicate IsLogged(users: seq<User>, uid: string) {
    Find(users, uid) < |users| && users[Find(users, uid)].isLogged
  }

  /** Until an X is confirmed for its user, a session is the user's only one, and the user is logged in. */
  ghost predicate Exclusive(s: State) {
    && (forall t | 0 <= t < |s.threads| && s.threads[t].id != "" && s.threads[t].id !in s.confirmed ::
          IsLogged(s.users, s.threads[t].id))
    && (forall t, k | 0 <= t < k < |s.threads| && s.threads[t].id == s.threads[k].id ::
          s.threads[t].id == "" || s.threads[t].id in s.confirmed)
  }

  ghost predicate DataInOrder(s: State) {
    && R.Registered(s.users)
    && (forall i | 0 <= i < |s.users| :: Slim(s.users[i]))
    && (forall t | 0 <= t < |s.threads| :: PlaceHolds(s.users, t, s.threads[t]))
    && (forall t | 0 <= t < |s.threads| :: Backed(s.users, s.threads[t]))
    && (|s.threads| > 0 && s.threads[0].id == "")
    && Exclusive(s)
  }

  // ---------- facts survive what other threads do ----------

  lemma FindSame(users: seq<User>, later: seq<User>, uid: string)
    requires R.SamePeople(users, later)
    ensures Find(later, uid) == Find(users, uid)
  {
    assert forall k | 0 <= k < |users| :: R.SamePerson(later[k], users[k]);
    assert forall k | 0 <= k < |users| :: later[k].uid == users[k].uid;
  }

  /** A session's knowledge survives anything that keeps the users. */
  lemma SessionPlaceStays(users: seq<User>, later: seq<User>, t: nat, th: Thread)
    requires t > 0 && PlaceHolds(users, t, th) && R.Keeps(users, later)
    ensures PlaceHolds(later, t, th)
  {
  }

  /** The UDP thread's knowledge survives anything a session does. */
  lemma UdpPlaceStays(users: seq<User>, later: seq<User>, th: Thread)
    requires PlaceHolds(users, 0, th) && R.SamePeople(users, later)
    ensures PlaceHolds(later, 0, th)
  {
    forall pdip, pdport | !AddressTaken(users, pdip, pdport) ensures !AddressTaken(later, pdip, pdport) {
      forall i | 0 <= i < |later| ensures !(later[i].pdip == pdip && later[i].pdport == pdport) {
        assert R.SamePerson(later[i], users[i]);
      }
    }
    forall uid ensures Find(later, uid) == Find(users, uid) { FindSame(users, later, uid); }
  }

  lemma BackedStays(users: seq<User>, later: seq<User>, th: Thread)
    requires Backed(users, th) && R.Keeps(users, later)
    ensures Backed(later, th)
  {
    if th.id != "" {
      R.FindKept(users, later, th.id);
    }
  }

  // ---------- a step that touches no user and no session ----------

  lemma QuietStep(s: State, z: State, t: nat)
    requires DataInOrder(s) && t < |s.threads| == |z.threads| && z.users == s.users && z.confirmed == s.confirmed
    requires z.threads == s.threads[t := s.threads[t].(pc := z.threads[t].pc)]
    requires PlaceHolds(s.users, t, z.threads[t])
    ensures DataInOrder(z)
  {
    assert forall k | 0 <= k < |s.threads| :: z.threads[k].id == s.threads[k].id;
    assert forall k | 0 <= k < |s.threads| :: z.threads[k].login == s.threads[k].login;
  }

  /** A session that is gone holds no user. */
  lemma GoneStep(s: State, z: State, t: nat)
    requires DataInOrder(s) && 0 < t < |s.threads| && z.users == s.users && z.confirmed == s.confirmed
    requires z.threads == s.threads[t := Thread(Done, "", None)]
    ensures DataInOrder(z)
  {
  }

  // ---------- work under a user's mutex ----------

  lemma ServeSlim(u: User, th: Thread, job: Job, again: bool, i: nat)
    requires Slim(u)
    ensures Slim(Serve(u, th, job, again, i).0)
  {
    if job.Messages? && u.rids != [] {
      GetOnly(u.rids, job.m.pw);
      GetOnly(u.r2t, job.m.pw);
    }
    if job.Datagrams? && u.tids != [] {
      GetOnly(u.tids, u.tids[0].0);
    }
  }

  lemma ServePerson(u: User, th: Thread, job: Job, again: bool, i: nat)
    ensures var v := Serve(u, th, job, again, i).0;
            && v.uid == u.uid && v.pw == u.pw
            && (R.SamePerson(v, u)
                || (job.Datagrams? && IsReg(job.d) && v == Register(u, job.d.pdip, job.d.pdport))
                || (job.Datagrams? && v == Unregister(u)))
  {
  }

  lemma ServeUser(users: seq<User>, t: nat, th: Thread, job: Job, again: bool, i: nat)
    requires R.Registered(users) && i < |users| && Slim(users[i]) && Fitting(users, t, job)
    ensures var u := Serve(users[i], th, job, again, i).0;
            && Slim(u) && u.uid == users[i].uid && u.pw == users[i].pw
            && R.Registered(users[i := u]) && R.Keeps(users, users[i := u])
            && (t > 0 ==> R.SamePeople(users, users[i := u]))
  {
    var u := Serve(users[i], th, job, again, i).0;
    ServeSlim(users[i], th, job, again, i);
    ServePerson(users[i], th, job, again, i);
    if R.SamePerson(u, users[i]) {
      R.SamePeopleKeep(users, users[i := u]);
    } else if u.isOn {
      forall k | 0 <= k < |users| ensures R.AddressOf(users[k]) != R.AddressOf(u) {
        assert !AddressTaken(users, job.d.pdip, job.d.pdport);
      }
    }
  }

  /** A datagram logs a user out only by confirming an X, and never touches the UDP thread's own session variable. */
  lemma ServeDatagram(u: User, th: Thread, d: Datagram, again: bool, i: nat)
    ensures var (v, th') := Serve(u, th, Datagrams(d), again, i);
            && th' == th.(pc := Leaving(i, false))
            && (v.isLogged == u.isLogged || ConfirmsX(u, Datagrams(d)))
  {
  }

  /** A message changes the session and the login flag only by a LOG with the right password to a user not logged in. */
  lemma ServeMessage(u: User, th: Thread, m: Message, again: bool, i: nat)
    requires u.uid == m.uid
    ensures var (v, th') := Serve(u, th, Messages(m), again, i);
            && (th'.pc.Leaving? || th'.pc.Asking?) && th'.pc.i == i && (th'.pc.Asking? ==> th'.pc.sends <= 5)
            && ((th' == th.(pc := th'.pc) && v.isLogged == u.isLogged)
                || (th' == Thread(th'.pc, u.uid, Some((u.uid, u.pw))) && !u.isLogged && v.isLogged))
  {
  }

  lemma OthersStay(s: State, users: seq<User>, t: nat)
    requires DataInOrder(s) && t < |s.threads| && R.Keeps(s.users, users)
    requires t > 0 ==> R.SamePeople(s.users, users)
    ensures forall k | 0 <= k < |s.threads| && k != t :: PlaceHolds(users, k, s.threads[k])
    ensures forall k | 0 <= k < |s.threads| :: Backed(users, s.threads[k])
  {
    forall k | 0 <= k < |s.threads| ensures Backed(users, s.threads[k]) {
      BackedStays(s.users, users, s.threads[k]);
    }
    forall k | 0 <= k < |s.threads| && k != t ensures PlaceHolds(users, k, s.threads[k]) {
      if k == 0 {
        UdpPlaceStays(s.users, users, s.threads[0]);
      } else {
        SessionPlaceStays(s.users, users, k, s.threads[k]);
      }
    }
  }

  lemma FindUser(users: seq<User>, i: nat)
    requires R.Registered(users) && i < |users|
    ensures Find(users, users[i].uid) == i
  {
    assert forall k | 0 <= k < i :: users[k].uid != users[i].uid;
  }

  /** Login flags of all users but the i-th stay. */
  lemma LoggedStays(users: seq<User>, i: nat, u: User, uid: string)
    requires R.Registered(users) && i < |users| && u.uid == users[i].uid
    ensures IsLogged(users[i := u], uid) == if uid == u.uid then u.isLogged else IsLogged(users, uid)
  {
    FindAfterUpdate(users, i, u, uid);
    FindUser(users, i);
  }

  /** Everything but exclusivity, after a step of thread t that changes users but loses none. */
  lemma Assemble(s: State, z: State, t: nat)
    requires DataInOrder(s) && t < |s.threads| == |z.threads| && z.threads == s.threads[t := z.threads[t]]
    requires R.Registered(z.users) && R.Keeps(s.users, z.users) && (t > 0 ==> R.SamePeople(s.users, z.users))
    requires forall i | 0 <= i < |z.users| :: Slim(z.users[i])
    requires PlaceHolds(z.users, t, z.threads[t]) && Backed(z.users, z.threads[t])
    requires (t == 0 ==> z.threads[t].id == "") && Exclusive(z)
    ensures DataInOrder(z)
  {
    OthersStay(s, z.users, t);
  }

  /** Login flags change only for users with a confirmed X. */
  lemma DatagramKeepsExclusive(s: State, z: State, t: nat, i: nat)
    requires R.Registered(s.users) && Exclusive(s) && i < |s.users| == |z.users| && t < |s.threads| == |z.threads|
    requires z.users == s.users[i := z.users[i]] && z.users[i].uid == s.users[i].uid
    requires z.threads == s.threads[t := s.threads[t].(pc := z.threads[t].pc)]
    requires s.confirmed <= z.confirmed
    requires z.users[i].isLogged == s.users[i].isLogged || s.users[i].uid in z.confirmed
    ensures Exclusive(z)
  {
    assert forall k | 0 <= k < |s.threads| :: z.threads[k].id == s.threads[k].id;
    forall k | 0 <= k < |z.threads| && z.threads[k].id != "" && z.threads[k].id !in z.confirmed
      ensures IsLogged(z.users, z.threads[k].id)
    {
      LoggedStays(s.users, i, z.users[i], s.threads[k].id);
      FindUser(s.users, i);
    }
  }

  lemma ServeDatagramStep(s: State, z: State, t: nat, again: bool, i: nat)
    requires DataInOrder(s) && t < |s.threads| && s.threads[t].pc.Serving? && s.threads[t].pc.job.Datagrams?
    requires i == s.threads[t].pc.i && again == s.threads[t].pc.again && i < |s.users|
    requires var job := s.threads[t].pc.job;
             && z.users == s.users[i := Serve(s.users[i], s.threads[t], job, again, i).0]
             && z.threads == s.threads[t := Serve(s.users[i], s.threads[t], job, again, i).1]
             && z.confirmed == if ConfirmsX(s.users[i], job) then s.confirmed + {s.users[i].uid} else s.confirmed
    ensures DataInOrder(z)
  {
    var job := s.threads[t].pc.job;
    assert PlaceHolds(s.users, t, s.threads[t]);
    ServeUser(s.users, t, s.threads[t], job, again, i);
    ServeDatagram(s.users[i], s.threads[t], job.d, again, i);
    BackedStays(s.users, z.users, s.threads[t]);
    assert Exclusive(z) by {
      DatagramKeepsExclusive(s, z, t, i);
    }
    Assemble(s, z, t);
  }

  /** Before an X is confirmed, a user who is not logged in has no session, so a new one is the only one. */
  lemma LoginKeepsExclusive(s: State, z: State, t: nat, i: nat)
    requires R.Registered(s.users) && Exclusive(s) && i < |s.users| == |z.users| && t < |s.threads| == |z.threads|
    requires z.users == s.users[i := z.users[i]] && z.users[i].uid == s.users[i].uid
    requires z.threads == s.threads[t := z.threads[t]] && z.threads[t].id == s.users[i].uid
    requires z.confirmed == s.confirmed && !s.users[i].isLogged && z.users[i].isLogged
    ensures Exclusive(z)
  {
    FindUser(s.users, i);
    forall k | 0 <= k < |z.threads| && z.threads[k].id != "" && z.threads[k].id !in z.confirmed
      ensures IsLogged(z.users, z.threads[k].id)
      ensures k != t ==> z.threads[k].id != s.users[i].uid
    {
      LoggedStays(s.users, i, z.users[i], z.threads[k].id);
      if k != t {
        assert IsLogged(s.users, s.threads[k].id);
      }
    }
  }

  lemma ServeMessageStep(s: State, z: State, t: nat, again: bool, i: nat)
    requires DataInOrder(s) && t < |s.threads| && s.threads[t].pc.Serving? && s.threads[t].pc.job.Messages?
    requires i == s.threads[t].pc.i && again == s.threads[t].pc.again
    requires i < |s.users| && z.confirmed == s.confirmed
    requires var job := s.threads[t].pc.job;
             && z.users == s.users[i := Serve(s.users[i], s.threads[t], job, again, i).0]
             && z.threads == s.threads[t := Serve(s.users[i], s.threads[t], job, again, i).1]
    ensures DataInOrder(z)
  {
    var job := s.threads[t].pc.job;
    assert PlaceHolds(s.users, t, s.threads[t]);
    ServeUser(s.users, t, s.threads[t], job, again, i);
    ServeMessage(s.users[i], s.threads[t], job.m, again, i);
    BackedStays(s.users, z.users, s.threads[t]);
    FindUser(z.users, i);
    if z.threads[t] == s.threads[t].(pc := z.threads[t].pc) && z.users[i].isLogged == s.users[i].isLogged {
      DatagramKeepsExclusive(s, z, t, i);
    } else {
      LoginKeepsExclusive(s, z, t, i);
    }
    Assemble(s, z, t);
  }

  lemma LogoutKeepsExclusive(s: State, z: State, t: nat, i: nat)
    requires R.Registered(s.users) && Exclusive(s) && i < |s.users| == |z.users| && t < |s.threads| == |z.threads|
    requires z.users == s.users[i := z.users[i]] && z.users[i].uid == s.users[i].uid == s.threads[t].id
    requires z.threads == s.threads[t := z.threads[t]] && z.threads[t].id == "" && z.confirmed == s.confirmed
    ensures Exclusive(z)
  {
    forall k | 0 <= k < |z.threads| && z.threads[k].id != "" && z.threads[k].id !in z.confirmed
      ensures IsLogged(z.users, z.threads[k].id)
    {
      LoggedStays(s.users, i, z.users[i], z.threads[k].id);
      assert k != t && z.threads[k] == s.threads[k];
    }
  }

  lemma ServeEndingStep(s: State, z: State, t: nat, i: nat)
    requires DataInOrder(s) && t < |s.threads| && s.threads[t].pc.Serving? && s.threads[t].pc.job.Ending?
    requires i == s.threads[t].pc.i && i < |s.users| && z.confirmed == s.confirmed
    requires z.users == s.users[i := s.users[i].(isLogged := false)]
    requires z.threads == s.threads[t := Thread(Leaving(i, true), "", None)]
    ensures DataInOrder(z)
  {
    assert PlaceHolds(s.users, t, s.threads[t]);
    R.SamePeopleKeep(s.users, z.users);
    LogoutKeepsExclusive(s, z, t, i);
    Assemble(s, z, t);
  }

  // ---------- the device's answer, a new user, and every other step ----------

  lemma PendStep(s: State, z: State, t: nat, u: User)
    requires DataInOrder(s) && t < |s.threads| && s.threads[t].pc.Asking? && z.confirmed == s.confirmed
    requires var i := s.threads[t].pc.i;
             && i < |s.users| && z.users == s.users[i := u] && Slim(u)
             && R.SamePerson(u, s.users[i]) && u.isLogged == s.users[i].isLogged
             && z.threads == s.threads[t := s.threads[t].(pc := Leaving(i, false))]
    ensures DataInOrder(z)
  {
    var i := s.threads[t].pc.i;
    assert PlaceHolds(s.users, t, s.threads[t]);
    R.SamePeopleKeep(s.users, z.users);
    DatagramKeepsExclusive(s, z, t, i);
    BackedStays(s.users, z.users, s.threads[t]);
    Assemble(s, z, t);
  }

  lemma NewUserRegistered(users: seq<User>, d: Datagram)
    requires R.Registered(users) && Cleared(users, d) && Find(users, d.uid) == |users|
    ensures var later := users + [NewUser(d.uid, d.pw, d.pdip, d.pdport)];
            R.Registered(later) && R.Keeps(users, later)
  {
    var u := NewUser(d.uid, d.pw, d.pdip, d.pdport);
    var later := users + [u];
    forall i | 0 <= i < |users|
      ensures later[i] == users[i] && R.AddressOf(users[i]) != R.AddressOf(u) && users[i].uid != u.uid
    {
      assert !AddressTaken(users, d.pdip, d.pdport);
    }
    assert later[|users|] == u && u.pdip != "";
  }

  lemma WriteStep(s: State, z: State, t: nat)
    requires DataInOrder(s) && t < |s.threads| && s.threads[t].pc.Writing? && z.confirmed == s.confirmed
    requires var d := s.threads[t].pc.d; z.users == s.users + [NewUser(d.uid, d.pw, d.pdip, d.pdport)]
    requires z.threads == s.threads[t := s.threads[t].(pc := Idle)]
    ensures DataInOrder(z)
  {
    var d := s.threads[t].pc.d;
    assert PlaceHolds(s.users, t, s.threads[t]);
    NewUserRegistered(s.users, d);
    forall k | 0 <= k < |z.threads| && z.threads[k].id != "" && z.threads[k].id !in z.confirmed
      ensures IsLogged(z.users, z.threads[k].id)
    {
      assert z.threads[k].id == s.threads[k].id && IsLogged(s.users, s.threads[k].id);
      R.FindKept(s.users, z.users, s.threads[k].id);
    }
    assert forall k | 0 <= k < |s.threads| :: z.threads[k].id == s.threads[k].id;
    BackedStays(s.users, z.users, s.threads[t]);
    Assemble(s, z, t);
  }

  // ---------- every step, every schedule ----------

  /** Steps that work on the list of users or on its members. */
  predicate Works(pc: Pc) {
    pc.Serving? || pc.Asking? || pc.Writing?
  }

  lemma WorkKeepsData(s: State, t: nat, luck: Luck, writersFirst: bool)
    requires DataInOrder(s) && CanMove(s, t, writersFirst) && Works(s.threads[t].pc)
    ensures DataInOrder(Move(s, t, luck, writersFirst))
  {
    var z, th := Move(s, t, luck, writersFirst), s.threads[t];
    assert PlaceHolds(s.users, t, th);
    match th.pc
    case Serving(job, again, i) =>
      if job.Datagrams? {
        ServeDatagramStep(s, z, t, again, i);
      } else if job.Messages? {
        ServeMessageStep(s, z, t, again, i);
      } else {
        ServeEndingStep(s, z, t, i);
      }
    case Asking(m, i, sends) =>
      if Accepted(luck.heard) {
        PendReplaces(s.users[i], m.pw, luck.vc, luck.tid, FopText(m.vc, Named(m)));
        PendStep(s, z, t, Pend(s.users[i], m.pw, luck.vc, luck.tid, FopText(m.vc, Named(m))));
      } else {
        QuietStep(s, z, t);
      }
    case Writing(d) => WriteStep(s, z, t);
  }

  /** What a thread knows at its next place. */
  lemma NextPlaceHolds(s: State, t: nat, luck: Luck, writersFirst: bool)
    requires DataInOrder(s) && CanMove(s, t, writersFirst)
    requires !Works(s.threads[t].pc) && !(s.threads[t].pc.Missing? && s.threads[t].pc.job.Ending?)
    ensures var z := Move(s, t, luck, writersFirst);
            && z.users == s.users && z.confirmed == s.confirmed && |z.threads| == |s.threads|
            && z.threads == s.threads[t := s.threads[t].(pc := z.threads[t].pc)]
            && PlaceHolds(s.users, t, z.threads[t])
  {
    assert PlaceHolds(s.users, t, s.threads[t]);
  }

  lemma MoveKeepsData(s: State, t: nat, luck: Luck, writersFirst: bool)
    requires DataInOrder(s) && CanMove(s, t, writersFirst)
    ensures DataInOrder(Move(s, t, luck, writersFirst))
  {
    var th := s.threads[t];
    if Works(th.pc) {
      WorkKeepsData(s, t, luck, writersFirst);
    } else if th.pc.Missing? && th.pc.job.Ending? {
      assert PlaceHolds(s.users, t, th);
      GoneStep(s, Move(s, t, luck, writersFirst), t);
    } else {
      NextPlaceHolds(s, t, luck, writersFirst);
      QuietStep(s, Move(s, t, luck, writersFirst), t);
    }
  }

  lemma ConnectStep(s: State)
    requires DataInOrder(s)
    ensures DataInOrder(s.(threads := s.threads + [Thread(Idle, "", None)]))
  {
    var z := s.(threads := s.threads + [Thread(Idle, "", None)]);
    assert forall t | 0 <= t < |s.threads| :: z.threads[t] == s.threads[t];
    assert z.threads[|s.threads|] == Thread(Idle, "", None);
  }

  lemma DoKeepsData(s: State, act: Act, writersFirst: bool)
    requires DataInOrder(s)
    ensures DataInOrder(Do(s, act, writersFirst))
  {
    var z := Do(s, act, writersFirst);
    match act
    case Connect => ConnectStep(s);
    case Go(t, luck) =>
      if CanMove(s, t, writersFirst) {
        MoveKeepsData(s, t, luck, writersFirst);
      }
    case Arrive(t, job) =>
      if t < |s.threads| && s.threads[t].pc.Idle? && Suits(t, job) {
        QuietStep(s, z, t);
      }
    case Lose(t) =>
      if 0 < t < |s.threads| && s.threads[t].pc.Idle? {
        GoneStep(s, z, t);
      }
  }

  /** Every schedule keeps the registration invariant, the shape of the maps and the sessions in order. */
  lemma {:induction false} DataAlwaysInOrder(acts: seq<Act>, writersFirst: bool)
    ensures DataInOrder(Play(acts, writersFirst))
  {
    if acts != [] {
      DataAlwaysInOrder(acts[..|acts| - 1], writersFirst);
      DoKeepsData(Play(acts[..|acts| - 1], writersFirst), acts[|acts| - 1], writersFirst);
    }
  }

  lemma MoveKeepsPeople(s: State, t: nat, luck: Luck, writersFirst: bool)
    requires DataInOrder(s) && CanMove(s, t, writersFirst)
    ensures R.Keeps(s.users, Move(s, t, luck, writersFirst).users)
  {
    var th := s.threads[t];
    if th.pc.Serving? {
      assert PlaceHolds(s.users, t, th);
      ServeUser(s.users, t, th, th.pc.job, th.pc.again, th.pc.i);
    } else if !th.pc.Asking? && !th.pc.Writing? {
      assert Move(s, t, luck, writersFirst).users == s.users;
    }
  }

  lemma DoKeepsPeople(s: State, act: Act, writersFirst: bool)
    requires DataInOrder(s)
    ensures R.Keeps(s.users, Do(s, act, writersFirst).users)
  {
    if act.Go? && CanMove(s, act.t, writersFirst) {
      MoveKeepsPeople(s, act.t, act.luck, writersFirst);
    }
  }

  lemma OneMoreAct(acts: seq<Act>, act: Act, writersFirst: bool, longer: seq<Act>)
    requires longer == acts + [act]
    ensures R.Keeps(Play(acts, writersFirst).users, Play(longer, writersFirst).users)
  {
    DataAlwaysInOrder(acts, writersFirst);
    DoKeepsPeople(Play(acts, writersFirst), act, writersFirst);
    assert longer[..|longer| - 1] == acts;
  }

  lemma KeepsOn(users: seq<User>, later: seq<User>, last: seq<User>)
    requires R.Keeps(users, later) && R.Keeps(later, last)
    ensures R.Keeps(users, last)
  {
  }

  /** No schedule loses a user or changes a password. */
  lemma {:induction false} PeopleLast(acts: seq<Act>, more: seq<Act>, writersFirst: bool)
    ensures R.Keeps(Play(acts, writersFirst).users, Play(acts + more, writersFirst).users)
    decreases |more|
  {
    if more == [] {
      assert acts + more == acts;
    } else {
      var k := |more| - 1;
      PeopleLast(acts, more[..k], writersFirst);
      OneMoreAct(acts + more[..k], more[k], writersFirst, acts + more);
      KeepsOn(Play(acts, writersFirst).users, Play(acts + more[..k], writersFirst).users,
              Play(acts + more, writersFirst).users);
    }
  }

  /** Under any schedule, an AUT that matches a RID finds a TID under it. */
  lemma AutFindsTid(acts: seq<Act>, writersFirst: bool, i: nat, rid: string)
    requires i < |Play(acts, writersFirst).users|
    requires Get(Play(acts, writersFirst).users[i].rids, rid).Some?
    ensures Get(Play(acts, writersFirst).users[i].r2t, rid).Some?
  {
    DataAlwaysInOrder(acts, writersFirst);
    var u := Play(acts, writersFirst).users[i];
    if u.rids != [] {
      GetOnly(u.rids, rid);
      GetOnly(u.r2t, rid);
    }
  }

  /**
   * Under any schedule, a session's user is registered and logged in with the password the session presented, and
   * no other session has the same user; the last two may fail only once VLD has confirmed an X for that user.
   */
  lemma SessionsHold(acts: seq<Act>, writersFirst: bool, t: nat)
    requires t < |Play(acts, writersFirst).threads| && Play(acts, writersFirst).threads[t].id != ""
    ensures var s := Play(acts, writersFirst);
            var uid := s.threads[t].id;
            var i := Find(s.users, uid);
            && i < |s.users| && s.threads[t].login == Some((uid, s.users[i].pw))
            && (uid !in s.confirmed ==> s.users[i].isLogged)
            && (uid !in s.confirmed ==> forall k | 0 <= k < |s.threads| && k != t :: s.threads[k].id != uid)
  {
    DataAlwaysInOrder(acts, writersFirst);
    var s := Play(acts, writersFirst);
    assert Backed(s.users, s.threads[t]);
    assert s.threads[t].id !in s.confirmed ==> IsLogged(s.users, s.threads[t].id);
  }

  /** Busy threads take at most eighteen more steps each, if no new work arrives. */
  lemma EveryRequestEnds(acts: seq<Act>, goes: seq<(nat, Luck)>, writersFirst: bool)
    requires Able(Play(acts, writersFirst), goes, writersFirst)
    ensures |goes| <= 18 * |Play(acts, writersFirst).threads|
  {
    var s := Play(acts, writersFirst);
    LocksAlwaysInOrder(acts, writersFirst);
    DataAlwaysInOrder(acts, writersFirst);
    assert forall t | 0 <= t < |s.threads| :: PlaceHolds(s.users, t, s.threads[t]);
    WorkEnds(s, goes, writersFirst);
    TotalBound(s.threads);
  }

  // ---------- the work under the mutex is the work of the protocol ----------

  lemma SerialUdp(a: Server, th: Thread, d: Datagram, i: nat)
    requires i == Find(a.users, d.uid) < |a.users|
    requires IsUdp(d, "UNR") || IsUdp(d, "VLD") || (IsReg(d) && Cleared(a.users, d))
    ensures DoUdp(a, d).0.users == a.users[i := Serve(a.users[i], th, Datagrams(d), false, i).0]
  {
    assert a.users[i := a.users[i]] == a.users;
  }

  /** A request consults the device in the interleaved server exactly when its outcome depends on the answer. */
  lemma SerialTcp(a: Server, th: Thread, m: Message, answer: Option<string>, i: nat)
    requires i == Find(a.users, m.uid) < |a.users|
    ensures var (b, id, reply) := DoTcp(a, th.id, m, answer);
            var (u, th') := Serve(a.users[i], th, Messages(m), false, i);
            && id == th'.id
            && if th'.pc.Asking? && Accepted(answer) then
                 && reply == RrqOk
                 && b.users == a.users[i := Pend(a.users[i], m.pw, a.newVC, a.newTID, FopText(m.vc, Named(m)))]
               else reply != RrqOk && b.users == a.users[i := u]
  {
    assert a.users[i := a.users[i]] == a.users;
  }
}
