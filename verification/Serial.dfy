/** The interleaved server does what the protocol says: a request that runs alone ends where its protocol step ends. */
module Serial {
  import opened Options
  import opened P = Protocol
  import opened L = Locks
  import I = Interleaving

  // ---------- one thread by itself ----------

  /** What comes to a thread from outside: what each of six waits for a device brings, and the two counters. */
  datatype Outside = Outside(heard: seq<Option<string>>, vc: string, tid: string)

  function LuckAt(pc: Pc, o: Outside): Luck {
    Luck(if pc.Asking? && pc.sends <= 5 && |o.heard| == 6 then o.heard[5 - pc.sends] else None, o.vc, o.tid)
  }

  /** The state after n steps of the thread, as far as it can move. */
  function Alone(s: State, t: nat, o: Outside, writersFirst: bool, n: nat): State
    decreases n
  {
    if n == 0 || !CanMove(s, t, writersFirst) then s
    else Alone(Move(s, t, LuckAt(s.threads[t].pc, o), writersFirst), t, o, writersFirst, n - 1)
  }

  /** By itself the thread takes the state a to z. */
  ghost predicate Leads(a: State, z: State, t: nat, o: Outside, writersFirst: bool) {
    exists n :: Alone(a, t, o, writersFirst, n) == z
  }

  lemma {:induction false} AloneOn(s: State, t: nat, o: Outside, writersFirst: bool, n: nat, k: nat)
    ensures Alone(Alone(s, t, o, writersFirst, n), t, o, writersFirst, k) == Alone(s, t, o, writersFirst, n + k)
    decreases n
  {
    if n > 0 && CanMove(s, t, writersFirst) {
      AloneOn(Move(s, t, LuckAt(s.threads[t].pc, o), writersFirst), t, o, writersFirst, n - 1, k);
    }
  }

  lemma Then(a: State, b: State, c: State, t: nat, o: Outside, writersFirst: bool)
    requires Leads(a, b, t, o, writersFirst) && Leads(b, c, t, o, writersFirst)
    ensures Leads(a, c, t, o, writersFirst)
  {
    var n :| Alone(a, t, o, writersFirst, n) == b;
    var k :| Alone(b, t, o, writersFirst, k) == c;
    AloneOn(a, t, o, writersFirst, n, k);
  }

  lemma OneStep(s: State, z: State, t: nat, o: Outside, writersFirst: bool)
    requires CanMove(s, t, writersFirst) && z == Move(s, t, LuckAt(s.threads[t].pc, o), writersFirst)
    ensures Leads(s, z, t, o, writersFirst)
  {
    assert Alone(z, t, o, writersFirst, 0) == z;
    assert Alone(s, t, o, writersFirst, 1) == z;
  }

  lemma Stays(s: State, t: nat, o: Outside, writersFirst: bool)
    ensures Leads(s, s, t, o, writersFirst)
  {
    assert Alone(s, t, o, writersFirst, 0) == s;
  }

  /** All threads but this one are at rest, and no lock is held. */
  ghost predicate Quiet(s: State, t: nat) {
    && t < |s.threads| && (forall k | 0 <= k < |s.threads| && k != t :: Resting(s.threads[k].pc))
    && AllFree(s) && |s.owners| == |s.users|
  }

  /** The quiet state with this thread at work: what it holds, what it has made of the users, and where it is. */
  function At(s: State, t: nat, th: Thread, users: seq<User>, reading: bool, holds: Option<nat>, x: set<string>): State
    requires t < |s.threads| && (holds.Some? ==> holds.value < |s.owners|)
  {
    State(users, s.threads[t := th], if reading then {t} else {}, None,
          if holds.Some? then s.owners[holds.value := Some(t)] else s.owners, x)
  }

  /** The thread holds nothing and the users are as they were. */
  function Bare(s: State, t: nat, th: Thread): State
    requires t < |s.threads|
  {
    At(s, t, th, s.users, false, None, s.confirmed)
  }

  function Reading(s: State, t: nat, th: Thread): State
    requires t < |s.threads|
  {
    At(s, t, th, s.users, true, None, s.confirmed)
  }

  /** The thread has the user's mutex. */
  function Holding(s: State, t: nat, th: Thread, i: nat): State
    requires t < |s.threads| && i < |s.owners|
  {
    At(s, t, th, s.users, false, Some(i), s.confirmed)
  }

  // ---------- looking a user up ----------

  /** Where `getUser` ends: with the user locked, or with nothing. */
  function Found(s: State, t: nat, th: Thread, job: Job, again: bool): State
    requires t < |s.threads| && |s.owners| == |s.users|
  {
    var i := Find(s.users, Wanted(job, th));
    if i < |s.users| then Holding(s, t, th.(pc := Serving(job, again, i)), i)
    else Bare(s, t, th.(pc := Missing(job, again)))
  }

  lemma ReadAlone(s: State, t: nat, th: Thread, job: Job, again: bool, o: Outside, writersFirst: bool)
    requires Quiet(s, t)
    ensures Leads(Bare(s, t, th.(pc := WantRead(job, again))), Reading(s, t, th.(pc := Searching(job, again))),
                  t, o, writersFirst)
  {
    OneStep(Bare(s, t, th.(pc := WantRead(job, again))), Reading(s, t, th.(pc := Searching(job, again))),
            t, o, writersFirst);
  }

  lemma SearchAlone(s: State, t: nat, th: Thread, job: Job, again: bool, o: Outside, writersFirst: bool)
    requires Quiet(s, t)
    ensures var i := Find(s.users, Wanted(job, th));
            Leads(Reading(s, t, th.(pc := Searching(job, again))),
                  Reading(s, t, th.(pc := if i < |s.users| then WantMutex(job, again, i) else NotFound(job, again))),
                  t, o, writersFirst)
  {
    var i := Find(s.users, Wanted(job, th));
    OneStep(Reading(s, t, th.(pc := Searching(job, again))),
            Reading(s, t, th.(pc := if i < |s.users| then WantMutex(job, again, i) else NotFound(job, again))),
            t, o, writersFirst);
  }

  lemma LockAlone(s: State, t: nat, th: Thread, job: Job, again: bool, i: nat, o: Outside, writersFirst: bool)
    requires Quiet(s, t) && i < |s.users|
    ensures Leads(Reading(s, t, th.(pc := WantMutex(job, again, i))),
                  Holding(s, t, th.(pc := Serving(job, again, i)), i), t, o, writersFirst)
  {
    var a, c := Reading(s, t, th.(pc := WantMutex(job, again, i))), Holding(s, t, th.(pc := Serving(job, again, i)), i);
    var b := At(s, t, th.(pc := Locked(job, again, i)), s.users, true, Some(i), s.confirmed);
    OneStep(a, b, t, o, writersFirst);
    OneStep(b, c, t, o, writersFirst);
    Then(a, b, c, t, o, writersFirst);
  }

  lemma NotFoundAlone(s: State, t: nat, th: Thread, job: Job, again: bool, o: Outside, writersFirst: bool)
    requires Quiet(s, t)
    ensures Leads(Reading(s, t, th.(pc := NotFound(job, again))), Bare(s, t, th.(pc := Missing(job, again))),
                  t, o, writersFirst)
  {
    OneStep(Reading(s, t, th.(pc := NotFound(job, again))), Bare(s, t, th.(pc := Missing(job, again))),
            t, o, writersFirst);
  }

  lemma LookUp(s: State, t: nat, th: Thread, job: Job, again: bool, o: Outside, writersFirst: bool)
    requires Quiet(s, t)
    ensures Leads(Bare(s, t, th.(pc := WantRead(job, again))), Found(s, t, th, job, again), t, o, writersFirst)
  {
    var i := Find(s.users, Wanted(job, th));
    var a, b := Bare(s, t, th.(pc := WantRead(job, again))), Reading(s, t, th.(pc := Searching(job, again)));
    var c := Reading(s, t, th.(pc := if i < |s.users| then WantMutex(job, again, i) else NotFound(job, again)));
    ReadAlone(s, t, th, job, again, o, writersFirst);
    SearchAlone(s, t, th, job, again, o, writersFirst);
    Then(a, b, c, t, o, writersFirst);
    if i < |s.users| {
      LockAlone(s, t, th, job, again, i, o, writersFirst);
    } else {
      NotFoundAlone(s, t, th, job, again, o, writersFirst);
    }
    Then(a, c, Found(s, t, th, job, again), t, o, writersFirst);
  }

  // ---------- work under the mutex ----------

  /** The record of confirmed X after the work on a user. */
  function Noted(s: State, job: Job, i: nat): set<string>
    requires i < |s.users|
  {
    if ConfirmsX(s.users[i], job) then s.confirmed + {s.users[i].uid} else s.confirmed
  }

  lemma ServeIgnoresPlace(u: User, th: Thread, job: Job, again: bool, i: nat)
    ensures Serve(u, th.(pc := Serving(job, again, i)), job, again, i) == Serve(u, th, job, again, i)
    ensures Serve(u, th, job, again, i).0.uid == u.uid
  {
  }

  lemma ServeAlone(s: State, t: nat, th: Thread, job: Job, again: bool, i: nat, o: Outside, writersFirst: bool)
    requires Quiet(s, t) && i < |s.users|
    ensures var (u, th') := Serve(s.users[i], th, job, again, i);
            Leads(Holding(s, t, th.(pc := Serving(job, again, i)), i),
                  At(s, t, th', s.users[i := u], false, Some(i), Noted(s, job, i)), t, o, writersFirst)
  {
    var (u, th') := Serve(s.users[i], th, job, again, i);
    ServeIgnoresPlace(s.users[i], th, job, again, i);
    OneStep(Holding(s, t, th.(pc := Serving(job, again, i)), i),
            At(s, t, th', s.users[i := u], false, Some(i), Noted(s, job, i)), t, o, writersFirst);
  }

  lemma LeaveAlone(s: State, t: nat, th: Thread, users: seq<User>, i: nat, last: bool, x: set<string>, o: Outside,
                   writersFirst: bool)
    requires Quiet(s, t) && i < |s.users|
    ensures Leads(At(s, t, th.(pc := Leaving(i, last)), users, false, Some(i), x),
                  At(s, t, th.(pc := if last then Done else Idle), users, false, None, x), t, o, writersFirst)
  {
    assert s.owners[i := Some(t)][i := None] == s.owners;
    OneStep(At(s, t, th.(pc := Leaving(i, last)), users, false, Some(i), x),
            At(s, t, th.(pc := if last then Done else Idle), users, false, None, x), t, o, writersFirst);
  }

  /** The server that the protocol would see. */
  function Seen(s: State, o: Outside): Server {
    Server(s.users, o.tid, o.vc)
  }

  /** The users after the device has been asked. */
  function Asked(a: Server, m: Message, i: nat, answer: Option<string>): seq<User>
    requires i < |a.users|
  {
    if Accepted(answer) then a.users[i := Pend(a.users[i], m.pw, a.newVC, a.newTID, FopText(m.vc, Named(m)))]
    else a.users
  }

  /** Six waits for the device at most, and the first thing heard decides. */
  lemma {:induction false} AskAlone(s: State, t: nat, th: Thread, m: Message, i: nat, sends: nat, o: Outside,
                                    writersFirst: bool)
    requires Quiet(s, t) && i < |s.users| && sends <= 5 && |o.heard| == 6
    requires forall k | 0 <= k < 5 - sends :: o.heard[k].None?
    ensures Leads(Holding(s, t, th.(pc := Asking(m, i, sends)), i),
                  At(s, t, th.(pc := Leaving(i, false)), Asked(Seen(s, o), m, i, FirstHeard(o.heard)), false, Some(i),
                     s.confirmed),
                  t, o, writersFirst)
    decreases sends
  {
    var a := Holding(s, t, th.(pc := Asking(m, i, sends)), i);
    var users := Asked(Seen(s, o), m, i, FirstHeard(o.heard));
    var z := At(s, t, th.(pc := Leaving(i, false)), users, false, Some(i), s.confirmed);
    var k := 5 - sends;
    if o.heard[k].None? && sends > 0 {
      var b := Holding(s, t, th.(pc := Asking(m, i, sends - 1)), i);
      OneStep(a, b, t, o, writersFirst);
      AskAlone(s, t, th, m, i, sends - 1, o, writersFirst);
      Then(a, b, z, t, o, writersFirst);
    } else {
      FirstHeardIs(o.heard, k);
      assert z.threads == s.threads[t := th.(pc := Leaving(i, false))];
      OneStep(a, z, t, o, writersFirst);
    }
  }

  // ---------- a message of a session ----------

  function AfterMissing(th: Thread, job: Job, again: bool): Thread {
    if job.Datagrams? && IsReg(job.d) then th.(pc := if again then WantWrite(job.d) else WantRead(job, true))
    else if job.Ending? then Thread(Done, "", None)
    else th.(pc := Idle)
  }

  lemma MissingAlone(s: State, t: nat, th: Thread, job: Job, again: bool, o: Outside, writersFirst: bool)
    requires Quiet(s, t)
    ensures Leads(Bare(s, t, th.(pc := Missing(job, again))), Bare(s, t, AfterMissing(th, job, again)),
                  t, o, writersFirst)
  {
    OneStep(Bare(s, t, th.(pc := Missing(job, again))), Bare(s, t, AfterMissing(th, job, again)), t, o, writersFirst);
  }

  /** The users and the session after the work on a message. */
  function Outcome(a: Server, th: Thread, m: Message, i: nat, answer: Option<string>): (seq<User>, Thread)
    requires i < |a.users|
  {
    var (u, th') := Serve(a.users[i], th, Messages(m), false, i);
    (if th'.pc.Asking? then Asked(a, m, i, answer) else a.users[i := u], th'.(pc := Idle))
  }

  lemma AskingServesNothing(u: User, th: Thread, m: Message, i: nat)
    ensures var (v, th') := Serve(u, th, Messages(m), false, i);
            if th'.pc.Asking? then v == u && th'.pc == Asking(m, i, 5) else th'.pc == Leaving(i, false)
  {
  }

  /** From the mutex to the end of the work on a message. */
  lemma ServeMessage(s: State, t: nat, th: Thread, m: Message, i: nat, o: Outside, writersFirst: bool)
    requires Quiet(s, t) && i < |s.users| && |o.heard| == 6
    ensures var (users, th') := Outcome(Seen(s, o), th, m, i, FirstHeard(o.heard));
            Leads(Holding(s, t, th.(pc := Serving(Messages(m), false, i)), i),
                  At(s, t, th', users, false, None, s.confirmed), t, o, writersFirst)
  {
    var a := Holding(s, t, th.(pc := Serving(Messages(m), false, i)), i);
    var (u, th') := Serve(s.users[i], th, Messages(m), false, i);
    var b := At(s, t, th', s.users[i := u], false, Some(i), s.confirmed);
    var users := Outcome(Seen(s, o), th, m, i, FirstHeard(o.heard)).0;
    var c := At(s, t, th'.(pc := Leaving(i, false)), users, false, Some(i), s.confirmed);
    ServeAlone(s, t, th, Messages(m), false, i, o, writersFirst);
    AskingServesNothing(s.users[i], th, m, i);
    if th'.pc.Asking? {
      assert s.users[i := u] == s.users;
      AskAlone(s, t, th', m, i, 5, o, writersFirst);
      Then(a, b, c, t, o, writersFirst);
    }
    LeaveAlone(s, t, th', users, i, false, s.confirmed, o, writersFirst);
    Then(a, c, At(s, t, th'.(pc := Idle), users, false, None, s.confirmed), t, o, writersFirst);
  }

  lemma Unknown(a: Server, userID: string, m: Message, answer: Option<string>)
    requires !Known(a, m.uid)
    ensures DoTcp(a, userID, m, answer).0 == a && DoTcp(a, userID, m, answer).1 == userID
  {
  }

  lemma RestAgain(s: State, t: nat, th: Thread, users: seq<User>, x: set<string>)
    requires Quiet(s, t) && |users| == |s.users|
    ensures Quiet(At(s, t, th, users, false, None, x), t)
  {
  }

  /** The users and the session afterwards are those of the protocol. */
  lemma MessageEffect(a: Server, th: Thread, m: Message, i: nat, answer: Option<string>)
    requires i == Find(a.users, m.uid) < |a.users|
    ensures var (b, id, reply) := DoTcp(a, th.id, m, answer);
            id == Outcome(a, th, m, i, answer).1.id && b.users == Outcome(a, th, m, i, answer).0
  {
    I.SerialTcp(a, th, m, answer, i);
    AskingServesNothing(a.users[i], th, m, i);
    assert a.users[i := a.users[i]] == a.users;
  }

  lemma KnownAlone(s: State, t: nat, th: Thread, m: Message, i: nat, o: Outside, writersFirst: bool)
    requires Quiet(s, t) && |o.heard| == 6 && i == Find(s.users, m.uid) < |s.users|
    ensures var (users, th') := Outcome(Seen(s, o), th, m, i, FirstHeard(o.heard));
            Leads(Bare(s, t, th.(pc := WantRead(Messages(m), false))), At(s, t, th', users, false, None, s.confirmed),
                  t, o, writersFirst)
  {
    var (users, th') := Outcome(Seen(s, o), th, m, i, FirstHeard(o.heard));
    LookUp(s, t, th, Messages(m), false, o, writersFirst);
    ServeMessage(s, t, th, m, i, o, writersFirst);
    Then(Bare(s, t, th.(pc := WantRead(Messages(m), false))), Found(s, t, th, Messages(m), false),
         At(s, t, th', users, false, None, s.confirmed), t, o, writersFirst);
  }

  lemma UnknownAlone(s: State, t: nat, th: Thread, job: Job, o: Outside, writersFirst: bool)
    requires Quiet(s, t) && Find(s.users, Wanted(job, th)) == |s.users|
    ensures Leads(Bare(s, t, th.(pc := WantRead(job, false))), Bare(s, t, AfterMissing(th, job, false)),
                  t, o, writersFirst)
  {
    LookUp(s, t, th, job, false, o, writersFirst);
    MissingAlone(s, t, th, job, false, o, writersFirst);
    Then(Bare(s, t, th.(pc := WantRead(job, false))), Found(s, t, th, job, false),
         Bare(s, t, AfterMissing(th, job, false)), t, o, writersFirst);
  }

  lemma StartsBare(s: State, t: nat, pc: Pc)
    requires Quiet(s, t)
    ensures Goto(s, t, pc) == Bare(s, t, s.threads[t].(pc := pc))
  {
  }

  /** A session's message, handled while all others rest, has the effect that the protocol gives it. */
  lemma MessageAlone(s: State, t: nat, m: Message, o: Outside, writersFirst: bool) returns (z: State)
    requires Quiet(s, t) && s.threads[t].pc.Idle? && |o.heard| == 6
    ensures Leads(Goto(s, t, Entry(Messages(m))), z, t, o, writersFirst) && Quiet(z, t) && z.threads[t].pc.Idle?
    ensures var (b, id, reply) := DoTcp(Seen(s, o), s.threads[t].id, m, FirstHeard(o.heard));
            z.users == b.users && z.threads[t].id == id
  {
    var th, i := s.threads[t], Find(s.users, m.uid);
    StartsBare(s, t, Entry(Messages(m)));
    if i < |s.users| {
      var (users, th') := Outcome(Seen(s, o), th, m, i, FirstHeard(o.heard));
      z := At(s, t, th', users, false, None, s.confirmed);
      KnownAlone(s, t, th, m, i, o, writersFirst);
      MessageEffect(Seen(s, o), th, m, i, FirstHeard(o.heard));
      RestAgain(s, t, th', users, s.confirmed);
    } else {
      z := Bare(s, t, th.(pc := Idle));
      UnknownAlone(s, t, th, Messages(m), o, writersFirst);
      Unknown(Seen(s, o), th.id, m, FirstHeard(o.heard));
      RestAgain(s, t, th.(pc := Idle), s.users, s.confirmed);
    }
  }

  // ---------- the end of a session ----------

  lemma EndServed(s: State, t: nat, th: Thread, i: nat, o: Outside, writersFirst: bool)
    requires Quiet(s, t) && i < |s.users|
    ensures Leads(Holding(s, t, th.(pc := Serving(Ending, false, i)), i),
                  At(s, t, AfterMissing(th, Ending, false), s.users[i := s.users[i].(isLogged := false)], false, None,
                     s.confirmed), t, o, writersFirst)
  {
    var (u, th') := Serve(s.users[i], th, Ending, false, i);
    ServeAlone(s, t, th, Ending, false, i, o, writersFirst);
    LeaveAlone(s, t, th', s.users[i := u], i, true, s.confirmed, o, writersFirst);
    Then(Holding(s, t, th.(pc := Serving(Ending, false, i)), i),
         At(s, t, th', s.users[i := u], false, Some(i), s.confirmed),
         At(s, t, th'.(pc := Done), s.users[i := u], false, None, s.confirmed), t, o, writersFirst);
  }

  lemma EndKnown(s: State, t: nat, th: Thread, i: nat, o: Outside, writersFirst: bool)
    requires Quiet(s, t) && i == Find(s.users, th.id) < |s.users|
    ensures Leads(Bare(s, t, th.(pc := WantRead(Ending, false))),
                  At(s, t, AfterMissing(th, Ending, false), s.users[i := s.users[i].(isLogged := false)], false, None,
                     s.confirmed), t, o, writersFirst)
  {
    LookUp(s, t, th, Ending, false, o, writersFirst);
    EndServed(s, t, th, i, o, writersFirst);
    Then(Bare(s, t, th.(pc := WantRead(Ending, false))), Found(s, t, th, Ending, false),
         At(s, t, AfterMissing(th, Ending, false), s.users[i := s.users[i].(isLogged := false)], false, None,
            s.confirmed), t, o, writersFirst);
  }

  /** A session that the peer closes logs its user out. */
  lemma EndAlone(s: State, t: nat, o: Outside, writersFirst: bool) returns (z: State)
    requires Quiet(s, t) && s.threads[t].pc.Idle?
    ensures Leads(Goto(s, t, Entry(Ending)), z, t, o, writersFirst) && Quiet(z, t)
    ensures z.threads[t].pc.Done? && z.threads[t].id == ""
    ensures z.users == Hangup(Seen(s, o), s.threads[t].id).users
  {
    var th, i := s.threads[t], Find(s.users, s.threads[t].id);
    var end := AfterMissing(th, Ending, false);
    StartsBare(s, t, Entry(Ending));
    if i < |s.users| {
      z := At(s, t, end, s.users[i := s.users[i].(isLogged := false)], false, None, s.confirmed);
      EndKnown(s, t, th, i, o, writersFirst);
      RestAgain(s, t, end, z.users, s.confirmed);
    } else {
      z := Bare(s, t, end);
      UnknownAlone(s, t, th, Ending, o, writersFirst);
      RestAgain(s, t, end, s.users, s.confirmed);
    }
  }

  // ---------- a datagram ----------

  /** The state after the work on a datagram for a user in the list. */
  function Worked(s: State, t: nat, th: Thread, d: Datagram, i: nat): State
    requires t < |s.threads| && i < |s.users|
  {
    At(s, t, th.(pc := Idle), s.users[i := Serve(s.users[i], th, Datagrams(d), false, i).0], false, None,
       Noted(s, Datagrams(d), i))
  }

  lemma ServeDatagram(s: State, t: nat, th: Thread, d: Datagram, i: nat, o: Outside, writersFirst: bool)
    requires Quiet(s, t) && i < |s.users|
    ensures Leads(Holding(s, t, th.(pc := Serving(Datagrams(d), false, i)), i), Worked(s, t, th, d, i),
                  t, o, writersFirst)
  {
    var (u, th') := Serve(s.users[i], th, Datagrams(d), false, i);
    ServeAlone(s, t, th, Datagrams(d), false, i, o, writersFirst);
    LeaveAlone(s, t, th', s.users[i := u], i, false, Noted(s, Datagrams(d), i), o, writersFirst);
    Then(Holding(s, t, th.(pc := Serving(Datagrams(d), false, i)), i),
         At(s, t, th', s.users[i := u], false, Some(i), Noted(s, Datagrams(d), i)), Worked(s, t, th, d, i),
         t, o, writersFirst);
  }

  /** The state with a new user at the end of the list. */
  function Grown(s: State, t: nat, th: Thread, d: Datagram): State
    requires t < |s.threads|
  {
    State(s.users + [NewUser(d.uid, d.pw, d.pdip, d.pdport)], s.threads[t := th.(pc := Idle)], {}, None,
          s.owners + [None], s.confirmed)
  }

  lemma WriteAlone(s: State, t: nat, th: Thread, d: Datagram, o: Outside, writersFirst: bool)
    requires Quiet(s, t)
    ensures Leads(Bare(s, t, th.(pc := WantWrite(d))), Grown(s, t, th, d), t, o, writersFirst)
  {
    var a := Bare(s, t, th.(pc := WantWrite(d)));
    var b := Bare(s, t, th.(pc := Writing(d))).(writer := Some(t));
    OneStep(a, b, t, o, writersFirst);
    OneStep(b, Grown(s, t, th, d), t, o, writersFirst);
    Then(a, b, Grown(s, t, th, d), t, o, writersFirst);
  }

  /** The look for the device's address, which only REG takes. */
  lemma ScanAlone(s: State, t: nat, th: Thread, d: Datagram, o: Outside, writersFirst: bool)
    requires Quiet(s, t)
    ensures Leads(Bare(s, t, th.(pc := WantScan(d))),
                  Bare(s, t, th.(pc := if I.Cleared(s.users, d) then WantRead(Datagrams(d), false) else Idle)),
                  t, o, writersFirst)
  {
    var a, b := Bare(s, t, th.(pc := WantScan(d))), Reading(s, t, th.(pc := Scanning(d)));
    var c := Bare(s, t, th.(pc := if I.Cleared(s.users, d) then WantRead(Datagrams(d), false) else Idle));
    OneStep(a, b, t, o, writersFirst);
    OneStep(b, c, t, o, writersFirst);
    Then(a, b, c, t, o, writersFirst);
  }

  /** The second search of a REG, and the new user. */
  lemma AddAlone(s: State, t: nat, th: Thread, d: Datagram, o: Outside, writersFirst: bool)
    requires Quiet(s, t) && IsReg(d) && Find(s.users, d.uid) == |s.users|
    ensures Leads(Bare(s, t, th.(pc := WantRead(Datagrams(d), true))), Grown(s, t, th, d), t, o, writersFirst)
  {
    var a, b := Bare(s, t, th.(pc := WantRead(Datagrams(d), true))), Bare(s, t, th.(pc := Missing(Datagrams(d), true)));
    var c := Bare(s, t, th.(pc := WantWrite(d)));
    LookUp(s, t, th, Datagrams(d), true, o, writersFirst);
    MissingAlone(s, t, th, Datagrams(d), true, o, writersFirst);
    Then(a, b, c, t, o, writersFirst);
    WriteAlone(s, t, th, d, o, writersFirst);
    Then(a, c, Grown(s, t, th, d), t, o, writersFirst);
  }

  /** REG of a user that is not in the list, once the address has been found free. */
  lemma NewUserAlone(s: State, t: nat, th: Thread, d: Datagram, o: Outside, writersFirst: bool)
    requires Quiet(s, t) && IsReg(d) && Find(s.users, d.uid) == |s.users|
    ensures Leads(Bare(s, t, th.(pc := WantRead(Datagrams(d), false))), Grown(s, t, th, d), t, o, writersFirst)
  {
    UnknownAlone(s, t, th, Datagrams(d), o, writersFirst);
    AddAlone(s, t, th, d, o, writersFirst);
    Then(Bare(s, t, th.(pc := WantRead(Datagrams(d), false))), Bare(s, t, th.(pc := WantRead(Datagrams(d), true))),
         Grown(s, t, th, d), t, o, writersFirst);
  }

  /** A datagram for a user that is in the list. */
  lemma OldUserAlone(s: State, t: nat, th: Thread, d: Datagram, i: nat, o: Outside, writersFirst: bool)
    requires Quiet(s, t) && i == Find(s.users, d.uid) < |s.users|
    ensures Leads(Bare(s, t, th.(pc := WantRead(Datagrams(d), false))), Worked(s, t, th, d, i), t, o, writersFirst)
  {
    LookUp(s, t, th, Datagrams(d), false, o, writersFirst);
    ServeDatagram(s, t, th, d, i, o, writersFirst);
    Then(Bare(s, t, th.(pc := WantRead(Datagrams(d), false))), Found(s, t, th, Datagrams(d), false),
         Worked(s, t, th, d, i), t, o, writersFirst);
  }

  /** What the protocol makes of a datagram. */
  lemma DatagramEffect(a: Server, th: Thread, d: Datagram)
    ensures var b, i := DoUdp(a, d).0.users, Find(a.users, d.uid);
            if IsReg(d) && !I.Cleared(a.users, d) then b == a.users
            else if IsReg(d) && i == |a.users| then b == a.users + [NewUser(d.uid, d.pw, d.pdip, d.pdport)]
            else if i < |a.users| && (IsReg(d) || IsUdp(d, "UNR") || IsUdp(d, "VLD")) then
              b == a.users[i := Serve(a.users[i], th, Datagrams(d), false, i).0]
            else b == a.users
  {
    var i := Find(a.users, d.uid);
    if i < |a.users| && (IsUdp(d, "UNR") || IsUdp(d, "VLD") || (IsReg(d) && I.Cleared(a.users, d))) {
      I.SerialUdp(a, th, d, i);
    }
  }

  /** Where a datagram ends, once its user is to be looked up. */
  function Landed(s: State, t: nat, th: Thread, d: Datagram): State
    requires t < |s.threads|
  {
    var i := Find(s.users, d.uid);
    if i < |s.users| then Worked(s, t, th, d, i)
    else if IsReg(d) then Grown(s, t, th, d)
    else Bare(s, t, th.(pc := Idle))
  }

  lemma Lands(s: State, t: nat, th: Thread, d: Datagram, o: Outside, writersFirst: bool)
    requires Quiet(s, t)
    ensures Leads(Bare(s, t, th.(pc := WantRead(Datagrams(d), false))), Landed(s, t, th, d), t, o, writersFirst)
    ensures Quiet(Landed(s, t, th, d), t) && Landed(s, t, th, d).threads[t].pc.Idle?
  {
    var i := Find(s.users, d.uid);
    if i < |s.users| {
      OldUserAlone(s, t, th, d, i, o, writersFirst);
    } else if IsReg(d) {
      NewUserAlone(s, t, th, d, o, writersFirst);
    } else {
      UnknownAlone(s, t, th, Datagrams(d), o, writersFirst);
    }
  }

  /** A datagram, handled while all sessions rest, has the effect that the protocol gives it. */
  lemma DatagramAlone(s: State, t: nat, d: Datagram, o: Outside, writersFirst: bool) returns (z: State)
    requires Quiet(s, t) && s.threads[t].pc.Idle?
    ensures Leads(Goto(s, t, Entry(Datagrams(d))), z, t, o, writersFirst) && Quiet(z, t) && z.threads[t].pc.Idle?
    ensures z.users == DoUdp(Seen(s, o), d).0.users
  {
    var th, a := s.threads[t], Goto(s, t, Entry(Datagrams(d)));
    StartsBare(s, t, Entry(Datagrams(d)));
    DatagramEffect(Seen(s, o), th, d);
    if IsReg(d) {
      ScanAlone(s, t, th, d, o, writersFirst);
      if I.Cleared(s.users, d) {
        z := Landed(s, t, th, d);
        Lands(s, t, th, d, o, writersFirst);
        Then(a, Bare(s, t, th.(pc := WantRead(Datagrams(d), false))), z, t, o, writersFirst);
      } else {
        z := Bare(s, t, th.(pc := Idle));
      }
    } else if IsUdp(d, "UNR") || IsUdp(d, "VLD") {
      z := Landed(s, t, th, d);
      Lands(s, t, th, d, o, writersFirst);
    } else {
      z := a;
      Stays(a, t, o, writersFirst);
    }
  }
}
