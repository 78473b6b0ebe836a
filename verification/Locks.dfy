/**
 * The Authentication Server with its threads interleaved: one UDP thread, any number of TCP threads, the
 * readers-writer lock on the users list and one mutex per user. A step is one lock operation, one traversal of
 * the list under the lock, one stretch of work under a mutex, or one wait for a device.
 */
module Locks {
  import opened Options
  import opened Text
  import opened Assoc
  import opened P = Protocol

  /** What a thread is working on; the UDP thread works on datagrams, a session on messages and on its end. */
  datatype Job = Datagrams(d: Datagram) | Messages(m: Message) | Ending

  /** Where a thread is, and what it knows there. `again` marks the second search, the one inside `addUser`. */
  datatype Pc =
    | Idle                                        // waiting for the network
    | WantScan(d: Datagram)                       // REG: about to lock the list to look for the device's address
    | Scanning(d: Datagram)                       // list locked for reading
    | WantRead(job: Job, again: bool)             // getUser: about to lock the list for reading
    | Searching(job: Job, again: bool)            // list locked for reading
    | WantMutex(job: Job, again: bool, i: nat)    // list locked for reading, user found
    | Locked(job: Job, again: bool, i: nat)       // list locked for reading, user locked
    | Serving(job: Job, again: bool, i: nat)      // user locked
    | Asking(m: Message, i: nat, sends: nat)      // user locked, a VLC just sent, so many sends left
    | Leaving(i: nat, last: bool)                 // user locked, work done
    | NotFound(job: Job, again: bool)             // list locked for reading, no such user
    | Missing(job: Job, again: bool)              // nothing locked, no such user
    | WantWrite(d: Datagram)                      // addUser: about to lock the list for writing
    | Writing(d: Datagram)                        // list locked for writing
    | Done

  /** A thread; a session also has its `userID` and, for the record, the uid and password of its last good LOG. */
  datatype Thread = Thread(pc: Pc, id: string, login: Option<(string, string)>)

  datatype State = State(
    users: seq<User>,
    threads: seq<Thread>,
    readers: set<nat>,            // who holds the list lock for reading
    writer: Option<nat>,          // who holds it for writing
    owners: seq<Option<nat>>,     // who holds the mutex of each user
    confirmed: set<string>)       // for the record: users for whom VLD has confirmed an X

  /** What the environment supplies to a step: what the device answered, and what the shared counters read as. */
  datatype Luck = Luck(heard: Option<string>, vc: string, tid: string)

  // ---------- what each place holds ----------

  predicate ReadHeld(pc: Pc) {
    pc.Scanning? || pc.Searching? || pc.WantMutex? || pc.Locked? || pc.NotFound?
  }

  function MutexHeld(pc: Pc): Option<nat> {
    if pc.Locked? || pc.Serving? || pc.Asking? || pc.Leaving? then Some(pc.i) else None
  }

  predicate WantsList(pc: Pc) {
    pc.WantScan? || pc.WantRead? || pc.WantWrite?
  }

  predicate Resting(pc: Pc) {
    pc.Idle? || pc.Done?
  }

  // ---------- steps ----------

  /** A reader gets in when no writer holds the lock and, if writers go first, none waits for it. */
  predicate CanRead(s: State, writersFirst: bool) {
    s.writer.None? && (writersFirst ==> forall t | 0 <= t < |s.threads| :: !s.threads[t].pc.WantWrite?)
  }

  /** The thread is not at rest, and the lock it wants, if any, can be had. */
  predicate CanMove(s: State, t: nat, writersFirst: bool) {
    t < |s.threads| &&
    match s.threads[t].pc
    case Idle => false
    case Done => false
    case WantScan(_) => CanRead(s, writersFirst)
    case WantRead(_, _) => CanRead(s, writersFirst)
    case WantWrite(_) => s.writer.None? && s.readers == {}
    case WantMutex(_, _, i) => i < |s.owners| && s.owners[i].None?
    case _ => true
  }

  function Goto(s: State, t: nat, pc: Pc): State
    requires t < |s.threads|
  {
    s.(threads := s.threads[t := s.threads[t].(pc := pc)])
  }

  function Wanted(job: Job, th: Thread): string {
    match job
    case Datagrams(d) => d.uid
    case Messages(m) => m.uid
    case Ending => th.id
  }

  predicate IsReg(d: Datagram) {
    d.words == 5 && d.op == "REG"
  }

  predicate IsUdp(d: Datagram, op: string) {
    d.words == 3 && d.op == op
  }

  /** The work done under the user's mutex: the user and the thread afterwards, and where the thread goes. */
  function Serve(u: User, th: Thread, job: Job, again: bool, i: nat): (User, Thread) {
    match job
    case Datagrams(d) =>
      var v :=
        if IsReg(d) && !again && !u.isOn && u.pw == d.pw then Register(u, d.pdip, d.pdport)
        else if IsUdp(d, "UNR") && u.pw == d.pw then Unregister(u)
        else if IsUdp(d, "VLD") && Get(u.tids, d.pw).Some? then Confirm(u, d.pw, Get(u.tids, d.pw).value)
        else u;
      (v, th.(pc := Leaving(i, false)))
    case Messages(m) =>
      if m.words == 3 && m.op == "LOG" then
        if !u.isLogged && u.pw == m.pw then
          (u.(isLogged := true), Thread(Leaving(i, false), m.uid, Some((m.uid, m.pw))))
        else (u, th.(pc := Leaving(i, false)))
      else if m.op == "REQ" then
        if u.isLogged && th.id == m.uid && WellFormed(m) && u.isOn then (u, th.(pc := Asking(m, i, 5)))
        else (u, th.(pc := Leaving(i, false)))
      else if m.words == 4 && m.op == "AUT" && Get(u.rids, m.pw) == Some(m.vc) then
        (Settle(u, m.pw), th.(pc := Leaving(i, false)))
      else (u, th.(pc := Leaving(i, false)))
    case Ending => (u.(isLogged := false), Thread(Leaving(i, true), "", None))
  }

  /** A VLD that finds an X. */
  predicate ConfirmsX(u: User, job: Job) {
    job.Datagrams? && IsUdp(job.d, "VLD") && Get(u.tids, job.d.pw) == Some("X")
  }

  /** The step a thread takes where it is. */
  function Move(s: State, t: nat, luck: Luck, writersFirst: bool): State
    requires CanMove(s, t, writersFirst)
  {
    var th := s.threads[t];
    match th.pc
    case WantScan(d) => Goto(s, t, Scanning(d)).(readers := s.readers + {t})
    case Scanning(d) =>
      var free := !AddressTaken(s.users, d.pdip, d.pdport) && ValidUid(d.uid) && ValidPass(d.pw);
      Goto(s, t, if free then WantRead(Datagrams(d), false) else Idle).(readers := s.readers - {t})
    case WantRead(job, again) => Goto(s, t, Searching(job, again)).(readers := s.readers + {t})
    case Searching(job, again) =>
      var i := Find(s.users, Wanted(job, th));
      Goto(s, t, if i < |s.users| then WantMutex(job, again, i) else NotFound(job, again))
    case WantMutex(job, again, i) =>
      Goto(s, t, Locked(job, again, i)).(owners := s.owners[i := Some(t)])
    case Locked(job, again, i) => Goto(s, t, Serving(job, again, i)).(readers := s.readers - {t})
    case NotFound(job, again) => Goto(s, t, Missing(job, again)).(readers := s.readers - {t})
    case Missing(job, again) =>
      if job.Datagrams? && IsReg(job.d) then
        Goto(s, t, if again then WantWrite(job.d) else WantRead(job, true))
      else if job.Ending? then s.(threads := s.threads[t := Thread(Done, "", None)])
      else Goto(s, t, Idle)
    case WantWrite(d) => Goto(s, t, Writing(d)).(writer := Some(t))
    case Writing(d) =>
      Goto(s, t, Idle).(users := s.users + [NewUser(d.uid, d.pw, d.pdip, d.pdport)],
                        owners := s.owners + [None], writer := None)
    case Serving(job, again, i) =>
      if i >= |s.users| then s else
        var (u, th') := Serve(s.users[i], th, job, again, i);
        s.(users := s.users[i := u], threads := s.threads[t := th'],
           confirmed := if ConfirmsX(s.users[i], job) then s.confirmed + {u.uid} else s.confirmed)
    case Asking(m, i, sends) =>
      if luck.heard.None? then Goto(s, t, if sends > 0 then Asking(m, i, sends - 1) else Leaving(i, false))
      else if i < |s.users| && Accepted(luck.heard) then
        Goto(s, t, Leaving(i, false)).(
          users := s.users[i := Pend(s.users[i], m.pw, luck.vc, luck.tid, FopText(m.vc, Named(m)))])
      else Goto(s, t, Leaving(i, false))
    case Leaving(i, last) =>
      Goto(s, t, if last then Done else Idle).(owners := if i < |s.owners| then s.owners[i := None] else s.owners)
  }

  /** What can happen: a connection, the arrival of work at an idle thread, its next step, the loss of a session. */
  datatype Act = Connect | Arrive(t: nat, job: Job) | Go(t: nat, luck: Luck) | Lose(t: nat)

  predicate Suits(t: nat, job: Job) {
    job.Datagrams? <==> t == 0
  }

  /** Where a thread starts on a job: only REG looks at the list before searching for the user. */
  function Entry(job: Job): Pc {
    if job.Datagrams? && IsReg(job.d) then WantScan(job.d)
    else if job.Datagrams? && !IsUdp(job.d, "UNR") && !IsUdp(job.d, "VLD") then Idle
    else WantRead(job, false)
  }

  /** Acts that are not possible change nothing. */
  function Do(s: State, act: Act, writersFirst: bool): State {
    match act
    case Connect => s.(threads := s.threads + [Thread(Idle, "", None)])
    case Arrive(t, job) =>
      if t < |s.threads| && s.threads[t].pc.Idle? && Suits(t, job) then Goto(s, t, Entry(job)) else s
    case Go(t, luck) => if CanMove(s, t, writersFirst) then Move(s, t, luck, writersFirst) else s
    case Lose(t) =>
      if 0 < t < |s.threads| && s.threads[t].pc.Idle? then
        s.(threads := s.threads[t := Thread(Done, "", None)])
      else s
  }

  const Boot := State([], [Thread(Idle, "", None)], {}, None, [], {})

  function Play(acts: seq<Act>, writersFirst: bool): State {
    if acts == [] then Boot else Do(Play(acts[..|acts| - 1], writersFirst), acts[|acts| - 1], writersFirst)
  }

  // ---------- who holds what ----------

  /** The locks are held exactly by the threads that are where they hold them. */
  ghost predicate LocksInOrder(s: State) {
    && |s.owners| == |s.users|
    && (forall t | t in s.readers :: t < |s.threads|)
    && (forall t | 0 <= t < |s.threads| :: t in s.readers <==> ReadHeld(s.threads[t].pc))
    && (s.writer.Some? ==> s.writer.value < |s.threads| && s.readers == {})
    && (forall t | 0 <= t < |s.threads| :: s.writer == Some(t) <==> s.threads[t].pc.Writing?)
    && (forall t | 0 <= t < |s.threads| && MutexHeld(s.threads[t].pc).Some? ::
          MutexHeld(s.threads[t].pc).value < |s.owners| && s.owners[MutexHeld(s.threads[t].pc).value] == Some(t))
    && (forall i | 0 <= i < |s.owners| && s.owners[i].Some? ::
          s.owners[i].value < |s.threads| && MutexHeld(s.threads[s.owners[i].value].pc) == Some(i))
    && (forall t | 0 <= t < |s.threads| && s.threads[t].pc.WantMutex? :: s.threads[t].pc.i < |s.users|)
  }

  /** Only thread t moved, to a place that is in order as far as WantMutex goes. */
  ghost predicate OnlyMoved(s: State, z: State, t: nat) {
    && t < |s.threads| == |z.threads|
    && (forall k | 0 <= k < |s.threads| && k != t :: z.threads[k] == s.threads[k])
    && (z.threads[t].pc.WantMutex? ==> z.threads[t].pc.i < |z.users|)
  }

  lemma SameLocks(s: State, z: State, t: nat)
    requires LocksInOrder(s) && OnlyMoved(s, z, t) && |z.users| == |s.users|
    requires z.readers == s.readers && z.writer == s.writer && z.owners == s.owners
    requires ReadHeld(z.threads[t].pc) == ReadHeld(s.threads[t].pc)
    requires z.threads[t].pc.Writing? == s.threads[t].pc.Writing?
    requires MutexHeld(z.threads[t].pc) == MutexHeld(s.threads[t].pc)
    ensures LocksInOrder(z)
  {
  }

  lemma ReadChanged(s: State, z: State, t: nat)
    requires LocksInOrder(s) && OnlyMoved(s, z, t) && |z.users| == |s.users|
    requires z.readers == if ReadHeld(z.threads[t].pc) then s.readers + {t} else s.readers - {t}
    requires z.writer == s.writer && z.owners == s.owners && (s.writer.Some? ==> !ReadHeld(z.threads[t].pc))
    requires z.threads[t].pc.Writing? == s.threads[t].pc.Writing?
    requires MutexHeld(z.threads[t].pc) == MutexHeld(s.threads[t].pc)
    ensures LocksInOrder(z)
  {
  }

  lemma MutexTaken(s: State, z: State, t: nat, i: nat)
    requires LocksInOrder(s) && OnlyMoved(s, z, t) && z.users == s.users && i < |s.users|
    requires s.owners[i].None? && MutexHeld(s.threads[t].pc).None? && MutexHeld(z.threads[t].pc) == Some(i)
    requires z.readers == s.readers && z.writer == s.writer && z.owners == s.owners[i := Some(t)]
    requires ReadHeld(z.threads[t].pc) == ReadHeld(s.threads[t].pc)
    requires !z.threads[t].pc.Writing? && !s.threads[t].pc.Writing?
    ensures LocksInOrder(z)
  {
  }

  lemma MutexDropped(s: State, z: State, t: nat, i: nat)
    requires LocksInOrder(s) && OnlyMoved(s, z, t) && z.users == s.users && i < |s.users|
    requires MutexHeld(s.threads[t].pc) == Some(i) && MutexHeld(z.threads[t].pc).None?
    requires z.readers == s.readers && z.writer == s.writer && z.owners == s.owners[i := None]
    requires ReadHeld(z.threads[t].pc) == ReadHeld(s.threads[t].pc)
    requires !z.threads[t].pc.Writing? && !s.threads[t].pc.Writing?
    ensures LocksInOrder(z)
  {
  }

  lemma WriteTaken(s: State, z: State, t: nat)
    requires LocksInOrder(s) && OnlyMoved(s, z, t) && z.users == s.users
    requires s.writer.None? && s.readers == {} == z.readers && z.writer == Some(t) && z.owners == s.owners
    requires z.threads[t].pc.Writing? && MutexHeld(s.threads[t].pc).None?
    ensures LocksInOrder(z)
  {
  }

  lemma WriteDropped(s: State, z: State, t: nat)
    requires LocksInOrder(s) && OnlyMoved(s, z, t) && |z.users| == |s.users| + 1
    requires s.threads[t].pc.Writing? && z.threads[t].pc.Idle?
    requires z.readers == s.readers && z.writer == None && z.owners == s.owners + [None]
    ensures LocksInOrder(z)
  {
  }

  lemma ReadingKeepsLocks(s: State, t: nat, luck: Luck, writersFirst: bool)
    requires LocksInOrder(s) && CanMove(s, t, writersFirst)
    requires s.threads[t].pc.WantScan? || s.threads[t].pc.WantRead? || s.threads[t].pc.Locked?
    ensures LocksInOrder(Move(s, t, luck, writersFirst))
  {
    ReadChanged(s, Move(s, t, luck, writersFirst), t);
  }

  lemma LeavingListKeepsLocks(s: State, t: nat, luck: Luck, writersFirst: bool)
    requires LocksInOrder(s) && CanMove(s, t, writersFirst)
    requires s.threads[t].pc.Scanning? || s.threads[t].pc.NotFound?
    ensures LocksInOrder(Move(s, t, luck, writersFirst))
  {
    ReadChanged(s, Move(s, t, luck, writersFirst), t);
  }

  lemma WritingKeepsLocks(s: State, t: nat, luck: Luck, writersFirst: bool)
    requires LocksInOrder(s) && CanMove(s, t, writersFirst)
    requires s.threads[t].pc.WantWrite? || s.threads[t].pc.Writing?
    ensures LocksInOrder(Move(s, t, luck, writersFirst))
  {
    if s.threads[t].pc.WantWrite? {
      WriteTaken(s, Move(s, t, luck, writersFirst), t);
    } else {
      WriteDropped(s, Move(s, t, luck, writersFirst), t);
    }
  }

  lemma MutexKeepsLocks(s: State, t: nat, luck: Luck, writersFirst: bool)
    requires LocksInOrder(s) && CanMove(s, t, writersFirst)
    requires s.threads[t].pc.WantMutex? || s.threads[t].pc.Leaving?
    ensures LocksInOrder(Move(s, t, luck, writersFirst))
  {
    if s.threads[t].pc.WantMutex? {
      MutexTaken(s, Move(s, t, luck, writersFirst), t, s.threads[t].pc.i);
    } else {
      MutexDropped(s, Move(s, t, luck, writersFirst), t, s.threads[t].pc.i);
    }
  }

  lemma ServeStays(u: User, th: Thread, job: Job, again: bool, i: nat)
    ensures var pc := Serve(u, th, job, again, i).1.pc;
            (pc.Leaving? || pc.Asking?) && pc.i == i
  {
  }

  lemma ServingKeepsLocks(s: State, t: nat, luck: Luck, writersFirst: bool)
    requires LocksInOrder(s) && CanMove(s, t, writersFirst) && s.threads[t].pc.Serving?
    ensures LocksInOrder(Move(s, t, luck, writersFirst))
  {
    var pc := s.threads[t].pc;
    ServeStays(s.users[pc.i], s.threads[t], pc.job, pc.again, pc.i);
    SameLocks(s, Move(s, t, luck, writersFirst), t);
  }

  lemma AskingKeepsLocks(s: State, t: nat, luck: Luck, writersFirst: bool)
    requires LocksInOrder(s) && CanMove(s, t, writersFirst) && s.threads[t].pc.Asking?
    ensures LocksInOrder(Move(s, t, luck, writersFirst))
  {
    SameLocks(s, Move(s, t, luck, writersFirst), t);
  }

  lemma SearchingKeepsLocks(s: State, t: nat, luck: Luck, writersFirst: bool)
    requires LocksInOrder(s) && CanMove(s, t, writersFirst) && s.threads[t].pc.Searching?
    ensures LocksInOrder(Move(s, t, luck, writersFirst))
  {
    SameLocks(s, Move(s, t, luck, writersFirst), t);
  }

  lemma MissingKeepsLocks(s: State, t: nat, luck: Luck, writersFirst: bool)
    requires LocksInOrder(s) && CanMove(s, t, writersFirst) && s.threads[t].pc.Missing?
    ensures LocksInOrder(Move(s, t, luck, writersFirst))
  {
    SameLocks(s, Move(s, t, luck, writersFirst), t);
  }

  lemma MoveKeepsLocks(s: State, t: nat, luck: Luck, writersFirst: bool)
    requires LocksInOrder(s) && CanMove(s, t, writersFirst)
    ensures LocksInOrder(Move(s, t, luck, writersFirst))
  {
    match s.threads[t].pc
    case WantScan(_) => ReadingKeepsLocks(s, t, luck, writersFirst);
    case WantRead(_, _) => ReadingKeepsLocks(s, t, luck, writersFirst);
    case Locked(_, _, _) => ReadingKeepsLocks(s, t, luck, writersFirst);
    case Scanning(_) => LeavingListKeepsLocks(s, t, luck, writersFirst);
    case NotFound(_, _) => LeavingListKeepsLocks(s, t, luck, writersFirst);
    case WantWrite(_) => WritingKeepsLocks(s, t, luck, writersFirst);
    case Writing(_) => WritingKeepsLocks(s, t, luck, writersFirst);
    case WantMutex(_, _, _) => MutexKeepsLocks(s, t, luck, writersFirst);
    case Leaving(_, _) => MutexKeepsLocks(s, t, luck, writersFirst);
    case Serving(_, _, _) => ServingKeepsLocks(s, t, luck, writersFirst);
    case Asking(_, _, _) => AskingKeepsLocks(s, t, luck, writersFirst);
    case Searching(_, _) => SearchingKeepsLocks(s, t, luck, writersFirst);
    case Missing(_, _) => MissingKeepsLocks(s, t, luck, writersFirst);
  }

  lemma RestKeepsLocks(s: State, z: State, t: nat)
    requires LocksInOrder(s) && OnlyMoved(s, z, t) && Resting(s.threads[t].pc)
    requires z == s.(threads := z.threads)
    requires !ReadHeld(z.threads[t].pc) && MutexHeld(z.threads[t].pc).None? && !z.threads[t].pc.Writing?
    ensures LocksInOrder(z)
  {
    SameLocks(s, z, t);
  }

  lemma ConnectKeepsLocks(s: State)
    requires LocksInOrder(s)
    ensures LocksInOrder(s.(threads := s.threads + [Thread(Idle, "", None)]))
  {
    var z := s.(threads := s.threads + [Thread(Idle, "", None)]);
    assert z.threads[|s.threads|].pc.Idle?;
    assert forall t | 0 <= t < |s.threads| :: z.threads[t] == s.threads[t];
  }

  lemma DoKeepsLocks(s: State, act: Act, writersFirst: bool)
    requires LocksInOrder(s)
    ensures LocksInOrder(Do(s, act, writersFirst))
  {
    match act
    case Connect => ConnectKeepsLocks(s);
    case Go(t, luck) =>
      if CanMove(s, t, writersFirst) {
        MoveKeepsLocks(s, t, luck, writersFirst);
      }
    case Arrive(t, job) =>
      if t < |s.threads| && s.threads[t].pc.Idle? && Suits(t, job) {
        RestKeepsLocks(s, Do(s, act, writersFirst), t);
      }
    case Lose(t) =>
      if 0 < t < |s.threads| && s.threads[t].pc.Idle? {
        RestKeepsLocks(s, Do(s, act, writersFirst), t);
      }
  }

  /** Whatever the schedule. */
  lemma {:induction false} LocksAlwaysInOrder(acts: seq<Act>, writersFirst: bool)
    ensures LocksInOrder(Play(acts, writersFirst))
  {
    if acts != [] {
      LocksAlwaysInOrder(acts[..|acts| - 1], writersFirst);
      DoKeepsLocks(Play(acts[..|acts| - 1], writersFirst), acts[|acts| - 1], writersFirst);
    }
  }

  // ---------- lock discipline ----------

  /** Under every schedule at most one thread at a time works on a user, and a thread locks at most one user. */
  lemma MutualExclusion(acts: seq<Act>, writersFirst: bool, t: nat, k: nat)
    ensures var threads := Play(acts, writersFirst).threads;
            (t < |threads| && k < |threads| && MutexHeld(threads[t].pc).Some?
              && MutexHeld(threads[t].pc) == MutexHeld(threads[k].pc)) ==> t == k
  {
    LocksAlwaysInOrder(acts, writersFirst);
  }

  /** Under every schedule a thread that waits for the list, or is at rest, holds no lock at all. */
  lemma WaitsEmptyHanded(acts: seq<Act>, writersFirst: bool, t: nat)
    ensures var s := Play(acts, writersFirst);
            (t < |s.threads| && (WantsList(s.threads[t].pc) || Resting(s.threads[t].pc))) ==>
              && t !in s.readers && s.writer != Some(t)
              && forall i | 0 <= i < |s.owners| :: s.owners[i] != Some(t)
  {
    LocksAlwaysInOrder(acts, writersFirst);
  }

  /** Whatever the lock's preference: while some request is unfinished, some thread can move. */
  lemma NobodyStuck(s: State, t: nat, writersFirst: bool) returns (k: nat)
    requires LocksInOrder(s) && t < |s.threads| && !Resting(s.threads[t].pc)
    ensures CanMove(s, k, writersFirst)
  {
    if m: nat :| m < |s.threads| && s.threads[m].pc.WantMutex? {
      // Either the mutex is free, or its owner is past all waiting.
      var i := s.threads[m].pc.i;
      k := if s.owners[i].None? then m else s.owners[i].value;
    } else if m: nat :| m < |s.threads| && (ReadHeld(s.threads[m].pc) || s.threads[m].pc.Writing?) {
      k := m;
    } else {
      // Nobody is inside the list lock, so it is free.
      assert s.readers == {};
      assert s.writer.None?;
      if w: nat :| w < |s.threads| && s.threads[w].pc.WantWrite? {
        k := w;
      } else {
        k := t;
      }
    }
  }

  /** How many steps a thread may still take before it rests. */
  function Rank(pc: Pc): nat {
    match pc
    case Idle => 0
    case Done => 0
    case Leaving(_, _) => 1
    case Asking(_, _, sends) => 2 + sends
    case Serving(_, _, _) => 8
    case Locked(_, _, _) => 9
    case WantMutex(_, _, _) => 10
    case Writing(_) => 1
    case WantWrite(_) => 2
    case Missing(_, again) => if again then 3 else 13
    case NotFound(_, again) => if again then 4 else 14
    case Searching(_, again) => if again then 11 else 15
    case WantRead(_, again) => if again then 12 else 16
    case Scanning(_) => 17
    case WantScan(_) => 18
  }

  function Total(threads: seq<Thread>): nat {
    if threads == [] then 0 else Rank(threads[0].pc) + Total(threads[1..])
  }

  lemma {:induction false} TotalAfter(threads: seq<Thread>, t: nat, th: Thread)
    requires t < |threads|
    ensures Total(threads[t := th]) == Total(threads) - Rank(threads[t].pc) + Rank(th.pc)
  {
    if t == 0 {
      assert threads[t := th][1..] == threads[1..];
    } else {
      assert threads[t := th][1..] == threads[1..][t - 1 := th];
      TotalAfter(threads[1..], t - 1, th);
    }
  }

  /** A request takes a thread at most eighteen steps, the six waits for a device included. */
  lemma {:induction false} TotalBound(threads: seq<Thread>)
    requires forall t | 0 <= t < |threads| && threads[t].pc.Asking? :: threads[t].pc.sends <= 5
    ensures Total(threads) <= 18 * |threads|
  {
    if threads != [] {
      TotalBound(threads[1..]);
    }
  }

  lemma ServeRank(u: User, th: Thread, job: Job, again: bool, i: nat)
    ensures Rank(Serve(u, th, job, again, i).1.pc) <= 7
  {
  }

  lemma ServingDescends(s: State, t: nat, luck: Luck, writersFirst: bool)
    requires LocksInOrder(s) && CanMove(s, t, writersFirst) && s.threads[t].pc.Serving?
    ensures var z := Move(s, t, luck, writersFirst);
            && |z.threads| == |s.threads|
            && z.threads == s.threads[t := z.threads[t]]
            && Rank(z.threads[t].pc) < Rank(s.threads[t].pc)
  {
    var pc := s.threads[t].pc;
    ServeRank(s.users[pc.i], s.threads[t], pc.job, pc.again, pc.i);
  }

  lemma AskingDescends(s: State, t: nat, luck: Luck, writersFirst: bool)
    requires CanMove(s, t, writersFirst) && s.threads[t].pc.Asking?
    ensures var z := Move(s, t, luck, writersFirst);
            && |z.threads| == |s.threads|
            && z.threads == s.threads[t := z.threads[t]]
            && Rank(z.threads[t].pc) < Rank(s.threads[t].pc)
  {
  }

  lemma UserMoveDescends(s: State, t: nat, luck: Luck, writersFirst: bool)
    requires LocksInOrder(s) && CanMove(s, t, writersFirst)
    requires MutexHeld(s.threads[t].pc).Some? || s.threads[t].pc.WantMutex?
    ensures var z := Move(s, t, luck, writersFirst);
            && |z.threads| == |s.threads|
            && z.threads == s.threads[t := z.threads[t]]
            && Rank(z.threads[t].pc) < Rank(s.threads[t].pc)
  {
    if s.threads[t].pc.Serving? {
      ServingDescends(s, t, luck, writersFirst);
    } else if s.threads[t].pc.Asking? {
      AskingDescends(s, t, luck, writersFirst);
    }
  }

  lemma ListMoveDescends(s: State, t: nat, luck: Luck, writersFirst: bool)
    requires CanMove(s, t, writersFirst)
    requires MutexHeld(s.threads[t].pc).None? && !s.threads[t].pc.WantMutex?
    ensures var z := Move(s, t, luck, writersFirst);
            && |z.threads| == |s.threads|
            && z.threads == s.threads[t := z.threads[t]]
            && Rank(z.threads[t].pc) < Rank(s.threads[t].pc)
  {
  }

  lemma MoveDescends(s: State, t: nat, luck: Luck, writersFirst: bool)
    requires LocksInOrder(s) && CanMove(s, t, writersFirst)
    ensures var z := Move(s, t, luck, writersFirst);
            && |z.threads| == |s.threads|
            && z.threads == s.threads[t := z.threads[t]]
            && Rank(z.threads[t].pc) < Rank(s.threads[t].pc)
  {
    var pc := s.threads[t].pc;
    if MutexHeld(pc).Some? || pc.WantMutex? {
      UserMoveDescends(s, t, luck, writersFirst);
    } else {
      ListMoveDescends(s, t, luck, writersFirst);
    }
  }

  /** The steps listed can be taken one after the other. */
  ghost predicate Able(s: State, goes: seq<(nat, Luck)>, writersFirst: bool)
    decreases |goes|
  {
    goes != [] ==>
      CanMove(s, goes[0].0, writersFirst) && Able(Move(s, goes[0].0, goes[0].1, writersFirst), goes[1..], writersFirst)
  }

  ghost function Onward(s: State, goes: seq<(nat, Luck)>, writersFirst: bool): State
    requires Able(s, goes, writersFirst)
    decreases |goes|
  {
    if goes == [] then s else Onward(Move(s, goes[0].0, goes[0].1, writersFirst), goes[1..], writersFirst)
  }

  /** No schedule keeps the threads busy for longer than their ranks add up to, if no new work arrives. */
  lemma {:induction false} WorkEnds(s: State, goes: seq<(nat, Luck)>, writersFirst: bool)
    requires LocksInOrder(s) && Able(s, goes, writersFirst)
    ensures |goes| + Total(Onward(s, goes, writersFirst).threads) <= Total(s.threads)
    decreases |goes|
  {
    if goes != [] {
      var (t, luck) := goes[0];
      var z := Move(s, t, luck, writersFirst);
      MoveKeepsLocks(s, t, luck, writersFirst);
      MoveDescends(s, t, luck, writersFirst);
      TotalAfter(s.threads, t, z.threads[t]);
      WorkEnds(z, goes[1..], writersFirst);
    }
  }

  ghost predicate AllRest(s: State) {
    forall t | 0 <= t < |s.threads| :: Resting(s.threads[t].pc)
  }

  /** From any state in order, all requests can be finished, whatever the devices answer. */
  lemma {:induction false} AllCanFinish(s: State, luck: Luck, writersFirst: bool) returns (goes: seq<(nat, Luck)>)
    requires LocksInOrder(s)
    ensures Able(s, goes, writersFirst) && AllRest(Onward(s, goes, writersFirst))
    decreases Total(s.threads)
  {
    if t: nat :| t < |s.threads| && !Resting(s.threads[t].pc) {
      var k := NobodyStuck(s, t, writersFirst);
      var z := Move(s, k, luck, writersFirst);
      MoveKeepsLocks(s, k, luck, writersFirst);
      MoveDescends(s, k, luck, writersFirst);
      TotalAfter(s.threads, k, z.threads[k]);
      var rest := AllCanFinish(z, luck, writersFirst);
      goes := [(k, luck)] + rest;
      assert goes[1..] == rest;
    } else {
      goes := [];
    }
  }

  ghost predicate AllFree(s: State) {
    s.readers == {} && s.writer.None? && forall i | 0 <= i < |s.owners| :: s.owners[i].None?
  }

  /** When all threads rest, every lock is free. */
  lemma RestFreesLocks(s: State)
    requires LocksInOrder(s) && AllRest(s)
    ensures AllFree(s)
  {
    assert forall t | t in s.readers :: t < |s.threads| && ReadHeld(s.threads[t].pc);
  }

  lemma {:induction false} OnwardKeepsLocks(s: State, goes: seq<(nat, Luck)>, writersFirst: bool)
    requires LocksInOrder(s) && Able(s, goes, writersFirst)
    ensures LocksInOrder(Onward(s, goes, writersFirst))
    decreases |goes|
  {
    if goes != [] {
      MoveKeepsLocks(s, goes[0].0, goes[0].1, writersFirst);
      OnwardKeepsLocks(Move(s, goes[0].0, goes[0].1, writersFirst), goes[1..], writersFirst);
    }
  }

  /** No deadlock: whatever has happened, all requests can still be finished, and then every lock is free. */
  lemma NoDeadlock(acts: seq<Act>, luck: Luck, writersFirst: bool) returns (goes: seq<(nat, Luck)>)
    ensures Able(Play(acts, writersFirst), goes, writersFirst)
    ensures var z := Onward(Play(acts, writersFirst), goes, writersFirst); AllRest(z) && AllFree(z)
  {
    var s := Play(acts, writersFirst);
    LocksAlwaysInOrder(acts, writersFirst);
    goes := AllCanFinish(s, luck, writersFirst);
    OnwardKeepsLocks(s, goes, writersFirst);
    RestFreesLocks(Onward(s, goes, writersFirst));
  }

  /** Whatever has happened, if no step is possible then all requests are finished and every lock is free. */
  lemma StuckMeansDone(acts: seq<Act>, writersFirst: bool)
    ensures var s := Play(acts, writersFirst);
            (forall k: nat :: !CanMove(s, k, writersFirst)) ==> AllRest(s) && AllFree(s)
  {
    var s := Play(acts, writersFirst);
    LocksAlwaysInOrder(acts, writersFirst);
    if t: nat :| t < |s.threads| && !Resting(s.threads[t].pc) {
      var k := NobodyStuck(s, t, writersFirst);
    } else {
      RestFreesLocks(s);
    }
  }
}
