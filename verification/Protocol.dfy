/** What each request does to the Authentication Server, as functions on its state. */
module Protocol {
  import opened Options
  import opened Text
  import opened Assoc
  import Decimal

  datatype User = User(
    uid: string, pw: string, pdip: string, pdport: string, isOn: bool, isLogged: bool,
    tids: Entries,  // tid -> fop
    rids: Entries,  // rid -> vc
    r2t: Entries)   // rid -> tid

  /** The users in list order and the next identifiers to issue. */
  datatype Server = Server(users: seq<User>, newTID: string, newVC: string)

  function Start(): Server {
    Server([], Decimal.Incr(Decimal.Number(0, Decimal.TID_LENGTH)), Decimal.Number(0, Decimal.TID_LENGTH))
  }

  /** A datagram: the fields `sscanf` filled and, separately, the number of words `getWords` counted. */
  datatype Datagram = Datagram(words: nat, op: Word, uid: Word, pw: Word, pdip: Word, pdport: Word)

  /** A line on a TCP session; `pw` holds the RID of REQ and AUT, `vc` holds the Fop of REQ. */
  datatype Message = Message(words: nat, op: Word, uid: Word, pw: Word, vc: Word, fname: Word)

  /** The fields that `sscanf` fills hold the words of the line; the others hold anything. */
  predicate Reads(m: Message, line: string) {
    var ts := Tokens(line);
    && m.words == WordCount(line)
    && (|ts| > 0 ==> m.op == ts[0]) && (|ts| > 1 ==> m.uid == ts[1]) && (|ts| > 2 ==> m.pw == ts[2])
    && (|ts| > 3 ==> m.vc == ts[3]) && (|ts| > 4 ==> m.fname == ts[4])
  }

  predicate ReadsDatagram(d: Datagram, line: string) {
    var ts := Tokens(line);
    && d.words == WordCount(line)
    && (|ts| > 0 ==> d.op == ts[0]) && (|ts| > 1 ==> d.uid == ts[1]) && (|ts| > 2 ==> d.pw == ts[2])
    && (|ts| > 3 ==> d.pdip == ts[3]) && (|ts| > 4 ==> d.pdport == ts[4])
  }

  datatype Reply =
    | RrgOk | RrgNok
    | RunOk | RunNok
    | Cnf(uid: string, tid: string, fop: string)
    | RloOk | RloNok
    | RrqOk | RrqEuser | RrqElog | RrqEpd | RrqEfop | RrqErr
    | Rau(tid: string)
    | Err
    | Silence  // an empty message

  /** The text that `sprintf` leaves in the reply buffer. */
  function Print(r: Reply): string {
    match r
    case RrgOk => "RRG OK\n"
    case RrgNok => "RRG NOK\n"
    case RunOk => "RUN OK\n"
    case RunNok => "RUN NOK\n"
    case Cnf(uid, tid, fop) => "CNF " + uid + " " + tid + " " + fop + "\n"
    case RloOk => "RLO OK\n"
    case RloNok => "RLO NOK\n"
    case RrqOk => "RRQ OK\n"
    case RrqEuser => "RRQ EUSER\n"
    case RrqElog => "RRQ ELOG\n"
    case RrqEpd => "RRQ EPD\n"
    case RrqEfop => "RRQ EFOP\n"
    case RrqErr => "RRQ ERR\n"
    case Rau(tid) => "RAU " + tid + "\n"
    case Err => "ERR\n"
    case Silence => ""
  }

  // ---------- the users list ----------

  /** Position of the first user with the uid; the length of the list when there is none. */
  function Find(users: seq<User>, uid: string): (i: nat)
    ensures i <= |users|
    ensures forall j | 0 <= j < i :: users[j].uid != uid
    ensures i < |users| ==> users[i].uid == uid
  {
    if users == [] || users[0].uid == uid then 0 else 1 + Find(users[1..], uid)
  }

  predicate Known(a: Server, uid: string) {
    Find(a.users, uid) < |a.users|
  }

  function UserOf(a: Server, uid: string): (u: User)
    requires Known(a, uid)
    ensures u.uid == uid
  {
    a.users[Find(a.users, uid)]
  }

  function SetUser(a: Server, i: nat, u: User): Server
    requires i < |a.users|
  {
    a.(users := a.users[i := u])
  }

  predicate AddressTaken(users: seq<User>, pdip: string, pdport: string) {
    exists i | 0 <= i < |users| :: users[i].pdip == pdip && users[i].pdport == pdport
  }

  // ---------- requests over UDP ----------

  function NewUser(uid: string, pw: string, pdip: string, pdport: string): User {
    User(uid, pw, pdip, pdport, true, false, [], [], [])
  }

  function Register(u: User, pdip: string, pdport: string): User {
    u.(pdip := pdip, pdport := pdport, isOn := true)
  }

  function Unregister(u: User): User {
    u.(pdip := "", pdport := "", isOn := false)
  }

  function Reg(a: Server, uid: string, pw: string, pdip: string, pdport: string): (Server, Reply) {
    if AddressTaken(a.users, pdip, pdport) || !ValidUid(uid) || !ValidPass(pw) then (a, RrgNok) else
      var i := Find(a.users, uid);
      if i == |a.users| then
        (a.(users := a.users + [NewUser(uid, pw, pdip, pdport)]), RrgOk)
      else if !a.users[i].isOn && a.users[i].pw == pw then
        (SetUser(a, i, Register(a.users[i], pdip, pdport)), RrgOk)
      else (a, RrgNok)
  }

  function Unr(a: Server, uid: string, pw: string): (Server, Reply) {
    var i := Find(a.users, uid);
    if i == |a.users| then (a, RunNok)
    else if a.users[i].pw == pw then (SetUser(a, i, Unregister(a.users[i])), RunOk)
    else (a, Silence)
  }

  /** A confirmed X logs the user out; a confirmed TID that is not the oldest stored one drops the oldest. */
  function Confirm(u: User, tid: string, fop: string): User {
    u.(isLogged := u.isLogged && fop != "X",
       tids := if u.tids != [] && u.tids[0].0 != tid then Remove(u.tids, u.tids[0].0) else u.tids)
  }

  function Vld(a: Server, uid: string, tid: string): (Server, Reply) {
    var i := Find(a.users, uid);
    if i < |a.users| && Get(a.users[i].tids, tid).Some? then
      var fop := Get(a.users[i].tids, tid).value;
      (SetUser(a, i, Confirm(a.users[i], tid, fop)), Cnf(uid, tid, fop))
    else (a, Cnf(uid, tid, "E"))
  }

  function DoUdp(a: Server, m: Datagram): (Server, Reply) {
    if m.words == 5 && m.op == "REG" then Reg(a, m.uid, m.pw, m.pdip, m.pdport)
    else if m.words == 3 && m.op == "UNR" then Unr(a, m.uid, m.pw)
    else if m.words == 3 && m.op == "VLD" then Vld(a, m.uid, m.pw)
    else (a, Err)
  }

  // ---------- requests over TCP ----------

  /** What is stored under a TID: the operation letter, and the file name if the operation takes one. */
  function FopText(fop: string, fname: Option<string>): string {
    if fname.None? then fop else fop + " " + fname.value
  }

  /** The message to the PD. */
  function Vlc(uid: string, vc: string, fop: string, fname: Option<string>): string {
    "VLC " + uid + " " + vc + " " + FopText(fop, fname) + "\n"
  }

  /** What the exchange with the PD brings: the first thing heard. */
  function FirstHeard(heard: seq<Option<string>>): Option<string> {
    if heard == [] then None else if heard[0].Some? then heard[0] else FirstHeard(heard[1..])
  }

  /** Nothing was heard before the k-th wait, and it was the last, or brought something. */
  lemma {:induction false} FirstHeardIs(heard: seq<Option<string>>, k: nat)
    requires k < |heard| && (forall j | 0 <= j < k :: heard[j].None?) && (heard[k].Some? || k + 1 == |heard|)
    ensures FirstHeard(heard) == heard[k]
  {
    if k > 0 {
      FirstHeardIs(heard[1..], k - 1);
    }
  }

  /** The PD's answer counts only if it arrived and reads `RVC <anything> OK`. */
  predicate Accepted(answer: Option<string>) {
    answer.Some? && WordCount(answer.value) == 3 && Field(answer.value, 0) == "RVC" && Field(answer.value, 2) == "OK"
  }

  /** Forgets the oldest pending request and the oldest TID. */
  function Forget(u: User): User {
    if u.rids == [] then
      u.(tids := if u.tids == [] then [] else Remove(u.tids, u.tids[0].0))
    else
      u.(rids := Remove(u.rids, u.rids[0].0),
         r2t := Remove(u.r2t, u.rids[0].0),
         tids := if u.tids == [] then [] else Remove(u.tids, u.tids[0].0))
  }

  function Record(u: User, rid: string, vc: string, tid: string, text: string): User {
    u.(rids := Put(u.rids, rid, vc), tids := Put(u.tids, tid, text), r2t := Put(u.r2t, rid, tid))
  }

  /** A validated request replaces the one before it. */
  function Pend(u: User, rid: string, vc: string, tid: string, text: string): User {
    Record(Forget(u), rid, vc, tid, text)
  }

  function NextTID(tid: string): string {
    var t := Decimal.Incr(tid);
    if t == "0000" then Decimal.Incr(t) else t
  }

  function SendValidationCode(a: Server, i: nat, rid: string, fop: string, fname: Option<string>,
                              answer: Option<string>): (Server, bool)
    requires i < |a.users|
  {
    if a.users[i].isOn && Accepted(answer) then
      (Server(a.users[i := Pend(a.users[i], rid, a.newVC, a.newTID, FopText(fop, fname))],
              NextTID(a.newTID), Decimal.Incr(a.newVC)), true)
    else (a, false)
  }

  function Log(a: Server, userID: string, uid: string, pw: string): (Server, string, Reply) {
    var i := Find(a.users, uid);
    if i < |a.users| && !a.users[i].isLogged && a.users[i].pw == pw then
      (SetUser(a, i, a.users[i].(isLogged := true)), uid, RloOk)
    else (a, userID, RloNok)
  }

  /** The file name of a request: only R, U and D, in a message of five words, carry one. */
  function Named(m: Message): Option<string> {
    if m.words == 5 then Some(m.fname) else None
  }

  predicate WellFormed(m: Message) {
    || (m.words == 4 && (m.vc == "L" || m.vc == "X"))
    || (m.words == 5 && (m.vc == "R" || m.vc == "U" || m.vc == "D"))
  }

  function Req(a: Server, userID: string, m: Message, answer: Option<string>): (Server, Reply) {
    var i := Find(a.users, m.uid);
    if i == |a.users| then (a, RrqEuser)
    else if !a.users[i].isLogged then (a, RrqElog)
    else if userID != m.uid then (a, RrqEuser)
    else if WellFormed(m) then
      var (b, ok) := SendValidationCode(a, i, m.pw, m.vc, Named(m), answer);
      (b, if ok then RrqOk else RrqEpd)
    else if m.words == 4 || m.words == 5 then (a, RrqEfop)
    else (a, RrqErr)
  }

  /** `get` may return NULL, which `%s` prints as (null). */
  function PrintedString(s: Option<string>): string {
    if s.Some? then s.value else "(null)"
  }

  function Settle(u: User, rid: string): User {
    u.(rids := Remove(u.rids, rid), r2t := Remove(u.r2t, rid))
  }

  function Aut(a: Server, uid: string, rid: string, vc: string): (Server, Reply) {
    var i := Find(a.users, uid);
    if i < |a.users| && Get(a.users[i].rids, rid) == Some(vc) then
      (SetUser(a, i, Settle(a.users[i], rid)), Rau(PrintedString(Get(a.users[i].r2t, rid))))
    else (a, Rau("0000"))
  }

  function DoTcp(a: Server, userID: string, m: Message, answer: Option<string>): (Server, string, Reply) {
    if m.words == 3 && m.op == "LOG" then Log(a, userID, m.uid, m.pw)
    else if m.op == "REQ" then
      var (b, reply) := Req(a, userID, m, answer);
      (b, userID, reply)
    else if m.words == 4 && m.op == "AUT" then
      var (b, reply) := Aut(a, m.uid, m.pw, m.vc);
      (b, userID, reply)
    else (a, userID, Err)
  }

  /** The peer closed the session. */
  function Hangup(a: Server, userID: string): Server {
    var i := Find(a.users, userID);
    if i < |a.users| then SetUser(a, i, a.users[i].(isLogged := false)) else a
  }

  // ---------- basic facts ----------

  /** An update that keeps the uid moves no user. */
  lemma {:induction false} FindAfterUpdate(users: seq<User>, i: nat, u: User, uid: string)
    requires i < |users| && u.uid == users[i].uid
    ensures Find(users[i := u], uid) == Find(users, uid)
  {
    if users[0].uid != uid {
      if i == 0 {
        assert users[i := u][1..] == users[1..];
      } else {
        assert users[i := u][1..] == users[1..][i - 1 := u];
        FindAfterUpdate(users[1..], i - 1, u, uid);
      }
    }
  }

  lemma {:induction false} FindAfterAppend(users: seq<User>, u: User, uid: string)
    ensures Find(users + [u], uid)
         == if Find(users, uid) < |users| then Find(users, uid)
            else if u.uid == uid then |users| else |users| + 1
  {
    if users == [] {
      assert (users + [u])[1..] == [];
    } else if users[0].uid != uid {
      assert (users + [u])[1..] == users[1..] + [u];
      FindAfterAppend(users[1..], u, uid);
    }
  }

  function FopWords(fop: string, fname: Option<string>): seq<string> {
    if fname.None? then [fop] else [fop, fname.value]
  }

  /** A printed message that ends in a request is a line of words. */
  lemma RequestLine(a: string, b: string, c: string, fop: string, fname: Option<string>)
    ensures a + " " + b + " " + c + " " + FopText(fop, fname) + "\n" == Line([a, b, c] + FopWords(fop, fname))
  {
    LineOfFour(a, b, c, FopWords(fop, fname));
    if fname.Some? {
      LineCons(fop, [fname.value]);
      assert FopWords(fop, fname) == [fop] + [fname.value];
      assert fop + " " + (fname.value + "\n") == FopText(fop, fname) + "\n";
    }
  }

  // ---------- the shape of a user's maps ----------

  /** At most one TID; at most one pending request, under the same RID in both of its maps. */
  ghost predicate Slim(u: User) {
    && |u.tids| <= 1
    && |u.rids| == |u.r2t| <= 1
    && (u.rids != [] ==> u.rids[0].0 == u.r2t[0].0)
  }

  lemma GetOnly(c: Entries, key: string)
    requires |c| == 1
    ensures Get(c, key) == if c[0].0 == key then Some(c[0].1) else None
    ensures Remove(c, key) == if c[0].0 == key then [] else c
  {
    assert c[1..] == [];
  }

  /** A new request replaces whatever was pending. */
  lemma PendReplaces(u: User, rid: string, vc: string, tid: string, text: string)
    requires Slim(u)
    ensures Pend(u, rid, vc, tid, text) == u.(tids := [(tid, text)], rids := [(rid, vc)], r2t := [(rid, tid)])
  {
    if u.rids != [] {
      GetOnly(u.rids, u.rids[0].0);
      GetOnly(u.r2t, u.rids[0].0);
    }
    if u.tids != [] {
      GetOnly(u.tids, u.tids[0].0);
    }
  }

  /** A matching AUT finds a TID and empties both maps of pending requests; any other changes nothing. */
  lemma AutSettles(a: Server, uid: string, rid: string, vc: string)
    requires forall i | 0 <= i < |a.users| :: Slim(a.users[i])
    ensures var i := Find(a.users, uid);
            Aut(a, uid, rid, vc) ==
            if i < |a.users| && a.users[i].rids == [(rid, vc)] then
              (SetUser(a, i, a.users[i].(rids := [], r2t := [])),
               Rau(assert Slim(a.users[i]); a.users[i].r2t[0].1))
            else (a, Rau("0000"))
  {
    var i := Find(a.users, uid);
    if i < |a.users| {
      var u := a.users[i];
      if u.rids != [] {
        assert Slim(u);
        GetOnly(u.rids, rid);
        GetOnly(u.r2t, rid);
        if u.rids == [(rid, vc)] {
        } else {
          assert u.rids == [(u.rids[0].0, u.rids[0].1)];
        }
      }
    }
  }

  /** The branch that drops the oldest TID never runs. */
  lemma VldKeepsTids(a: Server, uid: string, tid: string)
    requires forall i | 0 <= i < |a.users| :: Slim(a.users[i])
    ensures var i := Find(a.users, uid);
            Vld(a, uid, tid) ==
            if i < |a.users| && a.users[i].tids != [] && a.users[i].tids[0].0 == tid then
              (SetUser(a, i, a.users[i].(isLogged := a.users[i].isLogged && a.users[i].tids[0].1 != "X")),
               Cnf(uid, tid, a.users[i].tids[0].1))
            else (a, Cnf(uid, tid, "E"))
  {
    var i := Find(a.users, uid);
    if i < |a.users| && a.users[i].tids != [] {
      assert Slim(a.users[i]);
      GetOnly(a.users[i].tids, tid);
    }
  }

  /** No key is ever stored twice, so a user's maps behave as finite maps; a new request leaves one entry in each. */
  lemma MapsAreMaps(u: User, rid: string, vc: string, tid: string, text: string)
    requires Slim(u)
    ensures Distinct(u.tids) && Distinct(u.rids) && Distinct(u.r2t)
    ensures var v := Pend(u, rid, vc, tid, text);
            AsMap(v.rids) == map[rid := vc] && AsMap(v.r2t) == map[rid := tid] && AsMap(v.tids) == map[tid := text]
  {
    PendReplaces(u, rid, vc, tid, text);
    forall c: Entries | |c| == 1 ensures Distinct(c) && AsMap(c) == map[c[0].0 := c[0].1] {
      assert c[1..] == [];
    }
  }
}
