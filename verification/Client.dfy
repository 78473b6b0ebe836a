/** The client's conversation with the Authentication Server, on the wire: what it prints and what it reads. */
module Client {
  import opened Options
  import opened Text
  import opened Protocol
  import opened Identifiers
  import opened Runs
  import opened Guarantees
  import opened Sessions
  import opened Registrations
  import opened Replies
  import Decimal

  // ---------- replies on the wire ----------

  /** The words of each reply. */
  function ReplyWords(reply: Reply): seq<string> {
    match reply
    case RrgOk => ["RRG", "OK"]
    case RrgNok => ["RRG", "NOK"]
    case RunOk => ["RUN", "OK"]
    case RunNok => ["RUN", "NOK"]
    case Cnf(uid, tid, fop) => ["CNF", uid, tid, fop]
    case RloOk => ["RLO", "OK"]
    case RloNok => ["RLO", "NOK"]
    case RrqOk => ["RRQ", "OK"]
    case RrqEuser => ["RRQ", "EUSER"]
    case RrqElog => ["RRQ", "ELOG"]
    case RrqEpd => ["RRQ", "EPD"]
    case RrqEfop => ["RRQ", "EFOP"]
    case RrqErr => ["RRQ", "ERR"]
    case Rau(tid) => ["RAU", tid]
    case Err => ["ERR"]
    case Silence => []
  }

  lemma TwoWords(a: string, b: string, text: string)
    requires IsWord(a) && IsWord(b) && text == a + " " + b + "\n"
    ensures Tokens(text) == [a, b]
  {
    LineCons(a, [b]);
    assert [a] + [b] == [a, b];
    ScanOfLine([a, b]);
    assert a + " " + b + "\n" == a + " " + (b + "\n");
  }

  /** What is printed for a reply reads as its words. */
  lemma RegistrationPrinted(reply: Reply)
    requires reply in {RrgOk, RrgNok, RunOk, RunNok, RloOk, RloNok}
    ensures Tokens(Print(reply)) == ReplyWords(reply)
  {
    TwoWords(ReplyWords(reply)[0], ReplyWords(reply)[1], Print(reply));
  }

  lemma RequestPrinted(reply: Reply)
    requires reply in {RrqOk, RrqEuser, RrqElog, RrqEpd, RrqEfop, RrqErr}
    ensures Tokens(Print(reply)) == ReplyWords(reply)
  {
    TwoWords("RRQ", ReplyWords(reply)[1], Print(reply));
  }

  lemma TidPrinted(tid: Word)
    ensures Tokens(Print(Rau(tid))) == ["RAU", tid]
  {
    TwoWords("RAU", tid, Print(Rau(tid)));
  }

  lemma ErrorPrinted()
    ensures Tokens(Print(Err)) == ["ERR"]
  {
    assert Line(["ERR"]) == "ERR\n";
    ScanOfLine(["ERR"]);
  }

  // ---------- what the server reads ----------

  ghost predicate Printable(ws: seq<string>) {
    forall w | w in ws :: IsGraphWord(w)
  }

  lemma LineIsRead(ws: seq<string>)
    requires ws != [] && Printable(ws)
    ensures WordCount(Line(ws)) == |ws| && Tokens(Line(ws)) == ws
  {
    DispatchOfLine(ws);
    forall w | w in ws ensures IsWord(w) { GraphIsWord(w); }
    ScanOfLine(ws);
  }

  lemma FourWords(a: string, b: string, c: string, d: string)
    ensures a + " " + b + " " + c + " " + d + "\n" == Line([a, b, c, d])
  {
    LineOfFour(a, b, c, [d]);
    assert [a, b, c] + [d] == [a, b, c, d] && Line([d]) == d + "\n";
  }

  lemma FiveWords(a: string, b: string, c: string, d: string, e: string)
    ensures a + " " + b + " " + c + " " + d + " " + e + "\n" == Line([a, b, c, d, e])
  {
    LineCons(d, [e]);
    LineOfFour(a, b, c, [d, e]);
    assert [a, b, c] + [d, e] == [a, b, c, d, e] && [d] + [e] == [d, e] && Line([e]) == e + "\n";
    var head := a + " " + b + " " + c + " ";
    assert head + d + " " + e + "\n" == head + (d + " " + (e + "\n"));
  }

  // ---------- the client ----------

  method PrintRequest(uid: string, rid: string, fop: string, fname: string) returns (line: string)
    ensures line == if fop in {"R", "U", "D"} then Line(["REQ", uid, rid, fop, fname]) else Line(["REQ", uid, rid, fop])
  {
    if fop == "R" || fop == "U" || fop == "D" {
      line := "REQ " + uid + " " + rid + " " + fop + " " + fname + "\n";
      assert "REQ " == "REQ" + " ";
      FiveWords("REQ", uid, rid, fop, fname);
    } else {
      line := "REQ " + uid + " " + rid + " " + fop + "\n";
      assert "REQ " == "REQ" + " ";
      FourWords("REQ", uid, rid, fop);
    }
  }

  /** The client of the Authentication Server: what it keeps between its commands. */
  class Terminal {
    var uid: string
    var pass: string
    var tid: string
    const requestID: array<char>

    constructor ()
      ensures uid == pass == tid == "" && requestID.Length == 4 && fresh(requestID)
    {
      uid, pass, tid := "", "", "";
      requestID := new char[4](_ => '0');
    }

    method Login(uid: string, pass: string) returns (line: string)
      modifies this
      ensures this.uid == uid && this.pass == pass && tid == old(tid)
      ensures line == Line(["LOG", uid, pass])
    {
      this.uid, this.pass := uid, pass;
      line := "LOG " + uid + " " + pass + "\n";
      LineOfThree("LOG", uid, pass);
    }

    method LoginAnswered(reply: string) returns (ok: bool)
      modifies this
      ensures ok <==> reply == "RLO OK\n"
      ensures tid == old(tid) && if ok then uid == old(uid) && pass == old(pass) else uid == pass == ""
    {
      ok := reply == "RLO OK\n";
      if !ok {
        uid, pass := "", "";
      }
    }

    /** A request number is written over the one before. */
    method Request(fop: string, fname: string, number: nat) returns (line: string)
      modifies requestID
      ensures requestID[..] == Decimal.Overwrite(old(requestID[..]), Decimal.Plain(number))
      ensures line == if fop in {"R", "U", "D"} then Line(["REQ", uid, requestID[..], fop, fname])
                      else Line(["REQ", uid, requestID[..], fop])
    {
      Decimal.IntegerToChar(number, requestID);
      line := PrintRequest(uid, requestID[..], fop, fname);
    }

    method RequestAnswered(reply: string) returns (ok: bool)
      ensures ok <==> reply == "RRQ OK\n"
    {
      ok := reply == "RRQ OK\n";
    }

    method Authenticate(vc: string) returns (line: string)
      ensures line == Line(["AUT", uid, requestID[..], vc])
    {
      line := "AUT " + uid + " " + requestID[..] + " " + vc + "\n";
      FourWords("AUT", uid, requestID[..], vc);
    }

    /** The second word of the reply, if there is one, is taken for the TID; it counts if it is a number but zero. */
    method AuthAnswered(reply: string) returns (ok: bool)
      modifies this
      ensures tid == (if |Tokens(reply)| > 1 then Tokens(reply)[1] else old(tid))
      ensures uid == old(uid) && pass == old(pass)
      ensures ok <==> Decimal.ScanInt(tid).1 != 0
    {
      if |Tokens(reply)| > 1 {
        tid := Tokens(reply)[1];
      }
      ok := Decimal.ScanInt(tid).1 != 0;
    }
  }

  // ---------- what the client concludes ----------

  /** The text of the server's reply to a line on a session. */
  function Heard(r: Run, conn: nat, m: Message, lost: bool): string {
    Print(Step(After(r), Tcp(conn, m, lost)).1)
  }

  lemma HeardIsExpected(r: Run, conn: nat, m: Message, lost: bool)
    requires Legit(r)
    ensures Heard(r, conn, m, lost) == Print(Expected(r, Tcp(conn, m, lost)))
  {
    RepliesExactly(r, Tcp(conn, m, lost));
  }

  lemma LoginText(r: Run, conn: nat, m: Message, lost: bool, uid: string, pass: string)
    requires m.op == "LOG" && m.words == 3 && m.uid == uid && m.pw == pass
    ensures Print(Expected(r, Tcp(conn, m, lost))) == "RLO OK\n"
       <==> Password(r, uid) == Some(pass) && OpenLogin(r, uid) == None
  {
  }

  /** The client takes itself to be logged in exactly if the password is right and the user had no open login. */
  lemma LoginHeard(r: Run, conn: nat, m: Message, lost: bool, uid: string, pass: string)
    requires Legit(r) && Reads(m, Line(["LOG", uid, pass])) && Printable(["LOG", uid, pass])
    ensures Heard(r, conn, m, lost) == "RLO OK\n" <==> Password(r, uid) == Some(pass) && OpenLogin(r, uid) == None
  {
    LineIsRead(["LOG", uid, pass]);
    LoginText(r, conn, m, lost, uid, pass);
    HeardIsExpected(r, conn, m, lost);
  }

  lemma RequestText(r: Run, conn: nat, m: Message, lost: bool)
    requires m.op == "REQ"
    ensures Print(Expected(r, Tcp(conn, m, lost))) == "RRQ OK\n" <==> HasAll(r, conn, m, lost)
  {
    AllGivesOk(r, conn, m, lost);
  }

  /** The client takes its request to be granted exactly if it has all that it needs. */
  lemma RequestHeard(r: Run, conn: nat, m: Message, lost: bool)
    requires Legit(r) && m.op == "REQ"
    ensures Heard(r, conn, m, lost) == "RRQ OK\n" <==> HasAll(r, conn, m, lost)
  {
    RequestText(r, conn, m, lost);
    HeardIsExpected(r, conn, m, lost);
  }

  lemma DigitsScan(s: string)
    requires s != [] && Decimal.Digits(s)
    ensures Decimal.ScanInt(s) == (true, Decimal.Value(s))
  {
    assert s[0] in s && Digit(s[0]);
    assert Skip(s) == s;
    Decimal.LeadDigitsOf(s, "");
    assert s + "" == s;
  }

  lemma TidValue(n: nat)
    ensures Decimal.Value(TidOf(n)) == n % 9999 + 1
  {
    FourDigits();
    Decimal.ValueOfNumber(n % 9999 + 1, 4);
  }

  lemma TidIsRead(n: nat)
    ensures IsWord(TidOf(n)) && Decimal.ScanInt(TidOf(n)).1 != 0
  {
    TidNeverZero(n);
    DigitsAreWords(TidOf(n));
    DigitsScan(TidOf(n));
    TidValue(n);
  }

  lemma ZeroIsRead()
    ensures Decimal.ScanInt("0000").1 == 0
  {
    ZeroText();
    DigitsScan("0000");
  }

  /** The answer carries the TID of the pending request if RID and VC are its, and a zero otherwise. */
  ghost predicate GivesTid(text: string, g: Option<Run>, rid: string, vc: string) {
    var ts := Tokens(text);
    && |ts| == 2 && ts[0] == "RAU"
    && if g.Some? && g.value.Then? && g.value.e.Tcp? && g.value.e.m.pw == rid && Vc(g.value) == vc then
         ts[1] == Tid(g.value) && Decimal.ScanInt(ts[1]).1 != 0
       else Decimal.ScanInt(ts[1]).1 == 0
  }

  lemma AuthText(r: Run, m: Message, uid: string, rid: string, vc: string)
    requires m.uid == uid && m.pw == rid && m.vc == vc
    ensures GivesTid(Print(AutReply(r, m)), PendingGrant(r, uid), rid, vc)
  {
    if PendingGrant(r, uid).Some? {
      TidIsRead(Count(PendingGrant(r, uid).value.prev));
      TidPrinted(Tid(PendingGrant(r, uid).value));
    }
    ZeroIsRead();
    TidPrinted("0000");
  }

  lemma AutIsExpected(r: Run, conn: nat, m: Message, lost: bool)
    requires m.op == "AUT" && m.words == 4
    ensures Expected(r, Tcp(conn, m, lost)) == AutReply(r, m)
  {
  }

  /** The client gets the TID of the pending request exactly for its RID and VC, and a zero otherwise. */
  lemma AuthHeard(r: Run, conn: nat, m: Message, lost: bool, uid: string, rid: string, vc: string)
    requires Legit(r) && Reads(m, Line(["AUT", uid, rid, vc])) && Printable(["AUT", uid, rid, vc])
    ensures GivesTid(Heard(r, conn, m, lost), PendingGrant(r, uid), rid, vc)
  {
    LineIsRead(["AUT", uid, rid, vc]);
    AutIsExpected(r, conn, m, lost);
    HeardIsExpected(r, conn, m, lost);
    AuthText(r, m, uid, rid, vc);
  }

  // ---------- what a device concludes ----------

  /** The text of the server's reply to a datagram. */
  function HeardBack(r: Run, d: Datagram): string {
    Print(DoUdp(ServerAfter(r), d).1)
  }

  lemma HeardBackIsExpected(r: Run, d: Datagram)
    requires Legit(r)
    ensures HeardBack(r, d) == Print(Expected(r, Udp(d)))
  {
    RepliesExactly(r, Udp(d));
  }

  lemma RegText(r: Run, d: Datagram)
    requires d.op == "REG" && d.words == 5
    ensures Print(Expected(r, Udp(d))) == "RRG OK\n" <==> RegReply(r, d.uid, d.pw, (d.pdip, d.pdport)) == RrgOk
  {
  }

  /** The device takes itself to be registered exactly if it is. */
  lemma RegHeard(r: Run, d: Datagram, uid: string, pw: string, pdip: string, pdport: string)
    requires Legit(r) && ReadsDatagram(d, Line(["REG", uid, pw, pdip, pdport]))
    requires Printable(["REG", uid, pw, pdip, pdport])
    ensures HeardBack(r, d) == "RRG OK\n" <==> RegReply(r, uid, pw, (pdip, pdport)) == RrgOk
  {
    LineIsRead(["REG", uid, pw, pdip, pdport]);
    RegText(r, d);
    HeardBackIsExpected(r, d);
  }

  lemma UnrText(r: Run, d: Datagram)
    requires d.op == "UNR" && d.words == 3
    ensures Print(Expected(r, Udp(d))) == "RUN OK\n" <==> Password(r, d.uid) == Some(d.pw)
  {
  }

  /** The device takes itself to be unregistered exactly if the user is known with that password. */
  lemma UnrHeard(r: Run, d: Datagram, uid: string, pw: string)
    requires Legit(r) && ReadsDatagram(d, Line(["UNR", uid, pw])) && Printable(["UNR", uid, pw])
    ensures HeardBack(r, d) == "RUN OK\n" <==> Password(r, uid) == Some(pw)
  {
    LineIsRead(["UNR", uid, pw]);
    UnrText(r, d);
    HeardBackIsExpected(r, d);
  }

  // ---------- a device that sends again ----------

  /** The server after so many copies of a datagram. */
  function AfterCopies(a: Server, d: Datagram, k: nat): Server {
    if k == 0 then a else DoUdp(AfterCopies(a, d, k - 1), d).0
  }

  /** A REG that is repeated at once is refused: if it was accepted, its own address is taken. */
  lemma RegAgain(a: Server, d: Datagram)
    requires d.words == 5 && d.op == "REG"
    ensures DoUdp(DoUdp(a, d).0, d) == (DoUdp(a, d).0, RrgNok)
  {
    var b, i := DoUdp(a, d).0, Find(a.users, d.uid);
    if b != a {
      assert i < |b.users| && b.users[i].pdip == d.pdip && b.users[i].pdport == d.pdport;
      assert AddressTaken(b.users, d.pdip, d.pdport);
    }
  }

  /**
   * A device that sends REG until it hears a reply: what it hears is what the first copy was answered only if it hears
   * the reply to that one. The reply to every other copy is RRG NOK, and what the first copy did stays done.
   */
  lemma {:induction false} RetriedReg(a: Server, d: Datagram, k: nat)
    requires d.words == 5 && d.op == "REG"
    ensures DoUdp(AfterCopies(a, d, k), d).1 == RrgOk <==> k == 0 && DoUdp(a, d).1 == RrgOk
    ensures k > 0 ==> AfterCopies(a, d, k) == DoUdp(a, d).0
  {
    if k > 0 {
      RetriedReg(a, d, k - 1);
      RegAgain(a, d);
      assert k > 1 ==> AfterCopies(a, d, k) == DoUdp(DoUdp(a, d).0, d).0;
    }
  }

  lemma UnrAgain(a: Server, d: Datagram)
    requires d.words == 3 && d.op == "UNR"
    ensures DoUdp(DoUdp(a, d).0, d) == DoUdp(a, d)
  {
    var i := Find(a.users, d.uid);
    if i < |a.users| {
      FindAfterUpdate(a.users, i, Unregister(a.users[i]), d.uid);
      var users := a.users[i := Unregister(a.users[i])];
      assert users[i := Unregister(users[i])] == users;
    }
  }

  /** UNR may be sent again: every copy is answered alike, and the others change nothing. */
  lemma {:induction false} RetriedUnr(a: Server, d: Datagram, k: nat)
    requires d.words == 3 && d.op == "UNR"
    ensures DoUdp(AfterCopies(a, d, k), d) == DoUdp(a, d)
  {
    if k > 0 {
      RetriedUnr(a, d, k - 1);
      UnrAgain(a, d);
    }
  }
}
