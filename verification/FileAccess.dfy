/** What the File Server does for whom, end to end: the claims that tie its commands to what the user had approved. */
module FileAccess {
  import opened Options
  import opened Text
  import opened Stream
  import opened Protocol
  import opened Runs
  import opened Guarantees
  import opened FileStore
  import opened FileCommands
  import opened Transfer
  import opened FileServing
  import Decimal
  import Listing

  // ---------- what a positive reply looks like ----------

  function PrintedName(fname: Option<string>): string {
    if fname.Some? then fname.value else ""
  }

  /** The fields that the File Server reads in a confirmation. */
  ghost predicate Shows(text: string, uid: string, tid: string, fop: string, name: string) {
    && text != [] && Field(text[..|text| - 1], 0) == "CNF"
    && Field(text[..|text| - 1], 1) == uid && Field(text[..|text| - 1], 2) == tid
    && Field(text[..|text| - 1], 3) == fop && Field(text[..|text| - 1], 4) == name
  }

  /** The fields of a confirmation. */
  lemma CnfFields(uid: Word, tid: Word, fop: Word, fname: Option<Word>)
    ensures var t := Print(Cnf(uid, tid, FopText(fop, fname)));
            Shows(t, uid, tid, fop, PrintedName(fname))
  {
    var ws := ["CNF", uid, tid] + FopWords(fop, fname);
    RequestLine("CNF", uid, tid, fop, fname);
    assert "CNF " + uid == "CNF" + " " + uid;
    forall w | w in ws ensures IsWord(w) {}
    CutLine(ws);
  }

  /** No other reply to a datagram starts with CNF. */
  lemma OtherRepliesDiffer(reply: Reply)
    requires reply in {RrgOk, RrgNok, RunOk, RunNok, Err}
    ensures var t := Print(reply); t != [] && Field(t[..|t| - 1], 0) != "CNF"
  {
    var ws := match reply
      case RrgOk => ["RRG", "OK"]
      case RrgNok => ["RRG", "NOK"]
      case RunOk => ["RUN", "OK"]
      case RunNok => ["RUN", "NOK"]
      case _ => ["ERR"];
    if |ws| == 2 {
      LineCons(ws[0], [ws[1]]);
      assert ws == [ws[0]] + [ws[1]];
    }
    assert Line(ws) == Print(reply);
    CutLine(ws);
  }

  /** A reply that starts with CNF is the answer of VLD. */
  lemma CnfIsVld(a: Server, d: Datagram, reply: Reply)
    requires reply == DoUdp(a, d).1 && Print(reply) != []
    requires Field(Print(reply)[..|Print(reply)| - 1], 0) == "CNF"
    ensures reply == Vld(a, d.uid, d.pw).1
  {
    if !reply.Cnf? {
      assert reply in {RrgOk, RrgNok, RunOk, RunNok, Err};
      OtherRepliesDiffer(reply);
    }
  }

  lemma ConfirmationSent(r: Run)
    requires Legit(r) && r.Then? && r.e.Udp? && Print(r.reply) != []
    requires Field(Print(r.reply)[..|Print(r.reply)| - 1], 0) == "CNF"
    ensures r.reply == Cnf(r.e.d.uid, r.e.d.pw, Confirmation(r.prev, r.e.d.uid, r.e.d.pw))
  {
    CnfIsVld(ServerAfter(r.prev), r.e.d, r.reply);
    VldExact(r.prev, r.e.d.uid, r.e.d.pw);
  }

  /** VLD's answer shows E, or the letter and the name of the latest grant. */
  lemma ConfirmationFields(r: Run, uid: Word, tid: Word)
    requires Legit(r)
    ensures var t := Print(Cnf(uid, tid, Confirmation(r, uid, tid)));
            if LatestGrant(r, uid).Some? && Tid(LatestGrant(r, uid).value) == tid then
              var m := LatestGrant(r, uid).value.e.m;
              WellFormed(m) && Shows(t, uid, tid, m.vc, PrintedName(Named(m)))
            else Shows(t, uid, tid, "E", "")
  {
    if LatestGrant(r, uid).Some? && Tid(LatestGrant(r, uid).value) == tid {
      var g := LatestGrant(r, uid).value;
      LegitPrefix(r, g);
      GrantIsWellFormed(g, uid);
      CnfFields(uid, tid, g.e.m.vc, if g.e.m.words == 5 then Some(g.e.m.fname) else None);
    } else {
      CnfFields(uid, tid, "E", None);
    }
  }

  // ---------- what was asked for ----------

  predicate AsksFor(m: Message, letter: char, name: string) {
    && m.vc == [letter]
    && (letter in {'R', 'U', 'D'} ==> Named(m) == Some(name))
    && (letter in {'L', 'X'} ==> Named(m) == None)
  }

  /** The request that a history's last event answered asked for this letter and, if it has one, this name. */
  ghost predicate AskedFor(g: Run, letter: char, name: string) {
    g.Then? && g.e.Tcp? && AsksFor(g.e.m, letter, name)
  }

  /** The user's latest successful REQ got the TID presented and asked for the command. */
  ghost predicate AskedBefore(r: Run, q: Request, line: string) {
    && LatestGrant(r, q.uid).Some?
    && Tid(LatestGrant(r, q.uid).value) == q.tid
    && AskedFor(LatestGrant(r, q.uid).value, Letter(line), CheckedName(q.args))
  }

  lemma ShownDecides(q: Request, line: string, text: string, uid: string, tid: string, fop: string, name: string)
    requires Shows(text, uid, tid, fop, name)
    ensures Confirms(q, line, text)
       <==> uid == q.uid && tid == q.tid && FirstChar(fop) == Letter(line)
            && (name != "" ==> CheckedName(q.args) == name)
  {
  }

  lemma LetterAndName(m: Message, letter: char, name: string)
    requires WellFormed(m)
    ensures AsksFor(m, letter, name)
       <==> FirstChar(m.vc) == letter && (PrintedName(Named(m)) != "" ==> name == PrintedName(Named(m)))
  {
  }

  /** A confirmation validates a command exactly if it is for what was presented and the command was asked for. */
  lemma Confirmed(r: Run, uid: Word, tid: Word, q: Request, line: string)
    requires Legit(r) && Letter(line) != '\0'
    ensures Confirms(q, line, Print(Cnf(uid, tid, Confirmation(r, uid, tid))))
       <==> uid == q.uid && tid == q.tid && AskedBefore(r, q, line)
  {
    ConfirmationFields(r, uid, tid);
    var t := Print(Cnf(uid, tid, Confirmation(r, uid, tid)));
    if LatestGrant(r, uid).Some? && Tid(LatestGrant(r, uid).value) == tid {
      var m := LatestGrant(r, uid).value.e.m;
      ShownDecides(q, line, t, uid, tid, m.vc, PrintedName(Named(m)));
      LetterAndName(m, Letter(line), CheckedName(q.args));
    } else {
      ShownDecides(q, line, t, uid, tid, "E", "");
    }
  }

  /**
   * Whenever the File Server validates a command, on whatever reply to a datagram it received, then at the moment
   * the Authentication Server gave that reply, the user's latest successful REQ had been issued exactly the TID
   * presented and carried exactly the command's letter and the name checked.
   */
  lemma ValidatedMeansAsked(r: Run, q: Request, line: string)
    requires Legit(r) && r.Then? && r.e.Udp? && Letter(line) != '\0'
    ensures Confirms(q, line, Print(r.reply)) ==> AskedBefore(r.prev, q, line)
  {
    if Confirms(q, line, Print(r.reply)) {
      ConfirmationSent(r);
      Confirmed(r.prev, r.e.d.uid, r.e.d.pw, q, line);
    }
  }

  /** The reply to the File Server's own datagram, VLD with the UID and the TID presented, validates exactly that. */
  lemma ValidatedExactly(r: Run, q: Request, line: string)
    requires Legit(r) && r.Then? && r.e.Udp? && Letter(line) != '\0'
    requires r.e.d.words == 3 && r.e.d.op == "VLD" && r.e.d.uid == q.uid && r.e.d.pw == q.tid
    ensures Confirms(q, line, Print(r.reply)) <==> AskedBefore(r.prev, q, line)
  {
    VldExact(r.prev, r.e.d.uid, r.e.d.pw);
    Confirmed(r.prev, r.e.d.uid, r.e.d.pw, q, line);
  }

  /** Both factors stood behind that REQ. */
  lemma ValidatedMeansAuthorised(r: Run, q: Request, line: string)
    requires Legit(r) && r.Then? && r.e.Udp? && Letter(line) != '\0'
    ensures Confirms(q, line, Print(r.reply)) ==>
              && LatestGrant(r.prev, q.uid).Some?
              && TwoFactors(LatestGrant(r.prev, q.uid).value, q.uid)
  {
    ValidatedMeansAsked(r, q, line);
    if Confirms(q, line, Print(r.reply)) {
      var g := LatestGrant(r.prev, q.uid).value;
      LegitPrefix(r.prev, g);
      GrantHasTwoFactors(g, q.uid);
    }
  }

  // ---------- what is carried out ----------

  /** The datagram is the File Server's own, for this line. */
  predicate AsksAbout(d: Datagram, line: string) {
    && Parse(line).Some? && d.words == 3 && d.op == "VLD"
    && d.uid == Parse(line).value.uid && d.pw == Parse(line).value.tid
  }

  /** What AS reads in the datagram that the File Server prints. */
  lemma OwnDatagram(d: Datagram, line: string, sent: string)
    requires Parse(line).Some? && IsGraphWord(Parse(line).value.uid) && IsGraphWord(Parse(line).value.tid)
    requires sent == "VLD " + Parse(line).value.uid + " " + Parse(line).value.tid + "\n" && ReadsDatagram(d, sent)
    ensures AsksAbout(d, line)
  {
    var ws := ["VLD", Parse(line).value.uid, Parse(line).value.tid];
    LineOfThree("VLD", Parse(line).value.uid, Parse(line).value.tid);
    assert sent == Line(ws);
    WordsOfLine(ws);
    forall w | w in ws ensures IsWord(w) { GraphIsWord(w); }
    ScanOfLine(ws);
  }

  /** What the user's latest successful REQ asked for, if that is what the line says. */
  ghost function Approved(r: Run, line: string, data: Bytes): Option<(string, Command)>
    requires Parse(line).Some?
  {
    var q := Parse(line).value;
    if Letter(line) != '\0' && AskedBefore(r, q, line) then Ordered(q, line, data) else None
  }

  lemma ClearedIf(line: string, data: Bytes, reply: string, asked: bool)
    requires Parse(line).Some? && (Letter(line) != '\0' ==> (Confirms(Parse(line).value, line, reply) <==> asked))
    ensures Cleared(line, data, Some(reply))
         == if Letter(line) != '\0' && asked then Ordered(Parse(line).value, line, data) else None
  {
  }

  /** On the reply to its own datagram the File Server carries out exactly what had been asked for. */
  lemma ClearedExactly(line: string, data: Bytes, r: Run)
    requires Legit(r) && r.Then? && r.e.Udp? && AsksAbout(r.e.d, line)
    ensures Cleared(line, data, Some(Print(r.reply))) == Approved(r.prev, line, data)
  {
    var q := Parse(line).value;
    if Letter(line) != '\0' {
      ValidatedExactly(r, q, line);
    }
    ClearedIf(line, data, Print(r.reply), AskedBefore(r.prev, q, line));
  }

  /** So the store becomes what the command asked for makes of it, and otherwise nothing changes. */
  lemma ServedExactly(s: Store, z: Store, line: string, data: Bytes, r: Run)
    requires Legit(r) && r.Then? && r.e.Udp? && AsksAbout(r.e.d, line)
    requires Served(s, z, line, data, Some(Print(r.reply)))
    ensures var c := Approved(r.prev, line, data);
            if c.None? then z == s else Becomes(s, z, c.value.0, Some(c.value.1))
    ensures var c := Approved(r.prev, line, data);
            c.Some? && Followed(s, c.value.0, c.value.1) ==> z == Exec(s, c.value.0, c.value.1).0
  {
    ClearedExactly(line, data, r);
  }

  /** Whatever is carried out, on whatever reply to a datagram, the user's latest successful REQ had asked for. */
  lemma ClearedMeansAsked(line: string, data: Bytes, r: Run)
    requires Legit(r) && r.Then? && r.e.Udp?
    ensures Cleared(line, data, Some(Print(r.reply))).Some? ==>
              AskedBefore(r.prev, Parse(line).value, line) && ValidUid(Parse(line).value.uid)
  {
    if Cleared(line, data, Some(Print(r.reply))).Some? {
      var q := Parse(line).value;
      ValidatedMeansAsked(r, q, line);
      MapsAreHistory(r.prev, q.uid);
      RegistrationHolds(r.prev);
      RegisteredUser(ServerAfter(r.prev), q.uid);
    }
  }

  // ---------- which file ----------

  /** The REQ named the file that the command acts on exactly when the arguments hold one name. */
  lemma NamedFileIsUsed(r: Run, q: Request, line: string)
    requires Legit(r) && AskedBefore(r, q, line) && Letter(line) in {'R', 'U', 'D'}
    requires UsedName(Letter(line), q.args).Some?
    ensures Named(LatestGrant(r, q.uid).value.e.m) == UsedName(Letter(line), q.args) <==> OneName(Letter(line), q.args)
  {
    var m := LatestGrant(r, q.uid).value.e.m;
    assert IsWord(m.fname);
    CheckedNameIsUsed(Letter(line), q.args);
  }

  /** A file that a connection changes: whose it is and how it is called. */
  ghost predicate Touches(s: Store, line: string, uid: string, name: string) {
    && Parse(line).Some?
    && var q, letter := Parse(line).value, Letter(line);
    match letter
    case 'X' => q.uid == uid
    case 'U' =>
      && UsedName('U', q.args).Some?
      && Target(MakeDir(s, q.uid), q.uid, UsedName('U', q.args).value) == Some((uid, name))
    case 'D' => UsedName('D', q.args).Some? && Target(s, q.uid, UsedName('D', q.args).value) == Some((uid, name))
    case _ => false
  }

  lemma TouchedIfChanged(s: Store, line: string, data: Bytes, reply: string, uid: string, name: string)
    requires var c := Cleared(line, data, Some(reply)); c.Some? ==> Followed(s, c.value.0, c.value.1)
    requires Content(Serve(s, line, data, Some(reply)), uid, name) != Content(s, uid, name)
    ensures Cleared(line, data, Some(reply)).Some? && Touches(s, line, uid, name)
    ensures Letter(line) in {'U', 'D'} ==> UsedName(Letter(line), Parse(line).value.args).Some?
  {
    var c := Cleared(line, data, Some(reply)).value;
    ContentAfter(s, c.0, c.1, uid, name);
  }

  /**
   * No file of any user changes unless the latest successful REQ of the user the line names asked for an upload,
   * a deletion or a removal, and it is a file the line's name leads to. That is the name in the REQ exactly when
   * the line's arguments hold one name.
   */
  lemma FilesChangeOnlyOnRequest(s: Store, line: string, data: Bytes, r: Run, uid: string, name: string)
    requires Legit(r) && r.Then? && r.e.Udp?
    requires var c := Cleared(line, data, Some(Print(r.reply))); c.Some? ==> Followed(s, c.value.0, c.value.1)
    ensures Content(Serve(s, line, data, Some(Print(r.reply))), uid, name) != Content(s, uid, name) ==>
              && Touches(s, line, uid, name)
              && var q := Parse(line).value;
              && AskedBefore(r.prev, q, line)
              && (Letter(line) in {'U', 'D'} ==>
                    (Named(LatestGrant(r.prev, q.uid).value.e.m) == UsedName(Letter(line), q.args)
                     <==> OneName(Letter(line), q.args)))
  {
    if Content(Serve(s, line, data, Some(Print(r.reply))), uid, name) != Content(s, uid, name) {
      TouchedIfChanged(s, line, data, Print(r.reply), uid, name);
      ClearedMeansAsked(line, data, r);
      LegitPrefix(r, r.prev);
      if Letter(line) in {'U', 'D'} {
        NamedFileIsUsed(r.prev, Parse(line).value, line);
      }
    }
  }

  /** A command whose name is no path changes only its own user's file of that name. */
  lemma OwnFileChanged(s: Store, q: Request, line: string, data: Bytes, c: (string, Command), uid: string, name: string)
    requires Ordered(q, line, data) == Some(c) && Content(Exec(s, c.0, c.1).0, uid, name) != Content(s, uid, name)
    requires Letter(line) in {'U', 'D'} ==>
               UsedName(Letter(line), q.args).Some? && Simple(UsedName(Letter(line), q.args).value)
    ensures q.uid == uid && (Letter(line) in {'U', 'D'} ==> UsedName(Letter(line), q.args) == Some(name))
  {
    OnlyOwnFiles(s, q.uid, c.1, uid, name);
  }

  /**
   * If moreover the name is no path, the file is the user's own, and for an upload or a deletion the one the REQ
   * named.
   */
  lemma OnlyNamedFilesChange(s: Store, line: string, data: Bytes, r: Run, uid: string, name: string)
    requires Legit(r) && r.Then? && r.e.Udp? && Parse(line).Some? && OneName(Letter(line), Parse(line).value.args)
    requires Letter(line) in {'U', 'D'} ==> Simple(CheckedName(Parse(line).value.args))
    ensures Content(Serve(s, line, data, Some(Print(r.reply))), uid, name) != Content(s, uid, name) ==>
              && AskedBefore(r.prev, Parse(line).value, line) && Parse(line).value.uid == uid
              && (Letter(line) in {'U', 'D'} ==> Named(LatestGrant(r.prev, uid).value.e.m) == Some(name))
  {
    var c, q := Cleared(line, data, Some(Print(r.reply))), Parse(line).value;
    if c.Some? {
      ClearedMeansAsked(line, data, r);
      LegitPrefix(r, r.prev);
      if Letter(line) in {'U', 'D'} {
        NamedFileIsUsed(r.prev, q, line);
      }
      if Content(Exec(s, q.uid, c.value.1).0, uid, name) != Content(s, uid, name) {
        OwnFileChanged(s, q, line, data, c.value, uid, name);
      }
    }
  }

  lemma ParseDelete(line: string, uid: string, tid: string)
    requires ' ' !in uid && ' ' !in tid && |uid| == UID_LENGTH && |tid| == Decimal.TID_LENGTH
    requires line == Before("DEL", Before(uid, Before(tid, "a b\n")))
    ensures Parse(line) == Some(Request(uid, tid, "a b\n")) && Letter(line) == 'D'
  {
    ParsePrinted("DEL", uid, tid, "a b\n");
    assert Take(line, 3) == "DEL";
  }

  lemma OrderedDelete(line: string, data: Bytes, q: Request, g: Run)
    requires Letter(line) == 'D' && q.args == "a b\n"
    requires g.Then? && g.e.Tcp? && g.e.m.vc == "D" && Named(g.e.m) == Some("a")
    ensures Ordered(q, line, data) == Some((q.uid, Delete("a b"))) && AskedFor(g, 'D', CheckedName(q.args))
  {
    OtherNameUsed();
  }

  lemma Deleted(s: Store, uid: string)
    ensures Content(Exec(s, uid, Delete("a b")).0, uid, "a b") == None
  {
    TargetWithoutSlash(s, uid, "a b");
  }

  /** A line for DEL with two words deletes a file that the REQ did not name. */
  lemma DeletesOtherName(s: Store, line: string, data: Bytes, r: Run, uid: string, tid: string)
    requires Legit(r) && r.Then? && r.e.Udp? && AsksAbout(r.e.d, line)
    requires ' ' !in uid && ' ' !in tid && |uid| == UID_LENGTH && |tid| == Decimal.TID_LENGTH
    requires line == Before("DEL", Before(uid, Before(tid, "a b\n")))
    requires LatestGrant(r.prev, uid).Some? && Tid(LatestGrant(r.prev, uid).value) == tid
    requires var m := LatestGrant(r.prev, uid).value.e.m; m.vc == "D" && Named(m) == Some("a")
    ensures Content(Serve(s, line, data, Some(Print(r.reply))), uid, "a b") == None
  {
    ParseDelete(line, uid, tid);
    OrderedDelete(line, data, Request(uid, tid, "a b\n"), LatestGrant(r.prev, uid).value);
    ClearedExactly(line, data, r);
    Deleted(s, uid);
  }

  // ---------- what is given away ----------

  /** The reply starts as one that carries a file. */
  predicate GivesFile(wire: Bytes) {
    |wire| >= 7 && wire[..3] == "RRT" && wire[3..7] == " OK "
  }

  /** The file that a command fetches, if there is one. */
  function Fetched(s: Store, uid: string, c: Command): Option<Bytes> {
    var t := TargetOf(s, uid, c);
    if c.Retrieve? && uid in s && t.Some? then Content(s, t.value.0, t.value.1) else None
  }

  lemma StatusGivesNothing(command: string, text: string)
    requires |command| == 3 && (command == "RRT" ==> text in {"ERR", "INV", "NOK", "EOF"})
    ensures !GivesFile(StatusLine(command, text))
  {
    var wire := StatusLine(command, text);
    assert wire[..3] == command;
    if command == "RRT" {
      assert wire[3..7][1] == text[0];
    }
  }

  lemma FileReplyGives(data: Bytes)
    ensures GivesFile(RetrieveWire(data))
  {
    var wire := RetrieveWire(data);
    assert wire[..3] == "RRT" && wire[3..7] == " OK ";
  }

  lemma RetrieveReplyGives(s: Store, uid: string, args: string)
    ensures var name := UsedName('R', args);
            var file := if name.Some? then Fetched(s, uid, Retrieve(name.value)) else None;
            if file.Some? then
              RetrieveReply(s, uid, args) == RetrieveWire(file.value) && GivesFile(RetrieveWire(file.value))
            else !GivesFile(RetrieveReply(s, uid, args))
  {
    var name := UsedName('R', args);
    if uid !in s {
      StatusGivesNothing("RRT", "NOK");
    } else if name.None? || TargetOf(s, uid, Retrieve(name.value)).None? {
      StatusGivesNothing("RRT", "ERR");
    } else if Fetched(s, uid, Retrieve(name.value)).None? {
      StatusGivesNothing("RRT", "EOF");
    } else {
      FileReplyGives(Fetched(s, uid, Retrieve(name.value)).value);
    }
  }

  lemma StatusStarts(command: string, text: string, more: Bytes)
    requires |command| == 3
    ensures StatusLine(command, text)[..3] == command && (StatusLine(command, text) + more)[..3] == command
  {
  }

  /** Every reply to a command starts with its word. */
  lemma AnswersStart(wire: Bytes, s: Store, letter: char, q: Request, data: Bytes)
    requires Answers(wire, s, letter, q, data) && letter in {'L', 'R', 'U', 'D', 'X'}
    requires letter == 'D' ==> q.args != []
    ensures |wire| >= 3 && wire[..3] == ReplyWord(letter)
  {
    var status := if CommandFor(letter, q.args, data).Some? then
                    StatusWord(Exec(s, q.uid, CommandFor(letter, q.args, data).value).1) else "ERR";
    if letter == 'R' {
      StatusStarts("RRT", "ERR", []);
      StatusStarts("RRT", "NOK", []);
      StatusStarts("RRT", "EOF", []);
    } else if letter == 'D' {
      StatusStarts("RDL", status, []);
      StatusStarts("RDL", "ERR", StatusLine("RDL", status));
    } else if letter != 'L' {
      StatusStarts(ReplyWord(letter), status, []);
    }
  }

  /** Only RTV gives a file away. */
  lemma OtherAnswersGiveNothing(wire: Bytes, s: Store, letter: char, q: Request, data: Bytes)
    requires Answers(wire, s, letter, q, data) && letter != 'R' && (letter == 'D' ==> q.args != [])
    ensures !GivesFile(wire)
  {
    if letter in {'L', 'U', 'D', 'X'} {
      AnswersStart(wire, s, letter, q, data);
    }
  }

  lemma ApprovedHasArgs(r: Run, q: Request, line: string)
    requires Legit(r) && AskedBefore(r, q, line) && Letter(line) in {'R', 'U', 'D'}
    ensures q.args != []
  {
    assert IsWord(LatestGrant(r, q.uid).value.e.m.fname);
  }

  lemma ValidatedDeleteHasArgs(r: Run, q: Request, line: string)
    requires Legit(r) && r.Then? && r.e.Udp?
    ensures Confirms(q, line, Print(r.reply)) && Letter(line) == 'D' ==> q.args != []
  {
    if Letter(line) == 'D' && Confirms(q, line, Print(r.reply)) {
      ValidatedMeansAsked(r, q, line);
      LegitPrefix(r, r.prev);
      ApprovedHasArgs(r.prev, q, line);
    }
  }

  /** A reply carries a file only if the command carried out is a retrieval, and exactly if the file is there. */
  ghost predicate GivesRightly(wire: Bytes, s: Store, c: Option<(string, Command)>) {
    && (GivesFile(wire) ==> c.Some? && c.value.1.Retrieve?)
    && (c.Some? && Followed(s, c.value.0, c.value.1) && Fetched(s, c.value.0, c.value.1).Some? ==>
          GivesFile(wire) && wire == RetrieveWire(Fetched(s, c.value.0, c.value.1).value))
    && (c.Some? && Followed(s, c.value.0, c.value.1) && Fetched(s, c.value.0, c.value.1).None? ==> !GivesFile(wire))
  }

  lemma FileGiven(wire: Bytes, s: Store, line: string, data: Bytes, reply: string)
    requires Handled(wire, s, line, data, Some(reply))
    requires Parse(line).Some? && Letter(line) == 'D' && Confirms(Parse(line).value, line, reply) ==>
               Parse(line).value.args != []
    ensures GivesRightly(wire, s, Cleared(line, data, Some(reply)))
  {
    var q, letter := Parse(line), Letter(line);
    if q.None? {
      StatusGivesNothing(ReplyWord(letter), "ERR");
    } else if !Confirms(q.value, line, reply) {
      StatusGivesNothing(ReplyWord(letter), "INV");
    } else if letter == 'R' {
      RetrieveReplyGives(s, q.value.uid, q.value.args);
    } else {
      OtherAnswersGiveNothing(wire, s, letter, q.value, data);
    }
  }

  lemma FileGivenIfCleared(wire: Bytes, s: Store, line: string, data: Bytes, r: Run)
    requires Legit(r) && r.Then? && r.e.Udp? && Handled(wire, s, line, data, Some(Print(r.reply)))
    ensures GivesRightly(wire, s, Cleared(line, data, Some(Print(r.reply))))
  {
    if Parse(line).Some? {
      ValidatedDeleteHasArgs(r, Parse(line).value, line);
    }
    FileGiven(wire, s, line, data, Print(r.reply));
  }

  /**
   * On the reply to the File Server's own datagram a file is given only if the user's latest successful REQ had
   * asked for a retrieval, and when the name leads to a file of some user, exactly if that file is there.
   */
  lemma FileGivenExactly(wire: Bytes, s: Store, line: string, data: Bytes, r: Run)
    requires Legit(r) && r.Then? && r.e.Udp? && AsksAbout(r.e.d, line)
    requires Handled(wire, s, line, data, Some(Print(r.reply)))
    ensures GivesRightly(wire, s, Approved(r.prev, line, data))
  {
    FileGivenIfCleared(wire, s, line, data, r);
    ClearedExactly(line, data, r);
  }

  /** On any reply: only if the REQ had asked for it; it named that file exactly when the arguments hold one name. */
  lemma FileGivenOnlyOnRequest(wire: Bytes, s: Store, line: string, data: Bytes, r: Run)
    requires Legit(r) && r.Then? && r.e.Udp? && Handled(wire, s, line, data, Some(Print(r.reply)))
    ensures GivesFile(wire) ==>
              && Parse(line).Some? && Letter(line) == 'R' && AskedBefore(r.prev, Parse(line).value, line)
              && var q := Parse(line).value;
              (Named(LatestGrant(r.prev, q.uid).value.e.m) == UsedName('R', q.args) <==> OneName('R', q.args))
  {
    FileGivenIfCleared(wire, s, line, data, r);
    if GivesFile(wire) {
      ClearedMeansAsked(line, data, r);
      LegitPrefix(r, r.prev);
      NamedFileIsUsed(r.prev, Parse(line).value, line);
    }
  }

  /** When a name strays, nothing keeps the reply to RTV from carrying a file that no user has stored. */
  lemma OutsideFileGiven(s: Store, q: Request, name: string, file: Bytes, data: Bytes)
    requires q.uid in s && UsedName('R', q.args) == Some(name) && Target(s, q.uid, name) == None
    ensures Answers(RetrieveWire(file), s, 'R', q, data) && GivesFile(RetrieveWire(file))
  {
    FileReplyGives(file);
  }

  /** Any file name behind two steps up is such a name, and a single one in the arguments. */
  lemma OutsideName(s: Store, uid: string, first: string, name: string)
    requires '/' !in first && first !in {"", ".", PATHNAME} && forall c | c in first :: !EndsName(c)
    requires name == "../../" + first && |name| < FNAME_LENGTH
    ensures OneName('R', name + "\n") && UsedName('R', name + "\n") == Some(name) && Target(s, uid, name) == None
  {
    forall c | c in name ensures !EndsName(c) {
      assert c in "../../" || c in first;
    }
    SingleName(name);
    TargetOutside(s, uid, first, "");
  }

  /** The reply is a listing. */
  predicate GivesListing(wire: Bytes) {
    |wire| >= 3 && wire[..3] == "RLS" && wire != StatusLine("RLS", "ERR") && wire != StatusLine("RLS", "INV")
  }

  lemma ListingIsNoStatus(es: seq<Listing.Entry>)
    ensures GivesListing(Listing.Reply(es))
  {
    var wire := Listing.Reply(es);
    assert wire[..3] == "RLS";
    if es == [] {
      assert wire[4] == 'E' && wire[5] == 'O';
    } else {
      Decimal.DecIsGraphWord(|es|);
      Decimal.ValueOfDec(|es|);
      assert Digit(Decimal.Dec(|es|)[0]);
      assert wire[4] == Decimal.Dec(|es|)[0];
    }
    assert StatusLine("RLS", "ERR")[4] == 'E' && StatusLine("RLS", "ERR")[5] == 'R';
    assert StatusLine("RLS", "INV")[4] == 'I';
  }

  lemma OtherAnswersListNothing(wire: Bytes, s: Store, letter: char, q: Request, data: Bytes)
    requires Answers(wire, s, letter, q, data) && letter != 'L' && (letter == 'D' ==> q.args != [])
    ensures !GivesListing(wire)
  {
    if letter in {'R', 'U', 'D', 'X'} {
      AnswersStart(wire, s, letter, q, data);
    }
  }

  lemma InvalidListsNothing(command: string)
    requires |command| == 3
    ensures !GivesListing(StatusLine(command, "INV"))
  {
    var wire := StatusLine(command, "INV");
    assert wire[..3] == command;
  }

  /** A directory is listed exactly when the user's latest successful REQ had asked for that, and there is one. */
  lemma ListingGivenExactly(wire: Bytes, s: Store, line: string, data: Bytes, r: Run)
    requires Legit(r) && r.Then? && r.e.Udp? && AsksAbout(r.e.d, line)
    requires Handled(wire, s, line, data, Some(Print(r.reply)))
    ensures var uid := Parse(line).value.uid;
            && (GivesListing(wire) <==> Approved(r.prev, line, data) == Some((uid, List)) && uid in s)
            && (GivesListing(wire) ==> exists es :: Lists(es, s[uid]) && wire == Listing.Reply(es))
  {
    var q, letter := Parse(line).value, Letter(line);
    ClearedExactly(line, data, r);
    if !Confirms(q, line, Print(r.reply)) {
      InvalidListsNothing(ReplyWord(letter));
    } else if letter == 'L' {
      forall es ensures GivesListing(Listing.Reply(es)) { ListingIsNoStatus(es); }
    } else {
      ValidatedDeleteHasArgs(r, q, line);
      OtherAnswersListNothing(wire, s, letter, q, data);
    }
  }
}
