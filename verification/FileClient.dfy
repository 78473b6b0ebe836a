/** The client's uploads, deletions and removals at the File Server, from the printed request to the status it reads. */
module FileClient {
  import opened Options
  import opened Text
  import opened Stream
  import opened FileStore
  import opened FileCommands
  import opened Transfer
  import opened FileServing
  import opened FileAccess
  import opened RoundTrip
  import Decimal
  import P = Protocol

  // ---------- what AS answers ----------

  /** The answer to VLD: a confirmation of the operation, or E. */
  function Verdict(uid: string, tid: string, fop: string, name: Option<string>, approved: bool): string {
    P.Print(P.Cnf(uid, tid, if approved then P.FopText(fop, name) else "E"))
  }

  lemma VerdictDecides(uid: Word, tid: Word, fop: Word, name: Option<Word>, approved: bool, q: Request, line: string)
    requires q.uid == uid && q.tid == tid && fop == [Letter(line)] && Letter(line) in {'L', 'R', 'U', 'D', 'X'}
    requires name.Some? ==> CheckedName(q.args) == name.value
    ensures var v := Verdict(uid, tid, fop, name, approved); v != [] && (Confirms(q, line, v) <==> approved)
  {
    if approved {
      CnfFields(uid, tid, fop, name);
      ShownDecides(q, line, Verdict(uid, tid, fop, name, true), uid, tid, fop, PrintedName(name));
    } else {
      CnfFields(uid, tid, "E", None);
      ShownDecides(q, line, Verdict(uid, tid, fop, name, false), uid, tid, "E", "");
    }
  }

  // ---------- reading a status ----------

  lemma StatusIsRead(command: string, status: string, wire: string)
    requires IsGraphWord(command) && IsGraphWord(status) && wire == command + " " + status + "\n"
    ensures Field(wire, 1) == status && IsMessage(wire, '\n')
  {
    LineCons(command, [status]);
    assert [command] + [status] == [command, status];
    GraphIsWord(command);
    GraphIsWord(status);
    ScanOfLine([command, status]);
    assert command + " " + status + "\n" == command + " " + (status + "\n");
    forall i | 0 <= i < |wire| - 1 ensures wire[i] != '\n' {
      assert i < |command| ==> wire[i] in command;
      assert |command| < i ==> wire[i] == status[i - |command| - 1] && wire[i] in status;
    }
  }

  /** The client reads the reply, whatever the pieces, and takes its second word. */
  method ReadStatus(wire: Bytes, ghost command: string, ghost expected: string) returns (status: string)
    requires IsGraphWord(command) && IsGraphWord(expected) && wire == StatusLine(command, expected)
    ensures status == expected
  {
    StatusIsRead(command, expected, wire);
    var sock := new Socket(wire);
    var buffer := new char[|wire| + 1];
    assert wire + [] == wire;
    var text := ReceiveMessage(sock, buffer, '\n', wire, []);
    status := Field(text, 1);
  }

  // ---------- sending a line ----------

  /** A printed line goes to the server, which handles it with what AS answered. */
  method Submit(fs: FileServer, command: string, args: string, verdict: string) returns (wire: Bytes, ghost none: Bytes)
    requires ' ' !in command && Take(command + " ", 3) != "UPL" && IsMessage(args, '\n')
    requires '\0' !in command && '\0' !in args && |command| + |args| < 120 && verdict != []
    modifies fs
    ensures Served(old(fs.dirs), fs.dirs, Before(command, args), none, Some(verdict))
    ensures Handled(wire, old(fs.dirs), Before(command, args), none, Some(verdict))
  {
    LineRead(command, args);
    var sock := new Socket(Before(command, args));
    var buffer := new char[128];
    var line := ReadCommand(sock, buffer);
    var batch := new char[BATCH];
    wire, none := fs.Handle(line, sock, batch, Some(verdict));
  }

  /** No file but this one has changed. */
  ghost predicate OnlyChanged(s: Store, z: Store, t: (string, string)) {
    forall u, n :: (u, n) != t ==> Content(z, u, n) == Content(s, u, n)
  }

  // ---------- REM ----------

  lemma ParseRemove(uid: string, tid: string, line: string)
    requires |uid| == UID_LENGTH && |tid| == Decimal.TID_LENGTH && ' ' !in uid && ' ' !in tid
    requires line == Before("REM", Before(uid, tid + "\n"))
    ensures Parse(line) == Some(Request(uid, tid, "")) && Letter(line) == 'X'
  {
    PointPast("REM", Before(uid, tid + "\n"));
    PointPast(uid, tid + "\n");
    NoMore(tid + "\n");
    assert Before(uid, tid + "\n")[..UID_LENGTH] == uid && (tid + "\n")[..Decimal.TID_LENGTH] == tid;
    assert Take(line, 3) == "REM";
  }

  /**
   * A removal: when it has been approved the user's directory is gone and all others are as before, and the client
   * reads OK exactly if there was one; otherwise nothing changes and it reads INV.
   */
  method RemoveAll(fs: FileServer, uid: Word, tid: Word, approved: bool) returns (status: string)
    requires |uid| == UID_LENGTH && |tid| == Decimal.TID_LENGTH && '\0' !in uid && '\0' !in tid
    modifies fs
    ensures fs.dirs == if approved then old(fs.dirs) - {uid} else old(fs.dirs)
    ensures status == if !approved then "INV" else if uid in old(fs.dirs) then "OK" else "NOK"
  {
    var args := Before(uid, tid + "\n");
    NoSpace(uid);
    NoSpace(tid);
    ParseRemove(uid, tid, Before("REM", args));
    VerdictDecides(uid, tid, "X", None, approved, Request(uid, tid, ""), Before("REM", args));
    var wire, none := Submit(fs, "REM", args, Verdict(uid, tid, "X", None, approved));
    RemoveStatus(old(fs.dirs), uid);
    assert approved ==> fs.dirs == old(fs.dirs) - {uid};
    status := ReadStatus(wire, "RRM", if !approved then "INV" else if uid in old(fs.dirs) then "OK" else "NOK");
  }

  // ---------- DEL ----------

  lemma ParseDel(uid: string, tid: string, line: string, args: string)
    requires |uid| == UID_LENGTH && |tid| == Decimal.TID_LENGTH && ' ' !in uid && ' ' !in tid
    requires line == Before("DEL", Before(uid, Before(tid, args)))
    ensures Parse(line) == Some(Request(uid, tid, args)) && Letter(line) == 'D'
  {
    ParsePrinted("DEL", uid, tid, args);
    assert Take(line, 3) == "DEL";
  }

  /** The word that the client reads for a deletion. */
  function DeletionWord(s: Store, uid: string, t: (string, string), approved: bool): string {
    if !approved then "INV" else if uid !in s then "NOK" else if Content(s, t.0, t.1).None? then "EOF" else "OK"
  }

  lemma DeletionWordIsWord(s: Store, uid: string, t: (string, string), approved: bool)
    ensures IsGraphWord(DeletionWord(s, uid, t, approved)) && IsGraphWord("RDL")
  {
  }

  lemma Deletes(s: Store, z: Store, wire: Bytes, line: string, q: Request, name: string, none: Bytes, verdict: string,
                t: (string, string))
    requires Parse(line) == Some(q) && Letter(line) == 'D' && q.args == name + "\n" && verdict != []
    requires Served(s, z, line, none, Some(verdict)) && Handled(wire, s, line, none, Some(verdict))
    requires Target(s, q.uid, name) == Some(t)
    ensures wire == StatusLine("RDL", DeletionWord(s, q.uid, t, Confirms(q, line, verdict)))
    ensures OnlyChanged(s, z, t)
    ensures Content(z, t.0, t.1) ==
            if Confirms(q, line, verdict) && q.uid in s then None else Content(s, t.0, t.1)
  {
    if Confirms(q, line, verdict) {
      assert q.args[..|q.args| - 1] == name;
      ClearedAs(line, none, verdict, q, Delete(name));
      DeleteStatus(s, q.uid, name);
      forall u, n | (u, n) != t ensures Content(z, u, n) == Content(s, u, n) {
        ContentAfter(s, q.uid, Delete(name), u, n);
      }
    }
  }

  lemma DeletionRead(uid: Word, tid: Word, name: Word, approved: bool, line: string, args: string)
    requires |uid| == UID_LENGTH && |tid| == Decimal.TID_LENGTH && |name| < FNAME_LENGTH
    requires args == Before(uid, Before(tid, name + "\n")) && line == Before("DEL", args)
    ensures Parse(line) == Some(Request(uid, tid, name + "\n")) && Letter(line) == 'D'
    ensures var v := Verdict(uid, tid, "D", Some(name), approved);
            v != [] && (Confirms(Request(uid, tid, name + "\n"), line, v) <==> approved)
  {
    NoSpace(uid);
    NoSpace(tid);
    ParseDel(uid, tid, line, name + "\n");
    PrintedNameIsUsed(name, 0);
    VerdictDecides(uid, tid, "D", Some(name), approved, Request(uid, tid, name + "\n"), line);
  }

  lemma ArgsFit(uid: Word, tid: Word, name: Word, args: string)
    requires |uid| == UID_LENGTH && |tid| == Decimal.TID_LENGTH && |name| < FNAME_LENGTH
    requires '\0' !in uid && '\0' !in tid && '\0' !in name && args == Before(uid, Before(tid, name + "\n"))
    ensures IsMessage(args, '\n') && '\0' !in args && |args| < 110
  {
    NoSpace(uid);
    NoSpace(tid);
    NoSpace(name);
  }

  /**
   * A deletion of a file that the name leads to: when it has been approved that file is gone and all others are as
   * before; otherwise nothing changes. The client reads which it was.
   */
  method DeleteFile(fs: FileServer, uid: Word, tid: Word, name: Word, approved: bool, ghost t: (string, string))
    returns (status: string)
    requires |uid| == UID_LENGTH && |tid| == Decimal.TID_LENGTH && |name| < FNAME_LENGTH
    requires '\0' !in uid && '\0' !in tid && '\0' !in name
    requires Target(fs.dirs, uid, name) == Some(t)
    modifies fs
    ensures status == DeletionWord(old(fs.dirs), uid, t, approved)
    ensures OnlyChanged(old(fs.dirs), fs.dirs, t)
    ensures Content(fs.dirs, t.0, t.1) ==
            if approved && uid in old(fs.dirs) then None else Content(old(fs.dirs), t.0, t.1)
  {
    var args := Before(uid, Before(tid, name + "\n"));
    ArgsFit(uid, tid, name, args);
    DeletionRead(uid, tid, name, approved, Before("DEL", args), args);
    ghost var s, q := fs.dirs, Request(uid, tid, name + "\n");
    var verdict := Verdict(uid, tid, "D", Some(name), approved);
    var wire, none := Submit(fs, "DEL", args, verdict);
    Deletes(s, fs.dirs, wire, Before("DEL", args), q, name, none, verdict, t);
    DeletionWordIsWord(s, uid, t, approved);
    status := ReadStatus(wire, "RDL", DeletionWord(s, uid, t, approved));
  }

  // ---------- UPL ----------

  function UploadWord(s: Store, uid: string, t: (string, string), approved: bool): string {
    if !approved then "INV"
    else if uid in s && |s[uid]| >= 15 then "FULL"
    else if Content(s, t.0, t.1).Some? then "DUP"
    else "OK"
  }

  lemma Uploads(s: Store, z: Store, wire: Bytes, line: string, q: Request, name: string, data: Bytes, verdict: string,
                t: (string, string))
    requires Parse(line) == Some(q) && Letter(line) == 'U' && verdict != []
    requires UploadFields(q.args).Some? && UploadFields(q.args).value.0 == name
    requires Served(s, z, line, data, Some(verdict)) && Handled(wire, s, line, data, Some(verdict))
    requires Target(MakeDir(s, q.uid), q.uid, name) == Some(t)
    ensures var word := UploadWord(s, q.uid, t, Confirms(q, line, verdict));
            && wire == StatusLine("RUP", word)
            && Content(z, t.0, t.1) == if word == "OK" then Some(data) else Content(s, t.0, t.1)
    ensures OnlyChanged(s, z, t)
  {
    if Confirms(q, line, verdict) {
      ClearedAs(line, data, verdict, q, Upload(name, data));
      UploadStatus(s, q.uid, name, data);
      forall u, n ensures Content(z, u, n) ==
        if (u, n) == t && Exec(s, q.uid, Upload(name, data)).1 == Ok then Some(data) else Content(s, u, n)
      {
        ContentAfter(s, q.uid, Upload(name, data), u, n);
      }
    }
  }

  lemma UploadPrepared(uid: Word, tid: Word, name: Word, size: nat, approved: bool, line: string, q: Request)
    requires |uid| == UID_LENGTH && |tid| == Decimal.TID_LENGTH && |name| < FNAME_LENGTH
    requires line == UploadHeader(uid, tid, name, Decimal.Dec(size)) + "\n"
    requires q == Request(uid, tid, name + " " + Decimal.Dec(size) + " \n")
    ensures Parse(line) == Some(q) && Letter(line) == 'U' && UploadFields(q.args) == Some((name, size))
    ensures var v := Verdict(uid, tid, "U", Some(name), approved); v != [] && (Confirms(q, line, v) <==> approved)
  {
    NoSpace(uid);
    NoSpace(tid);
    ParseUpload(uid, tid, name, Decimal.Dec(size), line, q.args);
    PrintedUploadChecked(name, size, q.args);
    VerdictDecides(uid, tid, "U", Some(name), approved, q, line);
  }

  lemma UploadWordIsWord(s: Store, uid: string, t: (string, string), approved: bool)
    ensures IsGraphWord(UploadWord(s, uid, t, approved)) && IsGraphWord("RUP")
  {
  }

  lemma SentData(data: Bytes, sent: Bytes, approved: bool)
    requires approved ==> |sent| == |data| && sent == (data + "\n")[..|data|]
    ensures approved ==> sent == data
  {
  }

  /**
   * An upload to a name that leads to a file: exactly when the client reads OK what it sent is stored there, and no
   * other file ever changes. It reads FULL exactly if the user's own directory is full, DUP if there is room but the
   * name is taken, INV if it was not approved.
   */
  method UploadFile(fs: FileServer, uid: Word, tid: Word, name: Word, data: Bytes, approved: bool,
                    ghost t: (string, string))
    returns (status: string)
    requires |uid| == UID_LENGTH && |tid| == Decimal.TID_LENGTH && |name| < FNAME_LENGTH && |data| < 0x8000_0000
    requires '\0' !in uid && '\0' !in tid && '\0' !in name
    requires Target(MakeDir(fs.dirs, uid), uid, name) == Some(t)
    modifies fs
    ensures status == UploadWord(old(fs.dirs), uid, t, approved)
    ensures Content(fs.dirs, t.0, t.1) == if status == "OK" then Some(data) else Content(old(fs.dirs), t.0, t.1)
    ensures OnlyChanged(old(fs.dirs), fs.dirs, t)
  {
    ghost var s, q := fs.dirs, Request(uid, tid, name + " " + Decimal.Dec(|data|) + " \n");
    var sock, line := SendAndRead(uid, tid, name, data);
    UploadPrepared(uid, tid, name, |data|, approved, line, q);
    var batch := new char[BATCH];
    var verdict := Verdict(uid, tid, "U", Some(name), approved);
    var wire, sent := fs.Handle(line, sock, batch, Some(verdict));
    SentData(data, sent, approved);
    Uploads(s, fs.dirs, wire, line, q, name, sent, verdict, t);
    UploadWordIsWord(s, uid, t, approved);
    status := ReadStatus(wire, "RUP", UploadWord(s, uid, t, approved));
  }

  // ---------- RTV ----------

  /** What is sent back for a retrieval. */
  function Fetching(s: Store, uid: string, t: (string, string), approved: bool): RetrieveAnswer {
    if !approved then Denied("INV")
    else if uid !in s then Denied("NOK")
    else if Content(s, t.0, t.1).None? then Denied("EOF")
    else Given(Content(s, t.0, t.1).value)
  }

  lemma Fetches(s: Store, z: Store, wire: Bytes, line: string, q: Request, name: string, none: Bytes, verdict: string,
                t: (string, string))
    requires Parse(line) == Some(q) && Letter(line) == 'R' && UsedName('R', q.args) == Some(name) && verdict != []
    requires Served(s, z, line, none, Some(verdict)) && Handled(wire, s, line, none, Some(verdict))
    requires Target(s, q.uid, name) == Some(t)
    ensures z == s && wire == Fetching(s, q.uid, t, Confirms(q, line, verdict)).Wire()
  {
    if Confirms(q, line, verdict) {
      ClearedAs(line, none, verdict, q, Retrieve(name));
      RetrieveStatus(s, q.uid, name);
      assert TargetOf(s, q.uid, Retrieve(name)) == Some(t);
    }
  }

  lemma RetrievalRead(uid: Word, tid: Word, name: Word, approved: bool, line: string, args: string)
    requires |uid| == UID_LENGTH && |tid| == Decimal.TID_LENGTH && |name| < FNAME_LENGTH
    requires args == Before(uid, Before(tid, name + "\n")) && line == Before("RTV", args)
    ensures Parse(line) == Some(Request(uid, tid, name + "\n")) && Letter(line) == 'R'
    ensures UsedName('R', name + "\n") == Some(name)
    ensures var v := Verdict(uid, tid, "R", Some(name), approved);
            v != [] && (Confirms(Request(uid, tid, name + "\n"), line, v) <==> approved)
  {
    NoSpace(uid);
    NoSpace(tid);
    ParseRetrieval(uid, tid, line, name + "\n");
    PrintedNameIsUsed(name, 0);
    VerdictDecides(uid, tid, "R", Some(name), approved, Request(uid, tid, name + "\n"), line);
  }

  lemma FetchingFits(s: Store, uid: string, t: (string, string), approved: bool)
    requires Content(s, t.0, t.1).Some? ==> |Content(s, t.0, t.1).value| < 0x8000_0000
    ensures Fetching(s, uid, t, approved).Fits(BATCH)
  {
    if Content(s, t.0, t.1).Some? {
      SizeFits(|Content(s, t.0, t.1).value|);
    }
  }

  /** The client reads the reply to a retrieval, whatever the pieces. */
  method ReadFile(wire: Bytes, ghost answer: RetrieveAnswer) returns (file: Option<Bytes>)
    requires wire == answer.Wire() && answer.Fits(BATCH)
    ensures file == if answer.Given? then Some(answer.data) else None
  {
    var reply := new Socket(wire);
    var batch := new char[BATCH];
    file := ReceiveRetrieved(reply, batch, answer);
  }

  /**
   * A retrieval of a file that the name leads to: the client writes that file, byte for byte, exactly if it has been
   * approved, the user has a directory and the file is there; nothing changes at the server.
   */
  method RetrieveFile(fs: FileServer, uid: Word, tid: Word, name: Word, approved: bool, ghost t: (string, string))
    returns (file: Option<Bytes>)
    requires |uid| == UID_LENGTH && |tid| == Decimal.TID_LENGTH && |name| < FNAME_LENGTH
    requires '\0' !in uid && '\0' !in tid && '\0' !in name
    requires Target(fs.dirs, uid, name) == Some(t)
    requires Content(fs.dirs, t.0, t.1).Some? ==> |Content(fs.dirs, t.0, t.1).value| < 0x8000_0000
    modifies fs
    ensures fs.dirs == old(fs.dirs)
    ensures file == if approved && uid in fs.dirs then Content(fs.dirs, t.0, t.1) else None
  {
    var args := Before(uid, Before(tid, name + "\n"));
    ArgsFit(uid, tid, name, args);
    RetrievalRead(uid, tid, name, approved, Before("RTV", args), args);
    ghost var s, q := fs.dirs, Request(uid, tid, name + "\n");
    var verdict := Verdict(uid, tid, "R", Some(name), approved);
    var wire, none := Submit(fs, "RTV", args, verdict);
    Fetches(s, fs.dirs, wire, Before("RTV", args), q, name, none, verdict, t);
    FetchingFits(s, uid, t, approved);
    file := ReadFile(wire, Fetching(s, uid, t, approved));
  }
}
