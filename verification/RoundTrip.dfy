/** Complete exchanges between a client and the File Server. */
module RoundTrip {
  import opened Options
  import opened Text
  import opened Stream
  import opened FileStore
  import opened FileCommands
  import opened Transfer
  import opened FileServing
  import opened FileAccess
  import Decimal
  import Listing
  import P = Protocol

  // ---------- what is printed and what comes of it ----------

  lemma TenDigits()
    ensures Decimal.Pow10(10) > 0x8000_0000
  {
    assert Decimal.Pow10(5) == 100000 by {
      assert Decimal.Pow10(3) == 1000;
    }
    assert Decimal.Pow10(10) == 100000 * Decimal.Pow10(5) by {
      assert Decimal.Pow10(8) == 1000 * Decimal.Pow10(5);
    }
  }

  lemma SizeFits(n: nat)
    requires n < 0x8000_0000
    ensures |Decimal.Dec(n)| <= 10 && ' ' !in Decimal.Dec(n) && '\0' !in Decimal.Dec(n)
  {
    TenDigits();
    Decimal.DecLength(n, 10);
    Decimal.DecIsGraphWord(n);
  }

  /** A printed upload parses into what was printed. */
  lemma ParseUpload(uid: string, tid: string, name: string, size: string, line: string, args: string)
    requires |uid| == UID_LENGTH && |tid| == Decimal.TID_LENGTH && ' ' !in uid && ' ' !in tid
    requires line == UploadHeader(uid, tid, name, size) + "\n" && args == name + " " + size + " \n"
    ensures Parse(line) == Some(Request(uid, tid, args)) && Letter(line) == 'U'
  {
    HeaderThen(uid, tid, name, size, "\n");
    assert Before(name, Before(size, "\n")) == args;
    ParsePrinted("UPL", uid, tid, args);
    assert Take(line, 3) == "UPL";
  }

  function Print(uid: string, tid: string, fop: string, name: string): string {
    P.Print(P.Cnf(uid, tid, P.FopText(fop, Some(name))))
  }

  /** AS's printed confirmation validates the line it is for. */
  lemma ConfirmationFits(uid: Word, tid: Word, fop: Word, name: Word, q: Request, line: string)
    requires q.uid == uid && q.tid == tid && fop == [Letter(line)] && CheckedName(q.args) == name
    ensures Print(uid, tid, fop, name) != [] && Confirms(q, line, Print(uid, tid, fop, name))
  {
    CnfFields(uid, tid, fop, Some(name));
    ShownDecides(q, line, Print(uid, tid, fop, name), uid, tid, fop, name);
  }

  lemma UploadCleared(uid: Word, tid: Word, name: Word, size: nat, line: string, q: Request)
    requires |uid| == UID_LENGTH && |tid| == Decimal.TID_LENGTH && |name| < FNAME_LENGTH
    requires line == UploadHeader(uid, tid, name, Decimal.Dec(size)) + "\n"
    requires q == Request(uid, tid, name + " " + Decimal.Dec(size) + " \n")
    ensures Parse(line) == Some(q) && Letter(line) == 'U' && UploadFields(q.args) == Some((name, size))
    ensures var reply := Print(uid, tid, "U", name); reply != [] && Confirms(q, line, reply)
  {
    NoSpace(uid);
    NoSpace(tid);
    ParseUpload(uid, tid, name, Decimal.Dec(size), line, q.args);
    PrintedUploadChecked(name, size, q.args);
    ConfirmationFits(uid, tid, "U", name, q, line);
  }

  lemma ParseRetrieval(uid: string, tid: string, line: string, args: string)
    requires |uid| == UID_LENGTH && |tid| == Decimal.TID_LENGTH && ' ' !in uid && ' ' !in tid
    requires line == Before("RTV", Before(uid, Before(tid, args)))
    ensures Parse(line) == Some(Request(uid, tid, args)) && Letter(line) == 'R'
  {
    ParsePrinted("RTV", uid, tid, args);
    assert Take(line, 3) == "RTV";
  }

  lemma RetrievalCleared(uid: Word, tid: Word, name: Word, line: string, q: Request)
    requires |uid| == UID_LENGTH && |tid| == Decimal.TID_LENGTH && |name| < FNAME_LENGTH
    requires line == Before("RTV", Before(uid, Before(tid, name + "\n"))) && q == Request(uid, tid, name + "\n")
    ensures Parse(line) == Some(q) && Letter(line) == 'R' && UsedName('R', q.args) == Some(name)
    ensures var reply := Print(uid, tid, "R", name); reply != [] && Confirms(q, line, reply)
  {
    NoSpace(uid);
    NoSpace(tid);
    ParseRetrieval(uid, tid, line, q.args);
    PrintedNameIsUsed(name, 0);
    ConfirmationFits(uid, tid, "R", name, q, line);
  }

  // ---------- an upload and a retrieval ----------

  lemma ClearedAs(line: string, data: Bytes, reply: string, q: Request, c: Command)
    requires Parse(line) == Some(q) && Confirms(q, line, reply) && CommandFor(Letter(line), q.args, data) == Some(c)
    ensures Cleared(line, data, Some(reply)) == Some((q.uid, c))
  {
  }

  lemma StoredAsSent(s: Store, z: Store, line: string, q: Request, name: string, data: Bytes, reply: string)
    requires Parse(line) == Some(q) && Letter(line) == 'U' && UploadFields(q.args) == Some((name, |data|))
    requires Confirms(q, line, reply) && Served(s, z, line, data, Some(reply))
    requires Exec(s, q.uid, Upload(name, data)).1 == Ok
    ensures z == Exec(s, q.uid, Upload(name, data)).0
  {
    ClearedAs(line, data, reply, q, Upload(name, data));
  }

  lemma ReadingKeeps(s: Store, z: Store, uid: string, name: string)
    requires Becomes(s, z, uid, Some(Retrieve(name)))
    ensures z == s
  {
  }

  lemma OnlyRead(s: Store, z: Store, line: string, q: Request, name: string, none: Bytes, reply: string)
    requires Parse(line) == Some(q) && Letter(line) == 'R' && UsedName('R', q.args) == Some(name)
    requires Confirms(q, line, reply) && Served(s, z, line, none, Some(reply))
    ensures z == s
  {
    ClearedAs(line, none, reply, q, Retrieve(name));
    ReadingKeeps(s, z, q.uid, name);
  }

  lemma ReplyOfFile(s: Store, uid: string, args: string, name: string)
    requires UsedName('R', args) == Some(name) && Fetched(s, uid, Retrieve(name)).Some?
    ensures RetrieveReply(s, uid, args) == RetrieveWire(Fetched(s, uid, Retrieve(name)).value)
    ensures !Strays(s, uid, CommandFor('R', args, []))
  {
  }

  lemma SentBack(s: Store, wire: Bytes, line: string, q: Request, name: string, none: Bytes, reply: string)
    requires Parse(line) == Some(q) && Letter(line) == 'R' && UsedName('R', q.args) == Some(name)
    requires Confirms(q, line, reply) && Handled(wire, s, line, none, Some(reply))
    requires Fetched(s, q.uid, Retrieve(name)).Some?
    ensures wire == RetrieveWire(Fetched(s, q.uid, Retrieve(name)).value)
  {
    ReplyOfFile(s, q.uid, q.args, name);
    assert Answers(wire, s, 'R', q, none);
  }

  method SendAndRead(uid: Word, tid: Word, name: Word, data: Bytes) returns (sock: Socket, line: string)
    requires |uid| == UID_LENGTH && |tid| == Decimal.TID_LENGTH && |name| < FNAME_LENGTH && |data| < 0x8000_0000
    requires '\0' !in uid && '\0' !in tid && '\0' !in name
    ensures fresh(sock) && sock.inbox == data + "\n"
    ensures line == UploadHeader(uid, tid, name, Decimal.Dec(|data|)) + "\n"
  {
    ghost var header := UploadHeader(uid, tid, name, Decimal.Dec(|data|));
    NoSpace(uid);
    NoSpace(tid);
    NoSpace(name);
    SizeFits(|data|);
    UploadRead(uid, tid, name, Decimal.Dec(|data|), data + "\n", header);
    assert header + data + "\n" == header + (data + "\n");
    var wire := SendUpload(uid, tid, name, data);
    sock := new Socket(wire);
    var buffer := new char[128];
    line := ReadCommand(sock, buffer);
  }

  method SendAndStore(fs: FileServer, uid: Word, tid: Word, name: Word, data: Bytes)
    requires |uid| == UID_LENGTH && |tid| == Decimal.TID_LENGTH && |name| < FNAME_LENGTH && |data| < 0x8000_0000
    requires '\0' !in uid && '\0' !in tid && '\0' !in name
    requires Exec(fs.dirs, uid, Upload(name, data)).1 == Ok
    modifies fs
    ensures fs.dirs == Exec(old(fs.dirs), uid, Upload(name, data)).0
  {
    var sock, line := SendAndRead(uid, tid, name, data);
    UploadCleared(uid, tid, name, |data|, line, Request(uid, tid, name + " " + Decimal.Dec(|data|) + " \n"));
    var batch := new char[BATCH];
    var confirmation := Print(uid, tid, "U", name);
    assert (data + "\n")[..|data|] == data;
    var reply, stored := fs.Handle(line, sock, batch, Some(confirmation));
    StoredAsSent(old(fs.dirs), fs.dirs, line, Parse(line).value, name, data, confirmation);
  }

  method Ask(uid: Word, tid: Word, name: Word) returns (sock: Socket, line: string)
    requires |uid| == UID_LENGTH && |tid| == Decimal.TID_LENGTH && |name| < FNAME_LENGTH
    requires '\0' !in uid && '\0' !in tid && '\0' !in name
    ensures fresh(sock) && line == Before("RTV", Before(uid, Before(tid, name + "\n")))
  {
    var args := Before(uid, Before(tid, name + "\n"));
    NoSpace(uid);
    NoSpace(tid);
    NoSpace(name);
    LineRead("RTV", args);
    sock := new Socket(Before("RTV", args));
    var buffer := new char[128];
    line := ReadCommand(sock, buffer);
  }

  method FetchBack(fs: FileServer, uid: Word, tid: Word, name: Word, ghost data: Bytes) returns (back: Option<Bytes>)
    requires |uid| == UID_LENGTH && |tid| == Decimal.TID_LENGTH && |name| < FNAME_LENGTH && |data| < 0x8000_0000
    requires '\0' !in uid && '\0' !in tid && '\0' !in name
    requires Fetched(fs.dirs, uid, Retrieve(name)) == Some(data)
    modifies fs
    ensures fs.dirs == old(fs.dirs) && back == Some(data)
  {
    var sock, line := Ask(uid, tid, name);
    RetrievalCleared(uid, tid, name, line, Request(uid, tid, name + "\n"));
    var batch := new char[BATCH];
    var confirmation := Print(uid, tid, "R", name);
    var wire, none := fs.Handle(line, sock, batch, Some(confirmation));
    OnlyRead(old(fs.dirs), fs.dirs, line, Parse(line).value, name, none, confirmation);
    SentBack(old(fs.dirs), wire, line, Parse(line).value, name, none, confirmation);
    SizeFits(|data|);
    var reply := new Socket(wire);
    back := ReceiveRetrieved(reply, batch, Given(data));
  }

  /**
   * What a client uploads is what it gets back, for every content, every one-token name shorter than 24, and
   * however the connections split the bytes: from the client's file through the printed header, the server's
   * framing, parsing and validation, and its batches into the store, and back again through the printed reply.
   */
  method UploadThenRetrieve(fs: FileServer, uid: Word, tid: Word, later: Word, name: Word, data: Bytes)
    returns (back: Option<Bytes>)
    requires |uid| == UID_LENGTH && |tid| == |later| == Decimal.TID_LENGTH
    requires |name| < FNAME_LENGTH && |data| < 0x8000_0000
    requires '\0' !in uid && '\0' !in tid && '\0' !in later && '\0' !in name
    requires Exec(fs.dirs, uid, Upload(name, data)).1 == Ok
    modifies fs
    ensures fs.dirs == Exec(old(fs.dirs), uid, Upload(name, data)).0
    ensures back == Some(data)
  {
    UploadIsFound(fs.dirs, uid, name, data);
    SendAndStore(fs, uid, tid, name, data);
    back := FetchBack(fs, uid, later, name, data);
  }

  // ---------- a listing ----------

  /** AS's answer to the validation of an LST: a confirmation of L, or E. */
  function ListAnswer(uid: string, tid: string, approved: bool): string {
    P.Print(P.Cnf(uid, tid, P.FopText(if approved then "L" else "E", None)))
  }

  lemma {:induction false} NoMore(s: string)
    requires ' ' !in s
    ensures PointToArgs(s) == None
  {
    if s != [] {
      assert s[0] in s && forall c | c in s[1..] :: c in s;
      NoMore(s[1..]);
    }
  }

  lemma ParseList(uid: string, tid: string, line: string)
    requires |uid| == UID_LENGTH && |tid| == Decimal.TID_LENGTH && ' ' !in uid && ' ' !in tid
    requires line == Before("LST", Before(uid, tid + "\n"))
    ensures Parse(line) == Some(Request(uid, tid, "")) && Letter(line) == 'L'
  {
    PointPast("LST", Before(uid, tid + "\n"));
    PointPast(uid, tid + "\n");
    NoMore(tid + "\n");
    assert Before(uid, tid + "\n")[..UID_LENGTH] == uid && (tid + "\n")[..Decimal.TID_LENGTH] == tid;
    assert Take(line, 3) == "LST";
  }

  lemma ListConfirmed(uid: Word, tid: Word, approved: bool, line: string)
    requires Letter(line) == 'L'
    ensures ListAnswer(uid, tid, approved) != []
    ensures Confirms(Request(uid, tid, ""), line, ListAnswer(uid, tid, approved)) <==> approved
  {
    var fop := if approved then "L" else "E";
    CnfFields(uid, tid, fop, None);
    ShownDecides(Request(uid, tid, ""), line, ListAnswer(uid, tid, approved), uid, tid, fop, "");
  }

  method AskList(uid: Word, tid: Word) returns (sock: Socket, line: string)
    requires |uid| == UID_LENGTH && |tid| == Decimal.TID_LENGTH && '\0' !in uid && '\0' !in tid
    ensures fresh(sock) && line == Before("LST", Before(uid, tid + "\n"))
  {
    var args := Before(uid, tid + "\n");
    NoSpace(uid);
    NoSpace(tid);
    LineRead("LST", args);
    sock := new Socket(Before("LST", args));
    var buffer := new char[128];
    line := ReadCommand(sock, buffer);
  }

  /** What the server answers: a listing of the directory if there is one and it was approved, else a failure. */
  method AnswerList(fs: FileServer, uid: Word, tid: Word, approved: bool) returns (wire: Bytes)
    requires |uid| == UID_LENGTH && |tid| == Decimal.TID_LENGTH && '\0' !in uid && '\0' !in tid
    modifies fs
    ensures fs.dirs == old(fs.dirs)
    ensures if approved then ListReply(wire, fs.dirs, uid) else wire == Listing.Invalid()
  {
    var sock, line := AskList(uid, tid);
    NoSpace(uid);
    NoSpace(tid);
    ParseList(uid, tid, line);
    ListConfirmed(uid, tid, approved, line);
    var batch := new char[BATCH];
    ghost var none;
    wire, none := fs.Handle(line, sock, batch, Some(ListAnswer(uid, tid, approved)));
  }

  /**
   * What a client lists is the directory: as many names as files, each with its size, none twice; or nothing, if
   * there is no directory or AS did not approve.
   */
  method ListDirectory(fs: FileServer, uid: Word, tid: Word, approved: bool)
    returns (files: seq<string>, sizes: seq<int>)
    requires |uid| == UID_LENGTH && |tid| == Decimal.TID_LENGTH && '\0' !in uid && '\0' !in tid
    requires uid in fs.dirs ==> forall name | name in fs.dirs[uid] :: IsWord(name)
    modifies fs
    ensures fs.dirs == old(fs.dirs)
    ensures |files| == |sizes| == if approved && uid in fs.dirs then |fs.dirs[uid]| else 0
    ensures forall j, k | 0 <= j < k < |files| :: files[j] != files[k]
    ensures forall k | 0 <= k < |files| ::
              uid in fs.dirs && files[k] in fs.dirs[uid] && sizes[k] == |fs.dirs[uid][files[k]]|
  {
    var wire := AnswerList(fs, uid, tid, approved);
    ghost var es := [];
    if approved && uid in fs.dirs {
      es :| Lists(es, fs.dirs[uid]) && wire == Listing.Reply(es);
    }
    forall e | e in es ensures IsWord(e.0) {
      var i :| 0 <= i < |es| && es[i] == e;
    }
    Listing.ReplyIsMessage(es);
    var sock := new Socket(wire);
    var buffer := new char[|wire| + 1];
    assert wire + [] == wire;
    var text := ReceiveMessage(sock, buffer, '\n', wire, []);
    files, sizes := Listing.ParseReply(text, es);
  }
}
