/** The File Server's commands, in place on its directories. */
module FileServing {
  import opened Options
  import opened Stream
  import opened FileStore
  import opened FileCommands
  import opened Transfer
  import Decimal
  import Listing

  function StatusLine(command: string, text: string): string {
    command + " " + text + "\n"
  }

  /** The reply line that the server puts together in a buffer of its own. */
  method Answer(command: string, text: string) returns (wire: string)
    requires |command| == 3
    ensures wire == StatusLine(command, text)
  {
    var actualReply := new char[3 + 10 + |text|];
    var i := Copy(command, actualReply, 0);
    i := Copy(" ", actualReply, i);
    i := Copy(text, actualReply, i);
    i := Copy("\n", actualReply, i);
    wire := actualReply[..i];
  }

  function StatusWord(s: Status): string {
    match s
    case Ok => "OK"
    case Nok => "NOK"
    case Eof => "EOF"
    case Full => "FULL"
    case Dup => "DUP"
    case Failed => "ERR"
  }

  /** The word that starts the reply to a command. */
  function ReplyWord(letter: char): (w: string)
    ensures |w| == 3
  {
    if letter == 'L' then "RLS"
    else if letter == 'R' then "RRT"
    else if letter == 'U' then "RUP"
    else if letter == 'D' then "RDL"
    else if letter == 'X' then "RRM"
    else "ERR"
  }

  /** The entries list a directory: each file once, with its size. */
  ghost predicate Lists(es: seq<Listing.Entry>, files: map<string, Bytes>) {
    && |es| == |files|
    && (forall i | 0 <= i < |es| :: es[i].0 in files && es[i].1 == |files[es[i].0]|)
    && (forall i, j | 0 <= i < j < |es| :: es[i].0 != es[j].0)
  }

  /**
   * Sends the request for confirmation until something is received, six times at most; `heard` says what each wait
   * brings. The answer is the first thing heard, and nothing is sent again after it.
   */
  method AskServer(q: Request, heard: seq<Option<string>>) returns (sent: string, asReply: Option<string>, sends: nat)
    requires |heard| == 6
    ensures sent == "VLD " + q.uid + " " + q.tid + "\n"
    ensures 1 <= sends <= 6 && forall k | 0 <= k < sends - 1 :: heard[k].None?
    ensures asReply == heard[sends - 1] && (asReply.None? ==> sends == 6)
  {
    sent := "VLD " + q.uid + " " + q.tid + "\n";
    asReply := heard[0];
    sends := 1;
    while sends <= 5 && asReply.None?
      invariant 1 <= sends <= 6 && asReply == heard[sends - 1]
      invariant forall k | 0 <= k < sends - 1 :: heard[k].None?
    {
      asReply := heard[sends];
      sends := sends + 1;
    }
  }

  // ---------- what each command answers ----------

  /** The size that an upload announces. */
  function UploadSize(args: string): int {
    if UploadFields(args).Some? then UploadFields(args).value.1 else 0
  }

  function RetrieveReply(s: Store, uid: string, args: string): Bytes {
    var name := UsedName('R', args);
    if uid !in s then StatusLine("RRT", "NOK")
    else if name.None? then StatusLine("RRT", "ERR")
    else
      var t := Target(s, uid, name.value);
      if t.None? then StatusLine("RRT", "ERR")
      else if t.value.1 !in s[t.value.0] then StatusLine("RRT", "EOF")
      else RetrieveWire(s[t.value.0][t.value.1])
  }

  ghost predicate ListReply(wire: Bytes, s: Store, uid: string) {
    if uid !in s then wire == StatusLine("RLS", "ERR") else exists es :: Lists(es, s[uid]) && wire == Listing.Reply(es)
  }

  /** The line with the status of a command that changes files. */
  function StatusReply(s: Store, uid: string, letter: char, c: Option<Command>): Bytes {
    StatusLine(ReplyWord(letter), StatusWord(if c.Some? then Exec(s, uid, c.value).1 else Failed))
  }

  /** A command is carried out on a path that leads to no file of any user. */
  predicate Strays(s: Store, uid: string, c: Option<Command>) {
    c.Some? && !Followed(s, uid, c.value)
  }

  ghost predicate StartsWith(wire: Bytes, command: string) {
    |wire| >= |command| && wire[..|command|] == command
  }

  /**
   * The reply to a validated command. Arguments of DEL that do not end in a newline get an error reply as well. On a
   * path that strays nothing is known of the reply but its first word.
   */
  ghost predicate Answers(wire: Bytes, s: Store, letter: char, q: Request, data: Bytes) {
    var c := CommandFor(letter, q.args, data);
    if Strays(s, q.uid, c) then StartsWith(wire, ReplyWord(letter)) else
      match letter
      case 'L' => ListReply(wire, s, q.uid)
      case 'R' => wire == RetrieveReply(s, q.uid, q.args)
      case 'U' => wire == StatusReply(s, q.uid, 'U', c)
      case 'X' => wire == StatusReply(s, q.uid, 'X', c)
      case 'D' =>
        q.args != [] ==>
          wire ==
          (if q.args[|q.args| - 1] != '\n' then StatusLine("RDL", "ERR") else "") + StatusReply(s, q.uid, 'D', c)
      case _ => wire == []
  }

  /** Arguments without a name and a size get an error reply, whatever was approved. */
  lemma MalformedUpload(wire: Bytes, s: Store, q: Request, data: Bytes)
    requires UploadFields(q.args).None?
    ensures Answers(wire, s, 'U', q, data) <==> wire == "RUP ERR\n"
  {
    assert "RUP" + " " + "ERR" + "\n" == "RUP ERR\n";
  }

  /** Arguments of DEL without a newline: an error reply, and then the reply as if their last character were one. */
  lemma UnterminatedDelete(wire: Bytes, s: Store, q: Request, name: string, c: char, data: Bytes)
    requires q.args == name + [c] && c != '\n' && Followed(s, q.uid, FileStore.Delete(name))
    ensures Answers(wire, s, 'D', q, data)
       <==> exists more :: wire == "RDL ERR\n" + more && Answers(more, s, 'D', q.(args := name + "\n"), data)
  {
    assert q.args[..|q.args| - 1] == name == (name + "\n")[..|name + "\n"| - 1];
    var more := StatusReply(s, q.uid, 'D', CommandFor('D', q.args, data));
    assert "RDL" + " " + "ERR" + "\n" == "RDL ERR\n";
    assert Answers(more, s, 'D', q.(args := name + "\n"), data);
  }

  /** The store z after the connection, likewise: of a path that strays nothing is known, unless it is only read. */
  ghost predicate Becomes(s: Store, z: Store, uid: string, c: Option<Command>) {
    if c.None? then z == s
    else if c.value.Retrieve? || !Strays(s, uid, c) then z == Exec(s, uid, c.value).0
    else true
  }

  ghost predicate Served(s: Store, z: Store, line: string, data: Bytes, asReply: Option<string>) {
    var c := Cleared(line, data, asReply);
    if c.None? then z == s else Becomes(s, z, c.value.0, Some(c.value.1))
  }

  /** The reply to any line, given what came back for the validation. */
  ghost predicate Handled(wire: Bytes, s: Store, line: string, data: Bytes, asReply: Option<string>) {
    var q := Parse(line);
    if q.None? then wire == StatusLine(ReplyWord(Letter(line)), "ERR")
    else if asReply.None? || !Confirms(q.value, line, asReply.value) then
      wire == StatusLine(ReplyWord(Letter(line)), "INV")
    else Answers(wire, s, Letter(line), q.value, data)
  }

  /** A line that starts with no command gets an error reply; with a UID and a TID it counts as not validated. */
  lemma UnknownCommand(wire: Bytes, s: Store, line: string, data: Bytes, asReply: Option<string>)
    requires Take(line, 3) !in {"LST", "RTV", "UPL", "DEL", "REM"}
    requires Parse(line).Some? && asReply.Some? ==> !Confirms(Parse(line).value, line, asReply.value)
    ensures Handled(wire, s, line, data, asReply) <==> wire == if Parse(line).None? then "ERR ERR\n" else "ERR INV\n"
  {
    assert "ERR" + " " + "ERR" + "\n" == "ERR ERR\n" && "ERR" + " " + "INV" + "\n" == "ERR INV\n";
  }

  // ---------- the server ----------

  /** The entries so far and the names still to come make up the directory. */
  ghost predicate Collected(es: seq<Listing.Entry>, left: set<string>, files: map<string, Bytes>) {
    && left <= files.Keys && |es| + |left| == |files.Keys|
    && (forall i | 0 <= i < |es| :: es[i].0 in files && es[i].0 !in left && es[i].1 == |files[es[i].0]|)
    && (forall i, j | 0 <= i < j < |es| :: es[i].0 != es[j].0)
  }

  lemma CollectOne(es: seq<Listing.Entry>, left: set<string>, files: map<string, Bytes>, name: string)
    requires Collected(es, left, files) && name in left
    ensures Collected(es + [(name, |files[name]|)], left - {name}, files)
  {
  }

  lemma OneLess(files: map<string, Bytes>, name: string)
    requires name in files
    ensures |files - {name}| < |files|
  {
    assert files == (files - {name})[name := files[name]];
  }

  class FileServer {
    var dirs: Store

    constructor ()
      ensures dirs == map[]
    {
      dirs := map[];
    }

    /**
     * UPL after validation. The data is read only if there is room and the name is free; what is stored is what
     * was sent, if all of it was, and nothing for a negative size. Here and below the answer to a path that strays
     * stands for whatever the operating system makes of it, and is not promised.
     */
    method Upload(uid: string, args: string, sock: Socket, buffer: array<char>)
      returns (status: Status, ghost data: Bytes)
      requires buffer.Length == BATCH
      modifies this, sock, buffer
      ensures if UploadFields(args).None? then status == Failed && dirs == old(dirs)
              else
                var c := FileStore.Upload(UploadFields(args).value.0, data);
                Followed(old(dirs), uid, c) ==> (dirs, status) == Exec(old(dirs), uid, c)
      ensures |data| == Amount(UploadSize(args))
      ensures |data| <= |old(sock.inbox)| ==> data == old(sock.inbox)[..|data|]
    {
      var size := UploadSize(args);
      data := if Amount(size) <= |sock.inbox| then sock.inbox[..Amount(size)] else seq(Amount(size), _ => '\0');
      var fields := UploadFields(args);
      if fields.None? {
        return Failed, data;
      }
      if uid !in dirs {
        dirs := dirs[uid := map[]];
      }
      var amountFiles := |dirs[uid]|;
      if amountFiles >= MAX_FILES {
        return Full, data;
      }
      var path := Target(dirs, uid, fields.value.0);
      if path.None? {
        return Failed, data;
      }
      var (directory, name) := path.value;
      if name in dirs[directory] {
        return Dup, data;
      }
      var file := ReceiveFile(sock, buffer, size);
      data := file;
      dirs := dirs[directory := dirs[directory][name := file]];
      status := Ok;
    }

    /** RTV after validation: the reply is put together in a buffer allocated for it, and every index is within. */
    method Retrieve(uid: string, args: string) returns (wire: Bytes)
      ensures Strays(dirs, uid, CommandFor('R', args, [])) || wire == RetrieveReply(dirs, uid, args)
      ensures StartsWith(wire, "RRT")
    {
      if uid !in dirs {
        wire := Answer("RRT", "NOK");
        return;
      }
      var name := UntilNewline(args, FNAME_LENGTH);
      if name.None? {
        wire := Answer("RRT", "ERR");
        return;
      }
      var path := Target(dirs, uid, name.value);
      if path.None? {
        wire := Answer("RRT", "ERR");
      } else if path.value.1 !in dirs[path.value.0] {
        wire := Answer("RRT", "EOF");
      } else {
        wire := FileReply(dirs[path.value.0][path.value.1]);
      }
    }

    method FileReply(data: Bytes) returns (wire: Bytes)
      ensures wire == RetrieveWire(data)
    {
      var fileSizeStr := Decimal.Dec(|data|);
      var replySize := |data| + 4 + 3 + |fileSizeStr| + 6;
      var replyBuffer := new char[replySize + 1];
      var i := Copy("RRT ", replyBuffer, 0);
      i := Copy("OK ", replyBuffer, i);
      i := Copy(fileSizeStr, replyBuffer, i);
      i := Copy(" ", replyBuffer, i);
      i := Copy(data, replyBuffer, i);
      i := Copy("\n\0", replyBuffer, i);
      wire := replyBuffer[..i];
      assert "RRT " + "OK " == "RRT OK ";
    }

    /** LST after validation: the directory's files, in whatever order the directory gives them. */
    method List(uid: string) returns (wire: string)
      ensures ListReply(wire, dirs, uid)
    {
      ghost var es: seq<Listing.Entry> := [];
      if uid !in dirs {
        wire := Answer("RLS", "ERR");
        return;
      }
      var amountFiles := 0;
      var buffer := "";
      var left := dirs[uid].Keys;
      while left != {}
        invariant Collected(es, left, dirs[uid]) && amountFiles == |es| && buffer == Listing.Body(es)
        decreases |left|
      {
        var name :| name in left;
        CollectOne(es, left, dirs[uid], name);
        Listing.BodyAppend(es, (name, |dirs[uid][name]|));
        left := left - {name};
        buffer := buffer + " " + name + " " + Decimal.Dec(|dirs[uid][name]|);
        es := es + [(name, |dirs[uid][name]|)];
        amountFiles := amountFiles + 1;
      }
      assert |dirs[uid].Keys| == |dirs[uid]|;
      assert Lists(es, dirs[uid]);
      if amountFiles == 0 {
        wire := Answer("RLS", "EOF");
      } else {
        wire := Answer("RLS", Decimal.Dec(amountFiles) + buffer);
      }
    }

    /**
     * DEL after validation. Arguments that do not end in a newline get an extra error reply, and are used all the
     * same.
     */
    method Delete(uid: string, args: string) returns (status: Status, malformed: bool)
      requires args != []
      modifies this
      ensures malformed == (args[|args| - 1] != '\n')
      ensures var c := FileStore.Delete(args[..|args| - 1]);
              Followed(old(dirs), uid, c) ==> (dirs, status) == Exec(old(dirs), uid, c)
    {
      malformed := args[|args| - 1] != '\n';
      var fileName := args[..|args| - 1];
      if uid !in dirs {
        return Nok, malformed;
      }
      var path := Target(dirs, uid, fileName);
      if path.None? {
        return Failed, malformed;
      }
      var (directory, name) := path.value;
      if name !in dirs[directory] {
        return Eof, malformed;
      }
      dirs := dirs[directory := dirs[directory] - {name}];
      status := Ok;
    }

    /** REM after validation: every file goes, then the directory. */
    method Remove(uid: string) returns (status: Status)
      modifies this
      ensures dirs == old(dirs) - {uid} && status == if uid in old(dirs) then Ok else Nok
      ensures (dirs, status) == Exec(old(dirs), uid, FileStore.Remove)
    {
      if uid !in dirs {
        assert dirs - {uid} == dirs;
        return Nok;
      }
      ghost var was := dirs;
      while dirs[uid] != map[]
        invariant uid in dirs && dirs - {uid} == was - {uid}
        decreases |dirs[uid]|
      {
        var name :| name in dirs[uid];
        OneLess(dirs[uid], name);
        dirs := dirs[uid := dirs[uid] - {name}];
      }
      dirs := dirs - {uid};
      status := Ok;
    }

    method ExecuteDelete(q: Request, ghost data: Bytes) returns (wire: Bytes)
      requires q.args != []
      modifies this
      ensures Becomes(old(dirs), dirs, q.uid, CommandFor('D', q.args, data))
      ensures Answers(wire, old(dirs), 'D', q, data)
    {
      var status, malformed := Delete(q.uid, q.args);
      var answer := Answer("RDL", StatusWord(status));
      if malformed {
        var complaint := Answer("RDL", "ERR");
        wire := complaint + answer;
      } else {
        wire := answer;
      }
    }

    method Execute(letter: char, q: Request, sock: Socket, buffer: array<char>)
      returns (wire: Bytes, ghost data: Bytes)
      requires buffer.Length == BATCH
      modifies this, sock, buffer
      ensures Becomes(old(dirs), dirs, q.uid, CommandFor(letter, q.args, data))
      ensures Answers(wire, old(dirs), letter, q, data)
      ensures letter == 'U' ==> |data| == Amount(UploadSize(q.args))
      ensures letter == 'U' && |data| <= |old(sock.inbox)| ==> data == old(sock.inbox)[..|data|]
    {
      data := [];
      wire := [];
      if letter == 'L' {
        wire := List(q.uid);
      } else if letter == 'R' {
        wire := Retrieve(q.uid, q.args);
      } else if letter == 'U' {
        var status;
        status, data := Upload(q.uid, q.args, sock, buffer);
        wire := Answer("RUP", StatusWord(status));
      } else if letter == 'D' && q.args != [] {
        wire := ExecuteDelete(q, data);
      } else if letter == 'X' {
        var status := Remove(q.uid);
        wire := Answer("RRM", StatusWord(status));
      }
    }

    /**
     * One connection, once its command line has been read: parse, have the command validated, carry it out. The
     * store changes and the reply is as `Served` and `Handled` say.
     */
    method Handle(line: string, sock: Socket, buffer: array<char>, asReply: Option<string>)
      returns (wire: Bytes, ghost data: Bytes)
      requires buffer.Length == BATCH && (asReply.Some? ==> asReply.value != [])
      modifies this, sock, buffer
      ensures Served(old(dirs), dirs, line, data, asReply)
      ensures Handled(wire, old(dirs), line, data, asReply)
      ensures var q := Parse(line);
              q.Some? && Letter(line) == 'U' && asReply.Some? && Confirms(q.value, line, asReply.value) ==>
                && |data| == Amount(UploadSize(q.value.args))
                && (|data| <= |old(sock.inbox)| ==> data == old(sock.inbox)[..|data|])
    {
      data := [];
      var q := Parse(line);
      if q.None? {
        wire := Answer(ReplyWord(Letter(line)), "ERR");
      } else if asReply.Some? && Validate(q.value, line, asReply.value) {
        wire, data := Execute(Letter(line), q.value, sock, buffer);
      } else {
        wire := Answer(ReplyWord(Letter(line)), "INV");
      }
    }
  }
}
