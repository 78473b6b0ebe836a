/** Uploads and retrievals, byte for byte: both ends of each transfer over a connection that may split it anywhere. */
module Transfer {
  import opened Options
  import opened Text
  import opened Stream
  import opened FileCommands
  import Decimal

  const BATCH := 512

  // ---------- what goes over the wire ----------

  /** The printed header of an upload. */
  function UploadHeader(uid: string, tid: string, name: string, size: string): string {
    "UPL" + " " + uid + " " + tid + " " + name + " " + size + " "
  }

  function UploadWire(uid: string, tid: string, name: string, data: Bytes): Bytes {
    UploadHeader(uid, tid, name, Decimal.Dec(|data|)) + data + "\n"
  }

  /** The File Server sends the terminating NUL too. */
  function RetrieveWire(data: Bytes): Bytes {
    "RRT OK " + Decimal.Dec(|data|) + " " + data + "\n\0"
  }

  /** The client prints the header, then sends header, data and a newline in three pieces. */
  method SendUpload(uid: string, tid: string, name: string, data: Bytes) returns (wire: Bytes)
    ensures wire == UploadWire(uid, tid, name, data)
  {
    var buffer := UploadHeader(uid, tid, name, Decimal.Dec(|data|));
    wire := buffer;
    wire := wire + data;
    wire := wire + "\n";
  }

  // ---------- receiving ----------

  /** A word, the space that ends it, and what follows. */
  function Before(w: Bytes, rest: Bytes): Bytes {
    w + " " + rest
  }

  /** The first read gets the first word and its space, and leaves the rest. */
  lemma FrontWord(w: Bytes, rest: Bytes)
    requires ' ' !in w
    ensures var s := Before(w, rest); ' ' in s && Upto(s, ' ') == w + " " && s[|w| + 1..] == rest
  {
    var s := Before(w, rest);
    assert s[|w|] == ' ';
    assert s == (w + " ") + rest;
    assert IsMessage(w + " ", ' ');
    UptoMessage(w + " ", rest, ' ');
  }

  /** Reads up to the next delimiter behind the first `acc` bytes of the buffer. */
  method ReceivePiece(sock: Socket, buffer: array<char>, acc: nat, end: char, ghost p: Bytes) returns (n: nat)
    requires p == Upto(sock.inbox, end) && acc + |Terminated(p)| <= buffer.Length
    modifies sock, buffer
    ensures n == acc + |p| + if p == [] || end in old(sock.inbox) then 0 else 1
    ensures p == [] ==> buffer[..] == old(buffer[..])
    ensures p != [] ==> buffer[..acc + |p|] == old(buffer[..acc]) + p && buffer[acc + |p|] == '\0'
    ensures sock.inbox == old(sock.inbox)[|p|..]
  {
    ghost var was := buffer[..];
    var got := sock.ReceiveUntilChar(buffer, acc, end);
    n := acc + got;
    if p != [] {
      SpliceFront(was, acc, p);
      assert buffer[..acc + |p|] == buffer[..][..acc + |p|];
      assert buffer[acc + |p|] == buffer[..][acc + |p|];
    }
  }

  /** Reads one more word. */
  method ReceiveWord(sock: Socket, buffer: array<char>, acc: nat, ghost w: Bytes, ghost rest: Bytes) returns (n: nat)
    requires sock.inbox == Before(w, rest) && ' ' !in w && acc + |w| + 1 < buffer.Length
    modifies sock, buffer
    ensures n == acc + |w| + 1 && buffer[..n] == old(buffer[..acc]) + w + " "
    ensures sock.inbox == rest
  {
    FrontWord(w, rest);
    n := ReceivePiece(sock, buffer, acc, ' ', w + " ");
  }

  /** The number of bytes in a file of the announced size: a negative size announces none. */
  function Amount(size: int): nat {
    if size > 0 then size else 0
  }

  /** Both ends read a file of known size in batches, each batch overwriting the buffer from its start. */
  method ReceiveFile(sock: Socket, buffer: array<char>, size: int) returns (file: Bytes)
    requires buffer.Length == BATCH
    modifies sock, buffer
    ensures |file| == Amount(size)
    ensures |file| <= |old(sock.inbox)| ==> file == old(sock.inbox)[..|file|] && sock.inbox == old(sock.inbox)[|file|..]
  {
    ghost var stream := sock.inbox;
    file := [];
    var left := size;
    while left > 0
      invariant |file| + Amount(left) == Amount(size)
      invariant Amount(size) <= |stream| ==> file == stream[..|file|] && sock.inbox == stream[|file|..]
    {
      var readingSize := if left > BATCH then BATCH else left;
      ghost var was, rest := buffer[..], sock.inbox;
      var n := sock.ReceiveMessage(buffer, 0, readingSize);
      if Amount(size) <= |stream| {
        assert buffer[..readingSize] == buffer[..][..readingSize] == rest[..readingSize];
        assert stream[..|file| + readingSize] == file + rest[..readingSize];
      }
      left := left - readingSize;
      file := file + buffer[..readingSize];
    }
  }

  /** Copies a string into the buffer, byte by byte; returns the position after it. */
  method Copy(s: Bytes, buffer: array<char>, at: nat) returns (i: nat)
    requires at + |s| <= buffer.Length
    modifies buffer
    ensures i == at + |s| && buffer[..i] == old(buffer[..at]) + s
  {
    i := at;
    var j := 0;
    while j < |s|
      invariant j <= |s| && i == at + j
      invariant buffer[..i] == old(buffer[..at]) + s[..j]
    {
      buffer[i] := s[j];
      assert buffer[..i + 1] == buffer[..i] + [s[j]];
      assert s[..j + 1] == s[..j] + [s[j]];
      i := i + 1;
      j := j + 1;
    }
    assert s[..j] == s;
  }

  // ---------- C strings ----------

  /** The C string at the start of a buffer. */
  function CText(s: Bytes): string {
    if s == [] || s[0] == '\0' then [] else [s[0]] + CText(s[1..])
  }

  lemma {:induction false} CTextOf(s: string, rest: Bytes)
    requires '\0' !in s && (rest == [] || rest[0] == '\0')
    ensures CText(s + rest) == s
  {
    if s == [] {
      assert s + rest == rest;
    } else {
      assert s[0] in s && (s + rest)[1..] == s[1..] + rest;
      CTextOf(s[1..], rest);
    }
  }

  /** What lies behind a NUL does not matter. */
  lemma {:induction false} CTextCut(b: Bytes, k: nat)
    requires k < |b| && b[k] == '\0'
    ensures CText(b) == CText(b[..k])
    decreases k
  {
    if k > 0 && b[0] != '\0' {
      assert b[..k][1..] == b[1..][..k - 1];
      CTextCut(b[1..], k - 1);
    }
  }

  // ---------- the client's side of a retrieval ----------

  /** A read up to a space takes the last word of a reply to its end. */
  lemma LastWord(status: string)
    requires IsGraphWord(status)
    ensures var s := status + "\n"; ' ' !in s && Upto(s, ' ') == s
  {
    var s := status + "\n";
    assert forall c | c in status :: Graph(c);
    assert s[..|s|] == s;
    UptoScan(s, ' ', |s|);
  }

  lemma FirstField(status: string, end: char, text: string)
    requires IsGraphWord(status) && Blank(end) && text == [' '] + (status + [end])
    ensures |Tokens(text)| > 0 && Tokens(text)[0] == status
  {
    GraphIsWord(status);
    TokensSkipsBlank(' ', status + [end]);
    TokensStep(status, [end]);
  }

  lemma SecondField(s: string, status: string, end: char)
    requires IsGraphWord(status) && Blank(end) && s == "RRT " + status + [end]
    ensures Field(s, 1) == status
  {
    var after := [' '] + (status + [end]);
    assert s == "RRT" + after;
    FirstField(status, end, after);
    TokensStep("RRT", after);
  }

  lemma StatusField(text: Bytes, status: string, end: char, rest: Bytes)
    requires IsGraphWord(status) && Blank(end) && (rest == [] || rest[0] == '\0')
    requires text == "RRT " + status + [end] + rest
    ensures Field(CText(text), 1) == status
  {
    var s := "RRT " + status + [end];
    assert '\0' !in s by {
      assert forall c | c in status :: Graph(c);
    }
    CTextOf(s, rest);
    SecondField(s, status, end);
  }

  /** What the server sends for a retrieval: a file, or a status word other than OK. */
  datatype RetrieveAnswer = Given(data: Bytes) | Denied(status: string)
  {
    function Wire(): Bytes {
      if Given? then RetrieveWire(data) else "RRT" + " " + status + "\n"
    }

    predicate Fits(length: nat) {
      if Given? then |Decimal.Dec(|data|)| + 9 <= length
      else IsGraphWord(status) && status != "OK" && |status| + 7 <= length
    }
  }

  /** What the second read brings: the status and the space behind it, or the rest of the reply. */
  function Second(answer: RetrieveAnswer): Bytes {
    if answer.Given? then "OK " else answer.status + "\n"
  }

  function Rest(answer: RetrieveAnswer): Bytes {
    if answer.Given? then Before(Decimal.Dec(|answer.data|), answer.data + "\n\0") else ""
  }

  lemma Pieces(answer: RetrieveAnswer, tail: Bytes)
    requires tail == Second(answer) + Rest(answer)
    ensures answer.Wire() == Before("RRT", tail) && tail[|Second(answer)|..] == Rest(answer)
    ensures answer.Fits(BATCH) ==> 0 < |Second(answer)| && 4 + |Second(answer)| + 2 <= BATCH
  {
    if answer.Given? {
      var d, more := Decimal.Dec(|answer.data|), answer.data + "\n\0";
      assert Before("RRT", tail) == "RRT OK " + Rest(answer);
      assert "RRT OK " + (d + " " + more) == "RRT OK " + d + " " + more;
      assert "RRT OK " + d + " " + more == "RRT OK " + d + " " + answer.data + "\n\0";
    } else {
      assert tail == answer.status + "\n";
    }
  }

  lemma SecondRead(answer: RetrieveAnswer, tail: Bytes)
    requires answer.Fits(BATCH) && tail == Second(answer) + Rest(answer)
    ensures Upto(tail, ' ') == Second(answer) && (' ' in tail <==> answer.Given?)
  {
    if answer.Given? {
      FrontWord("OK", Rest(answer));
      assert tail == Before("OK", Rest(answer));
    } else {
      LastWord(answer.status);
      assert tail == answer.status + "\n";
    }
  }

  lemma StatusOf(answer: RetrieveAnswer, text: Bytes)
    requires answer.Fits(BATCH) && text == "RRT " + Second(answer) + (if answer.Given? then [] else ['\0'])
    ensures Field(CText(text), 1) == if answer.Given? then "OK" else answer.status
  {
    if answer.Given? {
      assert text == "RRT " + "OK" + [' '] + [];
      StatusField(text, "OK", ' ', []);
    } else {
      assert text == "RRT " + answer.status + ['\n'] + ['\0'];
      StatusField(text, answer.status, '\n', ['\0']);
    }
  }

  method ReceiveTwo(sock: Socket, buffer: array<char>, ghost tail: Bytes, ghost second: Bytes) returns (m: nat)
    requires sock.inbox == Before("RRT", tail) && second == Upto(tail, ' ') != [] && 4 + |second| + 1 < buffer.Length
    modifies sock, buffer
    ensures m == 4 + |second| + if ' ' in tail then 0 else 1
    ensures buffer[..m] == "RRT " + second + if ' ' in tail then [] else ['\0']
    ensures sock.inbox == tail[|second|..]
  {
    var n := ReceiveWord(sock, buffer, 0, "RRT", tail);
    assert buffer[..n] == "RRT ";
    m := ReceivePiece(sock, buffer, n, ' ', second);
    assert ' ' !in tail ==> buffer[..m] == buffer[..m - 1] + ['\0'];
  }

  /** Reads the reply word and the status; a status that ends the reply is read together with its newline. */
  method ReceiveStatus(sock: Socket, buffer: array<char>, ghost answer: RetrieveAnswer) returns (m: nat)
    requires buffer.Length == BATCH && sock.inbox == answer.Wire() && answer.Fits(BATCH)
    modifies sock, buffer
    ensures m < buffer.Length && Field(CText(buffer[..m]), 1) == if answer.Given? then "OK" else answer.status
    ensures answer.Given? ==> m == 7 && sock.inbox == Rest(answer)
  {
    ghost var tail := Second(answer) + Rest(answer);
    Pieces(answer, tail);
    SecondRead(answer, tail);
    m := ReceiveTwo(sock, buffer, tail, Second(answer));
    StatusOf(answer, buffer[..m]);
  }

  /** Reads the reply to a retrieval; the file is written only after the status OK. */
  method ReceiveRetrieved(sock: Socket, buffer: array<char>, ghost answer: RetrieveAnswer) returns (file: Option<Bytes>)
    requires buffer.Length == BATCH && sock.inbox == answer.Wire() && answer.Fits(BATCH)
    modifies sock, buffer
    ensures file == if answer.Given? then Some(answer.data) else None
  {
    var m := ReceiveStatus(sock, buffer, answer);
    if Field(CText(buffer[..m]), 1) == "OK" {
      ghost var d := Decimal.Dec(|answer.data|);
      Decimal.DecIsGraphWord(|answer.data|);
      Decimal.ScanOfDec(|answer.data|, " ");
      var n := ReceiveWord(sock, buffer, m, d, answer.data + "\n\0");
      assert buffer[m..n] == d + " ";
      var received := ReceiveFile(sock, buffer, Decimal.ScanInt(buffer[m..n]).1);
      file := Some(received);
    } else {
      file := None;
    }
  }

  // ---------- reading a command ----------

  /** The position behind the word that starts at i, and behind its space. */
  function AfterWord(stream: Bytes, i: nat): (j: nat)
    requires i <= |stream|
    ensures i <= j <= |stream|
  {
    i + |Upto(stream[i..], ' ')|
  }

  predicate StartsUpload(stream: Bytes) {
    Take(Upto(stream, ' '), 3) == "UPL"
  }

  /** How much the server reads of a stream for a command: an upload's five words, or a word and the rest of a line. */
  function CommandEnd(stream: Bytes): (j: nat)
    ensures j <= |stream|
  {
    var i := AfterWord(stream, 0);
    if StartsUpload(stream) then
      AfterWord(stream, AfterWord(stream, AfterWord(stream, AfterWord(stream, i))))
    else i + |Upto(stream[i..], '\n')|
  }

  /** The line it makes of that: an upload that is complete gets a newline, and a NUL ends the line. */
  function CommandLine(stream: Bytes): string {
    var p := stream[..CommandEnd(stream)];
    CText(if StartsUpload(stream) && p != [] && p[|p| - 1] == ' ' then p + "\n" else p)
  }

  /**
   * The first i bytes of the stream have been received into the buffer, with a NUL behind them; the count is one
   * too high if the stream has ended within a message.
   */
  ghost predicate Held(b: Bytes, stream: Bytes, i: nat, acc: nat) {
    && i <= |stream| && i < |b| && b[..i] == stream[..i] && (i > 0 ==> b[i] == '\0')
    && i <= acc <= i + 1 && (acc > i ==> i == |stream| && i > 0)
  }

  /** The count is right exactly if the last word is complete. */
  ghost predicate Whole(stream: Bytes, i: nat, acc: nat)
    requires i <= |stream|
  {
    i > 0 ==> (acc == i <==> stream[i - 1] == ' ')
  }

  /** The first delimiter, if there is one, is the last byte. */
  lemma {:induction false} UptoLast(s: Bytes, end: char)
    requires s != []
    ensures Upto(s, end) != [] && (Upto(s, end)[|Upto(s, end)| - 1] == end <==> end in s)
    ensures end !in s ==> Upto(s, end) == s
  {
    if s[0] != end && |s| > 1 {
      UptoLast(s[1..], end);
      assert s == [s[0]] + s[1..];
    }
  }

  /** Reads through the next delimiter. */
  method ReceivePart(sock: Socket, buffer: array<char>, acc: nat, end: char, ghost stream: Bytes, ghost i: nat)
    returns (n: nat)
    requires Held(buffer[..], stream, i, acc) && sock.inbox == stream[i..]
    requires i + |Upto(stream[i..], end)| < buffer.Length
    modifies sock, buffer
    ensures var j := i + |Upto(stream[i..], end)|;
            && sock.inbox == stream[j..] && Held(buffer[..], stream, j, n)
            && if j == i then n == acc else n == j <==> stream[j - 1] == end
  {
    ghost var left := stream[i..];
    ghost var q := Upto(left, end);
    if left != [] {
      UptoLast(left, end);
    }
    n := ReceivePiece(sock, buffer, acc, end, q);
    assert stream[..i + |q|] == stream[..i] + q;
  }

  method ReceiveNextWord(sock: Socket, buffer: array<char>, acc: nat, ghost stream: Bytes, ghost i: nat)
    returns (n: nat)
    requires Held(buffer[..], stream, i, acc) && Whole(stream, i, acc) && sock.inbox == stream[i..]
    requires AfterWord(stream, i) < buffer.Length
    modifies sock, buffer
    ensures var j := AfterWord(stream, i);
            sock.inbox == stream[j..] && Held(buffer[..], stream, j, n) && Whole(stream, j, n)
  {
    n := ReceivePart(sock, buffer, acc, ' ', stream, i);
  }

  method ReceiveFour(sock: Socket, buffer: array<char>, acc: nat, ghost stream: Bytes, ghost i: nat, ghost j: nat)
    returns (n: nat)
    requires Held(buffer[..], stream, i, acc) && Whole(stream, i, acc) && sock.inbox == stream[i..]
    requires j == AfterWord(stream, AfterWord(stream, AfterWord(stream, AfterWord(stream, i)))) < buffer.Length
    modifies sock, buffer
    ensures sock.inbox == stream[j..] && Held(buffer[..], stream, j, n) && Whole(stream, j, n)
  {
    ghost var a := AfterWord(stream, i);
    ghost var b := AfterWord(stream, a);
    n := ReceiveNextWord(sock, buffer, acc, stream, i);
    n := ReceiveNextWord(sock, buffer, n, stream, a);
    n := ReceiveNextWord(sock, buffer, n, stream, b);
    n := ReceiveNextWord(sock, buffer, n, stream, AfterWord(stream, b));
  }

  /** A newline and a NUL behind what has been received: the newline counts only if the last word is complete. */
  lemma UploadText(b: Bytes, stream: Bytes, i: nat, acc: nat)
    requires Held(b, stream, i, acc) && Whole(stream, i, acc) && i > 0 && acc + 1 < |b|
    ensures CText(b[acc := '\n'][acc + 1 := '\0'])
         == CText(if stream[i - 1] == ' ' then stream[..i] + "\n" else stream[..i])
  {
    var c := b[acc := '\n'][acc + 1 := '\0'];
    if acc == i {
      CTextCut(c, i + 1);
      assert c[..i + 1] == stream[..i] + "\n";
    } else {
      CTextCut(c, i);
      assert c[..i] == stream[..i];
    }
  }

  lemma LineText(b: Bytes, stream: Bytes, i: nat, acc: nat)
    requires Held(b, stream, i, acc) && acc < |b|
    ensures CText(b[acc := '\0']) == CText(stream[..i])
  {
    var c := b[acc := '\0'];
    CTextCut(c, i);
    assert c[..i] == stream[..i];
  }

  method EndUpload(buffer: array<char>, acc: nat, ghost stream: Bytes, ghost i: nat) returns (line: string)
    requires Held(buffer[..], stream, i, acc) && Whole(stream, i, acc) && acc + 1 < buffer.Length
    modifies buffer
    ensures i > 0 ==> line == CText(if stream[i - 1] == ' ' then stream[..i] + "\n" else stream[..i])
    ensures stream == [] ==> line == "\n"
  {
    if i > 0 {
      UploadText(buffer[..], stream, i, acc);
    }
    buffer[acc] := '\n';
    buffer[acc + 1] := '\0';
    line := CText(buffer[..]);
    if stream == [] {
      CTextCut(buffer[..], 1);
      assert buffer[..][..1] == "\n";
    }
  }

  /** The buffer shows which command it is as soon as the first word is there. */
  lemma SameCommand(b: Bytes, stream: Bytes, acc: nat)
    requires stream != [] && |b| >= 3 && Held(b, stream, |Upto(stream, ' ')|, acc)
    ensures Take(b, 3) == "UPL" <==> StartsUpload(stream)
  {
    var w := Upto(stream, ' ');
    UptoLast(stream, ' ');
    if |w| >= 3 {
      assert b[..3] == w[..3];
    } else {
      assert b[..3][|w|] == '\0';
    }
  }

  /** An upload is read word by word up to its size, any other command up to its newline. */
  method ReadCommand(sock: Socket, buffer: array<char>) returns (line: string)
    requires CommandEnd(sock.inbox) + 3 <= buffer.Length
    modifies sock, buffer
    ensures line == CommandLine(old(sock.inbox)) || (old(sock.inbox) == [] && line == "\n")
    ensures sock.inbox == old(sock.inbox)[CommandEnd(old(sock.inbox))..]
  {
    ghost var stream, j := sock.inbox, CommandEnd(sock.inbox);
    ghost var i := AfterWord(stream, 0);
    assert stream[0..] == stream;
    var acc := ReceiveNextWord(sock, buffer, 0, stream, 0);
    if stream != [] {
      SameCommand(buffer[..], stream, acc);
    }
    if Take(buffer[..], 3) == "UPL" {
      acc := ReceiveFour(sock, buffer, acc, stream, i, j);
      line := EndUpload(buffer, acc, stream, j);
    } else {
      acc := ReceivePart(sock, buffer, acc, '\n', stream, i);
      LineText(buffer[..], stream, j, acc);
      buffer[acc] := '\0';
      line := CText(buffer[..]);
    }
  }

  // ---------- the round trip ----------

  lemma {:induction false} PointPast(w: string, rest: string)
    requires ' ' !in w
    ensures PointToArgs(Before(w, rest)) == Some(rest)
  {
    if w == [] {
      assert Before(w, rest)[1..] == rest;
    } else {
      assert Before(w, rest)[1..] == Before(w[1..], rest);
      PointPast(w[1..], rest);
    }
  }

  /** A printed command parses into the UID, TID and arguments that were printed. */
  lemma ParsePrinted(command: string, uid: string, tid: string, args: string)
    requires ' ' !in command && ' ' !in uid && ' ' !in tid && |uid| == UID_LENGTH && |tid| == Decimal.TID_LENGTH
    ensures Parse(Before(command, Before(uid, Before(tid, args)))) == Some(Request(uid, tid, args))
  {
    PointPast(command, Before(uid, Before(tid, args)));
    PointPast(uid, Before(tid, args));
    PointPast(tid, args);
    assert Before(uid, Before(tid, args))[..UID_LENGTH] == uid;
    assert Before(tid, args)[..Decimal.TID_LENGTH] == tid;
  }

  lemma WordAt(stream: Bytes, i: nat, w: Bytes, rest: Bytes)
    requires i <= |stream| && stream[i..] == Before(w, rest) && ' ' !in w
    ensures AfterWord(stream, i) == i + |w| + 1 && stream[i + |w| + 1..] == rest
  {
    FrontWord(w, rest);
    assert stream[i + |w| + 1..] == stream[i..][|w| + 1..];
  }

  /** A printed line is read as it is. */
  lemma LineRead(command: string, args: string)
    requires ' ' !in command && Take(command + " ", 3) != "UPL" && IsMessage(args, '\n')
    requires '\0' !in command && '\0' !in args
    ensures var stream := Before(command, args); CommandLine(stream) == stream && CommandEnd(stream) == |stream|
  {
    var stream := Before(command, args);
    FrontWord(command, args);
    assert stream[0..] == stream;
    WordAt(stream, 0, command, args);
    UptoMessage(args, [], '\n');
    assert args + [] == args && stream[..|stream|] == stream;
    CTextOf(stream, []);
    assert stream + [] == stream;
  }

  lemma HeaderThen(uid: string, tid: string, name: string, size: string, rest: Bytes)
    ensures UploadHeader(uid, tid, name, size) + rest
         == Before("UPL", Before(uid, Before(tid, Before(name, Before(size, rest)))))
  {
    var p1 := "UPL" + " ";
    var p2 := p1 + uid + " ";
    var p3 := p2 + tid + " ";
    var p4 := p3 + name + " ";
    var q4 := Before(size, rest);
    var q3 := Before(name, q4);
    var q2 := Before(tid, q3);
    assert p4 + size + " " + rest == p4 + q4;
    assert p4 + q4 == p3 + q3;
    assert p3 + q3 == p2 + q2;
    assert p2 + q2 == p1 + Before(uid, q2);
  }

  lemma TwoWordsAt(stream: Bytes, i: nat, v: Bytes, w: Bytes, middle: Bytes, rest: Bytes)
    requires i <= |stream| && stream[i..] == Before(v, middle) && middle == Before(w, rest) && ' ' !in v && ' ' !in w
    ensures i + |v| + |w| + 2 <= |stream| && stream[i + |v| + |w| + 2..] == rest
    ensures AfterWord(stream, AfterWord(stream, i)) == i + |v| + |w| + 2
  {
    WordAt(stream, i, v, middle);
    WordAt(stream, i + |v| + 1, w, rest);
  }

  lemma UploadEnd(uid: string, tid: string, name: string, size: string, rest: Bytes, stream: Bytes)
    requires stream == Before("UPL", Before(uid, Before(tid, Before(name, Before(size, rest)))))
    requires ' ' !in uid && ' ' !in tid && ' ' !in name && ' ' !in size
    ensures StartsUpload(stream) && CommandEnd(stream) == 8 + |uid| + |tid| + |name| + |size|
  {
    var r4 := Before(size, rest);
    var r3 := Before(name, r4);
    var r2 := Before(tid, r3);
    var r1 := Before(uid, r2);
    assert stream[0..] == stream;
    FrontWord("UPL", r1);
    WordAt(stream, 0, "UPL", r1);
    TwoWordsAt(stream, 4, uid, tid, r2, r3);
    TwoWordsAt(stream, 6 + |uid| + |tid|, name, size, r4, rest);
  }

  /** Of an upload the header is read, and gets a newline; the data is left. */
  lemma UploadRead(uid: string, tid: string, name: string, size: string, rest: Bytes, header: string)
    requires header == UploadHeader(uid, tid, name, size) && '\0' !in header
    requires ' ' !in uid && ' ' !in tid && ' ' !in name && ' ' !in size
    ensures CommandLine(header + rest) == header + "\n" && CommandEnd(header + rest) == |header|
  {
    var stream := header + rest;
    HeaderThen(uid, tid, name, size, rest);
    UploadEnd(uid, tid, name, size, rest, stream);
    assert stream[..|header|] == header && header[|header| - 1] == ' ';
    CTextOf(header + "\n", []);
    assert header + "\n" + [] == header + "\n";
  }

  lemma NoSpace(w: Word)
    ensures ' ' !in w && '\n' !in w
  {
    assert Blank(' ') && Blank('\n');
  }
}
