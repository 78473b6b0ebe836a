/** Reading from a TCP connection that delivers its bytes in arbitrary pieces. */
module Stream {
  type Bytes = seq<char>

  /** The buffer with a stretch of it overwritten. */
  function Splice(buffer: Bytes, at: nat, s: Bytes): Bytes
    requires at + |s| <= |buffer|
  {
    seq(|buffer|, i requires 0 <= i < |buffer| => if at <= i < at + |s| then s[i - at] else buffer[i])
  }

  /** The bytes up to and including the first occurrence of a delimiter; all of them if there is none. */
  function Upto(s: Bytes, end: char): (p: Bytes)
    ensures |p| <= |s| && p == s[..|p|]
  {
    if s == [] then [] else if s[0] == end then [end] else [s[0]] + Upto(s[1..], end)
  }

  /** A message ends in the delimiter and holds it nowhere else. */
  predicate IsMessage(m: Bytes, end: char) {
    m != [] && m[|m| - 1] == end && forall i | 0 <= i < |m| - 1 :: m[i] != end
  }

  lemma {:induction false} UptoMessage(m: Bytes, rest: Bytes, end: char)
    requires IsMessage(m, end)
    ensures Upto(m + rest, end) == m
  {
    if |m| == 1 {
      assert (m + rest)[0] == end && m == [end];
    } else {
      assert (m + rest)[0] == m[0] && (m + rest)[1..] == m[1..] + rest;
      UptoMessage(m[1..], rest, end);
      assert [m[0]] + m[1..] == m;
    }
  }

  /** The first k bytes are all before the first delimiter. */
  lemma {:induction false} UptoScan(s: Bytes, end: char, k: nat)
    requires k <= |s| && end !in s[..k]
    ensures Upto(s, end) == s[..k] + Upto(s[k..], end)
    decreases k
  {
    if k > 0 {
      assert s[..k][0] == s[0];
      assert forall c | c in s[1..][..k - 1] :: c in s[..k];
      UptoScan(s[1..], end, k - 1);
      assert s[1..][k - 1..] == s[k..];
      assert [s[0]] + s[1..][..k - 1] == s[..k];
    } else {
      assert s[0..] == s;
    }
  }

  /** What `sprintf("%c")` leaves in a buffer for a run of bytes: each write puts a NUL behind the byte. */
  function Terminated(p: Bytes): Bytes {
    if p == [] then [] else p + ['\0']
  }

  /** The front of a buffer with a run of bytes written behind the first ones. */
  lemma SpliceFront(was: Bytes, at: nat, p: Bytes)
    requires p != [] && at + |p| < |was|
    ensures Splice(was, at, Terminated(p))[..at + |p|] == was[..at] + p
    ensures Splice(was, at, Terminated(p))[at + |p|] == '\0'
  {
  }

  lemma SpliceMore(was: Bytes, at: nat, stream: Bytes, k: nat, got: nat)
    requires k + got <= |stream| && at + k + got <= |was|
    ensures Splice(Splice(was, at, stream[..k]), at + k, stream[k..][..got]) == Splice(was, at, stream[..k + got])
    ensures stream[k..][got..] == stream[k + got..]
  {
  }

  /** A stream of which k bytes do not hold the delimiter goes on, or its first message has more bytes than those. */
  lemma NextByte(stream: Bytes, k: nat, end: char)
    requires k <= |stream| && end !in stream[..if k == 0 then 0 else k - 1] && (k > 0 ==> stream[k - 1] != end)
    ensures end !in stream[..k]
    ensures k < |stream| ==> k < |Upto(stream, end)|
  {
    if k > 0 {
      assert stream[..k] == stream[..k - 1] + [stream[k - 1]];
    }
    UptoScan(stream, end, k);
  }

  lemma OneByteMore(was: Bytes, at: nat, p: Bytes, c: char, q: Bytes)
    requires q == p + [c] && at + |q| + 1 <= |was|
    ensures Splice(was, at, Terminated(p))[at + |p| := c][at + |p| + 1 := '\0'] == Splice(was, at, Terminated(q))
  {
  }

  lemma UptoEnds(stream: Bytes, end: char, k: nat)
    requires k <= |stream| && end !in stream[..k] && (k < |stream| ==> stream[k] == end)
    ensures Upto(stream, end) == if k < |stream| then stream[..k + 1] else stream
    ensures end in stream <==> k < |stream|
  {
    assert forall i | 0 <= i < k :: stream[i] == stream[..k][i];
    UptoScan(stream, end, k);
    if k < |stream| {
      assert stream[..k + 1] == stream[..k] + [end];
    } else {
      assert stream[..k] == stream;
    }
  }

  class Socket {
    /** What the peer has sent and this side has not read; the peer closes after it. */
    var inbox: Bytes

    constructor (inbox: Bytes)
      ensures this.inbox == inbox
    {
      this.inbox := inbox;
    }

    /** One `read`: some of what is there, at least one byte unless nothing will come. */
    method Read(buffer: array<char>, at: nat, n: nat) returns (got: nat)
      requires 0 < n && at + n <= buffer.Length
      modifies this, buffer
      ensures got <= n && got <= |old(inbox)| && (got == 0 <==> old(inbox) == [])
      ensures inbox == old(inbox)[got..]
      ensures buffer[..] == Splice(old(buffer[..]), at, old(inbox)[..got])
    {
      if inbox == [] {
        got := 0;
        return;
      }
      got :| 1 <= got <= n && got <= |inbox|;
      ghost var was := buffer[..];
      forall i | 0 <= i < got {
        buffer[at + i] := inbox[i];
      }
      assert buffer[..] == Splice(was, at, inbox[..got]);
      inbox := inbox[got..];
    }

    /** Reads until the buffer's stretch is full or the peer has closed: however the bytes come in pieces. */
    method ReceiveMessage(buffer: array<char>, at: nat, size: nat) returns (n: nat)
      requires at + size <= buffer.Length
      modifies this, buffer
      ensures n == if size <= |old(inbox)| then size else |old(inbox)|
      ensures inbox == old(inbox)[n..]
      ensures buffer[..] == Splice(old(buffer[..]), at, old(inbox)[..n])
    {
      ghost var was, stream := buffer[..], inbox;
      var nleft: nat := size;
      var p := at;
      while nleft > 0
        invariant at <= p && p + nleft == at + size && p - at <= |stream|
        invariant inbox == stream[p - at..]
        invariant buffer[..] == Splice(was, at, stream[..p - at])
      {
        var bytesRead := Read(buffer, p, nleft);
        if bytesRead == 0 {
          break;
        }
        SpliceMore(was, at, stream, p - at, bytesRead);
        nleft := nleft - bytesRead;
        p := p + bytesRead;
      }
      n := size - nleft;
    }

    /** One byte, by way of a variable of its own, and a NUL behind it; the buffer is left alone when none comes. */
    method ReceiveByte(buffer: array<char>, at: nat) returns (n: nat)
      requires at + 1 < buffer.Length || inbox == []
      modifies this, buffer
      ensures n == if old(inbox) == [] then 0 else 1
      ensures inbox == old(inbox)[n..]
      ensures buffer[..] == if n == 0 then old(buffer[..]) else old(buffer[..])[at := old(inbox)[0]][at + 1 := '\0']
    {
      var byte := new char[1];
      n := ReceiveMessage(byte, 0, 1);
      if n == 1 {
        assert byte[0] == byte[..][0];
        buffer[at] := byte[0];
        buffer[at + 1] := '\0';
      }
    }

    /** One more byte of a stream of which k bytes are in the buffer. */
    method ReceiveNext(buffer: array<char>, at: nat, k: nat, ghost was: Bytes, ghost stream: Bytes) returns (n: nat)
      requires k <= |stream| && inbox == stream[k..] && at + k <= |was| == buffer.Length
      requires k < |stream| ==> at + k + 1 < buffer.Length
      requires k > 0 ==> at + k < buffer.Length
      requires buffer[..] == Splice(was, at, Terminated(stream[..k]))
      modifies this, buffer
      ensures n == if k < |stream| then 1 else 0
      ensures inbox == stream[k + n..]
      ensures buffer[..] == Splice(was, at, Terminated(stream[..k + n]))
      ensures n == 1 ==> buffer[at + k] == stream[k]
    {
      n := ReceiveByte(buffer, at + k);
      if n == 1 {
        OneByteMore(was, at, stream[..k], stream[k], stream[..k + 1]);
        assert buffer[at + k] == buffer[..][at + k];
      }
    }

    /**
     * Reads byte by byte through the first delimiter. When the peer closes before sending one, the count is one
     * more than the bytes received, unless none came at all.
     */
    method ReceiveUntilChar(buffer: array<char>, at: nat, end: char) returns (n: nat)
      requires at + |Terminated(Upto(inbox, end))| <= buffer.Length
      modifies this, buffer
      ensures inbox == old(inbox)[|Upto(old(inbox), end)|..]
      ensures buffer[..] == Splice(old(buffer[..]), at, Terminated(Upto(old(inbox), end)))
      ensures n == |Upto(old(inbox), end)| + if end in old(inbox) || old(inbox) == [] then 0 else 1
    {
      ghost var was, stream := buffer[..], inbox;
      var got := ReceiveNext(buffer, at, 0, was, stream);
      if got == 0 {
        return 0;
      }
      NextByte(stream, 0, end);
      var total: nat := 0;
      while buffer[at + total] != end
        invariant total < |stream| && inbox == stream[total + 1..]
        invariant total < |Upto(stream, end)| && end !in stream[..total]
        invariant at + total < buffer.Length && buffer[at + total] == stream[total]
        invariant buffer[..] == Splice(was, at, Terminated(stream[..total + 1]))
        decreases |stream| - total
      {
        NextByte(stream, total + 1, end);
        total := total + 1;
        got := ReceiveNext(buffer, at, total, was, stream);
        if got == 0 {
          break;
        }
      }
      UptoEnds(stream, end, total);
      n := total + 1;
    }
  }

  /** One byte and no delimiter: the count is two. */
  method CountsOneTooMany() returns (n: nat)
    ensures n == |"a"| + 1
  {
    var sock := new Socket("a");
    var buffer := new char[2];
    assert Upto("a", ' ') == "a" by {
      assert "a"[1..] == [];
    }
    n := sock.ReceiveUntilChar(buffer, 0, ' ');
  }

  // ---------- a sequence of messages ----------

  function Flatten(ms: seq<Bytes>): Bytes {
    if ms == [] then [] else ms[0] + Flatten(ms[1..])
  }

  /** Receives one message. */
  method ReceiveMessage(sock: Socket, buffer: array<char>, end: char, ghost m: Bytes, ghost rest: Bytes)
    returns (got: Bytes)
    requires IsMessage(m, end) && |m| < buffer.Length && sock.inbox == m + rest
    modifies sock, buffer
    ensures got == m && sock.inbox == rest
  {
    UptoMessage(m, rest, end);
    assert sock.inbox[|m| - 1] == end;
    ghost var was := buffer[..];
    var n := sock.ReceiveUntilChar(buffer, 0, end);
    assert buffer[..] == Splice(was, 0, Terminated(m)) && n == |m|;
    assert buffer[..n] == buffer[..][..n] == m;
    got := buffer[..n];
  }

  /** Whatever the pieces, the messages that were sent come out one by one, in order, and nothing is left over. */
  method ReceiveMessages(sock: Socket, buffer: array<char>, end: char, count: nat, ghost ms: seq<Bytes>)
    returns (got: seq<Bytes>)
    requires count == |ms| && sock.inbox == Flatten(ms)
    requires forall m | m in ms :: IsMessage(m, end) && |m| < buffer.Length
    modifies sock, buffer
    ensures got == ms && sock.inbox == []
  {
    got := [];
    assert ms[0..] == ms;
    for i := 0 to count
      invariant got == ms[..i] && sock.inbox == Flatten(ms[i..])
    {
      assert ms[i..][0] == ms[i] && ms[i..][1..] == ms[i + 1..] && ms[i] in ms;
      var m := ReceiveMessage(sock, buffer, end, ms[i], Flatten(ms[i + 1..]));
      got := got + [m];
    }
  }
}
