/** The reply to LST as the File Server prints it, and the loop with which the client takes it apart again. */
module Listing {
  import opened Options
  import opened Text
  import opened Stream
  import Decimal

  /** A file name and its size. */
  type Entry = (string, nat)

  /** What the server prints for the files, one after the other. */
  function Body(es: seq<Entry>): string {
    if es == [] then "" else " " + es[0].0 + " " + Decimal.Dec(es[0].1) + Body(es[1..])
  }

  /** The text of a reply: a count and the files, or EOF for an empty directory. */
  function Reply(es: seq<Entry>): string {
    "RLS" + " " + (if es == [] then "EOF" else Decimal.Dec(|es|) + Body(es)) + "\n"
  }

  /** The reply when there is no directory to list, and when the request was not validated. */
  function Failure(): string {
    "RLS" + " " + "ERR" + "\n"
  }

  function Invalid(): string {
    "RLS" + " " + "INV" + "\n"
  }

  lemma {:induction false} BodyAppend(es: seq<Entry>, e: Entry)
    ensures Body(es + [e]) == Body(es) + " " + e.0 + " " + Decimal.Dec(e.1)
  {
    if es == [] {
      assert (es + [e])[1..] == [];
    } else {
      assert (es + [e])[1..] == es[1..] + [e];
      BodyAppend(es[1..], e);
      var p, t := " " + es[0].0 + " " + Decimal.Dec(es[0].1), " " + e.0 + " " + Decimal.Dec(e.1);
      assert Body(es + [e]) == p + Body(es[1..] + [e]);
      assert p + (Body(es[1..]) + t) == (p + Body(es[1..])) + t;
    }
  }

  // ---------- strtok(_, " ") ----------

  function SkipSpaces(s: string): (r: string)
    ensures |r| <= |s|
  {
    if s != [] && s[0] == ' ' then SkipSpaces(s[1..]) else s
  }

  function UntilSpace(s: string): (r: string)
    ensures |r| <= |s|
  {
    if s == [] || s[0] == ' ' then [] else [s[0]] + UntilSpace(s[1..])
  }

  /** The next token and what is left behind its delimiter. */
  function StrTok(s: string): Option<(string, string)> {
    var r := SkipSpaces(s);
    if r == [] then None else
      var w := UntilSpace(r);
      Some((w, if |w| < |r| then r[|w| + 1..] else ""))
  }

  lemma {:induction false} UntilSpaceIs(w: string, rest: string)
    requires ' ' !in w && (rest == [] || rest[0] == ' ')
    ensures UntilSpace(w + rest) == w
  {
    if w == [] {
      assert w + rest == rest;
    } else {
      assert (w + rest)[0] == w[0] && (w + rest)[1..] == w[1..] + rest;
      UntilSpaceIs(w[1..], rest);
    }
  }

  lemma StrTokWord(w: string, rest: string)
    requires w != [] && ' ' !in w
    ensures StrTok(w + " " + rest) == Some((w, rest))
    ensures StrTok(w) == Some((w, ""))
  {
    var s := w + " " + rest;
    assert s == w + (" " + rest);
    assert s[0] == w[0];
    UntilSpaceIs(w, " " + rest);
    UntilSpaceIs(w, []);
    assert w + [] == w;
  }

  // ---------- the reply on the wire ----------

  predicate Unbroken(s: string) {
    '\n' !in s
  }

  lemma {:induction false} BodyUnbroken(es: seq<Entry>)
    requires forall e | e in es :: IsWord(e.0)
    ensures Unbroken(Body(es))
  {
    if es != [] {
      assert Blank('\n') && IsWord(es[0].0);
      Decimal.DecIsGraphWord(es[0].1);
      BodyUnbroken(es[1..]);
    }
  }

  lemma TextUnbroken(es: seq<Entry>)
    requires forall e | e in es :: IsWord(e.0)
    ensures Unbroken(Decimal.Dec(|es|) + Body(es))
  {
    assert Blank('\n');
    Decimal.DecIsGraphWord(|es|);
    BodyUnbroken(es);
  }

  lemma UnbrokenIsMessage(text: string, line: string)
    requires Unbroken(text) && line == "RLS " + text + "\n"
    ensures IsMessage(line, '\n')
  {
    forall i | 0 <= i < |line| - 1 ensures line[i] != '\n' {
      assert i < 4 ==> line[i] == "RLS "[i];
      assert i >= 4 ==> line[i] == text[i - 4];
    }
  }

  /** A reply is a message that ends in its newline. */
  lemma ReplyIsMessage(es: seq<Entry>)
    requires forall e | e in es :: IsWord(e.0)
    ensures IsMessage(Reply(es), '\n') && IsMessage(Failure(), '\n') && IsMessage(Invalid(), '\n')
  {
    TextUnbroken(es);
    UnbrokenIsMessage("ERR", Failure());
    UnbrokenIsMessage("INV", Invalid());
    UnbrokenIsMessage(if es == [] then "EOF" else Decimal.Dec(|es|) + Body(es), Reply(es));
  }

  // ---------- the client ----------

  /** The files as the client sees them: separated by spaces, the last size carrying the newline. */
  function Tail(es: seq<Entry>): string {
    if es == [] then ""
    else if |es| == 1 then es[0].0 + " " + (Decimal.Dec(es[0].1) + "\n")
    else es[0].0 + " " + (Decimal.Dec(es[0].1) + " " + Tail(es[1..]))
  }

  lemma Regroup(name: string, size: string, more: string, end: string)
    ensures " " + name + " " + size + more + end == " " + (name + " " + (size + (more + end)))
  {
    var p := " " + name + " " + size;
    assert p + more + end == p + (more + end);
    assert p + (more + end) == " " + name + " " + (size + (more + end));
  }

  lemma {:induction false} BodyIsTail(es: seq<Entry>)
    requires es != []
    ensures Body(es) + "\n" == " " + Tail(es)
  {
    var name, size, more := es[0].0, Decimal.Dec(es[0].1), Body(es[1..]);
    Regroup(name, size, more, "\n");
    if |es| == 1 {
      assert more == "";
    } else {
      BodyIsTail(es[1..]);
      Regroup(name, size, "", " " + Tail(es[1..]));
    }
  }

  predicate OneToken(es: seq<Entry>) {
    forall e | e in es :: IsWord(e.0)
  }

  /** The tokens of the next file: its name, then its size, which reads back as printed. */
  lemma NextFile(es: seq<Entry>)
    requires es != [] && IsWord(es[0].0)
    ensures StrTok(Tail(es)).Some?
    ensures var (name, rest) := StrTok(Tail(es)).value;
            && name == es[0].0 && StrTok(rest).Some?
            && Decimal.ScanInt(StrTok(rest).value.0) == (true, es[0].1)
            && StrTok(rest).value.1 == Tail(es[1..])
  {
    var name, size := es[0].0, Decimal.Dec(es[0].1);
    assert Blank(' ');
    Decimal.DecIsGraphWord(es[0].1);
    if |es| == 1 {
      StrTokWord(name, size + "\n");
      StrTokWord(size + "\n", "");
      Decimal.ScanOfDec(es[0].1, "\n");
      assert Tail(es) == name + " " + (size + "\n");
    } else {
      StrTokWord(name, size + " " + Tail(es[1..]));
      StrTokWord(size, Tail(es[1..]));
      Decimal.ScanOfDec(es[0].1, "");
      assert size + "" == size;
    }
  }

  /** The count that the client scans out of the reply: zero when there is none. */
  function Count(text: string): int {
    if |text| >= 3 && text[..3] == "RLS" && Decimal.ScanInt(text[3..]).0 then Decimal.ScanInt(text[3..]).1 else 0
  }

  /** The count is scanned out of what follows the command and a space. */
  lemma CountIs(s: string, text: string)
    requires text == "RLS" + " " + s
    ensures Count(text) == if Decimal.ScanInt(s).0 then Decimal.ScanInt(s).1 else 0
  {
    assert text[..3] == "RLS" && text[3..] == [' '] + s;
    Decimal.ScanIntSkips(s);
  }

  lemma NoDigits(s: string)
    requires s != [] && !Blank(s[0]) && !Digit(s[0]) && !Decimal.Sign(s[0])
    ensures !Decimal.ScanInt(s).0
  {
  }

  lemma CountOfFailure()
    ensures Count(Failure()) == 0 == Count(Invalid())
  {
    CountIs("ERR\n", Failure());
    NoDigits("ERR\n");
    CountIs("INV\n", Invalid());
    NoDigits("INV\n");
  }

  lemma CountOfReply(es: seq<Entry>)
    ensures Count(Reply(es)) == |es|
  {
    if es == [] {
      CountIs("EOF\n", Reply(es));
      NoDigits("EOF\n");
    } else {
      var n, rest := Decimal.Dec(|es|), Body(es) + "\n";
      BodyIsTail(es);
      assert rest[0] == ' ';
      assert Reply(es) == "RLS" + " " + (n + rest);
      CountIs(n + rest, Reply(es));
      Decimal.ScanOfDec(|es|, rest);
    }
  }

  lemma Glue(h: string, n: string, body: string, tail: string)
    requires body + "\n" == " " + tail
    ensures h + (n + body) + "\n" == h + (n + " " + tail)
  {
    assert h + (n + body) + "\n" == h + (n + (body + "\n"));
    assert n + (" " + tail) == n + " " + tail;
  }

  lemma ReplyIsTail(es: seq<Entry>, n: string)
    requires es != [] && n == Decimal.Dec(|es|)
    ensures Reply(es) == "RLS" + " " + (n + " " + Tail(es))
  {
    BodyIsTail(es);
    Glue("RLS" + " ", n, Body(es), Tail(es));
  }

  /** Behind the command and the count come the files. */
  lemma HeadTokens(es: seq<Entry>)
    requires es != []
    ensures StrTok(Reply(es)).Some? && StrTok(StrTok(Reply(es)).value.1).Some?
    ensures StrTok(StrTok(Reply(es)).value.1).value.1 == Tail(es)
  {
    var n := Decimal.Dec(|es|);
    Decimal.DecIsGraphWord(|es|);
    ReplyIsTail(es, n);
    StrTokWord("RLS", n + " " + Tail(es));
    StrTokWord(n, Tail(es));
  }

  /** The tokens of the j-th file: its name, and its size, behind which come the next files. */
  lemma FileAt(es: seq<Entry>, j: nat) returns (rest: string, size: string)
    requires OneToken(es) && j < |es|
    ensures StrTok(Tail(es[j..])) == Some((es[j].0, rest))
    ensures StrTok(rest) == Some((size, Tail(es[j + 1..]))) && Decimal.ScanInt(size) == (true, es[j].1)
  {
    assert es[j..][0] == es[j] && es[j..][1..] == es[j + 1..] && es[j] in es;
    NextFile(es[j..]);
    rest := StrTok(Tail(es[j..])).value.1;
    size := StrTok(rest).value.0;
  }

  /** There is a token exactly while there are files. */
  lemma TokenLeft(es: seq<Entry>, j: nat)
    requires OneToken(es) && j <= |es|
    ensures StrTok(Tail(es[j..])).Some? <==> j < |es|
  {
    if j < |es| {
      var rest, size := FileAt(es, j);
    }
  }

  method ParseFiles(first: Option<(string, string)>, fileCells: array<string>, sizeCells: array<int>,
                    ghost es: seq<Entry>)
    requires first == StrTok(Tail(es[0..])) && OneToken(es)
    requires fileCells.Length == sizeCells.Length == |es|
    modifies fileCells, sizeCells
    ensures forall k | 0 <= k < |es| :: fileCells[k] == es[k].0 && sizeCells[k] == es[k].1
  {
    var token := first;
    var j := 0;
    TokenLeft(es, 0);
    while token.Some?
      invariant 0 <= j <= |es|
      invariant token == StrTok(Tail(es[j..])) && (token.Some? <==> j < |es|)
      invariant forall k | 0 <= k < j :: fileCells[k] == es[k].0 && sizeCells[k] == es[k].1
      decreases |es| - j
    {
      ghost var rest, size := FileAt(es, j);
      TokenLeft(es, j + 1);
      fileCells[j] := token.value.0;
      token := StrTok(token.value.1);
      sizeCells[j] := Decimal.ScanInt(token.value.0).1;
      token := StrTok(token.value.1);
      j := j + 1;
    }
  }

  /**
   * The client's loop. The arrays have as many cells as the reply's count says; on a printed reply every index
   * is within them, no size is missing, and the names and sizes come out as they went in. A failure or a refusal
   * lists none.
   */
  method ParseReply(text: string, ghost es: seq<Entry>) returns (files: seq<string>, sizes: seq<int>)
    requires (text == Reply(es) && OneToken(es)) || (text in {Failure(), Invalid()} && es == [])
    ensures |files| == |sizes| == |es|
    ensures forall k | 0 <= k < |es| :: files[k] == es[k].0 && sizes[k] == es[k].1
  {
    CountOfReply(es);
    CountOfFailure();
    var n := Count(text);
    if n == 0 {
      return [], [];
    }
    var fileCells := new string[n](_ => "");
    var sizeCells := new int[n];
    HeadTokens(es);
    var token := StrTok(text);
    token := StrTok(token.value.1);
    token := StrTok(token.value.1);
    assert es[0..] == es;
    ParseFiles(token, fileCells, sizeCells, es);
    files, sizes := fileCells[..], sizeCells[..];
  }
}
