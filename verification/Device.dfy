/** The Personal Device: it remembers the user it registered and answers validation requests for that user only. */
module Device {
  import opened Options
  import opened Text
  import Protocol

  /** The answer to a line from the server, given the uid the device holds. */
  function Answer(held: string, line: string): string {
    if 4 <= WordCount(line) <= 5 && Field(line, 0) == "VLC" then
      if held == Field(line, 1) then "RVC " + Field(line, 1) + " OK\n" else "RVC " + Field(line, 1) + " NOK\n"
    else "ERR\n"
  }

  function Shown(vc: string, fop: string, fname: string): string {
    if fop == "U" then "VC: " + vc + ", upload: " + fname + "\n"
    else if fop == "R" then "VC: " + vc + ", retrieve: " + fname + "\n"
    else if fop == "D" then "VC: " + vc + ", delete: " + fname + "\n"
    else if fop == "X" then "VC: " + vc + ", remove\n"
    else if fop == "L" then "VC: " + vc + ", list\n"
    else ""
  }

  /** What the device shows its user when it agrees: the code to type in, and what it is for. */
  function Screen(held: string, line: string): string {
    if 4 <= WordCount(line) <= 5 && Field(line, 0) == "VLC" && held == Field(line, 1) then
      Shown(Field(line, 2), Field(line, 3), Field(line, 4))
    else ""
  }

  class Device {
    var uid: string
    var pw: string

    constructor ()
      ensures uid == "" && pw == ""
    {
      uid, pw := "", "";
    }

    /** The keyboard command `reg`: the user is kept only if the server's reply arrived and was positive. */
    method RegisterUser(uid: string, pw: string, reply: Option<string>) returns (ok: bool)
      modifies this
      ensures ok <==> reply == Some("RRG OK\n")
      ensures this.uid == (if ok then uid else old(this.uid))
      ensures this.pw == (if ok then pw else old(this.pw))
    {
      ok := reply.Some? && reply.value == "RRG OK\n";
      if ok {
        this.uid := uid;
        this.pw := pw;
      }
    }

    /** A validation request from the server. */
    method GetAsCommands(line: string) returns (reply: string, screen: string)
      ensures reply == Answer(uid, line) && screen == Screen(uid, line)
    {
      var words := GetWords(line);
      screen := "";
      if words >= 4 && words <= 5 && Field(line, 0) == "VLC" {
        if uid == Field(line, 1) {
          reply := "RVC " + Field(line, 1) + " OK\n";
          var vc, fop, fname := Field(line, 2), Field(line, 3), Field(line, 4);
          if fop == "U" {
            screen := "VC: " + vc + ", upload: " + fname + "\n";
          } else if fop == "R" {
            screen := "VC: " + vc + ", retrieve: " + fname + "\n";
          } else if fop == "D" {
            screen := "VC: " + vc + ", delete: " + fname + "\n";
          } else if fop == "X" {
            screen := "VC: " + vc + ", remove\n";
          } else if fop == "L" {
            screen := "VC: " + vc + ", list\n";
          }
        } else {
          reply := "RVC " + Field(line, 1) + " NOK\n";
        }
      } else {
        reply := "ERR\n";
      }
    }
  }

  /** The line that the server sends holds uid, VC, operation and name in this order. */
  lemma VlcFields(uid: string, vc: string, fop: string, fname: Option<string>)
    requires IsWord(uid) && IsWord(vc) && IsWord(fop) && (fname.Some? ==> IsWord(fname.value))
    ensures var line := Protocol.Vlc(uid, vc, fop, fname);
            && Field(line, 0) == "VLC" && Field(line, 1) == uid && Field(line, 2) == vc && Field(line, 3) == fop
            && Field(line, 4) == if fname.Some? then fname.value else ""
  {
    var ws := ["VLC", uid, vc] + Protocol.FopWords(fop, fname);
    Protocol.RequestLine("VLC", uid, vc, fop, fname);
    assert "VLC " + uid == "VLC" + " " + uid;
    forall w | w in ws ensures IsWord(w) {}
    ScanOfLine(ws);
  }

  lemma OkNotNok(uid: string)
    requires ValidUid(uid)
    ensures Protocol.Accepted(Some("RVC " + uid + " OK\n"))
    ensures !Protocol.Accepted(Some("RVC " + uid + " NOK\n"))
    ensures !Protocol.Accepted(Some("ERR\n"))
  {
    forall c | c in uid ensures Graph(c) { assert Digit(c); }
    assert IsGraphWord(uid);
    forall status | status in ["OK", "NOK"]
      ensures Field("RVC " + uid + " " + status + "\n", 2) == status
      ensures Field("RVC " + uid + " " + status + "\n", 0) == "RVC"
      ensures WordCount("RVC " + uid + " " + status + "\n") == 3
    {
      var ws := ["RVC", uid, status];
      LineOfThree("RVC", uid, status);
      assert Line(ws) == "RVC " + uid + " " + status + "\n";
      DispatchOfLine(ws);
    }
    assert "RVC " + uid + " OK\n" == "RVC " + uid + " " + "OK" + "\n";
    assert "RVC " + uid + " NOK\n" == "RVC " + uid + " " + "NOK" + "\n";
    assert Line(["ERR"]) == "ERR\n";
    DispatchOfLine(["ERR"]);
  }

  /**
   * The server takes the answer of a device for a validation exactly when the device holds the user it asked
   * about (and the request had the four or five words a device reads).
   */
  lemma DeviceVouches(held: string, uid: string, vc: string, fop: string, fname: Option<string>)
    requires ValidUid(uid) && IsWord(vc) && IsWord(fop) && (fname.Some? ==> IsWord(fname.value))
    ensures var line := Protocol.Vlc(uid, vc, fop, fname);
            Protocol.Accepted(Some(Answer(held, line))) <==> held == uid && 4 <= WordCount(line) <= 5
  {
    forall c | c in uid ensures !Blank(c) { assert Digit(c); }
    VlcFields(uid, vc, fop, fname);
    OkNotNok(uid);
  }

  /** Of any line of words the server accepts exactly one of three words that starts with RVC and ends in OK. */
  lemma AcceptsExactly(ws: seq<string>)
    requires ws != [] && forall w | w in ws :: IsGraphWord(w)
    ensures Protocol.Accepted(Some(Line(ws))) <==> |ws| == 3 && ws[0] == "RVC" && ws[2] == "OK"
  {
    DispatchOfLine(ws);
  }

  /** The verb on the screen. */
  function Verb(fop: string): string {
    if fop == "U" then "upload" else if fop == "R" then "retrieve" else if fop == "D" then "delete"
    else if fop == "X" then "remove" else "list"
  }

  lemma CodeIsWord(vc: string)
    requires IsWord(vc)
    ensures IsWord(vc + ",")
  {
    forall c | c in vc + "," ensures !Blank(c) { assert c in vc || c == ','; }
  }

  lemma FileScreen(vc: string, verb: string, fname: string, text: string)
    requires IsWord(vc) && IsWord(verb) && IsWord(fname) && text == "VC: " + vc + ", " + verb + " " + fname + "\n"
    ensures Tokens(text) == ["VC:", vc + ",", verb, fname]
  {
    CodeIsWord(vc);
    LineOfFour("VC:", vc + ",", verb, [fname]);
    var ws := ["VC:", vc + ",", verb, fname];
    assert ["VC:", vc + ",", verb] + [fname] == ws;
    ScanOfLine(ws);
    assert Line([fname]) == fname + "\n";
    assert "VC: " + vc + ", " == "VC:" + " " + (vc + ",") + " ";
    var head := "VC: " + vc + ", " + verb + " ";
    assert head + fname + "\n" == head + (fname + "\n");
  }

  lemma PlainScreen(vc: string, verb: string, text: string)
    requires IsWord(vc) && IsWord(verb) && text == "VC: " + vc + ", " + verb + "\n"
    ensures Tokens(text) == ["VC:", vc + ",", verb]
  {
    CodeIsWord(vc);
    LineOfThree("VC:", vc + ",", verb);
    ScanOfLine(["VC:", vc + ",", verb]);
    assert "VC: " + vc + ", " == "VC:" + " " + (vc + ",") + " ";
  }

  /** The words on the screen: the code first, then the operation and the file. */
  lemma ShownFile(vc: string, fop: string, fname: string)
    requires IsWord(vc) && IsWord(fname) && fop in {"U", "R", "D"}
    ensures Tokens(Shown(vc, fop, fname)) == ["VC:", vc + ",", Verb(fop) + ":", fname]
  {
    var head := "VC: " + vc;
    assert head + ", upload: " == head + ", " + "upload:" + " ";
    assert head + ", retrieve: " == head + ", " + "retrieve:" + " ";
    assert head + ", delete: " == head + ", " + "delete:" + " ";
    assert "upload" + ":" == "upload:" && "retrieve" + ":" == "retrieve:" && "delete" + ":" == "delete:";
    FileScreen(vc, Verb(fop) + ":", fname, Shown(vc, fop, fname));
  }

  lemma ShownPlain(vc: string, fop: string, fname: string)
    requires IsWord(vc) && fop in {"X", "L"}
    ensures Tokens(Shown(vc, fop, fname)) == ["VC:", vc + ",", Verb(fop)]
  {
    var head := "VC: " + vc;
    assert head + ", remove\n" == head + ", " + "remove" + "\n";
    assert head + ", list\n" == head + ", " + "list" + "\n";
    PlainScreen(vc, Verb(fop), Shown(vc, fop, fname));
  }

  /** A device shows its user the code and the request in the line, if the line has the words it reads. */
  lemma DeviceShows(uid: string, vc: string, fop: string, fname: Option<string>)
    requires IsWord(uid) && IsWord(vc) && IsWord(fop) && (fname.Some? ==> IsWord(fname.value))
    requires 4 <= WordCount(Protocol.Vlc(uid, vc, fop, fname)) <= 5
    ensures Screen(uid, Protocol.Vlc(uid, vc, fop, fname)) == Shown(vc, fop, if fname.Some? then fname.value else "")
  {
    VlcFields(uid, vc, fop, fname);
  }
}
