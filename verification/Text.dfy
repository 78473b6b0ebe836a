/** Words in C strings: what `sscanf("%s")` splits off, what `getWords` counts, and what `sprintf` prints. */
module Text {

  // A C string is the sequence of characters before its terminating NUL.

  /** `isspace` in the C locale: what `%s` skips and stops at. */
  predicate Blank(c: char) {
    c == ' ' || 9 <= c as int <= 13
  }

  /** The characters `nextWord` accepts inside a word. */
  predicate Graph(c: char) {
    '!' <= c <= '~'
  }

  predicate IsWord(s: string) {
    s != [] && forall c | c in s :: !Blank(c)
  }

  predicate IsGraphWord(s: string) {
    s != [] && forall c | c in s :: Graph(c)
  }

  /** A field filled by `sscanf("%s")`: never empty, never containing a blank. */
  type Word = s: string | IsWord(s) witness "-"

  // ---------- sscanf("%s %s ...") ----------

  /** The string after its leading blanks. */
  function Skip(s: string): (r: string)
    ensures |r| <= |s|
    ensures r != [] ==> !Blank(r[0])
  {
    if s != [] && Blank(s[0]) then Skip(s[1..]) else s
  }

  /** The leading characters up to the first blank. */
  function Lead(s: string): (w: string)
    ensures |w| <= |s| && w == s[..|w|]
    ensures forall c | c in w :: !Blank(c)
    ensures |w| == |s| || Blank(s[|w|])
  {
    if s == [] || Blank(s[0]) then [] else [s[0]] + Lead(s[1..])
  }

  /** All the fields that a long enough run of `%s` conversions reads. */
  function Tokens(s: string): (ts: seq<string>)
    ensures forall t | t in ts :: IsWord(t)
    decreases |s|
  {
    var r := Skip(s);
    if r == [] then [] else
      var w := Lead(r);
      [w] + Tokens(r[|w|..])
  }

  /** The k-th field; a buffer that no conversion filled stays empty. */
  function Field(s: string, k: nat): string {
    if k < |Tokens(s)| then Tokens(s)[k] else ""
  }

  // ---------- sprintf("%s %s ...\n") ----------

  /** The words separated by single spaces, with a final newline. */
  function Line(ws: seq<string>): string
    requires ws != []
  {
    if |ws| == 1 then ws[0] + "\n" else ws[0] + " " + Line(ws[1..])
  }

  lemma LineCons(w: string, ws: seq<string>)
    requires ws != []
    ensures Line([w] + ws) == w + " " + Line(ws)
  {
    assert ([w] + ws)[1..] == ws;
  }

  lemma LineOfThree(a: string, b: string, c: string)
    ensures Line([a, b, c]) == a + " " + b + " " + c + "\n"
  {
    LineCons(b, [c]);
    LineCons(a, [b, c]);
    assert [a] + [b, c] == [a, b, c] && [b] + [c] == [b, c];
  }

  /** A line whose last printed item is itself a list of words. */
  lemma LineOfFour(a: string, b: string, c: string, rest: seq<string>)
    requires rest != []
    ensures Line([a, b, c] + rest) == a + " " + b + " " + c + " " + Line(rest)
  {
    LineCons(c, rest);
    LineCons(b, [c] + rest);
    LineCons(a, [b, c] + rest);
    assert [a] + ([b, c] + rest) == [a, b, c] + rest;
    assert [b] + ([c] + rest) == [b, c] + rest;
  }

  lemma LeadOfWord(w: string, rest: string)
    requires IsWord(w) && rest != [] && Blank(rest[0])
    ensures Skip(w + rest) == w + rest && Lead(w + rest) == w
  {
    var s := w + rest;
    assert s[0] == w[0] && w[0] in w;
    var l := Lead(s);
    assert forall i | 0 <= i < |w| :: s[i] in w;
    assert s[|w|] == rest[0];
    assert l == s[..|w|] == w;
  }

  lemma TokensStep(w: string, rest: string)
    requires IsWord(w) && rest != [] && Blank(rest[0])
    ensures Tokens(w + rest) == [w] + Tokens(rest)
  {
    LeadOfWord(w, rest);
    assert (w + rest)[|w|..] == rest;
  }

  lemma TokensSkipsBlank(c: char, s: string)
    requires Blank(c)
    ensures Tokens([c] + s) == Tokens(s)
  {
    assert ([c] + s)[1..] == s;
  }

  /** Scanning a printed line gives back exactly the printed words. */
  lemma {:induction false} ScanOfLine(ws: seq<string>)
    requires ws != [] && forall w | w in ws :: IsWord(w)
    ensures Tokens(Line(ws)) == ws
  {
    if |ws| == 1 {
      TokensStep(ws[0], "\n");
      TokensSkipsBlank('\n', "");
      assert "\n" == ['\n'] + "";
      assert ws == [ws[0]];
    } else {
      var rest := Line(ws[1..]);
      TokensStep(ws[0], " " + rest);
      assert ws[0] + " " + rest == ws[0] + (" " + rest);
      TokensSkipsBlank(' ', rest);
      ScanOfLine(ws[1..]);
      assert ws == [ws[0]] + ws[1..];
    }
  }

  // ---------- nextWord and getWords ----------

  /** A maximal run of printable characters starts at i. */
  predicate StartsWord(s: string, i: nat)
    requires i < |s|
  {
    Graph(s[i]) && (i == 0 || !Graph(s[i - 1]))
  }

  /** How many maximal runs of printable characters start before position n. */
  function CountWords(s: string, n: nat): nat
    requires n <= |s|
  {
    if n == 0 then 0 else CountWords(s, n - 1) + (if StartsWord(s, n - 1) then 1 else 0)
  }

  function WordCount(s: string): nat {
    CountWords(s, |s|)
  }

  /** No run starts strictly inside a stretch that is uniformly printable or uniformly not. */
  lemma {:induction false} CountAcross(s: string, lo: nat, hi: nat)
    requires lo <= hi <= |s|
    requires forall i | lo <= i < hi :: !StartsWord(s, i)
    ensures CountWords(s, hi) == CountWords(s, lo)
    decreases hi
  {
    if lo < hi {
      CountAcross(s, lo, hi - 1);
    }
  }

  method NextWord(s: string, from: nat) returns (found: bool, ini: nat, size: nat)
    requires from <= |s|
    ensures found ==> from <= ini && 0 < size && ini + size <= |s|
    ensures found ==> forall i | from <= i < ini :: !Graph(s[i])
    ensures found ==> forall i | ini <= i < ini + size :: Graph(s[i])
    ensures found ==> ini + size == |s| || !Graph(s[ini + size])
    ensures !found ==> size == 0 && forall i | from <= i < |s| :: !Graph(s[i])
  {
    var buffer := from;
    found, ini, size := false, 0, 0;
    while !found && buffer < |s|
      invariant from <= buffer <= |s|
      invariant !found ==> size == 0 && forall i | from <= i < buffer :: !Graph(s[i])
      invariant found ==> size == 1 && from <= ini && buffer == ini + 1 && Graph(s[ini])
      invariant found ==> forall i | from <= i < ini :: !Graph(s[i])
      decreases |s| - buffer
    {
      if Graph(s[buffer]) {
        ini := buffer;
        size := size + 1;
        found := true;
      }
      buffer := buffer + 1;
    }
    while buffer < |s|
      invariant from <= buffer <= |s|
      invariant found ==> buffer == ini + size
      invariant found ==> forall i | ini <= i < buffer :: Graph(s[i])
      invariant !found ==> buffer == |s| && size == 0
    {
      if !Graph(s[buffer]) {
        break;
      }
      size := size + 1;
      buffer := buffer + 1;
    }
  }

  method GetWords(s: string) returns (n: nat)
    ensures n == WordCount(s)
  {
    n := 0;
    var buffer := 0;
    var found, ini, size := NextWord(s, buffer);
    while found
      invariant buffer <= |s|
      invariant n == CountWords(s, buffer)
      invariant buffer == 0 || buffer == |s| || !Graph(s[buffer])
      invariant found ==> buffer <= ini && 0 < size && ini + size <= |s|
      invariant found ==> forall i | buffer <= i < ini :: !Graph(s[i])
      invariant found ==> forall i | ini <= i < ini + size :: Graph(s[i])
      invariant found ==> ini + size == |s| || !Graph(s[ini + size])
      invariant !found ==> forall i | buffer <= i < |s| :: !Graph(s[i])
      decreases |s| - buffer, found
    {
      CountAcross(s, buffer, ini);
      assert StartsWord(s, ini);
      CountAcross(s, ini + 1, ini + size);
      n := n + 1;
      buffer := ini + size;
      found, ini, size := NextWord(s, buffer);
    }
    CountAcross(s, buffer, |s|);
  }

  lemma {:induction false} CountPrefix(p: string, s: string, n: nat)
    requires n <= |p|
    ensures CountWords(p + s, n) == CountWords(p, n)
    decreases n
  {
    if n > 0 {
      CountPrefix(p, s, n - 1);
    }
  }

  /** A prefix that ends in a non-printable character is counted separately from the rest. */
  lemma {:induction false} CountSplit(p: string, s: string, n: nat)
    requires p != [] && !Graph(p[|p| - 1]) && n <= |s|
    ensures CountWords(p + s, |p| + n) == CountWords(p, |p|) + CountWords(s, n)
    decreases n
  {
    if n == 0 {
      CountPrefix(p, s, |p|);
    } else {
      CountSplit(p, s, n - 1);
      assert (p + s)[|p| + n - 1] == s[n - 1];
    }
  }

  lemma CountOneWord(w: string, c: char)
    requires IsGraphWord(w) && !Graph(c)
    ensures WordCount(w + [c]) == 1
  {
    var s := w + [c];
    assert w[0] in w;
    assert CountWords(s, 0) == 0 && CountWords(s, 1) == 1 by { assert StartsWord(s, 0); }
    forall i | 1 <= i < |s| ensures !StartsWord(s, i) {
      assert w[i - 1] in w;
    }
    CountAcross(s, 1, |s|);
  }

  /** Counting inverts joining: a printed line of printable words counts as many words as were printed. */
  lemma {:induction false} WordsOfLine(ws: seq<string>)
    requires ws != [] && forall w | w in ws :: IsGraphWord(w)
    ensures WordCount(Line(ws)) == |ws|
  {
    if |ws| == 1 {
      CountOneWord(ws[0], '\n');
    } else {
      var p, rest := ws[0] + " ", Line(ws[1..]);
      CountOneWord(ws[0], ' ');
      CountSplit(p, rest, |rest|);
      WordsOfLine(ws[1..]);
    }
  }

  lemma GraphIsWord(w: string)
    requires IsGraphWord(w)
    ensures IsWord(w)
  {
    forall c | c in w ensures !Blank(c) {
      assert Graph(c);
    }
  }

  /** The dispatchers test a word count and compare fields: on a printed request they see what was printed. */
  lemma DispatchOfLine(ws: seq<string>)
    requires ws != [] && forall w | w in ws :: IsGraphWord(w)
    ensures WordCount(Line(ws)) == |ws|
    ensures forall k: nat :: Field(Line(ws), k) == if k < |ws| then ws[k] else ""
  {
    WordsOfLine(ws);
    forall w | w in ws ensures IsWord(w) { GraphIsWord(w); }
    ScanOfLine(ws);
  }

  // ---------- validUID and validPASS ----------

  predicate Digit(c: char) {
    '0' <= c <= '9'
  }

  predicate AlphaNumeric(c: char) {
    Digit(c) || 'A' <= c <= 'Z' || 'a' <= c <= 'z'
  }

  const UID_LENGTH := 5
  const PASS_LENGTH := 8

  predicate ValidUid(uid: string) {
    |uid| == UID_LENGTH && forall c | c in uid :: Digit(c)
  }

  predicate ValidPass(pw: string) {
    |pw| == PASS_LENGTH && forall c | c in pw :: AlphaNumeric(c)
  }

  method CheckUid(uid: string) returns (ok: bool)
    ensures ok == ValidUid(uid) == (|uid| == 5 && forall c | c in uid :: Digit(c))
  {
    var i := 0;
    while i < |uid|
      invariant 0 <= i <= |uid| && i <= UID_LENGTH
      invariant forall c | c in uid[..i] :: Digit(c)
    {
      if Digit(uid[i]) && i < UID_LENGTH {
        i := i + 1;
      } else {
        return false;
      }
    }
    assert uid[..i] == uid;
    return i == UID_LENGTH;
  }

  /**
   * In the loop's test the length bound guards only the lower-case case, because `&&` binds tighter than `||`.
   * The final length test makes up for it.
   */
  method CheckPass(pw: string) returns (ok: bool)
    ensures ok == ValidPass(pw) == (|pw| == 8 && forall c | c in pw :: AlphaNumeric(c))
  {
    var i := 0;
    while i < |pw|
      invariant 0 <= i <= |pw|
      invariant forall c | c in pw[..i] :: AlphaNumeric(c)
    {
      if Digit(pw[i]) || 'A' <= pw[i] <= 'Z' || ('a' <= pw[i] <= 'z' && i < PASS_LENGTH) {
        i := i + 1;
      } else {
        assert pw[i] in pw;
        return false;
      }
    }
    assert pw[..i] == pw;
    return i == PASS_LENGTH;
  }

  // ---------- a line without its last character ----------

  lemma {:induction false} LeadBeforeBlank(s: string, c: char)
    requires Blank(c)
    ensures Lead(s + [c]) == Lead(s)
  {
    if s == [] {
    } else if !Blank(s[0]) {
      assert (s + [c])[1..] == s[1..] + [c];
      LeadBeforeBlank(s[1..], c);
    }
  }

  lemma {:induction false} SkipBeforeBlank(s: string, c: char)
    requires Blank(c)
    ensures Skip(s + [c]) == if Skip(s) == [] then [] else Skip(s) + [c]
  {
    if s == [] {
      assert (s + [c])[1..] == [];
    } else if Blank(s[0]) {
      assert (s + [c])[1..] == s[1..] + [c];
      SkipBeforeBlank(s[1..], c);
    }
  }

  /** Cutting off a final newline changes no field. */
  lemma {:induction false} TokensBeforeBlank(s: string, c: char)
    requires Blank(c)
    ensures Tokens(s + [c]) == Tokens(s)
    decreases |s|
  {
    SkipBeforeBlank(s, c);
    var r := Skip(s);
    if r != [] {
      LeadBeforeBlank(r, c);
      var w := Lead(r);
      assert (r + [c])[|w|..] == r[|w|..] + [c];
      TokensBeforeBlank(r[|w|..], c);
    }
  }

  lemma {:induction false} LineEnds(ws: seq<string>)
    requires ws != []
    ensures Line(ws) != [] && Line(ws)[|Line(ws)| - 1] == '\n'
  {
    if |ws| > 1 {
      LineEnds(ws[1..]);
    }
  }

  lemma CutLine(ws: seq<string>)
    requires ws != [] && forall w | w in ws :: IsWord(w)
    ensures Line(ws) != [] && Tokens(Line(ws)[..|Line(ws)| - 1]) == ws
  {
    LineEnds(ws);
    var s := Line(ws)[..|Line(ws)| - 1];
    assert Line(ws) == s + ['\n'];
    TokensBeforeBlank(s, '\n');
    ScanOfLine(ws);
  }
}
