/** How the File Server reads a command line, what it checks of it, and what it makes of it. */
module FileCommands {
  import opened Options
  import opened Text
  import opened Stream
  import opened FileStore
  import Decimal

  const FNAME_LENGTH := 24

  // ---------- reading a command line ----------

  /** The text after the first space, if there is one. */
  function PointToArgs(s: string): (r: Option<string>)
    ensures r.Some? ==> |r.value| < |s|
  {
    if s == [] then None else if s[0] == ' ' then Some(s[1..]) else PointToArgs(s[1..])
  }

  function Take(s: string, n: nat): string {
    if |s| <= n then s else s[..n]
  }

  /** The letter AS uses for the command that a line starts with; NUL for an unknown command. */
  function Letter(line: string): char {
    var command := Take(line, 3);
    if command == "LST" then 'L'
    else if command == "RTV" then 'R'
    else if command == "UPL" then 'U'
    else if command == "DEL" then 'D'
    else if command == "REM" then 'X'
    else '\0'
  }

  datatype Request = Request(uid: string, tid: string, args: string)

  /** UID, TID and the rest of the line; none when the UID or the TID is missing. */
  function Parse(line: string): Option<Request> {
    var a := PointToArgs(line);
    if a.None? then None else
      var b := PointToArgs(a.value);
      if b.None? then None else
        var c := PointToArgs(b.value);
        Some(Request(Take(a.value, UID_LENGTH), Take(b.value, Decimal.TID_LENGTH),
                     if c.Some? then c.value else ""))
  }

  // ---------- the name that is checked ----------

  predicate EndsName(c: char) {
    c == '\n' || c == ' '
  }

  /** The leading characters, at most n of them, before the first newline or space. */
  function NamePart(s: string, n: nat): (w: string)
    ensures |w| <= n && |w| <= |s| && w == s[..|w|]
    ensures forall i | 0 <= i < |w| :: !EndsName(s[i])
    ensures |w| == n || |w| == |s| || EndsName(s[|w|])
    decreases n
  {
    if n == 0 || s == [] || EndsName(s[0]) then [] else [s[0]] + NamePart(s[1..], n - 1)
  }

  /** The name that `validate` compares. */
  function CheckedName(args: string): string {
    NamePart(args, FNAME_LENGTH)
  }

  function FirstChar(s: string): char {
    if s == [] then '\0' else s[0]
  }

  /** The reply to VLD, of which the last character is cut off, must repeat UID and TID and fit the command. */
  predicate Validate(q: Request, line: string, reply: string)
    requires reply != []
  {
    var text := reply[..|reply| - 1];
    && Field(text, 0) == "CNF"
    && Field(text, 1) == q.uid
    && Field(text, 2) == q.tid
    && FirstChar(Field(text, 3)) == Letter(line)
    && (Field(text, 4) != "" ==> CheckedName(q.args) == Field(text, 4))
  }

  // ---------- the name that is used ----------

  /** The leading characters before the first newline, at most n; none if the text ends first. */
  function UntilNewline(s: string, n: nat): (w: Option<string>)
    ensures w.Some? ==> |w.value| <= n && |w.value| <= |s| && w.value == s[..|w.value|]
    ensures w.Some? ==> forall i | 0 <= i < |w.value| :: s[i] != '\n'
    ensures w.Some? ==> |w.value| == n || (|w.value| < |s| && s[|w.value|] == '\n')
    decreases n
  {
    if n == 0 then Some([])
    else if s == [] then None
    else if s[0] == '\n' then Some([])
    else var r := UntilNewline(s[1..], n - 1);
         if r.Some? then Some([s[0]] + r.value) else None
  }

  /** What `sscanf("%s %d")` reads from the arguments of an upload: the name and the size. */
  function UploadFields(args: string): Option<(string, int)> {
    if Tokens(args) == [] then None else
      var size := Decimal.ScanInt(Skip(args)[|Tokens(args)[0]|..]);
      if size.0 then Some((Tokens(args)[0], size.1)) else None
  }

  /** The name a command acts on: read anew from the arguments, by each command in its own way. */
  function UsedName(letter: char, args: string): Option<string> {
    match letter
    case 'R' => UntilNewline(args, FNAME_LENGTH)
    case 'U' => if UploadFields(args).Some? then Some(UploadFields(args).value.0) else None
    case 'D' => if args != [] then Some(args[..|args| - 1]) else None
    case _ => None
  }

  function CommandFor(letter: char, args: string, data: Bytes): Option<Command> {
    var name := UsedName(letter, args);
    match letter
    case 'L' => Some(List)
    case 'X' => Some(Remove)
    case 'R' => if name.Some? then Some(Retrieve(name.value)) else None
    case 'U' => if name.Some? then Some(Upload(name.value, data)) else None
    case 'D' => if name.Some? then Some(Delete(name.value)) else None
    case _ => None
  }

  // ---------- one connection ----------

  /** The reply validates the command. */
  predicate Confirms(q: Request, line: string, reply: string) {
    reply != [] && Validate(q, line, reply)
  }

  /** Who is to have what carried out, going by the line. */
  function Ordered(q: Request, line: string, data: Bytes): Option<(string, Command)> {
    var c := CommandFor(Letter(line), q.args, data);
    if c.Some? then Some((q.uid, c.value)) else None
  }

  /** Who has what carried out: for the line a client sent, the bytes that followed, and the reply to the validation. */
  function Cleared(line: string, data: Bytes, reply: Option<string>): Option<(string, Command)> {
    var q := Parse(line);
    if q.None? || reply.None? || !Confirms(q.value, line, reply.value) then None else Ordered(q.value, line, data)
  }

  /** The store after the connection. */
  function Serve(s: Store, line: string, data: Bytes, reply: Option<string>): Store {
    var c := Cleared(line, data, reply);
    if c.Some? then Exec(s, c.value.0, c.value.1).0 else s
  }

  // ---------- the name checked and the name used ----------

  /** The arguments hold one name of at most 24 characters, as far as the command looks. */
  predicate OneName(letter: char, args: string) {
    match letter
    case 'R' => forall i | 0 <= i < |args| && i < 24 && args[i] == ' ' :: '\n' in args[..i]
    case 'U' => Tokens(args) != [] && |Tokens(args)[0]| <= 24
    case 'D' =>
      && args != [] && (forall i | 0 <= i < |args| - 1 :: !EndsName(args[i]))
      && |args| - 1 <= 24 && (|args| - 1 < 24 ==> EndsName(args[|args| - 1]))
    case _ => true
  }

  lemma SpaceBeforeNewline(args: string, i: nat)
    requires UsedName('R', args).Some? && i < |UsedName('R', args).value| && args[i] == ' '
    ensures !OneName('R', args) && UsedName('R', args) != Some(CheckedName(args))
  {
    assert '\n' !in args[..i];
    assert CheckedName(args) == args[..|CheckedName(args)|];
  }

  lemma NoSpaceBeforeNewline(args: string, used: string)
    requires UsedName('R', args) == Some(used) && forall i | 0 <= i < |used| :: args[i] != ' '
    ensures OneName('R', args) && used == CheckedName(args)
  {
    forall i | 0 <= i < |args| && i < FNAME_LENGTH && args[i] == ' ' ensures '\n' in args[..i] {
      assert args[..i][|used|] == '\n';
    }
  }

  lemma RetrieveUsesChecked(args: string)
    requires UsedName('R', args).Some?
    ensures UsedName('R', args) == Some(CheckedName(args)) <==> OneName('R', args)
  {
    var used := UsedName('R', args).value;
    if i: nat :| i < |used| && args[i] == ' ' {
      SpaceBeforeNewline(args, i);
    } else {
      NoSpaceBeforeNewline(args, used);
    }
  }

  lemma DeleteUsesChecked(args: string)
    requires UsedName('D', args).Some?
    ensures UsedName('D', args) == Some(CheckedName(args)) <==> OneName('D', args)
  {
  }

  /** A checked name that AS knows holds no blank. */
  lemma UploadUsesChecked(args: string)
    requires UsedName('U', args).Some? && IsWord(CheckedName(args))
    ensures UsedName('U', args) == Some(CheckedName(args)) <==> OneName('U', args)
    ensures |CheckedName(args)| < FNAME_LENGTH ==> OneName('U', args)
  {
    var used, checked := UsedName('U', args).value, CheckedName(args);
    forall i | 0 <= i < |checked| ensures !Blank(args[i]) {
      assert checked[i] in checked;
    }
    assert used == Lead(args);
    forall i | 0 <= i < |used| ensures !Blank(args[i]) {
      assert used[i] in used;
    }
  }

  /** A command acts on the name that was checked exactly when its arguments hold one name. */
  lemma CheckedNameIsUsed(letter: char, args: string)
    requires letter in {'R', 'U', 'D'} && UsedName(letter, args).Some? && IsWord(CheckedName(args))
    ensures UsedName(letter, args) == Some(CheckedName(args)) <==> OneName(letter, args)
  {
    if letter == 'R' {
      RetrieveUsesChecked(args);
    } else if letter == 'U' {
      UploadUsesChecked(args);
    } else {
      DeleteUsesChecked(args);
    }
  }

  /** On a line with its newline the condition for DEL is that no space and at most 24 characters come before it. */
  lemma DeleteLineUsesChecked(w: string)
    requires '\n' !in w
    ensures UsedName('D', w + "\n") == Some(CheckedName(w + "\n")) <==> ' ' !in w && |w| <= 24
  {
    assert (w + "\n")[..|w + "\n"| - 1] == w;
    DeleteUsesChecked(w + "\n");
  }

  lemma NamePartIs(w: string, rest: string, n: nat)
    requires (forall c | c in w :: !EndsName(c)) && |w| <= n
    requires |w| == n || rest == [] || EndsName(rest[0])
    ensures NamePart(w + rest, n) == w
  {
    var p := NamePart(w + rest, n);
    forall i | 0 <= i < |w| ensures !EndsName((w + rest)[i]) {
      assert w[i] in w;
    }
    assert rest != [] ==> (w + rest)[|w|] == rest[0];
  }

  lemma {:induction false} UntilNewlineIs(w: string, rest: string, n: nat)
    requires '\n' !in w && |w| < n && rest != [] && rest[0] == '\n'
    ensures UntilNewline(w + rest, n) == Some(w)
  {
    if w == [] {
      assert w + rest == rest;
    } else {
      assert w[0] in w && (w + rest)[1..] == w[1..] + rest;
      UntilNewlineIs(w[1..], rest, n - 1);
      assert [w[0]] + w[1..] == w;
    }
  }

  /** So a request for the file `a` lets a client retrieve, or delete, the file `a b`. */
  lemma OtherNameUsed()
    ensures CheckedName("a b\n") == "a"
    ensures UsedName('R', "a b\n") == Some("a b") == UsedName('D', "a b\n")
  {
    assert "a b\n" == "a" + " b\n" == "a b" + "\n";
    NamePartIs("a", " b\n", FNAME_LENGTH);
    UntilNewlineIs("a b", "\n", FNAME_LENGTH);
  }

  lemma SingleName(name: string)
    requires |name| < FNAME_LENGTH && forall c | c in name :: !EndsName(c)
    ensures OneName('R', name + "\n") && UsedName('R', name + "\n") == Some(name)
  {
    UntilNewlineIs(name, "\n", FNAME_LENGTH);
    NamePartIs(name, "\n", FNAME_LENGTH);
    RetrieveUsesChecked(name + "\n");
  }

  lemma WordHasNoEnd(w: Word)
    ensures forall c | c in w :: !EndsName(c)
  {
    forall c | c in w ensures !EndsName(c) { assert !Blank(c); }
  }

  lemma PrintedUpload(name: Word, size: nat, args: string)
    requires args == name + " " + Decimal.Dec(size) + " \n"
    ensures UploadFields(args) == Some((name, size))
  {
    var number := Decimal.Dec(size) + " \n";
    assert args == name + ([' '] + number);
    TokensStep(name, [' '] + number);
    LeadOfWord(name, [' '] + number);
    assert Skip(args)[|name|..] == [' '] + number;
    Decimal.ScanOfDec(size, " \n");
    Decimal.ScanIntSkips(number);
  }

  lemma OneDigit()
    ensures Decimal.Dec(1) == "1"
  {
  }

  /** An upload with a name of 25 characters stores under a name of which only 24 were checked. */
  lemma LongNameUsed(name: Word, args: string)
    requires |name| > 24 && args == name + " 1 \n"
    ensures CheckedName(args) == name[..24] && UsedName('U', args) == Some(name)
  {
    var first, rest := name[..FNAME_LENGTH], name[FNAME_LENGTH..] + " 1 \n";
    WordHasNoEnd(name);
    assert args == first + rest;
    NamePartIs(first, rest, FNAME_LENGTH);
    OneDigit();
    assert args == name + " " + Decimal.Dec(1) + " \n";
    PrintedUpload(name, 1, args);
  }

  // ---------- what a client prints ----------

  lemma WordIsChecked(name: Word, rest: string, args: string)
    requires |name| < FNAME_LENGTH && rest != [] && EndsName(rest[0]) && args == name + rest
    ensures CheckedName(args) == name
  {
    WordHasNoEnd(name);
    NamePartIs(name, rest, FNAME_LENGTH);
  }

  lemma Behind(name: string, digits: string)
    ensures name + " " + digits + " \n" == name + (" " + digits + " \n")
  {
  }

  lemma PrintedUploadChecked(name: Word, size: nat, args: string)
    requires |name| < FNAME_LENGTH && args == name + " " + Decimal.Dec(size) + " \n"
    ensures CheckedName(args) == name && UploadFields(args) == Some((name, size))
  {
    Behind(name, Decimal.Dec(size));
    WordIsChecked(name, " " + Decimal.Dec(size) + " \n", args);
    PrintedUpload(name, size, args);
  }

  /** For a one-token name of fewer than 24 characters, printed by a client, every command acts on that name. */
  lemma PrintedNameIsUsed(name: Word, size: nat)
    requires |name| < FNAME_LENGTH
    ensures CheckedName(name + "\n") == name
    ensures UsedName('R', name + "\n") == Some(name) == UsedName('D', name + "\n")
    ensures var args := name + " " + Decimal.Dec(size) + " \n";
            CheckedName(args) == name && UploadFields(args) == Some((name, size))
  {
    WordHasNoEnd(name);
    NamePartIs(name, "\n", FNAME_LENGTH);
    UntilNewlineIs(name, "\n", FNAME_LENGTH);
    PrintedUploadChecked(name, size, name + " " + Decimal.Dec(size) + " \n");
  }
}
