/** The File Server's files as an abstract store, and what each command does to it. */
module FileStore {
  import opened Options
  import opened Stream

  /** The files of each user that has a directory. */
  type Store = map<string, map<string, Bytes>>

  const MAX_FILES := 15

  // ---------- names ----------

  // The server prints a name behind the user's directory and opens the result, so a name is a path from there.

  /** The name of the directory that holds the users' directories, in the one where the server runs. */
  const PATHNAME := "USERS"

  /**
   * Where a path leads: the directory where the server runs, the directory of all users in it, a user's directory,
   * a file in one; or anything else.
   */
  datatype Place = Top | Root | Directory(uid: string) | File(uid: string, name: string) | Elsewhere

  /** The parts of a path between its slashes. */
  function Parts(path: string): (ps: seq<string>)
    ensures ps != []
  {
    if path == [] then [""]
    else if path[0] == '/' then [""] + Parts(path[1..])
    else [[path[0]] + Parts(path[1..])[0]] + Parts(path[1..])[1..]
  }

  function Enter(s: Store, at: Place, part: string): Place {
    if at.File? || at.Elsewhere? then Elsewhere
    else if part == "" || part == "." then at
    else if at.Directory? then if part == ".." then Root else File(at.uid, part)
    else if at.Root? then if part == ".." then Top else if part in s then Directory(part) else Elsewhere
    else if part == PATHNAME then Root
    else Elsewhere
  }

  predicate Stands(s: Store, at: Place) {
    at.Directory? || at.File? ==> at.uid in s
  }

  function Follow(s: Store, at: Place, parts: seq<string>): (p: Place)
    ensures Stands(s, at) ==> Stands(s, p)
    decreases |parts|
  {
    if parts == [] then at else Follow(s, Enter(s, at, parts[0]), parts[1..])
  }

  /** The directory and file that a user's name leads to; none when it is no file of any user. */
  function Target(s: Store, uid: string, name: string): (t: Option<(string, string)>)
    ensures uid in s && t.Some? ==> t.value.0 in s
  {
    match Follow(s, Directory(uid), Parts(name))
    case File(d, f) => Some((d, f))
    case _ => None
  }

  /** A name that is no path. */
  predicate Simple(name: string) {
    '/' !in name && name !in {"", ".", ".."}
  }

  lemma {:induction false} OnePart(name: string)
    requires '/' !in name
    ensures Parts(name) == [name]
  {
    if name != [] {
      assert name[0] in name && forall c | c in name[1..] :: c in name;
      OnePart(name[1..]);
      assert [name[0]] + name[1..] == name;
    }
  }

  /** A name without a slash leads to the user's own file of that name, or to no file. */
  lemma TargetWithoutSlash(s: Store, uid: string, name: string)
    requires '/' !in name
    ensures Target(s, uid, name) == if Simple(name) then Some((uid, name)) else None
  {
    OnePart(name);
    assert Follow(s, Enter(s, Directory(uid), name), [name][1..]) == Enter(s, Directory(uid), name);
  }

  lemma {:induction false} FirstPart(first: string, rest: string)
    requires '/' !in first
    ensures Parts(first + "/" + rest) == [first] + Parts(rest)
  {
    var path := first + "/" + rest;
    if first == [] {
      assert path[1..] == rest;
    } else {
      assert first[0] in first && forall c | c in first[1..] :: c in first;
      assert path[1..] == first[1..] + "/" + rest;
      FirstPart(first[1..], rest);
      assert [first[0]] + first[1..] == first;
    }
  }

  lemma FromRoot(s: Store, other: string, name: string)
    requires other in s && Simple(other) && Simple(name)
    ensures Follow(s, Root, Parts(other + "/" + name)) == File(other, name)
  {
    FirstPart(other, name);
    OnePart(name);
    var ps := [other] + [name];
    assert ps[1..] == [name] && [name][1..] == [];
    assert Follow(s, Directory(other), [name]) == Follow(s, File(other, name), []);
    assert Follow(s, Root, ps) == Follow(s, Directory(other), ps[1..]);
  }

  /** With a slash it may lead to a file of anyone. */
  lemma TargetOfOther(s: Store, uid: string, other: string, name: string)
    requires other in s && Simple(other) && Simple(name)
    ensures Target(s, uid, "../" + other + "/" + name) == Some((other, name))
  {
    var rest := other + "/" + name;
    assert "../" + other + "/" + name == ".." + "/" + rest;
    FirstPart("..", rest);
    FromRoot(s, other, name);
    var ps := [".."] + Parts(rest);
    assert ps[1..] == Parts(rest);
    assert Follow(s, Directory(uid), ps) == Follow(s, Root, ps[1..]);
  }

  lemma {:induction false} FollowElsewhere(s: Store, parts: seq<string>)
    ensures Follow(s, Elsewhere, parts) == Elsewhere
    decreases |parts|
  {
    if parts != [] {
      FollowElsewhere(s, parts[1..]);
    }
  }

  /** The first two parts of a path lead out of the directory of all users. */
  lemma TwoUp(s: Store, uid: string, rest: string)
    ensures Follow(s, Directory(uid), Parts("../../" + rest)) == Follow(s, Top, Parts(rest))
  {
    FirstPart("..", "../" + rest);
    FirstPart("..", rest);
    assert "../../" + rest == ".." + "/" + ("../" + rest) && "../" + rest == ".." + "/" + rest;
    var ps := [".."] + ([".."] + Parts(rest));
    assert ps[1..] == [".."] + Parts(rest) && ps[1..][1..] == Parts(rest);
    assert Follow(s, Root, ps[1..]) == Follow(s, Top, Parts(rest));
    assert Follow(s, Directory(uid), ps) == Follow(s, Root, ps[1..]);
  }

  /** A path can lead out of the directory of all users to what is no file of any user ... */
  lemma TargetOutside(s: Store, uid: string, first: string, rest: string)
    requires '/' !in first && first !in {"", ".", PATHNAME}
    ensures Target(s, uid, "../../" + first) == Target(s, uid, "../../" + first + "/" + rest) == None
  {
    TwoUp(s, uid, first);
    OnePart(first);
    assert Follow(s, Top, [first]) == Follow(s, Elsewhere, [first][1..]);
    FollowElsewhere(s, [first][1..]);
    assert "../../" + first + "/" + rest == "../../" + (first + "/" + rest);
    TwoUp(s, uid, first + "/" + rest);
    FirstPart(first, rest);
    var ps := [first] + Parts(rest);
    assert Follow(s, Top, ps) == Follow(s, Elsewhere, ps[1..]);
    FollowElsewhere(s, ps[1..]);
  }

  /** ... and out and back in to a file of anyone. */
  lemma TargetOutAndIn(s: Store, uid: string, other: string, name: string)
    requires other in s && Simple(other) && Simple(name)
    ensures Target(s, uid, "../../" + PATHNAME + "/" + other + "/" + name) == Some((other, name))
  {
    var rest := other + "/" + name;
    assert "../../" + PATHNAME + "/" + other + "/" + name == "../../" + (PATHNAME + "/" + rest);
    TwoUp(s, uid, PATHNAME + "/" + rest);
    FirstPart(PATHNAME, rest);
    FromRoot(s, other, name);
    var ps := [PATHNAME] + Parts(rest);
    assert ps[1..] == Parts(rest);
    assert Follow(s, Top, ps) == Follow(s, Root, ps[1..]);
  }

  // ---------- commands ----------

  datatype Command = List | Retrieve(name: string) | Upload(name: string, data: Bytes) | Delete(name: string) | Remove

  datatype Status = Ok | Nok | Eof | Full | Dup | Failed

  function MakeDir(s: Store, uid: string): Store {
    if uid in s then s else s[uid := map[]]
  }

  /** One command of one user: the store afterwards and the status word of the reply. */
  function Exec(s: Store, uid: string, c: Command): (Store, Status) {
    match c
    case List => (s, if uid !in s then Failed else if s[uid] == map[] then Eof else Ok)
    case Retrieve(name) =>
      if uid !in s then (s, Nok) else
        var t := Target(s, uid, name);
        (s, if t.None? then Failed else if t.value.1 !in s[t.value.0] then Eof else Ok)
    case Upload(name, data) =>
      var r := MakeDir(s, uid);
      var t := Target(r, uid, name);
      if |r[uid]| >= MAX_FILES then (r, Full)
      else if t.None? then (r, Failed)
      else if t.value.1 in r[t.value.0] then (r, Dup)
      else (r[t.value.0 := r[t.value.0][t.value.1 := data]], Ok)
    case Delete(name) =>
      if uid !in s then (s, Nok) else
        var t := Target(s, uid, name);
        if t.None? then (s, Failed)
        else if t.value.1 !in s[t.value.0] then (s, Eof)
        else (s[t.value.0 := s[t.value.0] - {t.value.1}], Ok)
    case Remove =>
      if uid !in s then (s, Nok) else (s - {uid}, Ok)
  }

  /** What a reader sees. */
  function Content(s: Store, uid: string, name: string): Option<Bytes> {
    if uid in s && name in s[uid] then Some(s[uid][name]) else None
  }

  /** The file that a command names. */
  function TargetOf(s: Store, uid: string, c: Command): Option<(string, string)> {
    match c
    case Retrieve(name) => Target(s, uid, name)
    case Upload(name, _) => Target(MakeDir(s, uid), uid, name)
    case Delete(name) => Target(s, uid, name)
    case _ => None
  }

  /**
   * The command names a file of some user, or comes to its end before it looks for the file. What a command does
   * with a path that leads anywhere else is up to what is there: nothing is said about it.
   */
  predicate Followed(s: Store, uid: string, c: Command) {
    || c.List? || c.Remove? || TargetOf(s, uid, c).Some?
    || (if c.Upload? then uid in s && |s[uid]| >= MAX_FILES else uid !in s)
  }

  /** Every file after a command: only a successful command changes any, and only the one that it names. */
  lemma ContentAfter(s: Store, uid: string, c: Command, u: string, n: string)
    requires Followed(s, uid, c)
    ensures Content(Exec(s, uid, c).0, u, n) ==
            if Exec(s, uid, c).1 != Ok then Content(s, u, n)
            else match c
              case Upload(name, data) => if TargetOf(s, uid, c) == Some((u, n)) then Some(data) else Content(s, u, n)
              case Delete(name) => if TargetOf(s, uid, c) == Some((u, n)) then None else Content(s, u, n)
              case Remove => if u == uid then None else Content(s, u, n)
              case _ => Content(s, u, n)
  {
  }

  predicate SimplyNamed(c: Command) {
    c.List? || c.Remove? || Simple(c.name)
  }

  /** A command with a simple name touches only its own user's file of that name, or with REM its own user's files. */
  lemma OnlyOwnFiles(s: Store, uid: string, c: Command, u: string, n: string)
    requires SimplyNamed(c) && Content(Exec(s, uid, c).0, u, n) != Content(s, u, n)
    ensures u == uid && (c.Remove? || ((c.Upload? || c.Delete?) && c.name == n))
  {
    if !c.List? && !c.Remove? {
      TargetWithoutSlash(s, uid, c.name);
      TargetWithoutSlash(MakeDir(s, uid), uid, c.name);
    }
    ContentAfter(s, uid, c, u, n);
  }

  /** A DEL can take away another user's file. */
  lemma DeletesOther(s: Store, uid: string, other: string, name: string)
    requires uid in s && Simple(other) && Simple(name) && Content(s, other, name).Some?
    ensures Content(Exec(s, uid, Delete("../" + other + "/" + name)).0, other, name) == None
  {
    TargetOfOther(s, uid, other, name);
  }

  /** An upload succeeds exactly when there is room and the name is free. */
  lemma UploadSucceeds(s: Store, uid: string, name: string, data: Bytes)
    requires TargetOf(s, uid, Upload(name, data)).Some?
    ensures var t := TargetOf(s, uid, Upload(name, data)).value;
            Exec(s, uid, Upload(name, data)).1 == Ok
            <==> Content(s, t.0, t.1) == None && (uid in s ==> |s[uid]| < MAX_FILES)
  {
  }

  /** What an upload is answered. */
  lemma UploadStatus(s: Store, uid: string, name: string, data: Bytes)
    requires TargetOf(s, uid, Upload(name, data)).Some?
    ensures var status, t := Exec(s, uid, Upload(name, data)).1, TargetOf(s, uid, Upload(name, data)).value;
            && (status == Full <==> uid in s && |s[uid]| >= 15)
            && (status == Dup <==> (uid in s ==> |s[uid]| < 15) && Content(s, t.0, t.1).Some?)
            && (status == Ok <==> (uid in s ==> |s[uid]| < 15) && Content(s, t.0, t.1).None?)
  {
  }

  /** What a retrieval is answered; it changes nothing. */
  lemma RetrieveStatus(s: Store, uid: string, name: string)
    requires TargetOf(s, uid, Retrieve(name)).Some?
    ensures var (z, status) := Exec(s, uid, Retrieve(name));
            var t := TargetOf(s, uid, Retrieve(name)).value;
            && z == s
            && (status == Nok <==> uid !in s)
            && (status == Eof <==> uid in s && Content(s, t.0, t.1).None?)
            && (status == Ok <==> uid in s && Content(s, t.0, t.1).Some?)
  {
  }

  /** What a deletion is answered, and what it leaves. */
  lemma DeleteStatus(s: Store, uid: string, name: string)
    requires TargetOf(s, uid, Delete(name)).Some?
    ensures var (z, status) := Exec(s, uid, Delete(name));
            var t := TargetOf(s, uid, Delete(name)).value;
            && (status == Nok <==> uid !in s)
            && (status == Eof <==> uid in s && Content(s, t.0, t.1).None?)
            && (status == Ok <==> uid in s && Content(s, t.0, t.1).Some?)
            && (uid in s ==> Content(z, t.0, t.1).None?)
  {
  }

  /** What a removal is answered, and what it leaves: every other user's directory, and no file of this user. */
  lemma RemoveStatus(s: Store, uid: string)
    ensures var (z, status) := Exec(s, uid, Remove);
            && (status == Ok <==> uid in s) && (status == Nok <==> uid !in s)
            && uid !in z && forall u | u != uid :: (u in z <==> u in s) && (u in s ==> z[u] == s[u])
  {
  }

  lemma {:induction false} SameDirectories(s: Store, t: Store, at: Place, parts: seq<string>)
    requires s.Keys == t.Keys
    ensures Follow(s, at, parts) == Follow(t, at, parts)
    decreases |parts|
  {
    if parts != [] {
      assert forall d :: d in s <==> d in t;
      SameDirectories(s, t, Enter(s, at, parts[0]), parts[1..]);
    }
  }

  /** What has been uploaded is found under the same name. */
  lemma UploadIsFound(s: Store, uid: string, name: string, data: Bytes)
    requires Exec(s, uid, Upload(name, data)).1 == Ok
    ensures var z := Exec(s, uid, Upload(name, data)).0;
            var t := Target(z, uid, name);
            uid in z && t.Some? && Content(z, t.value.0, t.value.1) == Some(data)
  {
    var z := Exec(s, uid, Upload(name, data)).0;
    SameDirectories(MakeDir(s, uid), z, Directory(uid), Parts(name));
  }

  // ---------- the quota ----------

  ghost predicate WithinQuota(s: Store) {
    forall uid | uid in s :: |s[uid]| <= 15
  }

  /** The command puts a file into the full directory of another user. */
  ghost predicate Overfills(s: Store, uid: string, c: Command) {
    && c.Upload? && TargetOf(s, uid, c).Some? && (uid in s ==> |s[uid]| < MAX_FILES)
    && var (d, f) := TargetOf(s, uid, c).value;
    d != uid && d in s && |s[d]| == MAX_FILES && f !in s[d]
  }

  lemma {:induction false} SubsetSize(a: set<string>, b: set<string>)
    requires a <= b
    ensures |a| <= |b|
  {
    if a != {} {
      var x :| x in a;
      SubsetSize(a - {x}, b - {x});
    }
  }

  lemma RemovalShrinks(m: map<string, Bytes>, name: string)
    ensures |m - {name}| <= |m|
  {
    assert (m - {name}).Keys == m.Keys - {name};
    assert m.Keys - {name} <= m.Keys;
    SubsetSize(m.Keys - {name}, m.Keys);
  }

  /** The quota is counted in the user's own directory, wherever the file goes. */
  lemma QuotaKept(s: Store, uid: string, c: Command)
    requires WithinQuota(s) && Followed(s, uid, c)
    ensures WithinQuota(Exec(s, uid, c).0) <==> !Overfills(s, uid, c)
  {
    var z := Exec(s, uid, c).0;
    if c.Delete? && uid in s {
      var t := TargetOf(s, uid, c).value;
      RemovalShrinks(s[t.0], t.1);
    } else if Overfills(s, uid, c) {
      var d := TargetOf(s, uid, c).value.0;
      assert d in z && |z[d]| == MAX_FILES + 1;
    }
  }

  /** The store after a sequence of commands, handled one at a time. */
  function ExecAll(s: Store, work: seq<(string, Command)>): Store {
    if work == [] then s
    else Exec(ExecAll(s, work[..|work| - 1]), work[|work| - 1].0, work[|work| - 1].1).0
  }

  lemma SimpleKeepsQuota(s: Store, uid: string, c: Command)
    requires WithinQuota(s) && SimplyNamed(c)
    ensures WithinQuota(Exec(s, uid, c).0)
  {
    if !c.List? && !c.Remove? {
      TargetWithoutSlash(s, uid, c.name);
      TargetWithoutSlash(MakeDir(s, uid), uid, c.name);
    }
    QuotaKept(s, uid, c);
  }

  /** No user ever has more than fifteen files, as long as names are simple. */
  lemma {:induction false} QuotaAlways(work: seq<(string, Command)>)
    requires forall i | 0 <= i < |work| :: SimplyNamed(work[i].1)
    ensures WithinQuota(ExecAll(map[], work))
  {
    if work != [] {
      QuotaAlways(work[..|work| - 1]);
      SimpleKeepsQuota(ExecAll(map[], work[..|work| - 1]), work[|work| - 1].0, work[|work| - 1].1);
    }
  }

  /** With a path a sixteenth file gets in. */
  lemma QuotaBroken(s: Store, uid: string, other: string, name: string, data: Bytes)
    requires uid in s && |s[uid]| < MAX_FILES && uid != other && Simple(other) && Simple(name)
    requires other in s && |s[other]| == MAX_FILES && name !in s[other]
    ensures |Exec(s, uid, Upload("../" + other + "/" + name, data)).0[other]| == MAX_FILES + 1
  {
    TargetOfOther(s, uid, other, name);
  }

  /** The command is a DEL of this file, or a REM of its directory. */
  predicate Drops(s: Store, uid: string, c: Command, u: string, n: string) {
    (c.Delete? && TargetOf(s, uid, c) == Some((u, n))) || (c.Remove? && u == uid)
  }

  /** Only a DEL that names it or its owner's REM makes an uploaded file go away; nothing changes it. */
  lemma {:induction false} FilesLast(s: Store, work: seq<(string, Command)>, uid: string, name: string)
    requires Content(s, uid, name).Some?
    requires forall i | 0 <= i < |work| ::
               Followed(ExecAll(s, work[..i]), work[i].0, work[i].1)
               && !Drops(ExecAll(s, work[..i]), work[i].0, work[i].1, uid, name)
    ensures Content(ExecAll(s, work), uid, name) == Content(s, uid, name)
  {
    if work != [] {
      var k := |work| - 1;
      assert forall i | 0 <= i < k :: work[..k][..i] == work[..i];
      FilesLast(s, work[..k], uid, name);
      var t := ExecAll(s, work[..k]);
      ContentAfter(t, work[k].0, work[k].1, uid, name);
      if work[k].1.Upload? && TargetOf(t, work[k].0, work[k].1).Some? {
        UploadSucceeds(t, work[k].0, work[k].1.name, work[k].1.data);
      }
    }
  }
}
