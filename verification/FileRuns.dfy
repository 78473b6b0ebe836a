/** Whole runs of all servers: the Authentication Server and the devices go on while the File Server serves clients. */
module FileRuns {
  import opened Options
  import opened Stream
  import opened Protocol
  import opened Runs
  import opened Guarantees
  import opened FileStore
  import opened FileCommands
  import opened FileAccess

  /**
   * A history of the whole system: an event at AS or at a device, or a connection of a client to FS. FS may have
   * had its answer from AS some time before it carries the command out; the connection says when that was.
   */
  datatype History =
    | Empty
    | Goes(prev: History, e: Event, reply: Reply)
    | Serves(prev: History, line: string, data: Bytes, answer: Option<Run>)

  /** What AS and the devices have seen of it. */
  function Seen(h: History): Run {
    match h
    case Empty => Begin
    case Goes(prev, e, reply) => Then(Seen(prev), e, reply)
    case Serves(prev, _, _, _) => Seen(prev)
  }

  /** What FS heard for the validation. */
  function Heard(answer: Option<Run>): Option<string> {
    if answer.Some? && answer.value.Then? then Some(Print(answer.value.reply)) else None
  }

  /** What FS has stored, as long as no command has strayed. */
  function Files(h: History): Store {
    match h
    case Empty => map[]
    case Goes(prev, _, _) => Files(prev)
    case Serves(prev, line, data, answer) => Serve(Files(prev), line, data, Heard(answer))
  }

  /** AS replies as it does, and FS hears replies of AS to datagrams. */
  ghost predicate Proper(h: History) {
    match h
    case Empty => true
    case Goes(prev, _, _) => Proper(prev) && Legit(Seen(h))
    case Serves(prev, _, _, answer) =>
      Proper(prev) && (answer.Some? ==> answer.value.Then? && answer.value.e.Udp? && Extends(Seen(prev), answer.value))
  }

  lemma {:induction false} ProperIsLegit(h: History)
    requires Proper(h)
    ensures Legit(Seen(h))
  {
    if h.Serves? {
      ProperIsLegit(h.prev);
    }
  }

  /** No command has led out of the users' directories. */
  ghost predicate Inside(h: History) {
    match h
    case Empty => true
    case Goes(prev, _, _) => Inside(prev)
    case Serves(prev, line, data, answer) =>
      var c := Cleared(line, data, Heard(answer));
      Inside(prev) && (c.Some? ==> Followed(Files(prev), c.value.0, c.value.1))
  }

  /** The connection that stored the file as it is now. */
  function Origin(h: History, uid: string, name: string): (w: Option<History>)
    ensures w.Some? ==> w.value.Serves?
  {
    match h
    case Empty => None
    case Goes(prev, _, _) => Origin(prev, uid, name)
    case Serves(prev, _, _, _) =>
      if Content(Files(h), uid, name) == Content(Files(prev), uid, name) then Origin(prev, uid, name)
      else if Content(Files(h), uid, name).Some? then Some(h)
      else None
  }

  /**
   * The connection was an upload to this file by a user whose latest successful REQ, approved by both factors, had
   * asked for an upload; it had named the file that was used exactly when the line's arguments held one name.
   */
  ghost predicate Uploads(w: History, uid: string, name: string)
    requires w.Serves?
  {
    && w.answer.Some? && w.answer.value.Then? && Parse(w.line).Some? && Letter(w.line) == 'U'
    && var q := Parse(w.line).value;
    var used := UsedName('U', q.args);
    && AskedBefore(w.answer.value.prev, q, w.line)
    && var g := LatestGrant(w.answer.value.prev, q.uid).value;
    && TwoFactors(g, q.uid)
    && used.Some? && Target(MakeDir(Files(w.prev), q.uid), q.uid, used.value) == Some((uid, name))
    && (Named(g.e.m) == used <==> OneName('U', q.args))
  }

  /** What a connection that changes a file has done to it, and on whose approval. */
  lemma ConnectionChanges(h: History, uid: string, name: string)
    requires Proper(h) && Inside(h) && h.Serves?
    ensures Content(Files(h), uid, name) != Content(Files(h.prev), uid, name) ==>
              && h.answer.Some? && h.answer.value.Then? && Parse(h.line).Some?
              && AskedBefore(h.answer.value.prev, Parse(h.line).value, h.line)
              && TwoFactors(LatestGrant(h.answer.value.prev, Parse(h.line).value.uid).value, Parse(h.line).value.uid)
              && if Content(Files(h), uid, name).Some? then
                   Uploads(h, uid, name) && Content(Files(h), uid, name) == Some(h.data)
                 else Letter(h.line) in {'D', 'X'}
  {
    var s, c := Files(h.prev), Cleared(h.line, h.data, Heard(h.answer));
    if c.Some? {
      ProperIsLegit(h.prev);
      LegitPrefix(Seen(h.prev), h.answer.value);
      FilesChangeOnlyOnRequest(s, h.line, h.data, h.answer.value, uid, name);
      ValidatedMeansAuthorised(h.answer.value, Parse(h.line).value, h.line);
      ContentAfter(s, c.value.0, c.value.1, uid, name);
    }
  }

  /** In every run every stored file was uploaded so, and holds what was sent. */
  lemma {:induction false} EveryFileWasUploaded(h: History, uid: string, name: string)
    requires Proper(h) && Inside(h)
    ensures Content(Files(h), uid, name).Some? <==> Origin(h, uid, name).Some?
    ensures Origin(h, uid, name).Some? ==>
              var w := Origin(h, uid, name).value;
              Uploads(w, uid, name) && Content(Files(h), uid, name) == Some(w.data)
  {
    if h.Serves? && Content(Files(h), uid, name) != Content(Files(h.prev), uid, name) {
      ConnectionChanges(h, uid, name);
    } else if !h.Empty? {
      EveryFileWasUploaded(h.prev, uid, name);
    }
  }

  // ---------- when names are simple ----------

  /** Every upload, deletion and retrieval carried out had one simple name in its arguments. */
  ghost predicate Tidy(h: History) {
    match h
    case Empty => true
    case Goes(prev, _, _) => Tidy(prev)
    case Serves(prev, line, data, answer) =>
      var c := Cleared(line, data, Heard(answer));
      Tidy(prev) && (c.Some? ==> SimplyNamed(c.value.1) && OneName(Letter(line), Parse(line).value.args))
  }

  lemma {:induction false} TidyIsInside(h: History)
    requires Tidy(h)
    ensures Inside(h)
  {
    if !h.Empty? {
      TidyIsInside(h.prev);
      if h.Serves? {
        var c := Cleared(h.line, h.data, Heard(h.answer));
        if c.Some? && !c.value.1.List? && !c.value.1.Remove? {
          TargetWithoutSlash(Files(h.prev), c.value.0, c.value.1.name);
          TargetWithoutSlash(MakeDir(Files(h.prev), c.value.0), c.value.0, c.value.1.name);
        }
      }
    }
  }

  lemma {:induction false} OriginIsTidy(h: History, uid: string, name: string)
    requires Tidy(h) && Origin(h, uid, name).Some?
    ensures Tidy(Origin(h, uid, name).value)
  {
    if Origin(h, uid, name) != Some(h) {
      OriginIsTidy(h.prev, uid, name);
    }
  }

  lemma {:induction false} OriginChanges(h: History, uid: string, name: string)
    requires Origin(h, uid, name).Some?
    ensures var w := Origin(h, uid, name).value;
            Content(Files(w), uid, name) != Content(Files(w.prev), uid, name)
  {
    if !h.Serves? || Content(Files(h), uid, name) == Content(Files(h.prev), uid, name) {
      OriginChanges(h.prev, uid, name);
    }
  }

  lemma TidyUploadIsNamed(w: History, uid: string, name: string)
    requires w.Serves? && Tidy(w) && Uploads(w, uid, name) && Cleared(w.line, w.data, Heard(w.answer)).Some?
    ensures var q := Parse(w.line).value;
            q.uid == uid && Named(LatestGrant(w.answer.value.prev, uid).value.e.m) == Some(name)
  {
    var q := Parse(w.line).value;
    TargetWithoutSlash(MakeDir(Files(w.prev), q.uid), q.uid, UsedName('U', q.args).value);
  }

  /** Then every stored file is its owner's own upload, under the name that the owner's REQ had given. */
  lemma EveryFileWasNamed(h: History, uid: string, name: string)
    requires Proper(h) && Tidy(h) && Content(Files(h), uid, name).Some?
    ensures var w := Origin(h, uid, name);
            && w.Some? && Uploads(w.value, uid, name) && Content(Files(h), uid, name) == Some(w.value.data)
            && Parse(w.value.line).value.uid == uid
            && Named(LatestGrant(w.value.answer.value.prev, uid).value.e.m) == Some(name)
  {
    TidyIsInside(h);
    EveryFileWasUploaded(h, uid, name);
    OriginIsTidy(h, uid, name);
    OriginChanges(h, uid, name);
    TidyUploadIsNamed(Origin(h, uid, name).value, uid, name);
  }

  /** And in every run no user has more than fifteen files. */
  lemma {:induction false} QuotaHolds(h: History)
    requires Tidy(h)
    ensures WithinQuota(Files(h))
  {
    if !h.Empty? {
      QuotaHolds(h.prev);
      if h.Serves? {
        var c := Cleared(h.line, h.data, Heard(h.answer));
        if c.Some? {
          SimpleKeepsQuota(Files(h.prev), c.value.0, c.value.1);
        }
      }
    }
  }

  // ---------- requests can be served ----------

  /** Whatever has happened, a client whose line says what the latest successful REQ asked for can be served. */
  lemma RequestCanBeServed(h: History, line: string, data: Bytes, d: Datagram) returns (z: History)
    requires Proper(h) && AsksAbout(d, line) && Letter(line) != '\0'
    requires AskedBefore(Seen(h), Parse(line).value, line)
    ensures Proper(z) && Seen(z).Then? && Seen(z).prev == Seen(h)
    ensures var c := Ordered(Parse(line).value, line, data);
            && (c.None? ==> Files(z) == Files(h))
            && (c.Some? && Followed(Files(h), c.value.0, c.value.1) ==>
                  Files(z) == Exec(Files(h), c.value.0, c.value.1).0)
  {
    ProperIsLegit(h);
    var asked := Goes(h, Udp(d), Step(After(Seen(h)), Udp(d)).1);
    z := Serves(asked, line, data, Some(Seen(asked)));
    ClearedExactly(line, data, Seen(asked));
  }
}
