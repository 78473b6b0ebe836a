/** The Authentication Server: its users list, its two counters and its request handlers, in place. */
module AuthServer {
  import opened Options
  import opened Text
  import opened Assoc
  import opened LinkedMap
  import Decimal
  import P = Protocol

  /** A registered user, linked to the next one, with three maps of its own. */
  class UserNode {
    const uid: string
    const pw: string
    var pdip: string
    var pdport: string
    var isOn: bool
    var isLogged: bool
    const tids: Map
    const rids: Map
    const r2t: Map
    var next: UserNode?
    ghost var model: P.User  // the user as the protocol sees it
    ghost var Repr: set<object>

    /** The three maps are in order and share nothing; `model` is what the fields say. */
    ghost predicate Valid()
      reads this, Repr
      ensures Valid() ==> this in Repr
    {
      && {this, tids, rids, r2t} <= Repr
      && tids.Repr + rids.Repr + r2t.Repr <= Repr - {this}
      && tids.Repr !! rids.Repr && tids.Repr + rids.Repr !! r2t.Repr
      && tids.Valid() && rids.Valid() && r2t.Valid()
      && model == P.User(uid, pw, pdip, pdport, isOn, isLogged, tids.Contents(), rids.Contents(), r2t.Contents())
    }

    constructor (uid: string, pw: string, pdip: string, pdport: string)
      ensures Valid() && fresh(Repr) && next == null && model == P.NewUser(uid, pw, pdip, pdport)
    {
      this.uid, this.pw, this.pdip, this.pdport := uid, pw, pdip, pdport;
      isOn, isLogged, next := true, false, null;
      tids := new Map();
      rids := new Map();
      r2t := new Map();
      new;
      model := P.NewUser(uid, pw, pdip, pdport);
      Repr := {this} + tids.Repr + rids.Repr + r2t.Repr;
    }

    method Link(node: UserNode)
      requires Valid()
      modifies this`next
      ensures Valid() && Repr == old(Repr) && next == node && model == old(model)
    {
      next := node;
    }

    method Register(pdip: string, pdport: string)
      requires Valid()
      modifies this
      ensures Valid() && Repr == old(Repr) && next == old(next)
      ensures model == P.Register(old(model), pdip, pdport)
    {
      this.pdip := pdip;
      this.pdport := pdport;
      isOn := true;
      model := P.Register(model, pdip, pdport);
    }

    method Unregister()
      requires Valid()
      modifies this
      ensures Valid() && Repr == old(Repr) && next == old(next)
      ensures model == P.Unregister(old(model))
    {
      pdip := "";
      pdport := "";
      isOn := false;
      model := P.Unregister(model);
    }

    method SetLogged(isLogged: bool)
      requires Valid()
      modifies this
      ensures Valid() && Repr == old(Repr) && next == old(next)
      ensures model == old(model).(isLogged := isLogged)
    {
      this.isLogged := isLogged;
      model := model.(isLogged := isLogged);
    }

    method DropTid(tid: string)
      requires Valid()
      modifies Repr
      ensures Valid() && Repr == old(Repr) && next == old(next)
      ensures model == old(model).(tids := Remove(old(model.tids), tid))
    {
      tids.RemoveElement(tid);
      model := model.(tids := Remove(model.tids, tid));
    }

    /** What VLD does to a user whose TID it found. */
    method Confirm(tid: string, fop: string)
      requires Valid()
      modifies Repr
      ensures Valid() && Repr == old(Repr) && next == old(next)
      ensures model == P.Confirm(old(model), tid, fop)
    {
      if fop == "X" {
        SetLogged(false);
      }
      var oldTID := tids.elements;
      if oldTID != null && tid != oldTID.key {
        DropTid(oldTID.key);
      }
    }

    /** Forgets the oldest pending request and the oldest TID. */
    method Forget()
      requires Valid()
      modifies Repr
      ensures Valid() && Repr == old(Repr) && next == old(next)
      ensures model == P.Forget(old(model))
    {
      var oldRID := rids.elements;
      var oldTID := tids.elements;
      if oldRID != null {
        Settle(oldRID.key);
      }
      if oldTID != null {
        DropTid(oldTID.key);
      }
    }

    /** Puts a request in. */
    method Record(rid: string, vc: string, tid: string, text: string)
      requires Valid()
      modifies Repr
      ensures Valid() && old(Repr) <= Repr && fresh(Repr - old(Repr)) && next == old(next)
      ensures model == P.Record(old(model), rid, vc, tid, text)
    {
      PutRid(rid, vc);
      PutTid(tid, text);
      PutR2t(rid, tid);
    }

    method PutRid(key: string, value: string)
      requires Valid()
      modifies Repr
      ensures Valid() && old(Repr) <= Repr && fresh(Repr - old(Repr)) && next == old(next)
      ensures model == old(model).(rids := Put(old(model.rids), key, value))
    {
      rids.Put(key, value);
      Repr := Repr + rids.Repr;
      model := model.(rids := Put(model.rids, key, value));
    }

    method PutTid(key: string, value: string)
      requires Valid()
      modifies Repr
      ensures Valid() && old(Repr) <= Repr && fresh(Repr - old(Repr)) && next == old(next)
      ensures model == old(model).(tids := Put(old(model.tids), key, value))
    {
      tids.Put(key, value);
      Repr := Repr + tids.Repr;
      model := model.(tids := Put(model.tids, key, value));
    }

    method PutR2t(key: string, value: string)
      requires Valid()
      modifies Repr
      ensures Valid() && old(Repr) <= Repr && fresh(Repr - old(Repr)) && next == old(next)
      ensures model == old(model).(r2t := Put(old(model.r2t), key, value))
    {
      r2t.Put(key, value);
      Repr := Repr + r2t.Repr;
      model := model.(r2t := Put(model.r2t, key, value));
    }

    /** What a validated REQ does: the old request goes, the new one is put in. */
    method Pend(rid: string, vc: string, tid: string, text: string)
      requires Valid()
      modifies Repr
      ensures Valid() && old(Repr) <= Repr && fresh(Repr - old(Repr)) && next == old(next)
      ensures model == P.Pend(old(model), rid, vc, tid, text)
    {
      Forget();
      Record(rid, vc, tid, text);
    }

    /** What a matching AUT does. */
    method Settle(rid: string)
      requires Valid()
      modifies Repr
      ensures Valid() && Repr == old(Repr) && next == old(next)
      ensures model == P.Settle(old(model), rid)
    {
      rids.RemoveElement(rid);
      r2t.RemoveElement(rid);
      model := P.Settle(model, rid);
    }
  }

  ghost function NodeAt(spine: seq<UserNode>, i: nat): UserNode? {
    if i < |spine| then spine[i] else null
  }

  ghost predicate Apart(parts: seq<set<object>>) {
    forall i, j | 0 <= i < |parts| && 0 <= j < |parts| && i != j :: parts[i] !! parts[j]
  }

  lemma ApartGrows(parts: seq<set<object>>, k: nat, part: set<object>)
    requires Apart(parts) && k < |parts| && parts[k] <= part
    requires forall i | 0 <= i < |parts| && i != k :: parts[i] !! part - parts[k]
    ensures Apart(parts[k := part])
  {
    forall i | 0 <= i < |parts| && i != k ensures parts[i] !! part {
      assert parts[i] !! parts[k];
    }
  }

  /** The users list: a chain of nodes and its length. */
  class UsersList {
    var size: nat
    var users: UserNode?
    ghost var spine: seq<UserNode>
    ghost var people: seq<P.User>
    ghost var parts: seq<set<object>>
    ghost var Repr: set<object>

    ghost predicate Valid()
      reads this, Repr
      ensures Valid() ==> this in Repr
    {
      this in Repr && Content(|spine|) && Linked()
    }

    /** The list is the spine, its nodes linked in order and counted by `size`. */
    ghost predicate Linked()
      reads this, spine
    {
      && size == |spine| && users == NodeAt(spine, 0)
      && forall i {:trigger spine[i].next} | 0 <= i < |spine| :: spine[i].next == NodeAt(spine, i + 1)
    }

    /** The node is made up of these objects and says this. */
    static ghost predicate Holds(node: UserNode, part: set<object>, user: P.User)
      reads node, part
    {
      node.Repr == part && node.Valid() && node.model == user
    }

    /** The nodes share nothing with each other; except for the k-th, they are as recorded. */
    ghost predicate Content(k: nat)
      reads this, Repr
    {
      && |spine| == |people| == |parts|
      && Apart(parts)
      && (forall i | 0 <= i < |spine| :: spine[i] in parts[i] && parts[i] <= Repr && this !in parts[i])
      && (forall i | 0 <= i < |spine| && i != k :: Holds(spine[i], parts[i], people[i]))
    }

    /** Work on one node leaves the others alone. */
    twostate lemma Worked(k: nat)
      requires old(Valid()) && unchanged(this) && k < |spine|
      requires forall o | o in Repr && o !in parts[k] :: unchanged(o)
      ensures Content(k)
      ensures spine[k].next == old(spine[k].next) ==> Linked()
    {
      forall i | 0 <= i < |spine| && i != k ensures Holds(spine[i], parts[i], people[i]) {
        assert parts[i] !! parts[k];
      }
    }

    /** The node has been worked on: it is in order, and all others are as recorded. */
    ghost predicate Reworked(user: UserNode, k: nat)
      reads this, Repr, user, user.Repr
    {
      && this in Repr && k < |spine| && user == spine[k]
      && Content(k) && Linked()
      && user.Valid() && parts[k] <= user.Repr && Repr !! user.Repr - parts[k]
    }

    twostate lemma NodeWorked(k: nat)
      requires old(Valid()) && unchanged(this) && k < |spine|
      requires forall o | o in Repr && o !in parts[k] :: unchanged(o)
      requires spine[k].next == old(spine[k].next)
      requires spine[k].Valid() && parts[k] <= spine[k].Repr && fresh(spine[k].Repr - parts[k])
      ensures Reworked(spine[k], k)
    {
      Worked(k);
    }

    /** Brings the record up to date after work on one node. */
    ghost method Note(user: UserNode, k: nat)
      requires Reworked(user, k)
      modifies this`people, this`parts, this`Repr
      ensures Valid() && Repr == old(Repr) + user.Repr
      ensures people == old(people)[k := user.model]
    {
      NoteContent(user, k);
    }

    ghost method NoteContent(user: UserNode, k: nat)
      requires Reworked(user, k)
      modifies this`people, this`parts, this`Repr
      ensures Content(|spine|) && Repr == old(Repr) + user.Repr
      ensures people == old(people)[k := user.model]
    {
      NoteParts(user, k);
      people := people[k := user.model];
    }

    ghost method NoteParts(user: UserNode, k: nat)
      requires Reworked(user, k)
      modifies this`parts, this`Repr
      ensures Content(k) && parts[k] == user.Repr && Repr == old(Repr) + user.Repr
    {
      ApartGrows(parts, k, user.Repr);
      parts := parts[k := user.Repr];
      Repr := Repr + user.Repr;
    }

    /** Takes a new node into the record. */
    ghost method Extend(user: UserNode)
      requires this in Repr && Content(|spine|) && user.Valid() && user.Repr !! Repr
      requires size == |spine| + 1 && users == NodeAt(spine + [user], 0) && user.next == null
      requires forall i | 0 <= i < |spine| :: spine[i].next == NodeAt(spine + [user], i + 1)
      modifies this`spine, this`people, this`parts, this`Repr
      ensures Valid() && Repr == old(Repr) + user.Repr
      ensures spine == old(spine) + [user] && people == old(people) + [user.model]
    {
      ExtendContent(user);
    }

    ghost method ExtendContent(user: UserNode)
      requires this in Repr && Content(|spine|) && user.Valid() && user.Repr !! Repr
      modifies this`spine, this`people, this`parts, this`Repr
      ensures Content(|spine|) && Repr == old(Repr) + user.Repr
      ensures spine == old(spine) + [user] && people == old(people) + [user.model]
    {
      spine := spine + [user];
      people := people + [user.model];
      parts := parts + [user.Repr];
      Repr := Repr + user.Repr;
    }

    constructor ()
      ensures Valid() && fresh(Repr) && people == []
    {
      size, users, spine, people, parts, Repr := 0, null, [], [], [], {this};
    }

    method GetUser(uid: string) returns (user: UserNode?, ghost k: nat)
      requires Valid()
      ensures k == P.Find(people, uid) && user == NodeAt(spine, P.Find(people, uid))
    {
      user := users;
      k := 0;
      while user != null
        invariant 0 <= k <= |spine| && user == NodeAt(spine, k)
        invariant forall j | 0 <= j < k :: spine[j].uid != uid
        decreases |spine| - k
      {
        if user.uid == uid {
          return;
        }
        user := user.next;
        k := k + 1;
      }
    }

    /** The search for a user with the device's address. */
    method AddressTaken(pdip: string, pdport: string) returns (taken: bool)
      requires Valid()
      ensures taken == P.AddressTaken(people, pdip, pdport)
    {
      var user := users;
      ghost var k := 0;
      while user != null
        invariant 0 <= k <= |spine| && user == NodeAt(spine, k)
        invariant forall j | 0 <= j < k :: people[j].pdip != pdip || people[j].pdport != pdport
        decreases |spine| - k
      {
        if user.pdip == pdip && user.pdport == pdport {
          assert people[k] == user.model;
          return true;
        }
        user := user.next;
        k := k + 1;
      }
      return false;
    }

    /** Adds a user at the end of the list, unless the uid is known. */
    method AddUser(uid: string, pw: string, pdip: string, pdport: string)
      requires Valid()
      modifies Repr
      ensures Valid() && fresh(Repr - old(Repr))
      ensures people == if P.Find(old(people), uid) < |old(people)| then old(people)
                        else old(people) + [P.NewUser(uid, pw, pdip, pdport)]
    {
      var user, k := GetUser(uid);
      if user != null {
        return;
      }
      var newUser := new UserNode(uid, pw, pdip, pdport);
      Append(newUser);
    }

    method Last() returns (user: UserNode)
      requires Valid() && spine != []
      ensures user == spine[|spine| - 1]
    {
      user := users;
      ghost var k := 0;
      while user.next != null
        invariant 0 <= k < |spine| && user == spine[k]
        decreases |spine| - k
      {
        user := user.next;
        k := k + 1;
      }
    }

    method LinkLast(newUser: UserNode)
      requires Valid() && spine != [] && newUser !in Repr
      modifies {spine[|spine| - 1]}
      ensures Content(|spine|)
      ensures forall i | 0 <= i < |spine| :: spine[i].next == NodeAt(spine + [newUser], i + 1)
    {
      var user := Last();
      user.Link(newUser);
      Worked(|spine| - 1);
    }

    method Append(newUser: UserNode)
      requires Valid() && newUser.next == null && newUser.Valid() && newUser.Repr !! Repr
      modifies this, spine
      ensures Valid() && Repr == old(Repr) + newUser.Repr
      ensures people == old(people) + [newUser.model]
    {
      if size == 0 {
        users := newUser;
      } else {
        LinkLast(newUser);
      }
      size := size + 1;
      Extend(newUser);
    }
  }

  class AuthServer {
    const users: UsersList
    const newTID: array<char>
    const newVC: array<char>
    ghost var Repr: set<object>

    ghost predicate Valid()
      reads this, Repr
      ensures Valid() ==> this in Repr
    {
      && {this, newTID, newVC, users} <= Repr && newTID != newVC
      && users.Repr <= Repr && {this, newTID, newVC} !! users.Repr
      && users.Valid()
    }

    ghost function Model(): P.Server
      reads this, users, newTID, newVC
    {
      P.Server(users.people, newTID[..], newVC[..])
    }

    /** Brings the records up to date after work on one node. */
    ghost method Note(user: UserNode, k: nat)
      requires {this, newTID, newVC, users} <= Repr && newTID != newVC && users.Repr <= Repr
      requires {this, newTID, newVC} !! users.Repr + user.Repr
      requires users.Reworked(user, k)
      modifies this`Repr, users`people, users`parts, users`Repr
      ensures Valid() && Repr == old(Repr) + user.Repr && users.people == old(users.people)[k := user.model]
    {
      users.Note(user, k);
      Repr := Repr + users.Repr;
    }

    constructor ()
      ensures Valid() && fresh(Repr) && Model() == P.Start()
    {
      newTID := new char[Decimal.TID_LENGTH];
      newVC := new char[Decimal.TID_LENGTH];
      users := new UsersList();
      new;
      Decimal.InitNumber(newTID);
      Decimal.IncrNumber(newTID);
      Decimal.InitNumber(newVC);
      Repr := {this, newTID, newVC} + users.Repr;
    }

    // ---------- work on one user ----------

    method RegisterAt(user: UserNode, ghost k: nat, pdip: string, pdport: string)
      requires Valid() && k < |users.spine| && user == users.spine[k]
      modifies Repr - {newTID, newVC}
      ensures Valid() && fresh(Repr - old(Repr))
      ensures users.people == old(users.people)[k := P.Register(old(users.people[k]), pdip, pdport)]
    {
      user.Register(pdip, pdport);
      users.NodeWorked(k);
      Note(user, k);
    }

    method UnregisterAt(user: UserNode, ghost k: nat)
      requires Valid() && k < |users.spine| && user == users.spine[k]
      modifies Repr - {newTID, newVC}
      ensures Valid() && fresh(Repr - old(Repr))
      ensures users.people == old(users.people)[k := P.Unregister(old(users.people[k]))]
    {
      user.Unregister();
      users.NodeWorked(k);
      Note(user, k);
    }

    method SetLoggedAt(user: UserNode, ghost k: nat, isLogged: bool)
      requires Valid() && k < |users.spine| && user == users.spine[k]
      modifies Repr - {newTID, newVC}
      ensures Valid() && fresh(Repr - old(Repr))
      ensures users.people == old(users.people)[k := old(users.people[k]).(isLogged := isLogged)]
    {
      user.SetLogged(isLogged);
      users.NodeWorked(k);
      Note(user, k);
    }

    method ConfirmAt(user: UserNode, ghost k: nat, tid: string, fop: string)
      requires Valid() && k < |users.spine| && user == users.spine[k]
      modifies Repr - {newTID, newVC}
      ensures Valid() && fresh(Repr - old(Repr))
      ensures users.people == old(users.people)[k := P.Confirm(old(users.people[k]), tid, fop)]
    {
      user.Confirm(tid, fop);
      users.NodeWorked(k);
      Note(user, k);
    }

    method PendAt(user: UserNode, ghost k: nat, rid: string, text: string)
      requires Valid() && k < |users.spine| && user == users.spine[k]
      modifies Repr - {newTID, newVC}
      ensures Valid() && fresh(Repr - old(Repr))
      ensures users.people == old(users.people)[k := P.Pend(old(users.people[k]), rid, newVC[..], newTID[..], text)]
    {
      user.Pend(rid, newVC[..], newTID[..], text);
      users.NodeWorked(k);
      Note(user, k);
    }

    method SettleAt(user: UserNode, ghost k: nat, rid: string)
      requires Valid() && k < |users.spine| && user == users.spine[k]
      modifies Repr - {newTID, newVC}
      ensures Valid() && fresh(Repr - old(Repr))
      ensures users.people == old(users.people)[k := P.Settle(old(users.people[k]), rid)]
    {
      user.Settle(rid);
      users.NodeWorked(k);
      Note(user, k);
    }

    // ---------- requests over UDP ----------

    method Reg(uid: string, pw: string, pdip: string, pdport: string) returns (reply: P.Reply)
      requires Valid()
      modifies Repr
      ensures Valid() && fresh(Repr - old(Repr))
      ensures (Model(), reply) == P.Reg(old(Model()), uid, pw, pdip, pdport)
    {
      var isRegistered := users.AddressTaken(pdip, pdport);
      var uidOk := CheckUid(uid);
      var pwOk := CheckPass(pw);
      if !isRegistered && uidOk && pwOk {
        reply := RegValid(uid, pw, pdip, pdport);
      } else {
        reply := P.RrgNok;
      }
    }

    /** REG with a free device address and well-formed credentials. */
    method RegValid(uid: string, pw: string, pdip: string, pdport: string) returns (reply: P.Reply)
      requires Valid() && ValidUid(uid) && ValidPass(pw) && !P.AddressTaken(users.people, pdip, pdport)
      modifies Repr
      ensures Valid() && fresh(Repr - old(Repr))
      ensures (Model(), reply) == P.Reg(old(Model()), uid, pw, pdip, pdport)
    {
      var user, k := users.GetUser(uid);
      if user != null && !user.isOn && user.pw == pw {
        reply := P.RrgOk;
        RegisterAt(user, k, pdip, pdport);
      } else if user != null {
        reply := P.RrgNok;
      } else {
        reply := P.RrgOk;
        users.AddUser(uid, pw, pdip, pdport);
        Repr := Repr + users.Repr;
      }
    }

    method Unr(uid: string, pw: string) returns (reply: P.Reply)
      requires Valid()
      modifies Repr
      ensures Valid() && fresh(Repr - old(Repr))
      ensures (Model(), reply) == P.Unr(old(Model()), uid, pw)
    {
      var user, k := users.GetUser(uid);
      if user != null {
        if user.pw == pw {
          reply := P.RunOk;
          UnregisterAt(user, k);
        } else {
          reply := P.Silence;
        }
      } else {
        reply := P.RunNok;
      }
    }

    method Vld(uid: string, tid: string) returns (reply: P.Reply)
      requires Valid()
      modifies Repr
      ensures Valid() && fresh(Repr - old(Repr))
      ensures (Model(), reply) == P.Vld(old(Model()), uid, tid)
    {
      var user, k := users.GetUser(uid);
      var fop := None;
      if user != null {
        fop := user.tids.Get(tid);
      }
      if fop.Some? {
        reply := P.Cnf(uid, tid, fop.value);
        ConfirmAt(user, k, tid, fop.value);
      } else {
        reply := P.Cnf(uid, tid, "E");
      }
    }

    method DoUdp(d: P.Datagram) returns (reply: P.Reply)
      requires Valid()
      modifies Repr
      ensures Valid() && fresh(Repr - old(Repr))
      ensures (Model(), reply) == P.DoUdp(old(Model()), d)
    {
      if d.words == 5 && d.op == "REG" {
        reply := Reg(d.uid, d.pw, d.pdip, d.pdport);
      } else if d.words == 3 && d.op == "UNR" {
        reply := Unr(d.uid, d.pw);
      } else if d.words == 3 && d.op == "VLD" {
        reply := Vld(d.uid, d.pw);
      } else {
        reply := P.Err;
      }
    }

    // ---------- requests over TCP ----------

    /**
     * Sends to the device until something is received, six times at most; `heard` says what each wait brings. The
     * answer is the first thing heard, and nothing is sent again after it.
     */
    method AskDevice(heard: seq<Option<string>>) returns (answer: Option<string>, sends: nat)
      requires |heard| == 6
      ensures 1 <= sends <= 6 && forall k | 0 <= k < sends - 1 :: heard[k].None?
      ensures answer == heard[sends - 1] && (answer.None? ==> sends == 6)
    {
      answer := heard[0];
      sends := 1;
      while sends <= 5 && answer.None?
        invariant 1 <= sends <= 6 && answer == heard[sends - 1]
        invariant forall k | 0 <= k < sends - 1 :: heard[k].None?
      {
        answer := heard[sends];
        sends := sends + 1;
      }
    }

    method SendValidationCode(user: UserNode, ghost k: nat, rid: string, fop: string, fname: Option<string>,
                              heard: seq<Option<string>>) returns (ok: bool)
      requires Valid() && k < |users.spine| && user == users.spine[k] && |heard| == 6
      modifies Repr
      ensures Valid() && fresh(Repr - old(Repr))
      ensures (Model(), ok) == P.SendValidationCode(old(Model()), k, rid, fop, fname, P.FirstHeard(heard))
    {
      if !user.isOn {
        return false;
      }
      var answer, sends := AskDevice(heard);
      P.FirstHeardIs(heard, sends - 1);
      if answer.None? {
        return false;
      }
      var words := GetWords(answer.value);
      if words == 3 && Field(answer.value, 0) == "RVC" && Field(answer.value, 2) == "OK" {
        Grant(user, k, rid, P.FopText(fop, fname));
        return true;
      } else {
        return false;
      }
    }

    /** The device has agreed. */
    method Grant(user: UserNode, ghost k: nat, rid: string, text: string)
      requires Valid() && k < |users.spine| && user == users.spine[k]
      modifies Repr
      ensures Valid() && fresh(Repr - old(Repr))
      ensures var a := old(Model());
              Model() == P.Server(a.users[k := P.Pend(a.users[k], rid, a.newVC, a.newTID, text)],
                                  P.NextTID(a.newTID), Decimal.Incr(a.newVC))
    {
      PendAt(user, k, rid, text);
      IncrementCounters();
    }

    method IncrementCounters()
      requires newTID != newVC
      modifies newTID, newVC
      ensures newVC[..] == Decimal.Incr(old(newVC[..]))
      ensures newTID[..] == P.NextTID(old(newTID[..]))
    {
      Decimal.IncrNumber(newVC);
      Decimal.IncrNumber(newTID);
      if newTID[..] == "0000" {
        Decimal.IncrNumber(newTID);
      }
    }

    method Log(userID: string, uid: string, pw: string) returns (id: string, reply: P.Reply)
      requires Valid()
      modifies Repr
      ensures Valid() && fresh(Repr - old(Repr))
      ensures (Model(), id, reply) == P.Log(old(Model()), userID, uid, pw)
    {
      var user, k := users.GetUser(uid);
      if user != null && !user.isLogged && user.pw == pw {
        reply := P.RloOk;
        SetLoggedAt(user, k, true);
        id := uid;
      } else {
        reply := P.RloNok;
        id := userID;
      }
    }

    method Req(userID: string, m: P.Message, heard: seq<Option<string>>) returns (reply: P.Reply)
      requires Valid() && |heard| == 6
      modifies Repr
      ensures Valid() && fresh(Repr - old(Repr))
      ensures (Model(), reply) == P.Req(old(Model()), userID, m, P.FirstHeard(heard))
    {
      var user, k := users.GetUser(m.uid);
      if user == null {
        reply := P.RrqEuser;
      } else if !user.isLogged {
        reply := P.RrqElog;
      } else if userID != m.uid {
        reply := P.RrqEuser;
      } else if m.words == 4 && (m.vc == "L" || m.vc == "X") {
        var ok := SendValidationCode(user, k, m.pw, m.vc, None, heard);
        reply := if ok then P.RrqOk else P.RrqEpd;
      } else if m.words == 5 && (m.vc == "R" || m.vc == "U" || m.vc == "D") {
        var ok := SendValidationCode(user, k, m.pw, m.vc, Some(m.fname), heard);
        reply := if ok then P.RrqOk else P.RrqEpd;
      } else if m.words == 4 || m.words == 5 {
        reply := P.RrqEfop;
      } else {
        reply := P.RrqErr;
      }
    }

    method Aut(uid: string, rid: string, vc: string) returns (reply: P.Reply)
      requires Valid()
      modifies Repr
      ensures Valid() && fresh(Repr - old(Repr))
      ensures (Model(), reply) == P.Aut(old(Model()), uid, rid, vc)
    {
      var user, k := users.GetUser(uid);
      if user != null {
        var userVC := user.rids.Get(rid);
        if userVC.Some? && vc == userVC.value {
          var tid := user.r2t.Get(rid);
          reply := P.Rau(P.PrintedString(tid));
          SettleAt(user, k, rid);
        } else {
          reply := P.Rau("0000");
        }
      } else {
        reply := P.Rau("0000");
      }
    }

    /** One request of a session whose user variable holds `userID`; the session goes on with `id`. */
    method DoTcp(userID: string, m: P.Message, heard: seq<Option<string>>) returns (id: string, reply: P.Reply)
      requires Valid() && |heard| == 6
      modifies Repr
      ensures Valid() && fresh(Repr - old(Repr))
      ensures (Model(), id, reply) == P.DoTcp(old(Model()), userID, m, P.FirstHeard(heard))
    {
      id := userID;
      if m.words == 3 && m.op == "LOG" {
        id, reply := Log(userID, m.uid, m.pw);
      } else if m.op == "REQ" {
        reply := Req(userID, m, heard);
      } else if m.words == 4 && m.op == "AUT" {
        reply := Aut(m.uid, m.pw, m.vc);
      } else {
        reply := P.Err;
      }
    }

    method Hangup(userID: string)
      requires Valid()
      modifies Repr
      ensures Valid() && fresh(Repr - old(Repr))
      ensures Model() == P.Hangup(old(Model()), userID)
    {
      var user, k := users.GetUser(userID);
      if user != null {
        SetLoggedAt(user, k, false);
      }
    }
  }
}
