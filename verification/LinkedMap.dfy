/** Optional results: what the C code returns as a pointer that may be NULL. */
module Options {
  datatype Option<+T> = None | Some(value: T)
}

/** The association list that a `Map` holds, oldest entry first, and what its operations mean. */
module Assoc {
  import opened Options

  type Entries = seq<(string, string)>

  function Put(c: Entries, key: string, value: string): Entries {
    c + [(key, value)]
  }

  function Get(c: Entries, key: string): Option<string> {
    if c == [] then None
    else if c[0].0 == key then Some(c[0].1)
    else Get(c[1..], key)
  }

  /** The list without the first entry for the key. */
  function Remove(c: Entries, key: string): (r: Entries)
    ensures |r| <= |c| <= |r| + 1
  {
    if c == [] then []
    else if c[0].0 == key then c[1..]
    else [c[0]] + Remove(c[1..], key)
  }

  /** What a search that stops at the first matching entry finds and takes out. */
  lemma {:induction false} FirstMatch(c: Entries, key: string, i: nat)
    requires i <= |c| && forall j | 0 <= j < i :: c[j].0 != key
    requires i < |c| ==> c[i].0 == key
    ensures Get(c, key) == if i < |c| then Some(c[i].1) else None
    ensures Remove(c, key) == if i < |c| then c[..i] + c[i + 1..] else c
  {
    if i > 0 {
      var r := c[1..];
      assert c[0].0 != key;
      FirstMatch(r, key, i - 1);
      assert c == [c[0]] + r;
      assert i < |c| ==> c[..i] + c[i + 1..] == [c[0]] + (r[..i - 1] + r[i..]);
    }
  }

  // ---------- a FIFO queue for each key ----------

  /** The values stored under a key, in the order they were put. */
  function Queue(c: Entries, key: string): seq<string> {
    if c == [] then [] else (if c[0].0 == key then [c[0].1] else []) + Queue(c[1..], key)
  }

  lemma {:induction false} PutEnqueues(c: Entries, key: string, value: string, k: string)
    ensures Queue(Put(c, key, value), k) == Queue(c, k) + (if k == key then [value] else [])
  {
    if c == [] {
      assert Put(c, key, value)[1..] == [];
    } else {
      assert Put(c, key, value)[1..] == Put(c[1..], key, value);
      PutEnqueues(c[1..], key, value, k);
    }
  }

  lemma {:induction false} GetPeeks(c: Entries, key: string)
    ensures Get(c, key) == if Queue(c, key) == [] then None else Some(Queue(c, key)[0])
  {
    if c != [] {
      GetPeeks(c[1..], key);
    }
  }

  lemma {:induction false} RemoveDequeues(c: Entries, key: string, k: string)
    ensures Queue(Remove(c, key), k)
         == if k == key && Queue(c, k) != [] then Queue(c, k)[1..] else Queue(c, k)
  {
    if c != [] && c[0].0 != key {
      RemoveDequeues(c[1..], key, k);
      assert Remove(c, key)[1..] == Remove(c[1..], key);
    }
  }

  // ---------- a finite map, when no key is stored twice ----------

  function AsMap(c: Entries): (m: map<string, string>) {
    if c == [] then map[] else AsMap(c[1..])[c[0].0 := c[0].1]
  }

  /** No key is stored twice. */
  ghost predicate Distinct(c: Entries) {
    c != [] ==> c[0].0 !in AsMap(c[1..]) && Distinct(c[1..])
  }

  lemma {:induction false} MapGet(c: Entries, key: string)
    ensures Get(c, key) == if key in AsMap(c) then Some(AsMap(c)[key]) else None
  {
    if c != [] {
      MapGet(c[1..], key);
    }
  }

  /** Putting a key that is not stored yet is a map update. */
  lemma {:induction false} MapPut(c: Entries, key: string, value: string)
    requires Distinct(c) && key !in AsMap(c)
    ensures Distinct(Put(c, key, value))
    ensures AsMap(Put(c, key, value)) == AsMap(c)[key := value]
  {
    if c == [] {
      assert Put(c, key, value)[1..] == [];
    } else {
      assert Put(c, key, value)[1..] == Put(c[1..], key, value);
      MapPut(c[1..], key, value);
    }
  }

  /** Removing a key is a map removal. */
  lemma {:induction false} MapRemove(c: Entries, key: string)
    requires Distinct(c)
    ensures Distinct(Remove(c, key))
    ensures AsMap(Remove(c, key)) == AsMap(c) - {key}
  {
    if c != [] && c[0].0 != key {
      MapRemove(c[1..], key);
      assert Remove(c, key)[1..] == Remove(c[1..], key);
    }
  }
}

/** `Map` of libs/helper.c: a singly linked list of entries with a separate element count. */
module LinkedMap {
  import opened Options
  import opened Assoc

  class Element {
    const key: string
    const value: string
    var next: Element?

    constructor (key: string, value: string)
      ensures this.key == key && this.value == value && next == null
    {
      this.key, this.value, next := key, value, null;
    }
  }

  /** The i-th element of a chain; null past its end. */
  ghost function At(spine: seq<Element>, i: nat): Element? {
    if i < |spine| then spine[i] else null
  }

  class Map {
    var size: nat
    var elements: Element?
    ghost var spine: seq<Element>
    ghost var Repr: set<object>

    /** The chain is the spine: it reaches every element once, ends, and `size` is its length. */
    ghost predicate Valid()
      reads this, Repr
      ensures Valid() ==> this in Repr
    {
      && this in Repr
      && (forall e | e in spine :: e in Repr)
      && size == |spine|
      && elements == At(spine, 0)
      && (forall i {:trigger spine[i].next} | 0 <= i < |spine| :: spine[i].next == At(spine, i + 1))
      && (forall i, j | 0 <= i < j < |spine| :: spine[i] != spine[j])
    }

    ghost function Contents(): (c: Entries)
      reads this
    {
      var s := spine;
      seq(|s|, i requires 0 <= i < |s| => (s[i].key, s[i].value))
    }

    constructor ()
      ensures Valid() && fresh(Repr) && Contents() == []
    {
      size, elements, spine, Repr := 0, null, [], {this};
    }

    method Put(key: string, value: string)
      requires Valid()
      modifies Repr
      ensures Valid() && fresh(Repr - old(Repr))
      ensures Contents() == Assoc.Put(old(Contents()), key, value)
    {
      var newElement := new Element(key, value);
      if size == 0 {
        elements := newElement;
      } else {
        var element := elements;
        ghost var i := 0;
        while element.next != null
          invariant 0 <= i < |spine| && element == spine[i]
          decreases |spine| - i
        {
          element := element.next;
          i := i + 1;
        }
        element.next := newElement;
      }
      size := size + 1;
      spine := spine + [newElement];
      Repr := Repr + {newElement};
    }

    method Get(key: string) returns (value: Option<string>)
      requires Valid()
      ensures value == Assoc.Get(Contents(), key)
    {
      var element := elements;
      ghost var i := 0;
      while element != null
        invariant 0 <= i <= |spine| && element == At(spine, i)
        invariant forall j | 0 <= j < i :: spine[j].key != key
        decreases |spine| - i
      {
        if element.key == key {
          Assoc.FirstMatch(Contents(), key, i);
          return Some(element.value);
        }
        element := element.next;
        i := i + 1;
      }
      Assoc.FirstMatch(Contents(), key, i);
      return None;
    }

    /** The unlinking branch: `last` is the predecessor, or the element itself when it is the first one. */
    method Unlink(last: Element, element: Element, ghost i: nat)
      requires Valid() && i < |spine| && element == spine[i]
      requires last == spine[if i == 0 then 0 else i - 1]
      modifies Repr
      ensures Valid() && Repr == old(Repr)
      ensures spine == old(spine[..i] + spine[i + 1..])
    {
      last.next := element.next;
      if element == last {
        elements := element.next;
      }
      size := size - 1;
      spine := spine[..i] + spine[i + 1..];
    }

    method RemoveElement(key: string)
      requires Valid()
      modifies Repr
      ensures Valid() && Repr == old(Repr)
      ensures Contents() == Assoc.Remove(old(Contents()), key)
    {
      var element := elements;
      var last := element;
      ghost var i := 0;
      while element != null
        invariant 0 <= i <= |spine| && element == At(spine, i)
        invariant spine != [] ==> last == spine[if i == 0 then 0 else i - 1]
        invariant forall j | 0 <= j < i :: spine[j].key != key
        decreases |spine| - i
      {
        if element.key != key {
          last := element;
          element := element.next;
          i := i + 1;
        } else {
          Assoc.FirstMatch(Contents(), key, i);
          Unlink(last, element, i);
          return;
        }
      }
      Assoc.FirstMatch(Contents(), key, i);
    }
  }
}
