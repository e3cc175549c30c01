/**
 The daemon's module list: an intrusive circular doubly linked list with a sentinel head,
 and the load and unload operations built on it.

 `Node` is a `module_info` with its embedded list links; the head uses only the links.
 Decompression, signature check, `dlopen`, symbol lookup and the module's own `init` are
 inputs: their results are parameters of `Load`.
 */
module Modules {

  const NAME_MAX: nat := 255

  /** `snprintf` into a buffer of NAME_MAX characters. */
  function Stored(name: string): (s: string)
    ensures |s| < NAME_MAX
  {
    if |name| < NAME_MAX then name else name[..NAME_MAX - 1]
  }

  /** `strncmp(a, b, NAME_MAX) == 0` */
  predicate SameName(a: string, b: string) {
    (if |a| > NAME_MAX then a[..NAME_MAX] else a) == (if |b| > NAME_MAX then b[..NAME_MAX] else b)
  }

  class Node {
    var next: Node?
    var prev: Node?
    var name: string
    var handle: nat

    constructor (name: string, handle: nat)
      ensures this.name == name && this.handle == handle && next == null && prev == null
    {
      this.name, this.handle := name, handle;
      next, prev := null, null;
    }
  }

  datatype Entry = Entry(name: string, handle: nat)

  /** What the module's `init` returned: nothing, not an object, or an object and its `code`. */
  datatype Init = NoResult | NotObject | NoCode | CodeNotInt | Code(code: int)

  /** A missing `code` counts as 0 and one that is not a number as -1. */
  predicate InitOk(i: Init) {
    i.NoCode? || i == Code(0)
  }

  /** What happens to a module file, in the order it is looked at. */
  datatype Outcome =
    | UnpackFails | BadSignature | OpenFails
    | Opened(handle: nat, hasInit: bool, hasExit: bool, init: Init)

  // ---- the list as a sequence ----

  /**
   The modules, newest first, and the library references taken by `dlopen` and not yet given
   back by `dlclose`: opening the same library again returns the same handle once more.
   */
  datatype State = State(entries: seq<Entry>, open: multiset<nat>)

  function IndexOf(c: seq<Entry>, name: string): (k: nat)
    ensures k <= |c|
    ensures k < |c| ==> c[k].name == name
    ensures forall i :: 0 <= i < k ==> c[i].name != name
  {
    if c == [] || c[0].name == name then 0 else 1 + IndexOf(c[1..], name)
  }

  predicate HasName(c: seq<Entry>, name: string) {
    IndexOf(c, name) < |c|
  }

  /** Loading goes through: the name is free, and so is its stored form; every check passes. */
  predicate Loads(s: State, name: string, o: Outcome) {
    && !HasName(s.entries, name) && o.Opened? && o.hasInit && o.hasExit && InitOk(o.init)
    && !HasName(s.entries, Stored(name))
  }

  function AfterLoad(s: State, name: string, o: Outcome): State {
    if Loads(s, name, o) then State([Entry(Stored(name), o.handle)] + s.entries, s.open + multiset{o.handle})
    else s
  }

  function AfterUnload(s: State, name: string): State {
    var k := IndexOf(s.entries, name);
    if k == |s.entries| then s
    else State(s.entries[..k] + s.entries[k + 1..], s.open - multiset{s.entries[k].handle})
  }

  datatype Op = LoadOp(name: string, outcome: Outcome) | UnloadOp(name: string)

  function After(s: State, op: Op): State {
    match op
    case LoadOp(name, o) => AfterLoad(s, name, o)
    case UnloadOp(name) => AfterUnload(s, name)
  }

  function AfterAll(s: State, ops: seq<Op>): State
    decreases |ops|
  {
    if ops == [] then s else AfterAll(After(s, ops[0]), ops[1..])
  }

  /** One reference for each listed module. */
  function Handles(c: seq<Entry>): multiset<nat> {
    if c == [] then multiset{} else multiset{c[0].handle} + Handles(c[1..])
  }

  /** Distinct names that fit their buffer, and exactly the listed modules' libraries held open. */
  ghost predicate Sound(s: State) {
    var c := s.entries;
    && (forall i :: 0 <= i < |c| ==> |c[i].name| < NAME_MAX)
    && (forall i, j :: 0 <= i < j < |c| ==> c[i].name != c[j].name)
    && s.open == Handles(c)
  }

  lemma LoadKeepsSound(s: State, name: string, o: Outcome)
    requires Sound(s)
    ensures Sound(AfterLoad(s, name, o))
  {
    if Loads(s, name, o) {
      var c' := AfterLoad(s, name, o).entries;
      forall i, j | 0 <= i < j < |c'| ensures c'[i].name != c'[j].name {
        assert c'[j] == s.entries[j - 1];
        if i > 0 { assert c'[i] == s.entries[i - 1]; }
      }
      assert c'[1..] == s.entries;
    }
  }

  lemma {:induction false} HandlesWithout(c: seq<Entry>, k: nat)
    requires k < |c|
    ensures Handles(c) == Handles(c[..k] + c[k + 1..]) + multiset{c[k].handle}
  {
    var c' := c[..k] + c[k + 1..];
    if k == 0 {
      assert c' == c[1..];
    } else {
      HandlesWithout(c[1..], k - 1);
      assert c'[1..] == c[1..][..k - 1] + c[1..][k..];
    }
  }

  lemma UnloadKeepsSound(s: State, name: string)
    requires Sound(s)
    ensures Sound(AfterUnload(s, name))
  {
    var k, c := IndexOf(s.entries, name), s.entries;
    if k < |c| {
      HandlesWithout(c, k);
      NamesWithout(c, k);
    }
  }

  lemma NamesWithout(c: seq<Entry>, k: nat)
    requires k < |c| && forall i, j :: 0 <= i < j < |c| ==> c[i].name != c[j].name
    ensures var c' := c[..k] + c[k + 1..];
            && (forall i, j :: 0 <= i < j < |c'| ==> c'[i].name != c'[j].name)
            && (forall i :: 0 <= i < |c'| ==> c'[i] in c)
  {
    var c' := c[..k] + c[k + 1..];
    forall i | 0 <= i < |c'| ensures c'[i] == c[if i < k then i else i + 1] { }
  }

  /** After any run of loads and unloads, whatever handles `dlopen` returned, the list is sound. */
  lemma {:induction false} RunsAreSound(s: State, ops: seq<Op>)
    requires Sound(s)
    ensures Sound(AfterAll(s, ops))
    decreases |ops|
  {
    if ops != [] {
      match ops[0] {
        case LoadOp(name, o) => LoadKeepsSound(s, name, o);
        case UnloadOp(name) => UnloadKeepsSound(s, name);
      }
      RunsAreSound(After(s, ops[0]), ops[1..]);
    }
  }

  /** A file that was opened, has both symbols, and whose `init` returned an object with no code or code 0. */
  predicate Initialised(o: Outcome, handle: nat) {
    o.Opened? && o.handle == handle && o.hasInit && o.hasExit && (o.init == NoCode || o.init == Code(0))
  }

  ghost predicate LoadedBy(ops: seq<Op>, e: Entry) {
    exists i :: 0 <= i < |ops| && ops[i].LoadOp? && Stored(ops[i].name) == e.name && Initialised(ops[i].outcome, e.handle)
  }

  /** After any run every listed module was there before or was loaded in it by a file that passed every check. */
  lemma {:induction false} ListedWereInitialised(s: State, ops: seq<Op>, e: Entry)
    requires e in AfterAll(s, ops).entries
    ensures e in s.entries || LoadedBy(ops, e)
    decreases |ops|
  {
    if ops != [] {
      var s' := After(s, ops[0]);
      ListedWereInitialised(s', ops[1..], e);
      if LoadedBy(ops[1..], e) {
        var i :| 0 <= i < |ops[1..]| && ops[1..][i].LoadOp? && Stored(ops[1..][i].name) == e.name && Initialised(ops[1..][i].outcome, e.handle);
        assert ops[i + 1] == ops[1..][i];
      } else if e !in s.entries {
        assert ops[0].LoadOp? && Stored(ops[0].name) == e.name && Initialised(ops[0].outcome, e.handle);
      }
    }
  }

  /** A module loads exactly if neither its name nor its stored form is listed and its file passes every check. */
  lemma LoadsExactly(s: State, name: string, o: Outcome)
    ensures Loads(s, name, o) <==>
            && (forall i :: 0 <= i < |s.entries| ==> s.entries[i].name != name && s.entries[i].name != Stored(name))
            && o.Opened? && Initialised(o, o.handle)
  {
  }

  lemma WithoutAt(c: seq<Entry>, k: nat, e: Entry)
    requires k < |c| && forall i :: 0 <= i < |c| && i != k ==> c[i].name != c[k].name
    ensures e in c[..k] + c[k + 1..] <==> e in c && e.name != c[k].name
  {
    var c' := c[..k] + c[k + 1..];
    assert forall i :: 0 <= i < |c'| ==> c'[i] == c[if i < k then i else i + 1];
    if e in c && e.name != c[k].name {
      var i :| 0 <= i < |c| && c[i] == e;
      assert c'[if i < k then i else i - 1] == e;
    }
  }

  /** After unloading, no module of that name is listed and every other one still is. */
  lemma UnloadExactly(s: State, name: string, e: Entry)
    requires Sound(s)
    ensures e in AfterUnload(s, name).entries <==> e in s.entries && e.name != name
  {
    var k := IndexOf(s.entries, name);
    if k < |s.entries| { WithoutAt(s.entries, k, e); }
  }

  /** Unloading undoes a load that went through if and only if the name fits its buffer. */
  lemma UnloadUndoesLoad(s: State, name: string, o: Outcome)
    requires Sound(s) && Loads(s, name, o)
    ensures AfterUnload(AfterLoad(s, name, o), name) == s <==> |name| < NAME_MAX
  {
    var s' := AfterLoad(s, name, o);
    if |name| < NAME_MAX {
      assert IndexOf(s'.entries, name) == 0;
      assert s'.entries[..0] + s'.entries[1..] == s.entries;
      OpenedThenClosed(s.open, o.handle);
    } else {
      LoadKeepsSound(s, name, o);
      LongNameNotFound(s', name);
    }
  }

  lemma LongNameNotFound(s: State, name: string)
    requires Sound(s) && |name| >= NAME_MAX
    ensures AfterUnload(s, name) == s
  {
  }

  /**
   A name of NAME_MAX characters in two path components, each short enough for a file system.
   A module file under it that passes every check stays loaded when it is unloaded by name.
   */
  lemma LongNameStays(handle: nat)
    ensures var name := seq(NAME_MAX, i => if i == 100 then '/' else 'm');
            var loaded := AfterLoad(State([], multiset{}), name, Opened(handle, true, true, Code(0)));
            && loaded.entries == [Entry(name[..NAME_MAX - 1], handle)]
            && AfterUnload(loaded, name) == loaded
  {
    var name := seq(NAME_MAX, i => if i == 100 then '/' else 'm');
    var loaded := AfterLoad(State([], multiset{}), name, Opened(handle, true, true, Code(0)));
    assert Sound(State([], multiset{}));
    LoadKeepsSound(State([], multiset{}), name, Opened(handle, true, true, Code(0)));
    LongNameNotFound(loaded, name);
  }

  // ---- the list on the heap ----

  class ModuleList {
    const head: Node
    ghost var spine: seq<Node>
    ghost var entries: seq<Entry>  // what the list holds, newest first

    /** Forward links spell the sequence, backward links its reverse, both ending at the head. */
    ghost predicate Linked()
      reads this`spine, head, spine
    {
      var n := |spine|;
      && head !in spine
      && (forall i, j :: 0 <= i < j < n ==> spine[i] != spine[j])
      && (n == 0 ==> head.next == head && head.prev == head)
      && (n > 0 ==> head.next == spine[0] && head.prev == spine[n - 1]
                    && spine[0].prev == head && spine[n - 1].next == head)
      && (forall i {:trigger spine[i].next} :: 0 <= i < n - 1 ==> spine[i].next == spine[i + 1])
      && (forall i {:trigger spine[i].prev} :: 1 <= i < n ==> spine[i].prev == spine[i - 1])
    }

    ghost predicate Valid()
      reads this, head, spine
    {
      && Linked()
      && |entries| == |spine|
      && forall i :: 0 <= i < |spine| ==>
           entries[i] == Entry(spine[i].name, spine[i].handle) && |entries[i].name| < NAME_MAX
    }

    constructor ()
      ensures Valid() && entries == [] && spine == [] && fresh(head)
    {
      head := new Node("", 0);
      spine, entries := [], [];
      new;
      head.next, head.prev := head, head;
    }

    /** `list_add`: right after the head. */
    method ListAdd(n: Node)
      requires Linked() && n != head && n !in spine
      modifies this`spine, head, spine, n
      ensures Linked() && spine == [n] + old(spine)
      ensures n.name == old(n.name) && n.handle == old(n.handle)
      ensures forall m :: m in old(spine) ==> m.name == old(m.name) && m.handle == old(m.handle)
    {
      var first := head.next;
      first.prev := n;
      n.next := first;
      n.prev := head;
      head.next := n;
      spine := [n] + spine;
    }

    /** `list_del` of the k-th module. */
    method ListDel(n: Node, ghost k: nat)
      requires Linked() && k < |spine| && spine[k] == n
      modifies this`spine, head, spine
      ensures Linked() && spine == old(spine)[..k] + old(spine)[k + 1..]
      ensures n.next == null && n.prev == null
      ensures forall m :: m in old(spine) ==> m.name == old(m.name) && m.handle == old(m.handle)
    {
      Unlink(n.prev, n.next, k);
      n.next := null;
      n.prev := null;
    }

    /** `__list_del`: the neighbours of the k-th module are linked to each other. */
    method Unlink(prev: Node, next: Node, ghost k: nat)
      requires Linked() && k < |spine| && prev == spine[k].prev && next == spine[k].next
      modifies this`spine, prev`next, next`prev
      ensures Linked() && spine == old(spine)[..k] + old(spine)[k + 1..]
    {
      next.prev := prev;
      prev.next := next;
      spine := spine[..k] + spine[k + 1..];
    }

    /** `find_module`: the module of that name and its place, or none. */
    method Find(name: string) returns (found: Node?, ghost k: nat)
      requires Valid()
      ensures k == IndexOf(entries, name)
      ensures found == if k == |spine| then null else spine[k]
      ensures found != null <==> HasName(entries, name)
      ensures found != null ==> found in spine && found.name == name
    {
      var iter := head.next;
      k := 0;
      while iter != head
        invariant k <= |spine| && iter == if k == |spine| then head else spine[k]
        invariant forall i :: 0 <= i < k ==> entries[i].name != name
        decreases |spine| - k
      {
        assert entries[k].name == iter.name;
        SameStored(iter.name, name);
        if SameName(iter.name, name) { return iter, k; }
        iter := iter.next;
        k := k + 1;
      }
      found := null;
    }

    /** `add_module`: refuses a name already listed. */
    method AddModule(n: Node) returns (rc: int)
      requires Valid() && n != head && n !in spine && |n.name| < NAME_MAX
      modifies this, head, spine, n
      ensures Valid() && rc == if HasName(old(entries), old(n.name)) then -1 else 0
      ensures rc == 0 ==> entries == [Entry(old(n.name), old(n.handle))] + old(entries)
      ensures rc != 0 ==> entries == old(entries)
    {
      var twin, k := Find(n.name);
      if twin != null { return -1; }
      PutFirst(n);
      rc := 0;
    }

    method PutFirst(n: Node)
      requires Valid() && n != head && n !in spine && |n.name| < NAME_MAX
      modifies this, head, spine, n
      ensures Valid() && entries == [Entry(old(n.name), old(n.handle))] + old(entries)
    {
      ghost var was, had := spine, entries;
      ListAdd(n);
      entries := [Entry(n.name, n.handle)] + entries;
      forall i | 1 <= i < |spine|
        ensures entries[i] == Entry(spine[i].name, spine[i].handle) && |entries[i].name| < NAME_MAX
      {
        assert spine[i] == was[i - 1] && entries[i] == had[i - 1];
      }
    }

    /** `delete_module`. */
    method DeleteModule(n: Node, ghost k: nat)
      requires Valid() && k < |spine| && spine[k] == n
      modifies this, head, spine
      ensures Valid() && spine == old(spine)[..k] + old(spine)[k + 1..]
      ensures entries == old(entries)[..k] + old(entries)[k + 1..]
    {
      ghost var was, had := spine, entries;
      ListDel(n, k);
      entries := entries[..k] + entries[k + 1..];
      forall i | 0 <= i < |spine|
        ensures entries[i] == Entry(spine[i].name, spine[i].handle) && |entries[i].name| < NAME_MAX
      {
        ghost var j := if i < k then i else i + 1;
        assert spine[i] == was[j] && entries[i] == had[j];
      }
    }
  }

  /** The loader: the list, and the library references it holds. */
  class Loader {
    const list: ModuleList
    ghost var open: multiset<nat>

    constructor ()
      ensures list.Valid() && Abs() == State([], multiset{}) && fresh(list)
    {
      list := new ModuleList();
      open := multiset{};
    }

    ghost function Abs(): State
      reads this, list
    {
      State(list.entries, open)
    }

    /** `dlopen` that succeeds: one more reference. */
    method DlOpen(handle: nat)
      modifies this`open
      ensures open == old(open) + multiset{handle}
    {
      open := open + multiset{handle};
    }

    /** `dlclose`: one reference less. */
    method DlClose(handle: nat)
      modifies this`open
      ensures open == old(open) - multiset{handle}
    {
      open := open - multiset{handle};
    }

    /** `do_one_insmod`; 0 on success, 1 whatever went wrong. */
    method Load(name: string, o: Outcome) returns (rc: int)
      requires list.Valid()
      modifies this, list, list.head, list.spine
      ensures list.Valid() && Abs() == AfterLoad(old(Abs()), name, o)
      ensures rc == if Loads(old(Abs()), name, o) then 0 else 1
    {
      var known, k := list.Find(name);
      if known != null { return 1; }
      if !o.Opened? { return 1; }
      ghost var before := Abs();
      DlOpen(o.handle);
      rc := Start(Stored(name), o);
      LoadDone(before, name, o, Abs(), rc);
    }

    /** `do_one_insmod` once the library is open, up to `close_handler`. */
    method Start(stored: string, o: Outcome) returns (rc: int)
      requires list.Valid() && |stored| < NAME_MAX && o.Opened?
      modifies this, list, list.head, list.spine
      ensures list.Valid()
      ensures rc == if o.hasInit && o.hasExit && InitOk(o.init) && !HasName(old(list.entries), stored) then 0 else 1
      ensures rc == 0 ==> list.entries == [Entry(stored, o.handle)] + old(list.entries) && open == old(open)
      ensures rc != 0 ==> list.entries == old(list.entries) && open == old(open) - multiset{o.handle}
    {
      rc := 1;
      if o.hasInit && o.hasExit && InitOk(o.init) { rc := Register(stored, o.handle); }
      if rc != 0 { DlClose(o.handle); }
    }

    /** The end of `do_one_insmod`: list the module. */
    method Register(stored: string, handle: nat) returns (rc: int)
      requires list.Valid() && |stored| < NAME_MAX
      modifies list, list.head, list.spine
      ensures list.Valid() && rc == if HasName(old(list.entries), stored) then 1 else 0
      ensures rc == 0 ==> list.entries == [Entry(stored, handle)] + old(list.entries)
      ensures rc != 0 ==> list.entries == old(list.entries)
    {
      var n := new Node(stored, handle);
      rc := list.AddModule(n);
      if rc != 0 { rc := 1; }
    }

    /** `do_one_rmmod`; -1 if there is no such module. */
    method Unload(name: string) returns (rc: int)
      requires list.Valid()
      modifies this, list, list.head, list.spine
      ensures list.Valid() && Abs() == AfterUnload(old(Abs()), name)
      ensures rc == if HasName(old(list.entries), name) then 0 else -1
    {
      var n, k := list.Find(name);
      if n == null { return -1; }
      Close(n, k);
      rc := 0;
    }

    /** Give the library back, then take the module off the list. */
    method Close(n: Node, ghost k: nat)
      requires list.Valid() && k < |list.spine| && list.spine[k] == n
      modifies this`open, list, list.head, list.spine
      ensures list.Valid() && list.entries == old(list.entries)[..k] + old(list.entries)[k + 1..]
      ensures open == old(open) - multiset{old(list.entries)[k].handle}
    {
      assert list.entries[k] == Entry(n.name, n.handle);
      DlClose(n.handle);
      list.DeleteModule(n, k);
    }
  }

  /** What the checks after `dlopen` leave behind is what loading promises. */
  lemma LoadDone(s: State, name: string, o: Outcome, after: State, rc: int)
    requires !HasName(s.entries, name) && o.Opened?
    requires rc == if o.hasInit && o.hasExit && InitOk(o.init) && !HasName(s.entries, Stored(name)) then 0 else 1
    requires rc == 0 ==> after == State([Entry(Stored(name), o.handle)] + s.entries, s.open + multiset{o.handle})
    requires rc != 0 ==> after == State(s.entries, s.open + multiset{o.handle} - multiset{o.handle})
    ensures after == AfterLoad(s, name, o) && rc == if Loads(s, name, o) then 0 else 1
  {
    OpenedThenClosed(s.open, o.handle);
  }

  lemma OpenedThenClosed(open: multiset<nat>, handle: nat)
    ensures open + multiset{handle} - multiset{handle} == open
  {
  }

  /** On names that fit the buffer the bounded comparison is equality. */
  lemma SameStored(a: string, b: string)
    requires |a| < NAME_MAX
    ensures SameName(a, b) <==> a == b
  {
  }
}
