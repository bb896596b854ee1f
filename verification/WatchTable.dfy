/** What the watch table means: one list of bindings in the order they were set, the descriptors
    it was given and the descriptors it has closed. */
module WatchTable {
  import opened ListPointer

  /** inserted and closed are logs of the descriptors handed to the table and to close. */
  datatype Table = Table(entries: seq<Entry>, inserted: multiset<int>, closed: multiset<int>)

  datatype Op = Set(key: string, fd: int) | Remove(key: string) | Clear

  function ValuesOf(entries: seq<Entry>): multiset<int> {
    if |entries| == 0 then multiset{} else multiset{entries[0].value} + ValuesOf(entries[1..])
  }

  function Lookup(entries: seq<Entry>, key: string): int {
    var i := IndexOf(entries, key);
    if i < |entries| then entries[i].value else 0
  }

  /** set appends, remove deletes the oldest binding of its key and closes its descriptor, clear
      closes everything. */
  function Apply(t: Table, op: Op): Table {
    match op
    case Set(key, fd) => t.(entries := t.entries + [Entry(key, fd)], inserted := t.inserted + multiset{fd})
    case Remove(key) =>
      var i := IndexOf(t.entries, key);
      if i < |t.entries| then
        t.(entries := RemoveAt(t.entries, i), closed := t.closed + multiset{t.entries[i].value})
      else t
    case Clear => t.(entries := [], closed := t.closed + ValuesOf(t.entries))
  }

  function Run(t: Table, ops: seq<Op>): Table {
    if |ops| == 0 then t else Apply(Run(t, ops[..|ops| - 1]), ops[|ops| - 1])
  }

  predicate Conserved(t: Table) {
    t.inserted == ValuesOf(t.entries) + t.closed
  }

  lemma {:induction false} ValuesAppend(a: seq<Entry>, b: seq<Entry>)
    ensures ValuesOf(a + b) == ValuesOf(a) + ValuesOf(b)
  {
    if |a| == 0 {
      assert a + b == b;
    } else {
      assert (a + b)[1..] == a[1..] + b;
      ValuesAppend(a[1..], b);
    }
  }

  lemma {:induction false} ValuesRemove(entries: seq<Entry>, i: nat)
    requires i < |entries|
    ensures ValuesOf(entries) == ValuesOf(RemoveAt(entries, i)) + multiset{entries[i].value}
  {
    var r := RemoveAt(entries, i);
    if i == 0 {
      assert r == entries[1..];
    } else {
      assert r[0] == entries[0] && r[1..] == RemoveAt(entries[1..], i - 1);
      ValuesRemove(entries[1..], i - 1);
    }
  }

  lemma ValuesOfFew(e: Entry)
    ensures ValuesOf([]) == multiset{} && ValuesOf([e]) == multiset{e.value}
  {
  }

  lemma ApplyConserves(t: Table, op: Op)
    requires Conserved(t)
    ensures Conserved(Apply(t, op))
  {
    hide ValuesOf;
    hide RemoveAt;
    hide IndexOf;
    match op
    case Set(key, fd) => ValuesOfFew(Entry(key, fd)); ValuesAppend(t.entries, [Entry(key, fd)]);
    case Remove(key) =>
      var i := IndexOf(t.entries, key);
      if i < |t.entries| {
        ValuesRemove(t.entries, i);
      }
    case Clear => ValuesOfFew(Entry("", 0));
  }

  const NEW := Table([], multiset{}, multiset{})

  /** Over any run, what was inserted is what is still bound plus what was closed. */
  lemma {:induction false} RunConserves(ops: seq<Op>)
    ensures Conserved(Run(NEW, ops))
  {
    if |ops| > 0 {
      RunConserves(ops[..|ops| - 1]);
      ApplyConserves(Run(NEW, ops[..|ops| - 1]), ops[|ops| - 1]);
    }
  }

  /** When no descriptor was inserted twice, each is either still bound or closed, once; and after
      the final clear of the destructor each was closed exactly once. */
  lemma EachClosedOnce(ops: seq<Op>, fd: int)
    requires Run(NEW, ops).inserted[fd] <= 1
    ensures var t := Run(NEW, ops);
            && t.closed[fd] <= 1
            && (t.closed[fd] == 1 ==> ValuesOf(t.entries)[fd] == 0)
            && Apply(t, Clear).closed[fd] == t.inserted[fd]
  {
    RunConserves(ops);
  }

  /** The oldest binding wins: setting a key that is bound does not change what get finds. */
  lemma SetKeepsOldest(entries: seq<Entry>, key: string, fd: int, other: string)
    ensures Lookup(entries + [Entry(key, fd)], other) ==
            if IndexOf(entries, other) < |entries| then Lookup(entries, other)
            else if other == key then fd else 0
  {
    FirstIs(entries + [Entry(key, fd)], other,
            if IndexOf(entries, other) < |entries| || other == key then IndexOf(entries, other) else |entries| + 1);
  }

  /** Removing a key uncovers its next binding and hides no other. */
  lemma RemoveUncovers(entries: seq<Entry>, key: string, other: string)
    requires IndexOf(entries, key) < |entries|
    ensures var i := IndexOf(entries, key);
            Lookup(RemoveAt(entries, i), other) == Lookup(if other == key then entries[i + 1..] else entries, other)
  {
    hide IndexOf;
    hide RemoveAt;
    hide Lookup;
    var i := IndexOf(entries, key);
    if other == key {
      NextBinding(entries, i, key);
    } else {
      OtherBinding(entries, i, other);
    }
  }

  lemma NextBinding(entries: seq<Entry>, i: nat, key: string)
    requires i == IndexOf(entries, key) < |entries|
    ensures Lookup(RemoveAt(entries, i), key) == Lookup(entries[i + 1..], key)
  {
    hide IndexOf;
    var r, rest := RemoveAt(entries, i), entries[i + 1..];
    var k := IndexOf(rest, key);
    assert |r| == i + |rest|;
    forall j | 0 <= j < i + k ensures r[j].key != key {
      assert r[j] == if j < i then entries[j] else rest[j - i];
    }
    FirstIs(r, key, i + k);
  }

  lemma OtherBinding(entries: seq<Entry>, i: nat, other: string)
    requires i < |entries| && entries[i].key != other
    ensures Lookup(RemoveAt(entries, i), other) == Lookup(entries, other)
  {
    hide IndexOf;
    var r, o := RemoveAt(entries, i), IndexOf(entries, other);
    assert |r| == |entries| - 1 && o != i;
    var o' := if o < i then o else o - 1;
    forall j | 0 <= j < o' ensures r[j].key != other {
      assert r[j] == if j < i then entries[j] else entries[j + 1];
    }
    assert o' < |r| ==> r[o'] == entries[o];
    FirstIs(r, other, o');
  }

  // --- What a key is bound to, from the operations alone ---

  /** The descriptors set for a key and not yet removed, oldest first. */
  function Live(ops: seq<Op>, key: string): seq<int> {
    if |ops| == 0 then []
    else
      var before := Live(ops[..|ops| - 1], key);
      match ops[|ops| - 1]
      case Set(k, fd) => if k == key then before + [fd] else before
      case Remove(k) => if k == key && before != [] then before[1..] else before
      case Clear => []
  }

  /** The descriptors a list binds to a key, in order. */
  function Bound(entries: seq<Entry>, key: string): seq<int> {
    if |entries| == 0 then []
    else (if entries[0].key == key then [entries[0].value] else []) + Bound(entries[1..], key)
  }

  lemma {:induction false} BoundAppend(a: seq<Entry>, e: Entry, key: string)
    ensures Bound(a + [e], key) == Bound(a, key) + if e.key == key then [e.value] else []
  {
    if |a| == 0 {
      assert a + [e] == [e];
    } else {
      assert (a + [e])[1..] == a[1..] + [e] && (a + [e])[0] == a[0];
      BoundFirst(a + [e], key);
      BoundFirst(a, key);
      hide Bound;
      BoundAppend(a[1..], e, key);
    }
  }

  lemma BoundFirst(entries: seq<Entry>, key: string)
    requires |entries| > 0
    ensures Bound(entries, key) ==
            (if entries[0].key == key then [entries[0].value] else []) + Bound(entries[1..], key)
  {
  }

  lemma {:induction false} BoundRemove(entries: seq<Entry>, k: string, key: string)
    requires IndexOf(entries, k) < |entries|
    ensures var left := Bound(RemoveAt(entries, IndexOf(entries, k)), key);
            if k == key then Bound(entries, key) != [] && left == Bound(entries, key)[1..]
            else left == Bound(entries, key)
  {
    var i := IndexOf(entries, k);
    var r := RemoveAt(entries, i);
    if entries[0].key == k {
      assert i == 0 && r == entries[1..];
    } else {
      assert r[0] == entries[0] && r[1..] == RemoveAt(entries[1..], i - 1);
      BoundRemove(entries[1..], k, key);
    }
  }

  lemma {:induction false} NotBound(entries: seq<Entry>, key: string)
    ensures Bound(entries, key) == [] <==> IndexOf(entries, key) == |entries|
    ensures Lookup(entries, key) == if Bound(entries, key) == [] then 0 else Bound(entries, key)[0]
  {
    if |entries| > 0 && entries[0].key != key {
      NotBound(entries[1..], key);
    }
  }

  lemma {:induction false} RunBinds(ops: seq<Op>, key: string)
    ensures Bound(Run(NEW, ops).entries, key) == Live(ops, key)
  {
    if |ops| > 0 {
      var before, op := Run(NEW, ops[..|ops| - 1]), ops[|ops| - 1];
      RunBinds(ops[..|ops| - 1], key);
      match op
      case Set(k, fd) => BoundAppend(before.entries, Entry(k, fd), key);
      case Remove(k) =>
        NotBound(before.entries, k);
        if IndexOf(before.entries, k) < |before.entries| {
          BoundRemove(before.entries, k, key);
        }
      case Clear =>
    }
  }

  /** After any operations get finds the oldest descriptor set for the key and not removed, or 0. */
  lemma LookupIsOldestLive(ops: seq<Op>, key: string)
    ensures Lookup(Run(NEW, ops).entries, key) == if Live(ops, key) == [] then 0 else Live(ops, key)[0]
  {
    RunBinds(ops, key);
    NotBound(Run(NEW, ops).entries, key);
  }
}
