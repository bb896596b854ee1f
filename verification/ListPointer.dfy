/** The doubly linked list of bindings from path to descriptor
    (daemon/src/hashtable/list_pointer.c), with its pointers, as a sequence of bindings. */
module ListPointer {
  datatype Entry = Entry(key: string, value: int)

  class Node {
    var key: string
    var value: int
    var next: Node?
    var prev: Node?
    ghost const owner: List

    constructor (ghost owner: List, key: string, value: int, prev: Node?, next: Node?)
      ensures this.key == key && this.value == value && this.prev == prev && this.next == next
      ensures this.owner == owner
    {
      this.owner := owner;
      this.key, this.value, this.prev, this.next := key, value, prev, next;
    }

    /** Closes the descriptor and gives the node up. */
    method Release() returns (closed: int)
      modifies this
      ensures closed == old(value) && next == null && prev == null
    {
      next, prev := null, null;
      closed := value;
      value, key := 0, "";
    }
  }

  /** Position of the oldest binding of a key, or the length when there is none. */
  function IndexOf(entries: seq<Entry>, key: string): (i: nat)
    ensures i <= |entries|
    ensures i < |entries| ==> entries[i].key == key
    ensures forall j :: 0 <= j < i ==> entries[j].key != key
  {
    if |entries| == 0 || entries[0].key == key then 0 else 1 + IndexOf(entries[1..], key)
  }

  lemma FirstIs(entries: seq<Entry>, key: string, i: nat)
    requires i <= |entries| && (i < |entries| ==> entries[i].key == key)
    requires forall j :: 0 <= j < i ==> entries[j].key != key
    ensures IndexOf(entries, key) == i
  {
  }

  function RemoveAt<T>(s: seq<T>, i: nat): (r: seq<T>)
    requires i < |s|
  {
    s[..i] + s[i + 1..]
  }

  function InsertAt<T>(s: seq<T>, i: nat, x: T): (r: seq<T>)
    requires i <= |s|
  {
    s[..i] + [x] + s[i..]
  }

  /** The values from the last binding to the first. */
  function ValuesBackwards(entries: seq<Entry>): (r: seq<int>)
    ensures |r| == |entries|
    ensures forall j :: 0 <= j < |r| ==> r[j] == entries[|entries| - 1 - j].value
  {
    seq(|entries|, j requires 0 <= j < |entries| => entries[|entries| - 1 - j].value)
  }

  ghost predicate Linked(ns: seq<Node>)
    reads ns
  {
    && (|ns| > 0 ==> ns[0].prev == null && ns[|ns| - 1].next == null)
    && (forall i {:trigger ns[i].prev} :: 1 <= i < |ns| ==> ns[i].prev == ns[i - 1])
    && (forall i {:trigger ns[i].next} :: 0 <= i < |ns| - 1 ==> ns[i].next == ns[i + 1])
  }

  ghost predicate Distinct(ns: seq<Node>) {
    forall i, j :: 0 <= i < j < |ns| ==> ns[i] != ns[j]
  }

  ghost function EntriesOf(ns: seq<Node>): (r: seq<Entry>)
    reads ns
    ensures |r| == |ns|
    ensures forall i :: 0 <= i < |ns| ==> r[i] == Entry(ns[i].key, ns[i].value)
  {
    seq(|ns|, i requires 0 <= i < |ns| reads ns => Entry(ns[i].key, ns[i].value))
  }

  // --- What relinking one place does to the whole chain ---

  lemma SpliceLinks(ns: seq<Node>, at: nat, e: Node)
    requires 1 <= at < |ns|
    requires ns[0].prev == null && ns[|ns| - 1].next == null
    requires forall i {:trigger ns[i].prev} :: 1 <= i < |ns| ==> ns[i].prev == if i == at then e else ns[i - 1]
    requires forall i {:trigger ns[i].next} :: 0 <= i < |ns| - 1 ==> ns[i].next == if i == at - 1 then e else ns[i + 1]
    requires e.prev == ns[at - 1] && e.next == ns[at]
    ensures Linked(InsertAt(ns, at, e))
  {
    var r := InsertAt(ns, at, e);
    forall i {:trigger r[i].prev} | 1 <= i < |r| ensures r[i].prev == r[i - 1] {
      if i > at {
        assert r[i] == ns[i - 1];
      }
    }
    forall i {:trigger r[i].next} | 0 <= i < |r| - 1 ensures r[i].next == r[i + 1] {
      if i > at {
        assert r[i] == ns[i - 1] && r[i + 1] == ns[i];
      }
    }
  }

  lemma UnlinkLinks(ns: seq<Node>, at: nat)
    requires at < |ns|
    requires at != 0 ==> ns[0].prev == null
    requires at != |ns| - 1 ==> ns[|ns| - 1].next == null
    requires forall i {:trigger ns[i].prev} :: 1 <= i < |ns| && i != at && i != at + 1 ==> ns[i].prev == ns[i - 1]
    requires forall i {:trigger ns[i].next} :: 0 <= i < |ns| - 1 && i != at && i != at - 1 ==> ns[i].next == ns[i + 1]
    requires at + 1 < |ns| ==> ns[at + 1].prev == if at == 0 then null else ns[at - 1]
    requires at > 0 ==> ns[at - 1].next == if at + 1 == |ns| then null else ns[at + 1]
    ensures Linked(RemoveAt(ns, at))
  {
    var r := RemoveAt(ns, at);
    forall i {:trigger r[i].prev} | 1 <= i < |r| ensures r[i].prev == r[i - 1] {
      if i >= at {
        assert r[i] == ns[i + 1];
      }
    }
    forall i {:trigger r[i].next} | 0 <= i < |r| - 1 ensures r[i].next == r[i + 1] {
      if i >= at {
        assert r[i] == ns[i + 1];
      }
    }
  }

  lemma DistinctAt(ns: seq<Node>, k: nat)
    requires Distinct(ns) && k < |ns|
    ensures forall j :: 0 <= j < |ns| && j != k ==> ns[j] != ns[k]
  {
  }

  lemma MembersAfterRemove<T>(s: seq<T>, at: nat)
    requires at < |s|
    ensures forall x :: x in RemoveAt(s, at) ==> x in s
  {
  }

  lemma DistinctAfterInsert(ns: seq<Node>, at: nat, e: Node)
    requires at <= |ns| && Distinct(ns) && e !in ns
    ensures Distinct(InsertAt(ns, at, e))
  {
  }

  lemma DistinctAfterRemove(ns: seq<Node>, at: nat)
    requires at < |ns| && Distinct(ns)
    ensures Distinct(RemoveAt(ns, at)) && ns[at] !in RemoveAt(ns, at)
  {
  }

  lemma EndsAfterRemove(ns: seq<Node>, at: nat)
    requires at < |ns|
    ensures var r := RemoveAt(ns, at);
            && |r| == |ns| - 1
            && (|r| > 0 ==> r[0] == (if at == 0 then ns[1] else ns[0]))
            && (|r| > 0 ==> r[|r| - 1] == if at == |ns| - 1 then ns[at - 1] else ns[|ns| - 1])
  {
  }

  lemma EntriesAfterInsert(ns: seq<Node>, at: nat, e: Node)
    requires at <= |ns|
    ensures EntriesOf(InsertAt(ns, at, e)) == InsertAt(EntriesOf(ns), at, Entry(e.key, e.value))
  {
  }

  lemma EntriesAfterRemove(ns: seq<Node>, at: nat, oldEntries: seq<Entry>)
    requires at < |ns| == |oldEntries|
    requires forall i :: 0 <= i < |ns| && i != at ==> Entry(ns[i].key, ns[i].value) == oldEntries[i]
    ensures EntriesOf(RemoveAt(ns, at)) == RemoveAt(oldEntries, at)
  {
    var r := RemoveAt(ns, at);
    forall i | 0 <= i < |r| ensures EntriesOf(r)[i] == RemoveAt(oldEntries, at)[i] {
      if i >= at {
        assert r[i] == ns[i + 1];
      }
    }
  }

  class List {
    var head: Node?
    var tail: Node?
    var size: nat
    ghost var nodes: seq<Node>
    ghost const slot: nat   // its place in a table of lists

    ghost predicate Valid()
      reads this, nodes
    {
      && size == |nodes|
      && head == (if |nodes| == 0 then null else nodes[0])
      && tail == (if |nodes| == 0 then null else nodes[|nodes| - 1])
      && Linked(nodes) && Distinct(nodes)
      && forall n :: n in nodes ==> n.owner == this
    }

    ghost function Entries(): seq<Entry>
      reads this, nodes
    {
      EntriesOf(nodes)
    }

    constructor (ghost slot: nat)
      ensures Valid() && nodes == [] && Entries() == [] && this.slot == slot
    {
      this.slot := slot;
      head, tail, size, nodes := null, null, 0, [];
    }

    /** The number-th node counted from 1; numbers out of range stop at an end. */
    method FindElement(number: nat) returns (e: Node?)
      requires Valid()
      ensures e == if |nodes| == 0 then null
                   else if number <= 1 then nodes[0]
                   else if number <= |nodes| then nodes[number - 1]
                   else nodes[|nodes| - 1]
    {
      e := head;
      var index := 1;
      while index < number && index < size
        invariant 1 <= index && (size > 0 ==> index <= size && e == nodes[index - 1])
        invariant size == 0 ==> e == null && index == 1
        invariant number >= 1 ==> index <= number
        invariant number == 0 ==> index == 1
      {
        e := e.next;
        index := index + 1;
      }
    }

    method FindValue(key: string) returns (e: Node?)
      requires Valid()
      ensures var i := IndexOf(Entries(), key);
              e == if i < |nodes| then nodes[i] else null
    {
      e := head;
      var index := 0;
      while index < size
        invariant 0 <= index <= size
        invariant e == if index < |nodes| then nodes[index] else null
        invariant forall j :: 0 <= j < index ==> nodes[j].key != key
      {
        if e.key == key {
          FirstIs(Entries(), key, index);
          return;
        }
        e := e.next;
        index := index + 1;
      }
      FirstIs(Entries(), key, index);
      e := null;
    }

    /** Starts the list anew with one binding. */
    method InsertFirst(key: string, value: int) returns (e: Node)
      modifies this
      ensures Valid() && fresh(e) && nodes == [e]
      ensures Entries() == [Entry(key, value)]
    {
      e := new Node(this, key, value, null, null);
      size, head, tail, nodes := 1, e, e, [e];
    }

    method InsertBegin(key: string, value: int) returns (e: Node)
      requires Valid()
      modifies this, nodes
      ensures Valid() && fresh(e) && nodes == [e] + old(nodes)
      ensures Entries() == [Entry(key, value)] + old(Entries())
    {
      if size == 0 {
        e := InsertFirst(key, value);
        return;
      }
      e := new Node(this, key, value, null, head);
      head.prev := e;
      head := e;
      size := size + 1;
      nodes := [e] + nodes;
    }

    method InsertEnd(key: string, value: int) returns (e: Node)
      requires Valid()
      modifies this, nodes
      ensures Valid() && fresh(e) && nodes == old(nodes) + [e]
      ensures Entries() == old(Entries()) + [Entry(key, value)]
    {
      if size == 0 {
        e := InsertFirst(key, value);
        return;
      }
      e := new Node(this, key, value, tail, null);
      tail.next := e;
      tail := e;
      size := size + 1;
      nodes := nodes + [e];
    }

    /** Before the number-th binding; a number past the end means the last one. Other numbers
        would follow the head's null prev pointer. */
    method InsertBefore(number: nat, key: string, value: int) returns (e: Node)
      requires Valid() && (size == 0 || number == 1 || (number > 1 && size > 1))
      modifies this, nodes
      ensures Valid() && fresh(e)
      ensures var at := if |old(nodes)| == 0 then 0
                        else if number <= |old(nodes)| then number - 1
                        else |old(nodes)| - 1;
              && nodes == InsertAt(old(nodes), at, e)
              && Entries() == InsertAt(old(Entries()), at, Entry(key, value))
    {
      if size == 0 {
        e := InsertFirst(key, value);
        return;
      }
      if number == 1 {
        e := InsertBegin(key, value);
        return;
      }
      var current := FindElement(number);
      ghost var at := if number <= |nodes| then number - 1 else |nodes| - 1;
      assert current == nodes[at];
      e := Splice(current.prev, current, at, key, value);
    }

    /** After the number-th binding. */
    method InsertAfter(number: nat, key: string, value: int) returns (e: Node)
      requires Valid() && (size > 0 ==> number <= size && (number == 0 ==> size > 1))
      modifies this, nodes
      ensures Valid() && fresh(e)
      ensures var at := if |old(nodes)| == 0 then 0 else if number == 0 then 1 else number;
              && nodes == InsertAt(old(nodes), at, e)
              && Entries() == InsertAt(old(Entries()), at, Entry(key, value))
    {
      if size == 0 {
        e := InsertFirst(key, value);
        return;
      }
      if number == size {
        e := InsertEnd(key, value);
        return;
      }
      var current := FindElement(number);
      ghost var at := if number == 0 then 1 else number;
      assert current == nodes[at - 1];
      e := Splice(current, current.next, at, key, value);
    }

    /** Points the two neighbours at a new node that already points at them. */
    method Join(p: Node, q: Node, e: Node, ghost at: nat)
      requires Linked(nodes) && Distinct(nodes) && 1 <= at < |nodes| && p == nodes[at - 1] && q == nodes[at]
      requires e !in nodes && e.prev == p && e.next == q
      modifies p`next, q`prev
      ensures Linked(InsertAt(nodes, at, e))
    {
      DistinctAt(nodes, at - 1);
      DistinctAt(nodes, at);
      p.next := e;
      q.prev := e;
      SpliceLinks(nodes, at, e);
    }

    /** A new node between two neighbours. */
    method Splice(p: Node, q: Node, ghost at: nat, key: string, value: int) returns (e: Node)
      requires Valid() && 1 <= at < |nodes| && p == nodes[at - 1] && q == nodes[at]
      modifies this`size, this`nodes, p`next, q`prev
      ensures Valid() && fresh(e) && nodes == InsertAt(old(nodes), at, e)
      ensures Entries() == InsertAt(old(Entries()), at, Entry(key, value))
    {
      hide Linked;
      hide Distinct;
      e := new Node(this, key, value, p, q);
      DistinctAfterInsert(nodes, at, e);
      Join(p, q, e, at);
      size := size + 1;
      EntriesAfterInsert(nodes, at, e);
      assert EntriesOf(nodes) == old(Entries());
      nodes := InsertAt(nodes, at, e);
    }

    /** Joins the neighbours of e, or moves head and tail. */
    method Bypass(e: Node, ghost i: nat)
      requires Valid() && i < |nodes| && e == nodes[i]
      modifies this`head, this`tail, nodes
      ensures EntriesOf(nodes) == old(Entries())
      ensures Linked(RemoveAt(nodes, i))
      ensures head == (if |nodes| == 1 then null else if i == 0 then nodes[1] else nodes[0])
      ensures tail == (if |nodes| == 1 then null else if i == |nodes| - 1 then nodes[i - 1] else nodes[|nodes| - 1])
    {
      hide Distinct;
      DistinctAt(nodes, i);
      DistinctAt(nodes, 0);
      DistinctAt(nodes, size - 1);
      if i > 0 {
        DistinctAt(nodes, i - 1);
      }
      if i < size - 1 {
        DistinctAt(nodes, i + 1);
      }
      if size == 1 {
        head, tail := null, null;
      } else if e == head {
        head := e.next;
        e.next.prev := null;
      } else if e == tail {
        tail := e.prev;
        e.prev.next := null;
      } else {
        e.prev.next := e.next;
        e.next.prev := e.prev;
      }
      UnlinkLinks(nodes, i);
    }

    /** Unlinks the node at position i of the list, closes its descriptor and frees it. */
    method Unlink(e: Node, ghost i: nat) returns (closed: int)
      requires Valid() && i < |nodes| && e == nodes[i]
      modifies this, nodes
      ensures Valid() && nodes == RemoveAt(old(nodes), i)
      ensures Entries() == RemoveAt(old(Entries()), i) && closed == old(Entries())[i].value
      ensures e.next == null && e.prev == null
    {
      hide Linked;
      hide Distinct;
      hide EntriesOf;
      hide RemoveAt;
      ghost var ns, rest := nodes, RemoveAt(nodes, i);
      DistinctAfterRemove(ns, i);
      MembersAfterRemove(ns, i);
      Bypass(e, i);
      assert EntriesOf(rest) == RemoveAt(old(Entries()), i) by {
        EntriesAfterRemove(ns, i, EntriesOf(ns));
      }
      closed := e.Release();
      size := size - 1;
      nodes := rest;
      EndsAfterRemove(ns, i);
    }

    method Delete(e: Node) returns (closed: int)
      requires Valid() && e in nodes
      modifies this, nodes
      ensures Valid()
      ensures exists i :: 0 <= i < |old(nodes)| && old(nodes)[i] == e && nodes == RemoveAt(old(nodes), i)
                          && Entries() == RemoveAt(old(Entries()), i) && closed == old(Entries())[i].value
    {
      ghost var i :| 0 <= i < |nodes| && nodes[i] == e;
      closed := Unlink(e, i);
    }

    method DeleteElement(number: nat) returns (closed: int)
      requires Valid() && size > 0
      modifies this, nodes
      ensures Valid()
      ensures var i := if number <= 1 then 0 else if number <= |old(nodes)| then number - 1 else |old(nodes)| - 1;
              && nodes == RemoveAt(old(nodes), i)
              && Entries() == RemoveAt(old(Entries()), i) && closed == old(Entries())[i].value
    {
      var e := FindElement(number);
      ghost var i := if number <= 1 then 0 else if number <= |nodes| then number - 1 else |nodes| - 1;
      closed := Unlink(e, i);
    }

    /** Closes and frees every node from the tail to the head. */
    method Clear() returns (closed: seq<int>)
      requires Valid()
      modifies this, nodes
      ensures Valid() && nodes == [] && Entries() == [] && closed == ValuesBackwards(old(Entries()))
    {
      closed := ReleaseAll();
      size, head, tail, nodes := 0, null, null, [];
    }

    method ReleaseAll() returns (closed: seq<int>)
      requires Valid()
      modifies nodes
      ensures closed == ValuesBackwards(old(Entries()))
    {
      hide Distinct;
      ghost var before := Entries();
      var e := tail;
      closed := [];
      var index := 0;
      while index < size
        invariant 0 <= index <= size && |closed| == index
        invariant e == if index < size then nodes[size - 1 - index] else null
        invariant index < size ==> nodes[0].prev == null
        invariant forall j {:trigger nodes[j].prev} :: 1 <= j < size - index ==> nodes[j].prev == nodes[j - 1]
        invariant forall j :: 0 <= j < size - index ==> nodes[j].value == before[j].value
        invariant forall j :: 0 <= j < index ==> closed[j] == before[size - 1 - j].value
      {
        DistinctAt(nodes, size - 1 - index);
        var following := e.prev;
        var fd := e.Release();
        closed := closed + [fd];
        e := following;
        index := index + 1;
      }
    }

    lemma Owns()
      requires Valid()
      ensures forall n :: n in nodes ==> n.owner == this
    {
    }

    /** A list whose own objects have not changed is the list it was. */
    twostate lemma Kept()
      requires old(Valid()) && unchanged(this) && forall n :: n in old(nodes) ==> unchanged(n)
      ensures Valid() && Entries() == old(Entries())
    {
      forall i | 0 <= i < |nodes| ensures unchanged(nodes[i]) {
        assert nodes[i] in old(nodes);
      }
    }
  }
}
