/** The hash table of lists (daemon/src/hashtable/hashtable.c): whatever its size, it behaves as
    the one list of WatchTable, with every key kept in the bucket of its hash. */
module HashTable {
  import opened ListPointer
  import Murmur
  import W = WatchTable

  function BucketOf(key: string, m: nat): (b: nat)
    requires m > 0
    ensures b < m
  {
    Murmur.Hash(key) as int % m
  }

  /** The bindings of one bucket, in the order they were set. */
  function Bucket(entries: seq<Entry>, m: nat, b: nat): seq<Entry>
    requires m > 0
  {
    if |entries| == 0 then []
    else (if BucketOf(entries[0].key, m) == b then [entries[0]] else []) + Bucket(entries[1..], m, b)
  }

  lemma NoBindings(m: nat)
    requires m > 0
    ensures forall b :: Bucket([], m, b) == []
  {
  }

  lemma IndexOfCons(entries: seq<Entry>, key: string)
    requires |entries| > 0
    ensures IndexOf(entries, key) == if entries[0].key == key then 0 else 1 + IndexOf(entries[1..], key)
  {
  }

  lemma RemoveAtCons<T>(s: seq<T>, i: nat)
    requires 0 < i < |s|
    ensures RemoveAt(s, i) == [s[0]] + RemoveAt(s[1..], i - 1)
  {
  }

  lemma BucketCons(e: Entry, entries: seq<Entry>, m: nat, b: nat)
    requires m > 0
    ensures Bucket([e] + entries, m, b) == (if BucketOf(e.key, m) == b then [e] else []) + Bucket(entries, m, b)
  {
    assert ([e] + entries)[1..] == entries;
  }

  lemma {:induction false} BucketAppend(entries: seq<Entry>, e: Entry, m: nat, b: nat)
    requires m > 0
    ensures Bucket(entries + [e], m, b) == Bucket(entries, m, b) + if BucketOf(e.key, m) == b then [e] else []
  {
    hide BucketOf;
    if |entries| == 0 {
      assert entries + [e] == [e] + [];
      BucketCons(e, [], m, b);
    } else {
      assert entries + [e] == [entries[0]] + (entries[1..] + [e]);
      BucketCons(entries[0], entries[1..] + [e], m, b);
      BucketAppend(entries[1..], e, m, b);
    }
  }

  /** A key is found in its bucket exactly when it is found in the whole list, as the same binding. */
  lemma {:induction false} BucketFinds(entries: seq<Entry>, key: string, m: nat)
    requires m > 0
    ensures var bucket := Bucket(entries, m, BucketOf(key, m));
            var i, k := IndexOf(entries, key), IndexOf(bucket, key);
            && (i < |entries| <==> k < |bucket|)
            && (i < |entries| ==> bucket[k] == entries[i])
  {
    hide BucketOf;
    hide IndexOf;
    if |entries| > 0 {
      var rest := Bucket(entries[1..], m, BucketOf(key, m));
      var bucket := Bucket(entries, m, BucketOf(key, m));
      BucketFinds(entries[1..], key, m);
      IndexOfCons(entries, key);
      if BucketOf(entries[0].key, m) == BucketOf(key, m) {
        assert bucket[1..] == rest;
        IndexOfCons(bucket, key);
      } else {
        assert bucket == rest;
      }
    }
  }

  /** Removing the oldest binding of a key from the whole list removes the oldest from its
      bucket and nothing from the others. */
  lemma {:induction false} BucketRemove(entries: seq<Entry>, key: string, m: nat, b: nat)
    requires m > 0 && IndexOf(entries, key) < |entries|
    ensures var bucket := Bucket(entries, m, b);
            var left := Bucket(RemoveAt(entries, IndexOf(entries, key)), m, b);
            if b == BucketOf(key, m) then
              IndexOf(bucket, key) < |bucket| && left == RemoveAt(bucket, IndexOf(bucket, key))
            else left == bucket
  {
    hide BucketOf;
    hide IndexOf;
    IndexOfCons(entries, key);
    var e, rest := entries[0], Bucket(entries[1..], m, b);
    var bucket := Bucket(entries, m, b);
    if e.key == key {
      assert RemoveAt(entries, 0) == entries[1..];
      if b == BucketOf(key, m) {
        IndexOfCons(bucket, key);
        assert RemoveAt(bucket, 0) == rest;
      } else {
        assert bucket == rest;
      }
    } else {
      hide RemoveAt;
      BucketRemove(entries[1..], key, m, b);
      RemoveAtCons(entries, IndexOf(entries, key));
      BucketCons(e, RemoveAt(entries[1..], IndexOf(entries[1..], key)), m, b);
      if BucketOf(e.key, m) == b {
        assert bucket[1..] == rest;
        IndexOfCons(bucket, key);
        if b == BucketOf(key, m) {
          RemoveAtCons(bucket, IndexOf(bucket, key));
        }
      } else {
        assert bucket == rest;
      }
    }
  }

  /** The values in the first b buckets. */
  function ValuesBelow(entries: seq<Entry>, m: nat, b: nat): multiset<int>
    requires m > 0
  {
    if b == 0 then multiset{} else ValuesBelow(entries, m, b - 1) + W.ValuesOf(Bucket(entries, m, b - 1))
  }

  lemma {:induction false} ValuesBelowCons(entries: seq<Entry>, m: nat, b: nat)
    requires m > 0 && |entries| > 0
    ensures ValuesBelow(entries, m, b) ==
            ValuesBelow(entries[1..], m, b) +
            if BucketOf(entries[0].key, m) < b then multiset{entries[0].value} else multiset{}
  {
    hide BucketOf;
    if b > 0 {
      ValuesBelowCons(entries, m, b - 1);
      var rest := Bucket(entries[1..], m, b - 1);
      if BucketOf(entries[0].key, m) == b - 1 {
        W.ValuesAppend([entries[0]], rest);
        W.ValuesOfFew(entries[0]);
      } else {
        assert Bucket(entries, m, b - 1) == rest;
      }
    }
  }

  lemma {:induction false} NoValues(m: nat, b: nat)
    requires m > 0
    ensures ValuesBelow([], m, b) == multiset{}
  {
    if b > 0 {
      NoValues(m, b - 1);
    }
  }

  /** The buckets together hold what the list holds. */
  lemma {:induction false} AllBuckets(entries: seq<Entry>, m: nat)
    requires m > 0
    ensures ValuesBelow(entries, m, m) == W.ValuesOf(entries)
  {
    if |entries| == 0 {
      NoValues(m, m);
    } else {
      AllBuckets(entries[1..], m);
      ValuesBelowCons(entries, m, m);
    }
  }

  lemma {:induction false} BackwardsValues(entries: seq<Entry>)
    ensures multiset(ValuesBackwards(entries)) == W.ValuesOf(entries)
  {
    if |entries| > 0 {
      BackwardsValues(entries[1..]);
      assert ValuesBackwards(entries) == ValuesBackwards(entries[1..]) + [entries[0].value];
    }
  }

  /** The shares of the buckets after a key has been removed. */
  lemma RemainingBuckets(t: W.Table, key: string, m: nat)
    requires m > 0 && IndexOf(t.entries, key) < |t.entries|
    ensures var left, b := W.Apply(t, W.Remove(key)).entries, BucketOf(key, m);
            && var k := IndexOf(Bucket(t.entries, m, b), key);
               && k < |Bucket(t.entries, m, b)|
               && Bucket(left, m, b) == RemoveAt(Bucket(t.entries, m, b), k)
               && forall i :: 0 <= i < m && i != b ==> Bucket(left, m, i) == Bucket(t.entries, m, i)
  {
    hide IndexOf;
    hide RemoveAt;
    hide BucketOf;
    hide Bucket;
    BucketRemove(t.entries, key, m, BucketOf(key, m));
    forall i | 0 <= i < m && i != BucketOf(key, m)
      ensures Bucket(W.Apply(t, W.Remove(key)).entries, m, i) == Bucket(t.entries, m, i)
    {
      BucketRemove(t.entries, key, m, i);
    }
  }

  class Table {
    var keys: array<List>
    var size: nat
    ghost var table: W.Table
    ghost var Repr: set<object>

    /** The buckets are separate lists. */
    ghost predicate Shape()
      reads this, Repr
    {
      && this in Repr && keys in Repr && keys.Length == size
      && (forall i :: 0 <= i < size ==> keys[i] in Repr && keys[i].slot == i)
      && (forall i, n :: 0 <= i < size && n in keys[i].nodes ==> n in Repr)
      && (forall i :: 0 <= i < size ==> keys[i].Valid())
    }

    /** Bucket i holds its share of the one list. */
    ghost predicate Holds(i: nat, entries: seq<Entry>)
      reads this, Repr
      requires Shape() && i < size
    {
      keys[i].Entries() == Bucket(entries, size, i)
    }

    ghost predicate Valid()
      reads this, Repr
    {
      && Shape()
      && W.Conserved(table)
      && (size == 0 ==> table.entries == [])
      && forall i :: 0 <= i < size ==> Holds(i, table.entries)
    }

    constructor (size: nat)
      ensures Valid() && fresh(Repr) && this.size == size && table == W.NEW
    {
      this.size := size;
      table := W.NEW;
      var none := new List(0);
      keys := new List[size](_ => none);
      Repr := {};
      new;
      Repr := {this, keys};
      for i := 0 to size
        modifies this`Repr, keys
        invariant keys.Length == size && this in Repr && keys in Repr && fresh(Repr)
        invariant forall j :: 0 <= j < i ==>
                    keys[j] in Repr && keys[j].slot == j && keys[j].Valid() && keys[j].nodes == []
      {
        var list := new List(i);
        keys[i] := list;
        Repr := Repr + {list};
      }
      assert W.ValuesOf([]) == multiset{};
    }

    method GetValue(key: string) returns (value: int)
      requires Valid()
      ensures value == W.Lookup(table.entries, key)
    {
      hide IndexOf;
      hide List.Valid;
      hide Linked;
      hide Distinct;
      hide Murmur.Hash;
      hide Bucket;
      if size == 0 {
        return 0;
      }
      var h := Murmur.MurmurHash2(key);
      var b := h as int % size;
      assert Holds(b, table.entries);
      BucketFinds(table.entries, key, size);
      var e := keys[b].FindValue(key);
      value := if e != null then e.value else 0;
    }

    method SetValue(key: string, data: int) returns (hash: bv32)
      requires Valid()
      modifies Repr
      ensures Valid() && fresh(Repr - old(Repr)) && size == old(size)
      ensures size > 0 ==> hash == Murmur.Hash(key) && table == W.Apply(old(table), W.Set(key, data))
      ensures size == 0 ==> hash == 0 && table == old(table)
    {
      hide Murmur.Hash;
      hide Bucket;
      hide List.Valid;
      hide List.Entries;
      if size == 0 {
        return 0;
      }
      hash := Murmur.MurmurHash2(key);
      var b := hash as int % size;
      Shares();
      Append(b, key, data);
      forall i | 0 <= i < size ensures Bucket(table.entries + [Entry(key, data)], size, i) ==
                                       Bucket(table.entries, size, i) + if i == b then [Entry(key, data)] else [] {
        BucketAppend(table.entries, Entry(key, data), size, i);
      }
      Record(W.Set(key, data));
    }

    lemma Shares()
      requires Valid()
      ensures forall i :: 0 <= i < size ==> keys[i].Entries() == Bucket(table.entries, size, i)
    {
      forall i | 0 <= i < size ensures keys[i].Entries() == Bucket(table.entries, size, i) {
        assert Holds(i, table.entries);
      }
    }

    lemma OwnersHere()
      requires Shape()
      ensures forall i, n :: 0 <= i < size && n in keys[i].nodes ==> n.owner == keys[i]
    {
      forall i | 0 <= i < size ensures forall n :: n in keys[i].nodes ==> n.owner == keys[i] {
        keys[i].Owns();
      }
    }

    /** Lists do not share nodes. */
    lemma ListsApart(b: nat)
      requires Shape() && b < size
      ensures forall i :: 0 <= i < size && i != b ==> keys[i] != keys[b]
      ensures forall i, n :: 0 <= i < size && i != b && n in keys[i].nodes ==> n !in keys[b].nodes
    {
      OwnersHere();
    }

    /** When only list b and its nodes have changed, every other list is the list it was. */
    twostate lemma OthersKept(b: nat)
      requires old(Shape()) && unchanged(this) && unchanged(keys) && b < size
      requires forall i :: 0 <= i < size && i != b ==> unchanged(keys[i])
      requires forall i, n :: 0 <= i < size && i != b && n in old(keys[i].nodes) ==> unchanged(n)
      ensures forall i :: 0 <= i < size && i != b ==>
                keys[i].Valid() && keys[i].nodes == old(keys[i].nodes) && keys[i].Entries() == old(keys[i].Entries())
    {
      forall i | 0 <= i < size && i != b
        ensures keys[i].Valid() && keys[i].nodes == old(keys[i].nodes) && keys[i].Entries() == old(keys[i].Entries())
      {
        keys[i].Kept();
      }
    }

    /** Enters an operation in the log, once the buckets hold what it leaves. */
    ghost method Record(op: W.Op)
      requires Shape() && W.Conserved(table) && size > 0
      requires forall i :: 0 <= i < size ==> keys[i].Entries() == Bucket(W.Apply(table, op).entries, size, i)
      modifies this`table
      ensures table == W.Apply(old(table), op) && Valid()
    {
      hide List.Valid;
      hide List.Entries;
      W.ApplyConserves(table, op);
      table := W.Apply(table, op);
      forall i | 0 <= i < size ensures keys[i].Valid() && keys[i].Entries() == old(keys[i].Entries()) {
        keys[i].Kept();
      }
    }

    /** One list changes; the others are left as they were. */
    method Append(b: nat, key: string, data: int)
      requires Shape() && b < size
      modifies Repr - {this, keys}, this`Repr
      ensures Shape() && fresh(Repr - old(Repr))
      ensures forall i :: 0 <= i < size ==>
                keys[i].Entries() == old(keys[i].Entries()) + if i == b then [Entry(key, data)] else []
    {
      hide List.Valid;
      hide List.Entries;
      ListsApart(b);
      var e := keys[b].InsertEnd(key, data);
      forall i, n | 0 <= i < size && i != b && n in old(keys[i].nodes) ensures unchanged(n) {
        assert n !in old(keys[b].nodes);
      }
      OthersKept(b);
      Repr := Repr + {e};
    }

    method Drop(b: nat, e: Node, ghost k: nat) returns (closed: int)
      requires Shape() && b < size && k < |keys[b].nodes| && e == keys[b].nodes[k]
      modifies Repr - {this, keys}
      ensures Shape() && closed == old(keys[b].Entries())[k].value
      ensures forall i :: 0 <= i < size ==>
                keys[i].Entries() == if i == b then RemoveAt(old(keys[i].Entries()), k) else old(keys[i].Entries())
    {
      hide List.Valid;
      hide List.Entries;
      ListsApart(b);
      closed := keys[b].Unlink(e, k);
      forall i, n | 0 <= i < size && i != b && n in old(keys[i].nodes) ensures unchanged(n) {
        assert n !in old(keys[b].nodes);
      }
      OthersKept(b);
    }

    method Empty(b: nat) returns (closed: seq<int>)
      requires Shape() && b < size
      modifies Repr - {this, keys}
      ensures Shape() && closed == ValuesBackwards(old(keys[b].Entries()))
      ensures forall i :: 0 <= i < size ==> keys[i].Entries() == if i == b then [] else old(keys[i].Entries())
    {
      hide List.Valid;
      hide List.Entries;
      ListsApart(b);
      closed := keys[b].Clear();
      forall i, n | 0 <= i < size && i != b && n in old(keys[i].nodes) ensures unchanged(n) {
        assert n !in old(keys[b].nodes);
      }
      OthersKept(b);
    }

    /** The key must be bound: the element found is dereferenced without a test. The descriptor that
        is closed is the one the key was bound to. */
    method Remove(key: string) returns (closed: int)
      requires Valid()
      requires size > 0 ==> IndexOf(table.entries, key) < |table.entries|
      modifies Repr
      ensures Valid() && fresh(Repr - old(Repr)) && size == old(size)
      ensures table == W.Apply(old(table), W.Remove(key))
      ensures size > 0 ==> closed == W.Lookup(old(table.entries), key)
    {
      if size == 0 {
        return 0;
      }
      hide W.Lookup;
      hide W.Apply;
      hide W.Conserved;
      hide List.Valid;
      hide List.Entries;
      closed := DropOldest(key);
      Record(W.Remove(key));
    }

    method DropOldest(key: string) returns (closed: int)
      requires Valid() && size > 0 && IndexOf(table.entries, key) < |table.entries|
      modifies Repr - {this, keys}
      ensures Shape() && closed == W.Lookup(table.entries, key)
      ensures forall i :: 0 <= i < size ==>
                keys[i].Entries() == Bucket(W.Apply(table, W.Remove(key)).entries, size, i)
    {
      hide BucketOf;
      hide Bucket;
      hide List.Valid;
      hide List.Entries;
      hide IndexOf;
      hide RemoveAt;
      hide W.Apply;
      hide W.Conserved;
      Shares();
      var b, e := Locate(key);
      ghost var k := IndexOf(Bucket(table.entries, size, b), key);
      RemainingBuckets(table, key, size);
      BucketFinds(table.entries, key, size);
      closed := Drop(b, e, k);
    }

    /** The node of the oldest binding of a bound key. */
    method Locate(key: string) returns (b: nat, e: Node)
      requires Valid() && size > 0 && IndexOf(table.entries, key) < |table.entries|
      ensures b == BucketOf(key, size)
      ensures var k := IndexOf(Bucket(table.entries, size, b), key);
              k < |Bucket(table.entries, size, b)| == |keys[b].nodes| && e == keys[b].nodes[k]
    {
      hide Murmur.Hash;
      hide Bucket;
      var h := Murmur.MurmurHash2(key);
      b := h as int % size;
      assert Holds(b, table.entries);
      BucketFinds(table.entries, key, size);
      var found := keys[b].FindValue(key);
      e := found;
    }

    /** closed lists the descriptors in the order they are closed. */
    method Clear() returns (closed: seq<int>)
      requires Valid()
      modifies Repr
      ensures Valid() && fresh(Repr - old(Repr)) && size == old(size)
      ensures table == W.Apply(old(table), W.Clear)
      ensures multiset(closed) == W.ValuesOf(old(table.entries))
    {
      hide Murmur.Hash;
      hide BucketOf;
      hide Bucket;
      hide List.Valid;
      hide List.Entries;
      hide W.Conserved;
      if size == 0 {
        W.ValuesOfFew(Entry("", 0));
        return [];
      }
      Shares();
      closed := EmptyAll(table.entries);
      NoBindings(size);
      Record(W.Clear);
    }

    method EmptyAll(ghost entries: seq<Entry>) returns (closed: seq<int>)
      requires Shape() && (size == 0 ==> entries == [])
      requires forall i :: 0 <= i < size ==> keys[i].Entries() == Bucket(entries, size, i)
      modifies Repr - {this, keys}
      ensures Shape() && multiset(closed) == W.ValuesOf(entries)
      ensures forall i :: 0 <= i < size ==> keys[i].Entries() == []
    {
      hide Bucket;
      hide List.Valid;
      hide List.Entries;
      closed := [];
      for index := 0 to size
        modifies Repr - {this, keys}
        invariant Shape()
        invariant forall i :: 0 <= i < index ==> keys[i].Entries() == []
        invariant forall i :: index <= i < size ==> keys[i].Entries() == Bucket(entries, size, i)
        invariant index == 0 ==> closed == []
        invariant size > 0 ==> multiset(closed) == ValuesBelow(entries, size, index)
      {
        BackwardsValues(keys[index].Entries());
        var fds := Empty(index);
        closed := closed + fds;
      }
      if size > 0 {
        AllBuckets(entries, size);
      } else {
        assert closed == [] && entries == [];
      }
    }

    /** Closes everything and leaves a table of size 0. */
    method Destroy() returns (closed: seq<int>)
      requires Valid()
      modifies Repr
      ensures Valid() && size == 0 && table == W.Apply(old(table), W.Clear)
      ensures multiset(closed) == W.ValuesOf(old(table.entries)) && table.closed == table.inserted
    {
      closed := Clear();
      size := 0;
      keys := new List[0];
      Repr := Repr + {keys};
    }
  }
}
