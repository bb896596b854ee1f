/** backup and backup_inotify_full (daemon/src/daemon/backup.c:46-183, 407-564): the recursive copy
    of a directory into an empty one, and the same with a watch on every directory. */
module Backup {
  import opened Paths
  import opened Directories
  import opened FileSystem
  import opened BackupSpec
  import opened ListPointer
  import HashTable
  import W = WatchTable

  /** No path under top is longer than bound; it makes the recursion finite. */
  ghost predicate Bounded(files: Files, top: string, bound: nat) {
    |top| <= bound && forall p :: p in files && Under(top, p) ==> |p| <= bound
  }

  ghost function LongestPath(files: Files): (n: nat)
    ensures forall p :: p in files ==> |p| <= n
    decreases |files|
  {
    if files == map[] then 0
    else
      var p :| p in files;
      var rest := LongestPath(files - {p});
      assert forall q :: q in files ==> q == p || q in files - {p};
      if |p| > rest then |p| else rest
  }

  lemma EveryTreeIsBounded(files: Files, top: string)
    ensures exists bound: nat :: Bounded(files, top, bound)
  {
    var n := LongestPath(files);
    assert Bounded(files, top, if n > |top| then n else |top|);
  }

  lemma BoundedBelow(files: Files, now: Files, src: string, dst: string, name: string, bound: nat)
    requires Bounded(files, src, bound) && Apart(src, dst) && OnlyUnder(files, now, dst) && Child(src, name) in files
    ensures Bounded(now, Child(src, name), bound) && |Child(src, name)| > |src|
  {
    var top := Child(src, name);
    UnderChild(src, name);
    forall p | p in now && Under(top, p) ensures |p| <= bound {
      UnderTransitive(src, top, p);
      ApartTrees(src, dst, p);
    }
  }

  /** The entry at src/name as it is now, while dst is being filled. */
  lemma EntryHere(before: Files, now: Files, src: string, dst: string, name: string)
    requires Apart(src, dst) && OnlyUnder(before, now, dst)
    ensures (Child(src, name) in now <==> Child(src, name) in before)
    ensures Child(src, name) in before ==> now[Child(src, name)] == before[Child(src, name)]
    ensures Child(src, name) != Child(dst, name)
  {
    UnderChild(src, name);
    UnderChild(dst, name);
    ApartTrees(src, dst, Child(src, name));
  }

  lemma NothingWritten(files: Files, dst: string)
    ensures OnlyUnder(files, files, dst)
  {
  }

  lemma OnlyUnderChain(a: Files, b: Files, c: Files, dst: string, name: string)
    requires OnlyUnder(a, b, dst)
    requires OnlyUnder(b, c, Child(dst, name)) ||
             forall p :: p != Child(dst, name) ==> (p in c <==> p in b) && (p in b && p in c ==> c[p] == b[p])
    ensures OnlyUnder(a, c, dst)
  {
    UnderChild(dst, name);
    forall p | !Under(dst, p) ensures (p in c <==> p in a) && (p in a && p in c ==> c[p] == a[p]) {
      if Under(Child(dst, name), p) {
        UnderTransitive(dst, Child(dst, name), p);
      }
    }
  }

  lemma NothingBelowNew(before: Files, now: Files, src: string, dst: string, done: set<string>, name: string)
    requires CopiedSome(before, now, src, dst, done) && IsName(name) && name !in done && Child(src, name) in before
    ensures NothingUnder(now[Child(dst, name) := before[Child(src, name)]], Child(dst, name))
  {
    var y := Child(dst, name);
    UnderChild(dst, name);
    forall p | p in now ensures !Under(y, p) {
      if Under(y, p) {
        UnderTransitive(dst, y, p);
      }
      if Under(dst, p) {
        var r := p[|dst| + 1..];
        UnderIsChild(dst, p);
        SplitHead(dst, name, r);
        assert SameAt(before, now, src, dst, r, Head(r) in done);
      }
    }
  }

  /** What a copy needs to run through: a source to stat, and an empty directory to fill. */
  ghost predicate CanCopy(files: Files, src: string, dst: string) {
    src in files && !files[src].Link? && dst in files && files[dst].Dir? && NothingUnder(files, dst)
  }

  lemma EntryIsFree(before: Files, now: Files, src: string, dst: string, done: set<string>, name: string)
    requires CanCopy(before, src, dst) && CopiedSome(before, now, src, dst, done)
    requires IsName(name) && name !in done
    ensures Free(now, Child(dst, name))
  {
    assert SameAt(before, now, src, dst, name, Head(name) in done);
    HeadOfJoin(name, "");
    assert dst in now && now[dst] == before[dst];
  }

  lemma CanCopyBelow(before: Files, now: Files, made: Files, src: string, dst: string, name: string)
    requires OnlyUnder(before, now, dst) && Apart(src, dst)
    requires Child(src, name) in before && before[Child(src, name)].Dir?
    requires made == now[Child(dst, name) := before[Child(src, name)]] && NothingUnder(made, Child(dst, name))
    ensures CanCopy(made, Child(src, name), Child(dst, name))
  {
    EntryHere(before, now, src, dst, name);
  }

  /** names is what readdir gives for dir. */
  ghost predicate Lists(files: Files, dir: string, names: seq<string>) {
    && (forall i, j :: 0 <= i < j < |names| ==> names[i] != names[j])
    && forall n :: n in names <==> n == "." || n == ".." || (IsName(n) && Child(dir, n) in files)
  }

  /** done are the entries among the first i. */
  ghost predicate Through(names: seq<string>, i: nat, done: set<string>) {
    i <= |names| && forall n :: n in done <==> n in names[..i] && IsName(n)
  }

  lemma ThroughNext(files: Files, dir: string, names: seq<string>, i: nat, done: set<string>)
    requires Lists(files, dir, names) && Through(names, i, done) && i < |names|
    ensures names[i] == "." || names[i] == ".." ==> Through(names, i + 1, done)
    ensures names[i] != "." && names[i] != ".." ==>
              IsName(names[i]) && Child(dir, names[i]) in files && names[i] !in done &&
              Through(names, i + 1, done + {names[i]})
  {
    assert names[i] in names;
    assert names[..i + 1] == names[..i] + [names[i]];
  }

  lemma ThroughAll(files: Files, dir: string, names: seq<string>, done: set<string>)
    requires Lists(files, dir, names) && Through(names, |names|, done)
    ensures forall n :: IsName(n) && Child(dir, n) in files ==> n in done
  {
    assert names[..|names|] == names;
  }

  /** Copies the directory src into dst; 0 is success. The paths are plain, so that lying apart by their
      texts is lying apart (PlainApart). */
  method BackupTree(disk: Disk, src: string, dst: string, ghost bound: nat) returns (result: int)
    requires PlainPair(src, dst) && Apart(src, dst) && IsTree(disk.files, src) && Bounded(disk.files, src, bound)
    modifies disk`files
    ensures result == 0 || result == 1
    ensures OnlyUnder(old(disk.files), disk.files, dst)
    ensures result == 0 ==> src in old(disk.files)
    ensures result == 0 && NothingUnder(old(disk.files), dst) && old(disk.files)[src].Dir? ==>
              Copied(old(disk.files), disk.files, src, dst)
    ensures disk.reliable && CanCopy(old(disk.files), src, dst) ==> result == 0
    decreases bound - |src|
  {
    hide PlainPair;
    var failed, info := disk.Stat(src);
    if failed {
      return 1;
    }
    if !info.Dir? {
      return 0;
    }
    var names;
    failed, names := disk.ReadDir(src);
    if failed {
      return 1;
    }
    ghost var before := disk.files;
    ghost var done: set<string> := {};
    if NothingUnder(before, dst) {
      NothingDone(before, src, dst);
    }
    var i := 0;
    assert Lists(before, src, names);
    hide Lists, Through, IsName, Child;
    while i < |names|
      invariant Through(names, i, done)
      invariant OnlyUnder(before, disk.files, dst)
      invariant NothingUnder(before, dst) ==> CopiedSome(before, disk.files, src, dst, done)
    {
      var name := names[i];
      ThroughNext(before, src, names, i, done);
      i := i + 1;
      if name == "." || name == ".." {
        continue;
      }
      result := BackupEntry(disk, src, dst, name, bound, before, done);
      if result != 0 {
        return;
      }
      done := done + {name};
    }
    ThroughAll(before, src, names, done);
    if NothingUnder(before, dst) {
      AllDone(before, disk.files, src, dst, done);
    }
    result := 0;
  }

  method BackupEntry(disk: Disk, src: string, dst: string, name: string, ghost bound: nat,
                     ghost before: Files, ghost done: set<string>) returns (result: int)
    requires PlainPair(src, dst) && Apart(src, dst) && IsTree(before, src) && Bounded(before, src, bound)
    requires IsName(name) && Child(src, name) in before && name !in done
    requires OnlyUnder(before, disk.files, dst)
    requires NothingUnder(before, dst) ==> CopiedSome(before, disk.files, src, dst, done)
    modifies disk`files
    ensures result == 0 || result == 1
    ensures OnlyUnder(before, disk.files, dst)
    ensures result == 0 && NothingUnder(before, dst) ==> CopiedSome(before, disk.files, src, dst, done + {name})
    ensures disk.reliable && CanCopy(before, src, dst) ==> result == 0
    decreases bound - |src|, 0
  {
    ghost var now := disk.files;
    EntryHere(before, now, src, dst, name);
    if CanCopy(before, src, dst) {
      EntryIsFree(before, now, src, dst, done, name);
    }
    var from, to := Child(src, name), Child(dst, name);
    if disk.files[from].Dir? {
      var failed, info := disk.Stat(from);
      if failed {
        return 1;
      }
      failed := disk.Mkdir(to, info.mode);
      if failed {
        return 1;
      }
      ghost var made := disk.files;
      OnlyUnderChain(before, now, made, dst, name);
      SubtreeIsTree(before, made, src, dst, name);
      ApartChildren(src, dst, name);
      PlainChildren(src, dst, name);
      BoundedBelow(before, made, src, dst, name, bound);
      if NothingUnder(before, dst) {
        NothingBelowNew(before, now, src, dst, done, name);
        CanCopyBelow(before, now, made, src, dst, name);
      }
      result := BackupTree(disk, from, to, bound);
      OnlyUnderChain(before, made, disk.files, dst, name);
      if result == 0 && NothingUnder(before, dst) {
        DirDone(before, now, made, disk.files, src, dst, done, name);
      }
    } else {
      var error := disk.CopyEntry(from, to);
      OnlyUnderChain(before, now, disk.files, dst, name);
      result := if error then 1 else 0;
      if !error && NothingUnder(before, dst) {
        EntryDone(before, now, disk.files, src, dst, done, name);
      }
    }
  }

  // --- With watches ---

  ghost predicate Watched(entries: seq<Entry>, p: string) {
    exists i :: 0 <= i < |entries| && entries[i].key == p
  }

  ghost predicate KeysDistinct(entries: seq<Entry>) {
    forall i, j :: 0 <= i < j < |entries| ==> entries[i].key != entries[j].key
  }

  ghost predicate IsDirWithin(files: Files, src: string, p: string) {
    Within(src, p) && p in files && files[p].Dir?
  }

  /** A watch on every directory of the tree src, and on nothing else, each once. */
  ghost predicate WatchesTree(files: Files, src: string, entries: seq<Entry>) {
    KeysDistinct(entries) && forall p :: Watched(entries, p) <==> IsDirWithin(files, src, p)
  }

  /** The same, for src itself and what is below the entries named in done. */
  ghost predicate WatchesSome(files: Files, src: string, entries: seq<Entry>, done: set<string>) {
    && KeysDistinct(entries)
    && forall p :: Watched(entries, p) <==>
         IsDirWithin(files, src, p) && (p == src || Head(p[|src| + 1..]) in done)
  }

  lemma WatchedInBoth(a: seq<Entry>, b: seq<Entry>, p: string)
    ensures Watched(a + b, p) <==> Watched(a, p) || Watched(b, p)
  {
    if Watched(a, p) {
      var i :| 0 <= i < |a| && a[i].key == p;
      assert (a + b)[i].key == p;
    }
    if Watched(b, p) {
      var i :| 0 <= i < |b| && b[i].key == p;
      assert (a + b)[|a| + i].key == p;
    }
  }

  lemma WatchFirst(files: Files, src: string, e: Entry)
    requires src in files && files[src].Dir? && e.key == src
    ensures WatchesSome(files, src, [e], {})
  {
    assert [e][0].key == src;
  }

  lemma WatchEntryDone(files: Files, src: string, entries: seq<Entry>, done: set<string>, name: string)
    requires IsTree(files, src) && WatchesSome(files, src, entries, done) && IsName(name)
    requires Child(src, name) in files && !files[Child(src, name)].Dir?
    ensures WatchesSome(files, src, entries, done + {name})
  {
    forall p | IsDirWithin(files, src, p) && p != src ensures Head(p[|src| + 1..]) != name {
      UnderIsChild(src, p);
      FirstComponent(files, src, p[|src| + 1..]);
    }
  }

  lemma WatchDirDone(files: Files, now: Files, src: string, dst: string, entries: seq<Entry>, sub: seq<Entry>,
                     done: set<string>, name: string)
    requires WatchesSome(files, src, entries, done) && IsName(name) && name !in done
    requires Apart(src, dst) && OnlyUnder(files, now, dst)
    requires WatchesTree(now, Child(src, name), sub)
    ensures WatchesSome(files, src, entries + sub, done + {name})
  {
    var x := Child(src, name);
    UnderChild(src, name);
    forall p
      ensures IsDirWithin(now, x, p) <==> IsDirWithin(files, src, p) && p != src && Head(p[|src| + 1..]) == name
    {
      if Within(x, p) {
        if Under(x, p) {
          UnderTransitive(src, x, p);
        }
      }
      if Under(src, p) {
        UnderIsChild(src, p);
        SplitHead(src, name, p[|src| + 1..]);
        ApartTrees(src, dst, p);
      }
    }
    forall p ensures Watched(entries + sub, p) <==>
                     IsDirWithin(files, src, p) && (p == src || Head(p[|src| + 1..]) in done + {name}) {
      WatchedInBoth(entries, sub, p);
    }
    forall i, j | 0 <= i < |entries| && 0 <= j < |sub| ensures entries[i].key != sub[j].key {
      assert Watched(entries, entries[i].key) && Watched(sub, sub[j].key);
    }
  }

  lemma WatchAllDone(files: Files, src: string, entries: seq<Entry>, done: set<string>)
    requires IsTree(files, src) && WatchesSome(files, src, entries, done)
    requires forall n :: IsName(n) && Child(src, n) in files ==> n in done
    ensures WatchesTree(files, src, entries)
  {
    forall p | IsDirWithin(files, src, p) && p != src ensures Head(p[|src| + 1..]) in done {
      UnderIsChild(src, p);
      FirstComponent(files, src, p[|src| + 1..]);
    }
  }

  // --- With descriptors ---

  /** Each of the descriptors bound watches its key, and no two are the same. */
  ghost predicate Watching(watches: Watches, entries: seq<Entry>) {
    && (forall i :: 0 <= i < |entries| ==> entries[i].value in watches && watches[entries[i].value] == entries[i].key)
    && (forall i, j :: 0 <= i < j < |entries| ==> entries[i].value != entries[j].value)
  }

  /** entries are bound to the descriptors opened since before, and to no others. */
  ghost predicate Opened(before: Watches, after: Watches, entries: seq<Entry>) {
    && Watching(after, entries)
    && (forall fd :: fd in before ==> fd in after && after[fd] == before[fd])
    && (forall i :: 0 <= i < |entries| ==> entries[i].value !in before && entries[i].value > 2)
    && (forall fd :: fd in after && fd !in before ==> BoundTo(entries, fd))
  }

  ghost predicate BoundTo(entries: seq<Entry>, fd: int) {
    exists i :: 0 <= i < |entries| && entries[i].value == fd
  }

  lemma OpenedNone(watches: Watches)
    ensures Opened(watches, watches, [])
  {
  }

  lemma OpenedOne(watches: Watches, e: Entry)
    requires e.value !in watches && e.value > 2
    ensures Opened(watches, watches[e.value := e.key], [e])
  {
    assert [e][0].value == e.value;
  }

  lemma OpenedMore(before: Watches, mid: Watches, after: Watches, a: seq<Entry>, b: seq<Entry>)
    requires Opened(before, mid, a) && Opened(mid, after, b)
    ensures Opened(before, after, a + b)
  {
    forall fd | fd in after && fd !in before ensures BoundTo(a + b, fd) {
      if BoundTo(a, fd) {
        var i :| 0 <= i < |a| && a[i].value == fd;
        assert (a + b)[i].value == fd;
      } else {
        assert fd !in mid && BoundTo(b, fd);
        var i :| 0 <= i < |b| && b[i].value == fd;
        assert (a + b)[|a| + i].value == fd;
      }
    }
  }

  lemma {:induction false} BoundHasValue(entries: seq<Entry>, fd: int)
    ensures BoundTo(entries, fd) <==> fd in W.ValuesOf(entries)
  {
    if |entries| > 0 {
      var rest := entries[1..];
      BoundHasValue(rest, fd);
      if BoundTo(rest, fd) {
        var i :| 0 <= i < |rest| && rest[i].value == fd;
        assert entries[i + 1].value == fd;
      }
      forall i | 0 <= i < |entries| && entries[i].value == fd ensures fd == entries[0].value || BoundTo(rest, fd) {
        assert i == 0 || rest[i - 1].value == fd;
      }
    }
  }

  /** Descriptors that are distinct are closed once each when the table is cleared. */
  lemma {:induction false} DistinctClosedOnce(watches: Watches, entries: seq<Entry>, fd: int)
    requires Watching(watches, entries)
    ensures W.ValuesOf(entries)[fd] == if BoundTo(entries, fd) then 1 else 0
  {
    BoundHasValue(entries, fd);
    if |entries| > 0 {
      var rest := entries[1..];
      DistinctClosedOnce(watches, rest, fd);
      forall i | 0 <= i < |rest| ensures rest[i].value != entries[0].value {
        assert entries[i + 1] == rest[i];
      }
    }
  }

  /** What stays open when the descriptors bound are closed. */
  ghost function Unbound(watches: Watches, entries: seq<Entry>): Watches {
    map fd | fd in watches && !BoundTo(entries, fd) :: watches[fd]
  }

  lemma ClosedIsUnbound(watches: Watches, entries: seq<Entry>, closed: seq<int>)
    requires multiset(closed) == W.ValuesOf(entries)
    ensures watches - (set fd | fd in closed) == Unbound(watches, entries)
  {
    forall fd ensures fd in closed <==> BoundTo(entries, fd) {
      BoundHasValue(entries, fd);
      assert fd in closed <==> fd in multiset(closed);
    }
  }

  /** The descriptors open are those bound: each is bound once, to the directory it watches. */
  ghost predicate InStep(watches: Watches, entries: seq<Entry>) {
    Watching(watches, entries) && forall fd :: fd in watches ==> BoundTo(entries, fd)
  }

  /** Clearing the table and filling it anew leaks no descriptor. */
  lemma RefilledInStep(before: Watches, entries: seq<Entry>, after: Watches, watched: seq<Entry>)
    requires Opened(Unbound(before, entries), after, watched)
    ensures InStep(before, entries) ==> InStep(after, watched)
  {
  }

  /** Nor does removing a key, with the descriptor of its oldest binding closed. */
  lemma RemoveInStep(watches: Watches, t: W.Table, key: string)
    requires InStep(watches, t.entries) && IndexOf(t.entries, key) < |t.entries|
    ensures InStep(watches - {W.Lookup(t.entries, key)}, W.Apply(t, W.Remove(key)).entries)
  {
    OneLess(watches, t.entries, IndexOf(t.entries, key));
  }

  lemma OneLess(watches: Watches, entries: seq<Entry>, i: nat)
    requires InStep(watches, entries) && i < |entries|
    ensures InStep(watches - {entries[i].value}, RemoveAt(entries, i))
  {
    var left := RemoveAt(entries, i);
    forall j | 0 <= j < |left| ensures left[j] == entries[if j < i then j else j + 1] {
    }
    hide RemoveAt;
    WatchingLess(watches, entries, i, left);
    forall fd | fd in watches && fd != entries[i].value ensures BoundTo(left, fd) {
      assert BoundTo(entries, fd);
      var j :| 0 <= j < |entries| && entries[j].value == fd;
      assert left[if j < i then j else j - 1] == entries[j];
    }
  }

  lemma WatchingLess(watches: Watches, entries: seq<Entry>, i: nat, left: seq<Entry>)
    requires Watching(watches, entries) && i < |entries| && |left| == |entries| - 1
    requires forall j :: 0 <= j < |left| ==> left[j] == entries[if j < i then j else j + 1]
    ensures Watching(watches - {entries[i].value}, left)
  {
  }

  /** backup_inotify_full: like BackupTree, with a descriptor for every directory in the table. */
  method BackupInotifyFull(disk: Disk, table: HashTable.Table, src: string, dst: string, ghost bound: nat)
    returns (result: int, ghost watched: seq<Entry>)
    requires PlainPair(src, dst) && Apart(src, dst) && IsTree(disk.files, src) && Bounded(disk.files, src, bound)
    requires table.Valid() && table.size > 0 && disk !in table.Repr
    modifies disk, table.Repr
    ensures result == 0 || result == 1
    ensures OnlyUnder(old(disk.files), disk.files, dst)
    ensures table.Valid() && fresh(table.Repr - old(table.Repr)) && table.size == old(table.size)
    ensures table.table.entries == old(table.table.entries) + watched && table.table.closed == old(table.table.closed)
    ensures Opened(old(disk.watches), disk.watches, watched)
    ensures result == 0 ==> src in old(disk.files)
    ensures result == 0 && old(disk.files)[src].Dir? ==> WatchesTree(old(disk.files), src, watched)
    ensures result == 0 && NothingUnder(old(disk.files), dst) && old(disk.files)[src].Dir? ==>
              Copied(old(disk.files), disk.files, src, dst)
    ensures disk.reliable && CanCopy(old(disk.files), src, dst) ==> result == 0
    decreases bound - |src|
  {
    hide PlainPair;
    hide IsTree;
    hide Bounded;
    hide OnlyUnder;
    hide NothingUnder;
    hide CopiedSome;
    hide Copied;
    hide WatchesSome;
    hide WatchesTree;
    hide Opened;
    hide HashTable.Table.Valid;
    hide Apart;
    watched := [];
    NothingWritten(disk.files, dst);
    OpenedNone(disk.watches);
    var failed, info := disk.Stat(src);
    if failed {
      return 1, watched;
    }
    if !info.Dir? {
      return 0, watched;
    }
    var names;
    failed, names := disk.ReadDir(src);
    if failed {
      return 1, watched;
    }
    var fd;
    failed, fd := disk.Watch(src);
    if failed {
      return 1, watched;
    }
    ghost var before, atFirst := disk.files, old(disk.watches);
    OpenedOne(atFirst, Entry(src, fd));
    var hash := table.SetValue(src, fd);
    watched := [Entry(src, fd)];
    WatchFirst(before, src, Entry(src, fd));
    ghost var done: set<string> := {};
    if NothingUnder(before, dst) {
      NothingDone(before, src, dst);
    }
    var i := 0;
    assert Lists(before, src, names);
    hide Lists, Through, IsName, Child;
    while i < |names|
      invariant Through(names, i, done) && before == old(disk.files)
      invariant OnlyUnder(before, disk.files, dst)
      invariant NothingUnder(before, dst) ==> CopiedSome(before, disk.files, src, dst, done)
      invariant table.Valid() && fresh(table.Repr - old(table.Repr)) && disk !in table.Repr
      invariant table.size == old(table.size)
      invariant table.table.entries == old(table.table.entries) + watched
      invariant table.table.closed == old(table.table.closed)
      invariant Opened(atFirst, disk.watches, watched)
      invariant WatchesSome(before, src, watched, done)
    {
      var name := names[i];
      ThroughNext(before, src, names, i, done);
      i := i + 1;
      if name == "." || name == ".." {
        continue;
      }
      ghost var sub, mid := [], disk.watches;
      result, sub := WatchEntry(disk, table, src, dst, name, bound, before, done, watched);
      OpenedMore(atFirst, mid, disk.watches, watched, sub);
      watched := watched + sub;
      if result != 0 {
        return;
      }
      done := done + {name};
    }
    ThroughAll(before, src, names, done);
    WatchAllDone(before, src, watched, done);
    if NothingUnder(before, dst) {
      AllDone(before, disk.files, src, dst, done);
    }
    result := 0;
  }

  method WatchEntry(disk: Disk, table: HashTable.Table, src: string, dst: string, name: string, ghost bound: nat,
                    ghost before: Files, ghost done: set<string>, ghost watched: seq<Entry>)
    returns (result: int, ghost sub: seq<Entry>)
    requires PlainPair(src, dst) && Apart(src, dst) && IsTree(before, src) && Bounded(before, src, bound)
    requires IsName(name) && Child(src, name) in before && name !in done
    requires OnlyUnder(before, disk.files, dst)
    requires NothingUnder(before, dst) ==> CopiedSome(before, disk.files, src, dst, done)
    requires table.Valid() && table.size > 0 && disk !in table.Repr
    requires WatchesSome(before, src, watched, done)
    modifies disk, table.Repr
    ensures result == 0 || result == 1
    ensures OnlyUnder(before, disk.files, dst)
    ensures result == 0 && NothingUnder(before, dst) ==> CopiedSome(before, disk.files, src, dst, done + {name})
    ensures disk.reliable && CanCopy(before, src, dst) ==> result == 0
    ensures table.Valid() && fresh(table.Repr - old(table.Repr)) && table.size == old(table.size)
    ensures table.table.entries == old(table.table.entries) + sub && table.table.closed == old(table.table.closed)
    ensures Opened(old(disk.watches), disk.watches, sub)
    ensures result == 0 ==> WatchesSome(before, src, watched + sub, done + {name})
    decreases bound - |src|, 0
  {
    hide PlainPair;
    hide IsTree;
    hide Bounded;
    hide OnlyUnder;
    hide NothingUnder;
    hide CopiedSome;
    hide Copied;
    hide WatchesSome;
    hide WatchesTree;
    hide Opened;
    hide HashTable.Table.Valid;
    hide Apart;
    ghost var now := disk.files;
    sub := [];
    OpenedNone(disk.watches);
    EntryHere(before, now, src, dst, name);
    if CanCopy(before, src, dst) {
      EntryIsFree(before, now, src, dst, done, name);
    }
    var from, to := Child(src, name), Child(dst, name);
    if disk.files[from].Dir? {
      var failed, info := disk.Stat(from);
      if failed {
        return 1, sub;
      }
      failed := disk.Mkdir(to, info.mode);
      if failed {
        return 1, sub;
      }
      ghost var made := disk.files;
      OnlyUnderChain(before, now, made, dst, name);
      SubtreeIsTree(before, made, src, dst, name);
      ApartChildren(src, dst, name);
      PlainChildren(src, dst, name);
      BoundedBelow(before, made, src, dst, name, bound);
      EntryHere(before, made, src, dst, name);
      if NothingUnder(before, dst) {
        NothingBelowNew(before, now, src, dst, done, name);
        CanCopyBelow(before, now, made, src, dst, name);
      }
      result, sub := BackupInotifyFull(disk, table, from, to, bound);
      OnlyUnderChain(before, made, disk.files, dst, name);
      if result == 0 {
        WatchDirDone(before, made, src, dst, watched, sub, done, name);
        if NothingUnder(before, dst) {
          DirDone(before, now, made, disk.files, src, dst, done, name);
        }
      }
    } else {
      var error := disk.CopyEntry(from, to);
      OnlyUnderChain(before, now, disk.files, dst, name);
      result := if error then 1 else 0;
      assert watched + sub == watched;
      WatchEntryDone(before, src, watched, done, name);
      if !error && NothingUnder(before, dst) {
        EntryDone(before, now, disk.files, src, dst, done, name);
      }
    }
  }
}
