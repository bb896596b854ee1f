/** One backup from the textual check of the two paths to the filled version directory: the
    SIGALRM case of the main loop (daemon/src/daemon/main.c:58-107) and the full inotify backup
    (daemon/src/daemon/backup.c:334-405). */
module BackupRun {
  import opened Paths
  import opened Directories
  import opened FileSystem
  import opened BackupSpec
  import opened Backup
  import opened ListPointer
  import HashTable

  datatype Outcome = Ignored | Shutdown | NotCompleted | Completed

  /** A directory, or a name at which one can be made. */
  ghost predicate Usable(files: Files, dst: string) {
    (dst in files && files[dst].Dir?) || Free(files, dst)
  }

  /** check_dst: opens the directory, making it when it does not exist. */
  method CheckDst(disk: Disk, dst: string) returns (ok: bool)
    modifies disk`files
    ensures forall p :: p != dst ==>
              (p in disk.files <==> p in old(disk.files)) && (p in disk.files ==> disk.files[p] == old(disk.files)[p])
    ensures dst in old(disk.files) ==> disk.files == old(disk.files)
    ensures ok ==> dst in disk.files && disk.files[dst].Dir?
    ensures disk.reliable && Usable(old(disk.files), dst) ==> ok
  {
    var failed := disk.Fails();
    if failed {
      return false;
    }
    if dst !in disk.files {
      failed := disk.Mkdir(dst, 438);
      return !failed;
    }
    ok := disk.files[dst].Dir?;
  }

  /** Nothing has changed but the entries of dst and the version directory v themselves. */
  ghost predicate OnlyPrepared(before: Files, after: Files, dst: string, v: string) {
    forall p :: p != dst && p != v ==>
      (p in after <==> p in before) && (p in before && p in after ==> after[p] == before[p])
  }

  /** What a first backup into v needs: a source directory and somewhere to put the copy. */
  ghost predicate CanPrepare(files: Files, src: string, dst: string, v: string) {
    && src in files && files[src].Dir? && Usable(files, dst)
    && v !in files && exists leaf :: IsName(leaf) && v == Child(dst, leaf)
  }

  /** Makes both directories and gives the version directory the mode of the source. */
  method Prepare(disk: Disk, src: string, dst: string, v: string) returns (ok: bool)
    requires dst != v && src != dst && src != v
    modifies disk`files
    ensures OnlyPrepared(old(disk.files), disk.files, dst, v)
    ensures ok ==> src in old(disk.files) && v in disk.files
    ensures ok && v !in old(disk.files) && old(disk.files)[src].Dir? ==> disk.files[v] == old(disk.files)[src]
    ensures disk.reliable && CanPrepare(old(disk.files), src, dst, v) ==> ok
  {
    ok := CheckDst(disk, dst);
    if !ok {
      return;
    }
    assert CanPrepare(old(disk.files), src, dst, v) ==> Free(disk.files, v);
    ok := CheckDst(disk, v);
    if !ok {
      return;
    }
    var failed, info := disk.Stat(src);
    if failed {
      return false;
    }
    var mode := match info
      case Dir(m) => m
      case Reg(m, _) => m
      case Fifo(m) => m
      case Other(m) => m
      case Link(_) => 0;
    failed := disk.Chmod(v, mode);
    ok := !failed;
  }

  lemma TreeAfterPrepare(before: Files, ready: Files, src: string, dst: string, v: string)
    requires IsTree(before, src) && OnlyPrepared(before, ready, dst, v)
    requires !Within(src, dst) && Apart(src, v)
    ensures IsTree(ready, src)
  {
    forall p | p in ready && Under(src, p)
      ensures exists d, n :: IsName(n) && p == Child(d, n) && Within(src, d) && d in ready && ready[d].Dir?
    {
      var d, n :| IsName(n) && p == Child(d, n) && Within(src, d) && d in before && before[d].Dir?;
      assert d in ready && ready[d].Dir?;
    }
  }

  /** The version directory v holds a copy of the tree src as it was: same entries, contents, link
      targets and modes, its own mode included. */
  ghost predicate VersionOf(before: Files, after: Files, src: string, v: string) {
    && src in before && v in after && after[v] == before[src]
    && forall r :: SameAt(before, after, src, v, r, true)
  }

  ghost predicate NothingWithin(files: Files, v: string) {
    forall p :: p in files ==> !Within(v, p)
  }

  /** What is not dst and not in the version directory is as it was. */
  ghost predicate OnlyVersion(before: Files, after: Files, dst: string, v: string) {
    forall p :: p != dst && !Within(v, p) ==>
      (p in after <==> p in before) && (p in before && p in after ==> after[p] == before[p])
  }

  lemma NothingVersioned(files: Files, dst: string, v: string)
    ensures OnlyVersion(files, files, dst, v)
  {
  }

  lemma VersionMade(before: Files, ready: Files, after: Files, src: string, dst: string, v: string)
    requires OnlyPrepared(before, ready, dst, v) && Copied(ready, after, src, v)
    requires !Within(src, dst) && Apart(src, v) && src in before && v in ready && ready[v] == before[src]
    ensures VersionOf(before, after, src, v)
  {
    forall r ensures SameAt(before, after, src, v, r, true) {
      assert SameAt(ready, after, src, v, r, true);
      UnderChild(src, r);
    }
  }

  lemma NothingUnderReady(before: Files, ready: Files, dst: string, v: string)
    requires NothingWithin(before, v) && OnlyPrepared(before, ready, dst, v) && !Under(v, dst)
    ensures NothingUnder(ready, v) && v !in before
  {
    assert Within(v, v);
  }

  /** Two directories that pass the check, and no version of that name yet. */
  ghost predicate CanBackup(files: Files, src: string, dst: string, sep: string, date: string) {
    && CheckIncludeDirectory(src, dst) == 0 && src in files && files[src].Dir?
    && Usable(files, dst) && NothingWithin(files, NewVersionDir(dst, sep, date))
  }

  lemma CanPrepareFirst(files: Files, src: string, dst: string, sep: string, date: string)
    requires NoSlash(sep) && NoSlash(date) && PlainPair(src, dst) && src != dst
    ensures CanBackup(files, src, dst, sep, date) ==> CanPrepare(files, src, dst, NewVersionDir(dst, sep, date))
  {
    hide PlainPair, Disjoint, Resolve, CheckIncludeDirectory, Usable;
    if CanBackup(files, src, dst, sep, date) {
      DestinationIsOutside(src, dst, sep, date);
      assert Within(NewVersionDir(dst, sep, date), NewVersionDir(dst, sep, date));
    }
  }

  lemma CanCopyNext(before: Files, ready: Files, src: string, dst: string, sep: string, date: string)
    requires NoSlash(sep) && NoSlash(date) && PlainPair(src, dst) && src != dst
    requires CanBackup(before, src, dst, sep, date) && OnlyPrepared(before, ready, dst, NewVersionDir(dst, sep, date))
    requires NewVersionDir(dst, sep, date) in ready && ready[NewVersionDir(dst, sep, date)] == before[src]
    ensures CanCopy(ready, src, NewVersionDir(dst, sep, date))
  {
    DestinationIsOutside(src, dst, sep, date);
    NothingUnderReady(before, ready, dst, NewVersionDir(dst, sep, date));
  }

  lemma DestinationIsOutside(src: string, dst: string, sep: string, date: string)
    requires PlainPair(src, dst) && src != dst
    requires CheckIncludeDirectory(src, dst) == 0 && NoSlash(sep) && NoSlash(date)
    ensures Disjoint(Resolve(src), Resolve(NewVersionDir(dst, sep, date)))
    ensures PlainPair(src, NewVersionDir(dst, sep, date))
    ensures var v := NewVersionDir(dst, sep, date);
            Apart(src, v) && !Within(src, dst) && Under(dst, v) && !Under(v, dst) &&
            IsName(sep + "-" + date) && v == Child(dst, sep + "-" + date)
  {
    CheckSeparates(src, dst, sep, date);
    TextsApart(src, dst, sep, date);
    CheckSeesNesting(src, dst);
    VersionIsEntry(dst, sep, date);
    PlainChildren(src, dst, sep + "-" + date);
    UnderChild(dst, sep + "-" + date);
  }

  /** A classic backup. A shutdown comes before anything is copied, and a copy that is begun has its version
      directory. When it completes into one that did not exist, that directory is the source tree; in every
      case the source is left as it was. */
  method ClassicBackup(disk: Disk, src: string, dst: string, date: string) returns (outcome: Outcome)
    requires IsTree(disk.files, src) && NoSlash(date) && PlainPair(src, dst) && src != dst
    modifies disk`files
    ensures outcome == Ignored <==> CheckIncludeDirectory(src, dst) != 0
    ensures outcome == Ignored ==> disk.files == old(disk.files)
    ensures outcome != Ignored ==> Disjoint(Resolve(src), Resolve(NewVersionDir(dst, "scr", date)))
    ensures OnlyVersion(old(disk.files), disk.files, dst, NewVersionDir(dst, "scr", date))
    ensures outcome != Ignored ==> forall p :: Within(src, p) ==>
              (p in disk.files <==> p in old(disk.files)) && (p in disk.files ==> disk.files[p] == old(disk.files)[p])
    ensures outcome == Completed && NothingWithin(old(disk.files), NewVersionDir(dst, "scr", date)) &&
            src in old(disk.files) && old(disk.files)[src].Dir? ==>
              VersionOf(old(disk.files), disk.files, src, NewVersionDir(dst, "scr", date))
    ensures outcome == Shutdown ==> OnlyPrepared(old(disk.files), disk.files, dst, NewVersionDir(dst, "scr", date))
    ensures outcome == NotCompleted || outcome == Completed ==> NewVersionDir(dst, "scr", date) in disk.files
    ensures disk.reliable && CanBackup(old(disk.files), src, dst, "scr", date) ==> outcome == Completed
  {
    if CheckIncludeDirectory(src, dst) != 0 {
      return Ignored;
    }
    var v := NewVersionDir(dst, "scr", date);
    DestinationIsOutside(src, dst, "scr", date);
    ghost var before := disk.files;
    CanPrepareFirst(before, src, dst, "scr", date);
    var ok := Prepare(disk, src, dst, v);
    ghost var ready := disk.files;
    TreeAfterPrepare(before, ready, src, dst, v);
    SourceApart(before, ready, ready, src, dst, v);
    if !ok {
      return Shutdown;
    }
    if CanBackup(before, src, dst, "scr", date) {
      CanPrepareFirst(before, src, dst, "scr", date);
      CanCopyNext(before, ready, src, dst, "scr", date);
    }
    EveryTreeIsBounded(ready, src);
    ghost var bound: nat :| Bounded(ready, src, bound);
    var result := BackupTree(disk, src, v, bound);
    SourceApart(before, ready, disk.files, src, dst, v);
    outcome := if result == 0 then Completed else NotCompleted;
    if result == 0 && NothingWithin(before, v) && before[src].Dir? {
      NothingUnderReady(before, ready, dst, v);
      VersionMade(before, ready, disk.files, src, dst, v);
    }
  }

  lemma TopStays(ready: Files, after: Files, v: string)
    requires OnlyUnder(ready, after, v)
    ensures v in after <==> v in ready
  {
  }

  lemma SourceApart(before: Files, ready: Files, after: Files, src: string, dst: string, v: string)
    requires OnlyPrepared(before, ready, dst, v) && OnlyUnder(ready, after, v) && !Within(src, dst) && Apart(src, v)
    ensures OnlyVersion(before, after, dst, v)
    ensures forall p :: Within(src, p) ==>
              (p in after <==> p in before) && (p in after && p in before ==> after[p] == before[p])
  {
    forall p | Within(src, p)
      ensures (p in after <==> p in before) && (p in after && p in before ==> after[p] == before[p])
    {
      ApartTrees(src, v, p);
    }
  }

  /** A full inotify backup. It first clears the table, closing what was bound; what it then binds are
      new descriptors, each watching its key. When it completes, the table watches every directory of
      the source tree once and nothing else, and the version directory is as above. */
  method FullInotifyBackup(disk: Disk, table: HashTable.Table, src: string, dst: string, date: string)
    returns (outcome: Outcome)
    requires IsTree(disk.files, src) && NoSlash(date) && PlainPair(src, dst) && src != dst
    requires table.Valid() && table.size > 0 && disk !in table.Repr
    modifies disk, table.Repr
    ensures table.Valid() && fresh(table.Repr - old(table.Repr))
    ensures outcome == Ignored <==> CheckIncludeDirectory(src, dst) != 0
    ensures outcome == Ignored ==> disk.files == old(disk.files) && table.table.entries == []
    ensures Opened(Unbound(old(disk.watches), old(table.table.entries)), disk.watches, table.table.entries)
    ensures InStep(old(disk.watches), old(table.table.entries)) ==> InStep(disk.watches, table.table.entries)
    ensures outcome != Ignored ==> Disjoint(Resolve(src), Resolve(NewVersionDir(dst, "scr-inotify", date)))
    ensures OnlyVersion(old(disk.files), disk.files, dst, NewVersionDir(dst, "scr-inotify", date))
    ensures outcome == Completed && src in old(disk.files) && old(disk.files)[src].Dir? ==>
              WatchesTree(old(disk.files), src, table.table.entries)
    ensures outcome == Completed && NothingWithin(old(disk.files), NewVersionDir(dst, "scr-inotify", date)) &&
            src in old(disk.files) && old(disk.files)[src].Dir? ==>
              VersionOf(old(disk.files), disk.files, src, NewVersionDir(dst, "scr-inotify", date))
    ensures outcome == Shutdown ==>
              OnlyPrepared(old(disk.files), disk.files, dst, NewVersionDir(dst, "scr-inotify", date))
    ensures outcome == NotCompleted || outcome == Completed ==> NewVersionDir(dst, "scr-inotify", date) in disk.files
    ensures disk.reliable && CanBackup(old(disk.files), src, dst, "scr-inotify", date) ==> outcome == Completed
  {
    hide Resolve, PlainPair, Disjoint;
    hide HashTable.Table.Valid;
    hide CheckIncludeDirectory;
    hide NewVersionDir;
    hide IsTree;
    hide Bounded;
    hide Copied;
    hide OnlyPrepared;
    hide OnlyVersion;
    hide VersionOf;
    hide WatchesTree;
    hide OnlyUnder;
    hide NothingUnder;
    hide NothingWithin;
    hide Opened, InStep, Unbound;
    ghost var openThen, watchedThen := disk.watches, table.table.entries;
    var closed := table.Clear();
    disk.Close(closed);
    ClosedIsUnbound(openThen, watchedThen, closed);
    OpenedNone(disk.watches);
    RefilledInStep(openThen, watchedThen, disk.watches, []);
    NothingVersioned(disk.files, dst, NewVersionDir(dst, "scr-inotify", date));
    if CheckIncludeDirectory(src, dst) != 0 {
      return Ignored;
    }
    var v := NewVersionDir(dst, "scr-inotify", date);
    DestinationIsOutside(src, dst, "scr-inotify", date);
    ghost var before := disk.files;
    CanPrepareFirst(before, src, dst, "scr-inotify", date);
    var ok := Prepare(disk, src, dst, v);
    ghost var ready := disk.files;
    TreeAfterPrepare(before, ready, src, dst, v);
    NothingWritten(ready, v);
    SourceApart(before, ready, ready, src, dst, v);
    if !ok {
      return Shutdown;
    }
    if CanBackup(before, src, dst, "scr-inotify", date) {
      CanPrepareFirst(before, src, dst, "scr-inotify", date);
      CanCopyNext(before, ready, src, dst, "scr-inotify", date);
    }
    EveryTreeIsBounded(ready, src);
    ghost var bound: nat :| Bounded(ready, src, bound);
    var result, watched := BackupInotifyFull(disk, table, src, v, bound);
    SourceApart(before, ready, disk.files, src, dst, v);
    outcome := if result == 0 then Completed else NotCompleted;
    assert table.table.entries == watched;
    RefilledInStep(openThen, watchedThen, disk.watches, watched);
    TopStays(ready, disk.files, v);
    if result == 0 && before[src].Dir? {
      WatchesSameTree(before, ready, src, watched);
      if NothingWithin(before, v) {
        NothingUnderReady(before, ready, dst, v);
        VersionMade(before, ready, disk.files, src, dst, v);
      }
    }
  }

  lemma WatchesSameTree(before: Files, ready: Files, src: string, watched: seq<Entry>)
    requires WatchesTree(ready, src, watched)
    requires forall p :: Within(src, p) ==>
               (p in ready <==> p in before) && (p in ready && p in before ==> ready[p] == before[p])
    ensures WatchesTree(before, src, watched)
  {
    forall p ensures IsDirWithin(before, src, p) <==> IsDirWithin(ready, src, p) {
    }
  }
}
