/** The files the daemon sees, and the system calls it makes on them. Every call may fail; when
    it does not, it does what it is documented to do. On a reliable disk a call fails only for what
    the files are: a name missing, of the wrong kind or already taken. The umask is 0
    (daemon/src/daemon/daemon.c:51). */
module FileSystem {
  import opened Paths

  datatype Inode =
    | Dir(mode: int)
    | Reg(mode: int, data: string)
    | Link(target: string)
    | Fifo(mode: int)
    | Other(mode: int)

  type Files = map<string, Inode>

  /** Whatever lies under top has a name and a parent that is a directory. */
  ghost predicate IsTree(files: Files, top: string) {
    forall p :: p in files && Under(top, p) ==>
      exists d, n :: IsName(n) && p == Child(d, n) && Within(top, d) && d in files && files[d].Dir?
  }

  const MAX_LEN := 4096

  /** The directory that p is an entry of exists. */
  ghost predicate HasParent(files: Files, p: string) {
    exists d, n :: IsName(n) && p == Child(d, n) && d in files && files[d].Dir?
  }

  /** A name at which something can be made. */
  ghost predicate Free(files: Files, p: string) {
    p !in files && HasParent(files, p)
  }

  function WithMode(i: Inode, mode: int): Inode {
    match i
    case Dir(_) => Dir(mode)
    case Reg(_, data) => Reg(mode, data)
    case Link(target) => Link(target)
    case Fifo(_) => Fifo(mode)
    case Other(_) => Other(mode)
  }

  /** The inotify descriptors that are open, and the directory each one watches. */
  type Watches = map<int, string>

  lemma {:induction false} FreeDescriptor(s: set<int>) returns (fd: int)
    ensures fd > 2 && forall x :: x in s ==> x < fd
    decreases |s|
  {
    if x :| x in s {
      fd := FreeDescriptor(s - {x});
      fd := if x < fd then fd else x + 1;
      assert forall y :: y in s ==> y == x || y in s - {x};
    } else {
      fd := 3;
    }
  }

  class Disk {
    var files: Files
    var watches: Watches
    const reliable: bool

    /** Nothing is known about when a call fails, unless the disk is reliable. */
    method Fails() returns (failed: bool)
      ensures reliable ==> !failed
    {
      failed := *;
      failed := failed && !reliable;
    }

    /** inotify_init1 and inotify_add_watch: a new descriptor, behind those of the standard streams, that
        watches the directory. When the second call fails the program closes what the first one gave. */
    method Watch(path: string) returns (failed: bool, fd: int)
      modifies this`watches
      ensures reliable ==> !failed
      ensures failed ==> watches == old(watches)
      ensures !failed ==> fd > 2 && fd !in old(watches) && watches == old(watches)[fd := path]
    {
      failed := Fails();
      if failed {
        return true, -1;
      }
      ghost var free := FreeDescriptor(watches.Keys);
      assert free > 2 && free !in watches;
      fd :| fd > 2 && fd !in watches;
      watches := watches[fd := path];
    }

    /** close, of each descriptor. */
    method Close(fds: seq<int>)
      modifies this`watches
      ensures watches == old(watches) - set fd | fd in fds
    {
      watches := watches - set fd | fd in fds;
    }

    /** opendir and the entries readdir gives, in no particular order. */
    method ReadDir(path: string) returns (failed: bool, names: seq<string>)
      requires path in files && files[path].Dir?
      ensures reliable ==> !failed
      ensures !failed ==> (forall i, j :: 0 <= i < j < |names| ==> names[i] != names[j])
      ensures !failed ==> forall n :: n in names <==> n == "." || n == ".." || (IsName(n) && Child(path, n) in files)
    {
      failed := Fails();
      if failed {
        return true, [];
      }
      names := [".", ".."];
      ghost var all := set p | p in files && IsEntry(path, p);
      var todo := set p | p in files && IsEntry(path, p);
      while todo != {}
        invariant todo <= all
        invariant forall i, j :: 0 <= i < j < |names| ==> names[i] != names[j]
        invariant forall n :: n in names <==>
                    n == "." || n == ".." || (IsName(n) && Child(path, n) in files && Child(path, n) !in todo)
        decreases |todo|
      {
        var p :| p in todo;
        var n := p[|path| + 1..];
        assert p == Child(path, n);
        names := names + [n];
        todo := todo - {p};
      }
    }

    predicate IsEntry(path: string, p: string) {
      Under(path, p) && IsName(p[|path| + 1..])
    }

    /** stat of something that is not a link. */
    method Stat(path: string) returns (failed: bool, info: Inode)
      ensures !failed ==> path in files && info == files[path] && !info.Link?
      ensures reliable && path in files && !files[path].Link? ==> !failed
    {
      failed := Fails();
      if failed || path !in files || files[path].Link? {
        return true, Other(0);
      }
      info := files[path];
    }

    method Make(path: string, node: Inode) returns (failed: bool)
      modifies this`files
      ensures failed ==> files == old(files)
      ensures !failed ==> path !in old(files) && files == old(files)[path := node]
      ensures reliable && Free(old(files), path) ==> !failed
    {
      failed := Fails();
      if failed || path in files {
        return true;
      }
      files := files[path := node];
    }

    method MkFifo(path: string, mode: int) returns (failed: bool)
      modifies this`files
      ensures failed ==> files == old(files)
      ensures !failed ==> path !in old(files) && files == old(files)[path := Fifo(mode)]
      ensures reliable && Free(old(files), path) ==> !failed
    {
      failed := Make(path, Fifo(mode));
    }

    method Mkdir(path: string, mode: int) returns (failed: bool)
      modifies this`files
      ensures failed ==> files == old(files)
      ensures !failed ==> path !in old(files) && files == old(files)[path := Dir(mode)]
      ensures reliable && Free(old(files), path) ==> !failed
    {
      failed := Make(path, Dir(mode));
    }

    method Symlink(target: string, path: string) returns (failed: bool)
      modifies this`files
      ensures failed ==> files == old(files)
      ensures !failed ==> path !in old(files) && files == old(files)[path := Link(target)]
      ensures reliable && Free(old(files), path) ==> !failed
    {
      failed := Make(path, Link(target));
    }

    method ReadLink(path: string) returns (failed: bool, target: string)
      ensures !failed ==> path in files && files[path] == Link(target)
      ensures reliable && path in files && files[path].Link? ==> !failed
    {
      failed := Fails();
      if failed || path !in files || !files[path].Link? {
        return true, "";
      }
      target := files[path].target;
    }

    method Chmod(path: string, mode: int) returns (failed: bool)
      modifies this`files
      ensures failed ==> files == old(files)
      ensures !failed ==> path in old(files) && files == old(files)[path := WithMode(old(files)[path], mode)]
      ensures reliable && path in old(files) ==> !failed
    {
      failed := Fails();
      if failed || path !in files {
        return true;
      }
      files := files[path := WithMode(files[path], mode)];
    }

    /** open with O_WRONLY | O_CREAT | O_TRUNC and mode 0666, on a new or regular file. */
    method Create(path: string) returns (failed: bool)
      modifies this`files
      ensures failed ==> files == old(files)
      ensures !failed ==> exists mode :: files == old(files)[path := Reg(mode, "")]
      ensures reliable && Free(old(files), path) ==> !failed
    {
      failed := Fails();
      if failed || (path in files && !files[path].Reg?) {
        return true;
      }
      var mode := if path in files then files[path].mode else 438;
      files := files[path := Reg(mode, "")];
    }

    /** read of at most MAX_LEN bytes at offset at, before the end of the file. */
    method Read(path: string, at: nat) returns (failed: bool, chunk: string)
      requires path in files && files[path].Reg? && at < |files[path].data|
      ensures reliable ==> !failed
      ensures !failed ==> 0 < |chunk| <= MAX_LEN && at + |chunk| <= |files[path].data|
      ensures !failed ==> chunk == files[path].data[at..at + |chunk|]
    {
      failed := Fails();
      if failed {
        return true, "";
      }
      var left := |files[path].data| - at;
      var n: nat :| 0 < n <= left && n <= MAX_LEN;
      chunk := files[path].data[at..at + n];
    }

    /** write appends some prefix of the chunk and says how much. */
    method Write(path: string, chunk: string) returns (failed: bool, n: nat)
      requires path in files && files[path].Reg?
      modifies this`files
      ensures n <= |chunk| && (failed ==> n == 0)
      ensures reliable ==> !failed && n == |chunk|
      ensures files == old(files)[path := Reg(old(files)[path].mode, old(files)[path].data + chunk[..n])]
    {
      failed := Fails();
      if failed {
        n := 0;
      } else {
        n :| 0 <= n <= |chunk| && (reliable ==> n == |chunk|);
      }
      files := files[path := Reg(files[path].mode, files[path].data + chunk[..n])];
    }

    /** copy_file */
    method CopyFile(src: string, dst: string) returns (error: bool)
      requires src in files && files[src].Reg?
      modifies this`files
      ensures forall p :: p != dst ==> (p in files <==> p in old(files)) && (p in files ==> files[p] == old(files)[p])
      ensures !error ==> dst in files && files[dst].Reg? && files[dst].data == old(files)[src].data
      ensures reliable && Free(old(files), dst) ==> !error
    {
      if src == dst {
        return false;
      }
      error := Create(dst);
      if error {
        return;
      }
      ghost var before := files;
      var size := |files[src].data|;
      var at := 0;
      while size > 0
        invariant 0 <= size && at + size == |before[src].data| && !error
        invariant dst in files && files[dst].Reg? && files[dst].data == before[src].data[..at]
        invariant files == before[dst := files[dst]]
        decreases size
      {
        var chunk, n;
        error, chunk := Read(src, at);
        if error {
          return;
        }
        error, n := Write(dst, chunk);
        if error || n != |chunk| {
          return true;
        }
        assert before[src].data[..at] + chunk == before[src].data[..at + n];
        at := at + n;
        size := size - n;
      }
      assert before[src].data[..at] == before[src].data;
    }

    /** copy_link */
    method CopyLink(src: string, dst: string) returns (error: bool)
      modifies this`files
      ensures forall p :: p != dst ==> (p in files <==> p in old(files)) && (p in files ==> files[p] == old(files)[p])
      ensures !error && src != dst ==> src in old(files) && dst in files && files[dst] == old(files)[src]
      ensures reliable && src in old(files) && old(files)[src].Link? && Free(old(files), dst) ==> !error
    {
      if src == dst {
        return false;
      }
      var target;
      error, target := ReadLink(src);
      if error {
        return;
      }
      error := Symlink(target, dst);
    }

    /** The cases of backup's switch for entries that are not directories. */
    method CopyEntry(src: string, dst: string) returns (error: bool)
      requires src in files && src != dst && !files[src].Dir?
      modifies this`files
      ensures forall p :: p != dst ==> (p in files <==> p in old(files)) && (p in files ==> files[p] == old(files)[p])
      ensures !error ==> if old(files)[src].Other? then files == old(files)
                         else dst in files && files[dst] == old(files)[src]
      ensures reliable && Free(old(files), dst) ==> !error
    {
      match files[src]
      case Fifo(_) =>
        var info;
        error, info := Stat(src);
        if error {
          return;
        }
        error := MkFifo(dst, info.mode);
      case Reg(_, _) =>
        var info;
        error, info := Stat(src);
        if error {
          return;
        }
        error := CopyFile(src, dst);
        if error {
          return;
        }
        error := Chmod(dst, info.mode);
      case Link(_) =>
        error := CopyLink(src, dst);
      case Other(_) =>
        error := false;
    }
  }
}
