/** create_directories (daemon/src/daemon/backup.c:769-796): makes the directories above a new file
    of the version directory, walking over the slashes of two names at once. */
module CreateDirectories {
  import opened Paths
  import opened FileSystem

  const NUL: char := '\0'

  predicate NulFree(s: string) {
    NUL !in s
  }

  /** The C string in a buffer. */
  function CStr(buf: seq<char>): (s: string)
    ensures NulFree(s) && s <= buf && (|s| < |buf| ==> buf[|s|] == NUL)
  {
    if buf == [] || buf[0] == NUL then "" else [buf[0]] + CStr(buf[1..])
  }

  /** strchr(s + at, '/'), as an index; |s| stands for the null pointer. */
  function NextSlash(s: string, at: nat): (k: nat)
    requires at <= |s|
    ensures at <= k <= |s| && (k < |s| ==> s[k] == '/')
    ensures forall i :: at <= i < k ==> s[i] != '/'
    decreases |s| - at
  {
    if at == |s| || s[at] == '/' then at else NextSlash(s, at + 1)
  }

  /** The two names have the same tail, so their slashes are at the same places in it. */
  lemma {:induction false} SlashesInStep(a: string, b: string, i: nat, j: nat)
    requires i <= |a| && j <= |b| && a[i..] == b[j..]
    ensures NextSlash(a, i) - i == NextSlash(b, j) - j
    decreases |a| - i
  {
    assert |a| - i == |a[i..]| == |b[j..]| == |b| - j;
    if i < |a| {
      assert a[i] == a[i..][0] == b[j..][0] == b[j];
      assert a[i + 1..] == a[i..][1..] == b[j..][1..] == b[j + 1..];
      SlashesInStep(a, b, i + 1, j + 1);
    }
  }

  /** The buffer holds exactly s and is zero behind it. */
  ghost predicate Holds(buf: array<char>, s: string)
    reads buf
  {
    |s| < buf.Length && buf[..|s|] == s && forall i :: |s| <= i < buf.Length ==> buf[i] == NUL
  }

  lemma {:induction false} CStrOf(buf: seq<char>, s: string)
    requires NulFree(s) && |s| < |buf| && s <= buf && buf[|s|] == NUL
    ensures CStr(buf) == s
    decreases s
  {
    if s != "" {
      assert buf[0] == s[0] && s[0] in s;
      CStrOf(buf[1..], s[1..]);
    }
  }

  /** strncpy of the first n characters of a longer string: no terminator is added. */
  method StrNCpy(buf: array<char>, s: string, n: nat)
    requires n <= |s| && n <= buf.Length
    modifies buf
    ensures buf[..n] == s[..n] && buf[n..] == old(buf[n..])
  {
    for i := 0 to n
      invariant forall j :: 0 <= j < i ==> buf[j] == s[j]
      invariant forall j :: i <= j < buf.Length ==> buf[j] == old(buf[j])
    {
      buf[i] := s[i];
    }
  }

  method Extend(buf: array<char>, s: string, ghost before: nat, n: nat)
    requires NulFree(s) && before <= n <= |s| && n < buf.Length && Holds(buf, s[..before])
    modifies buf
    ensures Holds(buf, s[..n]) && CStr(buf[..]) == s[..n]
  {
    StrNCpy(buf, s, n);
    forall i | n <= i < buf.Length ensures buf[i] == NUL {
      assert buf[i] == buf[n..][i - n] == old(buf[n..])[i - n];
    }
    CStrOf(buf[..], s[..n]);
  }

  /** The proper ancestors of dstName below dstDir. */
  predicate IsAncestor(dstName: string, dstDir: string, p: string) {
    exists k :: |dstDir| < k < |dstName| && dstName[k] == '/' && p == dstName[..k]
  }

  /** Directories new since before lie on the way to dstName and have the modes of the source's. */
  ghost predicate MadeLike(before: Files, now: Files, dstDir: string, srcDir: string) {
    forall r :: Child(dstDir, r) in now && Child(dstDir, r) !in before ==>
      Child(srcDir, r) in now && !now[Child(srcDir, r)].Link? &&
      now[Child(dstDir, r)] == Dir(now[Child(srcDir, r)].mode)
  }

  /** Every slash of name between from and at ends the name of something that exists. */
  ghost predicate Walked(files: Files, name: string, from: nat, at: nat) {
    at <= |name| && forall k :: from < k < at && name[k] == '/' ==> name[..k] in files
  }

  lemma WalkOn(was: Files, now: Files, name: string, from: nat, at: nat)
    requires Walked(was, name, from, at) && at < |name| && was.Keys <= now.Keys
    requires name[..at] in now
    ensures Walked(now, name, from, NextSlash(name, at + 1))
  {
  }

  // --- When every directory gets made ---

  /** Between two slashes of name there is nothing but proper names. */
  predicate ProperFrom(name: string, from: nat) {
    forall i, j :: from <= i < j < |name| && name[i] == '/' && name[j] == '/' && NoSlash(name[i + 1..j]) ==>
      IsName(name[i + 1..j])
  }

  /** Nothing but directories is in the way, and there is one to start from. */
  ghost predicate WayIsClear(files: Files, dstName: string, dstDir: string) {
    && ProperFrom(dstName, |dstDir|) && dstDir in files && files[dstDir].Dir?
    && forall p :: IsAncestor(dstName, dstDir, p) && p in files ==> files[p].Dir?
  }

  ghost predicate Made(files: Files, name: string, from: nat, at: nat) {
    at <= |name| && forall k :: from <= k < at && name[k] == '/' ==> name[..k] in files && files[name[..k]].Dir?
  }

  function LastSlash(s: string, from: nat, at: nat): (k: nat)
    requires from < at <= |s| && s[from] == '/'
    ensures from <= k < at && s[k] == '/' && NoSlash(s[k + 1..at])
    decreases at
  {
    if s[at - 1] == '/' then at - 1 else LastSlash(s, from, at - 1)
  }

  lemma ParentMade(files: Files, name: string, from: nat, at: nat)
    requires from < at < |name| && name[from] == '/' && name[at] == '/'
    requires ProperFrom(name, from) && Made(files, name, from, at)
    ensures HasParent(files, name[..at])
  {
    var k := LastSlash(name, from, at);
    assert name[..at] == Child(name[..k], name[k + 1..at]);
  }

  lemma MadeOn(was: Files, now: Files, name: string, from: nat, at: nat)
    requires Made(was, name, from, at) && at < |name|
    requires forall p :: p in was ==> p in now && now[p] == was[p]
    requires name[..at] in now && now[name[..at]].Dir?
    ensures Made(now, name, from, NextSlash(name, at + 1))
  {
  }

  /** What is new since before are directories on the way to dstName. */
  ghost predicate Grown(before: Files, now: Files, dstName: string, dstDir: string, srcDir: string) {
    && (forall p :: p in before ==> p in now && now[p] == before[p])
    && (forall p :: p in now && p !in before ==> IsAncestor(dstName, dstDir, p) && now[p].Dir?)
    && (Apart(srcDir, dstDir) ==> MadeLike(before, now, dstDir, srcDir))
  }

  /** The new directory has the mode of the source directory at the same relative path. */
  lemma OneMade(was: Files, now: Files, dstName: string, dstDir: string, srcName: string, srcDir: string,
                rel: string, d: nat, s: nat)
    requires srcName == Child(srcDir, rel) && dstName == Child(dstDir, rel) && Apart(srcDir, dstDir)
    requires |dstDir| < d < |dstName| && d - |dstDir| == s - |srcDir| && s < |srcName|
    requires srcName[..s] in was && !was[srcName[..s]].Link?
    requires now == was || (dstName[..d] !in was && now == was[dstName[..d] := Dir(was[srcName[..s]].mode)])
    ensures MadeLike(was, now, dstDir, srcDir)
  {
    forall r | Child(dstDir, r) in now && Child(dstDir, r) !in was
      ensures Child(srcDir, r) == srcName[..s] && srcName[..s] != dstName[..d]
    {
      assert Child(dstDir, r) == dstName[..d];
      assert r == Child(dstDir, r)[|dstDir| + 1..] == dstName[..d][|dstDir| + 1..] == rel[..d - |dstDir| - 1];
      assert Child(srcDir, r) == srcName[..s];
    }
  }

  lemma GrowsBy(before: Files, was: Files, now: Files, dstName: string, dstDir: string, srcName: string, srcDir: string,
                rel: string, d: nat, s: nat)
    requires Grown(before, was, dstName, dstDir, srcDir)
    requires srcName == Child(srcDir, rel) && dstName == Child(dstDir, rel)
    requires |dstDir| < d < |dstName| && d - |dstDir| == s - |srcDir| && s < |srcName| && dstName[d] == '/'
    requires srcName[..s] in was && !was[srcName[..s]].Link?
    requires now == was || (dstName[..d] !in was && now == was[dstName[..d] := Dir(was[srcName[..s]].mode)])
    ensures Grown(before, now, dstName, dstDir, srcDir)
  {
    assert IsAncestor(dstName, dstDir, dstName[..d]);
    if Apart(srcDir, dstDir) {
      OneMade(was, now, dstName, dstDir, srcName, srcDir, rel, d, s);
    }
  }

  lemma NewOneMade(before: Files, was: Files, now: Files, dstName: string, dstDir: string, srcDir: string, d: nat)
    requires |dstDir| < d < |dstName| && dstName[|dstDir|] == '/' && dstName[d] == '/'
    requires WayIsClear(before, dstName, dstDir) && Made(was, dstName, |dstDir|, d)
    requires Grown(before, now, dstName, dstDir, srcDir)
    requires dstName[..d] in was ==> dstName[..d] in now
    requires Free(was, dstName[..d]) ==> dstName[..d] in now
    ensures dstName[..d] in now && now[dstName[..d]].Dir?
  {
    assert HasParent(was, dstName[..d]) by {
      ParentMade(was, dstName, |dstDir|, d);
    }
    hide HasParent, Made, ProperFrom;
    assert IsAncestor(dstName, dstDir, dstName[..d]);
  }

  lemma CursorsInStep(dstName: string, dstDir: string, srcName: string, srcDir: string, rel: string, d: nat, s: nat)
    requires srcName == Child(srcDir, rel) && dstName == Child(dstDir, rel)
    requires |dstDir| <= d < |dstName| && d - |dstDir| == s - |srcDir|
    ensures s < |srcName|
    ensures var d', s' := NextSlash(dstName, d + 1), NextSlash(srcName, s + 1);
            d' - d == s' - s && (d' < |dstName| <==> s' < |srcName|)
  {
    assert dstName[d + 1..] == rel[d - |dstDir|..] == srcName[s + 1..];
    SlashesInStep(dstName, srcName, d + 1, s + 1);
  }

  /** Where the loop stands: both cursors at the same offset of rel, what lies behind them there. */
  ghost predicate At(before: Files, now: Files, dstName: string, dstDir: string, srcName: string, srcDir: string,
                     d: nat, s: nat, sure: bool) {
    && |dstDir| < d <= |dstName| && d - |dstDir| == s - |srcDir| && s <= |srcName|
    && (s < |srcName| <==> d < |dstName|) && (d < |dstName| ==> dstName[d] == '/' && srcName[s] == '/')
    && Walked(now, srcName, |srcDir|, s)
    && (sure ==> WayIsClear(before, dstName, dstDir) && Made(now, dstName, |dstDir|, d))
    && Grown(before, now, dstName, dstDir, srcDir)
  }

  lemma Starts(files: Files, dstName: string, dstDir: string, srcName: string, srcDir: string, rel: string, sure: bool)
    requires srcName == Child(srcDir, rel) && dstName == Child(dstDir, rel)
    requires sure ==> WayIsClear(files, dstName, dstDir)
    ensures At(files, files, dstName, dstDir, srcName, srcDir,
               NextSlash(dstName, |dstDir| + 1), NextSlash(srcName, |srcDir| + 1), sure)
  {
    CursorsInStep(dstName, dstDir, srcName, srcDir, rel, |dstDir|, |srcDir|);
    assert dstName[..|dstDir|] == dstDir;
  }

  lemma MovesOn(before: Files, was: Files, now: Files, dstName: string, dstDir: string, srcName: string, srcDir: string,
                rel: string, d: nat, s: nat, sure: bool)
    requires srcName == Child(srcDir, rel) && dstName == Child(dstDir, rel)
    requires At(before, was, dstName, dstDir, srcName, srcDir, d, s, sure) && d < |dstName|
    requires srcName[..s] in was && !was[srcName[..s]].Link?
    requires now == was || (dstName[..d] !in was && now == was[dstName[..d] := Dir(was[srcName[..s]].mode)])
    requires sure && Free(was, dstName[..d]) ==> dstName[..d] in now
    ensures At(before, now, dstName, dstDir, srcName, srcDir,
               NextSlash(dstName, d + 1), NextSlash(srcName, s + 1), sure)
  {
    assert dstName[|dstDir|] == '/';
    hide Child;
    GrowsBy(before, was, now, dstName, dstDir, srcName, srcDir, rel, d, s);
    CursorsInStep(dstName, dstDir, srcName, srcDir, rel, d, s);
    hide Grown;
    hide WayIsClear;
    WalkOn(was, now, srcName, |srcDir|, s);
    if sure {
      NewOneMade(before, was, now, dstName, dstDir, srcDir, d);
      MadeOn(was, now, dstName, |dstDir|, d);
    }
  }

  lemma Arrives(before: Files, now: Files, dstName: string, dstDir: string, srcName: string, srcDir: string,
                d: nat, s: nat, sure: bool)
    requires At(before, now, dstName, dstDir, srcName, srcDir, d, s, sure) && d == |dstName|
    ensures sure ==> forall p :: IsAncestor(dstName, dstDir, p) ==> p in now && now[p].Dir?
    ensures forall p :: IsAncestor(srcName, srcDir, p) ==> p in now
  {
  }

  /** One turn of the loop: both buffers grow to the next slash, stat one name, mkdir the other.
      What mkdir returns is ignored, as in the program. */
  method MakeDirectory(disk: Disk, dstBuf: array<char>, dstName: string, ghost lastD: nat, d: nat,
                       srcBuf: array<char>, srcName: string, ghost lastS: nat, s: nat)
    returns (failed: bool)
    requires NulFree(srcName) && NulFree(dstName) && srcBuf != dstBuf
    requires lastD <= d <= |dstName| && d < dstBuf.Length && Holds(dstBuf, dstName[..lastD])
    requires lastS <= s <= |srcName| && s < srcBuf.Length && Holds(srcBuf, srcName[..lastS])
    modifies disk`files, dstBuf, srcBuf
    ensures Holds(dstBuf, dstName[..d]) && Holds(srcBuf, srcName[..s])
    ensures failed ==> disk.files == old(disk.files)
    ensures !failed ==> srcName[..s] in old(disk.files) && !old(disk.files)[srcName[..s]].Link?
    ensures !failed && disk.files != old(disk.files) ==>
              dstName[..d] !in old(disk.files) &&
              disk.files == old(disk.files)[dstName[..d] := Dir(old(disk.files)[srcName[..s]].mode)]
    ensures disk.reliable && srcName[..s] in old(disk.files) && !old(disk.files)[srcName[..s]].Link? ==> !failed
    ensures disk.reliable && !failed && Free(old(disk.files), dstName[..d]) ==> dstName[..d] in disk.files
  {
    hide CStr, Holds, NulFree;
    Extend(dstBuf, dstName, lastD, d);
    Extend(srcBuf, srcName, lastS, s);
    var info;
    failed, info := disk.Stat(CStr(srcBuf[..]));
    if !failed {
      var notMade := disk.Mkdir(CStr(dstBuf[..]), info.mode);
    }
  }

  /** Every directory above name, below dir, can be asked for with stat. */
  ghost predicate CanStat(files: Files, name: string, dir: string) {
    forall p :: IsAncestor(name, dir, p) ==> p in files && !files[p].Link?
  }

  lemma CanStatAt(before: Files, now: Files, dstName: string, dstDir: string, srcName: string, srcDir: string,
                  d: nat, s: nat, sure: bool)
    requires At(before, now, dstName, dstDir, srcName, srcDir, d, s, sure) && d < |dstName|
    requires CanStat(before, srcName, srcDir)
    ensures srcName[..s] in now && !now[srcName[..s]].Link?
  {
    assert IsAncestor(srcName, srcDir, srcName[..s]);
  }

  /** The files keep what they had; what is new are directories on the way to dstName, with the
      modes of the source's. On a reliable disk the call succeeds when the source's directories
      are there, and when nothing is in the way all those of dstName then are too. */
  method CreateDirectories(disk: Disk, dstName: string, dstDir: string, srcName: string, srcDir: string,
                           ghost rel: string)
    returns (result: int)
    requires srcName == Child(srcDir, rel) && dstName == Child(dstDir, rel)
    requires NulFree(srcName) && NulFree(dstName) && |srcName| < MAX_LEN && |dstName| < MAX_LEN
    modifies disk`files
    ensures result == 0 || result == 1
    ensures Grown(old(disk.files), disk.files, dstName, dstDir, srcDir)
    ensures result == 0 ==> forall p :: IsAncestor(srcName, srcDir, p) ==> p in disk.files
    ensures disk.reliable && CanStat(old(disk.files), srcName, srcDir) ==> result == 0
    ensures result == 0 && disk.reliable && WayIsClear(old(disk.files), dstName, dstDir) ==>
              forall p :: IsAncestor(dstName, dstDir, p) ==> p in disk.files && disk.files[p].Dir?
  {
    assert |dstDir| < |dstName| && |srcDir| < |srcName|;
    hide Child, Walked, Grown, IsAncestor, CStr, WayIsClear, CanStat, Free;
    var srcBuf := new char[MAX_LEN](_ => NUL);
    var dstBuf := new char[MAX_LEN](_ => NUL);
    ghost var before := disk.files;
    ghost var sure := disk.reliable && WayIsClear(before, dstName, dstDir);
    Starts(before, dstName, dstDir, srcName, srcDir, rel, sure);
    var d := NextSlash(dstName, |dstDir| + 1);
    var s := NextSlash(srcName, |srcDir| + 1);
    ghost var lastD: nat, lastS: nat := 0, 0;
    while d < |dstName|
      invariant At(before, disk.files, dstName, dstDir, srcName, srcDir, d, s, sure)
      invariant lastD <= d && lastS <= s
      invariant Holds(dstBuf, dstName[..lastD]) && Holds(srcBuf, srcName[..lastS])
      decreases |dstName| - d
    {
      ghost var was := disk.files;
      if CanStat(before, srcName, srcDir) {
        CanStatAt(before, was, dstName, dstDir, srcName, srcDir, d, s, sure);
      }
      var failed := MakeDirectory(disk, dstBuf, dstName, lastD, d, srcBuf, srcName, lastS, s);
      if failed {
        return 1;
      }
      lastD, lastS := d, s;
      MovesOn(before, was, disk.files, dstName, dstDir, srcName, srcDir, rel, d, s, sure);
      d := NextSlash(dstName, d + 1);
      s := NextSlash(srcName, s + 1);
    }
    Arrives(before, disk.files, dstName, dstDir, srcName, srcDir, d, s, sure);
    result := 0;
  }
}
