/** Paths as the daemon handles them: strings, joined with a slash and compared with strstr
    (daemon/src/daemon/backup.c:313-332). */
module Paths {
  function Child(dir: string, name: string): string {
    dir + "/" + name
  }

  predicate NoSlash(name: string) {
    '/' !in name
  }

  /** A directory entry other than "." and "..". */
  predicate IsName(name: string) {
    name != "" && NoSlash(name) && name != "." && name != ".."
  }

  /** p is d with more behind a slash: for plain paths, p lies strictly inside the directory d. */
  predicate Under(d: string, p: string) {
    d + "/" <= p
  }

  predicate Within(d: string, p: string) {
    p == d || Under(d, p)
  }

  predicate Apart(a: string, b: string) {
    a != b && !Under(a, b) && !Under(b, a)
  }

  /** The first component of a relative path, and what follows its slash. */
  function Head(rel: string): (h: string)
    ensures h <= rel && NoSlash(h)
    ensures h == rel || rel[|h|] == '/'
  {
    if rel == "" || rel[0] == '/' then "" else [rel[0]] + Head(rel[1..])
  }

  lemma {:induction false} HeadOfJoin(name: string, rest: string)
    requires NoSlash(name)
    ensures Head(name) == name && Head(name + "/" + rest) == name
    decreases name
  {
    if name != "" {
      assert (name + "/" + rest)[1..] == name[1..] + "/" + rest;
      HeadOfJoin(name[1..], rest);
    } else {
      assert (name + "/" + rest)[0] == '/';
    }
  }

  lemma UnderTransitive(a: string, b: string, c: string)
    requires Within(a, b) && Under(b, c)
    ensures Under(a, c)
  {
  }

  lemma UnderChild(d: string, name: string)
    ensures Under(d, Child(d, name))
  {
    assert Child(d, name)[..|d| + 1] == d + "/";
  }

  // --- strstr and check_include_directory ---

  /** strstr: where the needle first occurs, or -1. */
  function Find(h: string, n: string): (k: int)
    ensures -1 <= k <= |h| - |n| || (k == -1)
    ensures k >= 0 ==> n <= h[k..]
  {
    if n <= h then 0
    else if h == "" then -1
    else var k := Find(h[1..], n); if k < 0 then -1 else k + 1
  }

  /** What is found is an occurrence, and no other comes before it; -1 means that there is none. */
  lemma {:induction false} FindIsFirst(h: string, n: string)
    ensures var k := Find(h, n);
            if k < 0 then forall j :: 0 <= j <= |h| ==> !(n <= h[j..])
            else k <= |h| && n <= h[k..] && forall j :: 0 <= j < k ==> !(n <= h[j..])
    decreases |h|
  {
    if !(n <= h) && h != "" {
      FindIsFirst(h[1..], n);
      forall j | 1 <= j <= |h| ensures h[j..] == h[1..][j - 1..] {
      }
    }
  }

  /** The character after the first occurrence of n in h is a slash; the end of h is not one. */
  predicate FoundBeforeSlash(h: string, n: string) {
    var k := Find(h, n);
    k >= 0 && k + |n| < |h| && h[k + |n|] == '/'
  }

  function CheckIncludeDirectory(src: string, dst: string): int {
    if FoundBeforeSlash(dst, src) then 1
    else if FoundBeforeSlash(src, dst) then 1
    else 0
  }

  /** get_new_ver_dir */
  function NewVersionDir(dst: string, sep: string, date: string): string {
    dst + "/" + sep + "-" + date
  }

  lemma NestingIsSeen(a: string, b: string)
    requires Under(a, b)
    ensures FoundBeforeSlash(b, a)
  {
    assert b[|a|] == (a + "/")[|a|];
  }

  /** The check never misses a text that continues the other behind a slash. */
  lemma CheckSeesNesting(src: string, dst: string)
    requires CheckIncludeDirectory(src, dst) == 0
    ensures !Under(src, dst) && !Under(dst, src)
  {
    if Under(src, dst) {
      NestingIsSeen(src, dst);
    }
    if Under(dst, src) {
      NestingIsSeen(dst, src);
    }
  }

  lemma UnderParentOfLeaf(a: string, dst: string, leaf: string)
    requires NoSlash(leaf) && Under(a, Child(dst, leaf))
    ensures a == dst || Under(a, dst)
  {
    var v := Child(dst, leaf);
    assert forall i :: |dst| < i < |v| ==> v[i] == leaf[i - |dst| - 1] && v[i] in leaf;
    assert v[|a|] == '/';
    assert dst == v[..|dst|] && a == v[..|a|];
    if |a| < |dst| {
      assert a + "/" == v[..|a| + 1] == dst[..|a| + 1];
    }
  }

  /** The texts of source and version directory lie apart unless source and destination are equal. */
  lemma TextsApart(src: string, dst: string, sep: string, date: string)
    requires CheckIncludeDirectory(src, dst) == 0 && NoSlash(sep) && NoSlash(date)
    ensures Apart(src, NewVersionDir(dst, sep, date)) <==> src != dst
  {
    CheckSeesNesting(src, dst);
    var leaf := sep + "-" + date;
    var v := NewVersionDir(dst, sep, date);
    assert v == Child(dst, leaf);
    UnderChild(dst, leaf);
    if Under(v, src) {
      UnderTransitive(dst, v, src);
    }
    if Under(src, v) {
      UnderParentOfLeaf(src, dst, leaf);
    }
  }

  // --- What the check refuses ---

  /** n first occurs in h behind its start, and is followed by a slash there. */
  predicate InnerHit(h: string, n: string) {
    !(n <= h) && FoundBeforeSlash(h, n)
  }

  lemma FoundInFront(h: string, n: string)
    requires n <= h
    ensures Find(h, n) == 0
    ensures FoundBeforeSlash(h, n) <==> Under(n, h)
  {
    if |n| < |h| && h[|n|] == '/' {
      assert h[..|n| + 1] == n + "/";
    }
    if Under(n, h) {
      NestingIsSeen(n, h);
    }
  }

  /** The check passes exactly when neither text continues the other behind a slash, and neither first
      occurs inside the other in front of one. */
  lemma CheckPassesExactly(src: string, dst: string)
    ensures CheckIncludeDirectory(src, dst) == 0 <==>
              !Under(src, dst) && !Under(dst, src) && !InnerHit(dst, src) && !InnerHit(src, dst)
  {
    if src <= dst {
      FoundInFront(dst, src);
    }
    if dst <= src {
      FoundInFront(src, dst);
    }
  }

  lemma EqualPassesCheck(d: string)
    ensures CheckIncludeDirectory(d, d) == 0
  {
    FoundInFront(d, d);
  }
}
