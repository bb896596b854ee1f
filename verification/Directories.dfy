/** Which directory a path names, and what check_include_directory, which looks at the texts only, says
    about the directories (daemon/src/daemon/backup.c:313-332). */
module Directories {
  import opened Paths

  // --- Paths as sequences of names ---

  /** What stands between the slashes of a path. */
  function Components(p: string): (cs: seq<string>)
    ensures |cs| >= 1
    decreases |p|
  {
    var h := Head(p);
    if h == p then [p] else [h] + Components(p[|h| + 1..])
  }

  function Join(cs: seq<string>): string
    requires |cs| >= 1
  {
    if |cs| == 1 then cs[0] else cs[0] + "/" + Join(cs[1..])
  }

  /** One step of path resolution, where no directory is a link. */
  function Enter(at: seq<string>, name: string): seq<string> {
    if name == "" || name == "." then at
    else if name == ".." then (if at == [] then [] else at[..|at| - 1])
    else at + [name]
  }

  function Walk(at: seq<string>, cs: seq<string>): seq<string>
    decreases |cs|
  {
    if cs == [] then at else Walk(Enter(at, cs[0]), cs[1..])
  }

  /** The directory a path names: the names on the way to it from the root, where the daemon works
      (daemon/src/daemon/daemon.c:52). */
  function Resolve(p: string): seq<string> {
    Walk([], Components(p))
  }

  /** Neither directory is the other or lies in it. */
  predicate Disjoint(a: seq<string>, b: seq<string>) {
    !(a <= b) && !(b <= a)
  }

  predicate IsAbsolute(p: string) {
    p != "" && p[0] == '/'
  }

  function Rootless(p: string): string {
    if IsAbsolute(p) then p[1..] else p
  }

  predicate AllNames(cs: seq<string>) {
    forall i :: 0 <= i < |cs| ==> IsName(cs[i])
  }

  /** Not the root, no slash at the end, no empty component, no "." or "..". */
  predicate Plain(p: string) {
    AllNames(Components(Rootless(p)))
  }

  predicate PlainPair(src: string, dst: string) {
    Plain(src) && Plain(dst) && (IsAbsolute(src) <==> IsAbsolute(dst))
  }

  // --- Splitting and joining ---

  lemma ComponentsCons(h: string, rest: string)
    requires NoSlash(h)
    ensures Components(h + "/" + rest) == [h] + Components(rest)
  {
    HeadOfJoin(h, rest);
    assert (h + "/" + rest)[|h| + 1..] == rest;
  }

  lemma SplitHere(p: string)
    ensures Head(p) == p || p == Head(p) + "/" + p[|Head(p)| + 1..]
  {
  }

  lemma Regroup(h: string, rest: string, b: string)
    ensures h + "/" + rest + "/" + b == h + "/" + (rest + "/" + b)
  {
  }

  lemma Associates<T>(a: seq<T>, b: seq<T>, c: seq<T>)
    ensures (a + b) + c == a + (b + c)
  {
  }

  lemma {:induction false} ComponentsOfJoined(a: string, b: string)
    ensures Components(a + "/" + b) == Components(a) + Components(b)
    decreases |a|
  {
    var h := Head(a);
    SplitHere(a);
    if h == a {
      ComponentsCons(a, b);
    } else {
      var rest := a[|h| + 1..];
      ComponentsOfJoined(rest, b);
      ComponentsCons(h, rest);
      ComponentsCons(h, rest + "/" + b);
      hide Components, Head;
      Regroup(h, rest, b);
      Associates([h], Components(rest), Components(b));
    }
  }

  lemma {:induction false} JoinOfComponents(p: string)
    ensures Join(Components(p)) == p
    decreases |p|
  {
    var h := Head(p);
    SplitHere(p);
    if h != p {
      var rest := p[|h| + 1..];
      JoinOfComponents(rest);
      ComponentsCons(h, rest);
      hide Components, Head;
      assert ([h] + Components(rest))[1..] == Components(rest);
    }
  }

  lemma {:induction false} ComponentsOfJoin(cs: seq<string>)
    requires |cs| >= 1 && forall i :: 0 <= i < |cs| ==> NoSlash(cs[i])
    ensures Components(Join(cs)) == cs
    decreases |cs|
  {
    if |cs| == 1 {
      HeadOfJoin(cs[0], "");
      assert cs == [cs[0]];
    } else {
      ComponentsOfJoin(cs[1..]);
      ComponentsCons(cs[0], Join(cs[1..]));
      hide Components, Head;
      assert cs == [cs[0]] + cs[1..];
    }
  }

  lemma {:induction false} JoinOfSum(a: seq<string>, b: seq<string>)
    requires |a| >= 1 && |b| >= 1
    ensures Join(a + b) == Join(a) + "/" + Join(b)
    decreases |a|
  {
    if |a| == 1 {
      assert (a + b)[1..] == b;
    } else {
      assert (a + b)[1..] == a[1..] + b;
      JoinOfSum(a[1..], b);
    }
  }

  // --- Resolving ---

  lemma {:induction false} WalkOn(at: seq<string>, a: seq<string>, b: seq<string>)
    ensures Walk(at, a + b) == Walk(Walk(at, a), b)
    decreases |a|
  {
    if a == [] {
      assert a + b == b;
    } else {
      assert (a + b)[1..] == a[1..] + b;
      WalkOn(Enter(at, a[0]), a[1..], b);
    }
  }

  lemma {:induction false} WalkNames(at: seq<string>, cs: seq<string>)
    requires AllNames(cs)
    ensures Walk(at, cs) == at + cs
    decreases |cs|
  {
    if cs != [] {
      WalkNames(at + [cs[0]], cs[1..]);
      assert at + [cs[0]] + cs[1..] == at + cs;
    }
  }

  lemma ResolveRooted(p: string)
    ensures Resolve(p) == Walk([], Components(Rootless(p)))
  {
    if IsAbsolute(p) {
      assert Head(p) == "";
    }
  }

  lemma ResolvePlain(p: string)
    requires Plain(p)
    ensures Resolve(p) == Components(Rootless(p)) && Resolve(p) != []
  {
    ResolveRooted(p);
    WalkNames([], Components(Rootless(p)));
  }

  /** Every sequence of names is the meaning of an absolute plain path. */
  lemma PathOfNames(cs: seq<string>)
    requires cs != [] && AllNames(cs)
    ensures var p := "/" + Join(cs); Plain(p) && IsAbsolute(p) && Resolve(p) == cs
  {
    var p := "/" + Join(cs);
    assert p[1..] == Join(cs);
    ComponentsOfJoin(cs);
    ResolvePlain(p);
  }

  lemma ResolveJoined(a: string, b: string)
    ensures Resolve(a + "/" + b) == Walk(Resolve(a), Components(b))
  {
    ComponentsOfJoined(a, b);
    WalkOn([], Components(a), Components(b));
  }

  lemma UnderIsPrefix(x: string, rest: string)
    ensures Components(x) < Components(x + "/" + rest)
  {
    ComponentsOfJoined(x, rest);
    var more := Components(rest);
    hide Components;
  }

  lemma PrefixIsUnder(x: string, y: string)
    requires Components(x) < Components(y)
    ensures Under(x, y)
  {
    var cs, more := Components(x), Components(y)[|Components(x)|..];
    JoinOfComponents(x);
    JoinOfComponents(y);
    assert Components(y) == cs + more;
    hide Components;
    JoinOfSum(cs, more);
    assert y == Child(x, Join(more));
    UnderChild(x, Join(more));
  }

  /** Components nest as the texts do. */
  lemma ComponentsNest(x: string, y: string)
    ensures Under(x, y) <==> Components(x) < Components(y)
    ensures x == y <==> Components(x) == Components(y)
  {
    JoinOfComponents(x);
    JoinOfComponents(y);
    hide Components, Join;
    if Under(x, y) {
      assert y == x + "/" + y[|x| + 1..];
      UnderIsPrefix(x, y[|x| + 1..]);
    }
    if Components(x) < Components(y) {
      PrefixIsUnder(x, y);
    }
  }

  /** What the dots mean: the directory itself, the one it lies in; the root lies in itself. */
  lemma DotsResolve(p: string)
    ensures Resolve(p + "/" + ".") == Resolve(p) && Resolve(p + "/" + "") == Resolve(p) && Resolve("/") == []
    ensures Resolve(p + "/" + "..") == if Resolve(p) == [] then [] else Resolve(p)[..|Resolve(p)| - 1]
  {
    ResolveJoined(p, ".");
    ResolveJoined(p, "");
    ResolveJoined(p, "..");
    assert Components(".") == ["."] && Components("") == [""] && Components("..") == [".."];
    assert "/" == "" + "/" + "";
    ResolveJoined("", "");
  }

  /** On plain paths the texts tell which directory lies in which. */
  lemma PlainNesting(a: string, b: string)
    requires PlainPair(a, b)
    ensures Under(a, b) <==> Resolve(a) < Resolve(b)
    ensures a == b <==> Resolve(a) == Resolve(b)
  {
    hide Components, Resolve, Under;
    ResolvePlain(a);
    ResolvePlain(b);
    SameRoot(a, b);
    ComponentsNest(Rootless(a), Rootless(b));
  }

  lemma SameRoot(a: string, b: string)
    requires IsAbsolute(a) <==> IsAbsolute(b)
    ensures Under(a, b) <==> Under(Rootless(a), Rootless(b))
    ensures a == b <==> Rootless(a) == Rootless(b)
  {
    if IsAbsolute(a) {
      var x, y := a[1..], b[1..];
      assert a == "/" + x && b == "/" + y;
      if Under(a, b) {
        assert y[..|x| + 1] == b[..|a| + 1][1..] == x + "/";
      }
      if Under(x, y) {
        assert b[..|a| + 1] == "/" + y[..|x| + 1] == a + "/";
      }
    }
  }

  // --- What the check is worth ---

  lemma OneName(name: string)
    requires IsName(name)
    ensures Components(name) == [name]
  {
    HeadOfJoin(name, "");
  }

  /** An entry of a plain directory has a plain path, with the same root. */
  lemma PlainChild(dir: string, name: string)
    requires Plain(dir) && IsName(name)
    ensures Plain(Child(dir, name)) && (IsAbsolute(Child(dir, name)) <==> IsAbsolute(dir))
  {
    assert Components("")[0] == "" && Rootless("") == "";
    assert Child(dir, name)[0] == dir[0];
    assert Rootless(Child(dir, name)) == Rootless(dir) + "/" + name;
    ComponentsOfJoined(Rootless(dir), name);
    OneName(name);
  }

  lemma PlainChildren(a: string, b: string, name: string)
    requires PlainPair(a, b) && IsName(name)
    ensures PlainPair(Child(a, name), Child(b, name)) && PlainPair(a, Child(b, name))
  {
    PlainChild(a, name);
    PlainChild(b, name);
  }

  /** On plain paths Apart, which compares texts, is about the directories. */
  lemma PlainApart(a: string, b: string)
    requires PlainPair(a, b)
    ensures Apart(a, b) <==> Disjoint(Resolve(a), Resolve(b))
  {
    PlainNesting(a, b);
    PlainNesting(b, a);
  }

  lemma VersionIsEntry(dst: string, sep: string, date: string)
    requires NoSlash(sep) && NoSlash(date)
    ensures IsName(sep + "-" + date) && NewVersionDir(dst, sep, date) == Child(dst, sep + "-" + date)
    ensures Resolve(NewVersionDir(dst, sep, date)) == Resolve(dst) + [sep + "-" + date]
  {
    var leaf := sep + "-" + date;
    assert leaf[|sep|] == '-';
    assert NewVersionDir(dst, sep, date) == dst + "/" + leaf;
    OneName(leaf);
    ResolveJoined(dst, leaf);
  }

  /** Where the source lies in the version directory or around it. */
  lemma DisjointFromVersion(a: seq<string>, b: seq<string>, leaf: string)
    ensures Disjoint(a, b + [leaf]) <==> !(a <= b) && !(b + [leaf] <= a)
    ensures b + [leaf] <= a ==> b < a
  {
    if b + [leaf] <= a {
      assert b == (b + [leaf])[..|b|] == a[..|b|];
    }
    if a <= b + [leaf] && !(a <= b) {
      assert |a| == |b| + 1;
      assert a == b + [leaf];
    }
    if a <= b {
      assert (b + [leaf])[..|a|] == b[..|a|];
    }
  }

  /** On plain paths, what the check is for: when it passes, the source and the new version directory
      lie apart exactly when the source is not the destination itself. */
  lemma CheckSeparates(src: string, dst: string, sep: string, date: string)
    requires PlainPair(src, dst) && CheckIncludeDirectory(src, dst) == 0 && NoSlash(sep) && NoSlash(date)
    ensures Disjoint(Resolve(src), Resolve(NewVersionDir(dst, sep, date))) <==> src != dst
  {
    CheckSeesNesting(src, dst);
    PlainNesting(src, dst);
    PlainNesting(dst, src);
    VersionIsEntry(dst, sep, date);
    DisjointFromVersion(Resolve(src), Resolve(dst), sep + "-" + date);
  }

  /** Of plain paths to directories that lie apart it refuses those, and only those, where one
      first occurs strictly inside the other, in front of a slash. */
  lemma CheckRefusesApart(src: string, dst: string)
    requires PlainPair(src, dst) && Disjoint(Resolve(src), Resolve(dst))
    ensures CheckIncludeDirectory(src, dst) != 0 <==> InnerHit(dst, src) || InnerHit(src, dst)
  {
    CheckPassesExactly(src, dst);
    PlainNesting(src, dst);
    PlainNesting(dst, src);
  }

  lemma CheckCanRefuseApart()
    ensures PlainPair("/a", "/b/a/c") && Disjoint(Resolve("/a"), Resolve("/b/a/c"))
    ensures CheckIncludeDirectory("/a", "/b/a/c") == 1
  {
    RefusedPathsApart();
    hide Components, Head, Walk;
    assert "b/a/c"[1..] == "/a/c" && "/b/a/c"[1..] == "b/a/c";
    assert "b/a/c"[0] != '/' && "/b/a/c"[1] != 'a';
    assert Find("/a/c", "/a") == 0;
    assert Find("b/a/c", "/a") == 1;
    assert Find("/b/a/c", "/a") == 2;
  }

  lemma JoinOfThree(a: string, b: string, c: string)
    ensures Join([a, b, c]) == a + "/" + (b + "/" + c)
  {
    var s := [a, b, c];
    assert s[1..] == [b, c] && [b, c][1..] == [c];
    assert Join([c]) == c;
    assert Join([b, c]) == b + "/" + c;
    assert Join(s) == s[0] + "/" + Join(s[1..]);
  }

  lemma RefusedPathsApart()
    ensures PlainPair("/a", "/b/a/c") && Disjoint(Resolve("/a"), Resolve("/b/a/c"))
  {
    hide Components, Head, Walk, Resolve, Plain, IsAbsolute, Join;
    NamesOfRefused();
    PathOfNames(["a"]);
    PathOfNames(["b", "a", "c"]);
    assert ["a"][0] == "a" && ["b", "a", "c"][0] == "b" && "a"[0] != "b"[0];
  }

  lemma NamesOfRefused()
    ensures AllNames(["a"]) && "/" + Join(["a"]) == "/a"
    ensures AllNames(["b", "a", "c"]) && "/" + Join(["b", "a", "c"]) == "/b/a/c"
  {
    JoinOfThree("b", "a", "c");
    assert Join(["a"]) == "a";
    hide Join;
    assert "/" + "a" == "/a";
    assert "/" + ("b" + "/" + ("a" + "/" + "c")) == "/b/a/c";
  }

  // --- Paths that are not plain ---

  lemma CannotContain(h: string, n: string)
    requires |h| < |n|
    ensures Find(h, n) == -1
  {
  }

  /** The root contains every destination, and the check lets every plain one pass. */
  lemma RootIsNeverSeen(dst: string, sep: string, date: string)
    requires Plain(dst) && IsAbsolute(dst) && NoSlash(sep) && NoSlash(date)
    ensures CheckIncludeDirectory("/", dst) == 0
    ensures Resolve("/") <= Resolve(NewVersionDir(dst, sep, date))
  {
    var x := dst[1..];
    assert IsName(Components(x)[0]) && Components(x)[0] == Head(x);
    assert x != "" && x[0] != '/';
    assert |"/"| < |dst| && dst[1] == x[0];
    assert dst[..1] == "/";
    FoundInFront(dst, "/");
    CannotContain("/", dst);
    assert Head("/") == "" && Components("") == [""] && "/"[1..] == "";
  }

  /** Nor does it see what lies in a directory whose path ends in a slash. */
  lemma TrailingSlashIsNeverSeen(dir: string, rest: string, sep: string, date: string)
    requires AllNames(Components(rest)) && NoSlash(sep) && NoSlash(date)
    ensures CheckIncludeDirectory(dir + "/", dir + "/" + rest) == 0
    ensures Resolve(dir + "/") <= Resolve(NewVersionDir(dir + "/" + rest, sep, date))
  {
    var src, dst := dir + "/", dir + "/" + rest;
    assert IsName(Components(rest)[0]) && Components(rest)[0] == Head(rest);
    assert rest != "" && rest[0] != '/';
    assert dst[|src|] == rest[0];
    FoundInFront(dst, src);
    CannotContain(src, dst);
    VersionIsEntry(dst, sep, date);
    assert src == dir + "/" + "";
    ResolveJoined(dir, "");
    ResolveJoined(dir, rest);
    WalkNames(Resolve(dir), Components(rest));
  }

  /** Nor, in a relative path, the directory of an absolute one. */
  lemma MixedPathsAreNotSeen(a: string, b: string, sep: string, date: string)
    requires IsName(a) && IsName(b) && NoSlash(sep) && NoSlash(date)
    ensures CheckIncludeDirectory("/" + a, a + "/" + b) == 0
    ensures Resolve("/" + a) <= Resolve(NewVersionDir(a + "/" + b, sep, date))
  {
    MixedTextsPass(a, b);
    PathOfNames([a]);
    OneName(a);
    VersionIsEntry(a + "/" + b, sep, date);
    hide Components, Head, CheckIncludeDirectory;
    ResolveJoined(a, b);
    WalkNames([], [a]);
    OneName(b);
    WalkNames([a], [b]);
  }

  lemma MixedTextsPass(a: string, b: string)
    requires IsName(a) && IsName(b)
    ensures CheckIncludeDirectory("/" + a, a + "/" + b) == 0
  {
    var h, n := a + "/" + b, "/" + a;
    CannotContain(n, h);
    var k := Find(h, n);
    assert forall i :: 0 <= i < |h| && i != |a| ==> h[i] != '/' by {
      assert forall i :: 0 <= i < |h| && i != |a| ==> h[i] in a || h[i] in b;
    }
    if k >= 0 {
      assert h[k] == h[k..][0] == n[0];
      assert k + |n| > |a|;
    }
  }
}
