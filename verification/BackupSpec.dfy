/** What a backup has to leave behind, and how one directory entry after another gets there. */
module BackupSpec {
  import opened Paths
  import opened FileSystem

  predicate Copyable(i: Inode) {
    !i.Other?
  }

  /** Nothing outside the directory dst has changed. */
  ghost predicate OnlyUnder(before: Files, after: Files, dst: string) {
    forall p :: !Under(dst, p) ==>
      (p in after <==> p in before) && (p in before && p in after ==> after[p] == before[p])
  }

  ghost predicate NothingUnder(files: Files, dst: string) {
    forall p :: p in files ==> !Under(dst, p)
  }

  ghost predicate SameAt(before: Files, after: Files, src: string, dst: string, r: string, done: bool) {
    && (Child(dst, r) in after <==> done && Child(src, r) in before && Copyable(before[Child(src, r)]))
    && (Child(dst, r) in after && Child(src, r) in before ==> after[Child(dst, r)] == before[Child(src, r)])
  }

  /** dst holds exactly the directories, regular files, links and FIFOs of src, with the same
      contents, targets and modes. */
  ghost predicate Copied(before: Files, after: Files, src: string, dst: string) {
    OnlyUnder(before, after, dst) && forall r :: SameAt(before, after, src, dst, r, true)
  }

  /** The same, for the entries of src named in done and what lies below them. */
  ghost predicate CopiedSome(before: Files, after: Files, src: string, dst: string, done: set<string>) {
    OnlyUnder(before, after, dst) && forall r :: SameAt(before, after, src, dst, r, Head(r) in done)
  }

  // --- Facts about trees ---

  lemma TwoDirsOfOnePath(a: string, b: string, p: string)
    requires Within(a, p) && Within(b, p)
    ensures Within(a, b) || Within(b, a)
  {
    assert a == p[..|a|] && b == p[..|b|];
    if |a| < |b| {
      assert a + "/" == p[..|a| + 1] == b[..|a| + 1];
    } else if |b| < |a| {
      assert b + "/" == p[..|b| + 1] == a[..|b| + 1];
    }
  }

  lemma ApartTrees(a: string, b: string, p: string)
    requires Apart(a, b) && Within(a, p)
    ensures !Within(b, p)
  {
    if Within(b, p) {
      TwoDirsOfOnePath(a, b, p);
    }
  }

  lemma ApartChildren(a: string, b: string, name: string)
    requires Apart(a, b) && NoSlash(name)
    ensures Apart(Child(a, name), Child(b, name))
  {
    var x, y := Child(a, name), Child(b, name);
    UnderChild(a, name);
    UnderChild(b, name);
    ApartTrees(a, b, x);
    ApartTrees(b, a, y);
    if Under(x, y) {
      UnderTransitive(a, x, y);
    }
    if Under(y, x) {
      UnderTransitive(b, y, x);
    }
  }

  lemma RelOfChild(top: string, r: string)
    ensures Under(top, Child(top, r)) && Child(top, r)[|top| + 1..] == r
  {
    UnderChild(top, r);
  }

  lemma UnderIsChild(top: string, p: string)
    requires Under(top, p)
    ensures p == Child(top, p[|top| + 1..])
  {
  }

  /** The first component of anything below top is an entry of top, and a directory when more follows. */
  lemma {:induction false} FirstComponent(files: Files, top: string, r: string)
    requires IsTree(files, top) && Child(top, r) in files
    ensures IsName(Head(r)) && Child(top, Head(r)) in files
    ensures r != Head(r) ==> files[Child(top, Head(r))].Dir?
    decreases |r|
  {
    var p := Child(top, r);
    RelOfChild(top, r);
    var d, n :| IsName(n) && p == Child(d, n) && Within(top, d) && d in files && files[d].Dir?;
    if d == top {
      assert r == n;
      HeadOfJoin(n, "");
    } else {
      var rd := d[|top| + 1..];
      UnderIsChild(top, d);
      assert r == rd + "/" + n;
      FirstComponent(files, top, rd);
      HeadOfExtension(rd, n);
    }
  }

  lemma {:induction false} HeadOfExtension(rel: string, n: string)
    ensures Head(rel + "/" + n) == Head(rel)
    decreases rel
  {
    var e := rel + "/" + n;
    if rel == "" {
      assert e[0] == '/';
    } else if rel[0] != '/' {
      assert e[1..] == rel[1..] + "/" + n;
      HeadOfExtension(rel[1..], n);
    }
  }

  /** A path below top that starts with the entry name is that entry or lies under it. */
  lemma SplitHead(top: string, name: string, r: string)
    requires NoSlash(name)
    ensures Head(r) == name <==> Within(Child(top, name), Child(top, r))
    ensures Head(r) == name && r != name ==>
              Under(Child(top, name), Child(top, r)) &&
              Child(top, r) == Child(Child(top, name), r[|name| + 1..]) && r == name + "/" + r[|name| + 1..]
  {
    var x, p := Child(top, name), Child(top, r);
    RelOfChild(top, r);
    RelOfChild(top, name);
    if Head(r) == name && r != name {
      assert r == name + "/" + r[|name| + 1..];
      assert p == x + "/" + r[|name| + 1..];
    }
    if Under(x, p) {
      assert p == x + "/" + p[|x| + 1..];
      var rest := p[|x| + 1..];
      assert r == p[|top| + 1..] == name + "/" + rest;
      HeadOfJoin(name, rest);
    }
    if x == p {
      assert r == p[|top| + 1..] == x[|top| + 1..] == name;
      HeadOfJoin(name, "");
    }
  }

  lemma SubtreeIsTree(files: Files, now: Files, src: string, dst: string, name: string)
    requires IsTree(files, src) && Apart(src, dst) && OnlyUnder(files, now, dst) && IsName(name)
    requires Child(src, name) in files && files[Child(src, name)].Dir?
    ensures IsTree(now, Child(src, name))
  {
    var top := Child(src, name);
    UnderChild(src, name);
    forall p | p in now && Under(top, p)
      ensures exists d, n :: IsName(n) && p == Child(d, n) && Within(top, d) && d in now && now[d].Dir?
    {
      UnderTransitive(src, top, p);
      ApartTrees(src, dst, p);
      var d, n :| IsName(n) && p == Child(d, n) && Within(src, d) && d in files && files[d].Dir?;
      ApartTrees(src, dst, d);
      UnderParentOfLeaf(top, d, n);
      assert Within(top, d) && d in now && now[d].Dir?;
    }
  }

  // --- One entry ---

  /** An entry that is not a directory has been copied, or passed over. */
  lemma EntryDone(before: Files, now: Files, next: Files, src: string, dst: string, done: set<string>, name: string)
    requires IsTree(before, src) && Apart(src, dst) && IsName(name) && name !in done
    requires CopiedSome(before, now, src, dst, done)
    requires Child(src, name) in before && !before[Child(src, name)].Dir?
    requires forall p :: p != Child(dst, name) ==>
               (p in next <==> p in now) && (p in now && p in next ==> next[p] == now[p])
    requires if before[Child(src, name)].Other? then next == now
             else Child(dst, name) in next && next[Child(dst, name)] == before[Child(src, name)]
    ensures CopiedSome(before, next, src, dst, done + {name})
  {
    UnderChild(dst, name);
    forall r ensures SameAt(before, next, src, dst, r, Head(r) in done + {name}) {
      assert SameAt(before, now, src, dst, r, Head(r) in done);
      HeadOfJoin(name, "");
      if r != name {
        RelOfChild(dst, r);
        RelOfChild(dst, name);
        assert Child(dst, r) != Child(dst, name);
        if Child(src, r) in before {
          FirstComponent(before, src, r);
        }
      }
    }
  }

  /** A directory has been made and its own entries copied into it. */
  lemma DirDone(before: Files, now: Files, made: Files, next: Files, src: string, dst: string, done: set<string>,
                name: string)
    requires IsTree(before, src) && Apart(src, dst) && IsName(name) && name !in done
    requires CopiedSome(before, now, src, dst, done)
    requires Child(src, name) in before && before[Child(src, name)].Dir?
    requires made == now[Child(dst, name) := before[Child(src, name)]]
    requires Copied(made, next, Child(src, name), Child(dst, name))
    ensures CopiedSome(before, next, src, dst, done + {name})
  {
    var x, y := Child(src, name), Child(dst, name);
    UnderChild(dst, name);
    UnderChild(src, name);
    HeadOfJoin(name, "");
    forall p | !Under(dst, p)
      ensures (p in next <==> p in before) && (p in before && p in next ==> next[p] == before[p])
    {
      if Under(y, p) {
        UnderTransitive(dst, y, p);
      }
    }
    forall r ensures SameAt(before, next, src, dst, r, Head(r) in done + {name}) {
      assert SameAt(before, now, src, dst, r, Head(r) in done);
      SplitHead(dst, name, r);
      SplitHead(src, name, r);
      if Head(r) == name && r != name {
        var rest := r[|name| + 1..];
        assert SameAt(made, next, x, y, rest, true);
        RelOfChild(src, r);
        ApartTrees(src, dst, Child(src, r));
        assert Child(src, r) in made <==> Child(src, r) in before;
      }
    }
  }

  /** Once every entry is done, everything is. */
  lemma AllDone(before: Files, after: Files, src: string, dst: string, done: set<string>)
    requires IsTree(before, src) && CopiedSome(before, after, src, dst, done)
    requires forall n :: IsName(n) && Child(src, n) in before ==> n in done
    ensures Copied(before, after, src, dst)
  {
    forall r ensures SameAt(before, after, src, dst, r, true) {
      assert SameAt(before, after, src, dst, r, Head(r) in done);
      if Child(src, r) in before {
        FirstComponent(before, src, r);
      }
    }
  }

  lemma NothingDone(files: Files, src: string, dst: string)
    requires NothingUnder(files, dst)
    ensures CopiedSome(files, files, src, dst, {})
  {
    forall r ensures SameAt(files, files, src, dst, r, false) {
      UnderChild(dst, r);
    }
  }

  /** The source is as it was: a copy only writes under dst. */
  lemma SourceUnchanged(before: Files, after: Files, src: string, dst: string, p: string)
    requires OnlyUnder(before, after, dst) && Apart(src, dst) && Within(src, p)
    ensures (p in after <==> p in before) && (p in before ==> after[p] == before[p])
  {
    ApartTrees(src, dst, p);
  }
}
