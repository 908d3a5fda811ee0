/** The media library as a reader sees it: a path below the source root, read through the links.
    Moving titles to cold storage, all of them or one by one and any number of times, does not change it. */
module Library {
  import opened FileSystem
  import opened TreeMover
  import opened MoverSafety
  import opened MoverExact

  // ----- Reading through a link -----

  /** Up to a plain directory, a lookup follows the path itself. */
  lemma {:induction false} WalkAlong(t: Tree, a: Path, p: Path, i: nat, follow: bool)
    requires Plain(t, a) && Under(a, p) && i <= |a|
    ensures Walk(t, [], p, follow, LINK_LIMIT) == Walk(t, p[..i], p[i..], follow, LINK_LIMIT)
    decreases i
  {
    if i == 0 {
      assert p[..0] == [] && p[0..] == p;
    } else {
      WalkAlong(t, a, p, i - 1, follow);
      assert p[..i - 1] + [p[i - 1..][0]] == p[..i] && p[..i] == a[..i];
      assert p[i - 1..][1..] == p[i..];
    }
  }

  /** A path through a link at `a/n` reads what lies at the link's target. */
  lemma ReadThroughLink(t: Tree, a: Path, n: Name, target: Path, p: Path)
    requires Plain(t, a) && Under(a + [n], p)
    requires At(t, a + [n]) == Some(Symlink(target))
    requires Plain(t, target + p[|a| + 1..])
    ensures Stat(t, p) == At(t, target + p[|a| + 1..])
  {
    BelowEntry(a, n, p);
    WalkAlong(t, a, p, |a|, true);
    assert p[..|a|] + [p[|a|..][0]] == a + [n];
    assert p[|a|..][1..] == p[|a| + 1..];
    var q := target + p[|a| + 1..];
    assert Walk(t, a, p[|a|..], true, LINK_LIMIT) == Walk(t, [], q, true, LINK_LIMIT - 1);
    WalkPlain(t, q, 0, true, LINK_LIMIT - 1);
    assert q[..0] == [] && q[0..] == q;
  }

  /** And an entry behind such a link is looked up behind it. */
  lemma LocateThroughLink(t: Tree, a: Path, n: Name, target: Path, p: Path)
    requires Plain(t, a) && Under(a + [n], p) && p != a + [n]
    requires At(t, a + [n]) == Some(Symlink(target))
    requires Plain(t, Parent(target + p[|a| + 1..]))
    ensures Locate(t, p) == Some(target + p[|a| + 1..])
  {
    BelowEntry(a, n, p);
    WalkAlong(t, a, p, |a|, false);
    assert p[..|a|] + [p[|a|..][0]] == a + [n];
    assert p[|a|..][1..] == p[|a| + 1..];
    var q := target + p[|a| + 1..];
    assert Walk(t, a, p[|a|..], false, LINK_LIMIT) == Walk(t, [], q, false, LINK_LIMIT - 1);
    WalkPlain(t, q, 0, false, LINK_LIMIT - 1);
    assert q[..0] == [] && q[0..] == q;
  }

  /** Below a clean entry, or where there is no entry, a path reads what stands there itself. */
  lemma ReadDirectly(t: Tree, a: Path, p: Path)
    requires WellFormed(t) && Plain(t, a) && Under(a, p)
    requires p != a ==> var e := a + [p[|a|]]; Clean(t, e) || e !in t
    ensures Plain(t, p) && Stat(t, p) == At(t, p)
  {
    forall k | 0 <= k <= |p| ensures !IsLink(t, p[..k]) {
      if k <= |a| {
        assert p[..k] == a[..k];
      } else {
        var e := a + [p[|a|]];
        assert p[..k][..|a| + 1] == e;
        assert Under(e, p[..k]);
        if p[..k] in t && p[..k] != e && e !in t {
          AncestorsAreDirs(t, p[..k], e);
        }
      }
    }
    ResolvePlain(t, p);
  }

  // ----- A successful mass move -----

  /** Every file below the root reads the same through the new links; every entry of the root is a
      link, earlier ones as they were; and apart from the copies nothing outside the root changes. */
  lemma MassMoveReadsThrough(os: Fates, a: Path, b: Path, d: Disk)
    requires Ready(a, b, d.now) && At(d.now, a) == Some(Dir)
    requires MoveDir(os, d, true, true, a, b).1
    ensures
      var t, u := d.now, MoveDir(os, d, true, true, a, b).0.now;
      && (forall p :: p in t && Under(a, p) && t[p].File? ==> Stat(u, p) == Some(t[p]))
      && Entries(u, a) == Entries(t, a)
      && (forall n :: n in Entries(t, a) ==>
            At(u, a + [n]) == if IsLink(t, a + [n]) then At(t, a + [n]) else Some(Symlink(b + [n])))
      && (forall q :: !Under(a, q) && !(Under(b, q) && Mirror(b, a, q) in t) ==>
            At(u, q) == At(t, q) || (At(t, q) == None && At(u, q) == Some(Dir) && Under(q, b)))
  {
    MassMoveSwept(os, a, b, d);
    SweptReads(a, b, d.now, MoveDir(os, d, true, true, a, b).0.now);
  }

  lemma MassMoveSwept(os: Fates, a: Path, b: Path, d: Disk)
    requires Ready(a, b, d.now) && At(d.now, a) == Some(Dir)
    requires MoveDir(os, d, true, true, a, b).1
    ensures
      var e := MoveDir(os, d, true, true, a, b).0;
      && Under(a, a) && Swept(a, b, d.now, e.now, a, Entries(d.now, a), true)
      && Ready(a, b, e.now) && At(e.now, a) == Some(Dir)
  {
    MoveDirExact(os, a, b, d, true, true, a, b);
    MoveDirSafe(os, a, b, d, true, true, a, b);
    ReadyNow(a, b, d, MoveDir(os, d, true, true, a, b).0);
  }

  lemma SweptReads(a: Path, b: Path, t: Tree, u: Tree)
    requires Ready(a, b, t) && Ready(a, b, u) && At(t, a) == Some(Dir)
    requires Under(a, a) && Swept(a, b, t, u, a, Entries(t, a), true)
    ensures forall p :: p in t && Under(a, p) && t[p].File? ==> Stat(u, p) == Some(t[p])
    ensures Entries(u, a) == Entries(t, a)
    ensures forall n :: n in Entries(t, a) ==>
              At(u, a + [n]) == if IsLink(t, a + [n]) then At(t, a + [n]) else Some(Symlink(b + [n]))
    ensures forall q :: !Under(a, q) && !(Under(b, q) && Mirror(b, a, q) in t) ==>
              At(u, q) == At(t, q) || (At(t, q) == None && At(u, q) == Some(Dir) && Under(q, b))
  {
    forall n
      ensures n in Entries(u, a) <==> n in Entries(t, a)
      ensures n in Entries(t, a) ==>
                At(u, a + [n]) == if IsLink(t, a + [n]) then At(t, a + [n]) else Some(Symlink(b + [n]))
    {
      EntriesOf(t, a, n);
      EntriesOf(u, a, n);
      SweptEntry(a, b, t, u, Entries(t, a), n);
    }
    forall p | p in t && Under(a, p) && t[p].File? ensures Stat(u, p) == Some(t[p]) {
      SweptFileReads(a, b, t, u, p);
    }
    forall q | !Under(a, q) && !(Under(b, q) && Mirror(b, a, q) in t)
      ensures At(u, q) == At(t, q) || (At(t, q) == None && At(u, q) == Some(Dir) && Under(q, b))
    {
      SweptElsewhere(a, b, t, u, q);
    }
  }

  lemma SweptEntry(a: Path, b: Path, t: Tree, u: Tree, names: set<Name>, n: Name)
    requires Ready(a, b, t) && Swept(a, b, t, u, a, names, true)
    ensures
      At(u, a + [n]) ==
        if n in names && a + [n] in t && !t[a + [n]].Symlink? then Some(Symlink(b + [n])) else At(t, a + [n])
  {
    var e := a + [n];
    assert SweptAt(a, b, t, u, a, names, true, e);
    MirrorChild(a, b, a, n);
    assert Under(a, e) && e[|a|] == n;
    SourceSide(a, b, a, e);
    assert Mirror(a, b, a) == b;
  }

  lemma SweptElsewhere(a: Path, b: Path, t: Tree, u: Tree, q: Path)
    requires Ready(a, b, t) && Swept(a, b, t, u, a, Entries(t, a), true)
    requires !Under(a, q) && !(Under(b, q) && Mirror(b, a, q) in t)
    ensures At(u, q) == At(t, q) || (At(t, q) == None && At(u, q) == Some(Dir) && Under(q, b))
  {
    assert SweptAt(a, b, t, u, a, Entries(t, a), true, q);
    assert Mirror(a, b, a) == b;
  }

  /** The mirror of a taken path holds what stood at that path, or else what stood at the mirror. */
  lemma SweptMirror(a: Path, b: Path, t: Tree, u: Tree, names: set<Name>, p: Path)
    requires Ready(a, b, t) && Swept(a, b, t, u, a, names, true)
    requires Under(a, p) && p != a
    ensures
      var e, m := a + [p[|a|]], Mirror(a, b, p);
      At(u, m) == if p[|a|] in names && p in t && e in t && !t[e].Symlink? then At(t, p) else At(t, m)
  {
    var m := Mirror(a, b, p);
    MirrorFacts(a, b, p);
    MirrorApart(a, b, p, m);
    assert SweptAt(a, b, t, u, a, names, true, m);
    assert Mirror(a, b, a) == b && |m| > |b|;
  }

  lemma SweptFileReads(a: Path, b: Path, t: Tree, u: Tree, p: Path)
    requires Ready(a, b, t) && Ready(a, b, u) && Swept(a, b, t, u, a, Entries(t, a), true)
    requires p in t && Under(a, p) && t[p].File?
    requires At(t, a) == Some(Dir)
    ensures Stat(u, p) == Some(t[p])
  {
    FileEntry(t, a, p);
    EntriesOf(t, a, p[|a|]);
    SweptMirror(a, b, t, u, Entries(t, a), p);
    SweptEntry(a, b, t, u, Entries(t, a), p[|a|]);
    LinkedFileReads(a, b, u, p);
  }

  /** A file below a directory lies in one of its entries, and that entry is no link. */
  lemma FileEntry(t: Tree, a: Path, p: Path)
    requires WellFormed(t) && At(t, a) == Some(Dir) && p in t && Under(a, p) && t[p].File?
    ensures p != a && a + [p[|a|]] in t && !t[a + [p[|a|]]].Symlink?
  {
    assert |p| == |a| ==> p == a;
    BelowEntry(a, p[|a|], p);
    if p != a + [p[|a|]] { AncestorsAreDirs(t, p, a + [p[|a|]]); }
  }

  lemma LinkedFileReads(a: Path, b: Path, u: Tree, p: Path)
    requires WellFormed(u) && Plain(u, a) && Under(a, p) && p != a
    requires At(u, a + [p[|a|]]) == Some(Symlink(b + [p[|a|]]))
    requires Mirror(a, b, p) in u && u[Mirror(a, b, p)].File?
    ensures Stat(u, p) == At(u, Mirror(a, b, p))
  {
    var n := p[|a|];
    BelowEntry(a, n, p);
    assert Mirror(a, b, p) == (b + [n]) + p[|a| + 1..];
    assert Plain(u, Mirror(a, b, p)) by { ExistingIsPlain(u, Mirror(a, b, p)); }
    ReadThroughLink(u, a, n, b + [n], p);
  }

  // ----- The whole library, moved titles and all -----

  /** Every entry of the root is either no link or one that an earlier move left. */
  ghost predicate Shelved(a: Path, b: Path, t: Tree) {
    forall n :: IsLink(t, a + [n]) ==> t[a + [n]].target == b + [n] && Clean(t, b + [n])
  }

  /** A name that is still to be moved is not in use at the destination, but for copies of plain files. */
  ghost predicate FreshNames(a: Path, b: Path, t: Tree) {
    forall n :: a + [n] in t && !IsLink(t, a + [n]) ==>
      b + [n] !in t || (t[a + [n]].File? && t[b + [n]].File?)
  }

  /** What is still to be moved has only files and directories in it. */
  ghost predicate Tidy(a: Path, t: Tree, moving: set<Name>) {
    forall n :: a + [n] in t && !IsLink(t, a + [n]) && n !in moving ==> Clean(t, a + [n])
  }

  /** Titles not yet moved, titles moved earlier, and plain files, moved or only copied. */
  ghost predicate InOrder(a: Path, b: Path, t: Tree) {
    Shelved(a, b, t) && FreshNames(a, b, t) && Tidy(a, t, {})
  }

  /** Every path below the root, present or absent, file or directory, reads the same. */
  ghost predicate SameLibrary(a: Path, t: Tree, u: Tree) {
    forall p :: Under(a, p) ==> Stat(u, p) == Stat(t, p)
  }

  /** What lies at and below the mirror of an entry of the root after a sweep. */
  lemma ShelfClean(a: Path, b: Path, t: Tree, u: Tree, names: set<Name>, n: Name)
    requires Ready(a, b, t) && Swept(a, b, t, u, a, names, true)
    requires Shelved(a, b, t) && FreshNames(a, b, t)
    requires IsLink(u, a + [n])
    ensures u[a + [n]].target == b + [n] && Clean(u, b + [n])
  {
    var e := a + [n];
    SweptEntry(a, b, t, u, names, n);
    forall q | q in u && Under(b + [n], q) ensures u[q].File? || u[q].Dir? {
      BelowEntry(b, n, q);
      var p := Mirror(b, a, q);
      MirrorFacts(b, a, q);
      BelowEntry(a, n, p);
      SweptMirror(a, b, t, u, names, p);
      if t[e].Symlink? {
        assert Clean(t, b + [n]);
      } else if p in t {
        assert Clean(t, e);
      } else {
        assert q in t;
        if q != b + [n] { AncestorsAreDirs(t, q, b + [n]); }
      }
    }
  }

  /** A title that a sweep leaves alone, and its name at the destination. */
  lemma SweptLeaves(a: Path, b: Path, t: Tree, u: Tree, names: set<Name>, n: Name)
    requires Ready(a, b, t) && Swept(a, b, t, u, a, names, true)
    requires a + [n] in u && !IsLink(u, a + [n])
    ensures n !in names && At(u, b + [n]) == At(t, b + [n])
    ensures forall q :: Under(a + [n], q) ==> At(u, q) == At(t, q)
  {
    SweptEntry(a, b, t, u, names, n);
    MirrorChild(a, b, a, n);
    assert (a + [n])[|a|] == n && Mirror(a, b, a) == b;
    SweptMirror(a, b, t, u, names, a + [n]);
    forall q | Under(a + [n], q) ensures At(u, q) == At(t, q) {
      BelowEntry(a, n, q);
      UntouchedSource(a, b, t, u, a, names, true, q);
    }
  }

  lemma SweptInOrder(a: Path, b: Path, t: Tree, u: Tree, names: set<Name>)
    requires Ready(a, b, t) && Swept(a, b, t, u, a, names, true)
    requires Shelved(a, b, t) && FreshNames(a, b, t) && Tidy(a, t, names)
    ensures InOrder(a, b, u)
  {
    forall n | IsLink(u, a + [n]) ensures u[a + [n]].target == b + [n] && Clean(u, b + [n]) {
      ShelfClean(a, b, t, u, names, n);
    }
    forall n | a + [n] in u && !IsLink(u, a + [n])
      ensures b + [n] !in u || (u[a + [n]].File? && u[b + [n]].File?)
      ensures Clean(u, a + [n])
    {
      SweptLeaves(a, b, t, u, names, n);
      assert Under(a + [n], a + [n]);
      assert Clean(t, a + [n]);
    }
  }

  /** A path in a title that has been moved reads what stands at its mirror. */
  lemma ReadsAtMirror(a: Path, b: Path, t: Tree, p: Path)
    requires Ready(a, b, t) && Shelved(a, b, t) && Under(a, p) && p != a && IsLink(t, a + [p[|a|]])
    ensures Stat(t, p) == At(t, Mirror(a, b, p))
  {
    var n, m := p[|a|], Mirror(a, b, p);
    assert m == (b + [n]) + p[|a| + 1..];
    BelowEntry(a, n, p);
    ShelfReads(a, b, t, n, m);
    ReadThroughLink(t, a, n, b + [n], p);
  }

  /** Behind a link that a move has left there are no more links. */
  lemma ShelfReads(a: Path, b: Path, t: Tree, n: Name, m: Path)
    requires WellFormed(t) && Plain(t, b) && Shelved(a, b, t) && IsLink(t, a + [n]) && Under(b + [n], m)
    ensures Plain(t, m) && Stat(t, m) == At(t, m)
  {
    BelowEntry(b, n, m);
    assert Clean(t, b + [n]);
    ReadDirectly(t, b, m);
  }

  /** Where a name is fresh, nothing is at the mirror of a path that is not there. */
  lemma NothingFurther(a: Path, b: Path, t: Tree, p: Path)
    requires WellFormed(t) && FreshNames(a, b, t) && Under(a, p) && p != a
    requires a + [p[|a|]] in t && !IsLink(t, a + [p[|a|]]) && p !in t
    ensures Mirror(a, b, p) !in t
  {
    var n, m := p[|a|], Mirror(a, b, p);
    assert m == (b + [n]) + p[|a| + 1..] && p == (a + [n]) + p[|a| + 1..];
    assert Under(b + [n], m);
    if m in t {
      assert m != b + [n] by { assert p != a + [n]; }
      AncestorsAreDirs(t, m, b + [n]);
    }
  }

  /** A path in a title that a sweep has moved, before and after. */
  lemma SameBehindLink(a: Path, b: Path, t: Tree, u: Tree, names: set<Name>, p: Path)
    requires Ready(a, b, t) && Ready(a, b, u) && Swept(a, b, t, u, a, names, true)
    requires Shelved(a, b, t) && FreshNames(a, b, t) && Shelved(a, b, u)
    requires Under(a, p) && p != a && IsLink(u, a + [p[|a|]])
    ensures Stat(u, p) == Stat(t, p)
  {
    var n := p[|a|];
    SweptEntry(a, b, t, u, names, n);
    SweptMirror(a, b, t, u, names, p);
    ReadsAtMirror(a, b, u, p);
    if IsLink(t, a + [n]) {
      ReadsAtMirror(a, b, t, p);
    } else {
      assert Clean(t, a + [n]);
      ReadDirectly(t, a, p);
      if p !in t {
        NothingFurther(a, b, t, p);
      }
    }
  }

  lemma SamePathReads(a: Path, b: Path, t: Tree, u: Tree, names: set<Name>, p: Path)
    requires Ready(a, b, t) && Ready(a, b, u) && Swept(a, b, t, u, a, names, true)
    requires Shelved(a, b, t) && FreshNames(a, b, t) && Tidy(a, t, names) && InOrder(a, b, u)
    requires At(t, a) == Some(Dir) == At(u, a) && Under(a, p)
    ensures Stat(u, p) == Stat(t, p)
  {
    if p == a {
      ReadDirectly(t, a, p);
      ReadDirectly(u, a, p);
    } else if IsLink(u, a + [p[|a|]]) {
      SameBehindLink(a, b, t, u, names, p);
    } else if a + [p[|a|]] in u {
      LeftAloneReads(a, b, t, u, names, p);
    } else {
      SweptEntry(a, b, t, u, names, p[|a|]);
      AbsentEntry(t, a, p);
      AbsentEntry(u, a, p);
    }
  }

  lemma LeftAloneReads(a: Path, b: Path, t: Tree, u: Tree, names: set<Name>, p: Path)
    requires Ready(a, b, t) && Ready(a, b, u) && Swept(a, b, t, u, a, names, true)
    requires Tidy(a, t, names) && Tidy(a, u, {})
    requires Under(a, p) && p != a && a + [p[|a|]] in u && !IsLink(u, a + [p[|a|]])
    ensures Stat(u, p) == Stat(t, p)
  {
    var n := p[|a|];
    BelowEntry(a, n, p);
    SweptLeaves(a, b, t, u, names, n);
    assert Under(a + [n], a + [n]) && At(t, a + [n]) == At(u, a + [n]);
    assert Clean(t, a + [n]) && Clean(u, a + [n]);
    ReadDirectly(t, a, p);
    ReadDirectly(u, a, p);
  }

  lemma AbsentEntry(t: Tree, a: Path, p: Path)
    requires WellFormed(t) && Plain(t, a) && Under(a, p) && p != a && a + [p[|a|]] !in t
    ensures Stat(t, p) == None
  {
    ReadDirectly(t, a, p);
    BelowEntry(a, p[|a|], p);
    if p in t && p != a + [p[|a|]] { AncestorsAreDirs(t, p, a + [p[|a|]]); }
  }

  lemma SweptLibrary(a: Path, b: Path, t: Tree, u: Tree, names: set<Name>)
    requires Ready(a, b, t) && Ready(a, b, u) && Swept(a, b, t, u, a, names, true)
    requires Shelved(a, b, t) && FreshNames(a, b, t) && Tidy(a, t, names)
    requires At(t, a) == Some(Dir) == At(u, a)
    ensures SameLibrary(a, t, u) && InOrder(a, b, u)
  {
    SweptInOrder(a, b, t, u, names);
    forall p | Under(a, p) ensures Stat(u, p) == Stat(t, p) {
      SamePathReads(a, b, t, u, names, p);
    }
  }

  /** For a library of unmoved and earlier moved titles, every path below the root, present or absent,
      file or directory, reads exactly as before; and the result is again such a library. */
  lemma LibraryUnchanged(os: Fates, a: Path, b: Path, d: Disk)
    requires Ready(a, b, d.now) && At(d.now, a) == Some(Dir)
    requires Shelved(a, b, d.now) && FreshNames(a, b, d.now)
    requires MoveDir(os, d, true, true, a, b).1
    ensures
      var u := MoveDir(os, d, true, true, a, b).0.now;
      SameLibrary(a, d.now, u) && InOrder(a, b, u)
  {
    MassMoveSwept(os, a, b, d);
    forall n | a + [n] in d.now ensures n in Entries(d.now, a) {
      EntriesOf(d.now, a, n);
    }
    SweptLibrary(a, b, d.now, MoveDir(os, d, true, true, a, b).0.now, Entries(d.now, a));
  }

  /** The same for one title moved on its own, as the scheduled pass does: a directory, or a plain file, which
      is only copied. */
  lemma TitleUnchanged(os: Fates, a: Path, b: Path, d: Disk, n: Name)
    requires Ready(a, b, d.now) && At(d.now, a) == Some(Dir) && InOrder(a, b, d.now)
    requires a + [n] in d.now && !IsLink(d.now, a + [n])
    requires MoveDir(os, d, true, false, a + [n], b).1
    ensures
      var u := MoveDir(os, d, true, false, a + [n], b).0.now;
      SameLibrary(a, d.now, u) && InOrder(a, b, u) && Ready(a, b, u) && At(u, a) == Some(Dir)
  {
    var t := d.now;
    var u := MoveDir(os, d, true, false, a + [n], b).0.now;
    if t[a + [n]].File? {
      MirrorChild(a, b, a, n);
      assert Mirror(a, b, a) == b && Under(a, a);
      TargetedFileOnlyCopied(os, a, b, d, a + [n], b);
      MoveDirSafe(os, a, b, d, true, false, a + [n], b);
      ReadyNow(a, b, d, MoveDir(os, d, true, false, a + [n], b).0);
      CopiedInOrder(a, b, t, n);
      forall p | Under(a, p) ensures Stat(u, p) == Stat(t, p) {
        CopiedReads(a, b, t, u, n, p);
      }
    } else {
      MoveTitleSwept(os, a, b, d, n);
      assert SweptAt(a, b, t, u, a, {n}, true, a);
      SourceSide(a, b, a, a);
      SweptLibrary(a, b, t, u, {n});
    }
  }

  lemma CopiedInOrder(a: Path, b: Path, t: Tree, n: Name)
    requires Ready(a, b, t) && InOrder(a, b, t) && a + [n] in t && t[a + [n]].File?
    ensures InOrder(a, b, t[b + [n] := t[a + [n]]])
  {
    var u := t[b + [n] := t[a + [n]]];
    assert Under(b, b + [n]);
    forall q | Under(a, q) ensures At(u, q) == At(t, q) {
      if q == b + [n] { UnderBoth(a, b, q); }
    }
    forall k | a + [k] in u
      ensures IsLink(u, a + [k]) ==> u[a + [k]].target == b + [k] && Clean(u, b + [k])
      ensures !IsLink(u, a + [k]) ==> Clean(u, a + [k]) && (b + [k] !in u || (u[a + [k]].File? && u[b + [k]].File?))
    {
      assert Under(a, a + [k]) && At(u, a + [k]) == At(t, a + [k]);
      assert k != n ==> b + [k] != b + [n] by { assert (b + [k])[|b|] == k && (b + [n])[|b|] == n; }
      if IsLink(t, a + [k]) {
        assert Clean(t, b + [k]);
      } else {
        forall q | q in u && Under(a + [k], q) ensures u[q].File? || u[q].Dir? {
          UnderTransitive(a, a + [k], q);
          assert At(u, q) == At(t, q);
        }
      }
    }
  }

  lemma CopiedReads(a: Path, b: Path, t: Tree, u: Tree, n: Name, p: Path)
    requires Ready(a, b, t) && Ready(a, b, u) && InOrder(a, b, t) && InOrder(a, b, u)
    requires a + [n] in t && t[a + [n]].File? && u == t[b + [n] := t[a + [n]]]
    requires Under(a, p)
    ensures Stat(u, p) == Stat(t, p)
  {
    assert Under(b, b + [n]);
    forall q | Under(a, q) ensures At(u, q) == At(t, q) {
      if q == b + [n] { UnderBoth(a, b, q); }
    }
    if p != a && IsLink(t, a + [p[|a|]]) {
      MirrorFacts(a, b, p);
      assert Mirror(a, b, p)[|b|] == p[|a|] && (b + [n])[|b|] == n;
      assert Under(a, a + [p[|a|]]);
      ReadsAtMirror(a, b, t, p);
      ReadsAtMirror(a, b, u, p);
    } else {
      if p != a { assert Under(a, a + [p[|a|]]); }
      ReadDirectly(t, a, p);
      ReadDirectly(u, a, p);
    }
  }

  // ----- Any number of moves -----

  datatype Move = All | Only(name: Name)

  /** Moves of everything and of single titles, one after the other as long as they succeed. Like the pass that
      asks for them, a title that is gone or a link by now is passed over. */
  function Moves(os: Fates, d: Disk, a: Path, b: Path, moves: seq<Move>): (Disk, bool)
    decreases |moves|
  {
    if moves == [] then (d, true)
    else
      var (e, ok) :=
        if moves[0].All? then MoveDir(os, d, true, true, a, b)
        else if Lstat(d.now, a + [moves[0].name]) == None || IsLink(d.now, a + [moves[0].name]) then (d, true)
        else MoveDir(os, d, true, false, a + [moves[0].name], b);
      if ok then Moves(os, e, a, b, moves[1..]) else (e, false)
  }

  /** Any number of moves of either kind leave every path below the root reading as it did at first. */
  lemma {:induction false} MovesUnchanged(os: Fates, a: Path, b: Path, d: Disk, moves: seq<Move>)
    requires Ready(a, b, d.now) && At(d.now, a) == Some(Dir) && InOrder(a, b, d.now)
    requires Moves(os, d, a, b, moves).1
    ensures
      var u := Moves(os, d, a, b, moves).0.now;
      SameLibrary(a, d.now, u) && InOrder(a, b, u) && Ready(a, b, u) && At(u, a) == Some(Dir)
    decreases |moves|
  {
    if moves != [] {
      if moves[0].All? {
        MassMoveSwept(os, a, b, d);
        LibraryUnchanged(os, a, b, d);
        MovesUnchanged(os, a, b, MoveDir(os, d, true, true, a, b).0, moves[1..]);
      } else {
        var n := moves[0].name;
        MirrorChild(a, b, a, n);
        LocatePlain(d.now, a + [n]);
        if a + [n] !in d.now || IsLink(d.now, a + [n]) {
          MovesUnchanged(os, a, b, d, moves[1..]);
        } else {
          TitleUnchanged(os, a, b, d, n);
          MovesUnchanged(os, a, b, MoveDir(os, d, true, false, a + [n], b).0, moves[1..]);
        }
      }
    }
  }

  // ----- The two modes agree -----

  /** Targeted moves of the named entries, one after the other, as long as they succeed. */
  function MoveTitles(os: Fates, d: Disk, a: Path, b: Path, names: seq<Name>): (Disk, bool)
    decreases |names|
  {
    if names == [] then (d, true)
    else
      var (e, ok) := MoveDir(os, d, true, false, a + [names[0]], b);
      if ok then MoveTitles(os, e, a, b, names[1..]) else (e, false)
  }

  function NameSet(names: seq<Name>): set<Name> {
    set n | n in names
  }

  lemma NameSetCons(names: seq<Name>)
    requires names != []
    ensures NameSet(names) == {names[0]} + NameSet(names[1..])
  {
  }

  lemma {:induction false} MoveTitlesSwept(os: Fates, a: Path, b: Path, d: Disk, names: seq<Name>)
    requires Ready(a, b, d.now) && Under(a, a)
    requires forall i, j :: 0 <= i < j < |names| ==> names[i] != names[j]
    requires forall n :: n in names ==> At(d.now, a + [n]) == Some(Dir)
    requires MoveTitles(os, d, a, b, names).1
    ensures Swept(a, b, d.now, MoveTitles(os, d, a, b, names).0.now, a, NameSet(names), true)
    ensures Ready(a, b, MoveTitles(os, d, a, b, names).0.now)
    decreases |names|
  {
    if names != [] {
      var n := names[0];
      var e := MoveDir(os, d, true, false, a + [n], b).0;
      MoveTitleSwept(os, a, b, d, n);
      assert n !in names[1..];
      MoveTitlesSwept(os, a, b, e, names[1..]);
      NameSetCons(names);
      SweptCompose(a, b, d.now, e.now, MoveTitles(os, e, a, b, names[1..]).0.now, a, {n}, NameSet(names[1..]), true);
    }
  }

  lemma MoveTitleSwept(os: Fates, a: Path, b: Path, d: Disk, n: Name)
    requires Ready(a, b, d.now) && a + [n] in d.now && !d.now[a + [n]].Symlink? && !d.now[a + [n]].File?
    requires MoveDir(os, d, true, false, a + [n], b).1
    ensures
      var e := MoveDir(os, d, true, false, a + [n], b).0;
      && Under(a, a) && Swept(a, b, d.now, e.now, a, {n}, true) && Ready(a, b, e.now)
      && forall m :: m != n ==> At(e.now, a + [m]) == At(d.now, a + [m])
  {
    var src := a + [n];
    MirrorChild(a, b, a, n);
    assert Mirror(a, b, a) == b && Parent(src) == a && Last(src) == n;
    var e := MoveDir(os, d, true, false, src, b).0;
    MoveDirSafe(os, a, b, d, true, false, src, b);
    MoveDirExact(os, a, b, d, true, false, src, b);
    ReadyNow(a, b, d, e);
    forall m | m != n ensures At(e.now, a + [m]) == At(d.now, a + [m]) {
      MirrorChild(a, b, a, m);
      BelowEntry(a, n, a + [m]);
    }
  }

  /** A sweep leaves no freedom: the same entries taken from the same tree give the same tree. */
  lemma SweptUnique(a: Path, b: Path, t: Tree, u: Tree, v: Tree, s: Path, m: set<Name>, n: set<Name>, link: bool)
    requires Apart(a, b) && Under(a, s) && WellFormed(u) && WellFormed(v)
    requires Swept(a, b, t, u, s, m, link) && Swept(a, b, t, v, s, n, link)
    requires forall x :: s + [x] in t && !t[s + [x]].Symlink? ==> (x in m <==> x in n)
    ensures u == v
  {
    forall q ensures Taken(t, s, m, q) == Taken(t, s, n, q) {}
    if x :| x in m && s + [x] in t && !t[s + [x]].Symlink? {
      SweptCopy(a, b, t, u, s, m, link, x);
      SweptCopy(a, b, t, v, s, n, link, x);
      var copy := Mirror(a, b, s) + [x];
      forall q ensures At(u, q) == At(v, q) {
        assert SweptAt(a, b, t, u, s, m, link, q);
        assert SweptAt(a, b, t, v, s, n, link, q);
        if Under(q, Mirror(a, b, s)) {
          assert Under(q, copy) by { assert copy[..|q|] == Mirror(a, b, s)[..|q|]; }
          AncestorsAreDirs(u, copy, q);
          AncestorsAreDirs(v, copy, q);
        }
      }
      SameTree(u, v);
    }
  }

  lemma SweptCopy(a: Path, b: Path, t: Tree, u: Tree, s: Path, m: set<Name>, link: bool, x: Name)
    requires Apart(a, b) && Under(a, s) && Swept(a, b, t, u, s, m, link)
    requires x in m && s + [x] in t && !t[s + [x]].Symlink?
    ensures Mirror(a, b, s) + [x] in u
  {
    var e := s + [x];
    var copy := Mirror(a, b, s) + [x];
    MirrorChild(a, b, s, x);
    assert Under(s, e) && e[|s|] == x;
    TakenSides(a, b, t, s, m, e);
    assert SweptAt(a, b, t, u, s, m, link, copy);
  }

  /** On a root whose entries are links and directories, a mass move and targeted moves of each
      directory, in any order, leave the same disk. */
  lemma ModesAgree(os: Fates, os': Fates, a: Path, b: Path, d: Disk, names: seq<Name>)
    requires Ready(a, b, d.now) && At(d.now, a) == Some(Dir)
    requires forall n :: n in Entries(d.now, a) ==> IsLink(d.now, a + [n]) || At(d.now, a + [n]) == Some(Dir)
    requires Enumerates(names, set n | n in Entries(d.now, a) && !IsLink(d.now, a + [n]))
    requires MoveDir(os, d, true, true, a, b).1 && MoveTitles(os', d, a, b, names).1
    ensures MoveDir(os, d, true, true, a, b).0.now == MoveTitles(os', d, a, b, names).0.now
  {
    var t := d.now;
    MassMoveSwept(os, a, b, d);
    MoveTitlesSwept(os', a, b, d, names);
    var all := NameSet(names);
    forall x | a + [x] in t && !t[a + [x]].Symlink? ensures x in Entries(t, a) <==> x in all {
      EntriesOf(t, a, x);
    }
    SweptUnique(a, b, t, MoveDir(os, d, true, true, a, b).0.now, MoveTitles(os', d, a, b, names).0.now,
                a, Entries(t, a), all, true);
  }

  // ----- Moving again -----

  /** The loop over links only reads. */
  lemma {:induction false} LinksOnly(os: Fates, a: Path, b: Path, d: Disk, names: seq<Name>)
    requires Ready(a, b, d.now) && At(d.now, a) == Some(Dir) && |a| <= PATH_LIMIT
    requires forall n :: n in names ==> IsLink(d.now, a + [n])
    ensures
      var (e, ok) := MoveEntries(os, d, true, true, a, b, names);
      && e.past == d.past && e.now == d.now && d.clock <= e.clock
      && (Reliable(os, d.clock) ==> ok)
    decreases |names|
  {
    var d1 := d.Tick();
    if names != [] {
      LinkSkipped(os, a, b, d1, names[0]);
      if os(d.clock).works && os(d1.clock).works {
        LinksOnly(os, a, b, d1.Tick(), names[1..]);
      }
    }
  }

  lemma LinkSkipped(os: Fates, a: Path, b: Path, d: Disk, n: Name)
    requires Ready(a, b, d.now) && At(d.now, a) == Some(Dir) && |a| <= PATH_LIMIT
    requires IsLink(d.now, a + [n])
    ensures MoveEntry(os, d, true, true, a, b, n) == (d.Tick(), os(d.clock).works)
  {
    EntryLookup(a, b, d.now, a, n);
  }

  /** A call on a root that holds only links. */
  lemma LinkedRoot(os: Fates, a: Path, b: Path, d: Disk)
    requires Ready(a, b, d.now) && At(d.now, a) == Some(Dir) && a != [] && |a| <= PATH_LIMIT
    requires forall n :: n in Entries(d.now, a) ==> IsLink(d.now, a + [n])
    ensures
      var (e, ok) := MoveDir(os, d, true, true, a, b);
      && e.past == d.past && e.now == d.now
      && (Reliable(os, d.clock) ==> ok)
  {
    ResolvePlain(d.now, a);
    MassMoveUnfolds(os, d, a, b);
    var (d3, names) := ReadDir(os, d.Tick(), a);
    if names.Some? {
      LinksOnly(os, a, b, d3, names.value);
    }
  }

  /** A mass move of a root that a mass move has already emptied changes nothing at any point, and
      fails only if the system fails one of its reads. */
  lemma MovingAgainChangesNothing(os: Fates, os': Fates, a: Path, b: Path, d: Disk)
    requires Ready(a, b, d.now) && At(d.now, a) == Some(Dir) && MoveDir(os, d, true, true, a, b).1
    ensures
      var once := MoveDir(os, d, true, true, a, b).0;
      var (twice, ok) := MoveDir(os', once, true, true, a, b);
      && twice.past == once.past && twice.now == once.now
      && (Reliable(os', once.clock) ==> ok)
  {
    AllLinked(os, a, b, d);
    LinkedRoot(os', a, b, MoveDir(os, d, true, true, a, b).0);
  }

  lemma AllLinked(os: Fates, a: Path, b: Path, d: Disk)
    requires Ready(a, b, d.now) && At(d.now, a) == Some(Dir) && MoveDir(os, d, true, true, a, b).1
    ensures
      var once := MoveDir(os, d, true, true, a, b).0;
      && Ready(a, b, once.now) && At(once.now, a) == Some(Dir) && a != [] && |a| <= PATH_LIMIT
      && forall n :: n in Entries(once.now, a) ==> IsLink(once.now, a + [n])
  {
    var once := MoveDir(os, d, true, true, a, b).0;
    MassMoveSwept(os, a, b, d);
    SweptReads(a, b, d.now, once.now);
    ResolvePlain(d.now, a);
    forall n | n in Entries(once.now, a) ensures IsLink(once.now, a + [n]) {
      EntriesOf(once.now, a, n);
    }
  }
}
