/** Removing a title's files by either of its names: where it is indexed, and where it is mirrored. */
module MediaRemoval {
  import opened FileSystem
  import opened DiskStates
  import opened Host
  import opened TreeMover
  import opened MoverSafety
  import opened MoverExact
  import opened MovePairs
  import opened Library

  // ----- What is removed -----

  /** The other name of `p` under one pair of roots, if it lies strictly below one of them. */
  function OtherName(x: Pair, p: Path): Option<Path> {
    if Under(x.src, p) then (if p == x.src then None else Some(x.dst + p[|x.src|..]))
    else if Under(x.dst, p) then (if p == x.dst then None else Some(x.src + p[|x.dst|..]))
    else None
  }

  function OtherNames(pairs: seq<Pair>, p: Path): seq<Path>
    decreases |pairs|
  {
    if pairs == [] then []
    else
      var other := OtherName(pairs[|pairs| - 1], p);
      OtherNames(pairs[..|pairs| - 1], p) + if other.Some? then [other.value] else []
  }

  function RemovalList(pairs: seq<Pair>, p: Path): seq<Path> {
    [p] + OtherNames(pairs, p)
  }

  function RemovePath(os: Fates, d: Disk, p: Path): (Disk, bool) {
    var (d1, meta) := Metadata(os, d, p);
    match meta
    case NotFound => (d1, true)
    case Error => (d1, false)
    case Found(node) => if node.Dir? then RemoveTree(os, d1, p) else RemoveFile(os, d1, p)
  }

  /** One path after the other, up to the first that cannot be removed. */
  function RemovePaths(os: Fates, d: Disk, paths: seq<Path>): (Disk, bool)
    decreases |paths|
  {
    if paths == [] then (d, true)
    else
      var (d1, ok) := RemovePath(os, d, paths[0]);
      if ok then RemovePaths(os, d1, paths[1..]) else (d1, false)
  }

  /** `indexed` is None for a title without a path, or with an empty one. */
  function RemoveMediaFiles(os: Fates, d: Disk, pairs: seq<Pair>, indexed: Option<Path>): (Disk, bool) {
    if indexed.None? then (d, true) else RemovePaths(os, d, RemovalList(pairs, indexed.value))
  }

  method RemovePathInPlace(m: Machine, p: Path) returns (ok: bool)
    modifies m`disk
    ensures (m.disk, ok) == RemovePath(m.os, old(m.disk), p)
  {
    var meta := m.Metadata(p);
    match meta {
      case NotFound => ok := true;
      case Error => ok := false;
      case Found(node) =>
        if node.Dir? {
          ok := m.RemoveTree(p);
        } else {
          ok := m.RemoveFile(p);
        }
    }
  }

  method RemoveMediaFilesInPlace(m: Machine, pairs: seq<Pair>, indexed: Option<Path>) returns (ok: bool)
    modifies m`disk
    ensures (m.disk, ok) == RemoveMediaFiles(m.os, old(m.disk), pairs, indexed)
  {
    if indexed.None? {
      return true;
    }
    var p := indexed.value;
    var paths := [p];
    for i := 0 to |pairs|
      invariant paths == [p] + OtherNames(pairs[..i], p)
    {
      var x := pairs[i];
      assert pairs[..i + 1][..i] == pairs[..i] && pairs[..i + 1][i] == x;
      if Under(x.src, p) {
        if p != x.src {
          paths := paths + [x.dst + p[|x.src|..]];
        }
      } else if Under(x.dst, p) {
        if p != x.dst {
          paths := paths + [x.src + p[|x.dst|..]];
        }
      }
    }
    assert pairs[..|pairs|] == pairs;
    var i := 0;
    while i < |paths|
      invariant 0 <= i <= |paths|
      invariant RemovePaths(m.os, m.disk, paths[i..]) == RemovePaths(m.os, old(m.disk), paths)
    {
      assert paths[i..][0] == paths[i] && paths[i..][1..] == paths[i + 1..];
      ok := RemovePathInPlace(m, paths[i]);
      if !ok {
        return;
      }
      i := i + 1;
    }
    ok := true;
  }

  // ----- The two names are each other's mirror -----

  /** All roots, of all pairs, are apart. */
  ghost predicate RootsApart(pairs: seq<Pair>) {
    && (forall i :: 0 <= i < |pairs| ==> Apart(pairs[i].src, pairs[i].dst))
    && (forall i, j :: 0 <= i < j < |pairs| ==> Separate(pairs[i], pairs[j]))
  }

  lemma OtherNameElsewhere(x: Pair, y: Pair, p: Path)
    requires Separate(x, y) && (Under(x.src, p) || Under(x.dst, p))
    ensures OtherName(y, p) == None
  {
    forall a, b | a in {x.src, x.dst} && b in {y.src, y.dst} && Under(a, p) && Under(b, p) ensures false {
      UnderBoth(a, b, p);
    }
  }

  lemma {:induction false} NoOtherNames(pairs: seq<Pair>, p: Path)
    requires forall i :: 0 <= i < |pairs| ==> OtherName(pairs[i], p) == None
    ensures OtherNames(pairs, p) == []
    decreases |pairs|
  {
    if pairs != [] {
      NoOtherNames(pairs[..|pairs| - 1], p);
    }
  }

  /** With `p` strictly below a root of pair `i`, there is exactly one other name, from that pair. */
  lemma {:induction false} OneOtherName(pairs: seq<Pair>, i: nat, p: Path)
    requires RootsApart(pairs) && i < |pairs| && OtherName(pairs[i], p).Some?
    ensures OtherNames(pairs, p) == [OtherName(pairs[i], p).value]
    decreases |pairs|
  {
    var k := |pairs| - 1;
    if i == k {
      forall j | 0 <= j < k ensures OtherName(pairs[..k][j], p) == None {
        OtherNameElsewhere(pairs[i], pairs[j], p);
      }
      NoOtherNames(pairs[..k], p);
    } else {
      OtherNameElsewhere(pairs[i], pairs[k], p);
      assert pairs[..k][i] == pairs[i];
      OneOtherName(pairs[..k], i, p);
    }
  }

  lemma MirrorBack(x: Pair, p: Path)
    requires Apart(x.src, x.dst) && OtherName(x, p).Some?
    ensures OtherName(x, OtherName(x, p).value) == Some(p)
  {
    if Under(x.src, p) {
      MirrorFacts(x.src, x.dst, p);
      MirrorApart(x.src, x.dst, p, Mirror(x.src, x.dst, p));
      if Under(x.dst, p) { UnderBoth(x.src, x.dst, p); }
    } else {
      MirrorFacts(x.dst, x.src, p);
    }
  }

  /** Removing by either name of a title removes the same two paths, whatever order the pairs come in. */
  lemma SameRemovalSet(pairs: seq<Pair>, pairs': seq<Pair>, i: nat, p: Path)
    requires RootsApart(pairs) && i < |pairs| && OtherName(pairs[i], p).Some?
    requires RootsApart(pairs') && pairs[i] in pairs'
    ensures
      var m := OtherName(pairs[i], p).value;
      && RemovalList(pairs, p) == [p, m]
      && RemovalList(pairs', m) == [m, p]
  {
    var m := OtherName(pairs[i], p).value;
    var j :| 0 <= j < |pairs'| && pairs'[j] == pairs[i];
    OneOtherName(pairs, i, p);
    MirrorBack(pairs[i], p);
    OneOtherName(pairs', j, m);
  }

  /** `q` is what the indexed path has to do with one pair: its mirror, if it lies strictly below a root. */
  predicate IsOther(x: Pair, p: Path, q: Path) {
    || (Under(x.src, p) && p != x.src && q == Mirror(x.src, x.dst, p))
    || (!Under(x.src, p) && Under(x.dst, p) && p != x.dst && q == Mirror(x.dst, x.src, p))
  }

  /** What is removed besides the indexed path, for any roots: its mirror under each root it lies strictly below. So
      a root itself, or a path that is below no root, is removed alone. */
  lemma {:induction false} RemovedExactly(pairs: seq<Pair>, p: Path, q: Path)
    ensures q in OtherNames(pairs, p) <==> exists x :: x in pairs && IsOther(x, p, q)
    ensures q in RemovalList(pairs, p) <==> q == p || exists x :: x in pairs && IsOther(x, p, q)
    decreases |pairs|
  {
    if pairs != [] {
      var front, last := pairs[..|pairs| - 1], pairs[|pairs| - 1];
      RemovedExactly(front, p, q);
      assert pairs == front + [last];
      assert OtherName(last, p) == Some(q) <==> IsOther(last, p, q);
      if x :| x in front && IsOther(x, p, q) { assert x in pairs; }
    }
  }

  // ----- What is gone afterwards -----

  /** Where a title is looked up: at its own path, or behind the link that a move has left at the root. */
  ghost predicate Shelf(a: Path, b: Path, t: Tree, p: Path)
    requires Under(a, p) && p != a
  {
    var n, m := p[|a|], Mirror(a, b, p);
    && m != [] && Plain(t, Parent(m))
    && (Plain(t, Parent(p)) || (p != a + [n] && At(t, a + [n]) == Some(Symlink(b + [n]))))
  }

  /** One removal: the subtree at the place where the path is looked up, and nothing else. */
  lemma RemovePathExact(os: Fates, d: Disk, p: Path, q: Path)
    requires WellFormed(d.now) && Locate(d.now, p) == Some(q) && q != []
    ensures
      var (e, ok) := RemovePath(os, d, p);
      && Always(d, e, OutsideSame(d.now, q)) && WellFormed(e.now)
      && (ok ==> e.now == d.now - Subtree(d.now, q))
  {
    var (e, ok) := RemovePath(os, d, p);
    var t, same := d.now, OutsideSame(d.now, q);
    var d1 := d.Tick();
    AlwaysOne(d, d1, same);
    PurgeStates(t, q, os(d1.clock).victims);
    if q in t && !t[q].Dir? {
      LeafSubtree(t, q);
      AlwaysOne(d, e, same);
    } else if q in t {
      var partial := d1.Tick().Push(t - Removed(t, q, os(d1.clock).victims));
      AlwaysOne(d, partial, same);
      if e != d1 && e != d1.Tick() {
        AlwaysOne(partial, e, same);
        AlwaysThen(d, partial, e, same);
      }
    } else {
      NothingBelow(t, q);
      assert t - Subtree(t, q) == t;
    }
  }

  lemma LeafSubtree(t: Tree, q: Path)
    requires WellFormed(t) && q in t && !t[q].Dir?
    ensures Subtree(t, q) == {q}
  {
    forall p | p in Subtree(t, q) ensures p == q {
      if p != q { AncestorsAreDirs(t, p, q); }
    }
    assert q in Subtree(t, q);
  }

  lemma NothingBelow(t: Tree, q: Path)
    requires WellFormed(t) && q !in t
    ensures Subtree(t, q) == {}
  {
    forall p | p in t && Under(q, p) ensures false {
      if p != q { AncestorsAreDirs(t, p, q); }
    }
  }

  /** Where the two names of a title are looked up. */
  lemma ShelfLookup(a: Path, b: Path, t: Tree, p: Path)
    requires WellFormed(t) && Plain(t, a) && Under(a, p) && p != a && Shelf(a, b, t, p)
    ensures
      var m := Mirror(a, b, p);
      && Locate(t, m) == Some(m)
      && (Locate(t, p) == Some(p) || (Locate(t, p) == Some(m) && Subtree(t, p) == {}))
  {
    var n, m := p[|a|], Mirror(a, b, p);
    LocatePlain(t, m);
    if Plain(t, Parent(p)) {
      LocatePlain(t, p);
    } else {
      assert m == (b + [n]) + p[|a| + 1..];
      BelowEntry(a, n, p);
      LocateThroughLink(t, a, n, b + [n], p);
      BelowLink(t, a + [n], p);
    }
  }

  lemma BelowLink(t: Tree, e: Path, p: Path)
    requires WellFormed(t) && IsLink(t, e) && Under(e, p) && p != e
    ensures Subtree(t, p) == {}
  {
    forall q | q in t && Under(p, q) ensures false {
      UnderTransitive(e, p, q);
      assert q != e;
      AncestorsAreDirs(t, q, e);
    }
  }

  /** Removing either name keeps the other's way. */
  lemma ShelfKept(a: Path, b: Path, t: Tree, p: Path, q: Path)
    requires Apart(a, b) && Plain(t, a) && Under(a, p) && p != a && Shelf(a, b, t, p)
    requires q == p || q == Mirror(a, b, p)
    ensures Shelf(a, b, t - Subtree(t, q), p) && Plain(t - Subtree(t, q), a)
  {
    var n := p[|a|];
    var e := a + [n];
    BelowEntry(a, n, p);
    MirrorFacts(a, b, p);
    if q != p && Under(q, e) {
      MirrorApart(a, b, p, q);
      UnderTransitive(q, e, p);
      assert false;
    }
    assert p != e ==> !Under(p, e);
  }

  /** What is left when both names are gone. */
  function Without(t: Tree, p: Path, m: Path): Tree {
    t - Subtree(t, p) - Subtree(t, m)
  }

  ghost function BothSame(t: Tree, p: Path, m: Path): Tree -> bool {
    u => SameButFor(t, u, p, m)
  }

  ghost predicate SameButFor(t: Tree, u: Tree, p: Path, m: Path) {
    forall q :: !Under(p, q) && !Under(m, q) ==> At(u, q) == At(t, q)
  }

  /** One of the two names removed; `w` is the tree before either was. */
  lemma RemoveOneName(os: Fates, d: Disk, w: Tree, a: Path, b: Path, p: Path, q: Path)
    requires WellFormed(d.now) && Apart(a, b) && Plain(d.now, a) && Under(a, p) && p != a && Shelf(a, b, d.now, p)
    requires q == p || q == Mirror(a, b, p)
    requires SameButFor(w, d.now, p, Mirror(a, b, p))
    ensures
      var (e, ok) := RemovePath(os, d, q);
      && Always(d, e, BothSame(w, p, Mirror(a, b, p))) && WellFormed(e.now)
      && (ok ==>
            && Shelf(a, b, e.now, p) && Plain(e.now, a)
            && ((q == p && e.now == d.now - Subtree(d.now, p)) || e.now == d.now - Subtree(d.now, Mirror(a, b, p)))
            && (q == p ==> Subtree(e.now, p) == {})
            && (q != p ==> e.now == d.now - Subtree(d.now, Mirror(a, b, p))))
  {
    var m := Mirror(a, b, p);
    ShelfLookup(a, b, d.now, p);
    var at := Locate(d.now, q).value;
    var (e, ok) := RemovePath(os, d, q);
    assert at != [] by { MirrorFacts(a, b, p); }
    RemovePathExact(os, d, q, at);
    AlwaysWeaken(d, e, OutsideSame(d.now, at), BothSame(w, p, m));
    if ok {
      ShelfKept(a, b, d.now, p, at);
    }
  }

  lemma TwoPaths(os: Fates, d: Disk, q: Path, r: Path)
    ensures
      var (d1, first) := RemovePath(os, d, q);
      RemovePaths(os, d, [q, r]) == if first then RemovePath(os, d1, r) else (d1, false)
  {
    assert [q, r][1..] == [r] && [r][1..] == [];
    var (d1, first) := RemovePath(os, d, q);
    var (d2, second) := RemovePath(os, d1, r);
    assert RemovePaths(os, d2, []) == (d2, true);
    assert RemovePaths(os, d1, [r]) == (d2, second);
  }

  /** `t1` and `u` are what is left of `t` after one removal and after both. */
  lemma BothGone(t: Tree, t1: Tree, u: Tree, p: Path, m: Path)
    requires t1 == t - Subtree(t, p) || t1 == t - Subtree(t, m)
    requires u == t1 - Subtree(t1, p) || u == t1 - Subtree(t1, m)
    requires Subtree(u, p) == {} && Subtree(u, m) == {}
    ensures u == Without(t, p, m)
  {
    forall q ensures q in u <==> q in Without(t, p, m) {
      assert q in u && Under(p, q) ==> q in Subtree(u, p);
      assert q in u && Under(m, q) ==> q in Subtree(u, m);
    }
  }

  lemma StillEmpty(t: Tree, q: Path, p: Path)
    ensures Subtree(t, p) == {} ==> Subtree(t - Subtree(t, q), p) == {}
    ensures Subtree(t - Subtree(t, q), q) == {}
  {
    forall x | x in Subtree(t - Subtree(t, q), p) ensures x in Subtree(t, p) {}
  }

  /** Removing both names, in either order. */
  lemma RemoveBothNames(os: Fates, d: Disk, a: Path, b: Path, p: Path, q: Path, r: Path)
    requires WellFormed(d.now) && Apart(a, b) && Plain(d.now, a) && Under(a, p) && p != a && Shelf(a, b, d.now, p)
    requires (q == p && r == Mirror(a, b, p)) || (q == Mirror(a, b, p) && r == p)
    ensures
      var m := Mirror(a, b, p);
      var (e, ok) := RemovePaths(os, d, [q, r]);
      && Always(d, e, BothSame(d.now, p, m))
      && (ok ==> e.now == Without(d.now, p, m) && Lstat(e.now, p) == None && Lstat(e.now, m) == None)
  {
    var m, t := Mirror(a, b, p), d.now;
    var (d1, first) := RemovePath(os, d, q);
    TwoPaths(os, d, q, r);
    RemoveOneName(os, d, t, a, b, p, q);
    AlwaysEnds(d, d1, BothSame(t, p, m));
    if first {
      var (e, ok) := RemovePath(os, d1, r);
      RemoveOneName(os, d1, t, a, b, p, r);
      AlwaysThen(d, d1, e, BothSame(t, p, m));
      if ok {
        SecondRemoved(t, d1.now, e.now, a, b, p, q);
      }
    }
  }

  lemma SecondRemoved(t: Tree, t1: Tree, u: Tree, a: Path, b: Path, p: Path, q: Path)
    requires Under(a, p) && p != a && WellFormed(u) && Plain(u, a) && Shelf(a, b, u, p)
    requires
      var m := Mirror(a, b, p);
      if q == p then
        && (t1 == t - Subtree(t, p) || t1 == t - Subtree(t, m)) && Subtree(t1, p) == {}
        && u == t1 - Subtree(t1, m)
      else
        && t1 == t - Subtree(t, m)
        && (u == t1 - Subtree(t1, p) || u == t1 - Subtree(t1, m)) && Subtree(u, p) == {}
    ensures
      var m := Mirror(a, b, p);
      u == Without(t, p, m) && Lstat(u, p) == None && Lstat(u, m) == None
  {
    var m := Mirror(a, b, p);
    StillEmpty(t, m, m);
    StillEmpty(t1, m, p);
    StillEmpty(t1, p, m);
    BothGone(t, t1, u, p, m);
    ShelfLookup(a, b, u, p);
    assert Under(p, p) && Under(m, m);
    assert p in u ==> p in Subtree(u, p);
    assert m in u ==> m in Subtree(u, m);
  }

  /** Removing a title by the name it is indexed under or by its mirror comes to the same: on Ok neither
      name exists any more, everything at and below both is gone, and nothing else has changed. Whatever
      fails, nothing but those two subtrees ever changes. */
  lemma RemovalExact(os: Fates, d: Disk, pairs: seq<Pair>, i: nat, p: Path, byMirror: bool)
    requires RootsApart(pairs) && i < |pairs| && Under(pairs[i].src, p) && p != pairs[i].src
    requires WellFormed(d.now) && Plain(d.now, pairs[i].src) && Shelf(pairs[i].src, pairs[i].dst, d.now, p)
    ensures
      var m := Mirror(pairs[i].src, pairs[i].dst, p);
      var (e, ok) := RemoveMediaFiles(os, d, pairs, Some(if byMirror then m else p));
      && Always(d, e, BothSame(d.now, p, m))
      && (ok ==> e.now == Without(d.now, p, m) && Lstat(e.now, p) == None && Lstat(e.now, m) == None)
  {
    var x := pairs[i];
    var m := Mirror(x.src, x.dst, p);
    assert OtherName(x, p) == Some(m);
    SameRemovalSet(pairs, pairs, i, p);
    RemoveBothNames(os, d, x.src, x.dst, p, if byMirror then m else p, if byMirror then p else m);
  }

  // ----- When a removal succeeds -----

  /** Something is at `q`, or nothing is and the way there ends in a directory. */
  predicate Reachable(t: Tree, q: Path) {
    q in t || NotThere(t, q)
  }

  /** On a system where each call does what it can, one removal succeeds exactly if the path can be reached. */
  lemma RemovePathSucceeds(os: Fates, d: Disk, p: Path, q: Path)
    requires Locate(d.now, p) == Some(q) && q != [] && Reliable(os, 0)
    ensures RemovePath(os, d, p).1 <==> Reachable(d.now, q)
  {
    assert os(d.clock).works && os(d.clock + 1).works;
  }

  /** A subtree that is removed does not take along what is on the way to a path apart from it. */
  lemma StillReachable(t: Tree, gone: Path, q: Path)
    requires WellFormed(t) && Apart(gone, q)
    ensures Reachable(t - Subtree(t, gone), q) <==> Reachable(t, q)
  {
    StillNotThere(t, gone, q);
  }

  lemma {:induction false} StillNotThere(t: Tree, gone: Path, q: Path)
    requires WellFormed(t) && !Under(gone, q)
    ensures q in t <==> q in t - Subtree(t, gone)
    ensures NotThere(t - Subtree(t, gone), q) <==> NotThere(t, q)
    decreases |q|
  {
    if q != [] {
      StillNotThere(t, gone, Parent(q));
    }
  }

  lemma GoneIsReachable(t: Tree, q: Path)
    requires WellFormed(t) && q != [] && Reachable(t, q)
    ensures Reachable(t - Subtree(t, q), q)
  {
    assert !Under(q, Parent(q));
    StillNotThere(t, q, Parent(q));
    assert Under(q, q);
    if q in t { assert At(t, Parent(q)) == Some(Dir); }
  }

  /** What the first removal means for the second one. */
  lemma SecondReachable(a: Path, b: Path, t: Tree, u: Tree, p: Path, first: Path, second: Path)
    requires WellFormed(t) && Apart(a, b) && Under(a, p) && p != a
    requires (first == p || first == Mirror(a, b, p)) && (second == p || second == Mirror(a, b, p))
    requires Reachable(t, first) && u == t - Subtree(t, first)
    ensures Reachable(u, second) <==> Reachable(t, second)
  {
    var m := Mirror(a, b, p);
    MirrorFacts(a, b, p);
    MirrorApart(a, b, p, m);
    if first == second {
      GoneIsReachable(t, first);
    } else {
      if Under(p, m) { UnderTransitive(a, p, m); UnderBoth(a, b, m); }
      if Under(m, p) { UnderTransitive(b, m, p); UnderBoth(a, b, p); }
      StillReachable(t, first, second);
    }
  }

  /** Where a name of a title is looked up. */
  function Place(t: Tree, q: Path): Path {
    if Locate(t, q).Some? then Locate(t, q).value else q
  }

  lemma ShelfPlace(a: Path, b: Path, t: Tree, p: Path, q: Path)
    requires WellFormed(t) && Plain(t, a) && Under(a, p) && p != a && Shelf(a, b, t, p)
    requires q == p || q == Mirror(a, b, p)
    ensures Locate(t, q) == Some(Place(t, q)) && Place(t, q) != []
    ensures Place(t, q) == p || Place(t, q) == Mirror(a, b, p)
  {
    ShelfLookup(a, b, t, p);
    MirrorFacts(a, b, p);
  }

  /** Removing one of the names does not change where the other is looked up. */
  lemma PlaceKept(a: Path, b: Path, t: Tree, p: Path, first: Path, q: Path)
    requires WellFormed(t) && Apart(a, b) && Plain(t, a) && Under(a, p) && p != a && Shelf(a, b, t, p)
    requires first == p || first == Mirror(a, b, p)
    requires q == p || q == Mirror(a, b, p)
    requires WellFormed(t - Subtree(t, first))
    ensures
      var u := t - Subtree(t, first);
      Shelf(a, b, u, p) && Plain(u, a) && Place(u, q) == Place(t, q)
  {
    var n, m := p[|a|], Mirror(a, b, p);
    var u := t - Subtree(t, first);
    ShelfKept(a, b, t, p, first);
    LocatePlain(t, m);
    LocatePlain(u, m);
    if q == p {
      if Plain(t, Parent(p)) {
        forall k | 0 <= k <= |Parent(p)| ensures !IsLink(u, Parent(p)[..k]) {
          assert !IsLink(t, Parent(p)[..k]);
        }
        LocatePlain(t, p);
        LocatePlain(u, p);
      } else {
        assert m == (b + [n]) + p[|a| + 1..];
        BelowEntry(a, n, p);
        LinkStays(a, b, t, p, first);
        LocateThroughLink(t, a, n, b + [n], p);
        LocateThroughLink(u, a, n, b + [n], p);
      }
    }
  }

  lemma LinkStays(a: Path, b: Path, t: Tree, p: Path, first: Path)
    requires Apart(a, b) && Under(a, p) && p != a && p != a + [p[|a|]]
    requires first == p || first == Mirror(a, b, p)
    ensures At(t - Subtree(t, first), a + [p[|a|]]) == At(t, a + [p[|a|]])
  {
    var n, m := p[|a|], Mirror(a, b, p);
    var e := a + [n];
    BelowEntry(a, n, p);
    MirrorFacts(a, b, p);
    if Under(first, e) {
      assert |first| <= |e| < |p|;
      UnderTransitive(b, first, e);
      assert Under(a, e);
      UnderBoth(a, b, e);
    }
  }

  /** On a system where each call does what it can, removing a title by either name succeeds exactly if both names
      can be reached, where they are looked up: it does not matter whether anything is there, but nothing on the
      way may be a file. */
  lemma RemovalSucceedsExactly(os: Fates, d: Disk, pairs: seq<Pair>, i: nat, p: Path, byMirror: bool)
    requires RootsApart(pairs) && i < |pairs| && Under(pairs[i].src, p) && p != pairs[i].src && Reliable(os, 0)
    requires WellFormed(d.now) && Plain(d.now, pairs[i].src) && Shelf(pairs[i].src, pairs[i].dst, d.now, p)
    ensures
      var m := Mirror(pairs[i].src, pairs[i].dst, p);
      RemoveMediaFiles(os, d, pairs, Some(if byMirror then m else p)).1 <==>
        && Locate(d.now, p).Some? && Reachable(d.now, Locate(d.now, p).value)
        && Locate(d.now, m).Some? && Reachable(d.now, Locate(d.now, m).value)
  {
    var x := pairs[i];
    var m := Mirror(x.src, x.dst, p);
    assert OtherName(x, p) == Some(m);
    SameRemovalSet(pairs, pairs, i, p);
    BothRemovable(os, d, x.src, x.dst, p, if byMirror then m else p, if byMirror then p else m);
    ShelfPlace(x.src, x.dst, d.now, p, p);
    ShelfPlace(x.src, x.dst, d.now, p, m);
  }

  lemma BothRemovable(os: Fates, d: Disk, a: Path, b: Path, p: Path, q: Path, r: Path)
    requires WellFormed(d.now) && Apart(a, b) && Plain(d.now, a) && Under(a, p) && p != a && Shelf(a, b, d.now, p)
    requires (q == p && r == Mirror(a, b, p)) || (q == Mirror(a, b, p) && r == p)
    requires Reliable(os, 0)
    ensures
      RemovePaths(os, d, [q, r]).1 <==>
        Reachable(d.now, Place(d.now, q)) && Reachable(d.now, Place(d.now, r))
  {
    var t := d.now;
    var first, second := Place(t, q), Place(t, r);
    var (d1, ok) := RemovePath(os, d, q);
    TwoPaths(os, d, q, r);
    ShelfPlace(a, b, t, p, q);
    ShelfPlace(a, b, t, p, r);
    RemovePathSucceeds(os, d, q, first);
    RemovePathExact(os, d, q, first);
    if ok {
      PlaceKept(a, b, t, p, first, r);
      ShelfPlace(a, b, d1.now, p, r);
      RemovePathSucceeds(os, d1, r, second);
      SecondReachable(a, b, t, d1.now, p, first, second);
    }
  }

  /** A removal that fails has not got to the other name, or has finished with the first: either nothing outside the
      place of the indexed name has changed in any state, or all there is gone. */
  lemma RemovalStops(os: Fates, d: Disk, pairs: seq<Pair>, i: nat, p: Path, byMirror: bool)
    requires RootsApart(pairs) && i < |pairs| && Under(pairs[i].src, p) && p != pairs[i].src
    requires WellFormed(d.now) && Plain(d.now, pairs[i].src) && Shelf(pairs[i].src, pairs[i].dst, d.now, p)
    requires
      var m := Mirror(pairs[i].src, pairs[i].dst, p);
      !RemoveMediaFiles(os, d, pairs, Some(if byMirror then m else p)).1
    ensures
      var q := if byMirror then Mirror(pairs[i].src, pairs[i].dst, p) else p;
      var e := RemoveMediaFiles(os, d, pairs, Some(q)).0;
      || Always(d, e, OutsideSame(d.now, Place(d.now, q)))
      || forall x :: Under(Place(d.now, q), x) ==> x !in e.now
  {
    var a, b := pairs[i].src, pairs[i].dst;
    var m := Mirror(a, b, p);
    var q, r := if byMirror then m else p, if byMirror then p else m;
    assert OtherName(pairs[i], p) == Some(m);
    SameRemovalSet(pairs, pairs, i, p);
    TwoPaths(os, d, q, r);
    ShelfPlace(a, b, d.now, p, q);
    RemovePathExact(os, d, q, Place(d.now, q));
    var (d1, first) := RemovePath(os, d, q);
    if first {
      PlaceKept(a, b, d.now, p, Place(d.now, q), r);
      ShelfPlace(a, b, d1.now, p, r);
      RemovePathShrinks(os, d1, r, Place(d1.now, r));
    }
  }

  lemma RemovePathShrinks(os: Fates, d: Disk, p: Path, q: Path)
    requires WellFormed(d.now) && Locate(d.now, p) == Some(q) && q != []
    ensures forall x :: x in RemovePath(os, d, p).0.now ==> x in d.now
  {
  }

  // ----- After a move -----

  /** What is on the way to the mirror of `p`, below the root, is the mirror of something on the way to `p`. */
  lemma MirrorPrefix(a: Path, b: Path, p: Path, k: nat) returns (x: Path)
    requires Under(a, p) && |b| < k < |Mirror(a, b, p)|
    ensures Under(a, x) && x != a && Under(x, p) && x != p && Mirror(a, b, x) == Mirror(a, b, p)[..k]
  {
    MirrorFacts(a, b, p);
    x := p[..k - |b| + |a|];
    assert x[|a|..] == p[|a|..][..k - |b|];
  }

  /** There is no link on the way to the mirror of anything that is there. */
  lemma MirrorWay(a: Path, b: Path, t: Tree, p: Path)
    requires Ready(a, b, t) && Under(a, p) && p != a && p in t
    ensures Plain(t, Parent(Mirror(a, b, p)))
  {
    var m := Mirror(a, b, p);
    MirrorFacts(a, b, p);
    forall k | 0 <= k <= |Parent(m)| ensures !IsLink(t, Parent(m)[..k]) {
      var q := m[..k];
      assert Parent(m)[..k] == q;
      if k <= |b| {
        assert q == b[..k];
      } else {
        var x := MirrorPrefix(a, b, p, k);
        AncestorsAreDirs(t, p, x);
      }
    }
  }

  /** A move puts no link on the way to a mirror. */
  lemma MirrorWayKept(a: Path, b: Path, t: Tree, u: Tree, p: Path)
    requires Ready(a, b, t) && Ready(a, b, u) && Swept(a, b, t, u, a, Entries(t, a), true)
    requires Under(a, p) && p != a && Plain(t, Parent(Mirror(a, b, p)))
    ensures Plain(u, Parent(Mirror(a, b, p)))
  {
    var m := Mirror(a, b, p);
    MirrorFacts(a, b, p);
    forall k | 0 <= k <= |Parent(m)| ensures !IsLink(u, Parent(m)[..k]) {
      var q := m[..k];
      assert Parent(m)[..k] == q;
      assert !IsLink(t, q);
      if k <= |b| {
        assert q == b[..k];
      } else {
        var x := MirrorPrefix(a, b, p, k);
        SweptMirrorNoLink(a, b, t, u, x);
      }
    }
  }

  lemma SweptMirrorNoLink(a: Path, b: Path, t: Tree, u: Tree, x: Path)
    requires Ready(a, b, t) && Swept(a, b, t, u, a, Entries(t, a), true)
    requires Under(a, x) && x != a && !IsLink(t, Mirror(a, b, x))
    ensures !IsLink(u, Mirror(a, b, x))
  {
    SweptMirror(a, b, t, u, Entries(t, a), x);
    BelowEntry(a, x[|a|], x);
    EntriesOf(t, a, x[|a|]);
    if a + [x[|a|]] in t && !IsLink(t, a + [x[|a|]]) {
      assert Clean(t, a + [x[|a|]]);
    }
  }

  /** After a successful mass move, a title that was below the root, or any path in it, can be removed by
      either name; on Ok neither the link's side nor the copy is left, and nothing else has changed. It is
      enough that the path was there, or that no link was on the way to its mirror, and that an entry that was
      a link already is one to its mirror. */
  lemma MovedTitleRemoved(os: Fates, os': Fates, d: Disk, pairs: seq<Pair>, i: nat, p: Path, byMirror: bool)
    requires RootsApart(pairs) && i < |pairs|
    requires
      var x := pairs[i];
      && Under(x.src, p) && p != x.src && p[|x.src|] in Entries(d.now, x.src)
      && Ready(x.src, x.dst, d.now) && At(d.now, x.src) == Some(Dir)
      && (p in d.now || Plain(d.now, Parent(Mirror(x.src, x.dst, p))))
      && MoveDir(os, d, true, true, x.src, x.dst).1
    requires
      var e := pairs[i].src + [p[|pairs[i].src|]];
      IsLink(d.now, e) ==> d.now[e].target == pairs[i].dst + [p[|pairs[i].src|]]
    ensures
      var x := pairs[i];
      var m := Mirror(x.src, x.dst, p);
      var moved := MoveDir(os, d, true, true, x.src, x.dst).0;
      var (e, ok) := RemoveMediaFiles(os', moved, pairs, Some(if byMirror then m else p));
      && IsLink(moved.now, x.src + [p[|x.src|]])
      && Always(moved, e, BothSame(moved.now, p, m))
      && (ok ==> e.now == Without(moved.now, p, m) && Lstat(e.now, p) == None && Lstat(e.now, m) == None)
  {
    var a, b := pairs[i].src, pairs[i].dst;
    MovedTitleShelf(os, d, a, b, p);
    RemovalExact(os', MoveDir(os, d, true, true, a, b).0, pairs, i, p, byMirror);
  }

  lemma MovedTitleShelf(os: Fates, d: Disk, a: Path, b: Path, p: Path)
    requires Under(a, p) && p != a && p[|a|] in Entries(d.now, a)
    requires Ready(a, b, d.now) && At(d.now, a) == Some(Dir) && MoveDir(os, d, true, true, a, b).1
    requires p in d.now || Plain(d.now, Parent(Mirror(a, b, p)))
    requires IsLink(d.now, a + [p[|a|]]) ==> d.now[a + [p[|a|]]].target == b + [p[|a|]]
    ensures
      var u := MoveDir(os, d, true, true, a, b).0.now;
      WellFormed(u) && Plain(u, a) && Shelf(a, b, u, p) && IsLink(u, a + [p[|a|]])
  {
    var u := MoveDir(os, d, true, true, a, b).0.now;
    MassMoveSwept(os, a, b, d);
    if p in d.now { MirrorWay(a, b, d.now, p); }
    MirrorWayKept(a, b, d.now, u, p);
    SweptEntry(a, b, d.now, u, Entries(d.now, a), p[|a|]);
    EntriesOf(d.now, a, p[|a|]);
    MirrorFacts(a, b, p);
    if p == a + [p[|a|]] { assert Parent(p) == a; }
  }
}
