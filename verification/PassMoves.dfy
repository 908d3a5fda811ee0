/** What the worker's passes and batches move: what a listing holds, what a pass leaves alone whatever fails, and
    what it has moved when nothing does. */
module PassMoves {
  import opened FileSystem
  import opened DiskStates
  import opened TreeMover
  import opened MoverSafety
  import opened MoverExact
  import opened MoverFrame
  import opened MoverSucceeds
  import opened Library
  import opened MovePairs
  import opened MovePass

  // ----- What is listed -----

  lemma {:induction false} EntriesListedExactly(
    os: Fates, m: Mapping, d: Disk, names: seq<Name>, aged: Age, found: seq<Title>, title: Title)
    requires Known(d.now, m) && At(d.now, m.roots.src) == Some(Dir)
    ensures
      var list := ListEntries(os, d, m.named, names, aged, found).1;
      list.Some? ==>
        (title in list.value <==>
          || title in found
          || (title.0 == m.named && title.1 in names && PresentIn(m, d.now, title) && aged(title.0, title.1)))
    decreases |names|
  {
    if names != [] && os(d.clock).works {
      var n := names[0];
      var a, x := m.roots.src, m.named.src;
      assert Under(a, a) && Mirror(a, x, a) == x;
      EntryNamed(a, m.roots.dst, x, m.named.dst, d.now, a, n);
      var (d2, meta) := Metadata(os, d.Tick(), x + [n]);
      assert title.1 in names <==> title.1 == n || title.1 in names[1..];
      if meta.Found? && !meta.node.Symlink? {
        var more := if aged(m.named, n) then found + [(m.named, n)] else found;
        EntriesListedExactly(os, m, d2.Tick(), names[1..], aged, more, title);
      } else {
        EntriesListedExactly(os, m, d2, names[1..], aged, found, title);
      }
    }
  }

  lemma RootEntries(os: Fates, d: Disk, m: Mapping)
    requires Known(d.now, m)
    ensures
      var (e, names) := ReadDir(os, d, m.named.src);
      && e.past == d.past && e.now == d.now
      && (names.Some? ==> At(d.now, m.roots.src) == Some(Dir) && Enumerates(names.value, Entries(d.now, m.roots.src)))
  {
    assert Under(m.roots.src, m.roots.src) && Mirror(m.roots.src, m.named.src, m.roots.src) == m.named.src;
    NameLookup(d.now, m.named.src, m.roots.src, m.roots.src);
  }

  ghost predicate AgedIn(m: Mapping, t: Tree, aged: Age, title: Title) {
    PresentIn(m, t, title) && aged(title.0, title.1)
  }

  lemma {:induction false} RootsListedExactly(
    os: Fates, rest: seq<Mapping>, d: Disk, aged: Age, found: seq<Title>, title: Title)
    requires forall m :: m in rest ==> Known(d.now, m)
    ensures
      var list := ListOld(os, d, Named(rest), aged, found).1;
      list.Some? ==>
        (title in list.value <==> title in found || exists m :: m in rest && AgedIn(m, d.now, aged, title))
    decreases |rest|
  {
    if rest != [] {
      var m := rest[0];
      assert Named(rest)[0] == m.named && Named(rest)[1..] == Named(rest[1..]);
      RootEntries(os, d, m);
      var (d1, names) := ReadDir(os, d, m.named.src);
      if names.Some? {
        EntriesListedExactly(os, m, d1, names.value, aged, found, title);
        EntriesListedNothing(os, m.named, d1, names.value, aged, found);
        EntriesOf(d.now, m.roots.src, title.1);
        var (d2, more) := ListEntries(os, d1, m.named, names.value, aged, found);
        assert forall z :: z in rest <==> z == m || z in rest[1..];
        if more.Some? {
          RootsListedExactly(os, rest[1..], d2, aged, more.value, title);
        }
      }
    }
  }

  /** Listing changes nothing. */
  lemma {:induction false} EntriesListedNothing(
    os: Fates, x: Pair, d: Disk, names: seq<Name>, aged: Age, found: seq<Title>)
    ensures
      var e := ListEntries(os, d, x, names, aged, found).0;
      e.past == d.past && e.now == d.now
    decreases |names|
  {
    if names != [] && os(d.clock).works {
      var (d2, meta) := Metadata(os, d.Tick(), x.src + [names[0]]);
      if meta.Found? && meta.node.Symlink? {
        EntriesListedNothing(os, x, d2, names[1..], aged, found);
      } else if meta.Found? {
        var more := if aged(x, names[0]) then found + [(x, names[0])] else found;
        EntriesListedNothing(os, x, d2.Tick(), names[1..], aged, more);
      }
    }
  }

  /** A listing, if there is one, holds exactly those entries of each root that are no links and past the age. */
  lemma ListedExactly(os: Fates, maps: seq<Mapping>, d: Disk, aged: Age, title: Title)
    requires AllKnown(maps, d.now)
    ensures
      var list := ListOld(os, d, Named(maps), aged, []).1;
      list.Some? ==> (title in list.value <==> exists m :: m in maps && AgedIn(m, d.now, aged, title))
  {
    RootsListedExactly(os, maps, d, aged, [], title);
  }

  // ----- What a pass leaves alone -----

  ghost predicate IsAllKnown(maps: seq<Mapping>, t: Tree) {
    AllKnown(maps, t)
  }

  ghost function StaysKnown(maps: seq<Mapping>): Tree -> bool {
    t => IsAllKnown(maps, t)
  }

  lemma KnownAfter(maps: seq<Mapping>, m: Mapping, d: Disk, e: Disk)
    requires Disjoint(maps) && m in maps && AllKnown(maps, d.now) && Reaches(m.roots.src, m.roots.dst, d, e)
    ensures AllKnown(maps, e.now)
  {
    var p := StaysKnown(maps);
    forall t, f | p(t) && Allowed(m.roots.src, m.roots.dst, t, f) ensures p(Apply(m.roots.src, m.roots.dst, t, f)) {
      forall z | z in maps ensures Known(Apply(m.roots.src, m.roots.dst, t, f), z) {
        StepKeepsKnown(maps, m, z, t, f);
      }
    }
    ReachesInvariant(m.roots.src, m.roots.dst, d, e, p, |e.past|);
    assert p(e.States()[|e.past|]);
  }

  /** The move of a title leaves alone, in every state, what is on the source's side of any pair but not in it. */
  lemma TitleLeaves(os: Fates, maps: seq<Mapping>, d: Disk, m: Mapping, title: Title, y: Mapping, q: Path)
    requires Disjoint(maps) && AllKnown(maps, d.now) && m in maps && y in maps && PresentIn(m, d.now, title)
    requires Under(y.roots.src, q) && (title.0 == y.named ==> !Under(y.roots.src + [title.1], q))
    ensures
      var e := MoveDir(os, d, true, false, title.0.src + [title.1], title.0.dst).0;
      Always(d, e, NodeIs(q, At(d.now, q))) && AllKnown(maps, e.now) && At(e.now, q) == At(d.now, q)
  {
    var e := MoveDir(os, d, true, false, title.0.src + [title.1], title.0.dst).0;
    var node := NodeIs(q, At(d.now, q));
    TitleCall(os, d, m, title);
    KnownAfter(maps, m, d, e);
    if title.0 == y.named {
      SameRoots(d.now, m, y);
      forall i | |d.past| <= i <= |e.past| ensures node(e.States()[i]) {
        UnchangedThroughout(m.roots.src, m.roots.dst, d, e, i, q);
      }
    } else {
      DisjointPair(maps, m, y);
      forall i | |d.past| <= i <= |e.past| ensures node(e.States()[i]) {
        OtherThroughout(m.roots, y.roots, d, e, i, q);
      }
    }
    AlwaysEnds(d, e, node);
  }

  lemma OtherThroughout(x: Pair, y: Pair, d: Disk, e: Disk, i: nat, q: Path)
    requires Separate(x, y) && Reaches(x.src, x.dst, d, e) && |d.past| <= i <= |e.past|
    requires Under(y.src, q) || Under(y.dst, q)
    ensures At(e.States()[i], q) == At(d.now, q)
  {
    var p := NodeIs(q, At(d.now, q));
    forall t, f | p(t) && Allowed(x.src, x.dst, t, f) ensures p(Apply(x.src, x.dst, t, f)) {
      StepElsewhere(x, y, t, f, q);
    }
    ReachesInvariant(x.src, x.dst, d, e, p, i);
    assert p(e.States()[i]);
  }

  lemma {:induction false} TitlesLeave(os: Fates, maps: seq<Mapping>, titles: seq<Title>, y: Mapping, q: Path, d: Disk)
    requires Disjoint(maps) && AllKnown(maps, d.now) && AllPresent(maps, d.now, titles) && NoRepeats(titles)
    requires y in maps && Under(y.roots.src, q)
    requires forall title :: title in titles && title.0 == y.named ==> !Under(y.roots.src + [title.1], q)
    ensures
      var e := MoveOld(os, d, titles);
      Always(d, e, NodeIs(q, At(d.now, q))) && AllKnown(maps, e.now)
    decreases |titles|
  {
    if titles == [] {
      AlwaysOne(d, d, NodeIs(q, At(d.now, q)));
    } else {
      var (x, n) := titles[0];
      var e := MoveDir(os, d, true, false, x.src + [n], x.dst).0;
      assert titles[0] in titles && Present(maps, d.now, titles[0]);
      var m :| m in maps && PresentIn(m, d.now, titles[0]);
      TitleLeaves(os, maps, d, m, titles[0], y, q);
      OthersStayPresent(os, maps, d, m, titles);
      TitlesLeave(os, maps, titles[1..], y, q, e);
      AlwaysThen(d, e, MoveOld(os, e, titles[1..]), NodeIs(q, At(d.now, q)));
    }
  }

  /** As long as the disk is not full, a pass leaves alone, whatever fails and in every state, all on the source's
      side that is not at or below an entry past the age which is no link. */
  lemma PassLeavesRest(os: Fates, maps: seq<Mapping>, d: Disk, aged: Age, y: Mapping, q: Path)
    requires Disjoint(maps) && AllKnown(maps, d.now) && y in maps && Under(y.roots.src, q)
    requires forall n :: Under(y.roots.src + [n], q) ==> !AgedIn(y, d.now, aged, (y.named, n))
    ensures
      var e := Pass(os, d, Named(maps), false, aged).0;
      |d.past| <= |e.past| && forall i :: |d.past| <= i <= |e.past| ==> At(e.States()[i], q) == At(d.now, q)
  {
    var (d1, list) := ListOld(os, d, Named(maps), aged, []);
    var node := NodeIs(q, At(d.now, q));
    OldListed(os, maps, maps, d, aged, []);
    AlwaysOne(d, d1, node);
    if list.Some? {
      forall title | title in list.value && title.0 == y.named ensures !Under(y.roots.src + [title.1], q) {
        ListedExactly(os, maps, d, aged, title);
        var m :| m in maps && AgedIn(m, d.now, aged, title);
        SameRoots(d.now, m, y);
        assert title == (y.named, title.1);
      }
      TitlesLeave(os, maps, list.value, y, q, d1);
      AlwaysThen(d, d1, MoveOld(os, d1, list.value), node);
    }
    var e := Pass(os, d, Named(maps), false, aged).0;
    assert Always(d, e, node);
    forall i | |d.past| <= i <= |e.past| ensures At(e.States()[i], q) == At(d.now, q) {
      assert node(e.States()[i]);
    }
  }

  // ----- Titles and roots that can be moved -----

  /** Title `n` fits, and there is room for it: the destination root is there or, for a directory, can be made. */
  ghost predicate TitleFit(x: Pair, t: Tree, n: Name) {
    var entry := x.src + [n];
    && entry in t && !IsLink(t, entry) && Under(x.src, entry) && WithinLimit(entry, t) && Fits(x.src, x.dst, t, entry)
    && (At(t, x.dst) == Some(Dir) || (t[entry].Dir? && Clear(t, x.dst)))
  }

  /** All of a root that is still to be moved can be. */
  ghost predicate Willing(x: Pair, t: Tree) {
    && At(t, x.src) == Some(Dir) && WithinLimit(x.src, t)
    && forall n :: x.src + [n] in t && !IsLink(t, x.src + [n]) ==> TitleFit(x, t, n)
  }

  ghost predicate AllLinked(x: Pair, t: Tree) {
    forall n :: x.src + [n] in t ==> IsLink(t, x.src + [n])
  }

  /** On either side of the pair, `u` is as a completed mass move from `t` leaves it. */
  ghost predicate RootMoved(x: Pair, t: Tree, u: Tree) {
    forall q :: Inside(x, q) ==> Under(x.src, x.src) && SweptAt(x.src, x.dst, t, u, x.src, Entries(t, x.src), true, q)
  }

  /** And as a completed move of title `n` alone does; a plain file is only copied. */
  ghost predicate TitleMoved(x: Pair, t: Tree, u: Tree, n: Name) {
    var entry, copy := x.src + [n], x.dst + [n];
    if entry in t && t[entry].File? then
      && At(u, copy) == At(t, entry)
      && forall q :: Under(entry, q) || (Under(copy, q) && q != copy) ==> At(u, q) == At(t, q)
    else Completed(x.src, x.dst, t, u, n)
  }

  // ----- One call -----

  lemma {:induction false} OpensAny(x: Pair, t: Tree, names: seq<Name>)
    requires Willing(x, t) && forall n :: n in names ==> x.src + [n] in t
    ensures Opens(t, x.src, x.dst, names)
    decreases |names|
  {
    if names != [] {
      assert names[0] in names;
      OpensAny(x, t, names[1..]);
      assert !IsLink(t, x.src + [names[0]]) ==> TitleFit(x, t, names[0]);
    }
  }

  /** A mass move of a willing root, by its own paths. */
  lemma WillingRootMoves(os: Fates, d: Disk, x: Pair)
    requires Ready(x.src, x.dst, d.now) && Reliable(os, 0) && Willing(x, d.now)
    ensures
      var (e, ok) := MoveDir(os, d, true, true, x.src, x.dst);
      ok && RootMoved(x, d.now, e.now) && Willing(x, e.now) && AllLinked(x, e.now)
  {
    var a, b, t := x.src, x.dst, d.now;
    forall n | a + [n] in t && !IsLink(t, a + [n]) ensures Under(a, a + [n]) && Fits(a, b, t, a + [n]) {
      assert TitleFit(x, t, n);
    }
    WillingOpens(os, d, x);
    MassMoveSucceedsExactly(os, a, b, d);
    MassMoveSwept(os, a, b, d);
    var u := MoveDir(os, d, true, true, a, b).0.now;
    forall n | a + [n] in u ensures IsLink(u, a + [n]) {
      SweptEntry(a, b, t, u, Entries(t, a), n);
      EntriesOf(t, a, n);
    }
    SweptLimit(x, t, u);
  }

  lemma WillingOpens(os: Fates, d: Disk, x: Pair)
    requires Reliable(os, 0) && Willing(x, d.now)
    ensures Opens(d.now, x.src, x.dst, os(d.clock + 1).listing(Entries(d.now, x.src)))
  {
    var names := os(d.clock + 1).listing(Entries(d.now, x.src));
    assert Enumerates(names, Entries(d.now, x.src));
    forall n | n in names ensures x.src + [n] in d.now {
      EntriesOf(d.now, x.src, n);
    }
    OpensAny(x, d.now, names);
  }

  lemma SweptLimit(x: Pair, t: Tree, u: Tree)
    requires Apart(x.src, x.dst) && Under(x.src, x.src) && WithinLimit(x.src, t)
    requires Swept(x.src, x.dst, t, u, x.src, Entries(t, x.src), true)
    ensures WithinLimit(x.src, u)
  {
    forall q | q in u && Under(x.src, q) ensures |q| <= PATH_LIMIT {
      assert SweptAt(x.src, x.dst, t, u, x.src, Entries(t, x.src), true, q);
      SourceSide(x.src, x.dst, x.src, q);
      if Taken(t, x.src, Entries(t, x.src), q) {
        assert |q| == |x.src| + 1 && q == x.src + [q[|x.src|]];
      }
    }
  }

  /** The move of one title, by its own path. */
  lemma FittingTitleMoves(os: Fates, d: Disk, x: Pair, n: Name)
    requires Ready(x.src, x.dst, d.now) && Reliable(os, 0) && TitleFit(x, d.now, n)
    ensures
      var (e, ok) := MoveDir(os, d, true, false, x.src + [n], x.dst);
      ok && TitleMoved(x, d.now, e.now, n)
  {
    var a, b, t := x.src, x.dst, d.now;
    TitleRoom(x, t, n);
    TitleMoveSucceedsExactly(os, a, b, d, n);
    MirrorChild(a, b, a, n);
    assert Mirror(a, b, a) == b && Under(a, a);
    if t[a + [n]].File? {
      TargetedFileOnlyCopied(os, a, b, d, a + [n], b);
      var u := MoveDir(os, d, true, false, a + [n], b).0.now;
      forall q | Under(a + [n], q) || (Under(b + [n], q) && q != b + [n]) ensures At(u, q) == At(t, q) {
        if q == b + [n] && Under(a + [n], q) { UnderTransitive(a, a + [n], q); UnderBoth(a, b, q); }
      }
    } else {
      MoveTitleSwept(os, a, b, d, n);
      SweptCompletes(a, b, t, MoveDir(os, d, true, false, a + [n], b).0.now, n);
    }
  }

  lemma TitleRoom(x: Pair, t: Tree, n: Name)
    requires WellFormed(t) && TitleFit(x, t, n)
    ensures if t[x.src + [n]].File? then At(t, x.dst) == Some(Dir) else Clear(t, x.dst + [n])
  {
    var entry, m := x.src + [n], x.dst + [n];
    MirrorChild(x.src, x.dst, x.src, n);
    assert Mirror(x.src, x.dst, x.src) == x.dst && Parent(m) == x.dst && Under(entry, entry);
    assert t[entry].File? || t[entry].Dir?;
    if m in t { assert SameKind(t[entry], t[m]); }
  }

  // ----- What other calls leave of it -----

  ghost predicate SameSides(x: Pair, t: Tree, u: Tree) {
    forall q :: Inside(x, q) ==> At(u, q) == At(t, q)
  }

  lemma SameAt(x: Pair, t: Tree, u: Tree, q: Path)
    requires SameSides(x, t, u) && (Under(x.src, q) || Under(x.dst, q))
    ensures At(u, q) == At(t, q)
  {
    assert Inside(x, q);
  }

  /** On the way to the destination root, directories may have been made. */
  ghost predicate SameWay(x: Pair, t: Tree, u: Tree) {
    forall q :: Under(q, x.dst) ==> SameOrDir(t, u, q)
  }

  predicate SameOrDir(t: Tree, u: Tree, q: Path) {
    At(u, q) == At(t, q) || At(u, q) == Some(Dir)
  }

  ghost function StaysOrDir(t: Tree, q: Path): Tree -> bool {
    u => SameOrDir(t, u, q)
  }

  lemma {:induction false} NotThereGrows(x: Pair, t: Tree, u: Tree, q: Path)
    requires SameWay(x, t, u) && Under(q, x.dst) && NotThere(t, q)
    ensures if q in u then u[q].Dir? else NotThere(u, q)
    decreases |q|
  {
    assert SameOrDir(t, u, q);
    if q != [] {
      assert Under(Parent(q), x.dst) by { assert x.dst[..|q| - 1] == x.dst[..|q|][..|q| - 1]; }
      assert SameOrDir(t, u, Parent(q));
      if Parent(q) !in t { NotThereGrows(x, t, u, Parent(q)); }
    }
  }

  lemma ClearGrows(x: Pair, t: Tree, u: Tree)
    requires SameWay(x, t, u)
    ensures Clear(t, x.dst) ==> Clear(u, x.dst)
    ensures At(t, x.dst) == Some(Dir) ==> At(u, x.dst) == Some(Dir)
  {
    assert Under(x.dst, x.dst) && SameOrDir(t, u, x.dst);
    if x.dst !in t && Clear(t, x.dst) { NotThereGrows(x, t, u, x.dst); }
  }

  lemma OtherSides(maps: seq<Mapping>, m: Mapping, y: Mapping, d: Disk, e: Disk)
    requires Disjoint(maps) && m in maps && y in maps && m != y && Reaches(m.roots.src, m.roots.dst, d, e)
    ensures SameSides(y.roots, d.now, e.now) && SameWay(y.roots, d.now, e.now)
  {
    DisjointPair(maps, m, y);
    assert e.States()[|e.past|] == e.now;
    forall q | Inside(y.roots, q) ensures At(e.now, q) == At(d.now, q) {
      OtherThroughout(m.roots, y.roots, d, e, |e.past|, q);
    }
    forall q | Under(q, y.roots.dst) ensures SameOrDir(d.now, e.now, q) {
      OtherOnTheWay(m.roots, y.roots, d, e, q);
    }
  }

  lemma OtherOnTheWay(x: Pair, y: Pair, d: Disk, e: Disk, q: Path)
    requires Separate(x, y) && Reaches(x.src, x.dst, d, e) && Under(q, y.dst)
    ensures SameOrDir(d.now, e.now, q)
  {
    var p := StaysOrDir(d.now, q);
    forall t, f | p(t) && Allowed(x.src, x.dst, t, f) ensures p(Apply(x.src, x.dst, t, f)) {
      StepElsewhere(x, y, t, f, q);
    }
    ReachesInvariant(x.src, x.dst, d, e, p, |e.past|);
    assert p(e.States()[|e.past|]);
  }

  /** A title that nothing has touched, and that there still is room for. */
  lemma TitleFitKept(x: Pair, t: Tree, u: Tree, n: Name)
    requires Apart(x.src, x.dst) && TitleFit(x, t, n) && Untouched(x.src, x.dst, t, u, n) && SameWay(x, t, u)
    ensures TitleFit(x, u, n)
  {
    var entry := x.src + [n];
    assert Under(entry, entry);
    ClearGrows(x, t, u);
    forall q | q in u && Under(entry, q) && Under(x.src, q)
      ensures u[q].File? || u[q].Dir?
      ensures Mirror(x.src, x.dst, q) in u ==> SameKind(u[q], u[Mirror(x.src, x.dst, q)])
    {
      BelowEntry(x.src, n, q);
      MirrorFacts(x.src, x.dst, q);
      BelowEntry(x.dst, n, Mirror(x.src, x.dst, q));
      assert At(u, q) == At(t, q);
    }
  }

  lemma SidesUntouched(x: Pair, t: Tree, u: Tree, n: Name)
    requires SameSides(x, t, u)
    ensures Untouched(x.src, x.dst, t, u, n)
  {
    forall q | Under(x.src + [n], q) || Under(x.dst + [n], q) ensures Inside(x, q) {
      BelowEntry(x.src, n, q);
      BelowEntry(x.dst, n, q);
    }
  }

  lemma WillingKept(x: Pair, t: Tree, u: Tree)
    requires Apart(x.src, x.dst) && Willing(x, t) && SameSides(x, t, u) && SameWay(x, t, u)
    ensures Willing(x, u)
  {
    assert Under(x.src, x.src);
    forall n | x.src + [n] in u && !IsLink(u, x.src + [n]) ensures TitleFit(x, u, n) {
      SameAt(x, t, u, x.src + [n]);
      SidesUntouched(x, t, u, n);
      TitleFitKept(x, t, u, n);
    }
    forall q | q in u && Under(x.src, q) ensures |q| <= PATH_LIMIT {
      SameAt(x, t, u, q);
    }
  }

  lemma SameEntries(x: Pair, t: Tree, u: Tree)
    requires SameSides(x, t, u)
    ensures Entries(u, x.src) == Entries(t, x.src)
  {
    forall n ensures n in Entries(u, x.src) <==> n in Entries(t, x.src) {
      EntriesOf(t, x.src, n);
      EntriesOf(u, x.src, n);
      SameAt(x, t, u, x.src + [n]);
    }
  }

  /** Before and after, the sides may stay as they are. */
  lemma RootMovedAmid(x: Pair, t: Tree, t1: Tree, u: Tree, v: Tree)
    requires Apart(x.src, x.dst) && SameSides(x, t, t1) && RootMoved(x, t1, u) && SameSides(x, u, v)
    ensures RootMoved(x, t, v)
  {
    SameEntries(x, t, t1);
    forall q | Inside(x, q)
      ensures Under(x.src, x.src) && SweptAt(x.src, x.dst, t, v, x.src, Entries(t, x.src), true, q)
    {
      assert SweptAt(x.src, x.dst, t1, u, x.src, Entries(t1, x.src), true, q);
      TakenSame(x, t, t1, q);
      if Under(x.dst, q) {
        MirrorFacts(x.dst, x.src, q);
        TakenSame(x, t, t1, Mirror(x.dst, x.src, q));
      }
    }
  }

  lemma TakenSame(x: Pair, t: Tree, u: Tree, q: Path)
    requires SameSides(x, t, u)
    ensures Taken(u, x.src, Entries(t, x.src), q) <==> Taken(t, x.src, Entries(t, x.src), q)
  {
    if |x.src| < |q| && Under(x.src, q) {
      SameAt(x, t, u, x.src + [q[|x.src|]]);
    }
  }

  lemma AllLinkedKept(x: Pair, t: Tree, u: Tree)
    requires SameSides(x, t, u) && AllLinked(x, t)
    ensures AllLinked(x, u)
  {
    forall n | x.src + [n] in u ensures IsLink(u, x.src + [n]) {
      SameAt(x, t, u, x.src + [n]);
    }
  }

  // ----- All roots -----

  lemma RootKnown(os: Fates, maps: seq<Mapping>, m: Mapping, d: Disk)
    requires Disjoint(maps) && AllKnown(maps, d.now) && m in maps
    ensures
      var e := MoveDir(os, d, true, true, m.named.src, m.named.dst).0;
      Reaches(m.roots.src, m.roots.dst, d, e) && AllKnown(maps, e.now)
  {
    RootCall(os, d, m);
    KnownAfter(maps, m, d, MoveDir(os, d, true, true, m.named.src, m.named.dst).0);
  }

  lemma SidesThen(x: Pair, t: Tree, u: Tree, v: Tree)
    requires SameSides(x, t, u) && SameSides(x, u, v) && SameWay(x, t, u) && SameWay(x, u, v)
    ensures SameSides(x, t, v) && SameWay(x, t, v)
  {
    forall q | Under(q, x.dst) ensures SameOrDir(t, v, q) {
      assert SameOrDir(t, u, q) && SameOrDir(u, v, q);
    }
  }

  lemma {:induction false} RootsElsewhere(os: Fates, maps: seq<Mapping>, rest: seq<Mapping>, y: Mapping, d: Disk)
    requires Disjoint(maps) && AllKnown(maps, d.now) && y in maps && (forall m :: m in rest ==> m in maps && m != y)
    ensures
      var e := MoveRoots(os, d, Named(rest));
      SameSides(y.roots, d.now, e.now) && SameWay(y.roots, d.now, e.now)
    decreases |rest|
  {
    if rest != [] {
      var m := rest[0];
      var e := MoveDir(os, d, true, true, m.named.src, m.named.dst).0;
      assert Named(rest)[0] == m.named && Named(rest)[1..] == Named(rest[1..]);
      RootKnown(os, maps, m, d);
      OtherSides(maps, m, y, d, e);
      RootsElsewhere(os, maps, rest[1..], y, e);
      SidesThen(y.roots, d.now, e.now, MoveRoots(os, e, Named(rest[1..])).now);
    }
  }

  lemma OnceInRest(rest: seq<Mapping>, y: Mapping, m: Mapping)
    requires Disjoint(rest) && rest != [] && rest[0] == y && m in rest[1..]
    ensures m != y
  {
    var j :| 0 <= j < |rest[1..]| && rest[1..][j] == m;
    assert Separate(rest[0].roots, rest[j + 1].roots);
    assert Under(y.roots.src, y.roots.src);
  }

  /** A batch, or a pass on a full disk: on a system where each call does what it can, every root that can be moved
      is, whatever becomes of the others. */
  lemma {:induction false} RootsMoved(os: Fates, maps: seq<Mapping>, rest: seq<Mapping>, y: Mapping, d: Disk)
    requires Disjoint(maps) && AllKnown(maps, d.now) && Reliable(os, 0)
    requires (forall m :: m in rest ==> m in maps) && Disjoint(rest)
    requires y in rest && y.named == y.roots && Willing(y.roots, d.now)
    ensures
      var e := MoveRoots(os, d, Named(rest));
      RootMoved(y.roots, d.now, e.now) && Willing(y.roots, e.now) && AllLinked(y.roots, e.now)
    decreases |rest|
  {
    var m := rest[0];
    var e := MoveDir(os, d, true, true, m.named.src, m.named.dst).0;
    assert Named(rest)[0] == m.named && Named(rest)[1..] == Named(rest[1..]);
    RootKnown(os, maps, m, d);
    var f := MoveRoots(os, e, Named(rest[1..]));
    if m == y {
      WillingRootMoves(os, d, y.roots);
      forall z | z in rest[1..] ensures z in maps && z != y { OnceInRest(rest, y, z); }
      RootsElsewhere(os, maps, rest[1..], y, e);
      assert SameSides(y.roots, d.now, d.now);
      RootMovedAmid(y.roots, d.now, d.now, e.now, f.now);
      WillingKept(y.roots, e.now, f.now);
      AllLinkedKept(y.roots, e.now, f.now);
    } else {
      OtherSides(maps, m, y, d, e);
      WillingKept(y.roots, d.now, e.now);
      assert y in rest[1..];
      RootsMoved(os, maps, rest[1..], y, e);
      assert SameSides(y.roots, f.now, f.now);
      RootMovedAmid(y.roots, d.now, e.now, f.now, f.now);
    }
  }

  // ----- Titles -----

  /** The move of another title leaves `n` untouched, and room for it. */
  lemma OtherTitle(os: Fates, maps: seq<Mapping>, d: Disk, m: Mapping, title: Title, y: Mapping, n: Name)
    requires Disjoint(maps) && AllKnown(maps, d.now) && m in maps && y in maps && PresentIn(m, d.now, title)
    requires title != (y.named, n)
    ensures
      var e := MoveDir(os, d, true, false, title.0.src + [title.1], title.0.dst).0;
      && AllKnown(maps, e.now) && SameWay(y.roots, d.now, e.now)
      && Untouched(y.roots.src, y.roots.dst, d.now, e.now, n)
  {
    var e := MoveDir(os, d, true, false, title.0.src + [title.1], title.0.dst).0;
    TitleCall(os, d, m, title);
    KnownAfter(maps, m, d, e);
    if title.0 == y.named {
      SameRoots(d.now, m, y);
      TitleOut(os, d, y, title.1);
      OtherUntouched(y.roots.src, y.roots.dst, d.now, e.now, title.1, n);
    } else {
      OtherSides(maps, m, y, d, e);
      SidesUntouched(y.roots, d.now, e.now, n);
    }
  }

  lemma TitleOut(os: Fates, d: Disk, y: Mapping, k: Name)
    requires Known(d.now, y) && PresentIn(y, d.now, (y.named, k))
    ensures
      var e := MoveDir(os, d, true, false, y.named.src + [k], y.named.dst).0;
      OutFrame(y.roots.src, y.roots.dst + [k], d.now, e.now) && SameWay(y.roots, d.now, e.now)
  {
    var a, b, x := y.roots.src, y.roots.dst, y.named.src;
    var e := MoveDir(os, d, true, false, x + [k], y.named.dst).0;
    assert Under(a, a) && Mirror(a, x, a) == x && Mirror(a, y.named.dst, a) == y.named.dst && Mirror(a, b, a) == b;
    MirrorChild(a, x, a, k);
    MirrorChild(a, b, a, k);
    MoveDirFrame(os, a, b, x, y.named.dst, d, true, false, a + [k]);
    forall q | Under(q, b) ensures SameOrDir(d.now, e.now, q) {
      if Under(a, q) { UnderTransitive(a, q, b); }
      assert GrewTo(b + [k], d.now, e.now, q);
    }
  }

  lemma {:induction false} TitlesElsewhere(
    os: Fates, maps: seq<Mapping>, titles: seq<Title>, y: Mapping, n: Name, d: Disk)
    requires Disjoint(maps) && AllKnown(maps, d.now) && AllPresent(maps, d.now, titles) && NoRepeats(titles)
    requires y in maps && (y.named, n) !in titles
    ensures Untouched(y.roots.src, y.roots.dst, d.now, MoveOld(os, d, titles).now, n)
    decreases |titles|
  {
    if titles != [] {
      var (x, k) := titles[0];
      var e := MoveDir(os, d, true, false, x.src + [k], x.dst).0;
      assert titles[0] in titles && Present(maps, d.now, titles[0]);
      var m :| m in maps && PresentIn(m, d.now, titles[0]);
      OtherTitle(os, maps, d, m, titles[0], y, n);
      OthersStayPresent(os, maps, d, m, titles);
      TitlesElsewhere(os, maps, titles[1..], y, n, e);
      UntouchedThen(y.roots.src, y.roots.dst, d.now, e.now, MoveOld(os, e, titles[1..]).now, n);
    }
  }

  lemma TitleMovedAmid(x: Pair, t: Tree, t1: Tree, u: Tree, v: Tree, n: Name)
    requires Apart(x.src, x.dst) && Untouched(x.src, x.dst, t, t1, n) && TitleMoved(x, t1, u, n)
    requires Untouched(x.src, x.dst, u, v, n)
    ensures TitleMoved(x, t, v, n)
  {
    var entry, copy := x.src + [n], x.dst + [n];
    assert Under(entry, entry) && Under(copy, copy);
    if !(entry in t && t[entry].File?) {
      CompletedAmid(x.src, x.dst, t, t1, u, v, n);
    }
  }

  lemma FirstTitleMoved(
    os: Fates, maps: seq<Mapping>, titles: seq<Title>, y: Mapping, n: Name, d: Disk)
    requires Disjoint(maps) && AllKnown(maps, d.now) && Reliable(os, 0) && titles != []
    requires AllPresent(maps, d.now, titles) && NoRepeats(titles)
    requires y in maps && y.named == y.roots && titles[0] == (y.named, n) && TitleFit(y.roots, d.now, n)
    ensures TitleMoved(y.roots, d.now, MoveOld(os, d, titles).now, n)
  {
    var e := MoveDir(os, d, true, false, y.named.src + [n], y.named.dst).0;
    assert PresentIn(y, d.now, titles[0]);
    OthersStayPresent(os, maps, d, y, titles);
    FittingTitleMoves(os, d, y.roots, n);
    TitleCall(os, d, y, titles[0]);
    KnownAfter(maps, y, d, e);
    TitlesElsewhere(os, maps, titles[1..], y, n, e);
    assert Untouched(y.roots.src, y.roots.dst, d.now, d.now, n);
    TitleMovedAmid(y.roots, d.now, d.now, e.now, MoveOld(os, e, titles[1..]).now, n);
  }

  /** Another title first. */
  lemma OtherTitleFirst(os: Fates, maps: seq<Mapping>, titles: seq<Title>, y: Mapping, n: Name, d: Disk)
    requires Disjoint(maps) && AllKnown(maps, d.now) && titles != [] && titles[0] != (y.named, n)
    requires AllPresent(maps, d.now, titles) && NoRepeats(titles)
    requires y in maps && TitleFit(y.roots, d.now, n)
    ensures
      var u := MoveDir(os, d, true, false, titles[0].0.src + [titles[0].1], titles[0].0.dst).0.now;
      && AllKnown(maps, u) && AllPresent(maps, u, titles[1..])
      && Untouched(y.roots.src, y.roots.dst, d.now, u, n) && TitleFit(y.roots, u, n)
  {
    assert titles[0] in titles && Present(maps, d.now, titles[0]);
    var m :| m in maps && PresentIn(m, d.now, titles[0]);
    OthersStayPresent(os, maps, d, m, titles);
    OtherTitle(os, maps, d, m, titles[0], y, n);
    var u := MoveDir(os, d, true, false, titles[0].0.src + [titles[0].1], titles[0].0.dst).0.now;
    TitleFitKept(y.roots, d.now, u, n);
  }

  /** On such a system every listed title that can be moved is, whatever becomes of the others. */
  lemma {:induction false} TitlesMoved(
    os: Fates, maps: seq<Mapping>, titles: seq<Title>, y: Mapping, n: Name, d: Disk)
    requires Disjoint(maps) && AllKnown(maps, d.now) && Reliable(os, 0)
    requires AllPresent(maps, d.now, titles) && NoRepeats(titles)
    requires y in maps && y.named == y.roots && (y.named, n) in titles && TitleFit(y.roots, d.now, n)
    ensures TitleMoved(y.roots, d.now, MoveOld(os, d, titles).now, n)
    decreases |titles|
  {
    if titles[0] == (y.named, n) {
      FirstTitleMoved(os, maps, titles, y, n, d);
    } else {
      var (x, k) := titles[0];
      var e := MoveDir(os, d, true, false, x.src + [k], x.dst).0;
      var u := MoveOld(os, e, titles[1..]).now;
      OtherTitleFirst(os, maps, titles, y, n, d);
      TitlesMoved(os, maps, titles[1..], y, n, e);
      assert Untouched(y.roots.src, y.roots.dst, u, u, n);
      TitleMovedAmid(y.roots, d.now, e.now, u, u, n);
    }
  }

  // ----- A whole pass -----

  /** Every root is there and can be listed. */
  ghost predicate Listable(maps: seq<Mapping>, t: Tree) {
    forall m :: m in maps ==> At(t, m.roots.src) == Some(Dir) && |m.named.src| <= PATH_LIMIT
  }

  lemma {:induction false} EntriesListable(
    os: Fates, m: Mapping, d: Disk, names: seq<Name>, aged: Age, found: seq<Title>)
    requires Known(d.now, m) && At(d.now, m.roots.src) == Some(Dir) && Reliable(os, 0)
    requires forall n :: n in names ==> m.roots.src + [n] in d.now
    ensures ListEntries(os, d, m.named, names, aged, found).1.Some?
    decreases |names|
  {
    assert os(d.clock).works && os(d.clock + 1).works && os(d.clock + 2).works;
    if names != [] {
      var n := names[0];
      var a, x := m.roots.src, m.named.src;
      assert n in names && Under(a, a) && Mirror(a, x, a) == x;
      EntryNamed(a, m.roots.dst, x, m.named.dst, d.now, a, n);
      var (d2, meta) := Metadata(os, d.Tick(), x + [n]);
      if meta.node.Symlink? {
        EntriesListable(os, m, d2, names[1..], aged, found);
      } else {
        var more := if aged(m.named, n) then found + [(m.named, n)] else found;
        EntriesListable(os, m, d2.Tick(), names[1..], aged, more);
      }
    }
  }

  lemma {:induction false} RootsListable(os: Fates, rest: seq<Mapping>, d: Disk, aged: Age, found: seq<Title>)
    requires (forall m :: m in rest ==> Known(d.now, m)) && Listable(rest, d.now) && Reliable(os, 0)
    ensures ListOld(os, d, Named(rest), aged, found).1.Some?
    decreases |rest|
  {
    if rest != [] {
      var m := rest[0];
      assert Named(rest)[0] == m.named && Named(rest)[1..] == Named(rest[1..]);
      RootReadable(os, d, m);
      RootEntries(os, d, m);
      var (d1, names) := ReadDir(os, d, m.named.src);
      forall n | n in names.value ensures m.roots.src + [n] in d.now { EntriesOf(d.now, m.roots.src, n); }
      EntriesListable(os, m, d1, names.value, aged, found);
      EntriesListedNothing(os, m.named, d1, names.value, aged, found);
      var (d2, more) := ListEntries(os, d1, m.named, names.value, aged, found);
      RootsListable(os, rest[1..], d2, aged, more.value);
    }
  }

  lemma RootReadable(os: Fates, d: Disk, m: Mapping)
    requires Known(d.now, m) && At(d.now, m.roots.src) == Some(Dir) && |m.named.src| <= PATH_LIMIT && Reliable(os, 0)
    ensures ReadDir(os, d, m.named.src).1.Some?
  {
    var a := m.roots.src;
    assert Under(a, a) && Mirror(a, m.named.src, a) == m.named.src;
    ExistingIsPlain(d.now, a);
    NameLookup(d.now, m.named.src, a, a);
    assert os(d.clock).works && Enumerates(os(d.clock).listing(Entries(d.now, a)), Entries(d.now, a));
  }

  /** A pass whose listing fails changes nothing, and is the worker's last. */
  lemma PassMayFail(os: Fates, maps: seq<Mapping>, d: Disk, full: bool, aged: Age)
    requires Disjoint(maps) && AllKnown(maps, d.now)
    ensures
      var (e, alive) := Pass(os, d, Named(maps), full, aged);
      && (!alive ==> e.past == d.past && e.now == d.now)
      && (Reliable(os, 0) && Listable(maps, d.now) ==> alive)
  {
    OldListed(os, maps, maps, d, aged, []);
    if Reliable(os, 0) && Listable(maps, d.now) {
      RootsListable(os, maps, d, aged, []);
    }
  }

  /** On a system where each call does what it can, a pass on a full disk moves every root that can be moved, past
      the age or not. */
  lemma FullPassMoves(os: Fates, maps: seq<Mapping>, d: Disk, aged: Age, y: Mapping)
    requires Disjoint(maps) && AllKnown(maps, d.now) && Reliable(os, 0) && Listable(maps, d.now)
    requires y in maps && y.named == y.roots && Willing(y.roots, d.now)
    ensures
      var (e, alive) := Pass(os, d, Named(maps), true, aged);
      alive && RootMoved(y.roots, d.now, e.now) && Willing(y.roots, e.now) && AllLinked(y.roots, e.now)
  {
    OldListed(os, maps, maps, d, aged, []);
    RootsListable(os, maps, d, aged, []);
    RootsMoved(os, maps, maps, y, ListOld(os, d, Named(maps), aged, []).0);
  }

  /** And a pass on a disk that is not full moves every title past the age that can be moved. */
  lemma AgedPassMoves(os: Fates, maps: seq<Mapping>, d: Disk, aged: Age, y: Mapping, n: Name)
    requires Disjoint(maps) && AllKnown(maps, d.now) && Reliable(os, 0) && Listable(maps, d.now)
    requires y in maps && y.named == y.roots && TitleFit(y.roots, d.now, n) && aged(y.named, n)
    ensures
      var (e, alive) := Pass(os, d, Named(maps), false, aged);
      alive && TitleMoved(y.roots, d.now, e.now, n)
  {
    var (d1, list) := ListOld(os, d, Named(maps), aged, []);
    OldListed(os, maps, maps, d, aged, []);
    RootsListable(os, maps, d, aged, []);
    ListedExactly(os, maps, d, aged, (y.named, n));
    assert AgedIn(y, d.now, aged, (y.named, n));
    TitlesMoved(os, maps, list.value, y, n, d1);
  }

  // ----- The worker's life -----

  /** What every job keeps, on a system where each call does what it can: the worker can go on, and what is still to
      be moved of one root can be. */
  ghost predicate InShape(maps: seq<Mapping>, y: Mapping, t: Tree) {
    AllKnown(maps, t) && Listable(maps, t) && Willing(y.roots, t)
  }

  /** No call removes a root. */
  lemma RootStays(maps: seq<Mapping>, m: Mapping, z: Mapping, d: Disk, e: Disk)
    requires Disjoint(maps) && m in maps && z in maps && Reaches(m.roots.src, m.roots.dst, d, e)
    requires m == z ==> At(e.now, m.roots.src) == At(d.now, m.roots.src)
    ensures At(e.now, z.roots.src) == At(d.now, z.roots.src)
  {
    if m != z {
      OtherSides(maps, m, z, d, e);
      assert Under(z.roots.src, z.roots.src);
      SameAt(z.roots, d.now, e.now, z.roots.src);
    }
  }

  lemma CallKeepsListable(maps: seq<Mapping>, m: Mapping, d: Disk, e: Disk)
    requires Disjoint(maps) && m in maps && Reaches(m.roots.src, m.roots.dst, d, e) && Listable(maps, d.now)
    requires At(e.now, m.roots.src) == At(d.now, m.roots.src)
    ensures Listable(maps, e.now)
  {
    forall z | z in maps ensures At(e.now, z.roots.src) == Some(Dir) && |z.named.src| <= PATH_LIMIT {
      RootStays(maps, m, z, d, e);
    }
  }

  ghost function StaysLinked(x: Pair): Tree -> bool {
    t => AllLinked(x, t)
  }

  /** Entries that are links stay links, and nothing else comes up beside them. */
  lemma LinkedAfter(maps: seq<Mapping>, m: Mapping, y: Mapping, d: Disk, e: Disk)
    requires Disjoint(maps) && m in maps && y in maps && AllKnown(maps, d.now)
    requires Reaches(m.roots.src, m.roots.dst, d, e) && AllLinked(y.roots, d.now)
    ensures AllLinked(y.roots, e.now)
  {
    if m == y {
      var p := StaysLinked(y.roots);
      var a, b := m.roots.src, m.roots.dst;
      forall t, f | p(t) && Allowed(a, b, t, f) ensures p(Apply(a, b, t, f)) {
        forall n | a + [n] in Apply(a, b, t, f) ensures IsLink(Apply(a, b, t, f), a + [n]) {
          assert Under(a, a + [n]);
          StepStage(a, b, t, f, a + [n]);
        }
      }
      ReachesInvariant(a, b, d, e, p, |e.past|);
      assert p(e.States()[|e.past|]);
    } else {
      OtherSides(maps, m, y, d, e);
      AllLinkedKept(y.roots, d.now, e.now);
    }
  }

  lemma {:induction false} RootsKeepShape(os: Fates, maps: seq<Mapping>, rest: seq<Mapping>, d: Disk)
    requires Disjoint(maps) && (forall m :: m in rest ==> m in maps)
    requires AllKnown(maps, d.now) && Listable(maps, d.now)
    ensures AllKnown(maps, MoveRoots(os, d, Named(rest)).now) && Listable(maps, MoveRoots(os, d, Named(rest)).now)
    decreases |rest|
  {
    if rest != [] {
      var m := rest[0];
      var e := MoveDir(os, d, true, true, m.named.src, m.named.dst).0;
      assert Named(rest)[0] == m.named && Named(rest)[1..] == Named(rest[1..]);
      RootKnown(os, maps, m, d);
      MassKeepsRoot(os, d, m);
      CallKeepsListable(maps, m, d, e);
      RootsKeepShape(os, maps, rest[1..], e);
    }
  }

  lemma MassKeepsRoot(os: Fates, d: Disk, m: Mapping)
    requires Known(d.now, m)
    ensures At(MoveDir(os, d, true, true, m.named.src, m.named.dst).0.now, m.roots.src) == At(d.now, m.roots.src)
  {
    var a, x := m.roots.src, m.named.src;
    assert Under(a, a) && Mirror(a, x, a) == x;
    MoveDirNamed(os, a, m.roots.dst, x, m.named.dst, d, true, true, a);
  }

  /** A job that moves all roots. */
  lemma MovesAll(os: Fates, maps: seq<Mapping>, y: Mapping, d: Disk)
    requires Disjoint(maps) && y in maps && y.named == y.roots && Reliable(os, 0) && InShape(maps, y, d.now)
    ensures
      var e := MoveRoots(os, d, Named(maps));
      InShape(maps, y, e.now) && AllLinked(y.roots, e.now)
  {
    RootsMoved(os, maps, maps, y, d);
    RootsKeepShape(os, maps, maps, d);
  }

  /** A title that has been moved, or copied if it is a plain file, leaves its root willing. */
  lemma WillingAfterTitle(os: Fates, d: Disk, y: Mapping, k: Name)
    requires Known(d.now, y) && y.named == y.roots && Reliable(os, 0) && Willing(y.roots, d.now)
    requires PresentIn(y, d.now, (y.named, k))
    ensures
      var u := MoveDir(os, d, true, false, y.named.src + [k], y.named.dst).0.now;
      Willing(y.roots, u)
  {
    var x, a, b, t := y.roots, y.roots.src, y.roots.dst, d.now;
    var (e, ok) := MoveDir(os, d, true, false, a + [k], b);
    assert TitleFit(x, t, k);
    FittingTitleMoves(os, d, x, k);
    TitleCall(os, d, y, (y.named, k));
    ReadyNow(a, b, d, e);
    TitleOut(os, d, y, k);
    BelowEntry(a, k, a);
    assert Under(a, a);
    forall n | a + [n] in e.now && !IsLink(e.now, a + [n]) ensures TitleFit(x, e.now, n) {
      if n == k {
        CopiedStillFits(x, t, e.now, k);
      } else {
        OtherUntouched(a, b, t, e.now, k, n);
        assert Under(a + [n], a + [n]);
        TitleFitKept(x, t, e.now, n);
      }
    }
    LimitAfterTitle(x, t, e.now, k);
  }

  lemma CopiedStillFits(x: Pair, t: Tree, u: Tree, k: Name)
    requires Apart(x.src, x.dst) && TitleFit(x, t, k) && TitleMoved(x, t, u, k) && WellFormed(u) && WellFormed(t)
    requires x.src + [k] in u && !IsLink(u, x.src + [k])
    ensures TitleFit(x, u, k)
  {
    var entry, copy := x.src + [k], x.dst + [k];
    MirrorChild(x.src, x.dst, x.src, k);
    assert Under(entry, entry) && Under(copy, copy) && Mirror(x.src, x.dst, x.src) == x.dst && Parent(copy) == x.dst;
    if !t[entry].File? {
      BelowEntry(x.src, k, entry);
      assert false;
    }
    assert At(u, entry) == At(t, entry);
    forall q | q in u && Under(entry, q) ensures q == entry {
      if q != entry { AncestorsAreDirs(u, q, entry); }
    }
  }

  lemma LimitAfterTitle(x: Pair, t: Tree, u: Tree, k: Name)
    requires Apart(x.src, x.dst) && WithinLimit(x.src, t) && TitleFit(x, t, k) && TitleMoved(x, t, u, k)
    requires forall q :: Under(x.src, q) && !Under(x.src + [k], q) ==> At(u, q) == At(t, q)
    ensures WithinLimit(x.src, u)
  {
    forall q | q in u && Under(x.src, q) ensures |q| <= PATH_LIMIT {
      if Under(x.src + [k], q) && !t[x.src + [k]].File? {
        BelowEntry(x.src, k, q);
        assert SweptAt(x.src, x.dst, t, u, x.src, {k}, true, q);
        assert |q| == |x.src| + 1;
        assert q == x.src + [k];
      }
    }
  }

  lemma {:induction false} TitlesKeepShape(os: Fates, maps: seq<Mapping>, titles: seq<Title>, y: Mapping, d: Disk)
    requires Disjoint(maps) && y in maps && y.named == y.roots && Reliable(os, 0) && InShape(maps, y, d.now)
    requires AllPresent(maps, d.now, titles) && NoRepeats(titles)
    ensures
      var e := MoveOld(os, d, titles);
      InShape(maps, y, e.now) && (AllLinked(y.roots, d.now) ==> AllLinked(y.roots, e.now))
    decreases |titles|
  {
    if titles != [] {
      var (x, k) := titles[0];
      var e := MoveDir(os, d, true, false, x.src + [k], x.dst).0;
      FirstTitleKeepsShape(os, maps, titles, y, d);
      TitlesKeepShape(os, maps, titles[1..], y, e);
    }
  }

  lemma FirstTitleKeepsShape(os: Fates, maps: seq<Mapping>, titles: seq<Title>, y: Mapping, d: Disk)
    requires Disjoint(maps) && y in maps && y.named == y.roots && Reliable(os, 0) && InShape(maps, y, d.now)
    requires AllPresent(maps, d.now, titles) && NoRepeats(titles) && titles != []
    ensures
      var u := MoveDir(os, d, true, false, titles[0].0.src + [titles[0].1], titles[0].0.dst).0.now;
      && InShape(maps, y, u) && (AllLinked(y.roots, d.now) ==> AllLinked(y.roots, u))
      && AllPresent(maps, u, titles[1..])
  {
    var e := MoveDir(os, d, true, false, titles[0].0.src + [titles[0].1], titles[0].0.dst).0;
    assert titles[0] in titles && Present(maps, d.now, titles[0]);
    var m :| m in maps && PresentIn(m, d.now, titles[0]);
    OthersStayPresent(os, maps, d, m, titles);
    TitleCall(os, d, m, titles[0]);
    KnownAfter(maps, m, d, e);
    assert Under(m.roots.src, m.roots.src) && !Under(m.roots.src + [titles[0].1], m.roots.src);
    CallKeepsListable(maps, m, d, e);
    if AllLinked(y.roots, d.now) { LinkedAfter(maps, m, y, d, e); }
    if m == y {
      WillingAfterTitle(os, d, y, titles[0].1);
    } else {
      OtherSides(maps, m, y, d, e);
      WillingKept(y.roots, d.now, e.now);
    }
  }

  predicate MovesEverything(job: Job) {
    job.Requested? || job.full
  }

  /** What one job does. */
  function Done(os: Fates, d: Disk, pairs: seq<Pair>, job: Job): (Disk, bool) {
    if job.Requested? then (MoveRoots(os, d, pairs), true) else Pass(os, d, pairs, job.full, job.aged)
  }

  lemma JobMoves(os: Fates, maps: seq<Mapping>, job: Job, y: Mapping, d: Disk)
    requires Disjoint(maps) && y in maps && y.named == y.roots && Reliable(os, 0) && InShape(maps, y, d.now)
    ensures
      var (e, alive) := Done(os, d, Named(maps), job);
      && alive && InShape(maps, y, e.now)
      && (MovesEverything(job) || AllLinked(y.roots, d.now) ==> AllLinked(y.roots, e.now))
  {
    if job.Requested? {
      MovesAll(os, maps, y, d);
    } else {
      var (d1, list) := ListOld(os, d, Named(maps), job.aged, []);
      OldListed(os, maps, maps, d, job.aged, []);
      RootsListable(os, maps, d, job.aged, []);
      if job.full {
        MovesAll(os, maps, y, d1);
      } else {
        TitlesKeepShape(os, maps, list.value, y, d1);
      }
    }
  }

  /** On a system where each call does what it can, once one of the worker's jobs has been a batch or a pass on a full
      disk, every entry of a root that can be moved is a link, and stays one. */
  lemma {:induction false} WorkMoves(os: Fates, maps: seq<Mapping>, jobs: seq<Job>, y: Mapping, d: Disk)
    requires Disjoint(maps) && y in maps && y.named == y.roots && Reliable(os, 0) && InShape(maps, y, d.now)
    ensures
      var e := Work(os, d, Named(maps), jobs);
      && InShape(maps, y, e.now)
      && ((exists job :: job in jobs && MovesEverything(job)) || AllLinked(y.roots, d.now) ==>
            AllLinked(y.roots, e.now))
    decreases |jobs|
  {
    if jobs != [] {
      var e := Done(os, d, Named(maps), jobs[0]).0;
      JobMoves(os, maps, jobs[0], y, d);
      WorkMoves(os, maps, jobs[1..], y, e);
      assert Work(os, d, Named(maps), jobs) == Work(os, e, Named(maps), jobs[1..]);
      assert forall job :: job in jobs <==> job == jobs[0] || job in jobs[1..];
    }
  }
}
