/** When the system lets every call do what it can, a mass move returns Ok exactly if each entry to be
    moved holds only files and directories and nothing of another kind is in the way of its copy. */
module MoverSucceeds {
  import opened FileSystem
  import opened TreeMover
  import opened MoverSafety
  import opened MoverExact
  import opened Library

  predicate SameKind(x: Node, y: Node) {
    (x.File? && y.File?) || (x.Dir? && y.Dir?)
  }

  /** `p` and all below it can be copied: files and directories, whose mirrors are free or of the same kind. */
  ghost predicate Fits(a: Path, b: Path, t: Tree, p: Path)
    requires Under(a, p)
  {
    forall q :: q in t && Under(p, q) && Under(a, q) ==>
      && (t[q].File? || t[q].Dir?)
      && (Mirror(a, b, q) in t ==> SameKind(t[q], t[Mirror(a, b, q)]))
  }

  /** No path at or below `p` is too long to be used. */
  ghost predicate WithinLimit(p: Path, t: Tree) {
    forall q :: q in t && Under(p, q) ==> |q| <= PATH_LIMIT
  }

  lemma WithinBelow(p: Path, n: Name, t: Tree)
    requires WithinLimit(p, t)
    ensures WithinLimit(p + [n], t)
  {
    forall q | q in t && Under(p + [n], q) ensures |q| <= PATH_LIMIT {
      assert Under(p, p + [n]);
      UnderTransitive(p, p + [n], q);
    }
  }

  // ----- Sufficient -----

  lemma CopySucceeds(os: Fates, a: Path, b: Path, d: Disk, src: Path)
    requires Ready(a, b, d.now) && Under(a, src) && src != a && src in d.now && d.now[src].File?
    requires Under(a, Parent(src)) && At(d.now, Mirror(a, b, Parent(src))) == Some(Dir)
    requires Mirror(a, b, src) in d.now ==> d.now[Mirror(a, b, src)].File?
    requires os(d.clock).works
    ensures Copy(os, d, src, Mirror(a, b, src)).1
  {
    var m := Mirror(a, b, src);
    MirrorFacts(a, b, src);
    assert Stat(d.now, src) == Some(d.now[src]) by {
      PlainSource(a, b, d.now, src);
      ResolvePlain(d.now, src);
    }
    assert Resolve(d.now, m) == Some(m) by {
      PlainMirror(a, b, d.now, src);
      ResolvePlain(d.now, m);
    }
  }

  /** There is room for a copy: a file is put into a directory that is there, a directory is made on the way. */
  ghost predicate Room(a: Path, b: Path, t: Tree, src: Path)
    requires src in t && Under(a, src) && src != a && Under(a, Parent(src))
  {
    if t[src].File? then At(t, Mirror(a, b, Parent(src))) == Some(Dir) else Clear(t, Mirror(a, b, src))
  }

  lemma RoomBelow(a: Path, b: Path, t: Tree, src: Path)
    requires src in t && Under(a, src) && src != a && Under(a, Parent(src))
    requires Fits(a, b, t, src) && At(t, Mirror(a, b, Parent(src))) == Some(Dir)
    ensures Room(a, b, t, src)
  {
    MirrorFacts(a, b, src);
    assert Under(src, src);
  }

  /** An emptied directory whose entries could all be moved has nothing left in it. */
  lemma EmptiedIsEmpty(a: Path, b: Path, t: Tree, g: Tree, u: Tree, p: Path)
    requires Ready(a, b, t) && Under(a, p) && Emptied(a, b, t, g, u, p) && Clean(t, p)
    ensures Entries(u, p) == {}
  {
    forall n ensures n !in Entries(u, p) {
      var e := p + [n];
      EntriesOf(u, p, n);
      EntriesOf(g, p, n);
      BelowEntry(p, n, e);
      SourceSide(a, b, p, e);
      MirrorFacts(a, b, p);
      MadeOutsideSource(a, b, Mirror(a, b, p), t, g);
      assert At(g, e) == At(t, e);
      assert SweptAt(a, b, g, u, p, Entries(g, p), false, e);
    }
  }

  lemma {:induction false} MoveDirSucceeds(os: Fates, a: Path, b: Path, d: Disk, isMass: bool, src: Path)
    requires Ready(a, b, d.now) && Reliable(os, d.clock)
    requires Under(a, src) && src != a && src in d.now && Under(a, Parent(src))
    requires WithinLimit(src, d.now) && Fits(a, b, d.now, src) && Room(a, b, d.now, src)
    ensures
      var (e, ok) := MoveDir(os, d, false, isMass, src, Mirror(a, b, Parent(src)));
      ok && e.clock >= d.clock
    decreases Depth(src), 1
  {
    assert Under(src, src) && !d.now[src].Symlink?;
    var m := Mirror(a, b, src);
    assert Destination(false, isMass, src, Mirror(a, b, Parent(src))) == m by { MirrorFacts(a, b, src); }
    assert Stat(d.now, src) == Some(d.now[src]) by {
      PlainSource(a, b, d.now, src);
      ResolvePlain(d.now, src);
    }
    var d1 := d.Tick();
    if d.now[src].File? {
      CopySucceeds(os, a, b, d1, src);
    } else {
      MoveTreeSucceeds(os, a, b, d1, isMass, src);
    }
  }

  lemma {:induction false} MoveTreeSucceeds(os: Fates, a: Path, b: Path, d: Disk, isMass: bool, src: Path)
    requires Ready(a, b, d.now) && Reliable(os, d.clock)
    requires Under(a, src) && src != a && At(d.now, src) == Some(Dir) && Under(a, Parent(src))
    requires WithinLimit(src, d.now) && Fits(a, b, d.now, src) && Clear(d.now, Mirror(a, b, src))
    ensures
      var (e, ok) := MoveTree(os, d, false, isMass, src, Mirror(a, b, src));
      ok && e.clock >= d.clock
    decreases Depth(src), 0
  {
    var m := Mirror(a, b, src);
    assert Under(src, src);
    PlainMirror(a, b, d.now, src);
    MakeDirsWorks(os, d, m);
    TargetMade(os, a, b, d, src);
    var d2 := MakeDirs(os, d, m).0;
    ListSucceeds(os, a, b, d2, src);
    var (d3, names) := ReadDir(os, d2, src);
    forall n | n in names.value ensures Under(a, src + [n]) && src + [n] in d3.now && Fits(a, b, d3.now, src + [n]) {
      EntriesOf(d3.now, src, n);
      MirrorChild(a, b, src, n);
    }
    MoveEntriesSucceeds(os, a, b, d3, false, isMass, src, names.value);
  }

  lemma ListSucceeds(os: Fates, a: Path, b: Path, d: Disk, src: Path)
    requires Ready(a, b, d.now) && Under(a, src) && At(d.now, src) == Some(Dir) && |src| <= PATH_LIMIT
    requires Reliable(os, d.clock)
    ensures ReadDir(os, d, src).1.Some? && Enumerates(ReadDir(os, d, src).1.value, Entries(d.now, src))
  {
    PlainSource(a, b, d.now, src);
    ResolvePlain(d.now, src);
    assert Enumerates(os(d.clock).listing(Entries(d.now, src)), Entries(d.now, src));
  }

  lemma SameLimit(a: Path, p: Path, t: Tree, u: Tree)
    requires Under(a, p) && WithinLimit(p, t) && forall q :: Under(a, q) ==> At(u, q) == At(t, q)
    ensures WithinLimit(p, u)
  {
    forall q | q in u && Under(p, q) ensures |q| <= PATH_LIMIT {
      UnderTransitive(a, p, q);
    }
  }

  lemma TargetMade(os: Fates, a: Path, b: Path, d: Disk, src: Path)
    requires Ready(a, b, d.now) && Under(a, src) && src != a && At(d.now, src) == Some(Dir)
    requires WithinLimit(src, d.now) && Fits(a, b, d.now, src) && MakeDirs(os, d, Mirror(a, b, src)).1
    ensures
      var e := MakeDirs(os, d, Mirror(a, b, src)).0;
      && Ready(a, b, e.now) && At(e.now, src) == Some(Dir) && At(e.now, Mirror(a, b, src)) == Some(Dir)
      && (forall n :: n in Entries(e.now, src) ==> Under(a, src + [n]) && Fits(a, b, e.now, src + [n]))
      && WithinLimit(src, e.now)
  {
    var m := Mirror(a, b, src);
    var e := MakeDirs(os, d, m).0;
    MirrorFacts(a, b, src);
    PlainMirror(a, b, d.now, src);
    MakeDirsSafe(os, a, b, d, m);
    ReadyNow(a, b, d, e);
    MadeOutsideSource(a, b, m, d.now, e.now);
    SameLimit(a, src, d.now, e.now);
    forall n | n in Entries(e.now, src) ensures Under(a, src + [n]) && Fits(a, b, e.now, src + [n]) {
      MirrorChild(a, b, src, n);
      forall q | q in e.now && Under(src + [n], q) && Under(a, q)
        ensures (e.now[q].File? || e.now[q].Dir?)
        ensures (Mirror(a, b, q) in e.now ==> SameKind(e.now[q], e.now[Mirror(a, b, q)]))
      {
        BelowEntry(src, n, q);
        assert At(d.now, q) == At(e.now, q);
        BelowMirror(a, b, src, Mirror(a, b, q));
        MirrorFacts(a, b, q);
        assert |Mirror(a, b, q)| > |m|;
        assert !Under(Mirror(a, b, q), m);
      }
    }
  }

  lemma FinishSucceeds(os: Fates, a: Path, b: Path, d: Disk, link: bool, src: Path, name: Name)
    requires Ready(a, b, d.now) && Under(a, src) && At(d.now, src) == Some(Dir) && Reliable(os, d.clock)
    requires src + [name] in d.now && (d.now[src + [name]].File? || d.now[src + [name]].Dir?)
    requires d.now[src + [name]].Dir? ==> Entries(d.now, src + [name]) == {}
    ensures
      var (e, ok) := FinishEntry(os, d, link, src + [name], Mirror(a, b, src) + [name]);
      ok && e.clock >= d.clock
  {
    var entry := src + [name];
    EntryLookup(a, b, d.now, src, name);
    var (d1, removed) := RemoveEntry(os, d, entry);
    assert removed && d1.now == d.now - {entry} && d1.clock == d.clock + 2;
    if link {
      assert Parent(entry) == src && entry != src;
      assert Locate(d1.now, entry) == Some(entry) by { LookupAfterRemoval(a, b, d.now, src, name); }
    }
  }

  lemma LookupAfterRemoval(a: Path, b: Path, t: Tree, src: Path, name: Name)
    requires Ready(a, b, t) && Under(a, src) && At(t, src) == Some(Dir)
    ensures Locate(t - {src + [name]}, src + [name]) == Some(src + [name])
  {
    PlainSource(a, b, t, src);
    var u := t - {src + [name]};
    forall k | 0 <= k <= |src| ensures !IsLink(u, src[..k]) {
      assert !IsLink(t, src[..k]);
    }
    assert Parent(src + [name]) == src;
    LocatePlain(u, src + [name]);
  }

  lemma FitsIsClean(a: Path, b: Path, t: Tree, p: Path)
    requires Under(a, p) && Fits(a, b, t, p)
    ensures Clean(t, p)
  {
    forall q | q in t && Under(p, q) ensures t[q].File? || t[q].Dir? {
      UnderTransitive(a, p, q);
    }
  }

  lemma {:induction false} MoveEntrySucceeds(
    os: Fates, a: Path, b: Path, d: Disk, isRoot: bool, isMass: bool, src: Path, name: Name)
    requires Ready(a, b, d.now) && Reliable(os, d.clock) && WithinLimit(src, d.now)
    requires Under(a, src) && |src| <= PATH_LIMIT && Under(a, src + [name])
    requires At(d.now, src) == Some(Dir) && (isRoot ==> src == a || !isMass)
    requires src + [name] in d.now && Parent(src + [name]) == src && src + [name] != a
    requires
      !IsLink(d.now, src + [name]) ==> Fits(a, b, d.now, src + [name]) && Room(a, b, d.now, src + [name])
    ensures
      var (e, ok) := MoveEntry(os, d, isRoot, isMass, src, Mirror(a, b, src), name);
      ok && e.clock >= d.clock
    decreases Depth(src) - 1, 2
  {
    var entry := src + [name];
    var dst := Mirror(a, b, src);
    MirrorChild(a, b, src, name);
    EntryLookup(a, b, d.now, src, name);
    if !IsLink(d.now, entry) {
      var d1 := d.Tick();
      WithinBelow(src, name, d.now);
      MoveDirSucceeds(os, a, b, d1, isMass, entry);
      var d2 := MoveDir(os, d1, false, isMass, entry, dst).0;
      NestedLeaves(os, a, b, d1, isMass, src, name);
      FinishSucceeds(os, a, b, d2, isRoot && isMass, src, name);
    }
  }

  lemma NestedLeaves(os: Fates, a: Path, b: Path, d: Disk, isMass: bool, src: Path, name: Name)
    requires Ready(a, b, d.now) && Under(a, src) && At(d.now, src) == Some(Dir)
    requires Under(a, src + [name]) && src + [name] in d.now && Fits(a, b, d.now, src + [name])
    requires MoveDir(os, d, false, isMass, src + [name], Mirror(a, b, src)).1
    ensures
      var entry := src + [name];
      var e := MoveDir(os, d, false, isMass, entry, Mirror(a, b, src)).0;
      && Ready(a, b, e.now) && At(e.now, src) == Some(Dir) && At(e.now, entry) == At(d.now, entry)
      && (d.now[entry].File? || d.now[entry].Dir?)
      && (d.now[entry].Dir? ==> Entries(e.now, entry) == {})
  {
    var entry := src + [name];
    MirrorChild(a, b, src, name);
    assert Under(entry, entry) && !Under(entry, src);
    var e := MoveDir(os, d, false, isMass, entry, Mirror(a, b, src)).0;
    MoveDirSafe(os, a, b, d, false, isMass, entry, Mirror(a, b, src));
    ReadyNow(a, b, d, e);
    if d.now[entry].Dir? {
      MoveDirExact(os, a, b, d, false, isMass, entry, Mirror(a, b, src));
      var g :| Emptied(a, b, d.now, g, e.now, entry);
      FitsIsClean(a, b, d.now, entry);
      EmptiedIsEmpty(a, b, d.now, g, e.now, entry);
    }
  }

  /** Moving one entry leaves the others, and their mirrors, as they were. */
  lemma RestFits(a: Path, b: Path, t: Tree, u: Tree, src: Path, done: Name, n: Name, link: bool)
    requires Apart(a, b) && Under(a, src) && Swept(a, b, t, u, src, {done}, link) && n != done
    ensures At(u, src + [n]) == At(t, src + [n])
    ensures Under(a, src + [n]) && (Fits(a, b, t, src + [n]) ==> Fits(a, b, u, src + [n]))
  {
    MirrorChild(a, b, src, n);
    forall q | Under(src + [n], q)
      ensures Under(a, q) && At(u, q) == At(t, q) && At(u, Mirror(a, b, q)) == At(t, Mirror(a, b, q))
    {
      UnderTransitive(a, src + [n], q);
      BelowEntry(src, n, q);
      UntouchedSource(a, b, t, u, src, {done}, link, q);
      var m := Mirror(a, b, q);
      MirrorFacts(a, b, q);
      MirrorApart(a, b, q, m);
      assert SweptAt(a, b, t, u, src, {done}, link, m);
      assert |m| > |Mirror(a, b, src)|;
    }
    assert Under(src + [n], src + [n]);
  }

  lemma {:induction false} MoveEntriesSucceeds(
    os: Fates, a: Path, b: Path, d: Disk, isRoot: bool, isMass: bool, src: Path, names: seq<Name>)
    requires Ready(a, b, d.now) && Reliable(os, d.clock) && WithinLimit(src, d.now)
    requires Under(a, src) && |src| <= PATH_LIMIT
    requires At(d.now, src) == Some(Dir) && At(d.now, Mirror(a, b, src)) == Some(Dir)
    requires isRoot ==> src == a || !isMass
    requires forall i, j :: 0 <= i < j < |names| ==> names[i] != names[j]
    requires forall n :: n in names ==>
      Under(a, src + [n]) && (IsLink(d.now, src + [n]) || (src + [n] in d.now && Fits(a, b, d.now, src + [n])))
    ensures MoveEntries(os, d, isRoot, isMass, src, Mirror(a, b, src), names).1
    ensures MoveEntries(os, d, isRoot, isMass, src, Mirror(a, b, src), names).0.clock >= d.clock
    decreases Depth(src) - 1, |names| + 3
  {
    if names != [] {
      var d1 := d.Tick();
      MirrorChild(a, b, src, names[0]);
      if !IsLink(d.now, src + [names[0]]) { RoomBelow(a, b, d.now, src + [names[0]]); }
      MoveEntrySucceeds(os, a, b, d1, isRoot, isMass, src, names[0]);
      var d2 := MoveEntry(os, d1, isRoot, isMass, src, Mirror(a, b, src), names[0]).0;
      AfterEntry(os, a, b, d1, isRoot, isMass, src, names);
      MoveEntriesSucceeds(os, a, b, d2, isRoot, isMass, src, names[1..]);
    }
  }

  /** What the next entries find once the first one has been moved. */
  lemma AfterEntry(os: Fates, a: Path, b: Path, d: Disk, isRoot: bool, isMass: bool, src: Path, names: seq<Name>)
    requires Ready(a, b, d.now) && WithinLimit(src, d.now) && names != []
    requires Under(a, src) && |src| <= PATH_LIMIT && (isRoot ==> src == a || !isMass)
    requires At(d.now, src) == Some(Dir)
    requires At(d.now, Mirror(a, b, src)) == Some(Dir) || !IsLink(d.now, src + [names[0]])
    requires forall i, j :: 0 <= i < j < |names| ==> names[i] != names[j]
    requires forall n :: n in names ==>
      Under(a, src + [n]) && (IsLink(d.now, src + [n]) || (src + [n] in d.now && Fits(a, b, d.now, src + [n])))
    requires MoveEntry(os, d, isRoot, isMass, src, Mirror(a, b, src), names[0]).1
    ensures
      var e := MoveEntry(os, d, isRoot, isMass, src, Mirror(a, b, src), names[0]).0;
      && Ready(a, b, e.now) && WithinLimit(src, e.now)
      && At(e.now, src) == Some(Dir) && At(e.now, Mirror(a, b, src)) == Some(Dir)
      && forall n :: n in names[1..] ==>
           Under(a, src + [n]) && (IsLink(e.now, src + [n]) || (src + [n] in e.now && Fits(a, b, e.now, src + [n])))
  {
    var e := MoveEntry(os, d, isRoot, isMass, src, Mirror(a, b, src), names[0]).0;
    MoveEntrySafe(os, a, b, d, isRoot, isMass, src, names[0]);
    ReadyNow(a, b, d, e);
    EntryFrame(a, src, names[0], d.now, e.now);
    MoveEntryExact(os, a, b, d, isRoot, isMass, src, names[0]);
    SweptKeepsLimit(a, b, d.now, e.now, src, names[0], isRoot && isMass);
    SweptHasTarget(a, b, d.now, e.now, src, names[0], isRoot && isMass);
    forall n | n in names[1..]
      ensures Under(a, src + [n]) && (IsLink(e.now, src + [n]) || (src + [n] in e.now && Fits(a, b, e.now, src + [n])))
    {
      assert n in names && n != names[0];
      RestFits(a, b, d.now, e.now, src, names[0], n, isRoot && isMass);
    }
  }

  /** What has been moved lies in a directory. */
  lemma SweptHasTarget(a: Path, b: Path, t: Tree, u: Tree, src: Path, name: Name, link: bool)
    requires Apart(a, b) && Under(a, src) && Swept(a, b, t, u, src, {name}, link) && WellFormed(u)
    requires At(t, Mirror(a, b, src)) == Some(Dir) || (src + [name] in t && !IsLink(t, src + [name]))
    ensures At(u, Mirror(a, b, src)) == Some(Dir)
  {
    var m := Mirror(a, b, src);
    if src + [name] in t && !IsLink(t, src + [name]) {
      SweptCopy(a, b, t, u, src, {name}, link, name);
      assert Parent(m + [name]) == m;
    } else {
      assert Under(m, m);
      assert SweptAt(a, b, t, u, src, {name}, link, m);
    }
  }

  lemma SweptKeepsLimit(a: Path, b: Path, t: Tree, u: Tree, src: Path, name: Name, link: bool)
    requires Apart(a, b) && Under(a, src) && Swept(a, b, t, u, src, {name}, link) && WithinLimit(src, t)
    ensures WithinLimit(src, u)
  {
    forall q | q in u && Under(src, q) ensures |q| <= PATH_LIMIT {
      UnderTransitive(a, src, q);
      assert SweptAt(a, b, t, u, src, {name}, link, q);
      SourceSide(a, b, a, q);
      if Taken(t, src, {name}, q) {
        assert |q| == |src| + 1;
        BelowEntry(src, name, q);
        assert q == src + [name];
      } else if Under(q, Mirror(a, b, src)) {
        MirrorApart(a, b, src, q);
        MirrorFacts(a, b, src);
      }
    }
  }

  // ----- Necessary -----

  /** Nothing at the destination ever changes its kind. */
  lemma StepKeepsKinds(a: Path, b: Path, t: Tree, e: Effect, m: Path)
    requires Apart(a, b) && Allowed(a, b, t, e) && Under(b, m) && m in t
    ensures
      var u := Apply(a, b, t, e);
      m in u && (u[m] == t[m] || (u[m].File? && t[m].File?))
  {
    if e.Drop? { MirrorApart(a, b, e.gone, m); }
    if e.Link? { MirrorApart(a, b, e.link, m); }
  }

  lemma {:induction false} ReachesKeepsKinds(a: Path, b: Path, d: Disk, e: Disk, i: nat, m: Path)
    requires Apart(a, b) && Reaches(a, b, d, e) && |d.past| <= i <= |e.past|
    requires Under(b, m) && m in d.now
    ensures m in e.States()[i] && (e.States()[i][m] == d.now[m] || (e.States()[i][m].File? && d.now[m].File?))
    decreases i
  {
    if i == |d.past| {
      assert e.States()[..|d.past| + 1][i] == d.now;
    } else {
      ReachesKeepsKinds(a, b, d, e, i - 1, m);
      var x := StepAt(a, b, d, e, i);
      StepKeepsKinds(a, b, e.States()[i - 1], x, m);
    }
  }

  lemma MovedFits(a: Path, b: Path, d: Disk, e: Disk, names: set<Name>, n: Name)
    requires Ready(a, b, d.now) && Reaches(a, b, d, e)
    requires Swept(a, b, d.now, e.now, a, names, true) && n in names
    requires a + [n] in d.now && !IsLink(d.now, a + [n]) && Under(a, a + [n])
    ensures Fits(a, b, d.now, a + [n])
  {
    var t := d.now;
    assert Clean(t, a + [n]);
    forall q | q in t && Under(a + [n], q) && Under(a, q)
      ensures t[q].File? || t[q].Dir?
      ensures Mirror(a, b, q) in t ==> SameKind(t[q], t[Mirror(a, b, q)])
    {
      var m := Mirror(a, b, q);
      BelowEntry(a, n, q);
      if m in t {
        MirrorFacts(a, b, q);
        ReachesKeepsKinds(a, b, d, e, |e.past|, m);
        SweptMirror(a, b, t, e.now, names, q);
      }
    }
  }

  // ----- The destination root -----

  /** The destination root is there, or is made with the first title to be moved; a file would not make it. */
  predicate Opens(t: Tree, a: Path, b: Path, names: seq<Name>) {
    if names == [] || At(t, b) == Some(Dir) then true
    else if IsLink(t, a + [names[0]]) then Opens(t, a, b, names[1..])
    else At(t, a + [names[0]]) == Some(Dir) && Clear(t, b)
  }

  lemma {:induction false} OpeningEntriesMove(os: Fates, a: Path, b: Path, d: Disk, names: seq<Name>)
    requires Ready(a, b, d.now) && Reliable(os, d.clock) && WithinLimit(a, d.now) && At(d.now, a) == Some(Dir)
    requires |a| <= PATH_LIMIT && Opens(d.now, a, b, names)
    requires forall i, j :: 0 <= i < j < |names| ==> names[i] != names[j]
    requires forall n :: n in names ==>
      Under(a, a + [n]) && (IsLink(d.now, a + [n]) || (a + [n] in d.now && Fits(a, b, d.now, a + [n])))
    ensures MoveEntries(os, d, true, true, a, b, names).1
    decreases |names|
  {
    assert Under(a, a) && Mirror(a, b, a) == b;
    if At(d.now, b) == Some(Dir) {
      MoveEntriesSucceeds(os, a, b, d, true, true, a, names);
    } else if names != [] {
      var d1 := d.Tick();
      if IsLink(d.now, a + [names[0]]) {
        LinkSkipped(os, a, b, d1, names[0]);
        OpeningEntriesMove(os, a, b, d1.Tick(), names[1..]);
      } else {
        OpeningRoom(a, b, d.now, names[0]);
        MoveEntrySucceeds(os, a, b, d1, true, true, a, names[0]);
        AfterEntry(os, a, b, d1, true, true, a, names);
        MoveEntriesSucceeds(os, a, b, MoveEntry(os, d1, true, true, a, b, names[0]).0, true, true, a, names[1..]);
      }
    }
  }

  lemma OpeningRoom(a: Path, b: Path, t: Tree, n: Name)
    requires Under(a, a + [n]) && At(t, a + [n]) == Some(Dir) && Clear(t, b) && At(t, b) != Some(Dir)
    requires WellFormed(t)
    ensures Parent(a + [n]) == a && Room(a, b, t, a + [n])
  {
    MirrorChild(a, b, a, n);
    assert Mirror(a, b, a) == b && Parent(b + [n]) == b;
  }

  lemma {:induction false} MovedEntriesOpen(os: Fates, a: Path, b: Path, d: Disk, names: seq<Name>)
    requires Ready(a, b, d.now) && Reliable(os, d.clock) && At(d.now, a) == Some(Dir) && |a| <= PATH_LIMIT
    requires MoveEntries(os, d, true, true, a, b, names).1
    ensures Opens(d.now, a, b, names)
    decreases |names|
  {
    if names != [] && At(d.now, b) != Some(Dir) {
      var d1 := d.Tick();
      if IsLink(d.now, a + [names[0]]) {
        LinkSkipped(os, a, b, d1, names[0]);
        MovedEntriesOpen(os, a, b, d1.Tick(), names[1..]);
      } else {
        MovedEntryOpens(os, a, b, d1, names[0]);
      }
    }
  }

  lemma MovedEntryOpens(os: Fates, a: Path, b: Path, d: Disk, n: Name)
    requires Ready(a, b, d.now) && Reliable(os, d.clock) && At(d.now, a) == Some(Dir) && |a| <= PATH_LIMIT
    requires !IsLink(d.now, a + [n]) && At(d.now, b) != Some(Dir)
    requires MoveEntry(os, d, true, true, a, b, n).1
    ensures At(d.now, a + [n]) == Some(Dir) && Clear(d.now, b)
  {
    var d1 := d.Tick();
    var entry := a + [n];
    MirrorChild(a, b, a, n);
    assert Under(a, a) && Mirror(a, b, a) == b;
    EntryLookup(a, b, d.now, a, n);
    assert MoveDir(os, d1, false, true, entry, b).1;
    PlainMirror(a, b, d.now, entry);
    ResolvePlain(d.now, b + [n]);
    PlainSource(a, b, d.now, entry);
    ResolvePlain(d.now, entry);
    assert Parent(b + [n]) == b;
    if !d.now[entry].File? {
      var d2 := d1.Tick();
      assert MoveTree(os, d2, false, true, entry, b + [n]).1;
      MakeDirsWorks(os, d2, b + [n]);
      MoveTreeExact(os, a, b, d2, false, true, entry);
    }
  }

  /** When the system does what it can, a mass move returns Ok exactly when everything to be moved fits, and the
      destination root is there or the first title listed for moving brings it about. */
  lemma MassMoveSucceedsExactly(os: Fates, a: Path, b: Path, d: Disk)
    requires Ready(a, b, d.now) && Reliable(os, d.clock) && WithinLimit(a, d.now) && At(d.now, a) == Some(Dir)
    ensures
      MoveDir(os, d, true, true, a, b).1 <==>
      && (forall n :: a + [n] in d.now && !IsLink(d.now, a + [n]) ==>
            Under(a, a + [n]) && Fits(a, b, d.now, a + [n]))
      && Opens(d.now, a, b, os(d.clock + 1).listing(Entries(d.now, a)))
  {
    if MoveDir(os, d, true, true, a, b).1 {
      MovedRootFits(os, a, b, d);
      RootListing(os, a, b, d);
      MovedEntriesOpen(os, a, b, d.Tick().Tick(), os(d.clock + 1).listing(Entries(d.now, a)));
    }
    if
      && (forall n :: a + [n] in d.now && !IsLink(d.now, a + [n]) ==>
            Under(a, a + [n]) && Fits(a, b, d.now, a + [n]))
      && Opens(d.now, a, b, os(d.clock + 1).listing(Entries(d.now, a)))
    {
      FittingMassMove(os, a, b, d);
    }
  }

  lemma MovedRootFits(os: Fates, a: Path, b: Path, d: Disk)
    requires Ready(a, b, d.now) && At(d.now, a) == Some(Dir) && MoveDir(os, d, true, true, a, b).1
    ensures
      forall n :: a + [n] in d.now && !IsLink(d.now, a + [n]) ==> Under(a, a + [n]) && Fits(a, b, d.now, a + [n])
  {
    MoveDirExact(os, a, b, d, true, true, a, b);
    MoveDirSafe(os, a, b, d, true, true, a, b);
    forall n | a + [n] in d.now && !IsLink(d.now, a + [n])
      ensures Under(a, a + [n]) && Fits(a, b, d.now, a + [n])
    {
      MirrorChild(a, b, a, n);
      EntriesOf(d.now, a, n);
      MovedFits(a, b, d, MoveDir(os, d, true, true, a, b).0, Entries(d.now, a), n);
    }
  }

  /** On such a system, a mass move is the loop over what the root is listed to hold. */
  lemma RootListing(os: Fates, a: Path, b: Path, d: Disk)
    requires Ready(a, b, d.now) && Reliable(os, d.clock) && WithinLimit(a, d.now) && At(d.now, a) == Some(Dir)
    ensures
      var names := os(d.clock + 1).listing(Entries(d.now, a));
      && |a| <= PATH_LIMIT && Enumerates(names, Entries(d.now, a))
      && MoveDir(os, d, true, true, a, b) == MoveEntries(os, d.Tick().Tick(), true, true, a, b, names)
  {
    RootRead(os, a, b, d.Tick());
    MassMoveUnfolds(os, d, a, b);
  }

  lemma RootRead(os: Fates, a: Path, b: Path, d: Disk)
    requires Ready(a, b, d.now) && Reliable(os, d.clock) && WithinLimit(a, d.now) && At(d.now, a) == Some(Dir)
    ensures
      var names := os(d.clock).listing(Entries(d.now, a));
      && a != [] && |a| <= PATH_LIMIT && Enumerates(names, Entries(d.now, a))
      && ReadDir(os, d, a) == (d.Tick(), Some(names))
  {
    assert Under(a, a);
    ListSucceeds(os, a, b, d, a);
    ResolvePlain(d.now, a);
  }

  lemma FittingMassMove(os: Fates, a: Path, b: Path, d: Disk)
    requires Ready(a, b, d.now) && Reliable(os, d.clock) && WithinLimit(a, d.now) && At(d.now, a) == Some(Dir)
    requires forall n :: a + [n] in d.now && !IsLink(d.now, a + [n]) ==> Under(a, a + [n]) && Fits(a, b, d.now, a + [n])
    requires Opens(d.now, a, b, os(d.clock + 1).listing(Entries(d.now, a)))
    ensures MoveDir(os, d, true, true, a, b).1
  {
    RootListing(os, a, b, d);
    var names := os(d.clock + 1).listing(Entries(d.now, a));
    forall n | n in names
      ensures Under(a, a + [n]) && (IsLink(d.now, a + [n]) || (a + [n] in d.now && Fits(a, b, d.now, a + [n])))
    {
      EntriesOf(d.now, a, n);
      MirrorChild(a, b, a, n);
    }
    OpeningEntriesMove(os, a, b, d.Tick().Tick(), names);
  }

  // ----- One title -----

  /** An emptied title gives way to its link. */
  lemma ReplaceRootSucceeds(os: Fates, a: Path, b: Path, d: Disk, n: Name, copy: Path)
    requires Ready(a, b, d.now) && Under(a, a) && Reliable(os, d.clock)
    requires At(d.now, a + [n]) == Some(Dir) && Entries(d.now, a + [n]) == {}
    ensures ReplaceRoot(os, d, a + [n], copy).1
  {
    var src := a + [n];
    MirrorChild(a, b, a, n);
    assert At(d.now, a) == Some(Dir) by { assert Parent(src) == a; }
    PlainSource(a, b, d.now, src);
    ResolvePlain(d.now, src);
    var (d1, removed) := RemoveRoot(os, d, src);
    assert removed && d1.now == d.now - {src} && d1.clock == d.clock + 2;
    LookupAfterRemoval(a, b, d.now, a, n);
  }

  /** A title that fits, and that there is room for, is moved. */
  lemma FittingTitleMove(os: Fates, a: Path, b: Path, d: Disk, n: Name)
    requires Ready(a, b, d.now) && Reliable(os, d.clock) && WithinLimit(a + [n], d.now)
    requires Under(a, a) && Under(a, a + [n]) && Parent(a + [n]) == a && a + [n] != a
    requires a + [n] in d.now && Fits(a, b, d.now, a + [n]) && Room(a, b, d.now, a + [n])
    ensures MoveDir(os, d, true, false, a + [n], b).1
  {
    var src := a + [n];
    MirrorChild(a, b, a, n);
    assert Mirror(a, b, a) == b && Last(src) == n && Under(src, src);
    assert Stat(d.now, src) == Some(d.now[src]) by {
      PlainSource(a, b, d.now, src);
      ResolvePlain(d.now, src);
    }
    var d1 := d.Tick();
    if d.now[src].File? {
      CopySucceeds(os, a, b, d1, src);
    } else {
      FittingTreeMove(os, a, b, d1, n);
    }
  }

  lemma FittingTreeMove(os: Fates, a: Path, b: Path, d: Disk, n: Name)
    requires Ready(a, b, d.now) && Reliable(os, d.clock) && WithinLimit(a + [n], d.now)
    requires Under(a, a) && Under(a, a + [n]) && Parent(a + [n]) == a && a + [n] != a
    requires At(d.now, a + [n]) == Some(Dir) && Fits(a, b, d.now, a + [n]) && Clear(d.now, Mirror(a, b, a + [n]))
    ensures MoveTree(os, d, true, false, a + [n], Mirror(a, b, a + [n])).1
  {
    var src, m := a + [n], Mirror(a, b, a + [n]);
    var (d2, made) := MakeDirs(os, d, m);
    TitleTarget(os, a, b, d, n);
    ListSucceeds(os, a, b, d2, src);
    var (d3, names) := ReadDir(os, d2, src);
    TitleEmptied(os, a, b, d, d2, d3, n, names.value);
    ReplaceRootSucceeds(os, a, b, MoveEntries(os, d3, true, false, src, m, names.value).0, n, m);
    TitleUnfolds(os, d, src, m);
  }

  lemma TitleUnfolds(os: Fates, d: Disk, src: Path, m: Path)
    requires MakeDirs(os, d, m).1
    requires
      var d2 := MakeDirs(os, d, m).0;
      ReadDir(os, d2, src).1.Some? && |src| <= PATH_LIMIT
    requires
      var (d3, names) := ReadDir(os, MakeDirs(os, d, m).0, src);
      var (d4, ok) := MoveEntries(os, d3, true, false, src, m, names.value);
      ok && ReplaceRoot(os, d4, src, m).1
    ensures MoveTree(os, d, true, false, src, m).1
  {
    var (d3, names) := ReadDir(os, MakeDirs(os, d, m).0, src);
    assert MoveRest(os, d3, true, false, src, m, names.value).1;
  }

  lemma TitleTarget(os: Fates, a: Path, b: Path, d: Disk, n: Name)
    requires Ready(a, b, d.now) && Reliable(os, d.clock) && WithinLimit(a + [n], d.now)
    requires Under(a, a) && Under(a, a + [n]) && Parent(a + [n]) == a && a + [n] != a
    requires At(d.now, a + [n]) == Some(Dir) && Fits(a, b, d.now, a + [n]) && Clear(d.now, Mirror(a, b, a + [n]))
    ensures |a + [n]| <= PATH_LIMIT
    ensures
      var src, m := a + [n], Mirror(a, b, a + [n]);
      var (e, made) := MakeDirs(os, d, m);
      && made && e.clock >= d.clock && Ready(a, b, e.now) && WithinLimit(a + [n], e.now)
      && At(e.now, src) == Some(Dir) && At(e.now, m) == Some(Dir) && Grown(m, d.now, e.now)
      && (forall k :: k in Entries(e.now, src) ==> Under(a, src + [k]) && Fits(a, b, e.now, src + [k]))
  {
    var src, m := a + [n], Mirror(a, b, a + [n]);
    assert Under(src, src);
    PlainMirror(a, b, d.now, src);
    MakeDirsWorks(os, d, m);
    TargetMade(os, a, b, d, src);
    MakeDirsSafe(os, a, b, d, m);
  }

  /** The loop over a title's entries leaves the title empty. */
  lemma TitleEmptied(os: Fates, a: Path, b: Path, d: Disk, d2: Disk, d3: Disk, n: Name, names: seq<Name>)
    requires Ready(a, b, d.now) && Under(a, a) && Under(a, a + [n]) && At(d.now, a + [n]) == Some(Dir)
    requires Fits(a, b, d.now, a + [n]) && d3.now == d2.now && Reliable(os, d3.clock)
    requires Ready(a, b, d3.now) && WithinLimit(a + [n], d3.now)
    requires At(d3.now, a + [n]) == Some(Dir) && |a + [n]| <= PATH_LIMIT
    requires At(d3.now, Mirror(a, b, a + [n])) == Some(Dir) && Grown(Mirror(a, b, a + [n]), d.now, d3.now)
    requires Enumerates(names, Entries(d3.now, a + [n]))
    requires forall k :: k in Entries(d3.now, a + [n]) ==>
      Under(a, a + [n] + [k]) && Fits(a, b, d3.now, a + [n] + [k])
    ensures
      var (d4, ok) := MoveEntries(os, d3, true, false, a + [n], Mirror(a, b, a + [n]), names);
      && ok && d4.clock >= d3.clock && Ready(a, b, d4.now)
      && At(d4.now, a + [n]) == Some(Dir) && Entries(d4.now, a + [n]) == {}
  {
    var src := a + [n];
    forall k | k in names ensures src + [k] in d3.now { EntriesOf(d3.now, src, k); }
    MoveEntriesSucceeds(os, a, b, d3, true, false, src, names);
    var d4 := MoveEntries(os, d3, true, false, src, Mirror(a, b, src), names).0;
    MoveEntriesSafe(os, a, b, d3, true, false, src, names);
    ReadyNow(a, b, d3, d4);
    MoveEntriesExact(os, a, b, d3, true, false, src, names);
    assert (set k | k in names) == Entries(d3.now, src);
    FitsIsClean(a, b, d.now, src);
    assert Emptied(a, b, d.now, d3.now, d4.now, src);
    EmptiedIsEmpty(a, b, d.now, d3.now, d4.now, src);
  }

  /** When the system does what it can, a title that is no link is moved on its own with Ok exactly when all of it
      fits and there is room for it: the way to its mirror is clear or, for a plain file, the destination root is
      there. */
  lemma TitleMoveSucceedsExactly(os: Fates, a: Path, b: Path, d: Disk, n: Name)
    requires Ready(a, b, d.now) && Reliable(os, d.clock) && WithinLimit(a + [n], d.now)
    requires a + [n] in d.now && !IsLink(d.now, a + [n])
    ensures
      MoveDir(os, d, true, false, a + [n], b).1 <==>
        && Under(a, a + [n]) && Fits(a, b, d.now, a + [n])
        && (if d.now[a + [n]].File? then At(d.now, b) == Some(Dir) else Clear(d.now, b + [n]))
  {
    MirrorChild(a, b, a, n);
    assert Under(a, a) && Mirror(a, b, a) == b;
    if MoveDir(os, d, true, false, a + [n], b).1 {
      if d.now[a + [n]].File? {
        CopiedFileFits(os, a, b, d, n);
      } else {
        MovedTitleFits(os, a, b, d, n);
      }
    }
    if
      && Fits(a, b, d.now, a + [n])
      && (if d.now[a + [n]].File? then At(d.now, b) == Some(Dir) else Clear(d.now, b + [n]))
    {
      FittingTitleMove(os, a, b, d, n);
    }
  }

  lemma CopiedFileFits(os: Fates, a: Path, b: Path, d: Disk, n: Name)
    requires Ready(a, b, d.now) && Reliable(os, d.clock) && Under(a, a) && Under(a, a + [n])
    requires a + [n] in d.now && d.now[a + [n]].File?
    requires MoveDir(os, d, true, false, a + [n], b).1
    ensures Fits(a, b, d.now, a + [n]) && At(d.now, b) == Some(Dir)
  {
    var t, src, m := d.now, a + [n], b + [n];
    MirrorChild(a, b, a, n);
    assert Mirror(a, b, src) == m && Parent(m) == b;
    assert Stat(t, src) == Some(t[src]) by {
      PlainSource(a, b, t, src);
      ResolvePlain(t, src);
    }
    assert Resolve(t, m) == Some(m) by {
      PlainMirror(a, b, t, src);
      ResolvePlain(t, m);
    }
    assert Creatable(t, m) || (m in t && t[m].File?);
    forall q | q in t && Under(src, q) ensures q == src {
      if q != src { AncestorsAreDirs(t, q, src); }
    }
  }

  lemma MovedTitleFits(os: Fates, a: Path, b: Path, d: Disk, n: Name)
    requires Ready(a, b, d.now) && Reliable(os, d.clock) && Under(a, a) && Under(a, a + [n])
    requires a + [n] in d.now && !IsLink(d.now, a + [n]) && !d.now[a + [n]].File?
    requires MoveDir(os, d, true, false, a + [n], b).1
    ensures Fits(a, b, d.now, a + [n]) && Clear(d.now, b + [n])
  {
    var src := a + [n];
    MirrorChild(a, b, a, n);
    assert Mirror(a, b, a) == b && Parent(src) == a && Last(src) == n;
    MoveTitleSwept(os, a, b, d, n);
    MoveDirSafe(os, a, b, d, true, false, src, b);
    MovedFits(a, b, d, MoveDir(os, d, true, false, src, b).0, {n}, n);
    assert Stat(d.now, src) == Some(d.now[src]) by {
      PlainSource(a, b, d.now, src);
      ResolvePlain(d.now, src);
    }
    PlainMirror(a, b, d.now, src);
    MakeDirsWorks(os, d.Tick(), b + [n]);
    assert MoveDir(os, d, true, false, src, b) == MoveTree(os, d.Tick(), true, false, src, b + [n]);
  }

  // ----- A library that moves -----

  /** One title with one file below root `x`, and nothing yet below root `y`. */
  function OneTitle(x: Name, y: Name, film: Name, reel: Name, content: Bytes): Tree {
    map[[] := Dir, [x] := Dir, [y] := Dir, [x, film] := Dir, [x, film, reel] := File(content)]
  }

  lemma OneTitleReady(x: Name, y: Name, film: Name, reel: Name, content: Bytes)
    requires x != y
    ensures Ready([x], [y], OneTitle(x, y, film, reel, content))
    ensures WithinLimit([x], OneTitle(x, y, film, reel, content))
  {
    var t := OneTitle(x, y, film, reel, content);
    OneTitleWellFormed(x, y, film, reel, content);
    forall p ensures !IsLink(t, p) {}
    assert Apart([x], [y]) by { assert [x][..1] == [x] && [y][..1] == [y]; }
    forall p | p in t ensures |p| <= PATH_LIMIT {}
  }

  lemma OneTitleWellFormed(x: Name, y: Name, film: Name, reel: Name, content: Bytes)
    ensures WellFormed(OneTitle(x, y, film, reel, content))
  {
    assert Parent([x]) == [] && Parent([y]) == [] && Parent([x, film]) == [x] && Parent([x, film, reel]) == [x, film];
  }

  lemma OneTitleFits(x: Name, y: Name, film: Name, reel: Name, content: Bytes, n: Name)
    requires x != y && [x] + [n] in OneTitle(x, y, film, reel, content)
    ensures n == film && Under([x], [x] + [n]) && Fits([x], [y], OneTitle(x, y, film, reel, content), [x] + [n])
  {
    var t, p := OneTitle(x, y, film, reel, content), [x] + [n];
    assert p == [x, n] && p[..1] == [x];
    forall q | q in t && Under(p, q) && Under([x], q) ensures Mirror([x], [y], q) !in t {
      var m := Mirror([x], [y], q);
      assert |m| >= 2 && m[0] == y;
    }
  }

  lemma OneTitleSucceeds(os: Fates, x: Name, y: Name, film: Name, reel: Name, content: Bytes)
    requires x != y && Reliable(os, 0)
    ensures MoveDir(os, Disk([], OneTitle(x, y, film, reel, content), 0), true, true, [x], [y]).1
  {
    var t := OneTitle(x, y, film, reel, content);
    OneTitleReady(x, y, film, reel, content);
    forall n | [x] + [n] in t ensures Under([x], [x] + [n]) && Fits([x], [y], t, [x] + [n]) {
      OneTitleFits(x, y, film, reel, content, n);
    }
    FittingMassMove(os, [x], [y], Disk([], t, 0));
  }

  /** What the theorems ask for is there: such a library is ready, and on a system without failures its move
      succeeds, after which the title is a link and the file is read through it. */
  lemma OneTitleMoves(os: Fates, x: Name, y: Name, film: Name, reel: Name, content: Bytes)
    requires x != y && Reliable(os, 0)
    ensures
      var d := Disk([], OneTitle(x, y, film, reel, content), 0);
      var (e, ok) := MoveDir(os, d, true, true, [x], [y]);
      && Ready([x], [y], d.now) && ok
      && At(e.now, [x] + [film]) == Some(Symlink([y] + [film])) && Stat(e.now, [x, film, reel]) == Some(File(content))
  {
    var t := OneTitle(x, y, film, reel, content);
    var d := Disk([], t, 0);
    OneTitleReady(x, y, film, reel, content);
    OneTitleSucceeds(os, x, y, film, reel, content);
    MassMoveReadsThrough(os, [x], [y], d);
    EntriesOf(t, [x], film);
    assert [x] + [film] == [x, film] && [x, film, reel][..1] == [x];
  }

  /** The same title, moved on its own. */
  lemma OneTitleMovesAlone(os: Fates, x: Name, y: Name, film: Name, reel: Name, content: Bytes)
    requires x != y && Reliable(os, 0)
    ensures
      var d := Disk([], OneTitle(x, y, film, reel, content), 0);
      var (e, ok) := MoveDir(os, d, true, false, [x, film], [y]);
      && ok && At(e.now, [x, film]) == Some(Symlink([y, film])) && Stat(e.now, [x, film, reel]) == Some(File(content))
  {
    var t := OneTitle(x, y, film, reel, content);
    var d := Disk([], t, 0);
    assert [x] + [film] == [x, film] && [y] + [film] == [y, film];
    OneTitleReady(x, y, film, reel, content);
    OneTitleFits(x, y, film, reel, content, film);
    OneTitleRoom(x, y, film, reel, content);
    TitleMoveSucceedsExactly(os, [x], [y], d, film);
    OneTitleReads(os, x, y, film, reel, content);
  }

  lemma OneTitleRoom(x: Name, y: Name, film: Name, reel: Name, content: Bytes)
    requires x != y
    ensures Clear(OneTitle(x, y, film, reel, content), [y] + [film])
  {
    assert Parent([y] + [film]) == [y];
    assert [y] + [film] == [y, film] && [y, film][0] == y && [x, film][0] == x;
  }

  lemma OneTitleReads(os: Fates, x: Name, y: Name, film: Name, reel: Name, content: Bytes)
    requires x != y
    requires MoveDir(os, Disk([], OneTitle(x, y, film, reel, content), 0), true, false, [x, film], [y]).1
    ensures
      var u := MoveDir(os, Disk([], OneTitle(x, y, film, reel, content), 0), true, false, [x, film], [y]).0.now;
      At(u, [x, film]) == Some(Symlink([y, film])) && Stat(u, [x, film, reel]) == Some(File(content))
  {
    var t := OneTitle(x, y, film, reel, content);
    var d := Disk([], t, 0);
    assert [x] + [film] == [x, film] && [y] + [film] == [y, film];
    OneTitleReady(x, y, film, reel, content);
    MoveTitleSwept(os, [x], [y], d, film);
    var u := MoveDir(os, d, true, false, [x, film], [y]).0.now;
    SweptEntry([x], [y], t, u, {film}, film);
    assert [x, film, reel][..1] == [x] && [x, film, reel][1] == film;
    SweptMirror([x], [y], t, u, {film}, [x, film, reel]);
    LinkedFileReads([x], [y], u, [x, film, reel]);
  }
}
