/** A move looks only at its own source and destination: on two disks that agree there, the same
    schedule of fates gives the same result and the same changes, failures included. On a system that
    never fails a call, the directories on the way to the destination need not agree either. */
module MoveLocal {
  import opened FileSystem
  import opened TreeMover
  import opened MoverSafety

  /** No call fails, and the same entries are always listed in the same order. */
  ghost predicate Steady(os: Fates) {
    os(0).works && forall k :: os(k) == os(0)
  }

  /** At, below or on the way to one of the two roots. */
  predicate Near(a: Path, b: Path, q: Path) {
    Under(a, q) || Under(q, a) || Under(b, q) || Under(q, b)
  }

  predicate MaybeDir(t: Tree, q: Path) {
    q in t ==> t[q].Dir?
  }

  /** The same node; or directories that may be missing on either side, on the way to `a` and, with `loose`
      set, on the way to `b`. */
  ghost predicate AgreeAt(loose: bool, a: Path, b: Path, t: Tree, u: Tree, q: Path) {
    || At(t, q) == At(u, q)
    || (MaybeDir(t, q) && MaybeDir(u, q) && if Under(q, b) then loose && q != b else Under(q, a) && q != a)
  }

  ghost predicate Agree(loose: bool, a: Path, b: Path, t: Tree, u: Tree) {
    forall q :: Near(a, b, q) ==> AgreeAt(loose, a, b, t, u, q)
  }

  ghost predicate Twin(loose: bool, a: Path, b: Path, d: Disk, e: Disk) {
    (loose || d.clock == e.clock) && Ready(a, b, d.now) && Ready(a, b, e.now) && Agree(loose, a, b, d.now, e.now)
  }

  /** What twin disks are after twin operations, readiness aside. */
  ghost predicate Alike(loose: bool, a: Path, b: Path, x: (Disk, bool), y: (Disk, bool)) {
    x.1 == y.1 && (loose || x.0.clock == y.0.clock) && Agree(loose, a, b, x.0.now, y.0.now)
  }

  /** At and below the roots there is no looseness. */
  lemma RootsAgree(loose: bool, a: Path, b: Path, t: Tree, u: Tree, q: Path)
    requires Apart(a, b) && Agree(loose, a, b, t, u) && (Under(a, q) || Under(b, q))
    ensures At(t, q) == At(u, q)
  {
    assert Near(a, b, q) && AgreeAt(loose, a, b, t, u, q);
    if Under(a, q) && Under(q, b) { UnderTransitive(a, q, b); }
    if Under(b, q) && Under(q, a) { UnderTransitive(b, q, a); }
  }

  /** Without looseness, nor is there on the way to the destination. */
  lemma WayAgrees(a: Path, b: Path, t: Tree, u: Tree, q: Path)
    requires Apart(a, b) && Agree(false, a, b, t, u) && (Under(q, b) || Under(b, q))
    ensures At(t, q) == At(u, q)
    ensures q != [] ==> Under(Parent(q), b) || Under(b, Parent(q))
  {
    assert Near(a, b, q) && AgreeAt(false, a, b, t, u, q);
    if Under(b, q) && Under(q, a) { UnderTransitive(b, q, a); }
    if q != [] {
      if Under(q, b) { UnderTransitive(Parent(q), q, b); } else { UnderParent(b, q); }
    }
  }

  lemma NearEntries(loose: bool, a: Path, b: Path, t: Tree, u: Tree, p: Path)
    requires Apart(a, b) && Under(a, p) && Agree(loose, a, b, t, u)
    ensures Entries(t, p) == Entries(u, p)
  {
    forall n ensures n in Entries(t, p) <==> n in Entries(u, p) {
      EntriesOf(t, p, n);
      EntriesOf(u, p, n);
      MirrorChild(a, b, p, n);
      RootsAgree(loose, a, b, t, u, p + [n]);
    }
  }

  /** Whether something can be created strictly below a root depends on what is below the root. */
  lemma AgreeCreatable(loose: bool, a: Path, b: Path, t: Tree, u: Tree, p: Path)
    requires Apart(a, b) && Agree(loose, a, b, t, u) && ((Under(a, p) && p != a) || (Under(b, p) && p != b))
    ensures Creatable(t, p) == Creatable(u, p) && At(t, p) == At(u, p)
  {
    RootsAgree(loose, a, b, t, u, p);
    if Under(a, p) && p != a { UnderParent(a, p); } else { UnderParent(b, p); }
    RootsAgree(loose, a, b, t, u, Parent(p));
  }

  // ----- Copying -----

  /** What copying a plain file to a plain path comes to. */
  lemma CopyPlain(os: Fates, a: Path, b: Path, d: Disk, src: Path)
    requires Ready(a, b, d.now) && Under(a, src) && src in d.now && d.now[src].File?
    ensures
      var m, fate := Mirror(a, b, src), os(d.clock);
      var (e, ok) := Copy(os, d, src, m);
      var open := Creatable(d.now, m) || (m in d.now && d.now[m].File?);
      && e.clock == d.clock + 1 && (ok <==> open && fate.works)
      && e.now ==
           (if ok then d.now[m := d.now[src]] else if open && fate.begun then d.now[m := File(fate.part)] else d.now)
  {
    var m := Mirror(a, b, src);
    PlainSource(a, b, d.now, src);
    ResolvePlain(d.now, src);
    PlainMirror(a, b, d.now, src);
    ResolvePlain(d.now, m);
    CopySafe(os, a, b, d, src);
  }

  /** A single changed node leaves two trees in agreement. */
  lemma AgreeUpdated(loose: bool, a: Path, b: Path, t: Tree, u: Tree, q: Path, node: Node)
    requires Agree(loose, a, b, t, u)
    ensures Agree(loose, a, b, t[q := node], u[q := node]) && Agree(loose, a, b, t - {q}, u - {q})
  {
    forall p | Near(a, b, p)
      ensures AgreeAt(loose, a, b, t[q := node], u[q := node], p) && AgreeAt(loose, a, b, t - {q}, u - {q}, p)
    {
      assert AgreeAt(loose, a, b, t, u, p);
    }
  }

  lemma CopyLocal(loose: bool, os: Fates, a: Path, b: Path, d: Disk, e: Disk, src: Path)
    requires Twin(loose, a, b, d, e) && (loose ==> Steady(os)) && Under(a, src) && src in d.now && d.now[src].File?
    requires loose ==> src != a
    ensures Alike(loose, a, b, Copy(os, d, src, Mirror(a, b, src)), Copy(os, e, src, Mirror(a, b, src)))
  {
    var m, t, u := Mirror(a, b, src), d.now, e.now;
    MirrorFacts(a, b, src);
    RootsAgree(loose, a, b, t, u, src);
    if src != a {
      assert m != b by { MirrorFacts(a, b, src); }
      AgreeCreatable(loose, a, b, t, u, m);
    } else {
      StrictCreatable(a, b, t, u, m);
    }
    CopyPlain(os, a, b, d, src);
    CopyPlain(os, a, b, e, src);
    assert os(d.clock) == os(e.clock);
    AgreeUpdated(loose, a, b, t, u, m, t[src]);
    AgreeUpdated(loose, a, b, t, u, m, File(os(d.clock).part));
  }

  lemma StrictCreatable(a: Path, b: Path, t: Tree, u: Tree, p: Path)
    requires Apart(a, b) && Agree(false, a, b, t, u) && (Under(p, b) || Under(b, p))
    ensures Creatable(t, p) == Creatable(u, p) && At(t, p) == At(u, p)
  {
    WayAgrees(a, b, t, u, p);
    if p != [] {
      WayAgrees(a, b, t, u, Parent(p));
    }
  }

  // ----- Making directories -----

  lemma {:induction false} StrictNotThere(a: Path, b: Path, t: Tree, u: Tree, p: Path)
    requires Apart(a, b) && Agree(false, a, b, t, u) && (Under(p, b) || Under(b, p))
    ensures NotThere(t, p) == NotThere(u, p)
    decreases |p|
  {
    WayAgrees(a, b, t, u, p);
    if p != [] {
      WayAgrees(a, b, t, u, Parent(p));
      StrictNotThere(a, b, t, u, Parent(p));
    }
  }

  /** What `create_dir` on a plain path comes to. */
  lemma MakeDirPlain(os: Fates, d: Disk, p: Path)
    requires Plain(d.now, p)
    ensures
      var (e, made) := MakeDir(os, d, p);
      && e.clock == d.clock + 1
      && made == (if !os(d.clock).works || !NotThere(d.now, p) || p == [] then Refused
                  else if Parent(p) !in d.now then Missing else Made)
      && e.now == if made.Made? then d.now[p := Dir] else d.now
  {
    LocatePlain(d.now, p);
  }

  lemma MakeDirLocal(os: Fates, a: Path, b: Path, d: Disk, e: Disk, p: Path)
    requires Twin(false, a, b, d, e) && (Under(p, b) || Under(b, p)) && Plain(d.now, p) && Plain(e.now, p)
    ensures
      var (d1, x) := MakeDir(os, d, p);
      var (e1, y) := MakeDir(os, e, p);
      x == y && d1.clock == e1.clock && Agree(false, a, b, d1.now, e1.now)
  {
    MakeDirPlain(os, d, p);
    MakeDirPlain(os, e, p);
    StrictNotThere(a, b, d.now, e.now, p);
    if p != [] {
      WayAgrees(a, b, d.now, e.now, p);
      WayAgrees(a, b, d.now, e.now, Parent(p));
    }
    AgreeUpdated(false, a, b, d.now, e.now, p, Dir);
  }

  lemma MakeDirTwin(os: Fates, a: Path, b: Path, d: Disk, e: Disk, p: Path)
    requires Twin(false, a, b, d, e) && (Under(p, b) || Under(b, p)) && Plain(d.now, p) && Plain(e.now, p)
    ensures
      var (d1, x) := MakeDir(os, d, p);
      var (e1, y) := MakeDir(os, e, p);
      && x == y && Twin(false, a, b, d1, e1) && Plain(d1.now, p) && Plain(e1.now, p)
      && Alike(false, a, b, TestDir(os, d1, p), TestDir(os, e1, p))
  {
    var d1, e1 := MakeDir(os, d, p).0, MakeDir(os, e, p).0;
    MakeDirLocal(os, a, b, d, e, p);
    MakeDirSafe(os, a, b, d, p);
    MakeDirSafe(os, a, b, e, p);
    ReadyNow(a, b, d, d1);
    ReadyNow(a, b, e, e1);
    ResolvePlain(d1.now, p);
    ResolvePlain(e1.now, p);
    WayAgrees(a, b, d1.now, e1.now, p);
  }

  lemma {:induction false} MakeDirsStrict(os: Fates, a: Path, b: Path, d: Disk, e: Disk, p: Path)
    requires Twin(false, a, b, d, e) && (Under(p, b) || Under(b, p)) && Plain(d.now, p) && Plain(e.now, p)
    ensures Alike(false, a, b, MakeDirs(os, d, p), MakeDirs(os, e, p))
    decreases |p|
  {
    var (d1, x) := MakeDir(os, d, p);
    var (e1, y) := MakeDir(os, e, p);
    MakeDirTwin(os, a, b, d, e, p);
    if x.Missing? && p != [] {
      assert Under(Parent(p), b) || Under(b, Parent(p)) by {
        if Under(p, b) { UnderTransitive(Parent(p), p, b); } else { UnderParent(b, p); }
      }
      PlainPrefix(d1.now, p, Parent(p));
      PlainPrefix(e1.now, p, Parent(p));
      MakeDirsStrict(os, a, b, d1, e1, Parent(p));
      var (d2, ok) := MakeDirs(os, d1, Parent(p));
      var (e2, ok') := MakeDirs(os, e1, Parent(p));
      if ok {
        ParentsMade(os, a, b, d1, p);
        ParentsMade(os, a, b, e1, p);
        MakeDirTwin(os, a, b, d2, e2, p);
      }
    }
  }

  /** After the parents have been made, the path itself is still plain. */
  lemma ParentsMade(os: Fates, a: Path, b: Path, d: Disk, p: Path)
    requires Ready(a, b, d.now) && p != [] && Plain(d.now, p)
    requires Under(Parent(p), b) || Under(b, Parent(p))
    ensures var d1 := MakeDirs(os, d, Parent(p)).0; Ready(a, b, d1.now) && Plain(d1.now, p)
  {
    PlainPrefix(d.now, p, Parent(p));
    MakeDirsSafe(os, a, b, d, Parent(p));
    ReadyNow(a, b, d, MakeDirs(os, d, Parent(p)).0);
    GrownParent(p, d.now, MakeDirs(os, d, Parent(p)).0.now);
  }

  lemma {:induction false} LooseClear(a: Path, b: Path, t: Tree, u: Tree, p: Path)
    requires WellFormed(t) && WellFormed(u) && Agree(true, a, b, t, u) && (Under(p, b) || Under(b, p))
    ensures Clear(t, p) ==> Clear(u, p)
    decreases |p|
  {
    assert Near(a, b, p) && AgreeAt(true, a, b, t, u, p);
    if p != [] {
      assert Under(Parent(p), b) || Under(b, Parent(p)) by {
        if Under(p, b) { UnderTransitive(Parent(p), p, b); } else { UnderParent(b, p); }
      }
      LooseClear(a, b, t, u, Parent(p));
    }
  }

  lemma LoosePaved(a: Path, b: Path, t: Tree, u: Tree, p: Path)
    requires WellFormed(t) && WellFormed(u) && Agree(true, a, b, t, u)
    ensures Agree(true, a, b, Paved(t, p), Paved(u, p))
  {
    forall q | Near(a, b, q) ensures AgreeAt(true, a, b, Paved(t, p), Paved(u, p), q) {
      assert AgreeAt(true, a, b, t, u, q);
      PavedAt(t, p, q);
      PavedAt(u, p, q);
    }
  }

  lemma MakeDirsLocal(loose: bool, os: Fates, a: Path, b: Path, d: Disk, e: Disk, p: Path)
    requires Twin(loose, a, b, d, e) && (loose ==> Steady(os))
    requires (Under(p, b) || Under(b, p)) && Plain(d.now, p) && Plain(e.now, p)
    ensures Alike(loose, a, b, MakeDirs(os, d, p), MakeDirs(os, e, p))
  {
    if loose {
      forall k: nat ensures os(k).works { assert os(k) == os(0); }
      MakeDirsWorks(os, d, p);
      MakeDirsWorks(os, e, p);
      LooseClear(a, b, d.now, e.now, p);
      LooseClear(a, b, e.now, d.now, p);
      LoosePaved(a, b, d.now, e.now, p);
    } else {
      MakeDirsStrict(os, a, b, d, e, p);
    }
  }

  // ----- Removing and linking -----

  /** An entry of a plain directory is found in the same place on both disks. */
  lemma AgreeLookup(loose: bool, a: Path, b: Path, t: Tree, u: Tree, entry: Path)
    requires Ready(a, b, t) && Ready(a, b, u) && Agree(loose, a, b, t, u)
    requires Under(a, entry) && entry != a && At(t, Parent(entry)) == Some(Dir)
    ensures Locate(t, entry) == Some(entry) == Locate(u, entry)
    ensures At(t, entry) == At(u, entry)
  {
    UnderParent(a, entry);
    RootsAgree(loose, a, b, t, u, entry);
    RootsAgree(loose, a, b, t, u, Parent(entry));
    PlainSource(a, b, t, Parent(entry));
    PlainSource(a, b, u, Parent(entry));
    LocatePlain(t, entry);
    LocatePlain(u, entry);
  }

  /** What removing an entry that is looked up where it stands comes to. */
  lemma RemoveEntryPlain(os: Fates, d: Disk, entry: Path)
    requires WellFormed(d.now) && Locate(d.now, entry) == Some(entry) && entry != []
    requires At(d.now, Parent(entry)) == Some(Dir)
    ensures
      var (e, ok) := RemoveEntry(os, d, entry);
      var seen := os(d.clock).works && entry in d.now;
      && e.clock == d.clock + (if seen then 2 else 1)
      && (ok <==> seen && os(d.clock + 1).works && (d.now[entry].Dir? ==> Entries(d.now, entry) == {}))
      && e.now == if ok then d.now - {entry} else d.now
  {
  }

  lemma RemoveEntryLocal(loose: bool, os: Fates, a: Path, b: Path, d: Disk, e: Disk, entry: Path)
    requires Twin(loose, a, b, d, e) && (loose ==> Steady(os))
    requires Under(a, entry) && entry != a && At(d.now, Parent(entry)) == Some(Dir)
    ensures Alike(loose, a, b, RemoveEntry(os, d, entry), RemoveEntry(os, e, entry))
  {
    UnderParent(a, entry);
    RootsAgree(loose, a, b, d.now, e.now, Parent(entry));
    AgreeLookup(loose, a, b, d.now, e.now, entry);
    NearEntries(loose, a, b, d.now, e.now, entry);
    RemoveEntryPlain(os, d, entry);
    RemoveEntryPlain(os, e, entry);
    assert os(d.clock) == os(e.clock) && os(d.clock + 1) == os(e.clock + 1);
    AgreeUpdated(loose, a, b, d.now, e.now, entry, Dir);
  }

  lemma MakeLinkLocal(loose: bool, os: Fates, a: Path, b: Path, d: Disk, e: Disk, target: Path, link: Path)
    requires Twin(loose, a, b, d, e) && (loose ==> Steady(os))
    requires Under(a, link) && link != a && At(d.now, Parent(link)) == Some(Dir)
    ensures Alike(loose, a, b, MakeLink(os, d, target, link), MakeLink(os, e, target, link))
  {
    AgreeLookup(loose, a, b, d.now, e.now, link);
    AgreeCreatable(loose, a, b, d.now, e.now, link);
    assert os(d.clock) == os(e.clock);
    AgreeUpdated(loose, a, b, d.now, e.now, link, Symlink(target));
  }

  lemma FinishEntryLocal(loose: bool, os: Fates, a: Path, b: Path, d: Disk, e: Disk, link: bool, src: Path, name: Name)
    requires Twin(loose, a, b, d, e) && (loose ==> Steady(os))
    requires Under(a, src) && At(d.now, src) == Some(Dir) && At(e.now, src) == Some(Dir)
    requires src + [name] in d.now && (d.now[src + [name]].File? || d.now[src + [name]].Dir?)
    requires Under(a, src + [name])
    requires d.now[src + [name]].File? ==> At(d.now, Mirror(a, b, src + [name])) == Some(d.now[src + [name]])
    ensures
      var entry, copy := src + [name], Mirror(a, b, src) + [name];
      Alike(loose, a, b, FinishEntry(os, d, link, entry, copy), FinishEntry(os, e, link, entry, copy))
  {
    var entry, copy := src + [name], Mirror(a, b, src) + [name];
    MirrorChild(a, b, src, name);
    RootsAgree(loose, a, b, d.now, e.now, entry);
    assert Under(b, Mirror(a, b, entry)) by { MirrorFacts(a, b, entry); }
    RootsAgree(loose, a, b, d.now, e.now, Mirror(a, b, entry));
    RemoveEntryLocal(loose, os, a, b, d, e, entry);
    var (d1, ok) := RemoveEntry(os, d, entry);
    var (e1, ok') := RemoveEntry(os, e, entry);
    RemovedReady(os, a, b, d, entry);
    RemovedReady(os, a, b, e, entry);
    if ok {
      MakeLinkLocal(loose, os, a, b, d1, e1, copy, entry);
    }
  }

  lemma RemovedReady(os: Fates, a: Path, b: Path, d: Disk, entry: Path)
    requires Ready(a, b, d.now) && Under(a, entry) && entry != a && At(d.now, Parent(entry)) == Some(Dir)
    requires entry in d.now && !d.now[entry].Symlink? && !d.now[entry].Socket?
    requires d.now[entry].File? ==> At(d.now, Mirror(a, b, entry)) == Some(d.now[entry])
    ensures var e := RemoveEntry(os, d, entry).0; Ready(a, b, e.now) && At(e.now, Parent(entry)) == Some(Dir)
  {
    RemoveEntrySafe(os, a, b, d, entry);
    ReadyNow(a, b, d, RemoveEntry(os, d, entry).0);
  }

  /** What removing a plain directory at the end of a targeted move comes to. */
  lemma RemoveRootPlain(os: Fates, d: Disk, src: Path)
    requires Plain(d.now, src) && src != [] && At(d.now, src) == Some(Dir)
    ensures
      var (e, ok) := RemoveRoot(os, d, src);
      && e.clock == d.clock + 2
      && (ok <==> os(d.clock).works && os(d.clock + 1).works && Entries(d.now, src) == {})
      && e.now == if ok then d.now - {src} else d.now
  {
    ResolvePlain(d.now, src);
  }

  lemma ReplaceRootLocal(loose: bool, os: Fates, a: Path, b: Path, d: Disk, e: Disk, src: Path)
    requires Twin(loose, a, b, d, e) && (loose ==> Steady(os))
    requires Under(a, src) && src != a && At(d.now, src) == Some(Dir)
    ensures
      Alike(loose, a, b, ReplaceRoot(os, d, src, Mirror(a, b, src)), ReplaceRoot(os, e, src, Mirror(a, b, src)))
  {
    RootsAgree(loose, a, b, d.now, e.now, src);
    PlainSource(a, b, d.now, src);
    PlainSource(a, b, e.now, src);
    NearEntries(loose, a, b, d.now, e.now, src);
    RemoveRootPlain(os, d, src);
    RemoveRootPlain(os, e, src);
    assert os(d.clock) == os(e.clock) && os(d.clock + 1) == os(e.clock + 1);
    AgreeUpdated(loose, a, b, d.now, e.now, src, Dir);
    var (d1, ok) := RemoveRoot(os, d, src);
    var (e1, ok') := RemoveRoot(os, e, src);
    RootRemovedReady(os, a, b, d, src);
    RootRemovedReady(os, a, b, e, src);
    if ok {
      MakeLinkLocal(loose, os, a, b, d1, e1, Mirror(a, b, src), src);
    }
  }

  lemma RootRemovedReady(os: Fates, a: Path, b: Path, d: Disk, src: Path)
    requires Ready(a, b, d.now) && Under(a, src) && src != a && At(d.now, src) == Some(Dir)
    ensures
      var (e, ok) := RemoveRoot(os, d, src);
      Ready(a, b, e.now) && (ok ==> At(e.now, Parent(src)) == Some(Dir))
  {
    RemoveRootSafe(os, a, b, d, src);
    ReadyNow(a, b, d, RemoveRoot(os, d, src).0);
  }

  // ----- The whole call -----

  /** A loosely twinned call may copy anything but the root itself, which goes beside the destination. */
  ghost predicate Comparable(loose: bool, os: Fates, a: Path, d: Disk, src: Path) {
    loose ==> Steady(os) && (src == a ==> !(src in d.now && d.now[src].File?))
  }

  lemma {:induction false} MoveDirLocal(
    loose: bool, os: Fates, a: Path, b: Path, d: Disk, e: Disk, isRoot: bool, isMass: bool, src: Path, dst: Path)
    requires Twin(loose, a, b, d, e) && Placed(a, b, isRoot, isMass, src, dst, d.now)
    requires Comparable(loose, os, a, d, src)
    ensures Alike(loose, a, b, MoveDir(os, d, isRoot, isMass, src, dst), MoveDir(os, e, isRoot, isMass, src, dst))
    decreases Depth(src), 1
  {
    if src != [] {
      PlacedTarget(a, b, isRoot, isMass, src, dst, d.now);
      PlacedTwin(loose, a, b, d, e, isRoot, isMass, src, dst);
      var target := Destination(isRoot, isMass, src, dst);
      var (d1, isFile) := TestFile(os, d, src);
      var (e1, isFile') := TestFile(os, e, src);
      assert os(d.clock) == os(e.clock) && isFile == isFile';
      if isFile {
        CopyLocal(loose, os, a, b, d1, e1, src);
      } else {
        MoveTreeLocal(loose, os, a, b, d1, e1, isRoot, isMass, src);
      }
    }
  }

  lemma {:induction false} MoveTreeLocal(
    loose: bool, os: Fates, a: Path, b: Path, d: Disk, e: Disk, isRoot: bool, isMass: bool, src: Path)
    requires Twin(loose, a, b, d, e) && SourceAt(a, isRoot, isMass, src, d.now)
    requires SourceAt(a, isRoot, isMass, src, e.now)
    requires (loose ==> Steady(os)) && Under(a, src)
    ensures
      var target := Mirror(a, b, src);
      Alike(loose, a, b, MoveTree(os, d, isRoot, isMass, src, target), MoveTree(os, e, isRoot, isMass, src, target))
    decreases Depth(src), 0
  {
    var target := Mirror(a, b, src);
    var (d2, made) := if AppendsName(isRoot, isMass) then MakeDirs(os, d, target) else (d, true);
    var (e2, made') := if AppendsName(isRoot, isMass) then MakeDirs(os, e, target) else (e, true);
    if AppendsName(isRoot, isMass) {
      TargetTwin(loose, os, a, b, d, e, src);
    }
    assert Twin(loose, a, b, d2, e2) && made == made';
    if made {
      ListTwin(loose, os, a, b, d2, e2, src);
      var (d3, names) := ReadDir(os, d2, src);
      var (e3, names') := ReadDir(os, e2, src);
      if names.Some? {
        MoveRestLocal(loose, os, a, b, d3, e3, isRoot, isMass, src, names.value);
      }
    }
  }

  lemma {:induction false} MoveRestLocal(
    loose: bool, os: Fates, a: Path, b: Path, d: Disk, e: Disk, isRoot: bool, isMass: bool, src: Path, names: seq<Name>)
    requires Twin(loose, a, b, d, e) && (loose ==> Steady(os)) && Under(a, src) && |src| <= PATH_LIMIT
    requires At(d.now, src) == Some(Dir) && At(e.now, src) == Some(Dir) && (isRoot ==> src == a || !isMass)
    requires isRoot && !isMass ==> src != a
    ensures
      var target := Mirror(a, b, src);
      Alike(loose, a, b, MoveRest(os, d, isRoot, isMass, src, target, names),
        MoveRest(os, e, isRoot, isMass, src, target, names))
    decreases Depth(src) - 1, |names| + 4
  {
    var target := Mirror(a, b, src);
    MoveEntriesLocal(loose, os, a, b, d, e, isRoot, isMass, src, names);
    var (d4, ok) := MoveEntries(os, d, isRoot, isMass, src, target, names);
    var (e4, ok') := MoveEntries(os, e, isRoot, isMass, src, target, names);
    if ok && isRoot && !isMass {
      MoveEntriesSafe(os, a, b, d, isRoot, isMass, src, names);
      MoveEntriesSafe(os, a, b, e, isRoot, isMass, src, names);
      ReadyNow(a, b, d, d4);
      ReadyNow(a, b, e, e4);
      ReplaceRootLocal(loose, os, a, b, d4, e4, src);
    }
  }

  lemma PlacedTwin(loose: bool, a: Path, b: Path, d: Disk, e: Disk, isRoot: bool, isMass: bool, src: Path, dst: Path)
    requires Twin(loose, a, b, d, e) && Placed(a, b, isRoot, isMass, src, dst, d.now) && Under(a, src)
    ensures Placed(a, b, isRoot, isMass, src, dst, e.now)
    ensures Plain(d.now, src) && Plain(e.now, src)
    ensures Stat(d.now, src) == At(d.now, src) == At(e.now, src) == Stat(e.now, src)
  {
    RootsAgree(loose, a, b, d.now, e.now, src);
    PlainSource(a, b, d.now, src);
    PlainSource(a, b, e.now, src);
    ResolvePlain(d.now, src);
    ResolvePlain(e.now, src);
  }

  lemma TargetTwin(loose: bool, os: Fates, a: Path, b: Path, d: Disk, e: Disk, src: Path)
    requires Twin(loose, a, b, d, e) && (loose ==> Steady(os)) && Under(a, src) && src in d.now && src in e.now
    requires !d.now[src].Symlink? && !e.now[src].Symlink?
    ensures
      var (d1, ok) := MakeDirs(os, d, Mirror(a, b, src));
      var (e1, ok') := MakeDirs(os, e, Mirror(a, b, src));
      && ok == ok' && Twin(loose, a, b, d1, e1)
      && At(d1.now, src) == At(d.now, src)
  {
    var m := Mirror(a, b, src);
    MirrorFacts(a, b, src);
    PlainMirror(a, b, d.now, src);
    PlainMirror(a, b, e.now, src);
    MakeDirsLocal(loose, os, a, b, d, e, m);
    MakeDirsSafe(os, a, b, d, m);
    MakeDirsSafe(os, a, b, e, m);
    MadeOutsideSource(a, b, m, d.now, MakeDirs(os, d, m).0.now);
    ReadyNow(a, b, d, MakeDirs(os, d, m).0);
    ReadyNow(a, b, e, MakeDirs(os, e, m).0);
  }

  lemma ListTwin(loose: bool, os: Fates, a: Path, b: Path, d: Disk, e: Disk, src: Path)
    requires Twin(loose, a, b, d, e) && (loose ==> Steady(os)) && Under(a, src)
    requires src == a || (src in d.now && !d.now[src].Symlink?)
    ensures ReadDir(os, d, src).1 == ReadDir(os, e, src).1
    ensures ReadDir(os, d, src).1.Some? ==> At(d.now, src) == Some(Dir) == At(e.now, src)
  {
    RootsAgree(loose, a, b, d.now, e.now, src);
    PlainSource(a, b, d.now, src);
    PlainSource(a, b, e.now, src);
    ResolvePlain(d.now, src);
    ResolvePlain(e.now, src);
    NearEntries(loose, a, b, d.now, e.now, src);
    assert os(d.clock) == os(e.clock);
  }

  lemma {:induction false} MoveEntriesLocal(
    loose: bool, os: Fates, a: Path, b: Path, d: Disk, e: Disk, isRoot: bool, isMass: bool, src: Path, names: seq<Name>)
    requires Twin(loose, a, b, d, e) && (loose ==> Steady(os)) && Under(a, src) && |src| <= PATH_LIMIT
    requires At(d.now, src) == Some(Dir) && At(e.now, src) == Some(Dir) && (isRoot ==> src == a || !isMass)
    ensures
      var dst := Mirror(a, b, src);
      Alike(loose, a, b, MoveEntries(os, d, isRoot, isMass, src, dst, names),
        MoveEntries(os, e, isRoot, isMass, src, dst, names))
    decreases Depth(src) - 1, |names| + 3
  {
    var dst := Mirror(a, b, src);
    assert os(d.clock) == os(e.clock);
    if os(d.clock).works && names != [] {
      FirstEntryLocal(loose, os, a, b, d.Tick(), e.Tick(), isRoot, isMass, src, names[0]);
      var (d2, ok) := MoveEntry(os, d.Tick(), isRoot, isMass, src, dst, names[0]);
      var (e2, ok') := MoveEntry(os, e.Tick(), isRoot, isMass, src, dst, names[0]);
      EntriesUnfold(os, d, isRoot, isMass, src, dst, names);
      EntriesUnfold(os, e, isRoot, isMass, src, dst, names);
      if ok {
        MoveEntriesLocal(loose, os, a, b, d2, e2, isRoot, isMass, src, names[1..]);
      }
    } else {
      assert MoveEntries(os, d, isRoot, isMass, src, dst, names) == (d.Tick(), os(d.clock).works);
      assert MoveEntries(os, e, isRoot, isMass, src, dst, names) == (e.Tick(), os(e.clock).works);
    }
  }

  lemma EntriesUnfold(os: Fates, d: Disk, isRoot: bool, isMass: bool, src: Path, dst: Path, names: seq<Name>)
    requires |src| <= PATH_LIMIT && names != [] && os(d.clock).works
    ensures
      var (d2, ok) := MoveEntry(os, d.Tick(), isRoot, isMass, src, dst, names[0]);
      MoveEntries(os, d, isRoot, isMass, src, dst, names)
        == if ok then MoveEntries(os, d2, isRoot, isMass, src, dst, names[1..]) else (d2, false)
  {
  }

  lemma {:induction false} FirstEntryLocal(
    loose: bool, os: Fates, a: Path, b: Path, d: Disk, e: Disk, isRoot: bool, isMass: bool, src: Path, name: Name)
    requires Twin(loose, a, b, d, e) && (loose ==> Steady(os)) && Under(a, src) && |src| <= PATH_LIMIT
    requires At(d.now, src) == Some(Dir) && At(e.now, src) == Some(Dir) && (isRoot ==> src == a || !isMass)
    ensures
      var (d1, ok) := MoveEntry(os, d, isRoot, isMass, src, Mirror(a, b, src), name);
      var (e1, ok') := MoveEntry(os, e, isRoot, isMass, src, Mirror(a, b, src), name);
      && ok == ok' && Twin(loose, a, b, d1, e1) && At(d1.now, src) == Some(Dir) && At(e1.now, src) == Some(Dir)
    decreases Depth(src) - 1, 3
  {
    MoveEntryLocal(loose, os, a, b, d, e, isRoot, isMass, src, name);
    EntryTwin(os, a, b, d, isRoot, isMass, src, name);
    EntryTwin(os, a, b, e, isRoot, isMass, src, name);
  }

  lemma EntryTwin(os: Fates, a: Path, b: Path, d: Disk, isRoot: bool, isMass: bool, src: Path, name: Name)
    requires Ready(a, b, d.now) && Under(a, src) && |src| <= PATH_LIMIT
    requires At(d.now, src) == Some(Dir) && (isRoot ==> src == a || !isMass)
    ensures
      var e := MoveEntry(os, d, isRoot, isMass, src, Mirror(a, b, src), name).0;
      Ready(a, b, e.now) && At(e.now, src) == Some(Dir)
  {
    var e := MoveEntry(os, d, isRoot, isMass, src, Mirror(a, b, src), name).0;
    MoveEntrySafe(os, a, b, d, isRoot, isMass, src, name);
    ReadyNow(a, b, d, e);
    EntryFrame(a, src, name, d.now, e.now);
  }

  lemma {:induction false} MoveEntryLocal(
    loose: bool, os: Fates, a: Path, b: Path, d: Disk, e: Disk, isRoot: bool, isMass: bool, src: Path, name: Name)
    requires Twin(loose, a, b, d, e) && (loose ==> Steady(os)) && Under(a, src) && |src| <= PATH_LIMIT
    requires At(d.now, src) == Some(Dir) && At(e.now, src) == Some(Dir) && (isRoot ==> src == a || !isMass)
    ensures
      var dst := Mirror(a, b, src);
      Alike(loose, a, b, MoveEntry(os, d, isRoot, isMass, src, dst, name),
        MoveEntry(os, e, isRoot, isMass, src, dst, name))
    decreases Depth(src) - 1, 2
  {
    var entry := src + [name];
    var dst := Mirror(a, b, src);
    MirrorChild(a, b, src, name);
    AgreeLookup(loose, a, b, d.now, e.now, entry);
    StrictlyAbsent(d.now, src, name);
    StrictlyAbsent(e.now, src, name);
    assert os(d.clock) == os(e.clock);
    var (d1, meta) := Metadata(os, d, entry);
    var (e1, meta') := Metadata(os, e, entry);
    if meta.Found? && !meta.node.Symlink? {
      MoveDirLocal(loose, os, a, b, d1, e1, false, isMass, entry, dst);
      var (d2, moved) := MoveDir(os, d1, false, isMass, entry, dst);
      var (e2, moved') := MoveDir(os, e1, false, isMass, entry, dst);
      if moved {
        NestedTwin(os, a, b, d1, isMass, src, name);
        NestedTwin(os, a, b, e1, isMass, src, name);
        FinishEntryLocal(loose, os, a, b, d2, e2, isRoot && isMass, src, name);
      }
    }
  }

  /** What is missing in a directory is just not there. */
  lemma StrictlyAbsent(t: Tree, src: Path, name: Name)
    requires At(t, src) == Some(Dir)
    ensures NotThere(t, src + [name]) <==> src + [name] !in t
  {
    assert Parent(src + [name]) == src;
  }

  lemma NestedTwin(os: Fates, a: Path, b: Path, d: Disk, isMass: bool, src: Path, name: Name)
    requires Ready(a, b, d.now) && Under(a, src) && At(d.now, src) == Some(Dir)
    requires src + [name] in d.now && !d.now[src + [name]].Symlink? && Under(a, src + [name])
    requires MoveDir(os, d, false, isMass, src + [name], Mirror(a, b, src)).1
    ensures
      var entry := src + [name];
      var e := MoveDir(os, d, false, isMass, entry, Mirror(a, b, src)).0;
      && Ready(a, b, e.now) && At(e.now, src) == Some(Dir) && At(e.now, entry) == At(d.now, entry)
      && (d.now[entry].File? || d.now[entry].Dir?)
      && (d.now[entry].File? ==> At(e.now, Mirror(a, b, entry)) == At(d.now, entry))
  {
    MirrorChild(a, b, src, name);
    var e := MoveDir(os, d, false, isMass, src + [name], Mirror(a, b, src)).0;
    MoveDirSafe(os, a, b, d, false, isMass, src + [name], Mirror(a, b, src));
    ReadyNow(a, b, d, e);
    assert !Under(src + [name], src);
  }
}
