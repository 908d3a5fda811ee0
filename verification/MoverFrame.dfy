/** What a call leaves alone on the destination's side, what of the source's side it leaves alone in every state,
    and how far a mass move has got when it fails. */
module MoverFrame {
  import opened FileSystem
  import opened TreeMover
  import opened MoverSafety
  import opened MoverExact

  // ----- The destination's side -----

  /** Outside the source root and `m` nothing has changed but for directories made on the way to `m`. */
  ghost predicate OutFrame(a: Path, m: Path, t: Tree, u: Tree) {
    forall q :: !Under(a, q) && !Under(m, q) ==> GrewTo(m, t, u, q)
  }

  ghost predicate GrewTo(m: Path, t: Tree, u: Tree, q: Path) {
    At(u, q) == At(t, q) || (At(t, q) == None && At(u, q) == Some(Dir) && Under(q, m))
  }

  lemma OutSame(a: Path, m: Path, t: Tree)
    ensures OutFrame(a, m, t, t)
  {
  }

  lemma OutThen(a: Path, m: Path, t: Tree, u: Tree, v: Tree)
    requires OutFrame(a, m, t, u) && OutFrame(a, m, u, v)
    ensures OutFrame(a, m, t, v)
  {
    forall q | !Under(a, q) && !Under(m, q) ensures GrewTo(m, t, v, q) {
      assert GrewTo(m, t, u, q) && GrewTo(m, u, v, q);
    }
  }

  /** What stays within the mirror of an entry stays within the mirror of its directory. */
  lemma OutOfEntry(a: Path, m: Path, n: Name, t: Tree, u: Tree)
    requires OutFrame(a, m + [n], t, u)
    ensures OutFrame(a, m, t, u)
  {
    forall q | !Under(a, q) && !Under(m, q) ensures GrewTo(m, t, u, q) {
      assert Parent(m + [n]) == m;
      PrefixOfChild(m, m + [n], q);
      if Under(m + [n], q) {
        assert Under(m, m + [n]);
        UnderTransitive(m, m + [n], q);
      }
      assert GrewTo(m + [n], t, u, q);
    }
  }

  lemma OutAtSource(a: Path, m: Path, t: Tree, u: Tree)
    requires forall q :: !Under(a, q) ==> At(u, q) == At(t, q)
    ensures OutFrame(a, m, t, u)
  {
  }

  lemma {:induction false} MoveDirFrame(
    os: Fates, a: Path, b: Path, x: Path, y: Path, d: Disk, isRoot: bool, isMass: bool, src: Path)
    requires NamedReady(a, b, x, y, d.now) && SourceAt(a, isRoot, isMass, src, d.now) && Under(a, src)
    ensures
      var e := MoveDir(os, d, isRoot, isMass, Mirror(a, x, src), Onto(a, y, isRoot, isMass, src)).0;
      OutFrame(a, Mirror(a, b, src), d.now, e.now)
    decreases Depth(Mirror(a, x, src)), 1
  {
    var text, target := Mirror(a, x, src), Mirror(a, y, src);
    if text != [] {
      NamedTarget(a, x, y, isRoot, isMass, src, d.now);
      SourceNamed(a, b, x, y, d.now, src);
      var (d1, isFile) := TestFile(os, d, text);
      if isFile {
        CopyNamed(os, a, b, x, y, d1, src);
        CopySafe(os, a, b, d1, src);
        assert Under(Mirror(a, b, src), Mirror(a, b, src));
      } else {
        MoveTreeFrame(os, a, b, x, y, d1, isRoot, isMass, src);
      }
    }
  }

  lemma {:induction false} MoveTreeFrame(
    os: Fates, a: Path, b: Path, x: Path, y: Path, d: Disk, isRoot: bool, isMass: bool, src: Path)
    requires NamedReady(a, b, x, y, d.now) && SourceAt(a, isRoot, isMass, src, d.now) && Under(a, src)
    ensures
      var e := MoveTree(os, d, isRoot, isMass, Mirror(a, x, src), Mirror(a, y, src)).0;
      OutFrame(a, Mirror(a, b, src), d.now, e.now)
    decreases Depth(Mirror(a, x, src)), 0
  {
    var text, target := Mirror(a, x, src), Mirror(a, y, src);
    assert Under(src, src);
    var (d2, made) := if AppendsName(isRoot, isMass) then MakeDirs(os, d, target) else (d, true);
    if AppendsName(isRoot, isMass) {
      TargetNamed(os, a, b, x, y, d, src);
    } else {
      ReachesSame(a, b, d, d2);
    }
    assert OutFrame(a, Mirror(a, b, src), d.now, d2.now);
    NamedNow(a, b, x, y, d, d2);
    SourceNamed(a, b, x, y, d2.now, src);
    var (d3, names) := ReadDir(os, d2, text);
    if made && names.Some? {
      MoveRestFrame(os, a, b, x, y, d3, isRoot, isMass, src, names.value);
      var e := MoveRest(os, d3, isRoot, isMass, text, target, names.value).0;
      OutThen(a, Mirror(a, b, src), d.now, d3.now, e.now);
    }
  }

  lemma {:induction false} MoveRestFrame(
    os: Fates, a: Path, b: Path, x: Path, y: Path, d: Disk, isRoot: bool, isMass: bool, src: Path, names: seq<Name>)
    requires NamedReady(a, b, x, y, d.now) && SourceAt(a, isRoot, isMass, src, d.now) && Under(a, src)
    requires |Mirror(a, x, src)| <= PATH_LIMIT && At(d.now, src) == Some(Dir)
    ensures
      var e := MoveRest(os, d, isRoot, isMass, Mirror(a, x, src), Mirror(a, y, src), names).0;
      OutFrame(a, Mirror(a, b, src), d.now, e.now)
    decreases Depth(Mirror(a, x, src)) - 1, |names| + 4
  {
    var text, target := Mirror(a, x, src), Mirror(a, y, src);
    var (d4, ok) := MoveEntries(os, d, isRoot, isMass, text, target, names);
    MoveEntriesFrame(os, a, b, x, y, d, isRoot, isMass, src, names);
    if ok && isRoot && !isMass {
      MoveEntriesNamed(os, a, b, x, y, d, isRoot, isMass, src, names);
      NamedNow(a, b, x, y, d, d4);
      ReplaceRootNamed(os, a, b, x, y, d4, src, target);
      ReplaceRootSafe(os, a, b, d4, src, target);
      var e := ReplaceRoot(os, d4, text, target).0;
      OutAtSource(a, Mirror(a, b, src), d4.now, e.now);
      OutThen(a, Mirror(a, b, src), d.now, d4.now, e.now);
    }
  }

  lemma {:induction false} MoveEntriesFrame(
    os: Fates, a: Path, b: Path, x: Path, y: Path, d: Disk, isRoot: bool, isMass: bool, src: Path, names: seq<Name>)
    requires NamedReady(a, b, x, y, d.now) && Under(a, src) && |Mirror(a, x, src)| <= PATH_LIMIT
    requires At(d.now, src) == Some(Dir) && (isRoot ==> src == a || !isMass)
    ensures
      var e := MoveEntries(os, d, isRoot, isMass, Mirror(a, x, src), Mirror(a, y, src), names).0;
      OutFrame(a, Mirror(a, b, src), d.now, e.now)
    decreases Depth(Mirror(a, x, src)) - 1, |names| + 3
  {
    var text, target := Mirror(a, x, src), Mirror(a, y, src);
    var (d1, next) := Attempt(os, d);
    if next && names != [] {
      var (d2, ok) := MoveEntry(os, d1, isRoot, isMass, text, target, names[0]);
      MoveEntryFrame(os, a, b, x, y, d1, isRoot, isMass, src, names[0]);
      OutOfEntry(a, Mirror(a, b, src), names[0], d.now, d2.now);
      if ok {
        AfterNamedEntry(os, a, b, x, y, d1, isRoot, isMass, src, names[0]);
        MoveEntriesFrame(os, a, b, x, y, d2, isRoot, isMass, src, names[1..]);
        var e := MoveEntries(os, d2, isRoot, isMass, text, target, names[1..]).0;
        OutThen(a, Mirror(a, b, src), d.now, d2.now, e.now);
      }
    }
  }

  lemma AfterNamedEntry(
    os: Fates, a: Path, b: Path, x: Path, y: Path, d: Disk, isRoot: bool, isMass: bool, src: Path, name: Name)
    requires NamedReady(a, b, x, y, d.now) && Under(a, src) && |Mirror(a, x, src)| <= PATH_LIMIT
    requires At(d.now, src) == Some(Dir) && (isRoot ==> src == a || !isMass)
    ensures
      var e := MoveEntry(os, d, isRoot, isMass, Mirror(a, x, src), Mirror(a, y, src), name).0;
      NamedReady(a, b, x, y, e.now) && At(e.now, src) == Some(Dir)
  {
    var e := MoveEntry(os, d, isRoot, isMass, Mirror(a, x, src), Mirror(a, y, src), name).0;
    MoveEntryNamed(os, a, b, x, y, d, isRoot, isMass, src, name);
    NamedNow(a, b, x, y, d, e);
    EntryFrame(a, src, name, d.now, e.now);
  }

  lemma {:induction false} MoveEntryFrame(
    os: Fates, a: Path, b: Path, x: Path, y: Path, d: Disk, isRoot: bool, isMass: bool, src: Path, name: Name)
    requires NamedReady(a, b, x, y, d.now) && Under(a, src) && |Mirror(a, x, src)| <= PATH_LIMIT
    requires At(d.now, src) == Some(Dir) && (isRoot ==> src == a || !isMass)
    ensures
      var e := MoveEntry(os, d, isRoot, isMass, Mirror(a, x, src), Mirror(a, y, src), name).0;
      OutFrame(a, Mirror(a, b, src) + [name], d.now, e.now)
    decreases Depth(Mirror(a, x, src)) - 1, 2
  {
    var entry, text, target := src + [name], Mirror(a, x, src) + [name], Mirror(a, y, src);
    MirrorChild(a, x, src, name);
    MirrorChild(a, b, src, name);
    EntryNamed(a, b, x, y, d.now, src, name);
    var (d1, meta) := Metadata(os, d, text);
    if meta.Found? && !meta.node.Symlink? {
      var (d2, moved) := MoveDir(os, d1, false, isMass, text, target);
      MoveDirFrame(os, a, b, x, y, d1, false, isMass, entry);
      if moved {
        var e := FinishEntry(os, d2, isRoot && isMass, text, target + [name]).0;
        FinishedAtSource(os, a, b, x, y, d1, isRoot && isMass, isMass, src, name);
        OutAtSource(a, Mirror(a, b, src) + [name], d2.now, e.now);
        OutThen(a, Mirror(a, b, src) + [name], d.now, d2.now, e.now);
      }
    }
  }

  /** Deleting and linking happen on the source's side. */
  lemma FinishedAtSource(
    os: Fates, a: Path, b: Path, x: Path, y: Path, d: Disk, link: bool, isMass: bool, src: Path, name: Name)
    requires NamedReady(a, b, x, y, d.now) && Under(a, src) && At(d.now, src) == Some(Dir)
    requires src + [name] in d.now && !d.now[src + [name]].Symlink?
    requires MoveDir(os, d, false, isMass, Mirror(a, x, src) + [name], Mirror(a, y, src)).1
    ensures
      var d2 := MoveDir(os, d, false, isMass, Mirror(a, x, src) + [name], Mirror(a, y, src)).0;
      var e := FinishEntry(os, d2, link, Mirror(a, x, src) + [name], Mirror(a, y, src) + [name]).0;
      forall q :: !Under(a, q) ==> At(e.now, q) == At(d2.now, q)
  {
    var entry, copy := src + [name], Mirror(a, y, src) + [name];
    MirrorChild(a, x, src, name);
    MirrorChild(a, b, src, name);
    assert Under(entry, entry) && !Under(entry, src);
    var d2 := MoveDir(os, d, false, isMass, Mirror(a, x, src) + [name], Mirror(a, y, src)).0;
    MoveDirNamed(os, a, b, x, y, d, false, isMass, entry);
    NamedNow(a, b, x, y, d, d2);
    FinishEntryNamed(os, a, b, x, y, d2, link, src, name, copy);
    FinishEntrySafe(os, a, b, d2, link, src, name, copy);
  }

  // ----- The source's side, in every state -----

  /** Below the source root a node is there, then gone, and then a link. */
  function Stage(node: Option<Node>): nat {
    if node.None? then 1 else if node.value.Symlink? then 2 else 0
  }

  lemma StepStage(a: Path, b: Path, t: Tree, e: Effect, q: Path)
    requires Apart(a, b) && Allowed(a, b, t, e) && Under(a, q)
    ensures
      var u := Apply(a, b, t, e);
      At(u, q) == At(t, q) || Stage(At(u, q)) > Stage(At(t, q))
  {
    if e.Put? {
      MirrorFacts(a, b, e.src);
      MirrorApart(a, b, q, Mirror(a, b, e.src));
    }
    if e.Make? && e.dir == q {
      if Under(b, q) { UnderBoth(a, b, q); }
      if Under(q, b) { UnderTransitive(a, q, b); }
    }
  }

  lemma {:induction false} StagesGrow(a: Path, b: Path, d: Disk, e: Disk, i: nat, j: nat, q: Path)
    requires Apart(a, b) && Reaches(a, b, d, e) && Under(a, q) && |d.past| <= i <= j <= |e.past|
    ensures
      At(e.States()[j], q) == At(e.States()[i], q) || Stage(At(e.States()[j], q)) > Stage(At(e.States()[i], q))
    decreases j
  {
    if i < j {
      StagesGrow(a, b, d, e, i, j - 1, q);
      var x := StepAt(a, b, d, e, j);
      StepStage(a, b, e.States()[j - 1], x, q);
    }
  }

  /** What is on the source's side in the end as it was in the beginning was so in between. */
  lemma UnchangedThroughout(a: Path, b: Path, d: Disk, e: Disk, i: nat, q: Path)
    requires Apart(a, b) && Reaches(a, b, d, e) && Under(a, q) && |d.past| <= i <= |e.past|
    requires At(e.now, q) == At(d.now, q)
    ensures At(e.States()[i], q) == At(d.now, q)
  {
    assert e.States()[|d.past|] == d.now by { assert e.States()[..|d.past| + 1][|d.past|] == d.now; }
    assert e.States()[|e.past|] == e.now;
    StagesGrow(a, b, d, e, |d.past|, i, q);
    StagesGrow(a, b, d, e, i, |e.past|, q);
  }

  // ----- How far a failed mass move has got -----

  /** Nothing at or below entry `n` of the source root or of the destination root has changed. */
  ghost predicate Untouched(a: Path, b: Path, t: Tree, u: Tree, n: Name) {
    forall q :: Under(a + [n], q) || Under(b + [n], q) ==> At(u, q) == At(t, q)
  }

  /** Entry `n` is as a completed move of it leaves it: passed over if it is a link, else moved and linked. */
  ghost predicate Completed(a: Path, b: Path, t: Tree, u: Tree, n: Name) {
    forall q :: Under(a + [n], q) || Under(b + [n], q) ==> Under(a, a) && SweptAt(a, b, t, u, a, {n}, true, q)
  }

  /** A change within entry `done` leaves the others untouched. */
  lemma OtherUntouched(a: Path, b: Path, t: Tree, u: Tree, done: Name, n: Name)
    requires Apart(a, b) && n != done && OutFrame(a, b + [done], t, u)
    requires forall q :: Under(a, q) && !Under(a + [done], q) ==> At(u, q) == At(t, q)
    ensures Untouched(a, b, t, u, n)
  {
    forall q | Under(a + [n], q) || Under(b + [n], q) ensures At(u, q) == At(t, q) {
      if Under(a + [n], q) {
        BelowEntry(a, n, q);
        BelowEntry(a, done, q);
      } else {
        BelowEntry(b, n, q);
        BelowEntry(b, done, q);
        if Under(a, q) { UnderBoth(a, b, q); }
        assert GrewTo(b + [done], t, u, q);
      }
    }
  }

  lemma UntouchedThen(a: Path, b: Path, t: Tree, u: Tree, v: Tree, n: Name)
    requires Untouched(a, b, t, u, n) && Untouched(a, b, u, v, n)
    ensures Untouched(a, b, t, v, n)
  {
  }

  /** What happens before or after an entry is moved, elsewhere, does not matter to it. */
  lemma CompletedAmid(a: Path, b: Path, t: Tree, t1: Tree, u: Tree, v: Tree, n: Name)
    requires Apart(a, b) && Untouched(a, b, t, t1, n) && Completed(a, b, t1, u, n) && Untouched(a, b, u, v, n)
    ensures Completed(a, b, t, v, n)
  {
    forall q | Under(a + [n], q) || Under(b + [n], q) ensures Under(a, a) && SweptAt(a, b, t, v, a, {n}, true, q) {
      assert SweptAt(a, b, t1, u, a, {n}, true, q);
      BelowEntry(a, n, a + [n]);
      assert Under(a + [n], a + [n]) && At(t1, a + [n]) == At(t, a + [n]);
      if Under(b + [n], q) {
        BelowEntry(b, n, q);
        MirrorFacts(b, a, q);
        BelowEntry(a, n, Mirror(b, a, q));
      }
    }
  }

  lemma SweptCompletes(a: Path, b: Path, t: Tree, u: Tree, n: Name)
    requires Under(a, a) && Swept(a, b, t, u, a, {n}, true)
    ensures Completed(a, b, t, u, n)
  {
  }

  /** The loop of a mass move: of the entries listed before the `i`th each has been moved, of those after it none
      has been touched, nor anything that is not listed. */
  lemma {:induction false} EntriesStop(os: Fates, a: Path, b: Path, d: Disk, names: seq<Name>) returns (i: nat)
    requires Ready(a, b, d.now) && Under(a, a) && At(d.now, a) == Some(Dir) && |a| <= PATH_LIMIT
    requires forall j, k :: 0 <= j < k < |names| ==> names[j] != names[k]
    ensures i <= |names|
    ensures
      var e := MoveEntries(os, d, true, true, a, b, names).0;
      && (forall k :: 0 <= k < i ==> Completed(a, b, d.now, e.now, names[k]))
      && (forall k :: i < k < |names| ==> Untouched(a, b, d.now, e.now, names[k]))
      && (forall n :: n !in names ==> Untouched(a, b, d.now, e.now, n))
    decreases |names|
  {
    i := 0;
    assert Mirror(a, b, a) == b;
    var (d1, next) := Attempt(os, d);
    if next && names != [] {
      var (d2, ok) := MoveEntry(os, d1, true, true, a, b, names[0]);
      EntryLeavesOthers(os, a, b, d1, names[0]);
      if ok {
        var e := MoveEntries(os, d2, true, true, a, b, names[1..]).0;
        var rest := EntriesStop(os, a, b, d2, names[1..]);
        i := rest + 1;
        StopsLater(os, a, b, d1, d2, e, names, rest);
      }
    }
  }

  lemma EntryLeavesOthers(os: Fates, a: Path, b: Path, d: Disk, n: Name)
    requires Ready(a, b, d.now) && Under(a, a) && At(d.now, a) == Some(Dir) && |a| <= PATH_LIMIT
    ensures
      var (e, ok) := MoveEntry(os, d, true, true, a, b, n);
      && Ready(a, b, e.now) && At(e.now, a) == Some(Dir)
      && (forall k :: k != n ==> Untouched(a, b, d.now, e.now, k))
      && (ok ==> Completed(a, b, d.now, e.now, n))
  {
    var (e, ok) := MoveEntry(os, d, true, true, a, b, n);
    MirrorSelf(a, a);
    assert Mirror(a, b, a) == b;
    MoveEntrySafe(os, a, b, d, true, true, a, n);
    AfterNamedEntry(os, a, b, a, b, d, true, true, a, n);
    MoveEntryFrame(os, a, b, a, b, d, true, true, a, n);
    forall k | k != n ensures Untouched(a, b, d.now, e.now, k) {
      OtherUntouched(a, b, d.now, e.now, n, k);
    }
    if ok {
      MoveEntryExact(os, a, b, d, true, true, a, n);
      SweptCompletes(a, b, d.now, e.now, n);
    }
  }

  lemma StopsLater(os: Fates, a: Path, b: Path, d: Disk, d2: Disk, e: Disk, names: seq<Name>, rest: nat)
    requires Apart(a, b) && names != [] && rest <= |names| - 1
    requires forall j, k :: 0 <= j < k < |names| ==> names[j] != names[k]
    requires forall k :: k != names[0] ==> Untouched(a, b, d.now, d2.now, k)
    requires Completed(a, b, d.now, d2.now, names[0])
    requires forall k :: 0 <= k < rest ==> Completed(a, b, d2.now, e.now, names[1..][k])
    requires forall k :: rest < k < |names| - 1 ==> Untouched(a, b, d2.now, e.now, names[1..][k])
    requires forall n :: n !in names[1..] ==> Untouched(a, b, d2.now, e.now, n)
    ensures forall k :: 0 <= k < rest + 1 ==> Completed(a, b, d.now, e.now, names[k])
    ensures forall k :: rest + 1 < k < |names| ==> Untouched(a, b, d.now, e.now, names[k])
    ensures forall n :: n !in names ==> Untouched(a, b, d.now, e.now, n)
  {
    assert names[0] !in names[1..];
    forall k | 0 <= k < rest + 1 ensures Completed(a, b, d.now, e.now, names[k]) {
      if k == 0 {
        assert Untouched(a, b, d.now, d.now, names[0]);
        CompletedAmid(a, b, d.now, d.now, d2.now, e.now, names[0]);
      } else {
        assert names[1..][k - 1] == names[k];
        assert Untouched(a, b, e.now, e.now, names[k]);
        CompletedAmid(a, b, d.now, d2.now, e.now, e.now, names[k]);
      }
    }
    forall k | rest + 1 < k < |names| ensures Untouched(a, b, d.now, e.now, names[k]) {
      assert names[1..][k - 1] == names[k];
      UntouchedThen(a, b, d.now, d2.now, e.now, names[k]);
    }
    forall n | n !in names ensures Untouched(a, b, d.now, e.now, n) {
      assert n != names[0] && n !in names[1..];
      UntouchedThen(a, b, d.now, d2.now, e.now, n);
    }
  }

  /** A mass move goes through its root in the order in which it is listed and stops at the first failure: whatever
      fails, all entries before some entry have been moved completely, and nothing of those after it has been
      touched. Or nothing has been listed, and nothing changes. */
  lemma MassMoveStops(os: Fates, a: Path, b: Path, d: Disk) returns (names: seq<Name>, i: nat)
    requires Ready(a, b, d.now) && At(d.now, a) == Some(Dir)
    ensures
      var (e, ok) := MoveDir(os, d, true, true, a, b);
      || (!ok && e.past == d.past && e.now == d.now)
      || (&& Enumerates(names, Entries(d.now, a)) && i <= |names|
          && (forall k :: 0 <= k < i ==> Completed(a, b, d.now, e.now, names[k]))
          && (forall k :: i < k < |names| ==> Untouched(a, b, d.now, e.now, names[k])))
  {
    names, i := [], 0;
    assert Under(a, a);
    MassMoveUnfolds(os, d, a, b);
    ResolvePlain(d.now, a);
    var (d2, listed) := ReadDir(os, d.Tick(), a);
    if listed.Some? {
      names := listed.value;
      i := EntriesStop(os, a, b, d2, names);
    }
  }

  /** A move of one title leaves alone, whatever fails, everything but the title, its mirror, and directories that
      are made on the way to the mirror; and the source's side it leaves alone in every state. */
  lemma TitleMoveFrame(os: Fates, a: Path, b: Path, d: Disk, n: Name, q: Path)
    requires Ready(a, b, d.now) && a + [n] in d.now && !IsLink(d.now, a + [n])
    requires !Under(a + [n], q) && !Under(b + [n], q)
    ensures
      var e := MoveDir(os, d, true, false, a + [n], b).0;
      && GrewTo(b + [n], d.now, e.now, q)
      && (Under(a, q) ==>
            && |d.past| <= |e.past|
            && forall i :: |d.past| <= i <= |e.past| ==> At(e.States()[i], q) == At(d.now, q))
  {
    var src := a + [n];
    var e := MoveDir(os, d, true, false, src, b).0;
    MirrorChild(a, b, a, n);
    MirrorSelf(a, src);
    assert Mirror(a, b, a) == b && Under(a, a);
    MoveDirSafe(os, a, b, d, true, false, src, b);
    MoveDirFrame(os, a, b, a, b, d, true, false, src);
    if Under(a, q) {
      forall i | |d.past| <= i <= |e.past| ensures At(e.States()[i], q) == At(d.now, q) {
        UnchangedThroughout(a, b, d, e, i, q);
      }
    } else {
      assert GrewTo(b + [n], d.now, e.now, q);
    }
  }
}
