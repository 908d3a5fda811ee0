/** A batch of moves over several pairs of roots: what becomes of a pair does not depend on the other
    pairs, on their failures, or on the order. */
module MoveBatch {
  import opened FileSystem
  import opened TreeMover
  import opened MoverSafety
  import opened MoveLocal
  import opened MovePairs

  /** What the system does to each pair's move: its failures, partial copies and listing orders. */
  type Schedule = Pair -> Fates

  /** The move of one pair on its own. */
  function Alone(os: Fates, t: Tree, x: Pair): (Disk, bool) {
    MoveDir(os, Disk([], t, 0), true, true, x.src, x.dst)
  }

  /** An explicit batch: every pair in turn, whatever became of the ones before. */
  function Batch(schedule: Schedule, t: Tree, order: seq<Pair>): (Tree, map<Pair, bool>)
    decreases |order|
  {
    if order == [] then (t, map[])
    else
      var (d, ok) := Alone(schedule(order[0]), t, order[0]);
      var (u, results) := Batch(schedule, d.now, order[1..]);
      (u, results[order[0] := ok])
  }

  /** A pair is ready to be moved, and either its destination exists, whatever may fail; or no call fails,
      and the source root is not itself a file. */
  ghost predicate Movable(os: Fates, x: Pair, t: Tree) {
    && Ready(x.src, x.dst, t)
    && (At(t, x.dst) == Some(Dir) || (Steady(os) && !(x.src in t && t[x.src].File?)))
  }

  // ----- Outside its roots -----

  ghost function ReadyAndGrown(x: Pair, t: Tree, q: Path): Tree -> bool {
    u => Ready(x.src, x.dst, u) && GrewAt(x, t, u, q)
  }

  lemma ReachesGrows(x: Pair, d: Disk, e: Disk, q: Path)
    requires Ready(x.src, x.dst, d.now) && Reaches(x.src, x.dst, d, e) && !Inside(x, q)
    ensures GrewAt(x, d.now, e.now, q)
  {
    var p := ReadyAndGrown(x, d.now, q);
    forall t, f | p(t) && Allowed(x.src, x.dst, t, f) ensures p(Apply(x.src, x.dst, t, f)) {
      StepReady(x.src, x.dst, t, f);
      StepGrows(x, t, f, q);
    }
    ReachesInvariant(x.src, x.dst, d, e, p, |e.past|);
    assert p(e.States()[|e.past|]);
  }

  ghost function StillThere(b: Path): Tree -> bool {
    t => b in t
  }

  /** A destination root that exists is never removed. */
  lemma RootStays(a: Path, b: Path, d: Disk, e: Disk)
    requires Ready(a, b, d.now) && Reaches(a, b, d, e) && b in d.now
    ensures b in e.now
  {
    var p := StillThere(b);
    forall t, f | p(t) && Allowed(a, b, t, f) ensures p(Apply(a, b, t, f)) {
      if f.Drop? { MirrorApart(a, b, f.gone, b); }
    }
    ReachesInvariant(a, b, d, e, p, |e.past|);
    assert p(e.States()[|e.past|]);
  }

  /** The destination root has come about, or nothing outside the roots has changed. */
  ghost predicate AllOrNothing(x: Pair, t: Tree, u: Tree) {
    x.dst in u || forall q :: !Inside(x, q) ==> At(u, q) == At(t, q)
  }

  lemma NothingThen(x: Pair, t: Tree, d: Disk, e: Disk)
    requires Ready(x.src, x.dst, d.now) && Reaches(x.src, x.dst, d, e)
    requires AllOrNothing(x, t, d.now) && AllOrNothing(x, d.now, e.now)
    ensures AllOrNothing(x, t, e.now)
  {
    if x.dst in d.now { RootStays(x.src, x.dst, d, e); }
  }

  lemma NestedAllOrNothing(os: Fates, x: Pair, d: Disk, entry: Path)
    requires Ready(x.src, x.dst, d.now) && Steady(os)
    requires Under(x.src, entry) && entry != x.src
    requires Under(x.src, Parent(entry)) && entry in d.now && !d.now[entry].Symlink?
    ensures AllOrNothing(x, d.now, MoveDir(os, d, false, true, entry, Mirror(x.src, x.dst, Parent(entry))).0.now)
  {
    var a, b := x.src, x.dst;
    var target := Mirror(a, b, entry);
    MirrorFacts(a, b, entry);
    PlainSource(a, b, d.now, entry);
    ResolvePlain(d.now, entry);
    var (d1, isFile) := TestFile(os, d, entry);
    assert Destination(false, true, entry, Mirror(a, b, Parent(entry))) == target;
    if isFile {
      CopyPlain(os, a, b, d1, entry);
    } else {
      TreeAllOrNothing(os, x, d1, entry);
    }
  }

  lemma TreeAllOrNothing(os: Fates, x: Pair, d: Disk, entry: Path)
    requires Ready(x.src, x.dst, d.now) && Steady(os)
    requires Under(x.src, entry) && entry != x.src
    requires Under(x.src, Parent(entry)) && entry in d.now && !d.now[entry].Symlink?
    ensures AllOrNothing(x, d.now, MoveTree(os, d, false, true, entry, Mirror(x.src, x.dst, entry)).0.now)
  {
    var a, b := x.src, x.dst;
    var target := Mirror(a, b, entry);
    MirrorFacts(a, b, entry);
    PlainMirror(a, b, d.now, entry);
    forall k: nat ensures os(k).works { assert os(k) == os(0); }
    MakeDirsWorks(os, d, target);
    var (d2, made) := MakeDirs(os, d, target);
    if made {
      PavedAt(d.now, target, b);
      MakeDirsSafe(os, a, b, d, target);
      MadeOutsideSource(a, b, target, d.now, d2.now);
      ReadyNow(a, b, d, d2);
      PlainSource(a, b, d2.now, entry);
      ResolvePlain(d2.now, entry);
      var (d3, names) := ReadDir(os, d2, entry);
      if names.Some? {
        MirrorSelf(a, entry);
        MoveRestNamed(os, a, b, a, b, d3, false, true, entry, names.value);
        RootStays(a, b, d3, MoveRest(os, d3, false, true, entry, target, names.value).0);
      }
    }
  }

  lemma {:induction false} EntriesAllOrNothing(os: Fates, x: Pair, d: Disk, names: seq<Name>)
    requires Ready(x.src, x.dst, d.now) && Steady(os) && At(d.now, x.src) == Some(Dir) && |x.src| <= PATH_LIMIT
    ensures AllOrNothing(x, d.now, MoveEntries(os, d, true, true, x.src, x.dst, names).0.now)
    decreases |names|
  {
    var a, b := x.src, x.dst;
    assert Under(a, a) && Mirror(a, b, a) == b;
    var d1 := d.Tick();
    if names != [] && os(d.clock).works {
      var (d2, ok) := MoveEntry(os, d1, true, true, a, b, names[0]);
      EntryAllOrNothing(os, x, d1, names[0]);
      if ok {
        MoveEntrySafe(os, a, b, d1, true, true, a, names[0]);
        ReadyNow(a, b, d1, d2);
        EntryFrame(a, a, names[0], d1.now, d2.now);
        EntriesAllOrNothing(os, x, d2, names[1..]);
        MoveEntriesSafe(os, a, b, d2, true, true, a, names[1..]);
        NothingThen(x, d.now, d2, MoveEntries(os, d2, true, true, a, b, names[1..]).0);
      }
    }
  }

  lemma EntryAllOrNothing(os: Fates, x: Pair, d: Disk, name: Name)
    requires Ready(x.src, x.dst, d.now) && Steady(os) && At(d.now, x.src) == Some(Dir) && |x.src| <= PATH_LIMIT
    ensures AllOrNothing(x, d.now, MoveEntry(os, d, true, true, x.src, x.dst, name).0.now)
  {
    var a, b := x.src, x.dst;
    var entry := a + [name];
    assert Under(a, a) && Mirror(a, b, a) == b;
    MirrorChild(a, b, a, name);
    EntryLookup(a, b, d.now, a, name);
    var (d1, meta) := Metadata(os, d, entry);
    if meta.Found? && !meta.node.Symlink? {
      var (d2, moved) := MoveDir(os, d1, false, true, entry, b);
      NestedAllOrNothing(os, x, d1, entry);
      if moved {
        MoveDirSafe(os, a, b, d1, false, true, entry, b);
        ReadyNow(a, b, d1, d2);
        FinishAllOrNothing(os, x, d.now, d2, name);
      }
    }
  }

  lemma FinishAllOrNothing(os: Fates, x: Pair, t: Tree, d: Disk, name: Name)
    requires Ready(x.src, x.dst, d.now) && At(d.now, x.src) == Some(Dir) && Under(x.src, x.src + [name])
    requires x.src + [name] in d.now && (d.now[x.src + [name]].File? || d.now[x.src + [name]].Dir?)
    requires
      d.now[x.src + [name]].File? ==> At(d.now, Mirror(x.src, x.dst, x.src + [name])) == Some(d.now[x.src + [name]])
    requires AllOrNothing(x, t, d.now)
    ensures AllOrNothing(x, t, FinishEntry(os, d, true, x.src + [name], x.dst + [name]).0.now)
  {
    var a, b, entry := x.src, x.dst, x.src + [name];
    FinishEntrySafe(os, a, b, d, true, a, name, b + [name]);
    SourceChanged(x, t, d.now, FinishEntry(os, d, true, entry, b + [name]).0.now, entry);
  }

  lemma SourceChanged(x: Pair, t: Tree, u: Tree, v: Tree, p: Path)
    requires Apart(x.src, x.dst) && Under(x.src, p) && AllOrNothing(x, t, u)
    requires forall q :: q != p ==> At(v, q) == At(u, q)
    ensures AllOrNothing(x, t, v)
  {
    assert At(v, x.dst) == At(u, x.dst);
    forall q | !Inside(x, q) ensures At(v, q) == At(u, q) {}
  }

  /** What a move on its own leaves outside its roots: the way to a destination that exists in the end. */
  lemma AloneOutside(os: Fates, x: Pair, t: Tree, q: Path)
    requires Movable(os, x, t) && !Inside(x, q)
    ensures
      var u := Alone(os, t, x).0.now;
      At(u, q) == if x.dst in u && Under(q, x.dst) then Some(Dir) else At(t, q)
  {
    var a, b := x.src, x.dst;
    var d := Disk([], t, 0);
    var (e, ok) := Alone(os, t, x);
    MoveDirSafe(os, a, b, d, true, true, a, b);
    ReachesGrows(x, d, e, q);
    ReadyNow(a, b, d, e);
    if b in e.now {
      if Under(q, b) { AncestorsAreDirs(e.now, b, q); }
    } else {
      if b in t { RootStays(a, b, d, e); }
      AloneAllOrNothing(os, x, t);
    }
  }

  lemma AloneAllOrNothing(os: Fates, x: Pair, t: Tree)
    requires Movable(os, x, t) && Steady(os) && !(x.src in t && t[x.src].File?)
    ensures AllOrNothing(x, t, Alone(os, t, x).0.now)
  {
    var a, b := x.src, x.dst;
    var d := Disk([], t, 0);
    ResolvePlain(t, a);
    if a != [] {
      if At(t, a) == Some(Dir) {
        MassMoveUnfolds(os, d, a, b);
        var (d2, names) := ReadDir(os, d.Tick(), a);
        if names.Some? {
          EntriesAllOrNothing(os, x, d2, names.value);
        }
      } else {
        var d1 := d.Tick();
        assert MoveDir(os, d, true, true, a, b) == MoveTree(os, d1, true, true, a, b);
        assert ReadDir(os, d1, a).1 == None;
      }
    }
  }

  // ----- One pair before another -----

  ghost function BothReady(x: Pair, y: Pair): Tree -> bool {
    t => Ready(x.src, x.dst, t) && Ready(y.src, y.dst, t)
  }

  lemma OtherReadyAt(x: Pair, y: Pair, d: Disk, e: Disk, i: nat)
    requires Separate(x, y)
    requires Ready(x.src, x.dst, d.now) && Reaches(x.src, x.dst, d, e) && Ready(y.src, y.dst, d.now)
    requires |d.past| <= i <= |e.past|
    ensures Ready(y.src, y.dst, e.States()[i])
  {
    var p := BothReady(x, y);
    forall t, f | p(t) && Allowed(x.src, x.dst, t, f) ensures p(Apply(x.src, x.dst, t, f)) {
      StepReady(x.src, x.dst, t, f);
      StepReadyOther(x, y, t, f);
    }
    ReachesInvariant(x.src, x.dst, d, e, p, i);
    assert p(e.States()[i]);
  }

  lemma OtherReady(x: Pair, y: Pair, d: Disk, e: Disk)
    requires Separate(x, y)
    requires Ready(x.src, x.dst, d.now) && Reaches(x.src, x.dst, d, e) && Ready(y.src, y.dst, d.now)
    ensures Ready(y.src, y.dst, e.now)
  {
    OtherReadyAt(x, y, d, e, |e.past|);
  }

  lemma NearOutside(x: Pair, y: Pair, q: Path)
    requires Separate(x, y) && Near(y.src, y.dst, q)
    ensures !Inside(x, q)
    ensures Inside(y, q) ==> !Under(q, x.dst)
  {
    forall r, s | (r == x.src || r == x.dst) && (s == y.src || s == y.dst)
      ensures Under(s, q) || Under(q, s) ==> !Under(r, q)
      ensures Under(s, q) ==> !Under(q, r)
    {
      if Under(r, q) {
        if Under(s, q) { UnderBoth(r, s, q); } else if Under(q, s) { UnderTransitive(r, q, s); }
      }
      if Under(s, q) && Under(q, r) { UnderTransitive(s, q, r); }
    }
  }

  /** Running pair `x` first leaves pair `y` where it was, but for directories on the way to its roots. */
  lemma FirstAgrees(os: Fates, t: Tree, x: Pair, y: Pair, loose: bool)
    requires Separate(x, y) && Movable(os, x, t) && Ready(y.src, y.dst, t)
    requires !loose ==> At(t, y.dst) == Some(Dir)
    ensures var u := Alone(os, t, x).0.now; Agree(loose, y.src, y.dst, u, t) && Ready(y.src, y.dst, u)
  {
    var d := Disk([], t, 0);
    var e := Alone(os, t, x).0;
    MoveDirSafe(os, x.src, x.dst, d, true, true, x.src, x.dst);
    OtherReady(x, y, d, e);
    forall q | Near(y.src, y.dst, q) ensures AgreeAt(loose, y.src, y.dst, e.now, t, q) {
      NearOutside(x, y, q);
      ReachesGrows(x, d, e, q);
      if Under(q, y.dst) && !loose && q != y.dst { AncestorsAreDirs(t, y.dst, q); }
    }
  }

  lemma AloneElsewhere(schedule: Schedule, t: Tree, x: Pair, y: Pair)
    requires Separate(x, y) && Movable(schedule(x), x, t) && Movable(schedule(y), y, t)
    ensures
      var u := Alone(schedule(x), t, x).0.now;
      && Movable(schedule(y), y, u)
      && Alone(schedule(y), u, y).1 == Alone(schedule(y), t, y).1
      && forall q :: Inside(y, q) ==> At(Alone(schedule(y), u, y).0.now, q) == At(Alone(schedule(y), t, y).0.now, q)
  {
    var loose := At(t, y.dst) != Some(Dir);
    var u := Alone(schedule(x), t, x).0.now;
    var d, e := Disk([], u, 0), Disk([], t, 0);
    FirstAgrees(schedule(x), t, x, y, loose);
    assert Under(y.src, y.src) && Under(y.dst, y.dst);
    RootsAgree(loose, y.src, y.dst, u, t, y.src);
    RootsAgree(loose, y.src, y.dst, u, t, y.dst);
    MoveDirLocal(loose, schedule(y), y.src, y.dst, d, e, true, true, y.src, y.dst);
    forall q | Inside(y, q) ensures At(Alone(schedule(y), u, y).0.now, q) == At(Alone(schedule(y), t, y).0.now, q) {
      RootsAgree(loose, y.src, y.dst, Alone(schedule(y), u, y).0.now, Alone(schedule(y), t, y).0.now, q);
    }
  }

  // ----- The batch -----

  ghost predicate BatchReady(schedule: Schedule, t: Tree, order: seq<Pair>) {
    && (forall i :: 0 <= i < |order| ==> Movable(schedule(order[i]), order[i], t))
    && (forall i, j :: 0 <= i < j < |order| ==> order[i] != order[j] && Separate(order[i], order[j]))
  }

  /** Pair `x`, moved on its own, ends with its destination in place, below `q`. */
  predicate Paves(schedule: Schedule, t: Tree, x: Pair, q: Path) {
    Under(q, x.dst) && x.dst in Alone(schedule(x), t, x).0.now
  }

  /** The node at `q` once the pairs `order` have each been moved on their own. */
  ghost predicate EndsAs(schedule: Schedule, t: Tree, order: seq<Pair>, q: Path, node: Option<Node>) {
    && (forall x :: x in order && Inside(x, q) ==> node == At(Alone(schedule(x), t, x).0.now, q))
    && ((forall x :: x in order ==> !Inside(x, q)) ==>
          node == if exists x :: x in order && Paves(schedule, t, x, q) then Some(Dir) else At(t, q))
  }

  lemma FirstOfBatch(schedule: Schedule, t: Tree, order: seq<Pair>)
    requires BatchReady(schedule, t, order) && order != []
    ensures
      var u := Alone(schedule(order[0]), t, order[0]).0.now;
      && BatchReady(schedule, u, order[1..])
      && forall y :: y in order[1..] ==>
           && Separate(order[0], y) && Separate(y, order[0]) && y != order[0] && Movable(schedule(y), y, t)
           && Alone(schedule(y), u, y).1 == Alone(schedule(y), t, y).1
  {
    var x := order[0];
    var u := Alone(schedule(x), t, x).0.now;
    forall i | 0 <= i < |order[1..]|
      ensures Movable(schedule(order[1..][i]), order[1..][i], u)
      ensures Alone(schedule(order[1..][i]), u, order[1..][i]).1 == Alone(schedule(order[1..][i]), t, order[1..][i]).1
    {
      AloneElsewhere(schedule, t, x, order[i + 1]);
    }
  }

  /** What pair `y` makes of `q` does not depend on pair `x` having been moved before. */
  lemma OtherEndsAs(schedule: Schedule, t: Tree, x: Pair, y: Pair, q: Path)
    requires Separate(x, y) && Separate(y, x) && Movable(schedule(x), x, t) && Movable(schedule(y), y, t)
    ensures
      var u := Alone(schedule(x), t, x).0.now;
      && (Inside(y, q) ==>
            !Inside(x, q) && At(Alone(schedule(y), u, y).0.now, q) == At(Alone(schedule(y), t, y).0.now, q))
      && (Paves(schedule, u, y, q) <==> Paves(schedule, t, y, q))
      && (Inside(x, q) ==> !Under(q, y.dst))
  {
    var u := Alone(schedule(x), t, x).0.now;
    AloneElsewhere(schedule, t, x, y);
    assert Under(y.dst, y.dst);
    assert At(Alone(schedule(y), u, y).0.now, y.dst) == At(Alone(schedule(y), t, y).0.now, y.dst);
    if Inside(y, q) { NearOutside(x, y, q); }
    if Inside(x, q) { NearOutside(y, x, q); }
  }

  /** What the rest of a batch makes of `q` after the first pair is what it would have made of it before. */
  lemma RestEndsAs(schedule: Schedule, t: Tree, order: seq<Pair>, q: Path, node: Option<Node>)
    requires BatchReady(schedule, t, order) && order != []
    requires EndsAs(schedule, Alone(schedule(order[0]), t, order[0]).0.now, order[1..], q, node)
    ensures EndsAs(schedule, t, order, q, node)
  {
    var x, rest := order[0], order[1..];
    var u := Alone(schedule(x), t, x).0.now;
    FirstOfBatch(schedule, t, order);
    forall y | y in rest
      ensures Inside(y, q) ==>
        !Inside(x, q) && At(Alone(schedule(y), u, y).0.now, q) == At(Alone(schedule(y), t, y).0.now, q)
      ensures Paves(schedule, u, y, q) <==> Paves(schedule, t, y, q)
      ensures Inside(x, q) ==> !Under(q, y.dst)
    {
      OtherEndsAs(schedule, t, x, y, q);
    }
    assert forall y :: y in order <==> y == x || y in rest;
    if !Inside(x, q) {
      AloneOutside(schedule(x), x, t, q);
      assert At(u, q) == if Paves(schedule, t, x, q) then Some(Dir) else At(t, q);
    }
  }

  lemma {:induction false} BatchEndsAs(schedule: Schedule, t: Tree, order: seq<Pair>, q: Path)
    requires BatchReady(schedule, t, order)
    ensures EndsAs(schedule, t, order, q, At(Batch(schedule, t, order).0, q))
    decreases |order|
  {
    if order != [] {
      var v := Alone(schedule(order[0]), t, order[0]).0.now;
      FirstOfBatch(schedule, t, order);
      BatchEndsAs(schedule, v, order[1..], q);
      RestEndsAs(schedule, t, order, q, At(Batch(schedule, v, order[1..]).0, q));
    }
  }

  function AloneResults(schedule: Schedule, t: Tree, pairs: set<Pair>): map<Pair, bool> {
    map x | x in pairs :: Alone(schedule(x), t, x).1
  }

  function Members(order: seq<Pair>): set<Pair> {
    set x | x in order
  }

  lemma MembersCons(order: seq<Pair>)
    requires order != []
    ensures Members(order) == {order[0]} + Members(order[1..])
  {
  }

  lemma ResultsCons(schedule: Schedule, t: Tree, u: Tree, x: Pair, rest: set<Pair>)
    requires forall y :: y in rest ==> Alone(schedule(y), u, y).1 == Alone(schedule(y), t, y).1
    ensures AloneResults(schedule, u, rest)[x := Alone(schedule(x), t, x).1] == AloneResults(schedule, t, {x} + rest)
  {
  }

  lemma {:induction false} BatchResults(schedule: Schedule, t: Tree, order: seq<Pair>)
    requires BatchReady(schedule, t, order)
    ensures Batch(schedule, t, order).1 == AloneResults(schedule, t, Members(order))
    decreases |order|
  {
    if order != [] {
      var x, rest := order[0], order[1..];
      var v := Alone(schedule(x), t, x).0.now;
      FirstOfBatch(schedule, t, order);
      BatchResults(schedule, v, rest);
      ResultsCons(schedule, t, v, x, Members(rest));
      MembersCons(order);
    }
  }

  /** Each pair of a batch ends as if it had been moved alone; outside the roots, only the ways to those
      destinations that exist in the end have been made. */
  lemma BatchAsAlone(schedule: Schedule, t: Tree, order: seq<Pair>, q: Path)
    requires BatchReady(schedule, t, order)
    ensures
      var (u, results) := Batch(schedule, t, order);
      && results.Keys == Members(order)
      && (forall x :: x in order ==> results[x] == Alone(schedule(x), t, x).1)
      && EndsAs(schedule, t, order, q, At(u, q))
  {
    BatchEndsAs(schedule, t, order, q);
    BatchResults(schedule, t, order);
  }

  lemma OrdersAgree(schedule: Schedule, t: Tree, order: seq<Pair>, order': seq<Pair>, q: Path)
    requires BatchReady(schedule, t, order) && BatchReady(schedule, t, order')
    requires forall x :: x in order <==> x in order'
    ensures At(Batch(schedule, t, order).0, q) == At(Batch(schedule, t, order').0, q)
  {
    BatchAsAlone(schedule, t, order, q);
    BatchAsAlone(schedule, t, order', q);
    if x :| x in order && Inside(x, q) {
      assert x in order';
    }
  }

  /** Every iteration order of the move map leaves the same disk and the same result for every pair. */
  lemma OrderDoesNotMatter(schedule: Schedule, t: Tree, order: seq<Pair>, order': seq<Pair>)
    requires BatchReady(schedule, t, order) && BatchReady(schedule, t, order')
    requires forall x :: x in order <==> x in order'
    ensures Batch(schedule, t, order) == Batch(schedule, t, order')
  {
    var u, u' := Batch(schedule, t, order).0, Batch(schedule, t, order').0;
    forall q ensures At(u, q) == At(u', q) {
      OrdersAgree(schedule, t, order, order', q);
    }
    SameTree(u, u');
    BatchResults(schedule, t, order);
    BatchResults(schedule, t, order');
    assert Members(order) == Members(order');
  }

  /** What `Movable` leaves out: a source root that is itself a file is copied if and only if its destination's
      parent is there, and that may well be the work of another pair. */
  lemma FileRootNeedsParent(os: Fates, x: Pair, t: Tree)
    requires Ready(x.src, x.dst, t) && Steady(os) && x.src in t && t[x.src].File?
    ensures Alone(os, t, x).1 <==> Creatable(t, x.dst) || (x.dst in t && t[x.dst].File?)
  {
    var d := Disk([], t, 0);
    assert Under(x.src, x.src) && Mirror(x.src, x.dst, x.src) == x.dst && x.src != [];
    ResolvePlain(t, x.src);
    assert os(1) == os(0);
    CopyPlain(os, x.src, x.dst, d.Tick(), x.src);
  }
}
