/** Everything the worker ever moves: batches that clients ask for, and scheduled passes. Over any run of them
    no state loses a file of any pair. */
module MovePass {
  import opened FileSystem
  import opened DiskStates
  import opened Host
  import opened TreeMover
  import opened MoverSafety
  import opened MovePairs

  // ----- The worker's loops -----

  /** Which entries are past the age threshold; the worker asks this of each entry it lists. */
  type Age = (Pair, Name) -> bool

  /** An entry to be moved on its own, with the roots of its pair. */
  type Title = (Pair, Name)

  /** All roots in turn; a failure is logged, and the next root has its turn. */
  function MoveRoots(os: Fates, d: Disk, pairs: seq<Pair>): Disk
    decreases |pairs|
  {
    if pairs == [] then d
    else MoveRoots(os, MoveDir(os, d, true, true, pairs[0].src, pairs[0].dst).0, pairs[1..])
  }

  /** The old entries of one root are added to `found`, links left out; any error ends the worker. */
  function ListEntries(os: Fates, d: Disk, x: Pair, names: seq<Name>, aged: Age, found: seq<Title>)
    : (Disk, Option<seq<Title>>)
    decreases |names|
  {
    var (d1, next) := Attempt(os, d);
    if !next then (d1, None)
    else if names == [] then (d1, Some(found))
    else
      var n := names[0];
      var (d2, meta) := Metadata(os, d1, x.src + [n]);
      if !meta.Found? then (d2, None)
      else if meta.node.Symlink? then ListEntries(os, d2, x, names[1..], aged, found)
      else
        var (d3, dated) := Attempt(os, d2);
        if !dated then (d3, None)
        else ListEntries(os, d3, x, names[1..], aged, if aged(x, n) then found + [(x, n)] else found)
  }

  function ListOld(os: Fates, d: Disk, pairs: seq<Pair>, aged: Age, found: seq<Title>): (Disk, Option<seq<Title>>)
    decreases |pairs|
  {
    if pairs == [] then (d, Some(found))
    else
      var (d1, names) := ReadDir(os, d, pairs[0].src);
      if names.None? then (d1, None)
      else
        var (d2, more) := ListEntries(os, d1, pairs[0], names.value, aged, found);
        if more.None? then (d2, None) else ListOld(os, d2, pairs[1..], aged, more.value)
  }

  function MoveOld(os: Fates, d: Disk, titles: seq<Title>): Disk
    decreases |titles|
  {
    if titles == [] then d
    else
      var (x, n) := titles[0];
      MoveOld(os, MoveDir(os, d, true, false, x.src + [n], x.dst).0, titles[1..])
  }

  /** One scheduled pass: list first, and then move everything if the disk is full, else what is old. */
  function Pass(os: Fates, d: Disk, pairs: seq<Pair>, full: bool, aged: Age): (Disk, bool) {
    var (d1, found) := ListOld(os, d, pairs, aged, []);
    if found.None? then (d1, false)
    else (if full then MoveRoots(os, d1, pairs) else MoveOld(os, d1, found.value), true)
  }

  datatype Job = Requested | Scheduled(full: bool, aged: Age)

  /** The worker's life: jobs in any order, until a pass fails to list. */
  function Work(os: Fates, d: Disk, pairs: seq<Pair>, jobs: seq<Job>): Disk
    decreases |jobs|
  {
    if jobs == [] then d
    else if jobs[0].Requested? then Work(os, MoveRoots(os, d, pairs), pairs, jobs[1..])
    else
      var (e, alive) := Pass(os, d, pairs, jobs[0].full, jobs[0].aged);
      if alive then Work(os, e, pairs, jobs[1..]) else e
  }

  // ----- The loops as they run -----

  method MoveRootsInPlace(m: Machine, pairs: seq<Pair>)
    modifies m`disk
    ensures m.disk == MoveRoots(m.os, old(m.disk), pairs)
  {
    for i := 0 to |pairs|
      invariant MoveRoots(m.os, m.disk, pairs[i..]) == MoveRoots(m.os, old(m.disk), pairs)
    {
      assert pairs[i..][0] == pairs[i] && pairs[i..][1..] == pairs[i + 1..];
      var _ := MoveDirInPlace(m, true, true, pairs[i].src, pairs[i].dst);
    }
    assert pairs[|pairs|..] == [];
  }

  method ListEntriesInPlace(m: Machine, x: Pair, names: seq<Name>, aged: Age, found: seq<Title>)
    returns (list: Option<seq<Title>>)
    modifies m`disk
    ensures (m.disk, list) == ListEntries(m.os, old(m.disk), x, names, aged, found)
  {
    var titles := found;
    var i := 0;
    while true
      invariant 0 <= i <= |names|
      invariant ListEntries(m.os, m.disk, x, names[i..], aged, titles)
             == ListEntries(m.os, old(m.disk), x, names, aged, found)
      decreases |names| - i
    {
      var next := m.Attempt();
      if !next {
        return None;
      }
      if i == |names| {
        return Some(titles);
      }
      assert names[i..][0] == names[i] && names[i..][1..] == names[i + 1..];
      var meta := m.Metadata(x.src + [names[i]]);
      if !meta.Found? {
        return None;
      }
      if !meta.node.Symlink? {
        var dated := m.Attempt();
        if !dated {
          return None;
        }
        if aged(x, names[i]) {
          titles := titles + [(x, names[i])];
        }
      }
      i := i + 1;
    }
  }

  method ListOldInPlace(m: Machine, pairs: seq<Pair>, aged: Age) returns (list: Option<seq<Title>>)
    modifies m`disk
    ensures (m.disk, list) == ListOld(m.os, old(m.disk), pairs, aged, [])
  {
    var titles := [];
    for i := 0 to |pairs|
      invariant ListOld(m.os, m.disk, pairs[i..], aged, titles) == ListOld(m.os, old(m.disk), pairs, aged, [])
    {
      assert pairs[i..][0] == pairs[i] && pairs[i..][1..] == pairs[i + 1..];
      var names := m.ReadDir(pairs[i].src);
      if names.None? {
        return None;
      }
      list := ListEntriesInPlace(m, pairs[i], names.value, aged, titles);
      if list.None? {
        return;
      }
      titles := list.value;
    }
    assert pairs[|pairs|..] == [];
    list := Some(titles);
  }

  method MoveOldInPlace(m: Machine, titles: seq<Title>)
    modifies m`disk
    ensures m.disk == MoveOld(m.os, old(m.disk), titles)
  {
    for i := 0 to |titles|
      invariant MoveOld(m.os, m.disk, titles[i..]) == MoveOld(m.os, old(m.disk), titles)
    {
      assert titles[i..][0] == titles[i] && titles[i..][1..] == titles[i + 1..];
      var (x, n) := titles[i];
      var _ := MoveDirInPlace(m, true, false, x.src + [n], x.dst);
    }
    assert titles[|titles|..] == [];
  }

  /** A batch on request, or a scheduled pass; the result says whether the worker lives on. */
  method JobInPlace(m: Machine, pairs: seq<Pair>, job: Job) returns (alive: bool)
    modifies m`disk
    ensures job.Requested? ==> alive && m.disk == MoveRoots(m.os, old(m.disk), pairs)
    ensures job.Scheduled? ==> (m.disk, alive) == Pass(m.os, old(m.disk), pairs, job.full, job.aged)
  {
    if job.Requested? {
      MoveRootsInPlace(m, pairs);
      return true;
    }
    var list := ListOldInPlace(m, pairs, job.aged);
    if list.None? {
      return false;
    }
    if job.full {
      MoveRootsInPlace(m, pairs);
    } else {
      MoveOldInPlace(m, list.value);
    }
    alive := true;
  }

  method WorkInPlace(m: Machine, pairs: seq<Pair>, jobs: seq<Job>)
    modifies m`disk
    ensures m.disk == Work(m.os, old(m.disk), pairs, jobs)
  {
    for i := 0 to |jobs|
      invariant Work(m.os, m.disk, pairs, jobs[i..]) == Work(m.os, old(m.disk), pairs, jobs)
    {
      assert jobs[i..][0] == jobs[i] && jobs[i..][1..] == jobs[i + 1..];
      var alive := JobInPlace(m, pairs, jobs[i]);
      if !alive {
        return;
      }
    }
    assert jobs[|jobs|..] == [];
  }

  // ----- What every state keeps -----

  /** An entry of the move map: the paths it is given by, and the roots that they name. */
  datatype Mapping = Mapping(named: Pair, roots: Pair)

  ghost predicate Known(t: Tree, m: Mapping) {
    NamedReady(m.roots.src, m.roots.dst, m.named.src, m.named.dst, t)
  }

  function Named(maps: seq<Mapping>): seq<Pair>
    decreases |maps|
  {
    if maps == [] then [] else [maps[0].named] + Named(maps[1..])
  }

  ghost predicate AllKnown(maps: seq<Mapping>, t: Tree) {
    forall m :: m in maps ==> Known(t, m)
  }

  /** No two entries of the move map have anything in common. */
  ghost predicate Disjoint(maps: seq<Mapping>) {
    forall i, j :: 0 <= i < j < |maps| ==> Separate(maps[i].roots, maps[j].roots)
  }

  ghost predicate Safe(maps: seq<Mapping>, y: Mapping, p: Path, c: Bytes, t: Tree)
    requires Under(y.roots.src, p)
  {
    AllKnown(maps, t) && Kept(y.roots.src, y.roots.dst, t, p, c)
  }

  ghost function IsSafe(maps: seq<Mapping>, y: Mapping, p: Path, c: Bytes): Tree -> bool
    requires Under(y.roots.src, p)
  {
    t => Safe(maps, y, p, c, t)
  }

  lemma DisjointPair(maps: seq<Mapping>, m: Mapping, y: Mapping)
    requires Disjoint(maps) && m in maps && y in maps && m != y
    ensures Separate(m.roots, y.roots) && Separate(y.roots, m.roots)
  {
    var i, j :| 0 <= i < |maps| && 0 <= j < |maps| && maps[i] == m && maps[j] == y;
    assert i != j;
  }

  lemma StepKeepsKnown(maps: seq<Mapping>, m: Mapping, y: Mapping, t: Tree, e: Effect)
    requires Disjoint(maps) && m in maps && y in maps && Known(t, m) && Known(t, y)
    requires Allowed(m.roots.src, m.roots.dst, t, e)
    ensures Known(Apply(m.roots.src, m.roots.dst, t, e), y)
  {
    if m == y {
      StepReady(y.roots.src, y.roots.dst, t, e);
      StepKeepsName(y.roots.src, y.roots.dst, t, e, y.named.src, y.roots.src);
      StepKeepsName(y.roots.src, y.roots.dst, t, e, y.named.dst, y.roots.dst);
    } else {
      DisjointPair(maps, m, y);
      StepReadyOther(m.roots, y.roots, t, e);
      StepKeepsNameOther(m.roots, y.roots, t, e, y.named.src, y.roots.src);
      StepKeepsNameOther(m.roots, y.roots, t, e, y.named.dst, y.roots.dst);
    }
  }

  lemma StepKeepsFile(maps: seq<Mapping>, m: Mapping, y: Mapping, p: Path, c: Bytes, t: Tree, e: Effect)
    requires Disjoint(maps) && m in maps && y in maps && Known(t, m) && Under(y.roots.src, p)
    requires Kept(y.roots.src, y.roots.dst, t, p, c) && Allowed(m.roots.src, m.roots.dst, t, e)
    ensures Kept(y.roots.src, y.roots.dst, Apply(m.roots.src, m.roots.dst, t, e), p, c)
  {
    if m == y {
      StepKept(y.roots.src, y.roots.dst, t, e, p, c);
    } else {
      DisjointPair(maps, m, y);
      StepKeptOther(m.roots, y.roots, t, e, p, c);
    }
  }

  /** Allowed changes for one mapping keep what is safe about all. */
  lemma CallIsSafe(maps: seq<Mapping>, m: Mapping, y: Mapping, p: Path, c: Bytes, d: Disk, e: Disk)
    requires Disjoint(maps) && m in maps && y in maps && Under(y.roots.src, p) && Safe(maps, y, p, c, d.now)
    requires Reaches(m.roots.src, m.roots.dst, d, e)
    ensures Always(d, e, IsSafe(maps, y, p, c)) && Safe(maps, y, p, c, e.now)
  {
    var safe := IsSafe(maps, y, p, c);
    var a, b := m.roots.src, m.roots.dst;
    forall t, f | safe(t) && Allowed(a, b, t, f) ensures safe(Apply(a, b, t, f)) {
      forall z | z in maps ensures Known(Apply(a, b, t, f), z) {
        StepKeepsKnown(maps, m, z, t, f);
      }
      StepKeepsFile(maps, m, y, p, c, t, f);
    }
    forall i | |d.past| <= i <= |e.past| ensures safe(e.States()[i]) {
      ReachesInvariant(a, b, d, e, safe, i);
    }
    AlwaysEnds(d, e, safe);
  }

  lemma SafeThen(maps: seq<Mapping>, y: Mapping, p: Path, c: Bytes, d: Disk, e: Disk, f: Disk)
    requires Under(y.roots.src, p)
    requires Always(d, e, IsSafe(maps, y, p, c)) && Always(e, f, IsSafe(maps, y, p, c))
    ensures Always(d, f, IsSafe(maps, y, p, c)) && Safe(maps, y, p, c, f.now)
  {
    AlwaysThen(d, e, f, IsSafe(maps, y, p, c));
    AlwaysEnds(e, f, IsSafe(maps, y, p, c));
  }

  // ----- Whole roots -----

  lemma RootCall(os: Fates, d: Disk, m: Mapping)
    requires Known(d.now, m)
    ensures Reaches(m.roots.src, m.roots.dst, d, MoveDir(os, d, true, true, m.named.src, m.named.dst).0)
  {
    var a, x := m.roots.src, m.named.src;
    assert Under(a, a) && Mirror(a, x, a) == x;
    MoveDirNamed(os, a, m.roots.dst, x, m.named.dst, d, true, true, a);
  }

  lemma {:induction false} RootsSafe(
    os: Fates, maps: seq<Mapping>, rest: seq<Mapping>, y: Mapping, p: Path, c: Bytes, d: Disk)
    requires Disjoint(maps) && (forall m :: m in rest ==> m in maps) && y in maps
    requires Under(y.roots.src, p) && Safe(maps, y, p, c, d.now)
    ensures
      var e := MoveRoots(os, d, Named(rest));
      Always(d, e, IsSafe(maps, y, p, c)) && Safe(maps, y, p, c, e.now)
    decreases |rest|
  {
    if rest == [] {
      AlwaysOne(d, d, IsSafe(maps, y, p, c));
    } else {
      var m := rest[0];
      var e := MoveDir(os, d, true, true, m.named.src, m.named.dst).0;
      assert Named(rest)[0] == m.named && Named(rest)[1..] == Named(rest[1..]);
      RootCall(os, d, m);
      CallIsSafe(maps, m, y, p, c, d, e);
      RootsSafe(os, maps, rest[1..], y, p, c, e);
      SafeThen(maps, y, p, c, d, e, MoveRoots(os, e, Named(rest[1..])));
    }
  }

  // ----- Single titles -----

  /** The title is there, below the root that its pair names, and is no link. */
  ghost predicate Present(maps: seq<Mapping>, t: Tree, title: Title) {
    exists m :: m in maps && PresentIn(m, t, title)
  }

  ghost predicate PresentIn(m: Mapping, t: Tree, title: Title) {
    var entry := m.roots.src + [title.1];
    m.named == title.0 && entry in t && !t[entry].Symlink?
  }

  predicate NoRepeats(titles: seq<Title>) {
    forall i, j :: 0 <= i < j < |titles| ==> titles[i] != titles[j]
  }

  /** A name names one root only. */
  lemma SameRoots(t: Tree, m: Mapping, y: Mapping)
    requires Known(t, m) && Known(t, y) && m.named == y.named
    ensures m.roots == y.roots
  {
    NameLookup(t, m.named.src, m.roots.src, m.roots.src);
    NameLookup(t, y.named.src, y.roots.src, y.roots.src);
    NameLookup(t, m.named.dst, m.roots.dst, m.roots.dst);
    NameLookup(t, y.named.dst, y.roots.dst, y.roots.dst);
    assert Under(m.roots.src, m.roots.src) && Mirror(m.roots.src, m.named.src, m.roots.src) == m.named.src;
    assert Under(y.roots.src, y.roots.src) && Mirror(y.roots.src, y.named.src, y.roots.src) == y.named.src;
    assert Under(m.roots.dst, m.roots.dst) && Mirror(m.roots.dst, m.named.dst, m.roots.dst) == m.named.dst;
    assert Under(y.roots.dst, y.roots.dst) && Mirror(y.roots.dst, y.named.dst, y.roots.dst) == y.named.dst;
  }

  lemma TitleCall(os: Fates, d: Disk, m: Mapping, title: Title)
    requires Known(d.now, m) && PresentIn(m, d.now, title)
    ensures
      var e := MoveDir(os, d, true, false, title.0.src + [title.1], title.0.dst).0;
      && Reaches(m.roots.src, m.roots.dst, d, e)
      && forall q :: Under(m.roots.src, q) && !Under(m.roots.src + [title.1], q) ==> At(e.now, q) == At(d.now, q)
  {
    var a, x, n := m.roots.src, m.named.src, title.1;
    assert Under(a, a) && Mirror(a, x, a) == x && Mirror(a, m.named.dst, a) == m.named.dst;
    MirrorChild(a, x, a, n);
    MoveDirNamed(os, a, m.roots.dst, x, m.named.dst, d, true, false, a + [n]);
  }

  ghost function NodeIs(q: Path, node: Option<Node>): Tree -> bool {
    t => At(t, q) == node
  }

  lemma CallElsewhere(x: Pair, y: Pair, d: Disk, e: Disk, q: Path)
    requires Separate(x, y) && Reaches(x.src, x.dst, d, e) && Under(y.src, q)
    ensures At(e.now, q) == At(d.now, q)
  {
    var p := NodeIs(q, At(d.now, q));
    forall t, f | p(t) && Allowed(x.src, x.dst, t, f) ensures p(Apply(x.src, x.dst, t, f)) {
      StepElsewhere(x, y, t, f, q);
    }
    ReachesInvariant(x.src, x.dst, d, e, p, |e.past|);
    assert p(e.States()[|e.past|]);
  }

  /** Moving one title leaves every other where it is. */
  lemma OtherStaysPresent(os: Fates, maps: seq<Mapping>, d: Disk, m: Mapping, title: Title, other: Title)
    requires Disjoint(maps) && AllKnown(maps, d.now) && m in maps && PresentIn(m, d.now, title)
    requires Present(maps, d.now, other) && other != title
    ensures Present(maps, MoveDir(os, d, true, false, title.0.src + [title.1], title.0.dst).0.now, other)
  {
    var e := MoveDir(os, d, true, false, title.0.src + [title.1], title.0.dst).0;
    var y :| y in maps && PresentIn(y, d.now, other);
    var q := y.roots.src + [other.1];
    TitleCall(os, d, m, title);
    assert Under(y.roots.src, q);
    if other.0 == title.0 {
      SameRoots(d.now, m, y);
      assert q[|m.roots.src|] == other.1 && (m.roots.src + [title.1])[|m.roots.src|] == title.1;
      assert !Under(m.roots.src + [title.1], q);
    } else {
      DisjointPair(maps, m, y);
      CallElsewhere(m.roots, y.roots, d, e, q);
    }
    assert PresentIn(y, e.now, other);
  }

  ghost predicate AllPresent(maps: seq<Mapping>, t: Tree, titles: seq<Title>) {
    forall title :: title in titles ==> Present(maps, t, title)
  }

  lemma OthersStayPresent(os: Fates, maps: seq<Mapping>, d: Disk, m: Mapping, titles: seq<Title>)
    requires Disjoint(maps) && AllKnown(maps, d.now) && m in maps && titles != [] && PresentIn(m, d.now, titles[0])
    requires AllPresent(maps, d.now, titles) && NoRepeats(titles)
    ensures
      var u := MoveDir(os, d, true, false, titles[0].0.src + [titles[0].1], titles[0].0.dst).0.now;
      AllPresent(maps, u, titles[1..])
  {
    var u := MoveDir(os, d, true, false, titles[0].0.src + [titles[0].1], titles[0].0.dst).0.now;
    forall title | title in titles[1..] ensures Present(maps, u, title) {
      OtherStaysPresent(os, maps, d, m, titles[0], title);
    }
  }

  lemma {:induction false} TitlesSafe(
    os: Fates, maps: seq<Mapping>, titles: seq<Title>, y: Mapping, p: Path, c: Bytes, d: Disk)
    requires Disjoint(maps) && y in maps && Under(y.roots.src, p) && Safe(maps, y, p, c, d.now)
    requires AllPresent(maps, d.now, titles) && NoRepeats(titles)
    ensures
      var e := MoveOld(os, d, titles);
      Always(d, e, IsSafe(maps, y, p, c)) && Safe(maps, y, p, c, e.now)
    decreases |titles|
  {
    if titles == [] {
      AlwaysOne(d, d, IsSafe(maps, y, p, c));
    } else {
      var (x, n) := titles[0];
      var e := MoveDir(os, d, true, false, x.src + [n], x.dst).0;
      FirstTitleSafe(os, maps, titles, y, p, c, d);
      TitlesSafe(os, maps, titles[1..], y, p, c, e);
      SafeThen(maps, y, p, c, d, e, MoveOld(os, e, titles[1..]));
    }
  }

  lemma FirstTitleSafe(
    os: Fates, maps: seq<Mapping>, titles: seq<Title>, y: Mapping, p: Path, c: Bytes, d: Disk)
    requires Disjoint(maps) && y in maps && Under(y.roots.src, p) && Safe(maps, y, p, c, d.now)
    requires AllPresent(maps, d.now, titles) && NoRepeats(titles) && titles != []
    ensures
      var e := MoveDir(os, d, true, false, titles[0].0.src + [titles[0].1], titles[0].0.dst).0;
      && Always(d, e, IsSafe(maps, y, p, c)) && Safe(maps, y, p, c, e.now)
      && AllPresent(maps, e.now, titles[1..]) && NoRepeats(titles[1..])
  {
    var e := MoveDir(os, d, true, false, titles[0].0.src + [titles[0].1], titles[0].0.dst).0;
    assert Present(maps, d.now, titles[0]);
    var m :| m in maps && PresentIn(m, d.now, titles[0]);
    OthersStayPresent(os, maps, d, m, titles);
    TitleCall(os, d, m, titles[0]);
    CallIsSafe(maps, m, y, p, c, d, e);
  }

  // ----- What is listed is there to be moved -----

  lemma {:induction false} EntriesListed(
    os: Fates, maps: seq<Mapping>, m: Mapping, d: Disk, names: seq<Name>, aged: Age, found: seq<Title>)
    requires m in maps && Known(d.now, m) && At(d.now, m.roots.src) == Some(Dir)
    requires forall i, j :: 0 <= i < j < |names| ==> names[i] != names[j]
    requires AllPresent(maps, d.now, found) && NoRepeats(found)
    requires forall n :: n in names ==> (m.named, n) !in found
    ensures
      var (e, list) := ListEntries(os, d, m.named, names, aged, found);
      && e.past == d.past && e.now == d.now
      && (list.Some? ==>
            && AllPresent(maps, d.now, list.value) && NoRepeats(list.value)
            && forall title :: title in list.value ==> title in found || title.0 == m.named)
    decreases |names|
  {
    if names != [] && os(d.clock).works {
      var n := names[0];
      var a, x := m.roots.src, m.named.src;
      assert Under(a, a) && Mirror(a, x, a) == x;
      EntryNamed(a, m.roots.dst, x, m.named.dst, d.now, a, n);
      var d1 := d.Tick();
      var (d2, meta) := Metadata(os, d1, x + [n]);
      if meta.Found? && !meta.node.Symlink? {
        var more := if aged(m.named, n) then found + [(m.named, n)] else found;
        assert PresentIn(m, d.now, (m.named, n));
        EntriesListed(os, maps, m, d2.Tick(), names[1..], aged, more);
      } else {
        EntriesListed(os, maps, m, d2, names[1..], aged, found);
      }
    }
  }

  lemma {:induction false} OldListed(
    os: Fates, maps: seq<Mapping>, rest: seq<Mapping>, d: Disk, aged: Age, found: seq<Title>)
    requires (forall m :: m in rest ==> m in maps) && AllKnown(maps, d.now) && Disjoint(rest)
    requires AllPresent(maps, d.now, found) && NoRepeats(found)
    requires forall m, title :: m in rest && title in found ==> title.0 != m.named
    ensures
      var (e, list) := ListOld(os, d, Named(rest), aged, found);
      && e.past == d.past && e.now == d.now
      && (list.Some? ==> AllPresent(maps, d.now, list.value) && NoRepeats(list.value))
    decreases |rest|
  {
    if rest != [] {
      var m := rest[0];
      assert Named(rest)[0] == m.named && Named(rest)[1..] == Named(rest[1..]);
      RootListed(os, d, m);
      var (d1, names) := ReadDir(os, d, m.named.src);
      if names.Some? {
        EntriesListed(os, maps, m, d1, names.value, aged, found);
        var (d2, more) := ListEntries(os, d1, m.named, names.value, aged, found);
        if more.Some? {
          forall z, title | z in rest[1..] && title in more.value ensures title.0 != z.named {
            OtherNamed(d.now, rest, z);
          }
          OldListed(os, maps, rest[1..], d2, aged, more.value);
        }
      }
    }
  }

  lemma RootListed(os: Fates, d: Disk, m: Mapping)
    requires Known(d.now, m)
    ensures
      var (e, names) := ReadDir(os, d, m.named.src);
      names.Some? ==>
        && At(d.now, m.roots.src) == Some(Dir)
        && forall i, j :: 0 <= i < j < |names.value| ==> names.value[i] != names.value[j]
  {
    assert Under(m.roots.src, m.roots.src) && Mirror(m.roots.src, m.named.src, m.roots.src) == m.named.src;
    NameLookup(d.now, m.named.src, m.roots.src, m.roots.src);
  }

  /** Separate roots have different names. */
  lemma OtherNamed(t: Tree, rest: seq<Mapping>, z: Mapping)
    requires rest != [] && Disjoint(rest) && z in rest[1..] && Known(t, rest[0]) && Known(t, z)
    ensures z.named != rest[0].named
  {
    var j :| 0 <= j < |rest[1..]| && rest[1..][j] == z;
    assert Separate(rest[0].roots, rest[j + 1].roots);
    assert Under(z.roots.src, z.roots.src);
    if z.named == rest[0].named {
      SameRoots(t, rest[0], z);
    }
  }

  // ----- The worker's life -----

  lemma JobSafe(os: Fates, maps: seq<Mapping>, job: Job, y: Mapping, p: Path, c: Bytes, d: Disk)
    requires Disjoint(maps) && y in maps && Under(y.roots.src, p) && Safe(maps, y, p, c, d.now)
    ensures
      var e := if job.Requested? then MoveRoots(os, d, Named(maps)) else Pass(os, d, Named(maps), job.full, job.aged).0;
      Always(d, e, IsSafe(maps, y, p, c)) && Safe(maps, y, p, c, e.now)
  {
    if job.Requested? {
      RootsSafe(os, maps, maps, y, p, c, d);
    } else {
      OldListed(os, maps, maps, d, job.aged, []);
      var (d1, list) := ListOld(os, d, Named(maps), job.aged, []);
      AlwaysOne(d, d1, IsSafe(maps, y, p, c));
      if list.Some? {
        var e := Pass(os, d, Named(maps), job.full, job.aged).0;
        if job.full {
          RootsSafe(os, maps, maps, y, p, c, d1);
        } else {
          TitlesSafe(os, maps, list.value, y, p, c, d1);
        }
        SafeThen(maps, y, p, c, d, d1, e);
      }
    }
  }

  /** Over any run of requested batches and scheduled passes, with any failures, and with roots given by any
      names: every file of every pair is whole, at its own path or at its mirror, in every state. */
  lemma WorkLosesNothing(
    os: Fates, maps: seq<Mapping>, jobs: seq<Job>, y: Mapping, p: Path, c: Bytes, d: Disk)
    requires Disjoint(maps) && AllKnown(maps, d.now) && y in maps
    requires Under(y.roots.src, p) && Kept(y.roots.src, y.roots.dst, d.now, p, c)
    ensures
      var e := Work(os, d, Named(maps), jobs);
      && |d.past| <= |e.past| && e.States()[..|d.past| + 1] == d.States()
      && forall i :: |d.past| <= i <= |e.past| ==> Kept(y.roots.src, y.roots.dst, e.States()[i], p, c)
  {
    WorkSafe(os, maps, jobs, y, p, c, d);
    var e := Work(os, d, Named(maps), jobs);
    forall i | |d.past| <= i <= |e.past| ensures Kept(y.roots.src, y.roots.dst, e.States()[i], p, c) {
      assert IsSafe(maps, y, p, c)(e.States()[i]);
    }
  }

  lemma {:induction false} WorkSafe(
    os: Fates, maps: seq<Mapping>, jobs: seq<Job>, y: Mapping, p: Path, c: Bytes, d: Disk)
    requires Disjoint(maps) && y in maps && Under(y.roots.src, p) && Safe(maps, y, p, c, d.now)
    ensures Always(d, Work(os, d, Named(maps), jobs), IsSafe(maps, y, p, c))
    decreases |jobs|
  {
    var safe := IsSafe(maps, y, p, c);
    if jobs == [] {
      AlwaysOne(d, d, safe);
    } else {
      var pairs, job := Named(maps), jobs[0];
      var e := if job.Requested? then MoveRoots(os, d, pairs) else Pass(os, d, pairs, job.full, job.aged).0;
      JobSafe(os, maps, job, y, p, c, d);
      if job.Requested? || Pass(os, d, pairs, job.full, job.aged).1 {
        WorkSafe(os, maps, jobs[1..], y, p, c, e);
        AlwaysThen(d, e, Work(os, e, pairs, jobs[1..]), safe);
      }
    }
  }
}
