/** Every change a move makes to the disk is one of four kinds, each harmless on its own; so no
    crash, failure or listing order loses a file. */
module MoverSafety {
  import opened FileSystem
  import opened TreeMover

  /** Where a path below the source root `a` is kept below the destination root `b`. */
  function Mirror(a: Path, b: Path, p: Path): Path
    requires Under(a, p)
  {
    b + p[|a|..]
  }

  lemma MirrorFacts(a: Path, b: Path, p: Path)
    requires Under(a, p)
    ensures Under(b, Mirror(a, b, p)) && Mirror(b, a, Mirror(a, b, p)) == p
    ensures p != a ==>
      p != [] && Under(a, Parent(p)) && Mirror(a, b, p) != [] && Parent(Mirror(a, b, p)) == Mirror(a, b, Parent(p))
    ensures p != a ==> Mirror(a, b, p) == Mirror(a, b, Parent(p)) + [Last(p)]
  {
    UnderSplit(a, p);
    if p != a {
      UnderParent(a, p);
    }
  }

  lemma MirrorChild(a: Path, b: Path, p: Path, n: Name)
    requires Under(a, p)
    ensures Under(a, p + [n]) && Mirror(a, b, p + [n]) == Mirror(a, b, p) + [n]
    ensures p + [n] != a && Parent(p + [n]) == p
  {
    assert (p + [n])[..|a|] == p[..|a|];
    assert (p + [n])[|a|..] == p[|a|..] + [n];
  }

  /** What a move needs: a tree, roots that are apart with no links on their way, and no link at the
      destination of anything that is to be copied. */
  ghost predicate Ready(a: Path, b: Path, t: Tree) {
    && WellFormed(t)
    && Apart(a, b)
    && Plain(t, a)
    && Plain(t, b)
    && forall p :: p in t && Under(a, p) && !t[p].Symlink? ==> !IsLink(t, Mirror(a, b, p))
  }

  predicate IsLink(t: Tree, p: Path) {
    p in t && t[p].Symlink?
  }

  // ----- The four kinds of change -----

  datatype Effect =
    | Put(src: Path, content: Bytes)   // (part of) a copy of the file at src
    | Make(dir: Path)                  // a destination directory
    | Drop(gone: Path)                 // a copied file or emptied directory
    | Link(link: Path, text: Path)     // a link, with whatever text, in place of something dropped

  ghost predicate Allowed(a: Path, b: Path, t: Tree, e: Effect) {
    match e
    case Put(p, _) =>
      Under(a, p) && p in t && t[p].File?
      && var m := Mirror(a, b, p); Creatable(t, m) || (m in t && t[m].File?)
    case Make(q) => Creatable(t, q) && (Under(q, b) || Under(b, q))
    case Drop(p) =>
      && Under(a, p) && p != a && p in t
      && (if t[p].Dir? then Entries(t, p) == {} else t[p].File? && At(t, Mirror(a, b, p)) == Some(t[p]))
    case Link(p, _) => Under(a, p) && p != a && Creatable(t, p)
  }

  function Apply(a: Path, b: Path, t: Tree, e: Effect): Tree
    requires e.Put? ==> Under(a, e.src)
  {
    match e
    case Put(p, content) => t[Mirror(a, b, p) := File(content)]
    case Make(q) => t[q := Dir]
    case Drop(p) => t - {p}
    case Link(p, text) => t[p := Symlink(text)]
  }

  ghost predicate Step(a: Path, b: Path, t: Tree, u: Tree) {
    exists e :: Allowed(a, b, t, e) && u == Apply(a, b, t, e)
  }

  /** The disk `e` was reached from `d` by allowed changes only, one state at a time. */
  ghost predicate Reaches(a: Path, b: Path, d: Disk, e: Disk) {
    && |d.past| <= |e.past|
    && e.States()[..|d.past| + 1] == d.States()
    && forall i :: |d.past| <= i < |e.past| ==> Step(a, b, e.States()[i], e.States()[i + 1])
  }

  lemma ReachesTransitive(a: Path, b: Path, d: Disk, e: Disk, f: Disk)
    requires Reaches(a, b, d, e) && Reaches(a, b, e, f)
    ensures Reaches(a, b, d, f)
  {
    forall i | 0 <= i <= |e.past| ensures f.States()[i] == e.States()[i] {
      assert f.States()[..|e.past| + 1][i] == e.States()[i];
    }
    assert f.States()[..|d.past| + 1] == e.States()[..|d.past| + 1];
  }

  lemma ReachesSame(a: Path, b: Path, d: Disk, e: Disk)
    requires e.past == d.past && e.now == d.now
    ensures Reaches(a, b, d, e)
  {
  }

  lemma ReachesPush(a: Path, b: Path, d: Disk, e: Effect)
    requires Allowed(a, b, d.now, e)
    ensures Reaches(a, b, d, d.Push(Apply(a, b, d.now, e)))
  {
    var f := d.Push(Apply(a, b, d.now, e));
    assert f.States()[|d.past|] == d.now && f.States()[|d.past| + 1] == f.now;
  }

  lemma StepAt(a: Path, b: Path, d: Disk, e: Disk, i: nat) returns (x: Effect)
    requires Reaches(a, b, d, e) && |d.past| < i <= |e.past|
    ensures Allowed(a, b, e.States()[i - 1], x) && e.States()[i] == Apply(a, b, e.States()[i - 1], x)
  {
    assert Step(a, b, e.States()[i - 1], e.States()[i - 1 + 1]);
    x :| Allowed(a, b, e.States()[i - 1], x) && e.States()[i] == Apply(a, b, e.States()[i - 1], x);
  }

  /** What every allowed change preserves holds in every state on the way. */
  lemma {:induction false} ReachesInvariant(a: Path, b: Path, d: Disk, e: Disk, p: Tree -> bool, i: nat)
    requires Reaches(a, b, d, e) && p(d.now) && |d.past| <= i <= |e.past|
    requires forall t, x :: p(t) && Allowed(a, b, t, x) ==> p(Apply(a, b, t, x))
    ensures p(e.States()[i])
    decreases i
  {
    if i == |d.past| {
      assert e.States()[..|d.past| + 1][i] == d.now;
    } else {
      ReachesInvariant(a, b, d, e, p, i - 1);
      var x := StepAt(a, b, d, e, i);
    }
  }

  // ----- What the changes preserve -----

  lemma StepWellFormed(a: Path, b: Path, t: Tree, e: Effect)
    requires WellFormed(t) && Allowed(a, b, t, e)
    ensures WellFormed(Apply(a, b, t, e))
  {
    var u := Apply(a, b, t, e);
    forall p | p in u && p != [] ensures At(u, Parent(p)) == Some(Dir) {
      if e.Drop? {
        DroppedLeaf(t, e.gone, p);
      } else {
        assert p !in t || At(t, Parent(p)) == Some(Dir);
      }
    }
  }

  /** What is dropped has nothing below it. */
  lemma DroppedLeaf(t: Tree, gone: Path, p: Path)
    requires WellFormed(t) && p in t && p != [] && gone in t
    requires t[gone].File? || Entries(t, gone) == {}
    ensures Parent(p) != gone && At(t, Parent(p)) == Some(Dir)
  {
    if Parent(p) == gone {
      assert p == gone + [Last(p)];
      EntriesOf(t, gone, Last(p));
    }
  }

  lemma PlainMirror(a: Path, b: Path, t: Tree, p: Path)
    requires Ready(a, b, t) && p in t && Under(a, p) && !t[p].Symlink?
    ensures Plain(t, Mirror(a, b, p))
  {
    var m := Mirror(a, b, p);
    forall k | 0 <= k <= |m| ensures !IsLink(t, m[..k]) {
      if k <= |b| {
        assert m[..k] == b[..k];
      } else {
        var q := p[..|a| + k - |b|];
        assert Under(a, q) && Mirror(a, b, q) == m[..k];
        if q != p {
          assert Under(q, p);
          AncestorsAreDirs(t, p, q);
        }
      }
    }
  }

  /** A destination path is never at, below or on the way to the source root. */
  lemma MirrorApart(a: Path, b: Path, p: Path, q: Path)
    requires Apart(a, b) && Under(a, p)
    requires Under(b, q) || Under(q, b)
    ensures p != q && !Under(p, q)
    ensures Under(b, q) ==> !Under(a, q) && !Under(q, a)
    ensures Under(q, b) ==> !Under(a, q)
  {
    if Under(b, q) {
      if Under(a, q) { UnderBoth(a, b, q); }
      if Under(q, a) { UnderTransitive(b, q, a); }
      if Under(p, q) { UnderTransitive(a, p, q); }
    }
    if Under(q, b) {
      if Under(a, q) { UnderTransitive(a, q, b); }
      if Under(p, q) { UnderTransitive(a, p, q); }
    }
  }

  lemma StepReady(a: Path, b: Path, t: Tree, e: Effect)
    requires Ready(a, b, t) && Allowed(a, b, t, e)
    ensures Ready(a, b, Apply(a, b, t, e))
  {
    var u := Apply(a, b, t, e);
    StepWellFormed(a, b, t, e);
    forall k | 0 <= k <= |a| ensures !IsLink(u, a[..k]) {
      if e.Link? {
        assert Under(a, e.link) && e.link != a;
      }
    }
    forall k | 0 <= k <= |b| ensures !IsLink(u, b[..k]) {
      if e.Link? {
        assert Under(b[..k], b);
        MirrorApart(a, b, e.link, b[..k]);
      }
    }
    forall p | p in u && Under(a, p) && !u[p].Symlink? ensures !IsLink(u, Mirror(a, b, p)) {
      MirrorFacts(a, b, p);
      MirrorApart(a, b, p, Mirror(a, b, p));
      if e.Link? {
        MirrorApart(a, b, e.link, Mirror(a, b, p));
      }
      if p !in t {
        // Only a new directory could be new here, and those are made on the destination's side.
        if e.Make? { MirrorApart(a, b, p, e.dir); }
        if e.Put? { MirrorFacts(a, b, e.src); MirrorApart(a, b, p, Mirror(a, b, e.src)); }
        assert false;
      }
    }
  }

  ghost function IsReady(a: Path, b: Path): Tree -> bool {
    t => Ready(a, b, t)
  }

  lemma ReachesReady(a: Path, b: Path, d: Disk, e: Disk, i: nat)
    requires Ready(a, b, d.now) && Reaches(a, b, d, e)
    requires |d.past| <= i <= |e.past|
    ensures Ready(a, b, e.States()[i])
  {
    var p := IsReady(a, b);
    forall t, x | p(t) && Allowed(a, b, t, x) ensures p(Apply(a, b, t, x)) {
      StepReady(a, b, t, x);
    }
    ReachesInvariant(a, b, d, e, p, i);
    assert p(e.States()[i]);
  }

  lemma ReadyNow(a: Path, b: Path, d: Disk, e: Disk)
    requires Ready(a, b, d.now) && Reaches(a, b, d, e)
    ensures Ready(a, b, e.now)
  {
    ReachesReady(a, b, d, e, |e.past|);
  }

  // ----- Roots by any name -----

  /** `x` names the root `a`: it is `a` itself, with no link on the way, or any path that resolves to the
      directory `a`. */
  ghost predicate Names(t: Tree, x: Path, a: Path) {
    (x == a && Plain(t, a)) || (Resolve(t, x) == Some(a) && IsDirAt(t, a))
  }

  ghost predicate NamedReady(a: Path, b: Path, x: Path, y: Path, t: Tree) {
    Ready(a, b, t) && Names(t, x, a) && Names(t, y, b)
  }

  /** What lies below a root is looked up in the same place by every name of the root. */
  lemma NameLookup(t: Tree, x: Path, a: Path, p: Path)
    requires Names(t, x, a) && Under(a, p)
    ensures Plain(t, p) ==> Resolve(t, Mirror(a, x, p)) == Some(p)
    ensures p != a && Plain(t, Parent(p)) ==> Locate(t, Mirror(a, x, p)) == Some(p)
  {
    if x == a {
      UnderSplit(a, p);
      if Plain(t, p) { ResolvePlain(t, p); }
      if p != a && Plain(t, Parent(p)) { LocatePlain(t, p); }
    } else if p == a {
      assert Mirror(a, x, p) == x;
    } else {
      if Plain(t, p) { ResolveBelow(t, x, a, p, true); }
      if Plain(t, Parent(p)) { ResolveBelow(t, x, a, p, false); }
    }
  }

  lemma {:induction false} WalkMissing(t: Tree, base: Path, rest: Path, links: nat)
    requires WellFormed(t) && base !in t
    ensures Walk(t, base, rest, true, links) == Some(base + rest) && base + rest !in t
    decreases |rest|
  {
    if rest == [] {
      assert base + rest == base;
    } else {
      var next := base + [rest[0]];
      assert Parent(next) == base;
      WalkMissing(t, next, rest[1..], links);
      assert base + rest == next + rest[1..];
    }
  }

  /** A lookup that ends at a node ends there still when links have stayed and no other node has become one. */
  lemma {:induction false} WalkKept(t: Tree, u: Tree, base: Path, rest: Path, links: nat, q: Path)
    requires WellFormed(t) && Walk(t, base, rest, true, links) == Some(q) && q in t
    requires forall p :: p in t ==> if t[p].Symlink? then At(u, p) == At(t, p) else !IsLink(u, p)
    ensures Walk(u, base, rest, true, links) == Some(q)
    decreases links, |rest|
  {
    if rest != [] {
      var next := base + [rest[0]];
      if next !in t {
        WalkMissing(t, next, rest[1..], links);
        assert false;
      } else if t[next].Symlink? {
        assert At(u, next) == At(t, next);
        WalkKept(t, u, [], t[next].target + rest[1..], links - 1, q);
      } else {
        assert !IsLink(u, next);
        WalkKept(t, u, next, rest[1..], links, q);
      }
    }
  }

  /** No allowed change touches a link, makes one of something else, or removes a root. */
  lemma StepKeepsNodes(a: Path, b: Path, t: Tree, e: Effect, p: Path)
    requires Ready(a, b, t) && Allowed(a, b, t, e) && p in t
    ensures var u := Apply(a, b, t, e); if t[p].Symlink? then At(u, p) == At(t, p) else !IsLink(u, p)
    ensures (p == a || p == b) && t[p].Dir? ==> IsDirAt(Apply(a, b, t, e), p)
  {
    if e.Put? {
      MirrorFacts(a, b, e.src);
      if Mirror(a, b, e.src) == b { assert e.src == a; }
      MirrorApart(a, b, a, Mirror(a, b, e.src));
    }
    if e.Drop? {
      MirrorApart(a, b, e.gone, b);
    }
  }

  lemma StepKeepsName(a: Path, b: Path, t: Tree, e: Effect, x: Path, root: Path)
    requires Ready(a, b, t) && Allowed(a, b, t, e) && Names(t, x, root) && (root == a || root == b)
    ensures Names(Apply(a, b, t, e), x, root)
  {
    var u := Apply(a, b, t, e);
    if x == root && Plain(t, root) {
      StepReady(a, b, t, e);
    } else {
      forall p | p in t ensures if t[p].Symlink? then At(u, p) == At(t, p) else !IsLink(u, p) {
        StepKeepsNodes(a, b, t, e, p);
      }
      StepKeepsNodes(a, b, t, e, root);
      WalkKept(t, u, [], x, LINK_LIMIT, root);
    }
  }

  ghost function IsNamedReady(a: Path, b: Path, x: Path, y: Path): Tree -> bool {
    t => NamedReady(a, b, x, y, t)
  }

  lemma NamedNow(a: Path, b: Path, x: Path, y: Path, d: Disk, e: Disk)
    requires NamedReady(a, b, x, y, d.now) && Reaches(a, b, d, e)
    ensures NamedReady(a, b, x, y, e.now)
  {
    var p := IsNamedReady(a, b, x, y);
    forall t, f | p(t) && Allowed(a, b, t, f) ensures p(Apply(a, b, t, f)) {
      StepReady(a, b, t, f);
      StepKeepsName(a, b, t, f, x, a);
      StepKeepsName(a, b, t, f, y, b);
    }
    ReachesInvariant(a, b, d, e, p, |e.past|);
    assert p(e.States()[|e.past|]);
  }

  // ----- A call makes only allowed changes -----

  /** Below the source root, nothing but what lies strictly below `top` has changed. */
  ghost predicate SourceFrame(a: Path, top: Path, t: Tree, u: Tree) {
    forall q :: Under(a, q) && (q == top || !Under(top, q)) ==> At(u, q) == At(t, q)
  }

  /** Nothing has changed except that directories were made at `p` or on the way to it. */
  ghost predicate Grown(p: Path, t: Tree, u: Tree) {
    forall q :: At(u, q) == At(t, q) || (At(t, q) == None && At(u, q) == Some(Dir) && Under(q, p))
  }

  lemma PlainSource(a: Path, b: Path, t: Tree, p: Path)
    requires Ready(a, b, t) && Under(a, p)
    requires p == a || (p in t && !t[p].Symlink?)
    ensures Plain(t, p)
  {
    if p in t && !t[p].Symlink? {
      ExistingIsPlain(t, p);
    }
  }

  /** One write to the destination of a copy, from a state reached by earlier writes of that copy. */
  lemma PutSafe(a: Path, b: Path, t: Tree, d: Disk, src: Path, content: Bytes)
    requires Ready(a, b, d.now) && Under(a, src) && src in d.now && d.now[src].File?
    requires Creatable(d.now, Mirror(a, b, src)) || (Mirror(a, b, src) in d.now && d.now[Mirror(a, b, src)].File?)
    requires forall q :: q != Mirror(a, b, src) ==> At(t, q) == At(d.now, q)
    ensures
      var e := d.Push(t[Mirror(a, b, src) := File(content)]);
      && Reaches(a, b, d, e) && Ready(a, b, e.now)
      && At(e.now, src) == At(d.now, src) && At(e.now, Mirror(a, b, src)) == Some(File(content))
  {
    var m := Mirror(a, b, src);
    var u, v := t[m := File(content)], d.now[m := File(content)];
    forall q ensures At(u, q) == At(v, q) {
      assert q != m ==> At(t, q) == At(d.now, q);
    }
    SameTree(u, v);
    MirrorFacts(a, b, src);
    MirrorApart(a, b, src, m);
    ReachesPush(a, b, d, Put(src, content));
    StepReady(a, b, d.now, Put(src, content));
  }

  lemma CopySafe(os: Fates, a: Path, b: Path, d: Disk, src: Path)
    requires Ready(a, b, d.now) && Under(a, src)
    requires src == a || (src in d.now && !d.now[src].Symlink?)
    ensures
      var (e, ok) := Copy(os, d, src, Mirror(a, b, src));
      && Reaches(a, b, d, e)
      && (forall q :: Under(a, q) || q != Mirror(a, b, src) ==> At(e.now, q) == At(d.now, q))
      && (ok ==> src in d.now && d.now[src].File? && e.now == d.now[Mirror(a, b, src) := d.now[src]])
  {
    var m := Mirror(a, b, src);
    PlainSource(a, b, d.now, src);
    ResolvePlain(d.now, src);
    ReachesSame(a, b, d, d.Tick());
    if src in d.now && d.now[src].File? && Writable(d.now, m).Some? && (os(d.clock).works || os(d.clock).begun) {
      CopyBegun(os, a, b, d, src);
    } else {
      assert Copy(os, d, src, m) == (d.Tick(), false);
    }
  }

  lemma CopyBegun(os: Fates, a: Path, b: Path, d: Disk, src: Path)
    requires Ready(a, b, d.now) && Under(a, src) && src in d.now && d.now[src].File?
    requires Stat(d.now, src) == Some(d.now[src]) && Writable(d.now, Mirror(a, b, src)).Some?
    requires os(d.clock).works || os(d.clock).begun
    ensures
      var (e, ok) := Copy(os, d, src, Mirror(a, b, src));
      && Reaches(a, b, d, e)
      && (forall q :: Under(a, q) || q != Mirror(a, b, src) ==> At(e.now, q) == At(d.now, q))
      && (ok ==> e.now == d.now[Mirror(a, b, src) := d.now[src]])
  {
    var m := Mirror(a, b, src);
    var part := os(d.clock).part;
    assert Writable(d.now, m) == Some(m) by {
      PlainMirror(a, b, d.now, src);
      ResolvePlain(d.now, m);
    }
    PartCopied(a, b, d, src, part);
    SourceNotMirror(a, b, src);
    if os(d.clock).works {
      StillReadable(a, b, d.now[m := File([])], src);
      WholeCopied(a, b, d, src, part);
    }
  }

  lemma StillReadable(a: Path, b: Path, t: Tree, src: Path)
    requires Ready(a, b, t) && Under(a, src) && src in t && t[src].File?
    ensures Stat(t, src) == Some(t[src])
  {
    PlainSource(a, b, t, src);
    ResolvePlain(t, src);
  }

  lemma SourceNotMirror(a: Path, b: Path, src: Path)
    requires Apart(a, b) && Under(a, src)
    ensures forall q :: Under(a, q) ==> q != Mirror(a, b, src)
  {
    MirrorFacts(a, b, src);
    forall q | Under(a, q) ensures q != Mirror(a, b, src) {
      MirrorApart(a, b, q, Mirror(a, b, src));
    }
  }

  /** A copy that has emptied the destination and written some of it. */
  lemma PartCopied(a: Path, b: Path, d: Disk, src: Path, part: Bytes)
    requires Ready(a, b, d.now) && Under(a, src) && src in d.now && d.now[src].File?
    requires Creatable(d.now, Mirror(a, b, src)) || (Mirror(a, b, src) in d.now && d.now[Mirror(a, b, src)].File?)
    ensures
      var m := Mirror(a, b, src);
      && Reaches(a, b, d, d.Tick().Push(d.now[m := File([])]).Push(d.now[m := File(part)]))
      && Ready(a, b, d.now[m := File([])])
  {
    var m := Mirror(a, b, src);
    var d1 := d.Tick();
    var d2 := d1.Push(d.now[m := File([])]);
    ReachesSame(a, b, d, d1);
    PutSafe(a, b, d.now, d1, src, []);
    ReachesTransitive(a, b, d, d1, d2);
    ReadyNow(a, b, d, d2);
    PutSafe(a, b, d.now, d2, src, part);
    ReachesTransitive(a, b, d, d2, d2.Push(d.now[m := File(part)]));
  }

  lemma WholeCopied(a: Path, b: Path, d: Disk, src: Path, part: Bytes)
    requires Ready(a, b, d.now) && Under(a, src) && src in d.now && d.now[src].File?
    requires Creatable(d.now, Mirror(a, b, src)) || (Mirror(a, b, src) in d.now && d.now[Mirror(a, b, src)].File?)
    ensures
      var m := Mirror(a, b, src);
      var d3 := d.Tick().Push(d.now[m := File([])]).Push(d.now[m := File(part)]);
      Reaches(a, b, d, d3.Push(d.now[m := d.now[src]]))
  {
    var m := Mirror(a, b, src);
    var d3 := d.Tick().Push(d.now[m := File([])]).Push(d.now[m := File(part)]);
    PartCopied(a, b, d, src, part);
    PutSafe(a, b, d.now, d3, src, d.now[src].content);
    ReachesTransitive(a, b, d, d3, d3.Push(d.now[m := d.now[src]]));
  }

  lemma MakeDirSafe(os: Fates, a: Path, b: Path, d: Disk, p: Path)
    requires Ready(a, b, d.now) && Plain(d.now, p)
    requires Under(p, b) || Under(b, p)
    ensures
      var (e, made) := MakeDir(os, d, p);
      && Reaches(a, b, d, e) && Grown(p, d.now, e.now) && Plain(e.now, p)
      && (made.Made? ==> At(e.now, p) == Some(Dir))
      && (!made.Made? ==> e.now == d.now)
  {
    var (e, made) := MakeDir(os, d, p);
    LocatePlain(d.now, p);
    ReachesSame(a, b, d, d.Tick());
    if made.Made? {
      ReachesPush(a, b, d.Tick(), Make(p));
      ReachesTransitive(a, b, d, d.Tick(), e);
    }
  }

  lemma {:induction false} MakeDirsSafe(os: Fates, a: Path, b: Path, d: Disk, p: Path)
    requires Ready(a, b, d.now) && Plain(d.now, p)
    requires Under(p, b) || Under(b, p)
    ensures
      var (e, ok) := MakeDirs(os, d, p);
      && Reaches(a, b, d, e) && Grown(p, d.now, e.now) && Plain(e.now, p)
      && (ok ==> At(e.now, p) == Some(Dir))
    decreases |p|
  {
    var (e, ok) := MakeDirs(os, d, p);
    var (d1, first) := MakeDir(os, d, p);
    MakeDirSafe(os, a, b, d, p);
    if first.Refused? {
      ResolvePlain(d1.now, p);
      ReachesSame(a, b, d1, e);
      ReachesTransitive(a, b, d, d1, e);
    } else if first.Missing? && p != [] {
      ReadyNow(a, b, d, d1);
      assert Under(Parent(p), b) || Under(b, Parent(p)) by {
        if Under(p, b) { UnderTransitive(Parent(p), p, b); }
        else { UnderParent(b, p); }
      }
      PlainPrefix(d1.now, p, Parent(p));
      var (d2, parents) := MakeDirs(os, d1, Parent(p));
      MakeDirsSafe(os, a, b, d1, Parent(p));
      ReachesTransitive(a, b, d, d1, d2);
      GrownParent(p, d1.now, d2.now);
      if parents {
        ReadyNow(a, b, d, d2);
        var (d3, second) := MakeDir(os, d2, p);
        MakeDirSafe(os, a, b, d2, p);
        ReachesTransitive(a, b, d, d2, d3);
        if !second.Made? {
          ResolvePlain(d3.now, p);
          ReachesSame(a, b, d3, e);
          ReachesTransitive(a, b, d, d3, e);
        }
      }
    }
  }

  lemma GrownParent(p: Path, t: Tree, u: Tree)
    requires p != [] && Grown(Parent(p), t, u) && Plain(t, p)
    ensures Grown(p, t, u) && Plain(u, p)
  {
    forall q | Under(q, Parent(p)) ensures Under(q, p) {
      UnderTransitive(q, Parent(p), p);
    }
    forall k | 0 <= k <= |p| ensures !IsLink(u, p[..k]) {
      assert At(u, p[..k]) == At(t, p[..k]) || At(u, p[..k]) == Some(Dir);
    }
  }

  /** Where the source of a call lies below the root `a`. */
  ghost predicate SourceAt(a: Path, isRoot: bool, isMass: bool, src: Path, t: Tree) {
    if AppendsName(isRoot, isMass) then
      && src != [] && src != a && Under(a, src) && Under(a, Parent(src))
      && src in t && !t[src].Symlink?
      && (isRoot ==> Parent(src) == a)
    else src == a
  }

  /** The destination argument of a call, below a root named `y`. */
  function Onto(a: Path, y: Path, isRoot: bool, isMass: bool, src: Path): Path
    requires AppendsName(isRoot, isMass) ==> src != [] && Under(a, Parent(src))
  {
    if AppendsName(isRoot, isMass) then Mirror(a, y, Parent(src)) else y
  }

  lemma MadeOutsideSource(a: Path, b: Path, p: Path, t: Tree, u: Tree)
    requires Apart(a, b) && Grown(p, t, u) && Under(b, p)
    ensures forall q :: Under(a, q) ==> At(u, q) == At(t, q)
  {
    forall q | Under(a, q) && Under(q, p) ensures false {
      UnderTransitive(a, q, p);
      UnderBoth(a, b, p);
    }
  }

  lemma EntryFrame(a: Path, src: Path, name: Name, t: Tree, u: Tree)
    requires Under(a, src)
    requires forall q :: Under(a, q) && !Under(src + [name], q) ==> At(u, q) == At(t, q)
    ensures SourceFrame(a, src, t, u) && At(u, src) == At(t, src)
  {
    assert Under(src, src + [name]);
    forall q | Under(src + [name], q) ensures q != src && Under(src, q) {
      UnderTransitive(src, src + [name], q);
    }
  }

  lemma FinishEntrySafe(os: Fates, a: Path, b: Path, d: Disk, link: bool, src: Path, name: Name, copy: Path)
    requires Ready(a, b, d.now) && Under(a, src) && At(d.now, src) == Some(Dir)
    requires src + [name] in d.now && (d.now[src + [name]].File? || d.now[src + [name]].Dir?)
    requires Under(a, src + [name])
    requires d.now[src + [name]].File? ==> At(d.now, Mirror(a, b, src + [name])) == Some(d.now[src + [name]])
    ensures
      var entry := src + [name];
      var (e, ok) := FinishEntry(os, d, link, entry, copy);
      && Reaches(a, b, d, e)
      && (forall q :: q != entry ==> At(e.now, q) == At(d.now, q))
      && (ok ==> At(e.now, entry) == if link then Some(Symlink(copy)) else None)
      && (ok && d.now[entry].Dir? ==> Entries(d.now, entry) == {})
  {
    var entry := src + [name];
    MirrorChild(a, b, src, name);
    var (d1, removed) := RemoveEntry(os, d, entry);
    RemoveEntrySafe(os, a, b, d, entry);
    if removed && link {
      LinkAfterRemoval(os, a, b, d, d1, copy, entry);
      assert FinishEntry(os, d, link, entry, copy) == MakeLink(os, d1, copy, entry);
    } else {
      assert FinishEntry(os, d, link, entry, copy) == (d1, removed);
    }
  }

  lemma LinkAfterRemoval(os: Fates, a: Path, b: Path, d: Disk, d1: Disk, text: Path, entry: Path)
    requires Ready(a, b, d.now) && Under(a, entry) && entry != a && At(d.now, Parent(entry)) == Some(Dir)
    requires Reaches(a, b, d, d1) && d1.now == d.now - {entry}
    ensures
      var (e, ok) := MakeLink(os, d1, text, entry);
      && Reaches(a, b, d, e)
      && (forall q :: q != entry ==> At(e.now, q) == At(d.now, q))
      && (ok ==> At(e.now, entry) == Some(Symlink(text)))
  {
    ReadyNow(a, b, d, d1);
    UnderParent(a, entry);
    assert Parent(entry) + [Last(entry)] == entry;
    EntryLookup(a, b, d1.now, Parent(entry), Last(entry));
    LinkSafe(os, a, b, d1, text, entry);
    ReachesTransitive(a, b, d, d1, MakeLink(os, d1, text, entry).0);
  }

  /** An entry of a plain directory is looked up where it stands. */
  lemma EntryLookup(a: Path, b: Path, t: Tree, src: Path, name: Name)
    requires Ready(a, b, t) && Under(a, src) && At(t, src) == Some(Dir)
    ensures Locate(t, src + [name]) == Some(src + [name])
  {
    PlainSource(a, b, t, src);
    assert Parent(src + [name]) == src;
    LocatePlain(t, src + [name]);
  }

  lemma RemoveEntrySafe(os: Fates, a: Path, b: Path, d: Disk, entry: Path)
    requires Ready(a, b, d.now) && Under(a, entry) && entry != a
    requires entry in d.now && !d.now[entry].Symlink? && !d.now[entry].Socket?
    requires d.now[entry].File? ==> At(d.now, Mirror(a, b, entry)) == Some(d.now[entry])
    ensures
      var (e, ok) := RemoveEntry(os, d, entry);
      && Reaches(a, b, d, e)
      && e.now == (if ok then d.now - {entry} else d.now)
      && (ok && d.now[entry].Dir? ==> Entries(d.now, entry) == {})
  {
    var (e, ok) := RemoveEntry(os, d, entry);
    ExistingIsPlain(d.now, entry);
    LocatePlain(d.now, entry);
    if ok {
      ReachesSame(a, b, d, d.Tick().Tick());
      ReachesPush(a, b, d.Tick().Tick(), Drop(entry));
      ReachesTransitive(a, b, d, d.Tick().Tick(), e);
    } else {
      ReachesSame(a, b, d, e);
    }
  }

  lemma LinkSafe(os: Fates, a: Path, b: Path, d: Disk, text: Path, link: Path)
    requires Under(a, link) && link != a && Locate(d.now, link) == Some(link)
    ensures
      var (e, ok) := MakeLink(os, d, text, link);
      && Reaches(a, b, d, e)
      && e.now == (if ok then d.now[link := Symlink(text)] else d.now)
      && (ok ==> link !in d.now)
  {
    var (e, ok) := MakeLink(os, d, text, link);
    ReachesSame(a, b, d, d.Tick());
    if ok {
      ReachesPush(a, b, d.Tick(), Link(link, text));
      ReachesTransitive(a, b, d, d.Tick(), e);
    }
  }

  lemma ReplaceRootSafe(os: Fates, a: Path, b: Path, d: Disk, src: Path, copy: Path)
    requires Ready(a, b, d.now) && Under(a, src) && src != a && At(d.now, src) == Some(Dir)
    ensures
      var (e, ok) := ReplaceRoot(os, d, src, copy);
      && Reaches(a, b, d, e)
      && (forall q :: q != src ==> At(e.now, q) == At(d.now, q))
      && (ok ==> Entries(d.now, src) == {} && At(e.now, src) == Some(Symlink(copy)))
  {
    var (d1, removed) := RemoveRoot(os, d, src);
    RemoveRootSafe(os, a, b, d, src);
    if removed {
      LinkAfterRemoval(os, a, b, d, d1, copy, src);
    }
  }

  lemma RemoveRootSafe(os: Fates, a: Path, b: Path, d: Disk, src: Path)
    requires Ready(a, b, d.now) && Under(a, src) && src != a && At(d.now, src) == Some(Dir)
    ensures
      var (e, ok) := RemoveRoot(os, d, src);
      && Reaches(a, b, d, e)
      && e.now == (if ok then d.now - {src} else d.now)
      && (ok ==> Entries(d.now, src) == {} && At(d.now, Parent(src)) == Some(Dir))
  {
    var (e, ok) := RemoveRoot(os, d, src);
    assert Plain(d.now, src) && At(d.now, Parent(src)) == Some(Dir) by { ExistingIsPlain(d.now, src); }
    ResolvePlain(d.now, src);
    if ok {
      var d1 := d.Tick().Tick();
      ReachesSame(a, b, d, d1);
      ReachesPush(a, b, d1, Drop(src));
      ReachesTransitive(a, b, d, d1, e);
    } else {
      ReachesSame(a, b, d, e);
    }
  }

  // ----- Operations on the names of paths -----

  lemma SourceNamed(a: Path, b: Path, x: Path, y: Path, t: Tree, src: Path)
    requires NamedReady(a, b, x, y, t) && Under(a, src)
    requires src == a || (src in t && !t[src].Symlink?)
    ensures Plain(t, src) && Resolve(t, Mirror(a, x, src)) == Some(src) == Resolve(t, src)
  {
    PlainSource(a, b, t, src);
    ResolvePlain(t, src);
    NameLookup(t, x, a, src);
  }

  lemma EntryNamed(a: Path, b: Path, x: Path, y: Path, t: Tree, src: Path, name: Name)
    requires NamedReady(a, b, x, y, t) && Under(a, src) && At(t, src) == Some(Dir)
    ensures Locate(t, Mirror(a, x, src) + [name]) == Some(src + [name]) == Locate(t, src + [name])
  {
    PlainSource(a, b, t, src);
    MirrorChild(a, x, src, name);
    EntryLookup(a, b, t, src, name);
    NameLookup(t, x, a, src + [name]);
  }

  lemma CopyNamed(os: Fates, a: Path, b: Path, x: Path, y: Path, d: Disk, src: Path)
    requires NamedReady(a, b, x, y, d.now) && Under(a, src) && src in d.now && d.now[src].File?
    ensures Copy(os, d, Mirror(a, x, src), Mirror(a, y, src)) == Copy(os, d, src, Mirror(a, b, src))
  {
    var m := Mirror(a, b, src);
    SourceNamed(a, b, x, y, d.now, src);
    MirrorFacts(a, b, src);
    PlainMirror(a, b, d.now, src);
    ResolvePlain(d.now, m);
    NameLookup(d.now, y, b, m);
    assert Mirror(b, y, m) == Mirror(a, y, src);
    if Writable(d.now, m).Some? {
      var emptied := d.now[m := File([])];
      assert Allowed(a, b, d.now, Put(src, [])) && Apply(a, b, d.now, Put(src, [])) == emptied;
      StepReady(a, b, d.now, Put(src, []));
      StepKeepsName(a, b, d.now, Put(src, []), x, a);
      MirrorApart(a, b, src, m);
      PlainSource(a, b, emptied, src);
      ResolvePlain(emptied, src);
      NameLookup(emptied, x, a, src);
    }
  }

  lemma {:induction false} MakeDirsNamed(os: Fates, a: Path, b: Path, x: Path, y: Path, d: Disk, m: Path)
    requires NamedReady(a, b, x, y, d.now) && Under(b, m)
    requires Plain(d.now, m) && (y == b || (m != b && IsDirAt(d.now, b)))
    ensures MakeDirs(os, d, Mirror(b, y, m)) == MakeDirs(os, d, m)
    decreases |m|
  {
    if y == b {
      MirrorSelf(b, m);
    } else {
      var text := Mirror(b, y, m);
      MirrorFacts(b, y, m);
      PlainPrefix(d.now, m, Parent(m));
      MakeDirNamed(os, a, b, x, y, d, m);
      var (d1, first) := MakeDir(os, d, m);
      if first.Missing? {
        assert Parent(m) != b;
        MakeDirsNamed(os, a, b, x, y, d1, Parent(m));
        MakeDirsSafe(os, a, b, d1, Parent(m));
        var (d2, parents) := MakeDirs(os, d1, Parent(m));
        NamedNow(a, b, x, y, d1, d2);
        GrownParent(m, d1.now, d2.now);
        if parents {
          MakeDirNamed(os, a, b, x, y, d2, m);
        }
      }
    }
  }

  /** One `create_dir`, and the test that follows one that has failed. */
  lemma MakeDirNamed(os: Fates, a: Path, b: Path, x: Path, y: Path, d: Disk, m: Path)
    requires NamedReady(a, b, x, y, d.now) && Under(b, m) && m != b && Plain(d.now, m)
    ensures MakeDir(os, d, Mirror(b, y, m)) == MakeDir(os, d, m)
    ensures
      var (e, made) := MakeDir(os, d, m);
      && (!made.Made? ==> e.now == d.now && TestDir(os, e, Mirror(b, y, m)) == TestDir(os, e, m))
      && (made.Missing? ==> m != [] && Parent(m) !in d.now)
  {
    LocatePlain(d.now, m);
    ResolvePlain(d.now, m);
    UnderParent(b, m);
    PlainPrefix(d.now, m, Parent(m));
    NameLookup(d.now, y, b, m);
  }

  /** The destination of a nested or targeted call. */
  lemma TargetNamed(os: Fates, a: Path, b: Path, x: Path, y: Path, d: Disk, src: Path)
    requires NamedReady(a, b, x, y, d.now) && Under(a, src) && src != a && src in d.now && !d.now[src].Symlink?
    ensures
      var (e, ok) := MakeDirs(os, d, Mirror(a, y, src));
      && Reaches(a, b, d, e) && (forall q :: Under(a, q) ==> At(e.now, q) == At(d.now, q))
      && Grown(Mirror(a, b, src), d.now, e.now)
  {
    var m := Mirror(a, b, src);
    MirrorFacts(a, b, src);
    PlainMirror(a, b, d.now, src);
    assert Mirror(b, y, m) == Mirror(a, y, src);
    MakeDirsNamed(os, a, b, x, y, d, m);
    MakeDirsSafe(os, a, b, d, m);
    MadeOutsideSource(a, b, m, d.now, MakeDirs(os, d, m).0.now);
  }

  lemma FinishEntryNamed(
    os: Fates, a: Path, b: Path, x: Path, y: Path, d: Disk, link: bool, src: Path, name: Name, copy: Path)
    requires NamedReady(a, b, x, y, d.now) && Under(a, src) && At(d.now, src) == Some(Dir)
    requires src + [name] in d.now && (d.now[src + [name]].File? || d.now[src + [name]].Dir?)
    requires Under(a, src + [name])
    requires d.now[src + [name]].File? ==> At(d.now, Mirror(a, b, src + [name])) == Some(d.now[src + [name]])
    ensures FinishEntry(os, d, link, Mirror(a, x, src) + [name], copy) == FinishEntry(os, d, link, src + [name], copy)
  {
    var entry := src + [name];
    MirrorChild(a, b, src, name);
    EntryNamed(a, b, x, y, d.now, src, name);
    RemoveEntrySafe(os, a, b, d, entry);
    var (d1, removed) := RemoveEntry(os, d, entry);
    assert RemoveEntry(os, d, Mirror(a, x, src) + [name]) == (d1, removed);
    if removed {
      NamedNow(a, b, x, y, d, d1);
      EntryNamed(a, b, x, y, d1.now, src, name);
    }
  }

  lemma ReplaceRootNamed(os: Fates, a: Path, b: Path, x: Path, y: Path, d: Disk, src: Path, copy: Path)
    requires NamedReady(a, b, x, y, d.now) && Under(a, src) && src != a && At(d.now, src) == Some(Dir)
    ensures ReplaceRoot(os, d, Mirror(a, x, src), copy) == ReplaceRoot(os, d, src, copy)
  {
    UnderParent(a, src);
    assert Parent(src) + [Last(src)] == src;
    ExistingIsPlain(d.now, src);
    SourceNamed(a, b, x, y, d.now, src);
    MirrorChild(a, x, Parent(src), Last(src));
    EntryNamed(a, b, x, y, d.now, Parent(src), Last(src));
    RemoveRootSafe(os, a, b, d, src);
    var (d1, removed) := RemoveRoot(os, d, src);
    assert RemoveRoot(os, d, Mirror(a, x, src)) == (d1, removed);
    if removed {
      NamedNow(a, b, x, y, d, d1);
      EntryNamed(a, b, x, y, d1.now, Parent(src), Last(src));
    }
  }

  // ----- The whole call, its roots given by any names -----

  lemma NamedTarget(a: Path, x: Path, y: Path, isRoot: bool, isMass: bool, src: Path, t: Tree)
    requires SourceAt(a, isRoot, isMass, src, t)
    ensures Under(a, src)
    ensures Mirror(a, x, src) != [] ==>
      Destination(isRoot, isMass, Mirror(a, x, src), Onto(a, y, isRoot, isMass, src)) == Mirror(a, y, src)
  {
    assert a[..|a|] == a;
    MirrorFacts(a, y, src);
    MirrorFacts(a, x, src);
  }

  /** Allowed changes only, confined to below the source and the destination's side; and a nested call on
      a file that returns Ok has copied all of it. */
  lemma {:induction false} MoveDirNamed(
    os: Fates, a: Path, b: Path, x: Path, y: Path, d: Disk, isRoot: bool, isMass: bool, src: Path)
    requires NamedReady(a, b, x, y, d.now) && SourceAt(a, isRoot, isMass, src, d.now) && Under(a, src)
    ensures
      var (e, ok) := MoveDir(os, d, isRoot, isMass, Mirror(a, x, src), Onto(a, y, isRoot, isMass, src));
      && Reaches(a, b, d, e)
      && (forall q :: Under(a, q) && !Under(src, q) ==> At(e.now, q) == At(d.now, q))
      && (!(isRoot && !isMass) ==> At(e.now, src) == At(d.now, src))
      && (ok && !isRoot ==> d.now[src].File? || d.now[src].Dir?)
      && (ok && !isRoot && d.now[src].File? ==> At(e.now, Mirror(a, b, src)) == At(d.now, src))
    decreases Depth(Mirror(a, x, src)), 1
  {
    var text, onto := Mirror(a, x, src), Onto(a, y, isRoot, isMass, src);
    if text == [] {
      ReachesSame(a, b, d, d);
    } else {
      NamedTarget(a, x, y, isRoot, isMass, src, d.now);
      var target := Mirror(a, y, src);
      SourceNamed(a, b, x, y, d.now, src);
      MirrorFacts(a, b, src);
      var (d1, isFile) := TestFile(os, d, text);
      ReachesSame(a, b, d, d1);
      if isFile {
        CopyNamed(os, a, b, x, y, d1, src);
        CopySafe(os, a, b, d1, src);
        ReachesTransitive(a, b, d, d1, Copy(os, d1, text, target).0);
      } else {
        MoveTreeNamed(os, a, b, x, y, d1, isRoot, isMass, src);
        ReachesTransitive(a, b, d, d1, MoveTree(os, d1, isRoot, isMass, text, target).0);
      }
    }
  }

  lemma {:induction false} MoveTreeNamed(
    os: Fates, a: Path, b: Path, x: Path, y: Path, d: Disk, isRoot: bool, isMass: bool, src: Path)
    requires NamedReady(a, b, x, y, d.now) && SourceAt(a, isRoot, isMass, src, d.now) && Under(a, src)
    ensures
      var (e, ok) := MoveTree(os, d, isRoot, isMass, Mirror(a, x, src), Mirror(a, y, src));
      && Reaches(a, b, d, e)
      && (forall q :: Under(a, q) && !Under(src, q) ==> At(e.now, q) == At(d.now, q))
      && (!(isRoot && !isMass) ==> At(e.now, src) == At(d.now, src))
      && (ok ==> At(d.now, src) == Some(Dir))
    decreases Depth(Mirror(a, x, src)), 0
  {
    var text, target := Mirror(a, x, src), Mirror(a, y, src);
    assert Under(src, src);
    var (d2, made) := if AppendsName(isRoot, isMass) then MakeDirs(os, d, target) else (d, true);
    if AppendsName(isRoot, isMass) {
      TargetNamed(os, a, b, x, y, d, src);
    } else {
      ReachesSame(a, b, d, d2);
    }
    NamedNow(a, b, x, y, d, d2);
    SourceNamed(a, b, x, y, d2.now, src);
    var (d3, names) := ReadDir(os, d2, text);
    ReachesSame(a, b, d2, d3);
    ReachesTransitive(a, b, d, d2, d3);
    if made && names.Some? {
      MoveRestNamed(os, a, b, x, y, d3, isRoot, isMass, src, names.value);
      ReachesTransitive(a, b, d, d3, MoveRest(os, d3, isRoot, isMass, text, target, names.value).0);
    }
  }

  lemma {:induction false} MoveRestNamed(
    os: Fates, a: Path, b: Path, x: Path, y: Path, d: Disk, isRoot: bool, isMass: bool, src: Path, names: seq<Name>)
    requires NamedReady(a, b, x, y, d.now) && SourceAt(a, isRoot, isMass, src, d.now) && Under(a, src)
    requires |Mirror(a, x, src)| <= PATH_LIMIT && At(d.now, src) == Some(Dir)
    ensures
      var (e, ok) := MoveRest(os, d, isRoot, isMass, Mirror(a, x, src), Mirror(a, y, src), names);
      && Reaches(a, b, d, e)
      && (forall q :: Under(a, q) && !Under(src, q) ==> At(e.now, q) == At(d.now, q))
      && (!(isRoot && !isMass) ==> At(e.now, src) == At(d.now, src))
    decreases Depth(Mirror(a, x, src)) - 1, |names| + 4
  {
    var text, target := Mirror(a, x, src), Mirror(a, y, src);
    var (d4, ok) := MoveEntries(os, d, isRoot, isMass, text, target, names);
    MoveEntriesNamed(os, a, b, x, y, d, isRoot, isMass, src, names);
    if ok && isRoot && !isMass {
      NamedNow(a, b, x, y, d, d4);
      ReplaceRootNamed(os, a, b, x, y, d4, src, target);
      ReplaceRootSafe(os, a, b, d4, src, target);
      ReachesTransitive(a, b, d, d4, ReplaceRoot(os, d4, text, target).0);
    }
  }

  lemma {:induction false} MoveEntriesNamed(
    os: Fates, a: Path, b: Path, x: Path, y: Path, d: Disk, isRoot: bool, isMass: bool, src: Path, names: seq<Name>)
    requires NamedReady(a, b, x, y, d.now) && Under(a, src) && |Mirror(a, x, src)| <= PATH_LIMIT
    requires At(d.now, src) == Some(Dir) && (isRoot ==> src == a || !isMass)
    ensures
      var (e, ok) := MoveEntries(os, d, isRoot, isMass, Mirror(a, x, src), Mirror(a, y, src), names);
      Reaches(a, b, d, e) && SourceFrame(a, src, d.now, e.now)
    decreases Depth(Mirror(a, x, src)) - 1, |names| + 3
  {
    var text, target := Mirror(a, x, src), Mirror(a, y, src);
    var (d1, next) := Attempt(os, d);
    ReachesSame(a, b, d, d1);
    if next && names != [] {
      var (d2, ok) := MoveEntry(os, d1, isRoot, isMass, text, target, names[0]);
      MoveEntryNamed(os, a, b, x, y, d1, isRoot, isMass, src, names[0]);
      ReachesTransitive(a, b, d, d1, d2);
      EntryFrame(a, src, names[0], d1.now, d2.now);
      if ok {
        NamedNow(a, b, x, y, d, d2);
        var e := MoveEntries(os, d2, isRoot, isMass, text, target, names[1..]).0;
        MoveEntriesNamed(os, a, b, x, y, d2, isRoot, isMass, src, names[1..]);
        ReachesTransitive(a, b, d, d2, e);
      }
    }
  }

  lemma {:induction false} MoveEntryNamed(
    os: Fates, a: Path, b: Path, x: Path, y: Path, d: Disk, isRoot: bool, isMass: bool, src: Path, name: Name)
    requires NamedReady(a, b, x, y, d.now) && Under(a, src) && |Mirror(a, x, src)| <= PATH_LIMIT
    requires At(d.now, src) == Some(Dir) && (isRoot ==> src == a || !isMass)
    ensures
      var (e, ok) := MoveEntry(os, d, isRoot, isMass, Mirror(a, x, src), Mirror(a, y, src), name);
      && Reaches(a, b, d, e)
      && (forall q :: Under(a, q) && !Under(src + [name], q) ==> At(e.now, q) == At(d.now, q))
    decreases Depth(Mirror(a, x, src)) - 1, 2
  {
    var entry, text, target := src + [name], Mirror(a, x, src) + [name], Mirror(a, y, src);
    MirrorChild(a, x, src, name);
    MirrorChild(a, b, src, name);
    EntryNamed(a, b, x, y, d.now, src, name);
    var (d1, meta) := Metadata(os, d, text);
    ReachesSame(a, b, d, d1);
    if meta.Found? && !meta.node.Symlink? {
      var (d2, moved) := MoveDir(os, d1, false, isMass, text, target);
      MoveDirNamed(os, a, b, x, y, d1, false, isMass, entry);
      ReachesTransitive(a, b, d, d1, d2);
      if moved {
        NamedNow(a, b, x, y, d, d2);
        var copy := target + [name];
        FinishEntryNamed(os, a, b, x, y, d2, isRoot && isMass, src, name, copy);
        FinishEntrySafe(os, a, b, d2, isRoot && isMass, src, name, copy);
        ReachesTransitive(a, b, d, d2, FinishEntry(os, d2, isRoot && isMass, text, copy).0);
      }
    }
  }

  // ----- The same for roots given by their own paths -----

  lemma MirrorSelf(a: Path, p: Path)
    requires Under(a, p)
    ensures Mirror(a, a, p) == p
  {
    UnderSplit(a, p);
  }

  /** Where the arguments of a call lie in a move from root `a` to root `b`. */
  ghost predicate Placed(a: Path, b: Path, isRoot: bool, isMass: bool, src: Path, dst: Path, t: Tree) {
    SourceAt(a, isRoot, isMass, src, t) && dst == Onto(a, b, isRoot, isMass, src)
  }

  lemma PlacedTarget(a: Path, b: Path, isRoot: bool, isMass: bool, src: Path, dst: Path, t: Tree)
    requires Placed(a, b, isRoot, isMass, src, dst, t) && src != []
    ensures Under(a, src) && Destination(isRoot, isMass, src, dst) == Mirror(a, b, src)
  {
    assert a[..|a|] == a;
    MirrorFacts(a, b, src);
  }

  lemma MoveDirSafe(os: Fates, a: Path, b: Path, d: Disk, isRoot: bool, isMass: bool, src: Path, dst: Path)
    requires Ready(a, b, d.now) && Placed(a, b, isRoot, isMass, src, dst, d.now)
    ensures
      var (e, ok) := MoveDir(os, d, isRoot, isMass, src, dst);
      && Reaches(a, b, d, e)
      && (forall q :: Under(a, q) && !Under(src, q) ==> At(e.now, q) == At(d.now, q))
      && (!(isRoot && !isMass) ==> At(e.now, src) == At(d.now, src))
      && (ok && !isRoot ==> d.now[src].File? || d.now[src].Dir?)
      && (ok && !isRoot && d.now[src].File? ==> Under(a, src) && At(e.now, Mirror(a, b, src)) == At(d.now, src))
  {
    NamedTarget(a, a, b, isRoot, isMass, src, d.now);
    MirrorSelf(a, src);
    MoveDirNamed(os, a, b, a, b, d, isRoot, isMass, src);
  }

  lemma MoveEntriesSafe(os: Fates, a: Path, b: Path, d: Disk, isRoot: bool, isMass: bool, src: Path, names: seq<Name>)
    requires Ready(a, b, d.now) && Under(a, src) && |src| <= PATH_LIMIT
    requires At(d.now, src) == Some(Dir) && (isRoot ==> src == a || !isMass)
    ensures
      var (e, ok) := MoveEntries(os, d, isRoot, isMass, src, Mirror(a, b, src), names);
      Reaches(a, b, d, e) && SourceFrame(a, src, d.now, e.now)
  {
    MirrorSelf(a, src);
    MoveEntriesNamed(os, a, b, a, b, d, isRoot, isMass, src, names);
  }

  lemma MoveEntrySafe(os: Fates, a: Path, b: Path, d: Disk, isRoot: bool, isMass: bool, src: Path, name: Name)
    requires Ready(a, b, d.now) && Under(a, src) && |src| <= PATH_LIMIT
    requires At(d.now, src) == Some(Dir) && (isRoot ==> src == a || !isMass)
    ensures
      var (e, ok) := MoveEntry(os, d, isRoot, isMass, src, Mirror(a, b, src), name);
      && Reaches(a, b, d, e)
      && (forall q :: Under(a, q) && !Under(src + [name], q) ==> At(e.now, q) == At(d.now, q))
  {
    MirrorSelf(a, src);
    MoveEntryNamed(os, a, b, a, b, d, isRoot, isMass, src, name);
  }

  // ----- No file is lost -----

  /** The file `p` with content `c` is whole at its own path or, once gone from there, at its mirror. */
  ghost predicate Kept(a: Path, b: Path, t: Tree, p: Path, c: Bytes)
    requires Under(a, p)
  {
    || At(t, p) == Some(File(c))
    || (!(p in t && t[p].File?) && At(t, Mirror(a, b, p)) == Some(File(c)))
  }

  lemma PutKept(a: Path, b: Path, t: Tree, e: Effect, p: Path, c: Bytes)
    requires Apart(a, b) && Allowed(a, b, t, e) && e.Put?
    requires Under(a, p) && Kept(a, b, t, p, c)
    ensures Kept(a, b, Apply(a, b, t, e), p, c)
  {
    MirrorFacts(a, b, e.src);
    MirrorFacts(a, b, p);
    MirrorApart(a, b, p, Mirror(a, b, e.src));
    assert Mirror(a, b, e.src) == Mirror(a, b, p) ==> e.src == p;
  }

  lemma StepKept(a: Path, b: Path, t: Tree, e: Effect, p: Path, c: Bytes)
    requires Ready(a, b, t) && Allowed(a, b, t, e)
    requires Under(a, p) && Kept(a, b, t, p, c)
    ensures Kept(a, b, Apply(a, b, t, e), p, c)
  {
    MirrorFacts(a, b, p);
    MirrorApart(a, b, p, Mirror(a, b, p));
    match e
    case Put(src, _) =>
      PutKept(a, b, t, e, p, c);
    case Make(q) =>
      MirrorApart(a, b, p, q);
    case Drop(gone) =>
      MirrorApart(a, b, gone, Mirror(a, b, p));
    case Link(link, _) =>
      MirrorApart(a, b, link, Mirror(a, b, p));
  }

  ghost predicate ReadyAndKept(a: Path, b: Path, t: Tree, p: Path, c: Bytes)
    requires Under(a, p)
  {
    Ready(a, b, t) && Kept(a, b, t, p, c)
  }

  ghost function StaysKept(a: Path, b: Path, p: Path, c: Bytes): Tree -> bool
    requires Under(a, p)
  {
    t => ReadyAndKept(a, b, t, p, c)
  }

  lemma ReachesKept(a: Path, b: Path, d: Disk, e: Disk, p: Path, c: Bytes, i: nat)
    requires Ready(a, b, d.now) && Reaches(a, b, d, e)
    requires Under(a, p) && Kept(a, b, d.now, p, c)
    requires |d.past| <= i <= |e.past|
    ensures Kept(a, b, e.States()[i], p, c)
  {
    var q := StaysKept(a, b, p, c);
    forall t, x | q(t) && Allowed(a, b, t, x) ensures q(Apply(a, b, t, x)) {
      StepReady(a, b, t, x);
      StepKept(a, b, t, x, p, c);
    }
    ReachesInvariant(a, b, d, e, q, i);
    assert q(e.States()[i]);
  }

  /** Whatever fails, in whatever order entries are listed, and by whatever names the roots are given, every
      state a call passes through still holds every file that was below the source root when it began. */
  lemma CallLosesNothing(os: Fates, a: Path, b: Path, x: Path, y: Path, d: Disk, isRoot: bool, isMass: bool, src: Path)
    requires NamedReady(a, b, x, y, d.now) && SourceAt(a, isRoot, isMass, src, d.now) && Under(a, src)
    ensures
      var e := MoveDir(os, d, isRoot, isMass, Mirror(a, x, src), Onto(a, y, isRoot, isMass, src)).0;
      && |d.past| <= |e.past|
      && forall p, i :: Under(a, p) && p in d.now && d.now[p].File? && |d.past| <= i <= |e.past| ==>
           Kept(a, b, e.States()[i], p, d.now[p].content)
  {
    var e := MoveDir(os, d, isRoot, isMass, Mirror(a, x, src), Onto(a, y, isRoot, isMass, src)).0;
    MoveDirNamed(os, a, b, x, y, d, isRoot, isMass, src);
    forall p, i | Under(a, p) && p in d.now && d.now[p].File? && |d.past| <= i <= |e.past|
      ensures Kept(a, b, e.States()[i], p, d.now[p].content)
    {
      ReachesKept(a, b, d, e, p, d.now[p].content, i);
    }
  }
}
