/** Pairs of a source and a destination root, and what a change made for one pair means for another. */
module MovePairs {
  import opened FileSystem
  import opened MoverSafety

  datatype Pair = Pair(src: Path, dst: Path)

  predicate Separate(x: Pair, y: Pair) {
    Apart(x.src, y.src) && Apart(x.src, y.dst) && Apart(x.dst, y.src) && Apart(x.dst, y.dst)
  }

  /** At or below one of the two roots. */
  predicate Inside(x: Pair, q: Path) {
    Under(x.src, q) || Under(x.dst, q)
  }

  // ----- What one pair's move means for another pair -----

  /** A change made for pair `x` leaves both sides of a separate pair alone. */
  lemma StepElsewhere(x: Pair, y: Pair, t: Tree, e: Effect, q: Path)
    requires Separate(x, y) && Allowed(x.src, x.dst, t, e)
    ensures Under(y.src, q) || Under(y.dst, q) ==> At(Apply(x.src, x.dst, t, e), q) == At(t, q)
    ensures
      Under(q, y.src) || Under(q, y.dst) ==>
        At(Apply(x.src, x.dst, t, e), q) == At(t, q) || At(Apply(x.src, x.dst, t, e), q) == Some(Dir)
  {
    if e.Put? { MirrorFacts(x.src, x.dst, e.src); }
    forall root | root == y.src || root == y.dst
      ensures Under(root, q) ==> !Under(x.src, q) && !Under(x.dst, q) && !Under(q, x.dst)
      ensures Under(q, root) ==> !Under(x.src, q) && !Under(x.dst, q)
    {
      if Under(root, q) {
        if Under(x.src, q) { UnderBoth(root, x.src, q); }
        if Under(x.dst, q) { UnderBoth(root, x.dst, q); }
        if Under(q, x.dst) { UnderTransitive(root, q, x.dst); }
      }
      if Under(q, root) {
        if Under(x.src, q) { UnderTransitive(x.src, q, root); }
        if Under(x.dst, q) { UnderTransitive(x.dst, q, root); }
      }
    }
  }

  lemma StepReadyOther(x: Pair, y: Pair, t: Tree, e: Effect)
    requires Separate(x, y) && Ready(x.src, x.dst, t) && Allowed(x.src, x.dst, t, e)
    requires Ready(y.src, y.dst, t)
    ensures Ready(y.src, y.dst, Apply(x.src, x.dst, t, e))
  {
    var u := Apply(x.src, x.dst, t, e);
    StepWellFormed(x.src, x.dst, t, e);
    forall q
      ensures Under(y.src, q) || Under(y.dst, q) ==> At(u, q) == At(t, q)
      ensures Under(q, y.src) || Under(q, y.dst) ==> At(u, q) == At(t, q) || At(u, q) == Some(Dir)
    {
      StepElsewhere(x, y, t, e, q);
    }
    forall k | 0 <= k <= |y.src| ensures !IsLink(u, y.src[..k]) {
      assert Under(y.src[..k], y.src);
    }
    forall k | 0 <= k <= |y.dst| ensures !IsLink(u, y.dst[..k]) {
      assert Under(y.dst[..k], y.dst);
    }
    forall q | q in u && Under(y.src, q) && !u[q].Symlink? ensures !IsLink(u, Mirror(y.src, y.dst, q)) {
      MirrorFacts(y.src, y.dst, q);
    }
  }

  lemma StepKeptOther(x: Pair, y: Pair, t: Tree, e: Effect, p: Path, c: Bytes)
    requires Separate(x, y) && Allowed(x.src, x.dst, t, e)
    requires Under(y.src, p) && Kept(y.src, y.dst, t, p, c)
    ensures Kept(y.src, y.dst, Apply(x.src, x.dst, t, e), p, c)
  {
    MirrorFacts(y.src, y.dst, p);
    StepElsewhere(x, y, t, e, p);
    StepElsewhere(x, y, t, e, Mirror(y.src, y.dst, p));
  }

  /** A name of one of `y`'s roots stays one. */
  lemma StepKeepsNameOther(x: Pair, y: Pair, t: Tree, e: Effect, name: Path, root: Path)
    requires Separate(x, y) && Ready(x.src, x.dst, t) && Ready(y.src, y.dst, t) && Allowed(x.src, x.dst, t, e)
    requires Names(t, name, root) && (root == y.src || root == y.dst)
    ensures Names(Apply(x.src, x.dst, t, e), name, root)
  {
    var u := Apply(x.src, x.dst, t, e);
    if name == root && Plain(t, root) {
      StepReadyOther(x, y, t, e);
    } else {
      forall p | p in t ensures if t[p].Symlink? then At(u, p) == At(t, p) else !IsLink(u, p) {
        StepKeepsNodes(x.src, x.dst, t, e, p);
      }
      assert Under(root, root);
      StepElsewhere(x, y, t, e, root);
      WalkKept(t, u, [], name, LINK_LIMIT, root);
    }
  }

  /** Outside its roots a move makes missing directories on the way to its destination, and nothing else. */
  ghost predicate GrewAt(x: Pair, t: Tree, u: Tree, q: Path) {
    At(u, q) == At(t, q) || (At(t, q) == None && At(u, q) == Some(Dir) && Under(q, x.dst))
  }

  lemma StepGrows(x: Pair, t: Tree, e: Effect, q: Path)
    requires Apart(x.src, x.dst) && Allowed(x.src, x.dst, t, e) && !Inside(x, q)
    ensures GrewAt(x, t, Apply(x.src, x.dst, t, e), q)
  {
    if e.Put? {
      MirrorFacts(x.src, x.dst, e.src);
    }
  }
}
