/** Statements about every state a disk passes through, and what a recursive removal passes through. */
module DiskStates {
  import opened FileSystem

  /** `e` follows `d` by at most one change. */
  predicate OneChange(d: Disk, e: Disk) {
    (e.past == d.past && e.now == d.now) || e.past == d.past + [d.now]
  }

  /** Every state on the way from `d` to `e`, both included, satisfies `p`. */
  ghost predicate Always(d: Disk, e: Disk, p: Tree -> bool) {
    && |d.past| <= |e.past|
    && e.States()[..|d.past| + 1] == d.States()
    && forall i :: |d.past| <= i <= |e.past| ==> p(e.States()[i])
  }

  lemma AlwaysOne(d: Disk, e: Disk, p: Tree -> bool)
    requires OneChange(d, e) && p(d.now) && p(e.now)
    ensures Always(d, e, p)
  {
  }

  lemma AlwaysThen(d: Disk, e: Disk, f: Disk, p: Tree -> bool)
    requires Always(d, e, p) && Always(e, f, p)
    ensures Always(d, f, p)
  {
    assert f.States()[..|e.past| + 1][..|d.past| + 1] == f.States()[..|d.past| + 1];
    forall i | |d.past| <= i < |e.past| ensures p(f.States()[i]) {
      assert f.States()[i] == f.States()[..|e.past| + 1][i];
    }
  }

  lemma AlwaysWeaken(d: Disk, e: Disk, p: Tree -> bool, q: Tree -> bool)
    requires Always(d, e, p) && forall u :: p(u) ==> q(u)
    ensures Always(d, e, q)
  {
  }

  lemma AlwaysEnds(d: Disk, e: Disk, p: Tree -> bool)
    requires Always(d, e, p)
    ensures p(e.now)
  {
    assert e.States()[|e.past|] == e.now;
  }

  /** A disk that has seen some more calls that change nothing. */
  lemma AlwaysTicked(d: Disk, e: Disk, f: Disk, p: Tree -> bool)
    requires Always(d, e, p) && f.past == e.past && f.now == e.now
    ensures Always(d, f, p)
  {
    assert f.States() == e.States();
  }

  lemma AlwaysFrom(d: Disk, c: Disk, e: Disk, p: Tree -> bool)
    requires Always(c, e, p) && c.past == d.past && c.now == d.now
    ensures Always(d, e, p)
  {
    assert c.States() == d.States();
  }

  // ----- A recursive removal -----

  ghost predicate SameBeyond(t: Tree, u: Tree, staging: Path) {
    forall p :: !Under(staging, p) ==> At(u, p) == At(t, p)
  }

  ghost function OutsideSame(t: Tree, staging: Path): Tree -> bool {
    u => SameBeyond(t, u, staging)
  }

  lemma PurgeStates(t: Tree, staging: Path, victims: set<Path>)
    requires WellFormed(t) && staging != []
    ensures WellFormed(t - Removed(t, staging, victims)) && WellFormed(t - Subtree(t, staging))
    ensures OutsideSame(t, staging)(t - Removed(t, staging, victims))
    ensures OutsideSame(t, staging)(t - Subtree(t, staging))
  {
    var u, v := t - Removed(t, staging, victims), t - Subtree(t, staging);
    forall p | p in t && p != [] && Under(staging, Parent(p))
      ensures Under(staging, p) && (Parent(p) in Removed(t, staging, victims) ==> p in Removed(t, staging, victims))
    {
      assert Under(Parent(p), p);
      UnderTransitive(staging, Parent(p), p);
      forall q | q in Subtree(t, p) ensures q in Subtree(t, Parent(p)) {
        UnderTransitive(Parent(p), p, q);
      }
    }
    assert [] !in Removed(t, staging, victims) && [] !in Subtree(t, staging);
  }
}
