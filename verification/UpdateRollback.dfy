/** Undoing an installation: every recorded replacement is undone, last first, and what could not be
    undone stays on record for the next attempt. */
module UpdateRollback {
  import opened FileSystem
  import opened Host
  import opened DiskStates

  /** A name that was replaced, and where the file that stood there went (None: nothing stood there). */
  datatype Replacement = Replacement(destination: Path, backup: Option<Path>)

  function Undo(os: Fates, d: Disk, r: Replacement): (Disk, bool) {
    match r.backup
    case Some(b) => Rename(os, d, b, r.destination)
    case None =>
      var (d1, removed) := RemoveFile(os, d, r.destination);
      (d1, removed || IsMissing(os, d, r.destination))
  }

  /** One rollback; the second result is what it leaves on record. */
  function Rollback(os: Fates, d: Disk, todo: seq<Replacement>): (Disk, seq<Replacement>)
    decreases |todo|
  {
    if todo == [] then (d, [])
    else
      var k := |todo| - 1;
      var (d1, ok) := Undo(os, d, todo[k]);
      var (e, failed) := Rollback(os, d1, todo[..k]);
      (e, if ok then failed else [todo[k]] + failed)
  }

  lemma RollbackStep(os: Fates, d: Disk, todo: seq<Replacement>, i: nat)
    requires i < |todo|
    ensures
      var (d1, ok) := Undo(os, d, todo[i]);
      var (e, failed) := Rollback(os, d1, todo[..i]);
      Rollback(os, d, todo[..i + 1]) == (e, if ok then failed else [todo[i]] + failed)
  {
    assert todo[..i + 1][..i] == todo[..i] && todo[..i + 1][i] == todo[i];
  }

  /** Rollbacks one after the other, each on what the one before left. */
  function Rollbacks(os: Fates, d: Disk, todo: seq<Replacement>, calls: nat): (Disk, seq<Replacement>)
    decreases calls
  {
    if calls == 0 then (d, todo)
    else
      var (e, left) := Rollbacks(os, d, todo, calls - 1);
      Rollback(os, e, left)
  }

  /** The transaction guard. */
  class InstalledUpdate {
    const server: Path
    var replacements: seq<Replacement>

    constructor (server: Path)
      ensures this.server == server && replacements == []
    {
      this.server := server;
      replacements := [];
    }

    method RollbackInPlace(m: Machine) returns (complete: bool)
      modifies m`disk, this`replacements
      ensures (m.disk, replacements) == Rollback(m.os, old(m.disk), old(replacements))
      ensures complete <==> replacements == []
    {
      var todo := replacements;
      ghost var (end, left) := Rollback(m.os, m.disk, todo);
      replacements := [];
      var i := |todo|;
      assert todo[..i] == todo && [] + left == left;
      while i > 0
        invariant 0 <= i <= |todo|
        invariant Rollback(m.os, m.disk, todo[..i]).0 == end
        invariant replacements + Rollback(m.os, m.disk, todo[..i]).1 == left
      {
        i := i - 1;
        var r := todo[i];
        RollbackStep(m.os, m.disk, todo, i);
        var ok := UndoInPlace(m, r);
        if !ok {
          ghost var failed := Rollback(m.os, m.disk, todo[..i]).1;
          assert replacements + ([r] + failed) == replacements + [r] + failed;
          replacements := replacements + [r];
        }
      }
      assert todo[..0] == [] && replacements + [] == replacements;
      complete := replacements == [];
    }

    /** One renaming back, or one removal of what was new; a name that is gone already is no failure. */
    method UndoInPlace(m: Machine, r: Replacement) returns (ok: bool)
      modifies m`disk
      ensures (m.disk, ok) == Undo(m.os, old(m.disk), r)
    {
      match r.backup {
        case Some(b) =>
          ok := m.Rename(b, r.destination);
        case None =>
          var missing := m.IsMissing(r.destination);
          ok := m.RemoveFile(r.destination);
          ok := ok || missing;
      }
    }
  }

  // ----- The installation directory -----

  ghost predicate Home(t: Tree, dir: Path) {
    WellFormed(t) && At(t, dir) == Some(Dir)
  }

  predicate Child(dir: Path, p: Path) {
    p != [] && Parent(p) == dir
  }

  lemma HomeLocate(t: Tree, dir: Path, p: Path)
    requires Home(t, dir) && Child(dir, p)
    ensures Locate(t, p) == Some(p)
  {
    ExistingIsPlain(t, dir);
    LocatePlain(t, p);
  }

  function Touches(r: Replacement): set<Path> {
    {r.destination} + if r.backup.Some? then {r.backup.value} else {}
  }

  function Touched(todo: seq<Replacement>): set<Path> {
    set r, p | r in todo && p in Touches(r) :: p
  }

  /** Replacements in `dir` that have no path in common. */
  ghost predicate Distinct(dir: Path, todo: seq<Replacement>) {
    && (forall r :: r in todo ==> forall p :: p in Touches(r) ==> Child(dir, p))
    && (forall r :: r in todo ==> r.backup != Some(r.destination))
    && (forall i, j :: 0 <= i < j < |todo| ==> Touches(todo[i]) !! Touches(todo[j]))
  }

  // ----- One replacement -----

  predicate NotDir(t: Tree, p: Path) {
    !(p in t && t[p].Dir?)
  }

  predicate CanUndo(t: Tree, r: Replacement) {
    && NotDir(t, r.destination)
    && (r.backup.Some? ==> r.backup.value in t && !t[r.backup.value].Dir?)
  }

  /** What an undone replacement leaves: the backup back in place, or nothing where nothing stood. */
  predicate Restored(t: Tree, u: Tree, r: Replacement) {
    match r.backup
    case Some(b) => At(u, r.destination) == At(t, b) && b !in u
    case None => r.destination !in u
  }

  ghost predicate Same(t: Tree, u: Tree, r: Replacement) {
    forall p :: p in Touches(r) ==> At(u, p) == At(t, p)
  }

  ghost predicate SameOutside(t: Tree, u: Tree, paths: set<Path>) {
    forall p :: p !in paths ==> At(u, p) == At(t, p)
  }

  lemma UndoExact(os: Fates, dir: Path, d: Disk, r: Replacement)
    requires Home(d.now, dir) && Distinct(dir, [r])
    ensures
      var (e, ok) := Undo(os, d, r);
      && (ok <==> os(d.clock).works && CanUndo(d.now, r))
      && e.clock == d.clock + 1 && OneChange(d, e) && Home(e.now, dir)
      && (if ok then Restored(d.now, e.now, r) else e.now == d.now)
      && SameOutside(d.now, e.now, Touches(r))
  {
    assert r in [r];
    assert forall p :: p in Touches(r) ==> Child(dir, p);
    var (e, ok) := Undo(os, d, r);
    HomeLocate(d.now, dir, r.destination);
    assert r.destination in Touches(r);
    match r.backup
    case Some(b) =>
      assert b in Touches(r);
      HomeLocate(d.now, dir, b);
      LeafChange(d.now, e.now, dir, Touches(r));
    case None =>
      LeafChange(d.now, e.now, dir, Touches(r));
  }

  /** Changing only non-directories of a directory keeps a tree a tree. */
  lemma LeafChange(t: Tree, u: Tree, dir: Path, paths: set<Path>)
    requires Home(t, dir) && SameOutside(t, u, paths)
    requires forall p :: p in paths ==> Child(dir, p) && (At(u, p) == At(t, p) || (NotDir(t, p) && NotDir(u, p)))
    ensures Home(u, dir)
  {
    forall p | p in paths ensures p != [] && p != dir {
      assert Child(dir, p);
    }
    assert At(u, []) == At(t, []) && At(u, dir) == At(t, dir);
    forall p | p in u && p != [] ensures At(u, Parent(p)) == Some(Dir) {
      assert At(u, Parent(p)) == At(t, Parent(p)) || NotDir(t, Parent(p));
      if p !in paths {
        assert At(u, p) == At(t, p);
      }
    }
  }

  // ----- A whole rollback -----

  /** Each replacement of `todo` is either as in `t` or undone, and nothing else has changed. */
  ghost predicate PartlyUndone(t: Tree, u: Tree, todo: seq<Replacement>) {
    && (forall r :: r in todo ==> Same(t, u, r) || Restored(t, u, r))
    && SameOutside(t, u, Touched(todo))
  }

  ghost function UndoneFrom(t: Tree, todo: seq<Replacement>): Tree -> bool {
    u => PartlyUndone(t, u, todo)
  }

  /** What is still on record is as it was, all else is restored, and nothing else has changed. */
  ghost predicate RolledBack(t: Tree, u: Tree, todo: seq<Replacement>, left: seq<Replacement>) {
    && (forall r :: r in left ==> r in todo)
    && (forall r :: r in todo ==> if r in left then Same(t, u, r) else Restored(t, u, r))
    && SameOutside(t, u, Touched(todo))
  }

  ghost predicate Attempted(os: Fates, d: Disk, todo: seq<Replacement>, failed: seq<Replacement>) {
    forall j :: 0 <= j < |todo| ==> (todo[j] in failed <==> !Succeeds(os, d, todo, j))
  }

  /** The attempt at `todo[j]` is the operation number `|todo| - 1 - j` of the rollback. */
  predicate Succeeds(os: Fates, d: Disk, todo: seq<Replacement>, j: nat)
    requires j < |todo|
  {
    os(d.clock + (|todo| - 1 - j)).works && CanUndo(d.now, todo[j])
  }

  lemma LastApart(dir: Path, todo: seq<Replacement>)
    requires todo != [] && Distinct(dir, todo)
    ensures
      var k := |todo| - 1;
      && Distinct(dir, todo[..k]) && Distinct(dir, [todo[k]])
      && Touched(todo) == Touched(todo[..k]) + Touches(todo[k])
      && Touched(todo[..k]) !! Touches(todo[k])
      && todo[k] !in todo[..k]
  {
    var k := |todo| - 1;
    assert todo == todo[..k] + [todo[k]];
    assert todo[k] in todo;
    forall r | r in todo[..k] ensures r in todo && Touches(r) !! Touches(todo[k]) {
    }
    assert todo[k].destination in Touches(todo[k]);
  }

  /** Undoing `r` does not matter to a replacement that shares no path with it. */
  lemma ElsewhereSame(t: Tree, t1: Tree, u: Tree, r: Replacement, q: Replacement)
    requires SameOutside(t, t1, Touches(r)) && Touches(r) !! Touches(q)
    ensures Same(t1, u, q) <==> Same(t, u, q)
    ensures Restored(t1, u, q) <==> Restored(t, u, q)
    ensures CanUndo(t1, q) <==> CanUndo(t, q)
  {
    assert q.destination in Touches(q) && (q.backup.Some? ==> q.backup.value in Touches(q));
    forall p | p in Touches(q) ensures At(t1, p) == At(t, p) {}
  }

  /** Nor does what happens to the others matter to `r` once it has been dealt with. */
  lemma ThereafterSame(t: Tree, t1: Tree, u: Tree, r: Replacement, paths: set<Path>)
    requires SameOutside(t1, u, paths) && paths !! Touches(r)
    ensures Restored(t, t1, r) ==> Restored(t, u, r)
    ensures Same(t, t1, r) ==> Same(t, u, r)
  {
    assert r.destination in Touches(r) && (r.backup.Some? ==> r.backup.value in Touches(r));
    forall p | p in Touches(r) ensures At(u, p) == At(t1, p) {}
  }

  lemma PartlyUndoneStep(dir: Path, t: Tree, t1: Tree, u: Tree, todo: seq<Replacement>)
    requires todo != [] && Distinct(dir, todo)
    requires SameOutside(t, t1, Touches(todo[|todo| - 1]))
    requires t1 == t || Restored(t, t1, todo[|todo| - 1])
    requires PartlyUndone(t1, u, todo[..|todo| - 1])
    ensures PartlyUndone(t, u, todo)
  {
    var k := |todo| - 1;
    LastApart(dir, todo);
    forall r | r in todo ensures Same(t, u, r) || Restored(t, u, r) {
      if r == todo[k] {
        ThereafterSame(t, t1, u, r, Touched(todo[..k]));
      } else {
        assert r in todo[..k];
        ElsewhereSame(t, t1, u, todo[k], r);
      }
    }
  }

  lemma StatesUndoneStep(dir: Path, d: Disk, d1: Disk, e: Disk, todo: seq<Replacement>)
    requires todo != [] && Distinct(dir, todo) && OneChange(d, d1)
    requires SameOutside(d.now, d1.now, Touches(todo[|todo| - 1]))
    requires d1.now == d.now || Restored(d.now, d1.now, todo[|todo| - 1])
    requires Always(d1, e, UndoneFrom(d1.now, todo[..|todo| - 1]))
    ensures Always(d, e, UndoneFrom(d.now, todo))
  {
    forall u | UndoneFrom(d1.now, todo[..|todo| - 1])(u) ensures UndoneFrom(d.now, todo)(u) {
      PartlyUndoneStep(dir, d.now, d1.now, u, todo);
    }
    AlwaysWeaken(d1, e, UndoneFrom(d1.now, todo[..|todo| - 1]), UndoneFrom(d.now, todo));
    assert UndoneFrom(d.now, todo)(d1.now) by {
      assert e.States()[|d1.past|] == e.States()[..|d1.past| + 1][|d1.past|];
    }
    AlwaysOne(d, d1, UndoneFrom(d.now, todo));
    AlwaysThen(d, d1, e, UndoneFrom(d.now, todo));
  }

  /** One rollback attempts every replacement on record, once each; leaves on record exactly those that
      failed, in their old state, and has restored all others; and no state on the way shows anything else. */
  lemma {:induction false} RollbackExact(os: Fates, dir: Path, d: Disk, todo: seq<Replacement>)
    requires Home(d.now, dir) && Distinct(dir, todo)
    ensures
      var (e, failed) := Rollback(os, d, todo);
      && e.clock == d.clock + |todo|
      && Attempted(os, d, todo, failed)
      && RolledBack(d.now, e.now, todo, failed)
      && Always(d, e, UndoneFrom(d.now, todo))
      && Home(e.now, dir) && Distinct(dir, failed)
    decreases |todo|
  {
    if todo == [] {
      assert d.States()[..|d.past| + 1] == d.States();
    } else {
      var k := |todo| - 1;
      var r := todo[k];
      var (d1, ok) := Undo(os, d, r);
      LastApart(dir, todo);
      UndoExact(os, dir, d, r);
      RollbackExact(os, dir, d1, todo[..k]);
      var (e, rest) := Rollback(os, d1, todo[..k]);
      var failed := if ok then rest else [r] + rest;
      AttemptedStep(os, dir, d, d1, todo, rest, failed);
      RolledBackStep(dir, d.now, d1.now, e.now, todo, rest, failed);
      StatesUndoneStep(dir, d, d1, e, todo);
      if !ok {
        DistinctCons(dir, todo, rest);
      }
    }
  }

  lemma AttemptedStep(
    os: Fates, dir: Path, d: Disk, d1: Disk, todo: seq<Replacement>, rest: seq<Replacement>, failed: seq<Replacement>)
    requires todo != [] && Distinct(dir, todo) && d1.clock == d.clock + 1
    requires SameOutside(d.now, d1.now, Touches(todo[|todo| - 1]))
    requires Attempted(os, d1, todo[..|todo| - 1], rest)
    requires forall r :: r in rest ==> r in todo[..|todo| - 1]
    requires failed == if Succeeds(os, d, todo, |todo| - 1) then rest else [todo[|todo| - 1]] + rest
    ensures Attempted(os, d, todo, failed)
  {
    var k := |todo| - 1;
    LastApart(dir, todo);
    forall j | 0 <= j < |todo| ensures todo[j] in failed <==> !Succeeds(os, d, todo, j) {
      if j < k {
        var r := todo[..k][j];
        assert r == todo[j] && r in todo[..k];
        assert todo[j] in failed <==> r in rest;
        assert Succeeds(os, d1, todo[..k], j) == Succeeds(os, d, todo, j) by {
          ElsewhereSame(d.now, d1.now, d1.now, todo[k], r);
        }
      }
    }
  }

  lemma RolledBackStep(
    dir: Path, t: Tree, t1: Tree, u: Tree, todo: seq<Replacement>, rest: seq<Replacement>, failed: seq<Replacement>)
    requires todo != [] && Distinct(dir, todo)
    requires SameOutside(t, t1, Touches(todo[|todo| - 1]))
    requires RolledBack(t1, u, todo[..|todo| - 1], rest)
    requires failed == if t1 == t && todo[|todo| - 1] in failed then [todo[|todo| - 1]] + rest else rest
    requires todo[|todo| - 1] !in failed ==> Restored(t, t1, todo[|todo| - 1])
    ensures RolledBack(t, u, todo, failed)
  {
    var k := |todo| - 1;
    LastApart(dir, todo);
    assert todo == todo[..k] + [todo[k]];
    forall r | r in todo ensures if r in failed then Same(t, u, r) else Restored(t, u, r) {
      if r == todo[k] {
        ThereafterSame(t, t1, u, r, Touched(todo[..k]));
      } else {
        ElsewhereSame(t, t1, u, todo[k], r);
      }
    }
  }

  lemma DistinctCons(dir: Path, todo: seq<Replacement>, rest: seq<Replacement>)
    requires todo != [] && Distinct(dir, todo) && Distinct(dir, rest)
    requires forall r :: r in rest ==> r in todo[..|todo| - 1]
    ensures Distinct(dir, [todo[|todo| - 1]] + rest)
  {
    var last := todo[|todo| - 1];
    var all := [last] + rest;
    forall i, j | 0 <= i < j < |all| ensures Touches(all[i]) !! Touches(all[j]) {
      assert all[j] == rest[j - 1] && rest[j - 1] in rest;
      if i > 0 {
        assert all[i] == rest[i - 1];
      } else {
        var m :| 0 <= m < |todo| - 1 && todo[..|todo| - 1][m] == all[j];
        assert todo[m] == all[j];
      }
    }
  }

  // ----- Any number of rollbacks -----

  lemma {:induction false} RollbacksHold(os: Fates, dir: Path, d: Disk, todo: seq<Replacement>, calls: nat)
    requires Home(d.now, dir) && Distinct(dir, todo)
    ensures
      var (e, left) := Rollbacks(os, d, todo, calls);
      Home(e.now, dir) && Distinct(dir, left) && RolledBack(d.now, e.now, todo, left)
    decreases calls
  {
    if calls > 0 {
      var (c, before) := Rollbacks(os, d, todo, calls - 1);
      RollbacksHold(os, dir, d, todo, calls - 1);
      RollbackExact(os, dir, c, before);
      var (e, left) := Rollback(os, c, before);
      RollbacksStep(dir, d.now, c.now, e.now, todo, before, left);
    }
  }

  /** However many rollbacks there have been, each replacement is still on record and as it was, or off
      record and restored; and another rollback leaves every restored destination alone in all its states. */
  lemma RollbacksExact(os: Fates, dir: Path, d: Disk, todo: seq<Replacement>, calls: nat)
    requires Home(d.now, dir) && Distinct(dir, todo)
    ensures
      var (e, left) := Rollbacks(os, d, todo, calls);
      var f := Rollback(os, e, left).0;
      && Home(e.now, dir) && Distinct(dir, left) && RolledBack(d.now, e.now, todo, left)
      && |e.past| <= |f.past|
      && (forall r, i :: r in todo && r !in left && |e.past| <= i <= |f.past| ==>
            At(f.States()[i], r.destination) == At(e.now, r.destination))
      && (left == [] ==> f == e)
  {
    RollbacksHold(os, dir, d, todo, calls);
    var (e, left) := Rollbacks(os, d, todo, calls);
    RestoredLeftAlone(os, dir, e, todo, left);
  }

  lemma RestoredLeftAlone(os: Fates, dir: Path, e: Disk, todo: seq<Replacement>, left: seq<Replacement>)
    requires Home(e.now, dir) && Distinct(dir, todo) && Distinct(dir, left) && (forall r :: r in left ==> r in todo)
    ensures
      var f := Rollback(os, e, left).0;
      && |e.past| <= |f.past|
      && (forall r, i :: r in todo && r !in left && |e.past| <= i <= |f.past| ==>
            At(f.States()[i], r.destination) == At(e.now, r.destination))
  {
    RollbackExact(os, dir, e, left);
    var f := Rollback(os, e, left).0;
    forall r, i | r in todo && r !in left && |e.past| <= i <= |f.past|
      ensures At(f.States()[i], r.destination) == At(e.now, r.destination)
    {
      OffRecord(dir, todo, left, r);
      assert UndoneFrom(e.now, left)(f.States()[i]);
      assert r.destination in Touches(r);
    }
  }

  /** What is off record shares no path with what is on it. */
  lemma OffRecord(dir: Path, todo: seq<Replacement>, left: seq<Replacement>, r: Replacement)
    requires Distinct(dir, todo) && (forall q :: q in left ==> q in todo) && r in todo && r !in left
    ensures Touches(r) !! Touched(left)
  {
    forall q | q in left ensures Touches(r) !! Touches(q) {
      var i :| 0 <= i < |todo| && todo[i] == r;
      var j :| 0 <= j < |todo| && todo[j] == q;
      assert i != j;
    }
  }

  lemma RollbacksStep(
    dir: Path, t: Tree, t1: Tree, u: Tree, todo: seq<Replacement>, before: seq<Replacement>, left: seq<Replacement>)
    requires Distinct(dir, todo) && RolledBack(t, t1, todo, before) && RolledBack(t1, u, before, left)
    ensures RolledBack(t, u, todo, left)
  {
    forall r | r in todo ensures if r in left then Same(t, u, r) else Restored(t, u, r) {
      assert r.destination in Touches(r) && (r.backup.Some? ==> r.backup.value in Touches(r));
      if r !in before {
        OffRecord(dir, todo, before, r);
        ThereafterSame(t, t1, u, r, Touched(before));
      }
    }
    forall p | p !in Touched(todo) ensures At(u, p) == At(t, p) {
      assert p !in Touched(before);
    }
  }
}
