/** What an installation leaves on the disk, whatever fails and wherever it is cut off. */
module UpdateSafety {
  import opened FileSystem
  import opened DiskStates
  import opened UpdateRollback
  import opened UpdateInstall

  // ----- The paths an installation works on -----

  function Slot(dir: Path, n: Name): set<Path> {
    {dir + [n], dir + [Backup(n)]}
  }

  function Slots(dir: Path, names: seq<Name>): set<Path> {
    set n, p | n in names && p in Slot(dir, n) :: p
  }

  function Footprint(dir: Path, staging: Path, n: Name): set<Path> {
    Slot(dir, n) + {staging + [n]}
  }

  function Footprints(dir: Path, staging: Path, names: seq<Name>): set<Path> {
    set n, p | n in names && p in Footprint(dir, staging, n) :: p
  }

  /** Names that do not collide with each other's backups, nor the staging directory with any. */
  ghost predicate Separate(dir: Path, staging: Path, names: seq<Name>) {
    && Child(dir, staging)
    && (forall n :: n in names ==> staging !in Slot(dir, n))
    && (forall i, j :: 0 <= i < j < |names| ==> names[i] != names[j])
    && (forall m, n :: m in names && n in names ==> m != Backup(n))
  }

  /** A directory with the staged binaries beside whatever is installed. */
  ghost predicate Site(t: Tree, dir: Path, staging: Path, names: seq<Name>) {
    && Home(t, dir) && Separate(dir, staging, names) && At(t, staging) == Some(Dir)
    && forall n :: n in names ==> staging + [n] in t && t[staging + [n]].File?
  }

  lemma BinariesSeparate(dir: Path, staging: Path)
    requires Child(dir, staging) && staging !in Slots(dir, BINARIES)
    ensures Separate(dir, staging, BINARIES)
  {
    assert |BINARIES[0]| == 13 && |BINARIES[1]| == 7;
    forall n | n in BINARIES ensures staging !in Slot(dir, n) {
      assert forall p :: p in Slot(dir, n) ==> p in Slots(dir, BINARIES);
    }
  }

  lemma FootprintsApart(dir: Path, staging: Path, m: Name, n: Name)
    requires Child(dir, staging) && m != n && m != Backup(n) && n != Backup(m)
    ensures Footprint(dir, staging, m) !! Footprint(dir, staging, n)
  {
    assert Backup(m)[..|m|] == m && Backup(n)[..|n|] == n;
    assert Backup(m) != Backup(n);
    SameChild(dir, m, n);
    SameChild(dir, m, Backup(n));
    SameChild(dir, Backup(m), n);
    SameChild(dir, Backup(m), Backup(n));
    SameChild(staging, m, n);
  }

  lemma SameChild(dir: Path, m: Name, n: Name)
    ensures dir + [m] == dir + [n] <==> m == n
  {
    assert (dir + [m])[|dir|] == m && (dir + [n])[|dir|] == n;
  }

  lemma HeadApart(dir: Path, staging: Path, names: seq<Name>, n: Name)
    requires names != [] && Separate(dir, staging, names) && n in names[1..]
    ensures n in names && n != names[0] && Footprint(dir, staging, names[0]) !! Footprint(dir, staging, n)
  {
    var i :| 0 <= i < |names| - 1 && names[1..][i] == n;
    assert names[i + 1] == n && names[0] in names && n in names;
    assert n != names[0] && names[0] != Backup(n) && n != Backup(names[0]);
    FootprintsApart(dir, staging, names[0], n);
  }

  lemma FootprintsCons(dir: Path, staging: Path, names: seq<Name>)
    requires names != []
    ensures Footprints(dir, staging, names) == Footprint(dir, staging, names[0]) + Footprints(dir, staging, names[1..])
  {
    assert names == [names[0]] + names[1..];
  }

  lemma TailSeparate(dir: Path, staging: Path, names: seq<Name>)
    requires names != [] && Separate(dir, staging, names)
    ensures Separate(dir, staging, names[1..]) && names[0] !in names[1..]
    ensures Footprints(dir, staging, names) == Footprint(dir, staging, names[0]) + Footprints(dir, staging, names[1..])
    ensures forall n :: n in names[1..] ==> Footprint(dir, staging, names[0]) !! Footprint(dir, staging, n)
    ensures Footprint(dir, staging, names[0]) !! Footprints(dir, staging, names[1..])
  {
    FootprintsCons(dir, staging, names);
    forall n | n in names[1..]
      ensures n in names && n != names[0] && Footprint(dir, staging, names[0]) !! Footprint(dir, staging, n)
    {
      HeadApart(dir, staging, names, n);
    }
  }

  // ----- One binary at a time -----

  /** How the record and the disk go together for binary `n`; `t` is the disk before the installation and
      `overlooked` says that its presence went unnoticed. */
  ghost predicate Consistent(
    t: Tree, u: Tree, dir: Path, staging: Path, n: Name, log: seq<Replacement>, overlooked: bool)
  {
    ConsistentAt(t, u, dir + [n], dir + [Backup(n)], staging + [n], log, overlooked)
  }

  ghost predicate ConsistentAt(t: Tree, u: Tree, d: Path, b: Path, x: Path, log: seq<Replacement>, overlooked: bool) {
    if Replacement(d, Some(b)) in log then
      !overlooked && d in t && At(u, b) == At(t, d) && (d !in u || At(u, d) == At(t, x))
    else if Replacement(d, None) in log then
      At(u, b) == At(t, b) && (At(u, d) == At(t, d) || At(u, d) == At(t, x)) && (d in t <==> overlooked)
    else
      !overlooked && At(u, d) == At(t, d) && (At(u, b) == At(t, b) || (d in t && b !in u))
  }

  /** The original of binary `n` is whole, at its name or as the backup. */
  ghost predicate Whole(t: Tree, u: Tree, dir: Path, staging: Path, n: Name) {
    WholeAt(t, u, dir + [n], dir + [Backup(n)], staging + [n])
  }

  ghost predicate WholeAt(t: Tree, u: Tree, d: Path, b: Path, x: Path) {
    d in t ==>
      || (At(u, d) == At(t, d) && (At(u, b) == At(t, b) || b !in u))
      || (At(u, b) == At(t, d) && (d !in u || At(u, d) == At(t, x)))
  }

  ghost function WholeIn(t: Tree, dir: Path, staging: Path, n: Name): Tree -> bool {
    u => Whole(t, u, dir, staging, n)
  }

  ghost function OnlyChanged(t: Tree, paths: set<Path>): Tree -> bool {
    u => SameOutside(t, u, paths)
  }

  lemma ConsistentWhole(t: Tree, u: Tree, dir: Path, staging: Path, n: Name, log: seq<Replacement>)
    requires Consistent(t, u, dir, staging, n, log, false)
    ensures WholeIn(t, dir, staging, n)(u)
  {
  }

  ghost predicate Renamed(t: Tree, u: Tree, src: Path, dst: Path, ok: bool) {
    && SameOutside(t, u, {src, dst})
    && if ok then At(u, dst) == At(t, src) && src !in u else u == t
  }

  lemma RenameLocated(t: Tree, p: Path)
    requires WellFormed(t) && p != [] && IsDirAt(t, Parent(p))
    ensures Locate(t, p) == Some(p)
  {
    ExistingIsPlain(t, Parent(p));
    LocatePlain(t, p);
  }

  /** A non-directory that changes its name leaves a tree. */
  lemma RenameWellFormed(t: Tree, src: Path, dst: Path)
    requires WellFormed(t) && src in t && !t[src].Dir? && src != dst
    requires dst != [] && IsDirAt(t, Parent(dst)) && NotDir(t, dst)
    ensures WellFormed((t - {src})[dst := t[src]])
  {
    var u := (t - {src})[dst := t[src]];
    forall p | p in u && p != [] ensures At(u, Parent(p)) == Some(Dir) {
      assert At(t, Parent(p)) == Some(Dir);
    }
  }

  lemma RenameExact(os: Fates, d: Disk, src: Path, dst: Path)
    requires WellFormed(d.now) && src != [] && dst != [] && src != dst
    requires IsDirAt(d.now, Parent(src)) && IsDirAt(d.now, Parent(dst))
    requires NotDir(d.now, src) && NotDir(d.now, dst)
    ensures
      var (e, ok) := Rename(os, d, src, dst);
      && (ok <==> os(d.clock).works && src in d.now)
      && OneChange(d, e) && e.clock == d.clock + 1
      && WellFormed(e.now) && Renamed(d.now, e.now, src, dst, ok)
  {
    RenameLocated(d.now, src);
    RenameLocated(d.now, dst);
    if os(d.clock).works && src in d.now {
      RenameWellFormed(d.now, src, dst);
    }
  }

  /** What the checks have established about a name that is to be replaced. */
  predicate Regular(t: Tree, dir: Path, n: Name) {
    && (dir + [n] in t ==> t[dir + [n]].File?)
    && (dir + [Backup(n)] in t ==> t[dir + [Backup(n)]].File?)
  }

  /** `exists()` on a name that is taken failed, and so said no. */
  predicate Overlooks(os: Fates, d: Disk, dir: Path, n: Name) {
    dir + [n] in d.now && !os(d.clock).works
  }

  /** What the first half leaves. */
  ghost predicate SavedAs(t: Tree, u: Tree, destination: Path, backup: Path, saved: bool) {
    && SameOutside(t, u, {destination, backup})
    && if saved then destination in t && At(u, backup) == At(t, destination) && destination !in u else u == t
  }

  /** The first half of a replacement: the old binary, if it is seen, becomes the backup. */
  lemma SaveOld(os: Fates, dir: Path, staging: Path, d: Disk, n: Name)
    requires Site(d.now, dir, staging, [n]) && Regular(d.now, dir, n)
    ensures
      var t, destination, backup := d.now, dir + [n], dir + [Backup(n)];
      var (d1, present) := TestExists(os, d, destination);
      var (d2, saved) := if present then Rename(os, d1, destination, backup) else (d1, true);
      && (present <==> destination in t && !Overlooks(os, d, dir, n))
      && SavedAs(t, d2.now, destination, backup, present && saved)
      && WellFormed(d2.now) && OneChange(d, d2)
      && d2.clock == d.clock + (if present then 2 else 1)
      && (saved <==> present ==> os(d.clock + 1).works)
  {
    var destination, backup := dir + [n], dir + [Backup(n)];
    SameChild(dir, n, Backup(n));
    assert Parent(destination) == dir == Parent(backup);
    assert Stat(d.now, destination) == At(d.now, destination) by { StatChild(d.now, dir, destination); }
    var (d1, present) := TestExists(os, d, destination);
    if present {
      RenameExact(os, d1, destination, backup);
    }
  }

  /** What is in a directory, and no link, is found there. */
  lemma StatChild(t: Tree, dir: Path, p: Path)
    requires Home(t, dir) && Child(dir, p) && (p in t ==> !t[p].Symlink?)
    ensures Stat(t, p) == At(t, p)
  {
    if p in t {
      ExistingIsPlain(t, p);
      ResolvePlain(t, p);
    } else {
      ExistingIsPlain(t, dir);
      WalkPlainAbsent(t, p);
    }
  }

  lemma WalkPlainAbsent(t: Tree, p: Path)
    requires p != [] && Plain(t, Parent(p)) && p !in t
    ensures Resolve(t, p) == Some(p)
  {
    forall k | 0 <= k <= |p| ensures !(p[..k] in t && t[p[..k]].Symlink?) {
      if k < |p| {
        assert p[..k] == Parent(p)[..k];
      } else {
        assert p[..k] == p;
      }
    }
    ResolvePlain(t, p);
  }

  /** The second half: the new binary comes in. */
  lemma BringNew(t: Tree, t1: Tree, u: Tree, destination: Path, backup: Path, staged: Path, saved: bool, ok: bool)
    requires destination != backup && staged != destination && staged != backup
    requires SavedAs(t, t1, destination, backup, saved) && Renamed(t1, u, staged, destination, ok)
    ensures
      var log := [Replacement(destination, if saved then Some(backup) else None)];
      && SameOutside(t, u, {destination, backup, staged})
      && ConsistentAt(t, u, destination, backup, staged, log, destination in t && !saved)
      && (ok ==> At(u, destination) == At(t, staged))
  {
    assert At(t1, staged) == At(t, staged);
  }

  lemma SlotPaths(dir: Path, staging: Path, n: Name)
    requires Child(dir, staging) && staging !in Slot(dir, n)
    ensures Parent(staging + [n]) == staging && Parent(dir + [n]) == dir
    ensures dir !in Slot(dir, n) && staging + [n] !in Slot(dir, n) && staging + [n] != dir + [n]
  {
    var destination, backup, staged := dir + [n], dir + [Backup(n)], staging + [n];
    assert |staged| == |dir| + 2 && |destination| == |backup| == |dir| + 1;
  }

  lemma StillInPlace(t: Tree, u: Tree, dir: Path, staging: Path, n: Name, saved: bool)
    requires Site(t, dir, staging, [n]) && Regular(t, dir, n)
    requires SavedAs(t, u, dir + [n], dir + [Backup(n)], saved)
    ensures
      var destination, staged := dir + [n], staging + [n];
      && Parent(staged) == staging && Parent(destination) == dir && staged != destination
      && IsDirAt(u, dir) && IsDirAt(u, staging) && NotDir(u, staged) && NotDir(u, destination)
      && At(u, staged) == At(t, staged)
  {
    assert n in [n];
    SlotPaths(dir, staging, n);
    assert SameOutside(t, u, Slot(dir, n));
    assert At(u, dir) == At(t, dir);
    assert At(u, staging) == At(t, staging);
    assert At(u, staging + [n]) == At(t, staging + [n]);
  }

  /** A replacement in two renames, with the state between them. */
  lemma ReplaceOneSteps(os: Fates, dir: Path, staging: Path, d: Disk, n: Name) returns (d2: Disk, present: bool)
    requires Site(d.now, dir, staging, [n]) && Regular(d.now, dir, n)
    ensures
      var (e, ok, log) := ReplaceOne(os, d, dir, staging, n);
      && OneChange(d, d2) && OneChange(d2, e) && WellFormed(e.now)
      && (present ==> dir + [n] in d.now && !Overlooks(os, d, dir, n))
      && (log == [] ==> !ok && d2 == e && d2.now == d.now && !Overlooks(os, d, dir, n))
      && (log != [] ==>
           && log == [Replacement(dir + [n], if present then Some(dir + [Backup(n)]) else None)]
           && SavedAs(d.now, d2.now, dir + [n], dir + [Backup(n)], present)
           && Renamed(d2.now, e.now, staging + [n], dir + [n], ok)
           && (!present ==> (dir + [n] in d.now <==> Overlooks(os, d, dir, n))))
  {
    assert n in [n];
    var destination, staged := dir + [n], staging + [n];
    SaveOld(os, dir, staging, d, n);
    var (d1, seen) := TestExists(os, d, destination);
    present := seen;
    var (d2', saved) := if present then Rename(os, d1, destination, dir + [Backup(n)]) else (d1, true);
    d2 := d2';
    if saved {
      StillInPlace(d.now, d2.now, dir, staging, n, present);
      RenameExact(os, d2, staged, destination);
    }
  }

  lemma ReplaceOneTracks(os: Fates, dir: Path, staging: Path, d: Disk, n: Name)
    requires Site(d.now, dir, staging, [n]) && Regular(d.now, dir, n)
    ensures
      var (e, ok, log) := ReplaceOne(os, d, dir, staging, n);
      && Consistent(d.now, e.now, dir, staging, n, log, Overlooks(os, d, dir, n))
      && (ok ==> log != [] && At(e.now, dir + [n]) == At(d.now, staging + [n]))
      && LogOf(dir, [n], log) && |log| <= 1
      && Home(e.now, dir) && At(e.now, staging) == Some(Dir)
      && Always(d, e, OnlyChanged(d.now, Footprint(dir, staging, n)))
      && (!Overlooks(os, d, dir, n) ==> Always(d, e, WholeIn(d.now, dir, staging, n)))
  {
    var (e, ok, log) := ReplaceOne(os, d, dir, staging, n);
    var d2, present := ReplaceOneSteps(os, dir, staging, d, n);
    ReplaceOneStates(dir, staging, d, d2, e, n, log, present, Overlooks(os, d, dir, n), ok);
  }

  lemma ReplaceOneStates(
    dir: Path, staging: Path, d: Disk, d2: Disk, e: Disk, n: Name, log: seq<Replacement>, present: bool,
    overlooked: bool, ok: bool)
    requires Site(d.now, dir, staging, [n]) && Regular(d.now, dir, n)
    requires OneChange(d, d2) && OneChange(d2, e) && WellFormed(e.now)
    requires log == [] ==> !ok && d2 == e && d2.now == d.now && !overlooked
    requires log != [] ==>
      && log == [Replacement(dir + [n], if present then Some(dir + [Backup(n)]) else None)]
      && SavedAs(d.now, d2.now, dir + [n], dir + [Backup(n)], present)
      && Renamed(d2.now, e.now, staging + [n], dir + [n], ok)
      && (overlooked <==> dir + [n] in d.now && !present)
    ensures Consistent(d.now, e.now, dir, staging, n, log, overlooked)
    ensures ok ==> log != [] && At(e.now, dir + [n]) == At(d.now, staging + [n])
    ensures LogOf(dir, [n], log) && |log| <= 1
    ensures Home(e.now, dir) && At(e.now, staging) == Some(Dir)
    ensures Always(d, e, OnlyChanged(d.now, Footprint(dir, staging, n)))
    ensures !overlooked ==> Always(d, e, WholeIn(d.now, dir, staging, n))
  {
    assert n in [n];
    var t, destination, backup, staged := d.now, dir + [n], dir + [Backup(n)], staging + [n];
    assert |staged| > |destination| == |backup| > |dir|;
    SameChild(dir, n, Backup(n));
    var p, q := OnlyChanged(t, Footprint(dir, staging, n)), WholeIn(t, dir, staging, n);
    if log != [] {
      BringNew(t, d2.now, e.now, destination, backup, staged, present, ok);
      assert RecordOf(dir, n, log[0]);
    }
    assert p(d2.now) && p(e.now) && (!overlooked ==> q(d2.now) && q(e.now));
    AlwaysOne(d, d2, p);
    AlwaysOne(d2, e, p);
    AlwaysThen(d, d2, e, p);
    if !overlooked {
      AlwaysOne(d, d2, q);
      AlwaysOne(d2, e, q);
      AlwaysThen(d, d2, e, q);
    }
  }

  /** The records of replacements of `names`. */
  ghost predicate LogOf(dir: Path, names: seq<Name>, log: seq<Replacement>) {
    forall r :: r in log ==> exists n :: n in names && RecordOf(dir, n, r)
  }

  predicate RecordOf(dir: Path, n: Name, r: Replacement) {
    r.destination == dir + [n] && (r.backup.Some? ==> r.backup.value == dir + [Backup(n)])
  }

  // ----- All binaries -----

  /** The binaries whose presence goes unnoticed in this run. */
  function Overlooked(os: Fates, d: Disk, dir: Path, staging: Path, names: seq<Name>): set<Name>
    decreases |names|
  {
    if names == [] then {}
    else
      var first := if Overlooks(os, d, dir, names[0]) then {names[0]} else {};
      var (d1, ok, _) := ReplaceOne(os, d, dir, staging, names[0]);
      if ok then first + Overlooked(os, d1, dir, staging, names[1..]) else first
  }

  lemma {:induction false} OverlookedAreNames(os: Fates, d: Disk, dir: Path, staging: Path, names: seq<Name>)
    ensures forall n :: n in Overlooked(os, d, dir, staging, names) ==> n in names
    decreases |names|
  {
    if names != [] {
      OverlookedAreNames(os, ReplaceOne(os, d, dir, staging, names[0]).0, dir, staging, names[1..]);
    }
  }

  ghost predicate AgreeOn(t: Tree, u: Tree, paths: set<Path>) {
    forall p :: p in paths ==> At(t, p) == At(u, p)
  }

  ghost predicate SameRecords(p: Path, log: seq<Replacement>, log': seq<Replacement>) {
    forall b :: Replacement(p, b) in log <==> Replacement(p, b) in log'
  }

  lemma ConsistentCongruent(
    t: Tree, t': Tree, u: Tree, u': Tree, dir: Path, staging: Path, n: Name, log: seq<Replacement>,
    log': seq<Replacement>, o: bool)
    requires AgreeOn(t, t', Footprint(dir, staging, n)) && AgreeOn(u, u', Footprint(dir, staging, n))
    requires SameRecords(dir + [n], log, log') && Consistent(t, u, dir, staging, n, log, o)
    ensures Consistent(t', u', dir, staging, n, log', o)
  {
    var f := Footprint(dir, staging, n);
    assert dir + [n] in f && dir + [Backup(n)] in f && staging + [n] in f;
  }

  lemma WholeCongruent(t: Tree, t': Tree, d: Disk, e: Disk, dir: Path, staging: Path, n: Name)
    requires AgreeOn(t, t', Footprint(dir, staging, n)) && Always(d, e, WholeIn(t, dir, staging, n))
    ensures Always(d, e, WholeIn(t', dir, staging, n))
  {
    var f := Footprint(dir, staging, n);
    assert dir + [n] in f && dir + [Backup(n)] in f && staging + [n] in f;
    AlwaysWeaken(d, e, WholeIn(t, dir, staging, n), WholeIn(t', dir, staging, n));
  }

  /** A binary nothing happens to stays whole. */
  lemma UntouchedWhole(t: Tree, d: Disk, e: Disk, dir: Path, staging: Path, n: Name, paths: set<Path>)
    requires Whole(t, d.now, dir, staging, n)
    requires Always(d, e, OnlyChanged(d.now, paths)) && paths !! Footprint(dir, staging, n)
    ensures Always(d, e, WholeIn(t, dir, staging, n))
  {
    var f := Footprint(dir, staging, n);
    assert dir + [n] in f && dir + [Backup(n)] in f && staging + [n] in f;
    AlwaysWeaken(d, e, OnlyChanged(d.now, paths), WholeIn(t, dir, staging, n));
  }

  /** The state of affairs after the binaries `names` have been dealt with, all of them if `ok`. */
  ghost predicate Tracked(
    t: Tree, u: Tree, dir: Path, staging: Path, names: seq<Name>, log: seq<Replacement>, overlooked: set<Name>,
    ok: bool)
  {
    && Home(u, dir) && At(u, staging) == Some(Dir)
    && LogOf(dir, names, log) && Distinct(dir, log)
    && (forall n :: n in names ==> Consistent(t, u, dir, staging, n, log, n in overlooked))
    && (ok ==> forall n :: n in names ==> InPlace(t, u, dir, staging, n, log))
  }

  /** The new binary `n` is in place, and on record. */
  ghost predicate InPlace(t: Tree, u: Tree, dir: Path, staging: Path, n: Name, log: seq<Replacement>) {
    && At(u, dir + [n]) == At(t, staging + [n])
    && (Replacement(dir + [n], None) in log || Replacement(dir + [n], Some(dir + [Backup(n)])) in log)
  }

  lemma RegularCongruent(t: Tree, u: Tree, dir: Path, staging: Path, n: Name)
    requires AgreeOn(t, u, Footprint(dir, staging, n))
    ensures Regular(t, dir, n) ==> Regular(u, dir, n)
    ensures At(u, staging + [n]) == At(t, staging + [n])
  {
    var f := Footprint(dir, staging, n);
    assert dir + [n] in f && dir + [Backup(n)] in f && staging + [n] in f;
  }

  lemma RestUnchanged(dir: Path, staging: Path, t: Tree, u: Tree, names: seq<Name>)
    requires names != [] && Site(t, dir, staging, names) && forall n :: n in names ==> Regular(t, dir, n)
    requires Home(u, dir) && At(u, staging) == Some(Dir) && SameOutside(t, u, Footprint(dir, staging, names[0]))
    ensures Site(u, dir, staging, names[1..]) && forall n :: n in names[1..] ==> Regular(u, dir, n)
    ensures forall n :: n in names[1..] ==> AgreeOn(t, u, Footprint(dir, staging, n))
  {
    TailSeparate(dir, staging, names);
    forall n | n in names[1..] ensures AgreeOn(t, u, Footprint(dir, staging, n)) {}
    forall n | n in names[1..]
      ensures Regular(u, dir, n) && At(u, staging + [n]) == At(t, staging + [n]) && n in names
    {
      RegularCongruent(t, u, dir, staging, n);
    }
  }

  lemma RecordsApart(dir: Path, m: Name, names: seq<Name>, log: seq<Replacement>)
    requires LogOf(dir, names, log) && m !in names
    ensures forall b :: Replacement(dir + [m], b) !in log
  {
    forall b ensures Replacement(dir + [m], b) !in log {
      if Replacement(dir + [m], b) in log {
        var n :| n in names && RecordOf(dir, n, Replacement(dir + [m], b));
        SameChild(dir, m, n);
      }
    }
  }

  lemma RecordTouches(dir: Path, n: Name, r: Replacement)
    requires RecordOf(dir, n, r)
    ensures Touches(r) <= Slot(dir, n) && r.backup != Some(r.destination)
    ensures forall p :: p in Touches(r) ==> Child(dir, p)
  {
    SameChild(dir, n, Backup(n));
  }

  lemma DistinctJoin(dir: Path, staging: Path, names: seq<Name>, first: seq<Replacement>, rest: seq<Replacement>)
    requires names != [] && Separate(dir, staging, names)
    requires |first| <= 1 && LogOf(dir, [names[0]], first)
    requires LogOf(dir, names[1..], rest) && Distinct(dir, rest)
    ensures Distinct(dir, first + rest) && LogOf(dir, names, first + rest)
  {
    TailSeparate(dir, staging, names);
    var log := first + rest;
    forall r | r in log
      ensures (exists n :: n in names && RecordOf(dir, n, r)) && r.backup != Some(r.destination)
      ensures forall p :: p in Touches(r) ==> Child(dir, p)
    {
      var n :| n in (if r in first then [names[0]] else names[1..]) && RecordOf(dir, n, r);
      assert n in names;
      RecordTouches(dir, n, r);
    }
    forall i, j | 0 <= i < j < |log| ensures Touches(log[i]) !! Touches(log[j]) {
      if i < |first| {
        assert log[i] in first && log[j] == rest[j - |first|] && log[j] in rest;
        var n :| n in names[1..] && RecordOf(dir, n, log[j]);
        RecordTouches(dir, n, log[j]);
        assert RecordOf(dir, names[0], log[i]);
        RecordTouches(dir, names[0], log[i]);
        assert Footprint(dir, staging, names[0]) !! Footprint(dir, staging, n);
      } else {
        assert log[i] == rest[i - |first|] && log[j] == rest[j - |first|];
      }
    }
  }

  lemma ConsistentJoin(
    t: Tree, t1: Tree, u: Tree, dir: Path, staging: Path, names: seq<Name>,
    first: seq<Replacement>, rest: seq<Replacement>, o: bool, os: set<Name>, n: Name)
    requires names != [] && Separate(dir, staging, names) && n in names
    requires Consistent(t, t1, dir, staging, names[0], first, o) && LogOf(dir, [names[0]], first)
    requires forall m :: m in names[1..] ==> AgreeOn(t, t1, Footprint(dir, staging, m))
    requires LogOf(dir, names[1..], rest) && (forall m :: m in os ==> m in names[1..])
    requires forall m :: m in names[1..] ==> Consistent(t1, u, dir, staging, m, rest, m in os)
    requires SameOutside(t1, u, Footprints(dir, staging, names[1..]))
    ensures Consistent(t, u, dir, staging, n, first + rest, n in (if o then {names[0]} else {}) + os)
  {
    var head, tail, log := names[0], names[1..], first + rest;
    TailSeparate(dir, staging, names);
    if n == head {
      RecordsApart(dir, head, tail, rest);
      assert AgreeOn(t1, u, Footprint(dir, staging, head));
      assert SameRecords(dir + [head], first, log);
      ConsistentCongruent(t, t, t1, u, dir, staging, head, first, log, o);
    } else {
      assert n in tail;
      RecordsApart(dir, n, [head], first);
      assert SameRecords(dir + [n], rest, log);
      ConsistentCongruent(t1, t, u, u, dir, staging, n, rest, log, n in os);
    }
  }

  /** The first binary and the rest together. */
  lemma TrackedJoin(
    t: Tree, t1: Tree, u: Tree, dir: Path, staging: Path, names: seq<Name>,
    first: seq<Replacement>, rest: seq<Replacement>, o: bool, os: set<Name>, ok: bool)
    requires names != [] && Separate(dir, staging, names)
    requires Consistent(t, t1, dir, staging, names[0], first, o) && LogOf(dir, [names[0]], first) && |first| <= 1
    requires ok ==> first != [] && At(t1, dir + [names[0]]) == At(t, staging + [names[0]])
    requires SameOutside(t, t1, Footprint(dir, staging, names[0]))
    requires forall n :: n in names[1..] ==> AgreeOn(t, t1, Footprint(dir, staging, n))
    requires Tracked(t1, u, dir, staging, names[1..], rest, os, ok) && (forall n :: n in os ==> n in names[1..])
    requires SameOutside(t1, u, Footprints(dir, staging, names[1..]))
    ensures Tracked(t, u, dir, staging, names, first + rest, (if o then {names[0]} else {}) + os, ok)
  {
    var log, all := first + rest, (if o then {names[0]} else {}) + os;
    DistinctJoin(dir, staging, names, first, rest);
    forall n | n in names ensures Consistent(t, u, dir, staging, n, log, n in all) {
      ConsistentJoin(t, t1, u, dir, staging, names, first, rest, o, os, n);
    }
    if ok {
      forall n | n in names ensures InPlace(t, u, dir, staging, n, log) {
        InPlaceJoin(t, t1, u, dir, staging, names, first, rest, n);
      }
    }
  }

  lemma InPlaceJoin(
    t: Tree, t1: Tree, u: Tree, dir: Path, staging: Path, names: seq<Name>, first: seq<Replacement>,
    rest: seq<Replacement>, n: Name)
    requires names != [] && Separate(dir, staging, names) && n in names
    requires first != [] && LogOf(dir, [names[0]], first) && At(t1, dir + [names[0]]) == At(t, staging + [names[0]])
    requires forall m :: m in names[1..] ==>
      AgreeOn(t, t1, Footprint(dir, staging, m)) && InPlace(t1, u, dir, staging, m, rest)
    requires SameOutside(t1, u, Footprints(dir, staging, names[1..]))
    ensures InPlace(t, u, dir, staging, n, first + rest)
  {
    TailSeparate(dir, staging, names);
    var f := Footprint(dir, staging, n);
    assert dir + [n] in f && staging + [n] in f;
    if n == names[0] {
      assert first[0] in first && RecordOf(dir, n, first[0]);
      assert At(u, dir + [n]) == At(t1, dir + [n]);
    } else {
      assert n in names[1..];
    }
  }

  lemma {:induction false} ReplaceAllTracks(os: Fates, dir: Path, staging: Path, d: Disk, names: seq<Name>)
    requires Site(d.now, dir, staging, names) && forall n :: n in names ==> Regular(d.now, dir, n)
    ensures
      var (e, ok, log) := ReplaceAll(os, d, dir, staging, names);
      var overlooked := Overlooked(os, d, dir, staging, names);
      && Tracked(d.now, e.now, dir, staging, names, log, overlooked, ok)
      && Always(d, e, OnlyChanged(d.now, Footprints(dir, staging, names)))
      && forall n :: n in names && n !in overlooked ==> Always(d, e, WholeIn(d.now, dir, staging, n))
    decreases |names|
  {
    if names == [] {
      AlwaysOne(d, d, OnlyChanged(d.now, Footprints(dir, staging, names)));
    } else {
      var (d1, one, first) := ReplaceOne(os, d, dir, staging, names[0]);
      var o := Overlooks(os, d, dir, names[0]);
      FirstTracks(os, dir, staging, d, names);
      if one {
        ReplaceAllTracks(os, dir, staging, d1, names[1..]);
        OverlookedAreNames(os, d1, dir, staging, names[1..]);
        var (e, ok, log) := ReplaceAll(os, d1, dir, staging, names[1..]);
        ReplaceBoth(dir, staging, d, d1, e, names, first, log, o, Overlooked(os, d1, dir, staging, names[1..]), ok);
      } else {
        NothingMore(dir, staging, d1, names[1..]);
        ReplaceBoth(dir, staging, d, d1, d1, names, first, [], o, {}, false);
        assert first + [] == first;
      }
    }
  }

  lemma FirstTracks(os: Fates, dir: Path, staging: Path, d: Disk, names: seq<Name>)
    requires names != [] && Site(d.now, dir, staging, names) && forall n :: n in names ==> Regular(d.now, dir, n)
    ensures
      var (d1, one, first) := ReplaceOne(os, d, dir, staging, names[0]);
      var o := Overlooks(os, d, dir, names[0]);
      && Consistent(d.now, d1.now, dir, staging, names[0], first, o) && LogOf(dir, [names[0]], first) && |first| <= 1
      && (one ==> first != [] && At(d1.now, dir + [names[0]]) == At(d.now, staging + [names[0]]))
      && Always(d, d1, OnlyChanged(d.now, Footprint(dir, staging, names[0])))
      && (!o ==> Always(d, d1, WholeIn(d.now, dir, staging, names[0])))
      && Site(d1.now, dir, staging, names[1..]) && (forall n :: n in names[1..] ==> Regular(d1.now, dir, n))
      && (forall n :: n in names[1..] ==> AgreeOn(d.now, d1.now, Footprint(dir, staging, n)))
  {
    assert Site(d.now, dir, staging, [names[0]]) by { assert names[0] in names; }
    ReplaceOneTracks(os, dir, staging, d, names[0]);
    var d1 := ReplaceOne(os, d, dir, staging, names[0]).0;
    AlwaysEnds(d, d1, OnlyChanged(d.now, Footprint(dir, staging, names[0])));
    RestUnchanged(dir, staging, d.now, d1.now, names);
  }

  lemma NothingMore(dir: Path, staging: Path, d: Disk, names: seq<Name>)
    requires Home(d.now, dir) && At(d.now, staging) == Some(Dir)
    ensures Tracked(d.now, d.now, dir, staging, names, [], {}, false)
    ensures Always(d, d, OnlyChanged(d.now, Footprints(dir, staging, names)))
  {
    forall n | n in names ensures Consistent(d.now, d.now, dir, staging, n, [], false) {}
    AlwaysOne(d, d, OnlyChanged(d.now, Footprints(dir, staging, names)));
  }

  lemma ReplaceBoth(
    dir: Path, staging: Path, d: Disk, d1: Disk, e: Disk, names: seq<Name>,
    first: seq<Replacement>, rest: seq<Replacement>, o: bool, os: set<Name>, ok: bool)
    requires names != [] && Site(d.now, dir, staging, names) && forall n :: n in names ==> Regular(d.now, dir, n)
    requires Consistent(d.now, d1.now, dir, staging, names[0], first, o)
    requires LogOf(dir, [names[0]], first) && |first| <= 1
    requires ok ==> first != [] && At(d1.now, dir + [names[0]]) == At(d.now, staging + [names[0]])
    requires Always(d, d1, OnlyChanged(d.now, Footprint(dir, staging, names[0])))
    requires !o ==> Always(d, d1, WholeIn(d.now, dir, staging, names[0]))
    requires forall n :: n in names[1..] ==> AgreeOn(d.now, d1.now, Footprint(dir, staging, n))
    requires Tracked(d1.now, e.now, dir, staging, names[1..], rest, os, ok) && (forall n :: n in os ==> n in names[1..])
    requires Always(d1, e, OnlyChanged(d1.now, Footprints(dir, staging, names[1..])))
    requires e == d1 || forall n :: n in names[1..] && n !in os ==> Always(d1, e, WholeIn(d1.now, dir, staging, n))
    ensures
      var all := (if o then {names[0]} else {}) + os;
      && Tracked(d.now, e.now, dir, staging, names, first + rest, all, ok)
      && Always(d, e, OnlyChanged(d.now, Footprints(dir, staging, names)))
      && forall n :: n in names && n !in all ==> Always(d, e, WholeIn(d.now, dir, staging, n))
  {
    var head, tail := Footprint(dir, staging, names[0]), Footprints(dir, staging, names[1..]);
    var both := OnlyChanged(d.now, Footprints(dir, staging, names));
    TailSeparate(dir, staging, names);
    AlwaysEnds(d, d1, OnlyChanged(d.now, head));
    AlwaysEnds(d1, e, OnlyChanged(d1.now, tail));
    TrackedJoin(d.now, d1.now, e.now, dir, staging, names, first, rest, o, os, ok);
    AlwaysWeaken(d, d1, OnlyChanged(d.now, head), both);
    AlwaysWeaken(d1, e, OnlyChanged(d1.now, tail), both);
    AlwaysThen(d, d1, e, both);
    forall n | n in names && n !in (if o then {names[0]} else {}) + os
      ensures Always(d, e, WholeIn(d.now, dir, staging, n))
    {
      if n == names[0] {
        AlwaysEnds(d, d1, WholeIn(d.now, dir, staging, n));
        UntouchedWhole(d.now, d1, e, dir, staging, n, tail);
      } else {
        UntouchedWhole(d.now, d, d1, dir, staging, n, head);
        if e == d1 {
          AlwaysEnds(d, d1, WholeIn(d.now, dir, staging, n));
          AlwaysOne(d1, e, WholeIn(d.now, dir, staging, n));
        } else {
          WholeCongruent(d1.now, d.now, d1, e, dir, staging, n);
        }
      }
      AlwaysThen(d, d1, e, WholeIn(d.now, dir, staging, n));
    }
  }
}
