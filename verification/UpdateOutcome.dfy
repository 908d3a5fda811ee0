/** The outcome of a whole installation, for every schedule of failures and every point it may be cut off. */
module UpdateOutcome {
  import opened FileSystem
  import opened DiskStates
  import opened UpdateRollback
  import opened UpdateInstall
  import opened UpdateSafety

  lemma {:induction false} ChecksExact(os: Fates, dir: Path, d: Disk, names: seq<Name>)
    requires Home(d.now, dir)
    ensures
      var (e, ok) := Checks(os, d, Guarded(dir, names));
      && e.past == d.past && e.now == d.now
      && (ok ==> forall n :: n in names ==> Regular(d.now, dir, n))
    decreases |names|
  {
    if names != [] {
      var paths := [dir + [names[0]], dir + [Backup(names[0])]];
      var rest := Guarded(dir, names[1..]);
      assert Guarded(dir, names) == paths + rest && (paths + rest)[1..][1..] == rest;
      HomeLocate(d.now, dir, paths[0]);
      HomeLocate(d.now, dir, paths[1]);
      var (d1, first) := Metadata(os, d, paths[0]);
      var (d2, second) := Metadata(os, d1, paths[1]);
      ChecksExact(os, dir, d2, names[1..]);
      assert names == [names[0]] + names[1..];
    }
  }

  // ----- The staging directory goes -----

  lemma PurgeExact(os: Fates, dir: Path, staging: Path, d: Disk)
    requires Home(d.now, dir) && Child(dir, staging) && At(d.now, staging) == Some(Dir)
    ensures
      var (e, ok) := RemoveTree(os, d, staging);
      && Always(d, e, OutsideSame(d.now, staging)) && Home(e.now, dir)
      && (ok ==> forall p :: Under(staging, p) ==> p !in e.now)
  {
    var (e, ok) := RemoveTree(os, d, staging);
    HomeLocate(d.now, dir, staging);
    PurgeStates(d.now, staging, os(d.clock).victims);
    var partial := d.Tick().Push(d.now - Removed(d.now, staging, os(d.clock).victims));
    var p := OutsideSame(d.now, staging);
    AlwaysOne(d, partial, p);
    AlwaysOne(partial, e, p);
    AlwaysThen(d, partial, e, p);
    assert !Under(staging, dir);
  }

  // ----- The transaction -----

  ghost predicate Confined(t: Tree, u: Tree, dir: Path, staging: Path) {
    forall p :: p !in Slots(dir, BINARIES) && !Under(staging, p) ==> At(u, p) == At(t, p)
  }

  /** Nothing but the two binaries, their backups and the staging directory has changed. */
  ghost function ConfinedTo(t: Tree, dir: Path, staging: Path): Tree -> bool {
    u => Confined(t, u, dir, staging)
  }

  /** Record and disk agree about both binaries. */
  ghost predicate Settled(t: Tree, u: Tree, dir: Path, staging: Path, log: seq<Replacement>, overlooked: set<Name>) {
    && Home(u, dir) && LogOf(dir, BINARIES, log) && Distinct(dir, log)
    && forall n :: n in BINARIES ==> Consistent(t, u, dir, staging, n, log, n in overlooked)
  }

  /** Both new binaries are in place and on record. */
  ghost predicate AllInPlace(t: Tree, u: Tree, dir: Path, staging: Path, log: seq<Replacement>) {
    forall n :: n in BINARIES ==> InPlace(t, u, dir, staging, n, log)
  }

  lemma SlotBeyond(dir: Path, staging: Path, n: Name)
    requires Separate(dir, staging, BINARIES) && n in BINARIES
    ensures !Under(staging, dir + [n]) && !Under(staging, dir + [Backup(n)])
    ensures dir + [n] in Slots(dir, BINARIES) && dir + [Backup(n)] in Slots(dir, BINARIES)
    ensures forall p :: p in Footprint(dir, staging, n) && !Under(staging, p) ==> p in Slots(dir, BINARIES)
  {
    assert staging !in Slot(dir, n);
    assert dir + [n] in Slot(dir, n) && dir + [Backup(n)] in Slot(dir, n);
    assert Under(staging, staging + [n]);
    assert (dir + [n])[..|staging|] == dir + [n] && (dir + [Backup(n)])[..|staging|] == dir + [Backup(n)];
  }

  lemma SettledBeyond(t: Tree, u: Tree, v: Tree, dir: Path, staging: Path, log: seq<Replacement>, overlooked: set<Name>)
    requires Separate(dir, staging, BINARIES) && Settled(t, u, dir, staging, log, overlooked)
    requires SameBeyond(u, v, staging) && Home(v, dir)
    ensures Settled(t, v, dir, staging, log, overlooked)
    ensures AllInPlace(t, u, dir, staging, log) ==> AllInPlace(t, v, dir, staging, log)
  {
    forall n | n in BINARIES
      ensures Consistent(t, v, dir, staging, n, log, n in overlooked) && At(v, dir + [n]) == At(u, dir + [n])
    {
      SlotBeyond(dir, staging, n);
    }
  }

  lemma FootprintsConfined(t: Tree, d: Disk, e: Disk, dir: Path, staging: Path)
    requires Separate(dir, staging, BINARIES) && Always(d, e, OnlyChanged(t, Footprints(dir, staging, BINARIES)))
    ensures Always(d, e, ConfinedTo(t, dir, staging))
  {
    forall p | p !in Slots(dir, BINARIES) && !Under(staging, p) ensures p !in Footprints(dir, staging, BINARIES) {
      forall n | n in BINARIES ensures p !in Footprint(dir, staging, n) { SlotBeyond(dir, staging, n); }
    }
    AlwaysWeaken(d, e, OnlyChanged(t, Footprints(dir, staging, BINARIES)), ConfinedTo(t, dir, staging));
  }

  lemma PurgeKeeps(t: Tree, d: Disk, e: Disk, dir: Path, staging: Path, overlooked: set<Name>)
    requires Separate(dir, staging, BINARIES) && Always(d, e, OutsideSame(d.now, staging))
    requires Confined(t, d.now, dir, staging)
    requires forall n :: n in BINARIES && n !in overlooked ==> Whole(t, d.now, dir, staging, n)
    ensures Always(d, e, ConfinedTo(t, dir, staging))
    ensures forall n :: n in BINARIES && n !in overlooked ==> Always(d, e, WholeIn(t, dir, staging, n))
  {
    var p := OutsideSame(d.now, staging);
    AlwaysWeaken(d, e, p, ConfinedTo(t, dir, staging));
    forall n | n in BINARIES && n !in overlooked ensures Always(d, e, WholeIn(t, dir, staging, n)) {
      SlotBeyond(dir, staging, n);
      AlwaysWeaken(d, e, p, WholeIn(t, dir, staging, n));
    }
  }

  lemma TransactionTracks(os: Fates, dir: Path, staging: Path, d: Disk)
    requires Site(d.now, dir, staging, BINARIES) && forall n :: n in BINARIES ==> Regular(d.now, dir, n)
    ensures
      var (e, ok, log) := Transaction(os, d, dir, staging);
      var overlooked := Overlooked(os, d, dir, staging, BINARIES);
      && Settled(d.now, e.now, dir, staging, log, overlooked)
      && (ok ==> AllInPlace(d.now, e.now, dir, staging, log) && forall p :: Under(staging, p) ==> p !in e.now)
      && Always(d, e, ConfinedTo(d.now, dir, staging))
      && forall n :: n in BINARIES && n !in overlooked ==> Always(d, e, WholeIn(d.now, dir, staging, n))
  {
    var overlooked := Overlooked(os, d, dir, staging, BINARIES);
    var (d1, replaced, log) := ReplaceAll(os, d, dir, staging, BINARIES);
    ReplaceAllTracks(os, dir, staging, d, BINARIES);
    PurgeExact(os, dir, staging, d1);
    TransactionSteps(os, dir, staging, d);
    TransactionStates(dir, staging, d, d1, RemoveTree(os, d1, staging).0, Transaction(os, d, dir, staging).0,
                      log, overlooked, replaced);
  }

  lemma TransactionSteps(os: Fates, dir: Path, staging: Path, d: Disk)
    ensures
      var (d1, replaced, log) := ReplaceAll(os, d, dir, staging, BINARIES);
      var (d2, closed) := RemoveTree(os, d1, staging);
      var (e, ok, log') := Transaction(os, d, dir, staging);
      && e.past == d2.past && e.now == d2.now && log' == log && (ok ==> replaced && closed)
  {
  }

  lemma TransactionStates(
    dir: Path, staging: Path, d: Disk, d1: Disk, d2: Disk, e: Disk, log: seq<Replacement>, overlooked: set<Name>,
    replaced: bool)
    requires Separate(dir, staging, BINARIES)
    requires Tracked(d.now, d1.now, dir, staging, BINARIES, log, overlooked, replaced)
    requires Always(d, d1, OnlyChanged(d.now, Footprints(dir, staging, BINARIES)))
    requires forall n :: n in BINARIES && n !in overlooked ==> Always(d, d1, WholeIn(d.now, dir, staging, n))
    requires Always(d1, d2, OutsideSame(d1.now, staging)) && Home(d2.now, dir)
    requires e.past == d2.past && e.now == d2.now
    ensures Settled(d.now, e.now, dir, staging, log, overlooked)
    ensures replaced ==> AllInPlace(d.now, e.now, dir, staging, log)
    ensures Always(d, e, ConfinedTo(d.now, dir, staging))
    ensures forall n :: n in BINARIES && n !in overlooked ==> Always(d, e, WholeIn(d.now, dir, staging, n))
  {
    var confined := ConfinedTo(d.now, dir, staging);
    FootprintsConfined(d.now, d, d1, dir, staging);
    AlwaysEnds(d, d1, confined);
    AlwaysEnds(d1, d2, OutsideSame(d1.now, staging));
    SettledBeyond(d.now, d1.now, d2.now, dir, staging, log, overlooked);
    forall n | n in BINARIES && n !in overlooked ensures Whole(d.now, d1.now, dir, staging, n) {
      ConsistentWhole(d.now, d1.now, dir, staging, n, log);
    }
    PurgeKeeps(d.now, d1, d2, dir, staging, overlooked);
    AlwaysThen(d, d1, d2, confined);
    AlwaysTicked(d, d2, e, confined);
    forall n | n in BINARIES && n !in overlooked ensures Always(d, e, WholeIn(d.now, dir, staging, n)) {
      AlwaysThen(d, d1, d2, WholeIn(d.now, dir, staging, n));
      AlwaysTicked(d, d2, e, WholeIn(d.now, dir, staging, n));
    }
  }

  // ----- Rolling back -----

  /** What one rollback does to binary `n`. */
  lemma RollbackTracks(os: Fates, t: Tree, dir: Path, staging: Path, d: Disk, log: seq<Replacement>, n: Name)
    requires Separate(dir, staging, BINARIES) && n in BINARIES
    requires Home(d.now, dir) && LogOf(dir, BINARIES, log) && Distinct(dir, log)
    requires Consistent(t, d.now, dir, staging, n, log, false)
    ensures
      var (e, left) := Rollback(os, d, log);
      && Consistent(t, e.now, dir, staging, n, left, false)
      && Always(d, e, WholeIn(t, dir, staging, n))
      && (left == [] ==> At(e.now, dir + [n]) == At(t, dir + [n]))
  {
    var (e, left) := Rollback(os, d, log);
    RollbackExact(os, dir, d, log);
    forall u | UndoneFrom(d.now, log)(u) ensures WholeIn(t, dir, staging, n)(u) {
      UndoneWhole(t, d.now, u, dir, staging, log, n);
    }
    AlwaysWeaken(d, e, UndoneFrom(d.now, log), WholeIn(t, dir, staging, n));
    RolledBackConsistent(t, d.now, e.now, dir, staging, log, left, n);
  }

  /** A record of a binary is one of two; and if there is none, a rollback leaves the binary alone. */
  lemma RecordedOrUntouched(dir: Path, staging: Path, log: seq<Replacement>, n: Name)
    requires Separate(dir, staging, BINARIES) && n in BINARIES && LogOf(dir, BINARIES, log)
    ensures
      var d, b := dir + [n], dir + [Backup(n)];
      || Replacement(d, None) in log || Replacement(d, Some(b)) in log
      || (d !in Touched(log) && b !in Touched(log))
  {
    var d, b := dir + [n], dir + [Backup(n)];
    if Replacement(d, None) !in log && Replacement(d, Some(b)) !in log {
      forall r | r in log ensures d !in Touches(r) && b !in Touches(r) {
        var m :| m in BINARIES && RecordOf(dir, m, r);
        assert RecordOf(dir, n, r) ==> r == Replacement(d, None) || r == Replacement(d, Some(b));
        RecordTouches(dir, m, r);
        FootprintsApart(dir, staging, m, n);
        assert d in Slot(dir, n) && b in Slot(dir, n);
      }
    }
  }

  lemma UndoneWhole(t: Tree, t1: Tree, u: Tree, dir: Path, staging: Path, log: seq<Replacement>, n: Name)
    requires Separate(dir, staging, BINARIES) && n in BINARIES && LogOf(dir, BINARIES, log)
    requires Consistent(t, t1, dir, staging, n, log, false) && PartlyUndone(t1, u, log)
    ensures Whole(t, u, dir, staging, n)
  {
    var d, b := dir + [n], dir + [Backup(n)];
    RecordedOrUntouched(dir, staging, log, n);
    if Replacement(d, Some(b)) in log {
      var r := Replacement(d, Some(b));
      assert d in Touches(r) && b in Touches(r);
      assert Same(t1, u, r) || Restored(t1, u, r);
    }
  }

  lemma RolledBackConsistent(
    t: Tree, t1: Tree, u: Tree, dir: Path, staging: Path, log: seq<Replacement>, left: seq<Replacement>, n: Name)
    requires Separate(dir, staging, BINARIES) && n in BINARIES && LogOf(dir, BINARIES, log)
    requires Distinct(dir, log) && Consistent(t, t1, dir, staging, n, log, false) && RolledBack(t1, u, log, left)
    ensures Consistent(t, u, dir, staging, n, left, false)
    ensures left == [] ==> At(u, dir + [n]) == At(t, dir + [n])
  {
    var d, b := dir + [n], dir + [Backup(n)];
    RecordedOrUntouched(dir, staging, log, n);
    var moved, added := Replacement(d, Some(b)), Replacement(d, None);
    assert d in Touches(moved) && b in Touches(moved) && d in Touches(added);
    assert !(moved in log && added in log);
    if moved in log {
      assert if moved in left then Same(t1, u, moved) else Restored(t1, u, moved);
    }
    if added in log {
      assert if added in left then Same(t1, u, added) else Restored(t1, u, added);
    }
  }

  // ----- The whole installation -----

  /** The binaries whose presence an installation does not notice because `exists()` fails on them. */
  function Unnoticed(os: Fates, d: Disk, dir: Path, staging: Path): set<Name> {
    var (d1, regular) := Checks(os, d, Guarded(dir, BINARIES));
    if regular then Overlooked(os, d1, dir, staging, BINARIES) else {}
  }

  /** A rollback, and the one the guard runs when it is dropped. */
  lemma AbandonTracks(os: Fates, t: Tree, dir: Path, staging: Path, d: Disk, log: seq<Replacement>, n: Name)
    requires Separate(dir, staging, BINARIES) && n in BINARIES
    requires Home(d.now, dir) && LogOf(dir, BINARIES, log) && Distinct(dir, log)
    requires Consistent(t, d.now, dir, staging, n, log, false)
    ensures
      var (e, outcome) := Abandon(os, d, log);
      && Always(d, e, WholeIn(t, dir, staging, n))
      && (outcome.Failed? ==> At(e.now, dir + [n]) == At(t, dir + [n]))
  {
    var (d1, left) := Rollback(os, d, log);
    RollbackTracks(os, t, dir, staging, d, log, n);
    RollbackExact(os, dir, d, log);
    LogShrinks(dir, log, left);
    RollbackTracks(os, t, dir, staging, d1, left, n);
    AlwaysThen(d, d1, Rollback(os, d1, left).0, WholeIn(t, dir, staging, n));
  }

  lemma LogShrinks(dir: Path, log: seq<Replacement>, left: seq<Replacement>)
    requires LogOf(dir, BINARIES, log) && forall r :: r in left ==> r in log
    ensures LogOf(dir, BINARIES, left)
  {
  }

  /** A binary that went unnoticed is gone after a complete rollback. */
  lemma AbandonLoses(os: Fates, t: Tree, dir: Path, staging: Path, d: Disk, log: seq<Replacement>, n: Name)
    requires n in BINARIES && Home(d.now, dir) && Distinct(dir, log)
    requires Consistent(t, d.now, dir, staging, n, log, true)
    ensures Abandon(os, d, log).1.Failed? ==> dir + [n] !in Abandon(os, d, log).0.now && dir + [n] in t
  {
    RollbackExact(os, dir, d, log);
    assert Replacement(dir + [n], None) in log;
  }

  lemma AbandonConfined(os: Fates, t: Tree, dir: Path, staging: Path, d: Disk, log: seq<Replacement>)
    requires Home(d.now, dir) && LogOf(dir, BINARIES, log) && Distinct(dir, log) && Confined(t, d.now, dir, staging)
    ensures Always(d, Abandon(os, d, log).0, ConfinedTo(t, dir, staging)) && Home(Abandon(os, d, log).0.now, dir)
  {
    var (d1, left) := Rollback(os, d, log);
    RollbackConfined(os, t, dir, staging, d, log);
    RollbackConfined(os, t, dir, staging, d1, left);
    AlwaysThen(d, d1, Rollback(os, d1, left).0, ConfinedTo(t, dir, staging));
  }

  lemma RollbackConfined(os: Fates, t: Tree, dir: Path, staging: Path, d: Disk, log: seq<Replacement>)
    requires Home(d.now, dir) && LogOf(dir, BINARIES, log) && Distinct(dir, log) && Confined(t, d.now, dir, staging)
    ensures
      var (e, left) := Rollback(os, d, log);
      && Always(d, e, ConfinedTo(t, dir, staging)) && Confined(t, e.now, dir, staging)
      && Home(e.now, dir) && LogOf(dir, BINARIES, left) && Distinct(dir, left)
  {
    var (e, left) := Rollback(os, d, log);
    RollbackExact(os, dir, d, log);
    LogShrinks(dir, log, left);
    TouchedSlots(dir, log);
    forall u | UndoneFrom(d.now, log)(u) ensures ConfinedTo(t, dir, staging)(u) {
      UndoneConfined(t, d.now, u, dir, staging, log);
    }
    AlwaysWeaken(d, e, UndoneFrom(d.now, log), ConfinedTo(t, dir, staging));
    AlwaysEnds(d, e, ConfinedTo(t, dir, staging));
  }

  lemma UndoneConfined(t: Tree, t1: Tree, u: Tree, dir: Path, staging: Path, log: seq<Replacement>)
    requires Confined(t, t1, dir, staging) && SameOutside(t1, u, Touched(log)) && Touched(log) <= Slots(dir, BINARIES)
    ensures Confined(t, u, dir, staging)
  {
    forall p | p !in Slots(dir, BINARIES) && !Under(staging, p) ensures At(u, p) == At(t, p) {
      assert At(u, p) == At(t1, p);
    }
  }

  lemma TouchedSlots(dir: Path, log: seq<Replacement>)
    requires LogOf(dir, BINARIES, log)
    ensures Touched(log) <= Slots(dir, BINARIES)
  {
    forall r, p | r in log && p in Touches(r) ensures p in Slots(dir, BINARIES) {
      var n :| n in BINARIES && RecordOf(dir, n, r);
      assert p in Slot(dir, n);
    }
  }

  /** What an outcome says about binary `n`.
      Ok: the new binary is in place, and one that was there before is in its `_bak` exactly if its presence
      was noticed (or the `_bak` held the very same file already).
      A plain error: the name is exactly as before if and only if the presence of a binary there was noticed.
      An incomplete rollback: an original that was noticed is whole at its name or in its `_bak`. */
  ghost predicate Meets(t: Tree, u: Tree, dir: Path, staging: Path, n: Name, outcome: Outcome, unnoticed: set<Name>) {
    var d, b, noticed := dir + [n], dir + [Backup(n)], n !in unnoticed;
    match outcome
    case Installed(_) =>
      && At(u, d) == At(t, staging + [n])
      && (if d in t then (At(u, b) == At(t, d) <==> (noticed || At(t, b) == At(t, d))) else At(u, b) == At(t, b))
    case Failed => At(u, d) == At(t, d) <==> noticed
    case Incomplete => noticed && d in t ==> At(u, d) == At(t, d) || At(u, b) == At(t, d)
  }

  lemma InstalledMeets(
    t: Tree, u: Tree, dir: Path, staging: Path, n: Name, log: seq<Replacement>, overlooked: set<Name>)
    requires Consistent(t, u, dir, staging, n, log, n in overlooked) && InPlace(t, u, dir, staging, n, log)
    requires Distinct(dir, log)
    ensures Meets(t, u, dir, staging, n, Installed(log), overlooked)
  {
    var moved, added := Replacement(dir + [n], Some(dir + [Backup(n)])), Replacement(dir + [n], None);
    assert dir + [n] in Touches(moved) && dir + [n] in Touches(added);
    assert !(moved in log && added in log);
  }

  /** The three outcomes of an installation, for every schedule of failures. */
  lemma InstallOutcome(os: Fates, dir: Path, staging: Path, d: Disk, n: Name)
    requires Site(d.now, dir, staging, BINARIES) && n in BINARIES
    ensures
      var (e, outcome) := Install(os, d, dir, staging);
      Meets(d.now, e.now, dir, staging, n, outcome, Unnoticed(os, d, dir, staging))
  {
    var (d1, regular) := Checks(os, d, Guarded(dir, BINARIES));
    ChecksExact(os, dir, d, BINARIES);
    if !regular {
      PurgeExact(os, dir, staging, d1);
      AlwaysEnds(d1, RemoveTree(os, d1, staging).0, OutsideSame(d1.now, staging));
      SlotBeyond(dir, staging, n);
    } else {
      var (d2, ok, log) := Transaction(os, d1, dir, staging);
      TransactionTracks(os, dir, staging, d1);
      var overlooked := Overlooked(os, d1, dir, staging, BINARIES);
      if ok {
        InstalledMeets(d.now, d2.now, dir, staging, n, log, overlooked);
      } else {
        AbandonMeets(os, d.now, dir, staging, d2, log, n, overlooked);
      }
    }
  }

  lemma AbandonMeets(
    os: Fates, t: Tree, dir: Path, staging: Path, d: Disk, log: seq<Replacement>, n: Name, overlooked: set<Name>)
    requires Separate(dir, staging, BINARIES) && n in BINARIES
    requires Home(d.now, dir) && LogOf(dir, BINARIES, log) && Distinct(dir, log)
    requires Consistent(t, d.now, dir, staging, n, log, n in overlooked)
    ensures
      var (e, outcome) := Abandon(os, d, log);
      Meets(t, e.now, dir, staging, n, outcome, overlooked)
  {
    var e := Abandon(os, d, log).0;
    if n in overlooked {
      AbandonLoses(os, t, dir, staging, d, log, n);
    } else {
      AbandonTracks(os, t, dir, staging, d, log, n);
      AlwaysEnds(d, e, WholeIn(t, dir, staging, n));
    }
  }

  // ----- Every state, up to and including the exec -----

  lemma InstallStates(os: Fates, dir: Path, staging: Path, d: Disk)
    requires Site(d.now, dir, staging, BINARIES)
    ensures
      var (e, outcome) := Install(os, d, dir, staging);
      var unnoticed := Unnoticed(os, d, dir, staging);
      && Always(d, e, ConfinedTo(d.now, dir, staging))
      && (forall n :: n in BINARIES && n !in unnoticed ==> Always(d, e, WholeIn(d.now, dir, staging, n)))
      && (outcome.Installed? ==>
            && Settled(d.now, e.now, dir, staging, outcome.log, unnoticed)
            && AllInPlace(d.now, e.now, dir, staging, outcome.log)
            && forall p :: Under(staging, p) ==> p !in e.now)
  {
    var (d1, regular) := Checks(os, d, Guarded(dir, BINARIES));
    ChecksExact(os, dir, d, BINARIES);
    var confined := ConfinedTo(d.now, dir, staging);
    if !regular {
      var e := RemoveTree(os, d1, staging).0;
      PurgeExact(os, dir, staging, d1);
      PurgeKeeps(d.now, d1, e, dir, staging, {});
      AlwaysFrom(d, d1, e, confined);
      forall n | n in BINARIES ensures Always(d, e, WholeIn(d.now, dir, staging, n)) {
        AlwaysFrom(d, d1, e, WholeIn(d.now, dir, staging, n));
      }
    } else {
      var (d2, ok, log) := Transaction(os, d1, dir, staging);
      TransactionTracks(os, dir, staging, d1);
      AlwaysFrom(d, d1, d2, confined);
      forall n | n in BINARIES && n !in Overlooked(os, d1, dir, staging, BINARIES)
        ensures Always(d, d2, WholeIn(d.now, dir, staging, n))
      {
        AlwaysFrom(d, d1, d2, WholeIn(d.now, dir, staging, n));
      }
      if !ok {
        AbandonStates(os, dir, staging, d, d2, log, Overlooked(os, d1, dir, staging, BINARIES));
      }
    }
  }

  /** Abandoning keeps what has held up to then. */
  lemma AbandonStates(
    os: Fates, dir: Path, staging: Path, d: Disk, c: Disk, log: seq<Replacement>, overlooked: set<Name>)
    requires Separate(dir, staging, BINARIES) && Settled(d.now, c.now, dir, staging, log, overlooked)
    requires Always(d, c, ConfinedTo(d.now, dir, staging))
    requires forall n :: n in BINARIES && n !in overlooked ==> Always(d, c, WholeIn(d.now, dir, staging, n))
    ensures
      var e := Abandon(os, c, log).0;
      && Always(d, e, ConfinedTo(d.now, dir, staging))
      && forall n :: n in BINARIES && n !in overlooked ==> Always(d, e, WholeIn(d.now, dir, staging, n))
  {
    var e := Abandon(os, c, log).0;
    AlwaysEnds(d, c, ConfinedTo(d.now, dir, staging));
    AbandonConfined(os, d.now, dir, staging, c, log);
    AlwaysThen(d, c, e, ConfinedTo(d.now, dir, staging));
    forall n | n in BINARIES && n !in overlooked ensures Always(d, e, WholeIn(d.now, dir, staging, n)) {
      AbandonTracks(os, d.now, dir, staging, c, log, n);
      AlwaysThen(d, c, e, WholeIn(d.now, dir, staging, n));
    }
  }

  /** The same for an update whose exec fails, or is not even tried. */
  lemma ExecStates(
    os: Fates, dir: Path, staging: Path, d: Disk, c: Disk, log: seq<Replacement>, overlooked: set<Name>, sound: bool)
    requires Separate(dir, staging, BINARIES) && Settled(d.now, c.now, dir, staging, log, overlooked)
    requires Always(d, c, ConfinedTo(d.now, dir, staging))
    requires forall n :: n in BINARIES && n !in overlooked ==> Always(d, c, WholeIn(d.now, dir, staging, n))
    ensures
      var e := Exec(os, c, dir, log, sound).0;
      && Always(d, e, ConfinedTo(d.now, dir, staging))
      && forall n :: n in BINARIES && n !in overlooked ==> Always(d, e, WholeIn(d.now, dir, staging, n))
  {
    var (e, ending) := Exec(os, c, dir, log, sound);
    var c1 := c.Tick();
    AlwaysTicked(d, c, c1, ConfinedTo(d.now, dir, staging));
    forall n | n in BINARIES && n !in overlooked ensures Always(d, c1, WholeIn(d.now, dir, staging, n)) {
      AlwaysTicked(d, c, c1, WholeIn(d.now, dir, staging, n));
    }
    if !sound {
      AlwaysEnds(d, c, ConfinedTo(d.now, dir, staging));
      RollbackConfined(os, d.now, dir, staging, c, log);
      AlwaysThen(d, c, e, ConfinedTo(d.now, dir, staging));
      forall n | n in BINARIES && n !in overlooked ensures Always(d, e, WholeIn(d.now, dir, staging, n)) {
        RollbackTracks(os, d.now, dir, staging, c, log, n);
        AlwaysThen(d, c, e, WholeIn(d.now, dir, staging, n));
      }
    } else if ending.Returned? {
      AbandonStates(os, dir, staging, d, c1, log, overlooked);
    }
  }

  /** In every state from the first check to the exec, or to the last rollback after it has failed, an
      original that was noticed is whole at its name or in its `_bak`; and at only one of the two, unless
      the old `_bak` or the new binary is the same file. Nothing else in the filesystem changes. */
  lemma UpdateLosesNothing(os: Fates, dir: Path, staging: Path, d: Disk, sound: bool)
    requires Site(d.now, dir, staging, BINARIES)
    ensures
      var t, e := d.now, Update(os, d, dir, staging, sound).0;
      && |d.past| <= |e.past| && e.States()[..|d.past| + 1] == d.States()
      && (forall i, n ::
            |d.past| <= i <= |e.past| && n in BINARIES && n !in Unnoticed(os, d, dir, staging) && dir + [n] in t ==>
            var here := At(e.States()[i], dir + [n]) == At(t, dir + [n]);
            var there := At(e.States()[i], dir + [Backup(n)]) == At(t, dir + [n]);
            && (here || there)
            && (here && there ==>
                  At(t, dir + [Backup(n)]) == At(t, dir + [n]) || At(t, staging + [n]) == At(t, dir + [n])))
      && (forall i :: |d.past| <= i <= |e.past| ==> Confined(t, e.States()[i], dir, staging))
  {
    var (c, outcome) := Install(os, d, dir, staging);
    InstallStates(os, dir, staging, d);
    if outcome.Installed? {
      ExecStates(os, dir, staging, d, c, outcome.log, Unnoticed(os, d, dir, staging), sound);
    }
    var t, e := d.now, Update(os, d, dir, staging, sound).0;
    forall i | |d.past| <= i <= |e.past| ensures Confined(t, e.States()[i], dir, staging) {
      assert ConfinedTo(t, dir, staging)(e.States()[i]);
    }
    forall i, n | |d.past| <= i <= |e.past| && n in BINARIES && n !in Unnoticed(os, d, dir, staging)
      ensures Whole(t, e.States()[i], dir, staging, n)
    {
      assert WholeIn(t, dir, staging, n)(e.States()[i]);
    }
  }

  /** How an update ends. If the new server runs, it is the staged one, and both names hold the new pair.
      If the call returns with a plain error, a name is as before exactly if it was noticed; this needs
      arguments without NUL bytes. An incomplete rollback says so. */
  lemma UpdateOutcomes(os: Fates, dir: Path, staging: Path, d: Disk, sound: bool)
    requires Site(d.now, dir, staging, BINARIES)
    ensures
      var t := d.now;
      var (e, ending) := Update(os, d, dir, staging, sound);
      match ending
      case Replaced(image) =>
        && sound && Some(File(image)) == At(t, staging + [BINARIES[0]])
        && forall n :: n in BINARIES ==> At(e.now, dir + [n]) == At(t, staging + [n])
      case Returned(Installed(_)) => false
      case Returned(Failed) =>
        sound ==> forall n :: n in BINARIES ==>
          (At(e.now, dir + [n]) == At(t, dir + [n]) <==> n !in Unnoticed(os, d, dir, staging))
      case Returned(Incomplete) =>
        forall n :: n in BINARIES && n !in Unnoticed(os, d, dir, staging) && dir + [n] in t ==>
          At(e.now, dir + [n]) == At(t, dir + [n]) || At(e.now, dir + [Backup(n)]) == At(t, dir + [n])
  {
    var (c, outcome) := Install(os, d, dir, staging);
    InstallStates(os, dir, staging, d);
    forall n | n in BINARIES
      ensures Meets(d.now, c.now, dir, staging, n, outcome, Unnoticed(os, d, dir, staging))
    {
      InstallOutcome(os, dir, staging, d, n);
    }
    if outcome.Installed? {
      ExecOutcome(os, d.now, dir, staging, c, outcome.log, Unnoticed(os, d, dir, staging), sound);
    }
  }

  /** What an exec after a complete installation comes to. */
  lemma ExecOutcome(
    os: Fates, t: Tree, dir: Path, staging: Path, c: Disk, log: seq<Replacement>, unnoticed: set<Name>, sound: bool)
    requires Separate(dir, staging, BINARIES) && Settled(t, c.now, dir, staging, log, unnoticed)
    requires AllInPlace(t, c.now, dir, staging, log)
    requires forall n :: n in BINARIES ==> staging + [n] in t && t[staging + [n]].File?
    ensures
      var (e, ending) := Exec(os, c, dir, log, sound);
      && (ending.Replaced? ==> sound && e.now == c.now && Some(File(ending.image)) == At(t, staging + [BINARIES[0]]))
      && (ending.Returned? ==> !ending.outcome.Installed?)
      && (ending.Returned? && sound ==>
            forall n :: n in BINARIES ==> Meets(t, e.now, dir, staging, n, ending.outcome, unnoticed))
      && (!sound ==> ending == Returned(Failed))
  {
    var (e, ending) := Exec(os, c, dir, log, sound);
    if ending.Replaced? {
      assert BINARIES[0] in BINARIES;
      ServerRuns(c.now, dir, BINARIES[0]);
    } else if sound {
      forall n | n in BINARIES ensures Meets(t, e.now, dir, staging, n, ending.outcome, unnoticed) {
        AbandonMeets(os, t, dir, staging, c.Tick(), log, n, unnoticed);
      }
    }
  }

  lemma ServerRuns(t: Tree, dir: Path, n: Name)
    requires Home(t, dir) && dir + [n] in t && t[dir + [n]].File?
    ensures Stat(t, dir + [n]) == At(t, dir + [n])
  {
    ExistingIsPlain(t, dir + [n]);
    ResolvePlain(t, dir + [n]);
  }

  // ----- An installation -----

  /** Two staged binaries in `home/stage`, and an installed server without a backup. */
  function Installation(home: Name, stage: Name, before: Bytes, server: Bytes, client: Bytes): Tree {
    map[[] := Dir, [home] := Dir, [home, stage] := Dir,
        [home, BINARIES[0]] := File(before),
        [home, stage, BINARIES[0]] := File(server), [home, stage, BINARIES[1]] := File(client)]
  }

  /** What the theorems ask for is there. */
  lemma InstallationIsSite(home: Name, stage: Name, before: Bytes, server: Bytes, client: Bytes)
    requires stage !in BINARIES && forall n :: n in BINARIES ==> stage != Backup(n)
    ensures Site(Installation(home, stage, before, server, client), [home], [home, stage], BINARIES)
    ensures forall n :: n in BINARIES ==> Regular(Installation(home, stage, before, server, client), [home], n)
  {
    StageBeside(home, stage);
    BinariesSeparate([home], [home, stage]);
    InstallationIsTree(home, stage, BINARIES[0], BINARIES[1], before, server, client);
    forall n | n in BINARIES
      ensures [home, stage] + [n] in Installation(home, stage, before, server, client)
      ensures Installation(home, stage, before, server, client)[[home, stage] + [n]].File?
      ensures Regular(Installation(home, stage, before, server, client), [home], n)
    {
      BinaryPresent(home, stage, before, server, client, n);
    }
  }

  lemma StageBeside(home: Name, stage: Name)
    requires stage !in BINARIES && forall n :: n in BINARIES ==> stage != Backup(n)
    ensures [home, stage] !in Slots([home], BINARIES)
  {
    forall n | n in BINARIES ensures [home, stage] !in Slot([home], n) {
      assert ([home] + [n])[1] == n && ([home] + [Backup(n)])[1] == Backup(n) && [home, stage][1] == stage;
    }
  }

  lemma InstallationIsTree(home: Name, stage: Name, m: Name, n: Name, before: Bytes, server: Bytes, client: Bytes)
    requires m != stage
    ensures
      WellFormed(map[[] := Dir, [home] := Dir, [home, stage] := Dir, [home, m] := File(before),
                     [home, stage, m] := File(server), [home, stage, n] := File(client)])
  {
    var t := map[[] := Dir, [home] := Dir, [home, stage] := Dir, [home, m] := File(before),
                 [home, stage, m] := File(server), [home, stage, n] := File(client)];
    assert Parent([home]) == [] && Parent([home, stage]) == [home] && Parent([home, m]) == [home];
    assert Parent([home, stage, m]) == [home, stage] && Parent([home, stage, n]) == [home, stage];
    assert [home, stage][1] == stage && [home, m][1] == m;
    assert At(t, []) == Some(Dir) && At(t, [home]) == Some(Dir) && At(t, [home, stage]) == Some(Dir);
  }

  lemma BinaryPresent(home: Name, stage: Name, before: Bytes, server: Bytes, client: Bytes, n: Name)
    requires stage !in BINARIES && n in BINARIES && stage != Backup(n)
    ensures
      var t := Installation(home, stage, before, server, client);
      [home, stage] + [n] in t && t[[home, stage] + [n]].File? && Regular(t, [home], n)
  {
    assert [home, stage] + [n] == [home, stage, n] && [home] + [n] == [home, n];
    assert [home] + [Backup(n)] == [home, Backup(n)];
    assert |BINARIES[0]| == 13 && |BINARIES[1]| == 7;
  }
}
