/** When an update succeeds, and what is started when it does not. */
module UpdateSuccess {
  import opened FileSystem
  import opened DiskStates
  import opened UpdateRollback
  import opened UpdateInstall
  import opened UpdateSafety
  import opened UpdateOutcome
  import opened UpdateDriver
  import Job = MoveJob

  // ----- The checks -----

  lemma OneCheck(os: Fates, dir: Path, d: Disk, p: Path, rest: seq<Path>)
    requires Home(d.now, dir) && Child(dir, p)
    ensures
      Checks(os, d, [p] + rest)
        == if os(d.clock).works && (p in d.now ==> d.now[p].File?)
           then Checks(os, d.Tick(), rest) else (d.Tick(), false)
  {
    HomeLocate(d.now, dir, p);
    assert ([p] + rest)[1..] == rest;
    assert p !in d.now ==> NotThere(d.now, p);
  }

  lemma TwoChecks(os: Fates, dir: Path, d: Disk, n: Name, rest: seq<Path>)
    requires Home(d.now, dir)
    ensures
      var (e, ok) := Checks(os, d, [dir + [n], dir + [Backup(n)]] + rest);
      if os(d.clock).works && os(d.clock + 1).works && Regular(d.now, dir, n)
      then (e, ok) == Checks(os, d.Tick().Tick(), rest) else !ok
  {
    var first, second := dir + [n], dir + [Backup(n)];
    assert [first, second] + rest == [first] + ([second] + rest);
    OneCheck(os, dir, d, first, [second] + rest);
    OneCheck(os, dir, d.Tick(), second, rest);
  }

  /** The checks pass exactly if each of their calls works and finds a regular file or nothing. */
  lemma {:induction false} ChecksPass(os: Fates, dir: Path, d: Disk, names: seq<Name>)
    requires Home(d.now, dir)
    ensures
      var (e, ok) := Checks(os, d, Guarded(dir, names));
      && (ok <==> AllRegular(d.now, dir, names) && AllOf(os, d.clock, 2 * |names|))
      && (ok ==> e == d.(clock := d.clock + 2 * |names|))
    decreases |names|
  {
    if names != [] {
      TwoChecks(os, dir, d, names[0], Guarded(dir, names[1..]));
      ChecksPass(os, dir, d.Tick().Tick(), names[1..]);
      RegularCons(d.now, dir, names);
      NextTwo(os, d.clock, 2 * |names[1..]|);
    }
  }

  ghost predicate AllRegular(t: Tree, dir: Path, names: seq<Name>) {
    forall n :: n in names ==> Regular(t, dir, n)
  }

  /** The `n` operations from number `from` on work. */
  ghost predicate AllOf(os: Fates, from: nat, n: nat) {
    forall k :: from <= k < from + n ==> os(k).works
  }

  lemma NextTwo(os: Fates, from: nat, n: nat)
    ensures AllOf(os, from, n + 2) <==> os(from).works && os(from + 1).works && AllOf(os, from + 2, n)
  {
  }

  lemma RegularCons(t: Tree, dir: Path, names: seq<Name>)
    requires names != []
    ensures AllRegular(t, dir, names) <==> Regular(t, dir, names[0]) && AllRegular(t, dir, names[1..])
  {
    assert names == [names[0]] + names[1..];
  }

  // ----- The renames -----

  /** Whether a binary is seen by an `exists()` that is the operation number `clock`. */
  predicate Sees(os: Fates, t: Tree, dir: Path, n: Name, clock: nat) {
    dir + [n] in t && os(clock).works
  }

  function Record(dir: Path, n: Name, seen: bool): Replacement {
    Replacement(dir + [n], if seen then Some(dir + [Backup(n)]) else None)
  }

  /** The operation that follows on the replacement of a binary, begun at `clock`. */
  function Next(clock: nat, seen: bool): nat {
    clock + if seen then 3 else 2
  }

  /** The second half of a replacement works, once the first half has, exactly if its rename does. */
  lemma NewComesIn(os: Fates, t: Tree, dir: Path, staging: Path, d: Disk, n: Name, saved: bool)
    requires Site(t, dir, staging, [n]) && Regular(t, dir, n) && WellFormed(d.now)
    requires SavedAs(t, d.now, dir + [n], dir + [Backup(n)], saved)
    ensures
      var (e, ok) := Rename(os, d, staging + [n], dir + [n]);
      ok == os(d.clock).works && e.clock == d.clock + 1
  {
    assert n in [n];
    StillInPlace(t, d.now, dir, staging, n, saved);
    RenameExact(os, d, staging + [n], dir + [n]);
  }

  lemma OneReplaced(os: Fates, dir: Path, staging: Path, d: Disk, n: Name)
    requires Site(d.now, dir, staging, [n]) && Regular(d.now, dir, n)
    ensures
      var (e, ok, log) := ReplaceOne(os, d, dir, staging, n);
      var seen := Sees(os, d.now, dir, n, d.clock);
      && ok == (os(d.clock + 1).works && (seen ==> os(d.clock + 2).works))
      && (ok ==> e.clock == Next(d.clock, seen) && log == [Record(dir, n, seen)])
  {
    var destination, backup := dir + [n], dir + [Backup(n)];
    var (d1, present) := TestExists(os, d, destination);
    var (d2, saved) := if present then Rename(os, d1, destination, backup) else (d1, true);
    assert saved == (present ==> os(d.clock + 1).works) && present == Sees(os, d.now, dir, n, d.clock)
      && d2.clock == d.clock + (if present then 2 else 1)
      && WellFormed(d2.now) && SavedAs(d.now, d2.now, destination, backup, present && saved) by
    {
      SaveOld(os, dir, staging, d, n);
    }
    if saved {
      NewComesIn(os, d.now, dir, staging, d2, n, present);
    }
  }

  /** When the second binary's turn comes. */
  function SecondBegins(os: Fates, d: Disk, dir: Path, m: Name): nat {
    Next(d.clock, Sees(os, d.now, dir, m, d.clock))
  }

  function AllReplaced(os: Fates, d: Disk, dir: Path, m: Name, n: Name): nat {
    Next(SecondBegins(os, d, dir, m), Sees(os, d.now, dir, n, SecondBegins(os, d, dir, m)))
  }

  function Records(os: Fates, d: Disk, dir: Path, m: Name, n: Name): seq<Replacement> {
    [Record(dir, m, Sees(os, d.now, dir, m, d.clock)),
     Record(dir, n, Sees(os, d.now, dir, n, SecondBegins(os, d, dir, m)))]
  }

  /** Every call works, from the one after `d.clock` until `more` calls after the renames, but perhaps `exists()`. */
  ghost predicate Smooth(os: Fates, d: Disk, dir: Path, m: Name, n: Name, more: nat) {
    forall k :: d.clock < k < AllReplaced(os, d, dir, m, n) + more && k != SecondBegins(os, d, dir, m) ==> os(k).works
  }

  /** The calls of the two replacements, one by one. */
  lemma SmoothParts(os: Fates, d: Disk, dir: Path, m: Name, n: Name)
    ensures
      var second := SecondBegins(os, d, dir, m);
      Smooth(os, d, dir, m, n, 0) <==>
        && os(d.clock + 1).works && (Sees(os, d.now, dir, m, d.clock) ==> os(d.clock + 2).works)
        && os(second + 1).works && (Sees(os, d.now, dir, n, second) ==> os(second + 2).works)
  {
    var second := SecondBegins(os, d, dir, m);
  }

  lemma SecondUntouched(os: Fates, dir: Path, staging: Path, d: Disk, m: Name, n: Name)
    requires Site(d.now, dir, staging, [m, n]) && Regular(d.now, dir, m) && Regular(d.now, dir, n)
    ensures
      var u := ReplaceOne(os, d, dir, staging, m).0.now;
      Site(u, dir, staging, [n]) && Regular(u, dir, n) && At(u, dir + [n]) == At(d.now, dir + [n])
  {
    assert [m, n][1..] == [n] && n in [n];
    assert dir + [n] in Footprint(dir, staging, n);
    FirstTracks(os, dir, staging, d, [m, n]);
  }

  lemma BothReplaced(os: Fates, dir: Path, staging: Path, d: Disk, m: Name, n: Name)
    requires Site(d.now, dir, staging, [m, n]) && Regular(d.now, dir, m) && Regular(d.now, dir, n)
    ensures
      var (e, ok, log) := ReplaceAll(os, d, dir, staging, [m, n]);
      && ok == Smooth(os, d, dir, m, n, 0)
      && (ok ==> e.clock == AllReplaced(os, d, dir, m, n) && log == Records(os, d, dir, m, n))
  {
    assert m in [m, n] && Site(d.now, dir, staging, [m]);
    OneReplaced(os, dir, staging, d, m);
    SmoothParts(os, d, dir, m, n);
    PairReplaced(os, dir, staging, d, m, n);
    if ReplaceOne(os, d, dir, staging, m).1 {
      SecondReplaced(os, dir, staging, d, m, n);
    }
  }

  lemma SecondReplaced(os: Fates, dir: Path, staging: Path, d: Disk, m: Name, n: Name)
    requires Site(d.now, dir, staging, [m, n]) && Regular(d.now, dir, m) && Regular(d.now, dir, n)
    requires ReplaceOne(os, d, dir, staging, m).0.clock == SecondBegins(os, d, dir, m)
    ensures
      var (e, ok, log) := ReplaceOne(os, ReplaceOne(os, d, dir, staging, m).0, dir, staging, n);
      var second := SecondBegins(os, d, dir, m);
      var seen := Sees(os, d.now, dir, n, second);
      && ok == (os(second + 1).works && (seen ==> os(second + 2).works))
      && (ok ==> e.clock == Next(second, seen) && log == [Record(dir, n, seen)])
  {
    var d1 := ReplaceOne(os, d, dir, staging, m).0;
    SecondUntouched(os, dir, staging, d, m, n);
    assert Sees(os, d.now, dir, n, d1.clock) == Sees(os, d1.now, dir, n, d1.clock);
    OneReplaced(os, dir, staging, d1, n);
  }

  lemma PairReplaced(os: Fates, dir: Path, staging: Path, d: Disk, m: Name, n: Name)
    ensures
      var (d1, one, first) := ReplaceOne(os, d, dir, staging, m);
      var (e, ok, second) := ReplaceOne(os, d1, dir, staging, n);
      ReplaceAll(os, d, dir, staging, [m, n]) == if one then (e, ok, first + second) else (d1, false, first)
  {
    var d1 := ReplaceOne(os, d, dir, staging, m).0;
    var (e, ok, second) := ReplaceOne(os, d1, dir, staging, n);
    assert [m, n][1..] == [n] && [n][1..] == [] && ReplaceAll(os, e, dir, staging, []) == (e, true, []);
    assert second + [] == second;
    assert ReplaceAll(os, d1, dir, staging, [n]) == (e, ok, second);
  }

  /** When the first binary cannot be replaced, the second is left alone. */
  lemma FailureStopsThere(os: Fates, dir: Path, staging: Path, d: Disk, m: Name, n: Name)
    requires Site(d.now, dir, staging, [m, n]) && Regular(d.now, dir, m) && Regular(d.now, dir, n)
    requires !ReplaceOne(os, d, dir, staging, m).1
    ensures
      var (e, ok, _) := ReplaceAll(os, d, dir, staging, [m, n]);
      !ok && Always(d, e, OnlyChanged(d.now, Footprint(dir, staging, m)))
  {
    PairReplaced(os, dir, staging, d, m, n);
    FirstTracks(os, dir, staging, d, [m, n]);
  }

  // ----- The transaction -----

  lemma PurgeWorks(os: Fates, dir: Path, staging: Path, d: Disk)
    requires Home(d.now, dir) && Child(dir, staging) && At(d.now, staging) == Some(Dir)
    ensures RemoveTree(os, d, staging).1 == os(d.clock).works && RemoveTree(os, d, staging).0.clock == d.clock + 1
  {
    HomeLocate(d.now, dir, staging);
  }

  lemma TransactionWorks(os: Fates, dir: Path, staging: Path, d: Disk)
    requires Site(d.now, dir, staging, BINARIES) && AllRegular(d.now, dir, BINARIES)
    ensures
      var (e, ok, log) := Transaction(os, d, dir, staging);
      && ok == Smooth(os, d, dir, BINARIES[0], BINARIES[1], 3)
      && (ok ==>
            && e.clock == AllReplaced(os, d, dir, BINARIES[0], BINARIES[1]) + 3
            && log == Records(os, d, dir, BINARIES[0], BINARIES[1]))
  {
    var m, n := BINARIES[0], BINARIES[1];
    var (d1, replaced, _) := ReplaceAll(os, d, dir, staging, BINARIES);
    assert BINARIES == [m, n] && m in BINARIES && n in BINARIES;
    BothReplaced(os, dir, staging, d, m, n);
    assert Home(d1.now, dir) && At(d1.now, staging) == Some(Dir) by {
      ReplaceAllTracks(os, dir, staging, d, BINARIES);
    }
    PurgeWorks(os, dir, staging, d1);
    SmoothEnd(os, d, dir, m, n);
  }

  lemma SmoothEnd(os: Fates, d: Disk, dir: Path, m: Name, n: Name)
    ensures
      var last := AllReplaced(os, d, dir, m, n);
      && (Smooth(os, d, dir, m, n, 3) <==>
            Smooth(os, d, dir, m, n, 0) && os(last).works && os(last + 1).works && os(last + 2).works)
      && (Smooth(os, d, dir, m, n, 4) <==> Smooth(os, d, dir, m, n, 3) && os(last + 3).works)
  {
    var last := AllReplaced(os, d, dir, m, n);
    assert last > SecondBegins(os, d, dir, m);
  }

  /** The disk when the checks are through. */
  function Checked(d: Disk): Disk {
    d.(clock := d.clock + 4)
  }

  /** The binaries and their backups are regular files or absent, and of the calls from the first check to the
      commit, and `more - 3` after it, each works, but perhaps the two `exists()`. */
  ghost predicate AllWork(os: Fates, dir: Path, d: Disk, more: nat) {
    && AllRegular(d.now, dir, BINARIES) && AllOf(os, d.clock, 4)
    && Smooth(os, Checked(d), dir, BINARIES[0], BINARIES[1], more)
  }

  /** An installation succeeds if and only if nothing irregular stands in its way and each of its calls works,
      but perhaps the two `exists()`. */
  lemma InstallSucceedsExactly(os: Fates, dir: Path, staging: Path, d: Disk)
    requires Site(d.now, dir, staging, BINARIES)
    ensures
      var (e, outcome) := Install(os, d, dir, staging);
      && (outcome.Installed? <==> AllWork(os, dir, d, 3))
      && (outcome.Installed? ==>
            && outcome.log == Records(os, Checked(d), dir, BINARIES[0], BINARIES[1])
            && e.clock == AllReplaced(os, Checked(d), dir, BINARIES[0], BINARIES[1]) + 3)
  {
    ChecksPass(os, dir, d, BINARIES);
    if Checks(os, d, Guarded(dir, BINARIES)).1 {
      assert Checks(os, d, Guarded(dir, BINARIES)) == (Checked(d), true);
      TransactionWorks(os, dir, staging, Checked(d));
    }
  }

  /** If something irregular does, nothing but the staging directory is touched. */
  lemma IrregularRefused(os: Fates, dir: Path, staging: Path, d: Disk, n: Name)
    requires Site(d.now, dir, staging, BINARIES) && n in BINARIES && !Regular(d.now, dir, n)
    ensures
      var (e, outcome) := Install(os, d, dir, staging);
      outcome == Failed && Always(d, e, OutsideSame(d.now, staging))
  {
    ChecksPass(os, dir, d, BINARIES);
    ChecksExact(os, dir, d, BINARIES);
    var d1 := Checks(os, d, Guarded(dir, BINARIES)).0;
    var e := RemoveTree(os, d1, staging).0;
    PurgeExact(os, dir, staging, d1);
    AlwaysFrom(d, d1, e, OutsideSame(d.now, staging));
  }

  // ----- The new server runs -----

  /** The new server comes to run if and only if the Stop was answered Ok, no argument holds a NUL byte, and the
      installation and the exec find nothing irregular and each call works, but perhaps the two `exists()`. */
  lemma NewServerRunsExactly(
    os: Fates, dir: Path, staging: Path, d: Disk, reply: Job.Channel, sound: bool, dated: bool)
    requires Site(d.now, dir, staging, BINARIES)
    ensures
      var finish := Conclude(os, d, dir, staging, reply, sound, dated).1;
      && (finish.Runs? <==> reply == Job.Answered(Job.Ok) && sound && AllWork(os, dir, d, 4))
      && (finish.Runs? ==> At(d.now, staging + [BINARIES[0]]) == Some(File(finish.image)))
  {
    RunsUnfolds(os, d, dir, staging, reply, sound, dated);
    ExecutedExactly(os, dir, staging, d);
  }

  lemma ExecutedExactly(os: Fates, dir: Path, staging: Path, d: Disk)
    requires Site(d.now, dir, staging, BINARIES)
    ensures
      var (c, outcome) := Install(os, d, dir, staging);
      var image := Execute(os, c, dir + [BINARIES[0]]).1;
      && (outcome.Installed? && image.Some? <==> AllWork(os, dir, d, 4))
      && (outcome.Installed? && image.Some? ==> At(d.now, staging + [BINARIES[0]]) == Some(File(image.value)))
  {
    OneCallMore(os, dir, d);
    InstallSucceedsExactly(os, dir, staging, d);
    if Install(os, d, dir, staging).1.Installed? {
      StagedIsExecuted(os, dir, staging, d);
    }
  }

  lemma OneCallMore(os: Fates, dir: Path, d: Disk)
    ensures
      AllWork(os, dir, d, 4) <==>
        AllWork(os, dir, d, 3) && os(AllReplaced(os, Checked(d), dir, BINARIES[0], BINARIES[1]) + 3).works
  {
    SmoothEnd(os, Checked(d), dir, BINARIES[0], BINARIES[1]);
  }

  lemma RunsUnfolds(os: Fates, d: Disk, dir: Path, staging: Path, reply: Job.Channel, sound: bool, dated: bool)
    ensures
      var finish := Conclude(os, d, dir, staging, reply, sound, dated).1;
      var (c, outcome) := Install(os, d, dir, staging);
      var image := Execute(os, c, dir + [BINARIES[0]]).1;
      && (finish.Runs? <==> reply == Job.Answered(Job.Ok) && outcome.Installed? && sound && image.Some?)
      && (finish.Runs? ==> image == Some(finish.image))
  {
  }

  /** What is executed after an installation is the staged server. */
  lemma StagedIsExecuted(os: Fates, dir: Path, staging: Path, d: Disk)
    requires Site(d.now, dir, staging, BINARIES) && Install(os, d, dir, staging).1.Installed?
    ensures
      var c := Install(os, d, dir, staging).0;
      var image := Execute(os, c, dir + [BINARIES[0]]).1;
      && (image.Some? <==> os(c.clock).works)
      && (image.Some? ==> At(d.now, staging + [BINARIES[0]]) == Some(File(image.value)))
  {
    var (c, outcome) := Install(os, d, dir, staging);
    InstallStates(os, dir, staging, d);
    assert BINARIES[0] in BINARIES && InPlace(d.now, c.now, dir, staging, BINARIES[0], outcome.log);
    ServerRuns(c.now, dir, BINARIES[0]);
  }

  // ----- Rolling back, and going back -----

  lemma AllUndone(os: Fates, dir: Path, d: Disk, log: seq<Replacement>)
    requires Home(d.now, dir) && Distinct(dir, log)
    requires forall k :: k >= d.clock ==> os(k).works
    requires forall r :: r in log ==> CanUndo(d.now, r)
    ensures
      var (e, left) := Rollback(os, d, log);
      left == [] && e.clock == d.clock + |log| && Home(e.now, dir) && RolledBack(d.now, e.now, log, [])
  {
    RollbackExact(os, dir, d, log);
    AllSucceed(os, d, log, Rollback(os, d, log).1);
  }

  lemma AllSucceed(os: Fates, d: Disk, log: seq<Replacement>, left: seq<Replacement>)
    requires Attempted(os, d, log, left) && forall r :: r in left ==> r in log
    requires forall k :: k >= d.clock ==> os(k).works
    requires forall r :: r in log ==> CanUndo(d.now, r)
    ensures left == []
  {
    if left != [] {
      var j := StillThere(os, d, log, left);
    }
  }

  lemma StillThere(os: Fates, d: Disk, log: seq<Replacement>, left: seq<Replacement>) returns (j: nat)
    requires Attempted(os, d, log, left) && forall r :: r in left ==> r in log
    requires left != []
    ensures j < |log| && !Succeeds(os, d, log, j)
  {
    assert left[0] in left;
    j :| 0 <= j < |log| && log[j] == left[0];
  }

  /** All that is on record after an installation can be undone. */
  lemma InstalledCanBeUndone(
    t: Tree, u: Tree, dir: Path, staging: Path, log: seq<Replacement>, unnoticed: set<Name>, r: Replacement)
    requires UpdateOutcome.Settled(t, u, dir, staging, log, unnoticed) && AllInPlace(t, u, dir, staging, log)
    requires Separate(dir, staging, BINARIES)
    requires forall n :: n in BINARIES ==> Regular(t, dir, n) && staging + [n] in t && t[staging + [n]].File?
    requires r in log
    ensures CanUndo(u, r)
  {
    var n :| n in BINARIES && RecordOf(dir, n, r);
    assert Regular(t, dir, n) && InPlace(t, u, dir, staging, n, log);
    assert Consistent(t, u, dir, staging, n, log, n in unnoticed);
  }

  /** What can be undone still can if it is as it was. */
  lemma StillUndoable(t: Tree, u: Tree, r: Replacement)
    requires CanUndo(t, r) && Same(t, u, r)
    ensures CanUndo(u, r)
  {
    assert r.destination in Touches(r) && (r.backup.Some? ==> r.backup.value in Touches(r));
  }

  /** Whatever fails in the first rollback, the one that the guard runs when it is dropped restores every name, as
      long as no call of that one fails. */
  lemma SecondRollbackRestores(os: Fates, dir: Path, d: Disk, log: seq<Replacement>)
    requires Home(d.now, dir) && Distinct(dir, log) && forall r :: r in log ==> CanUndo(d.now, r)
    requires forall k :: k >= d.clock + |log| ==> os(k).works
    ensures RolledBack(d.now, Abandon(os, d, log).0.now, log, [])
  {
    var (d1, left) := Rollback(os, d, log);
    RollbackExact(os, dir, d, log);
    forall r | r in left ensures CanUndo(d1.now, r) {
      StillUndoable(d.now, d1.now, r);
    }
    AllUndone(os, dir, d1, left);
    RollbacksStep(dir, d.now, d1.now, Rollback(os, d1, left).0.now, log, left, []);
  }

  /** With arguments that no program can take, nothing is executed, and dropping the guard restores every binary
      whose presence was noticed, as long as no call of that rollback fails. */
  lemma UnsoundRestores(os: Fates, dir: Path, staging: Path, d: Disk, n: Name)
    requires Site(d.now, dir, staging, BINARIES) && n in BINARIES && n !in Unnoticed(os, d, dir, staging)
    requires forall m :: m in BINARIES ==> Regular(d.now, dir, m)
    requires
      var (c, outcome) := Install(os, d, dir, staging);
      outcome.Installed? && forall k :: k >= c.clock ==> os(k).works
    ensures
      var (e, ending) := Update(os, d, dir, staging, false);
      ending == Returned(Failed) && At(e.now, dir + [n]) == At(d.now, dir + [n])
  {
    var (c, outcome) := Install(os, d, dir, staging);
    InstallStates(os, dir, staging, d);
    forall r | r in outcome.log ensures CanUndo(c.now, r) {
      InstalledCanBeUndone(d.now, c.now, dir, staging, outcome.log, Unnoticed(os, d, dir, staging), r);
    }
    AllUndone(os, dir, c, outcome.log);
    RollbackTracks(os, d.now, dir, staging, c, outcome.log, n);
  }

  /** What follows on an update that came to nothing. After an incomplete rollback, with the clock before the
      epoch or with arguments that no program can take, the process exits and touches nothing more. After a
      complete one it starts the old server, if that was noticed and the exec works. */
  lemma FallbackExactly(os: Fates, dir: Path, staging: Path, d: Disk, sound: bool, dated: bool)
    requires Site(d.now, dir, staging, BINARIES) && Update(os, d, dir, staging, sound).1.Returned?
    ensures
      var t := d.now;
      var (c, ending) := Update(os, d, dir, staging, sound);
      var (e, finish) := Conclude(os, d, dir, staging, Job.Answered(Job.Ok), sound, dated);
      && (ending.outcome.Incomplete? || !sound || !dated ==> e == c && finish.Exits?)
      && (!ending.outcome.Incomplete? && sound && dated && os(c.clock).works
          && dir + [BINARIES[0]] in t && BINARIES[0] !in Unnoticed(os, d, dir, staging)
          && Regular(t, dir, BINARIES[0]) ==>
            finish.Restarts? && Some(File(finish.image)) == At(t, dir + [BINARIES[0]]))
  {
    var (c, ending) := Update(os, d, dir, staging, sound);
    UpdateOutcomes(os, dir, staging, d, sound);
    assert BINARIES[0] in BINARIES;
    UpdateHome(os, dir, staging, d, sound);
    if sound && ending == Returned(Failed) && dir + [BINARIES[0]] in d.now
       && BINARIES[0] !in Unnoticed(os, d, dir, staging) && Regular(d.now, dir, BINARIES[0])
    {
      ServerRuns(c.now, dir, BINARIES[0]);
    }
  }

  lemma UpdateHome(os: Fates, dir: Path, staging: Path, d: Disk, sound: bool)
    requires Site(d.now, dir, staging, BINARIES)
    ensures Home(Update(os, d, dir, staging, sound).0.now, dir)
  {
    var (d1, regular) := Checks(os, d, Guarded(dir, BINARIES));
    ChecksExact(os, dir, d, BINARIES);
    if !regular {
      PurgeExact(os, dir, staging, d1);
    } else {
      var (d2, ok, log) := Transaction(os, d1, dir, staging);
      TransactionTracks(os, dir, staging, d1);
      AbandonHome(os, dir, d2, log);
      AbandonHome(os, dir, d2.Tick(), log);
    }
  }

  lemma AbandonHome(os: Fates, dir: Path, d: Disk, log: seq<Replacement>)
    requires Home(d.now, dir) && Distinct(dir, log)
    ensures Home(Rollback(os, d, log).0.now, dir) && Home(Abandon(os, d, log).0.now, dir)
  {
    var (d1, left) := Rollback(os, d, log);
    RollbackExact(os, dir, d, log);
    RollbackExact(os, dir, d1, left);
  }
}
