/** What a failed `exists()` costs: the original that goes unnoticed is overwritten, or removed again later. */
module UpdateLoss {
  import opened FileSystem
  import opened DiskStates
  import opened UpdateRollback
  import opened UpdateInstall
  import opened UpdateSafety
  import opened UpdateOutcome
  import opened UpdateSuccess
  import opened UpdateDriver
  import Job = MoveJob

  // ----- One failing call -----

  /** For every installed server there is a schedule with a single failing call, on which the installation
      succeeds and the server is lost: its name holds the new one, and the backup what it held before. */
  lemma ServerCanBeLost(dir: Path, staging: Path, d: Disk) returns (os: Fates)
    requires Site(d.now, dir, staging, BINARIES) && forall n :: n in BINARIES ==> Regular(d.now, dir, n)
    requires dir + [BINARIES[0]] in d.now
    ensures forall k :: k != d.clock + 4 ==> os(k).works
    ensures
      var t, server := d.now, BINARIES[0];
      var (e, outcome) := Install(os, d, dir, staging);
      && outcome.Installed? && server in Unnoticed(os, d, dir, staging)
      && At(e.now, dir + [server]) == At(t, staging + [server])
      && At(e.now, dir + [Backup(server)]) == At(t, dir + [Backup(server)])
      && forall p :: p !in Slots(dir, BINARIES) && !Under(staging, p) ==> At(e.now, p) == At(t, p)
  {
    os := k => Fate(k != d.clock + 4, false, [], s => [], {});
    InstallSucceedsExactly(os, dir, staging, d);
    assert BINARIES[0] in BINARIES;
    var log := Records(os, Checked(d), dir, BINARIES[0], BINARIES[1]);
    assert log[0] == Replacement(dir + [BINARIES[0]], None);
    UnseenIsLost(os, dir, staging, d, log, BINARIES[0]);
  }

  /** An original that is on record as if nothing had stood there. */
  lemma UnseenIsLost(os: Fates, dir: Path, staging: Path, d: Disk, log: seq<Replacement>, n: Name)
    requires Site(d.now, dir, staging, BINARIES) && n in BINARIES && dir + [n] in d.now
    requires Install(os, d, dir, staging).1 == Installed(log) && Replacement(dir + [n], None) in log
    ensures
      var t, e := d.now, Install(os, d, dir, staging).0;
      && n in Unnoticed(os, d, dir, staging)
      && At(e.now, dir + [n]) == At(t, staging + [n])
      && At(e.now, dir + [Backup(n)]) == At(t, dir + [Backup(n)])
      && Confined(t, e.now, dir, staging)
  {
    var e := Install(os, d, dir, staging).0;
    InstallStates(os, dir, staging, d);
    AlwaysEnds(d, e, ConfinedTo(d.now, dir, staging));
    assert InPlace(d.now, e.now, dir, staging, n, log);
    OneRecord(dir, log, n);
  }

  lemma OneRecord(dir: Path, log: seq<Replacement>, n: Name)
    requires Distinct(dir, log) && Replacement(dir + [n], None) in log
    ensures Replacement(dir + [n], Some(dir + [Backup(n)])) !in log
  {
    var moved, added := Replacement(dir + [n], Some(dir + [Backup(n)])), Replacement(dir + [n], None);
    assert dir + [n] in Touches(moved) && dir + [n] in Touches(added);
  }

  // ----- A server that runs without its client -----

  /** An exec that fails on a system on which all else works rolls everything back. */
  lemma ExecUndone(os: Fates, dir: Path, staging: Path, d: Disk, c: Disk, log: seq<Replacement>)
    requires Site(d.now, dir, staging, BINARIES) && forall n :: n in BINARIES ==> Regular(d.now, dir, n)
    requires Install(os, d, dir, staging) == (c, Installed(log))
    requires !os(c.clock).works && forall k :: k > c.clock ==> os(k).works
    ensures
      var (e, ending) := Update(os, d, dir, staging, true);
      && ending == Returned(Failed) && e.clock > c.clock
      && Home(e.now, dir) && RolledBack(c.now, e.now, log, [])
  {
    InstallStates(os, dir, staging, d);
    var c1 := c.Tick();
    forall r | r in log ensures CanUndo(c1.now, r) {
      InstalledCanBeUndone(d.now, c.now, dir, staging, log, Unnoticed(os, d, dir, staging), r);
    }
    AllUndone(os, dir, c1, log);
    assert Rollback(os, Rollback(os, c1, log).0, []) == (Rollback(os, c1, log).0, []);
    assert Abandon(os, c1, log) == (Rollback(os, c1, log).0, Failed);
    assert Exec(os, c, dir, log, true) == (Rollback(os, c1, log).0, Returned(Failed));
  }

  /** Two failing calls: `exists()` on the client, and the exec. */
  predicate OnlyTwoFail(os: Fates, start: nat, k: nat) {
    os(k).works <==> k != start + 7 && k != start + 12
  }

  lemma MismatchSchedule(os: Fates, dir: Path, d: Disk)
    requires forall k :: OnlyTwoFail(os, d.clock, k)
    requires forall n :: n in BINARIES ==> dir + [n] in d.now
    ensures Smooth(os, Checked(d), dir, BINARIES[0], BINARIES[1], 3)
    ensures AllReplaced(os, Checked(d), dir, BINARIES[0], BINARIES[1]) == d.clock + 9
    ensures
      Records(os, Checked(d), dir, BINARIES[0], BINARIES[1])
      == [Record(dir, BINARIES[0], true), Record(dir, BINARIES[1], false)]
    ensures AllOf(os, d.clock, 4)
  {
    assert BINARIES[0] in BINARIES;
    assert OnlyTwoFail(os, d.clock, d.clock + 4) && OnlyTwoFail(os, d.clock, d.clock + 7);
    assert SecondBegins(os, Checked(d), dir, BINARIES[0]) == d.clock + 7;
    forall k | d.clock <= k < d.clock + 12 && k != d.clock + 7 ensures os(k).works {
      assert OnlyTwoFail(os, d.clock, k);
    }
  }

  /** For every installed pair there is a schedule with two failing calls, `exists()` on the client and the
      exec, on which the old server is put back and started again, and the client is gone. */
  lemma MismatchCanRun(dir: Path, staging: Path, d: Disk) returns (os: Fates)
    requires Site(d.now, dir, staging, BINARIES) && forall n :: n in BINARIES ==> Regular(d.now, dir, n)
    requires forall n :: n in BINARIES ==> dir + [n] in d.now
    ensures forall k :: OnlyTwoFail(os, d.clock, k)
    ensures
      var t := d.now;
      var (e, finish) := Conclude(os, d, dir, staging, Job.Answered(Job.Ok), true, true);
      && finish.Restarts? && Some(File(finish.image)) == At(t, dir + [BINARIES[0]])
      && At(e.now, dir + [BINARIES[0]]) == At(t, dir + [BINARIES[0]])
      && dir + [BINARIES[1]] in t && dir + [BINARIES[1]] !in e.now
  {
    os := k => Fate(k != d.clock + 7 && k != d.clock + 12, false, [], s => [], {});
    MismatchSchedule(os, dir, d);
    InstallSucceedsExactly(os, dir, staging, d);
    MismatchFollows(os, dir, staging, d);
  }

  lemma MismatchFollows(os: Fates, dir: Path, staging: Path, d: Disk)
    requires Site(d.now, dir, staging, BINARIES) && forall n :: n in BINARIES ==> Regular(d.now, dir, n)
    requires forall n :: n in BINARIES ==> dir + [n] in d.now
    requires forall k :: OnlyTwoFail(os, d.clock, k)
    requires
      var (c, outcome) := Install(os, d, dir, staging);
      outcome == Installed([Record(dir, BINARIES[0], true), Record(dir, BINARIES[1], false)]) && c.clock == d.clock + 12
    ensures
      var t := d.now;
      var (e, finish) := Conclude(os, d, dir, staging, Job.Answered(Job.Ok), true, true);
      && finish.Restarts? && Some(File(finish.image)) == At(t, dir + [BINARIES[0]])
      && At(e.now, dir + [BINARIES[0]]) == At(t, dir + [BINARIES[0]])
      && dir + [BINARIES[1]] in t && dir + [BINARIES[1]] !in e.now
  {
    var (c, outcome) := Install(os, d, dir, staging);
    assert OnlyTwoFail(os, d.clock, c.clock);
    forall k | k > c.clock ensures os(k).works {
      assert OnlyTwoFail(os, d.clock, k);
    }
    ExecUndone(os, dir, staging, d, c, outcome.log);
    ClientGone(os, dir, staging, d, outcome.log);
    assert BINARIES[0] in BINARIES && BINARIES[1] in BINARIES && Regular(d.now, dir, BINARIES[0]);
    Restarted(os, dir, staging, d);
  }

  /** The fallback starts whatever is under the server's name. */
  lemma Restarted(os: Fates, dir: Path, staging: Path, d: Disk)
    requires
      var (e, ending) := Update(os, d, dir, staging, true);
      && ending == Returned(Failed) && os(e.clock).works && Home(e.now, dir)
      && dir + [BINARIES[0]] in e.now && e.now[dir + [BINARIES[0]]].File?
    ensures
      var e := Update(os, d, dir, staging, true).0;
      var (f, finish) := Conclude(os, d, dir, staging, Job.Answered(Job.Ok), true, true);
      f.now == e.now && finish.Restarts? && Some(File(finish.image)) == At(e.now, dir + [BINARIES[0]])
  {
    ServerRuns(Update(os, d, dir, staging, true).0.now, dir, BINARIES[0]);
  }

  /** The record of a pair of which the server was seen and the client was not, undone. */
  lemma ClientGone(os: Fates, dir: Path, staging: Path, d: Disk, log: seq<Replacement>)
    requires Site(d.now, dir, staging, BINARIES) && Install(os, d, dir, staging).1 == Installed(log)
    requires log == [Record(dir, BINARIES[0], true), Record(dir, BINARIES[1], false)]
    requires RolledBack(Install(os, d, dir, staging).0.now, Update(os, d, dir, staging, true).0.now, log, [])
    ensures
      var e := Update(os, d, dir, staging, true).0;
      At(e.now, dir + [BINARIES[0]]) == At(d.now, dir + [BINARIES[0]]) && dir + [BINARIES[1]] !in e.now
  {
    var c, e := Install(os, d, dir, staging).0, Update(os, d, dir, staging, true).0;
    InstallStates(os, dir, staging, d);
    assert BINARIES[0] in BINARIES && log[0] in log && log[1] in log;
    var unnoticed := Unnoticed(os, d, dir, staging);
    assert Consistent(d.now, c.now, dir, staging, BINARIES[0], log, BINARIES[0] in unnoticed);
    assert Restored(c.now, e.now, log[0]) && Restored(c.now, e.now, log[1]);
  }
}
