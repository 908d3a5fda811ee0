/** The main task's update branch: stop the move job, install, exec, and otherwise restart the old server. */
module UpdateDriver {
  import opened FileSystem
  import opened Host
  import opened UpdateInstall
  import opened UpdateSafety
  import opened UpdateOutcome
  import Job = MoveJob

  // ----- The driver beside the move job -----

  datatype Driver =
    | Preparing                       // until a verified update is staged
    | Asked(ticket: Job.Ticket)       // Stop sent, waiting for the reply
    | Installing(calls: nat)          // installing, executing, restarting: so many system calls so far
    | Exited

  datatype System = System(job: Job.State, driver: Driver)

  datatype Action =
    | JobAction(action: Job.Action)
    | Ask(ticket: Job.Ticket)
    | ReadReply
    | Call                            // one system call of the installation
    | Leave

  function Act(c: Job.Config, s: System, a: Action): Option<System> {
    match a
    case JobAction(b) =>
      var next := Job.Act(c, s.job, b);
      if next.None? then None else Some(s.(job := next.value))
    case Ask(t) =>
      var next := Job.Act(c, s.job, Job.Submit(t, Job.Stop));
      if !s.driver.Preparing? then None
      else if next.None? then None
      else Some(System(next.value, Asked(t)))
    case ReadReply =>
      if !s.driver.Asked? || s.driver.ticket !in s.job.replies || s.job.replies[s.driver.ticket].Waiting? then None
      else Some(s.(driver := if s.job.replies[s.driver.ticket] == Job.Answered(Job.Ok) then Installing(0) else Exited))
    case Call =>
      if s.driver.Installing? then Some(s.(driver := Installing(s.driver.calls + 1))) else None
    case Leave =>
      Some(s.(driver := Exited))
  }

  function Run(c: Job.Config, s: System, actions: seq<Action>): Option<System>
    decreases |actions|
  {
    if actions == [] then Some(s)
    else
      var next := Act(c, s, actions[0]);
      if next.None? then None else Run(c, next.value, actions[1..])
  }

  ghost predicate Inv(s: System) {
    && Job.Inv(s.job)
    && (s.driver.Asked? ==> s.driver.ticket in s.job.requests && s.job.requests[s.driver.ticket] == Job.Stop)
    && (s.driver.Installing? ==> s.job.worker.Stopped?)
  }

  lemma JobKeepsRequests(c: Job.Config, s: Job.State, a: Job.Action, t: Job.Ticket)
    requires Job.Inv(s) && Job.Act(c, s, a).Some? && t in s.requests
    ensures
      var s' := Job.Act(c, s, a).value;
      t in s'.requests && s'.requests[t] == s.requests[t]
  {
    match a
    case DeskStep => Job.DeskLeavesWorker(c, s);
    case WorkerStep(choice) => Job.WorkerLeavesDesk(c, s, choice);
    case _ =>
  }

  lemma ActKeepsInv(c: Job.Config, s: System, a: Action)
    requires Inv(s) && Act(c, s, a).Some?
    ensures Inv(Act(c, s, a).value)
  {
    match a
    case JobAction(b) =>
      Job.ActKeepsInv(c, s.job, b);
      if s.driver.Asked? {
        JobKeepsRequests(c, s.job, b, s.driver.ticket);
      }
      if s.driver.Installing? {
        Job.StoppedStays(c, s.job, b);
      }
    case Ask(t) =>
      Job.ActKeepsInv(c, s.job, Job.Submit(t, Job.Stop));
    case ReadReply =>
      if s.job.replies[s.driver.ticket] == Job.Answered(Job.Ok) {
        assert Job.OkTo(s.job.acks, s.job.requests, s.driver.ticket, Job.Stop);
      }
    case Call =>
    case Leave =>
  }

  lemma {:induction false} RunKeepsInv(c: Job.Config, s: System, actions: seq<Action>)
    requires Inv(s) && Run(c, s, actions).Some?
    ensures Inv(Run(c, s, actions).value)
    decreases |actions|
  {
    if actions != [] {
      ActKeepsInv(c, s, actions[0]);
      RunKeepsInv(c, Act(c, s, actions[0]).value, actions[1..]);
    }
  }

  /** From the first system call of an installation to the last, whatever the clients and the front desk do
      in between, the move job's worker has ended: no batch is running, and it never uses the disk again. */
  lemma InstallsAlone(c: Job.Config, before: seq<Action>, after: seq<Action>)
    requires
      var s := Run(c, System(Job.Init(), Preparing), before);
      s.Some? && s.value.driver.Installing? && Run(c, s.value, after).Some?
    ensures
      var s := Run(c, System(Job.Init(), Preparing), before).value;
      var s' := Run(c, s, after).value;
      && s.job.worker.Stopped? && !s.job.flag
      && s'.job.worker.Stopped? && !s'.job.flag
      && s'.job.touches == s.job.touches && s'.job.begun == s.job.begun
  {
    RunKeepsInv(c, System(Job.Init(), Preparing), before);
    var s := Run(c, System(Job.Init(), Preparing), before).value;
    RunKeepsInv(c, s, after);
    StaysStopped(c, s, after);
  }

  lemma {:induction false} StaysStopped(c: Job.Config, s: System, actions: seq<Action>)
    requires s.job.worker.Stopped? && Run(c, s, actions).Some?
    ensures
      var s' := Run(c, s, actions).value;
      s'.job.worker.Stopped? && s'.job.touches == s.job.touches && s'.job.begun == s.job.begun
    decreases |actions|
  {
    if actions != [] {
      var next := Act(c, s, actions[0]).value;
      if actions[0].JobAction? {
        Job.StoppedStays(c, s.job, actions[0].action);
      }
      StaysStopped(c, next, actions[1..]);
    }
  }

  // ----- What gets started -----

  /** How the process goes on after the reply to its Stop. */
  datatype Finish =
    | Runs(image: Bytes)        // the new server, by the installation's exec
    | Restarts(image: Bytes)    // whatever server is at its path, by the fallback
    | Exits

  /** The rest of the branch. `reply` is what came back for the Stop, `sound` says that no argument holds a
      NUL byte (`Command::exec` refuses those as well), `dated` that the clock is not before the epoch. */
  function Conclude(
    os: Fates, d: Disk, dir: Path, staging: Path, reply: Job.Channel, sound: bool, dated: bool): (Disk, Finish)
  {
    if reply != Job.Answered(Job.Ok) then (d, Exits)
    else
      var (d1, ending) := Update(os, d, dir, staging, sound);
      if ending.Replaced? then (d1, Runs(ending.image))
      else if ending.outcome.Incomplete? || !dated || !sound then (d1, Exits)
      else
        var (d2, image) := Execute(os, d1, dir + [BINARIES[0]]);
        (d2, if image.Some? then Restarts(image.value) else Exits)
  }

  method ConcludeInPlace(m: Machine, dir: Path, staging: Path, reply: Job.Channel, sound: bool, dated: bool)
    returns (finish: Finish)
    modifies m`disk
    ensures (m.disk, finish) == Conclude(m.os, old(m.disk), dir, staging, reply, sound, dated)
  {
    if reply != Job.Answered(Job.Ok) {
      return Exits;
    }
    var outcome, installed := InstallInPlace(m, dir, staging);
    var incomplete := outcome.Incomplete?;
    if outcome.Installed? {
      var ending := ExecInPlace(m, dir, installed, sound);
      if ending.Replaced? {
        return Runs(ending.image);
      }
      incomplete := ending.outcome.Incomplete?;
    }
    if incomplete || !dated || !sound {
      return Exits;
    }
    var image := m.Execute(dir + [BINARIES[0]]);
    finish := if image.Some? then Restarts(image.value) else Exits;
  }

  /** A program is started only from a pair that is all new, or else from what is left of the old pair; and that is
      all of it exactly if no original went unnoticed. */
  lemma OnlyMatchingPairsRun(
    os: Fates, dir: Path, staging: Path, d: Disk, reply: Job.Channel, sound: bool, dated: bool)
    requires Site(d.now, dir, staging, BINARIES)
    ensures
      var t := d.now;
      var (e, finish) := Conclude(os, d, dir, staging, reply, sound, dated);
      match finish
      case Runs(image) =>
        && Some(File(image)) == At(t, staging + [BINARIES[0]])
        && forall n :: n in BINARIES ==> At(e.now, dir + [n]) == At(t, staging + [n])
      case Restarts(image) =>
        && Some(File(image)) == Stat(e.now, dir + [BINARIES[0]])
        && ((forall n :: n in BINARIES ==> At(e.now, dir + [n]) == At(t, dir + [n])) <==>
          Unnoticed(os, d, dir, staging) == {})
      case Exits => true
  {
    if reply == Job.Answered(Job.Ok) {
      UpdateOutcomes(os, dir, staging, d, sound);
      OverlookedAreNames(os, Checks(os, d, Guarded(dir, BINARIES)).0, dir, staging, BINARIES);
    }
  }

  /** Without an Ok to its Stop the process exits, and no call is made. */
  lemma NoOkNoInstall(
    os: Fates, dir: Path, staging: Path, d: Disk, reply: Job.Channel, sound: bool, dated: bool)
    ensures reply != Job.Answered(Job.Ok) ==> Conclude(os, d, dir, staging, reply, sound, dated) == (d, Exits)
  {
  }

  /** If the branch makes any call at all after the reply that the driver has been waiting for, then the worker has
      ended: no batch is running, and none ever moves anything again. */
  lemma ActsAlone(
    c: Job.Config, before: seq<Action>, after: seq<Action>,
    os: Fates, dir: Path, staging: Path, d: Disk, sound: bool, dated: bool)
    requires
      var s := Run(c, System(Job.Init(), Preparing), before);
      && s.Some? && s.value.driver.Asked? && s.value.driver.ticket in s.value.job.replies
      && Conclude(os, d, dir, staging, s.value.job.replies[s.value.driver.ticket], sound, dated).0 != d
      && Run(c, s.value, after).Some?
    ensures
      var s := Run(c, System(Job.Init(), Preparing), before).value;
      var s' := Run(c, s, after).value;
      && Act(c, s, ReadReply) == Some(s.(driver := Installing(0)))
      && s.job.worker.Stopped? && !s.job.flag
      && s'.job.worker.Stopped? && s'.job.touches == s.job.touches && s'.job.begun == s.job.begun
  {
    RunKeepsInv(c, System(Job.Init(), Preparing), before);
    var s := Run(c, System(Job.Init(), Preparing), before).value;
    assert s.job.replies[s.driver.ticket] == Job.Answered(Job.Ok) by {
      NoOkNoInstall(os, dir, staging, d, s.job.replies[s.driver.ticket], sound, dated);
    }
    StopWasDone(s);
    StaysStopped(c, s, after);
  }

  lemma StopWasDone(s: System)
    requires Inv(s) && s.driver.Asked? && s.driver.ticket in s.job.replies
    requires s.job.replies[s.driver.ticket] == Job.Answered(Job.Ok)
    ensures s.job.worker.Stopped? && !s.job.flag
  {
    assert Job.OkTo(s.job.acks, s.job.requests, s.driver.ticket, Job.Stop);
  }
}
