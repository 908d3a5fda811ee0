/** Installing a staged update: both binaries are renamed into place, the old ones kept as `_bak`, and
    any failure up to the very exec of the new server undoes all of it. */
module UpdateInstall {
  import opened FileSystem
  import opened Host
  import opened UpdateRollback

  const BINARIES: seq<Name> := ["dookie_server", "dookiec"]

  function Backup(n: Name): Name {
    n + "_bak"
  }

  // ----- What the installer does -----

  /** The installer refuses to touch anything but regular files and absent names. */
  function Checks(os: Fates, d: Disk, paths: seq<Path>): (Disk, bool)
    decreases |paths|
  {
    if paths == [] then (d, true)
    else
      var (d1, meta) := Metadata(os, d, paths[0]);
      if meta.NotFound? || (meta.Found? && meta.node.File?) then Checks(os, d1, paths[1..]) else (d1, false)
  }

  function Guarded(dir: Path, names: seq<Name>): seq<Path>
    decreases |names|
  {
    if names == [] then [] else [dir + [names[0]], dir + [Backup(names[0])]] + Guarded(dir, names[1..])
  }

  /** One binary: move the old one aside if there is one, put that on record, move the new one in. */
  function ReplaceOne(os: Fates, d: Disk, dir: Path, staging: Path, n: Name): (Disk, bool, seq<Replacement>) {
    var destination, backup := dir + [n], dir + [Backup(n)];
    var (d1, present) := TestExists(os, d, destination);
    var (d2, saved) := if present then Rename(os, d1, destination, backup) else (d1, true);
    if !saved then (d2, false, [])
    else
      var (d3, ok) := Rename(os, d2, staging + [n], destination);
      (d3, ok, [Replacement(destination, if present then Some(backup) else None)])
  }

  function ReplaceAll(os: Fates, d: Disk, dir: Path, staging: Path, names: seq<Name>): (Disk, bool, seq<Replacement>)
    decreases |names|
  {
    if names == [] then (d, true, [])
    else
      var (d1, ok, first) := ReplaceOne(os, d, dir, staging, names[0]);
      if !ok then (d1, false, first)
      else
        var (e, all, rest) := ReplaceAll(os, d1, dir, staging, names[1..]);
        (e, all, first + rest)
  }

  /** Everything that can fail before the commit. The staging directory goes away in any case: closed
      explicitly, with its errors reported, or dropped on the way out. */
  function Transaction(os: Fates, d: Disk, dir: Path, staging: Path): (Disk, bool, seq<Replacement>) {
    var (d1, replaced, log) := ReplaceAll(os, d, dir, staging, BINARIES);
    var (d2, closed) := RemoveTree(os, d1, staging);
    if !replaced || !closed then (d2, false, log)
    else
      var (d3, dirOpen) := Attempt(os, d2);
      if !dirOpen then (d3, false, log)
      else
        var (d4, synced) := Attempt(os, d3);
        (d4, synced, log)
  }

  /** `Incomplete` is the error that says that a rollback has failed. */
  datatype Outcome = Installed(log: seq<Replacement>) | Failed | Incomplete

  /** A rollback, and the second one that the guard runs when it is dropped. */
  function Abandon(os: Fates, d: Disk, log: seq<Replacement>): (Disk, Outcome) {
    var (d1, left) := Rollback(os, d, log);
    (Rollback(os, d1, left).0, if left == [] then Failed else Incomplete)
  }

  function Install(os: Fates, d: Disk, dir: Path, staging: Path): (Disk, Outcome) {
    var (d1, regular) := Checks(os, d, Guarded(dir, BINARIES));
    if !regular then (RemoveTree(os, d1, staging).0, Failed)
    else
      var (d2, ok, log) := Transaction(os, d1, dir, staging);
      if ok then (d2, Installed(log)) else Abandon(os, d2, log)
  }

  datatype Ending = Replaced(image: Bytes) | Returned(outcome: Outcome)

  /** `execv` of the installed server. `sound` says that no argument contains a NUL byte; if one does, no
      exec is tried and only dropping the guard rolls back, whose failure nobody sees. */
  function Exec(os: Fates, d: Disk, dir: Path, log: seq<Replacement>, sound: bool): (Disk, Ending) {
    if !sound then (Rollback(os, d, log).0, Returned(Failed))
    else
      var (d1, image) := Execute(os, d, dir + [BINARIES[0]]);
      if image.Some? then (d1, Replaced(image.value))
      else
        var (e, outcome) := Abandon(os, d1, log);
        (e, Returned(outcome))
  }

  /** `prepared.install().and_then(|installed| installed.exec(args))`. */
  function Update(os: Fates, d: Disk, dir: Path, staging: Path, sound: bool): (Disk, Ending) {
    var (d1, outcome) := Install(os, d, dir, staging);
    if outcome.Installed? then Exec(os, d1, dir, outcome.log, sound) else (d1, Returned(outcome))
  }

  // ----- The installer as it runs -----

  method ChecksInPlace(m: Machine, dir: Path, names: seq<Name>) returns (regular: bool)
    modifies m`disk
    ensures (m.disk, regular) == Checks(m.os, old(m.disk), Guarded(dir, names))
  {
    var paths := Guarded(dir, names);
    var i := 0;
    while i < |paths|
      invariant 0 <= i <= |paths|
      invariant Checks(m.os, m.disk, paths[i..]) == Checks(m.os, old(m.disk), paths)
    {
      assert paths[i..][0] == paths[i] && paths[i..][1..] == paths[i + 1..];
      var meta := m.Metadata(paths[i]);
      if !meta.NotFound? && !(meta.Found? && meta.node.File?) {
        return false;
      }
      i := i + 1;
    }
    return true;
  }

  method ReplaceOneInPlace(m: Machine, dir: Path, staging: Path, n: Name, installed: InstalledUpdate)
    returns (ok: bool, ghost log: seq<Replacement>)
    modifies m`disk, installed`replacements
    ensures (m.disk, ok, log) == ReplaceOne(m.os, old(m.disk), dir, staging, n)
    ensures installed.replacements == old(installed.replacements) + log
  {
    var destination, backup := dir + [n], None;
    var present := m.TestExists(destination);
    log := [];
    if present {
      backup := Some(dir + [Backup(n)]);
      ok := m.Rename(destination, backup.value);
      if !ok {
        return;
      }
    }
    log := [Replacement(destination, backup)];
    installed.replacements := installed.replacements + [Replacement(destination, backup)];
    ok := m.Rename(staging + [n], destination);
  }

  /** What is still to be done with `names`, after `log` has been put on record. */
  function ReplaceRest(os: Fates, d: Disk, dir: Path, staging: Path, names: seq<Name>, log: seq<Replacement>)
    : (Disk, bool, seq<Replacement>)
  {
    var (e, ok, rest) := ReplaceAll(os, d, dir, staging, names);
    (e, ok, log + rest)
  }

  lemma ReplaceRestStep(
    os: Fates, d: Disk, dir: Path, staging: Path, names: seq<Name>, log: seq<Replacement>, d1: Disk, one: bool,
    first: seq<Replacement>)
    requires names != [] && (d1, one, first) == ReplaceOne(os, d, dir, staging, names[0])
    ensures ReplaceRest(os, d, dir, staging, names, log)
         == if one then ReplaceRest(os, d1, dir, staging, names[1..], log + first) else (d1, false, log + first)
  {
    if one {
      var rest := ReplaceAll(os, d1, dir, staging, names[1..]).2;
      assert log + (first + rest) == log + first + rest;
    }
  }

  method ReplaceAllInPlace(m: Machine, dir: Path, staging: Path, names: seq<Name>, installed: InstalledUpdate)
    returns (ok: bool)
    modifies m`disk, installed`replacements
    ensures (m.disk, ok, installed.replacements)
         == ReplaceRest(m.os, old(m.disk), dir, staging, names, old(installed.replacements))
  {
    ghost var all := ReplaceRest(m.os, m.disk, dir, staging, names, installed.replacements);
    var i := 0;
    assert names[0..] == names;
    while i < |names|
      invariant 0 <= i <= |names|
      invariant ReplaceRest(m.os, m.disk, dir, staging, names[i..], installed.replacements) == all
    {
      assert names[i..][0] == names[i] && names[i..][1..] == names[i + 1..];
      ghost var d, log := m.disk, installed.replacements;
      ghost var first;
      ok, first := ReplaceOneInPlace(m, dir, staging, names[i], installed);
      ReplaceRestStep(m.os, d, dir, staging, names[i..], log, m.disk, ok, first);
      if !ok {
        return;
      }
      i := i + 1;
    }
    assert installed.replacements + [] == installed.replacements;
    ok := true;
  }

  /** Dropping the guard: a rollback whose failure is only printed. */
  method DropInPlace(m: Machine, installed: InstalledUpdate)
    modifies m`disk, installed`replacements
    ensures (m.disk, installed.replacements) == Rollback(m.os, old(m.disk), old(installed.replacements))
  {
    var _ := installed.RollbackInPlace(m);
  }

  method AbandonInPlace(m: Machine, installed: InstalledUpdate) returns (outcome: Outcome)
    modifies m`disk, installed`replacements
    ensures (m.disk, outcome) == Abandon(m.os, old(m.disk), old(installed.replacements))
  {
    var complete := installed.RollbackInPlace(m);
    outcome := if complete then Failed else Incomplete;
    DropInPlace(m, installed);
  }

  method InstallInPlace(m: Machine, dir: Path, staging: Path) returns (outcome: Outcome, installed: InstalledUpdate)
    modifies m`disk
    ensures (m.disk, outcome) == Install(m.os, old(m.disk), dir, staging)
    ensures fresh(installed) && (outcome.Installed? ==> installed.replacements == outcome.log)
  {
    installed := new InstalledUpdate(dir + [BINARIES[0]]);
    var ok := ChecksInPlace(m, dir, BINARIES);
    if !ok {
      var _ := m.RemoveTree(staging);
      return Failed, installed;
    }
    ghost var log := ReplaceAll(m.os, m.disk, dir, staging, BINARIES).2;
    assert [] + log == log;
    ok := ReplaceAllInPlace(m, dir, staging, BINARIES, installed);
    var closed := m.RemoveTree(staging);
    ok := ok && closed;
    if ok {
      ok := m.Attempt();
    }
    if ok {
      ok := m.Attempt();
    }
    if ok {
      return Installed(installed.replacements), installed;
    }
    outcome := AbandonInPlace(m, installed);
  }

  method ExecInPlace(m: Machine, dir: Path, installed: InstalledUpdate, sound: bool) returns (ending: Ending)
    modifies m`disk, installed`replacements
    ensures (m.disk, ending) == Exec(m.os, old(m.disk), dir, old(installed.replacements), sound)
  {
    if !sound {
      DropInPlace(m, installed);
      return Returned(Failed);
    }
    var image := m.Execute(dir + [BINARIES[0]]);
    if image.Some? {
      return Replaced(image.value);
    }
    var outcome := AbandonInPlace(m, installed);
    ending := Returned(outcome);
  }
}
