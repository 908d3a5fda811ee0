/** The running system: one disk, updated in place by each system call. */
module Host {
  import opened FileSystem
  import Calls = FileSystem

  class Machine {
    const os: Fates
    var disk: Disk

    constructor (os: Fates, disk: Disk)
      ensures this.os == os && this.disk == disk
    {
      this.os := os;
      this.disk := disk;
    }

    method TestFile(p: Path) returns (yes: bool)
      modifies `disk
      ensures (disk, yes) == Calls.TestFile(os, old(disk), p)
    {
      var (d, y) := Calls.TestFile(os, disk, p);
      disk, yes := d, y;
    }

    method TestDir(p: Path) returns (yes: bool)
      modifies `disk
      ensures (disk, yes) == Calls.TestDir(os, old(disk), p)
    {
      var (d, y) := Calls.TestDir(os, disk, p);
      disk, yes := d, y;
    }

    method Metadata(p: Path) returns (meta: Meta)
      modifies `disk
      ensures (disk, meta) == Calls.Metadata(os, old(disk), p)
    {
      var (d, m) := Calls.Metadata(os, disk, p);
      disk, meta := d, m;
    }

    method Copy(src: Path, dst: Path) returns (ok: bool)
      modifies `disk
      ensures (disk, ok) == Calls.Copy(os, old(disk), src, dst)
    {
      var (d, o) := Calls.Copy(os, disk, src, dst);
      disk, ok := d, o;
    }

    method MakeDirs(p: Path) returns (ok: bool)
      modifies `disk
      ensures (disk, ok) == Calls.MakeDirs(os, old(disk), p)
    {
      var (d, o) := Calls.MakeDirs(os, disk, p);
      disk, ok := d, o;
    }

    method ReadDir(p: Path) returns (names: Option<seq<Name>>)
      modifies `disk
      ensures (disk, names) == Calls.ReadDir(os, old(disk), p)
    {
      var (d, n) := Calls.ReadDir(os, disk, p);
      disk, names := d, n;
    }

    method Attempt() returns (ok: bool)
      modifies `disk
      ensures (disk, ok) == Calls.Attempt(os, old(disk))
    {
      var (d, o) := Calls.Attempt(os, disk);
      disk, ok := d, o;
    }

    method RemoveFile(p: Path) returns (ok: bool)
      modifies `disk
      ensures (disk, ok) == Calls.RemoveFile(os, old(disk), p)
    {
      var (d, o) := Calls.RemoveFile(os, disk, p);
      disk, ok := d, o;
    }

    method IsMissing(p: Path) returns (yes: bool)
      ensures yes == Calls.IsMissing(os, disk, p)
    {
      yes := Calls.IsMissing(os, disk, p);
    }

    method RemoveDir(p: Path) returns (ok: bool)
      modifies `disk
      ensures (disk, ok) == Calls.RemoveDir(os, old(disk), p)
    {
      var (d, o) := Calls.RemoveDir(os, disk, p);
      disk, ok := d, o;
    }

    method MakeLink(target: Path, link: Path) returns (ok: bool)
      modifies `disk
      ensures (disk, ok) == Calls.MakeLink(os, old(disk), target, link)
    {
      var (d, o) := Calls.MakeLink(os, disk, target, link);
      disk, ok := d, o;
    }

    method TestExists(p: Path) returns (yes: bool)
      modifies `disk
      ensures (disk, yes) == Calls.TestExists(os, old(disk), p)
    {
      var (d, y) := Calls.TestExists(os, disk, p);
      disk, yes := d, y;
    }

    method Rename(src: Path, dst: Path) returns (ok: bool)
      modifies `disk
      ensures (disk, ok) == Calls.Rename(os, old(disk), src, dst)
    {
      var (d, o) := Calls.Rename(os, disk, src, dst);
      disk, ok := d, o;
    }

    method Execute(p: Path) returns (image: Option<Bytes>)
      modifies `disk
      ensures (disk, image) == Calls.Execute(os, old(disk), p)
    {
      var (d, i) := Calls.Execute(os, disk, p);
      disk, image := d, i;
    }

    method RemoveTree(p: Path) returns (ok: bool)
      modifies `disk
      ensures (disk, ok) == Calls.RemoveTree(os, old(disk), p)
    {
      var (d, o) := Calls.RemoveTree(os, disk, p);
      disk, ok := d, o;
    }
  }
}
