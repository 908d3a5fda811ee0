/** `move_dir`: copies a directory tree to cold storage, deletes the originals and leaves symbolic
    links behind. `MoveDir` is what one call computes; the method `MoveDirInPlace` is the loop the
    daemon runs, and computes exactly that. */
module TreeMover {
  import opened FileSystem
  import opened Host

  /** A targeted call, and every nested one, appends the last name of the source to the destination. */
  predicate AppendsName(isRoot: bool, isMass: bool) {
    (isRoot && !isMass) || !isRoot
  }

  function Destination(isRoot: bool, isMass: bool, src: Path, dst: Path): Path
    requires src != []
  {
    if AppendsName(isRoot, isMass) then dst + [Last(src)] else dst
  }

  function Depth(src: Path): nat {
    if |src| <= PATH_LIMIT then PATH_LIMIT + 1 - |src| else 0
  }

  function MoveDir(os: Fates, d: Disk, isRoot: bool, isMass: bool, src: Path, dst: Path): (Disk, bool)
    decreases Depth(src), 1
  {
    if src == [] then (d, false)
    else
      var target := Destination(isRoot, isMass, src, dst);
      var (d1, isFile) := TestFile(os, d, src);
      if isFile then Copy(os, d1, src, target) else MoveTree(os, d1, isRoot, isMass, src, target)
  }

  /** What a call does once its source is known not to be a file. */
  function MoveTree(os: Fates, d: Disk, isRoot: bool, isMass: bool, src: Path, target: Path): (Disk, bool)
    decreases Depth(src), 0
  {
    var (d2, made) := if AppendsName(isRoot, isMass) then MakeDirs(os, d, target) else (d, true);
    if !made then (d2, false)
    else
      var (d3, names) := ReadDir(os, d2, src);
      if names.None? then (d3, false) else MoveRest(os, d3, isRoot, isMass, src, target, names.value)
  }

  /** The loop, and the end of a targeted move. */
  function MoveRest(
    os: Fates, d: Disk, isRoot: bool, isMass: bool, src: Path, target: Path, names: seq<Name>): (Disk, bool)
    requires |src| <= PATH_LIMIT
    decreases Depth(src) - 1, |names| + 4
  {
    var (d4, ok) := MoveEntries(os, d, isRoot, isMass, src, target, names);
    if ok && isRoot && !isMass then ReplaceRoot(os, d4, src, target) else (d4, ok)
  }

  /** The loop over the directory stream; each step of the stream may fail, its end included. */
  function MoveEntries(os: Fates, d: Disk, isRoot: bool, isMass: bool, src: Path, dst: Path, names: seq<Name>)
    : (Disk, bool)
    requires |src| <= PATH_LIMIT
    decreases Depth(src) - 1, |names| + 3
  {
    var (d1, next) := Attempt(os, d);
    if !next || names == [] then (d1, next)
    else
      var (d2, ok) := MoveEntry(os, d1, isRoot, isMass, src, dst, names[0]);
      if ok then MoveEntries(os, d2, isRoot, isMass, src, dst, names[1..]) else (d2, false)
  }

  /** One entry: skip it if it is a link, otherwise move it, delete it and, in a mass move, link it. */
  function MoveEntry(os: Fates, d: Disk, isRoot: bool, isMass: bool, src: Path, dst: Path, name: Name)
    : (Disk, bool)
    requires |src| <= PATH_LIMIT
    decreases Depth(src) - 1, 2
  {
    var entry := src + [name];
    var (d1, meta) := Metadata(os, d, entry);
    if !meta.Found? then (d1, false)
    else if meta.node.Symlink? then (d1, true)
    else
      var (d2, moved) := MoveDir(os, d1, false, isMass, entry, dst);
      if moved then FinishEntry(os, d2, isRoot && isMass, entry, dst + [name]) else (d2, false)
  }

  /** Deletes what was copied and, where asked to, leaves a link to the copy. */
  function FinishEntry(os: Fates, d: Disk, link: bool, entry: Path, copy: Path): (Disk, bool) {
    var (d1, removed) := RemoveEntry(os, d, entry);
    if removed && link then MakeLink(os, d1, copy, entry) else (d1, removed)
  }

  function RemoveEntry(os: Fates, d: Disk, entry: Path): (Disk, bool) {
    var (d1, meta) := Metadata(os, d, entry);
    if !meta.Found? then (d1, false)
    else if meta.node.Dir? then RemoveDir(os, d1, entry)
    else RemoveFile(os, d1, entry)
  }

  /** The end of a targeted move: the emptied source gives way to a link. */
  function ReplaceRoot(os: Fates, d: Disk, src: Path, dst: Path): (Disk, bool) {
    var (d1, removed) := RemoveRoot(os, d, src);
    if removed then MakeLink(os, d1, dst, src) else (d1, false)
  }

  function RemoveRoot(os: Fates, d: Disk, src: Path): (Disk, bool) {
    var (d1, isDir) := TestDir(os, d, src);
    if isDir then RemoveDir(os, d1, src) else RemoveFile(os, d1, src)
  }

  // ----- The loop as the daemon runs it -----

  method MoveDirInPlace(m: Machine, isRoot: bool, isMass: bool, src: Path, dst: Path) returns (ok: bool)
    modifies m`disk
    ensures (m.disk, ok) == MoveDir(m.os, old(m.disk), isRoot, isMass, src, dst)
    decreases Depth(src), 1
  {
    if src == [] {
      return false;
    }
    var target := dst;
    if AppendsName(isRoot, isMass) {
      target := target + [Last(src)];
    }
    var isFile := m.TestFile(src);
    if isFile {
      ok := m.Copy(src, target);
    } else {
      ok := MoveTreeInPlace(m, isRoot, isMass, src, target);
    }
  }

  /** The same for a source that is not a file. */
  method MoveTreeInPlace(m: Machine, isRoot: bool, isMass: bool, src: Path, target: Path) returns (ok: bool)
    modifies m`disk
    ensures (m.disk, ok) == MoveTree(m.os, old(m.disk), isRoot, isMass, src, target)
    decreases Depth(src), 0
  {
    if AppendsName(isRoot, isMass) {
      ok := m.MakeDirs(target);
      if !ok {
        return;
      }
    }
    var names := m.ReadDir(src);
    if names.None? {
      return false;
    }
    ghost var d := m.disk;
    ok := MoveEntriesInPlace(m, isRoot, isMass, src, target, names.value);
    if ok && isRoot && !isMass {
      var isDir := m.TestDir(src);
      if isDir {
        ok := m.RemoveDir(src);
      } else {
        ok := m.RemoveFile(src);
      }
      if ok {
        ok := m.MakeLink(target, src);
      }
    }
    assert (m.disk, ok) == MoveRest(m.os, d, isRoot, isMass, src, target, names.value);
  }

  /** The loop over the directory stream. */
  method MoveEntriesInPlace(m: Machine, isRoot: bool, isMass: bool, src: Path, dst: Path, names: seq<Name>)
    returns (ok: bool)
    requires |src| <= PATH_LIMIT
    modifies m`disk
    ensures (m.disk, ok) == MoveEntries(m.os, old(m.disk), isRoot, isMass, src, dst, names)
    decreases Depth(src) - 1, 3
  {
    var i := 0;
    while true
      invariant 0 <= i <= |names|
      invariant MoveEntries(m.os, m.disk, isRoot, isMass, src, dst, names[i..])
             == MoveEntries(m.os, old(m.disk), isRoot, isMass, src, dst, names)
      decreases |names| - i
    {
      var next := m.Attempt();
      if !next {
        return false;
      }
      if i == |names| {
        return true;
      }
      assert names[i..][0] == names[i] && names[i..][1..] == names[i + 1..];
      ok := MoveEntryInPlace(m, isRoot, isMass, src, dst, names[i]);
      if !ok {
        return;
      }
      i := i + 1;
    }
  }

  /** The body of that loop. */
  method MoveEntryInPlace(m: Machine, isRoot: bool, isMass: bool, src: Path, dst: Path, name: Name)
    returns (ok: bool)
    requires |src| <= PATH_LIMIT
    modifies m`disk
    ensures (m.disk, ok) == MoveEntry(m.os, old(m.disk), isRoot, isMass, src, dst, name)
    decreases Depth(src) - 1, 2
  {
    var entry := src + [name];
    var meta := m.Metadata(entry);
    if !meta.Found? {
      return false;
    }
    if meta.node.Symlink? {
      return true;
    }
    ok := MoveDirInPlace(m, false, isMass, entry, dst);
    if !ok {
      return;
    }
    meta := m.Metadata(entry);
    if !meta.Found? {
      return false;
    }
    if meta.node.Dir? {
      ok := m.RemoveDir(entry);
    } else {
      ok := m.RemoveFile(entry);
    }
    if ok && isRoot && isMass {
      ok := m.MakeLink(dst + [name], entry);
    }
  }

  // ----- A mass move of a directory, unfolded -----

  lemma MassMoveUnfolds(os: Fates, d: Disk, a: Path, b: Path)
    requires a != [] && Plain(d.now, a) && At(d.now, a) == Some(Dir)
    ensures
      var (d2, names) := ReadDir(os, d.Tick(), a);
      MoveDir(os, d, true, true, a, b)
        == if names.Some? then MoveEntries(os, d2, true, true, a, b, names.value) else (d2, false)
  {
    ResolvePlain(d.now, a);
    var d1 := d.Tick();
    assert MoveDir(os, d, true, true, a, b) == MoveTree(os, d1, true, true, a, b);
    var (d2, names) := ReadDir(os, d1, a);
    if names.Some? {
      assert MoveTree(os, d1, true, true, a, b) == MoveRest(os, d2, true, true, a, b, names.value);
      assert MoveRest(os, d2, true, true, a, b, names.value) == MoveEntries(os, d2, true, true, a, b, names.value);
    } else {
      assert MoveTree(os, d1, true, true, a, b) == (d2, false);
    }
  }
}
