/** The filesystem every part of the daemon works on, as a map from absolute paths to nodes.
    Operations resolve symbolic links the way the system calls do, and each of them may fail:
    a schedule of fates, one per operation, stands for whatever the operating system does. */
module FileSystem {

  type Name = string
  type Path = seq<Name>   // absolute; [] is the root directory
  type byte = x: int | 0 <= x < 256
  type Bytes = seq<byte>

  datatype Option<+T> = None | Some(value: T)

  datatype Node =
    | File(content: Bytes)
    | Dir
    | Symlink(target: Path)
    | Socket(id: nat)

  type Tree = map<Path, Node>

  /** How many links one lookup may follow, and a bound on the components of a path: no system takes a path
      of more than 4096 bytes, and that has fewer. */
  const LINK_LIMIT: nat := 32
  const PATH_LIMIT: nat := 4096

  function At(t: Tree, p: Path): Option<Node> {
    if p in t then Some(t[p]) else None
  }

  /** `p` is `a` or lies below it. */
  predicate Under(a: Path, p: Path) {
    |a| <= |p| && p[..|a|] == a
  }

  predicate Apart(a: Path, b: Path) {
    !Under(a, b) && !Under(b, a)
  }

  function Parent(p: Path): Path
    requires p != []
  {
    p[..|p| - 1]
  }

  function Last(p: Path): Name
    requires p != []
  {
    p[|p| - 1]
  }

  /** Every node other than the root sits in a directory. */
  ghost predicate WellFormed(t: Tree) {
    && At(t, []) == Some(Dir)
    && forall p {:trigger Parent(p)} :: p in t && p != [] ==> At(t, Parent(p)) == Some(Dir)
  }

  // ----- Path resolution -----

  /** Follows `rest` from the resolved directory `base`. A link in the middle is always followed,
      one at the end only when `follow` is set; too many links is an error. */
  function Walk(t: Tree, base: Path, rest: Path, follow: bool, links: nat): Option<Path>
    decreases links, |rest|
  {
    if rest == [] then Some(base)
    else
      var q := base + [rest[0]];
      if q in t && t[q].Symlink? && (follow || |rest| > 1) then
        if links == 0 then None else Walk(t, [], t[q].target + rest[1..], follow, links - 1)
      else Walk(t, q, rest[1..], follow, links)
  }

  /** The entry `p` names, without following a link at the end. */
  function Locate(t: Tree, p: Path): Option<Path> {
    Walk(t, [], p, false, LINK_LIMIT)
  }

  /** The entry `p` names after following every link. */
  function Resolve(t: Tree, p: Path): Option<Path> {
    Walk(t, [], p, true, LINK_LIMIT)
  }

  function NodeAt(t: Tree, where: Option<Path>): Option<Node> {
    if where.Some? then At(t, where.value) else None
  }

  function Lstat(t: Tree, p: Path): Option<Node> { NodeAt(t, Locate(t, p)) }

  function Stat(t: Tree, p: Path): Option<Node> { NodeAt(t, Resolve(t, p)) }

  predicate IsDirAt(t: Tree, p: Path) { At(t, p) == Some(Dir) }

  /** A new entry may be created at the resolved path `q`. */
  predicate Creatable(t: Tree, q: Path) {
    q != [] && q !in t && IsDirAt(t, Parent(q))
  }

  /** Nothing is at the resolved path `q`, and all that is missing is at the end of it: the error is NotFound.
      Below something that is no directory it would be another. */
  predicate NotThere(t: Tree, q: Path)
    decreases |q|
  {
    q !in t && (q == [] || if Parent(q) in t then t[Parent(q)].Dir? else NotThere(t, Parent(q)))
  }

  function Entries(t: Tree, p: Path): set<Name> {
    set q | q in t && |q| == |p| + 1 && Under(p, q) :: q[|p|]
  }

  predicate Enumerates(names: seq<Name>, entries: set<Name>) {
    && (forall n | n in names :: n in entries)
    && (forall n | n in entries :: n in names)
    && forall i, j :: 0 <= i < j < |names| ==> names[i] != names[j]
  }

  // ----- Operations that may fail -----

  /** What the operating system makes of one operation. `begun`, `part` and `victims` say how far a
      copy or a recursive removal had got part-way; `listing` is the order a directory is read in
      (anything but an enumeration of the entries is a failed read). */
  datatype Fate = Fate(works: bool, begun: bool, part: Bytes, listing: set<Name> -> seq<Name>, victims: set<Path>)

  type Fates = nat -> Fate

  /** From operation `from` on, the system lets every call do what it can. */
  ghost predicate Reliable(os: Fates, from: nat) {
    forall k :: k >= from ==> os(k).works && forall s :: Enumerates(os(k).listing(s), s)
  }

  /** The tree, every earlier tree a crash could have exposed, and how many operations were issued. */
  datatype Disk = Disk(past: seq<Tree>, now: Tree, clock: nat) {
    function States(): seq<Tree> { past + [now] }

    function Tick(): Disk { this.(clock := clock + 1) }

    function Push(t: Tree): Disk { Disk(past + [now], t, clock) }
  }

  /** `Path::is_file` and `Path::is_dir`: any error reads as "no". */
  function TestFile(os: Fates, d: Disk, p: Path): (Disk, bool) {
    var s := Stat(d.now, p);
    (d.Tick(), os(d.clock).works && s.Some? && s.value.File?)
  }

  function TestDir(os: Fates, d: Disk, p: Path): (Disk, bool) {
    (d.Tick(), os(d.clock).works && Stat(d.now, p) == Some(Dir))
  }

  /** `Path::exists`: follows links, and any error reads as "no". */
  function TestExists(os: Fates, d: Disk, p: Path): (Disk, bool) {
    (d.Tick(), os(d.clock).works && Stat(d.now, p).Some?)
  }

  datatype Meta = Found(node: Node) | NotFound | Error

  /** `symlink_metadata`. */
  function Metadata(os: Fates, d: Disk, p: Path): (Disk, Meta) {
    var q := Locate(d.now, p);
    (d.Tick(),
     if !os(d.clock).works || q.None? then Error
     else if q.value in d.now then Found(d.now[q.value])
     else if NotThere(d.now, q.value) then NotFound else Error)
  }

  /** The resolved destination of a copy, if it can be opened for writing. */
  function Writable(t: Tree, p: Path): Option<Path> {
    var q := Resolve(t, p);
    if q.Some? && (Creatable(t, q.value) || (q.value in t && t[q.value].File?)) then q else None
  }

  /** `fs::copy`: truncates or creates the destination, then fills it bit by bit. */
  function Copy(os: Fates, d: Disk, src: Path, dst: Path): (Disk, bool) {
    var fate := os(d.clock);
    var d1 := d.Tick();
    var from := Stat(d.now, src);
    var to := Writable(d.now, dst);
    if from.None? || !from.value.File? || to.None? || (!fate.works && !fate.begun) then (d1, false)
    else
      var emptied := d1.now[to.value := File([])];
      var partial := d1.now[to.value := File(fate.part)];
      if !fate.works then (d1.Push(emptied).Push(partial), false)
      else
        var source := Stat(emptied, src);
        var full := d1.now[to.value := if source.Some? then source.value else File([])];
        (d1.Push(emptied).Push(partial).Push(full), true)
  }

  datatype Made = Made | Missing | Refused

  /** `fs::create_dir`; `Missing` is the NotFound error of an absent parent. */
  function MakeDir(os: Fates, d: Disk, p: Path): (Disk, Made) {
    var q := Locate(d.now, p);
    if !os(d.clock).works || q.None? || q.value in d.now || q.value == [] then (d.Tick(), Refused)
    else if !NotThere(d.now, q.value) then (d.Tick(), Refused)
    else if Parent(q.value) !in d.now then (d.Tick(), Missing)
    else (d.Tick().Push(d.now[q.value := Dir]), Made)
  }

  /** `fs::create_dir_all`: creates missing parents first, and accepts an existing directory. */
  function MakeDirs(os: Fates, d: Disk, p: Path): (Disk, bool)
    decreases |p|
  {
    var (d1, first) := MakeDir(os, d, p);
    if first.Made? then (d1, true)
    else if first.Refused? then TestDir(os, d1, p)
    else if p == [] then (d1, false)
    else
      var (d2, parents) := MakeDirs(os, d1, Parent(p));
      if !parents then (d2, false)
      else
        var (d3, second) := MakeDir(os, d2, p);
        if second.Made? then (d3, true) else TestDir(os, d3, p)
  }

  function Listed(fate: Fate, entries: set<Name>): Option<seq<Name>> {
    if Enumerates(fate.listing(entries), entries) then Some(fate.listing(entries)) else None
  }

  /** `fs::read_dir`: the entries of the directory, in whatever order the system lists them. */
  function ReadDir(os: Fates, d: Disk, p: Path): (Disk, Option<seq<Name>>) {
    var q := Resolve(d.now, p);
    (d.Tick(),
     if os(d.clock).works && |p| <= PATH_LIMIT && q.Some? && IsDirAt(d.now, q.value)
     then Listed(os(d.clock), Entries(d.now, q.value)) else None)
  }

  /** Any call whose only effect here is that it may fail, such as reading the next entry. */
  function Attempt(os: Fates, d: Disk): (Disk, bool) {
    (d.Tick(), os(d.clock).works)
  }

  /** `fs::remove_file`: removes anything but a directory, never following a final link. */
  function RemoveFile(os: Fates, d: Disk, p: Path): (Disk, bool) {
    var q := Locate(d.now, p);
    if os(d.clock).works && q.Some? && q.value in d.now && !d.now[q.value].Dir?
    then (d.Tick().Push(d.now - {q.value}), true)
    else (d.Tick(), false)
  }

  /** Whether the error of a call on `p` that fails now would be NotFound. */
  predicate IsMissing(os: Fates, d: Disk, p: Path) {
    var q := Locate(d.now, p);
    os(d.clock).works && q.Some? && NotThere(d.now, q.value)
  }

  /** `fs::remove_dir`: removes an empty directory. */
  function RemoveDir(os: Fates, d: Disk, p: Path): (Disk, bool) {
    var q := Locate(d.now, p);
    if os(d.clock).works && q.Some? && q.value != [] && IsDirAt(d.now, q.value)
       && Entries(d.now, q.value) == {}
    then (d.Tick().Push(d.now - {q.value}), true)
    else (d.Tick(), false)
  }

  /** `fs::symlink`: the new link must not exist yet. */
  function MakeLink(os: Fates, d: Disk, target: Path, link: Path): (Disk, bool) {
    var q := Locate(d.now, link);
    if os(d.clock).works && q.Some? && Creatable(d.now, q.value)
    then (d.Tick().Push(d.now[q.value := Symlink(target)]), true)
    else (d.Tick(), false)
  }

  /** `fs::rename`: one atomic step, replacing whatever non-directory stands at the destination.
      Nothing here renames a directory. */
  function Rename(os: Fates, d: Disk, src: Path, dst: Path): (Disk, bool) {
    var from, to := Locate(d.now, src), Locate(d.now, dst);
    if os(d.clock).works && from.Some? && to.Some? && from.value in d.now && !d.now[from.value].Dir?
       && (Creatable(d.now, to.value) || (to.value in d.now && !d.now[to.value].Dir?))
    then (d.Tick().Push((d.now - {from.value})[to.value := d.now[from.value]]), true)
    else (d.Tick(), false)
  }

  /** `execv`: the program that takes over the process, unless the call fails and returns. */
  function Execute(os: Fates, d: Disk, p: Path): (Disk, Option<Bytes>) {
    var image := Stat(d.now, p);
    (d.Tick(), if os(d.clock).works && image.Some? && image.value.File? then Some(image.value.content) else None)
  }

  function Subtree(t: Tree, p: Path): set<Path> {
    set q | q in t && Under(p, q)
  }

  /** What an interrupted recursive removal has removed: a directory goes only after all below it. */
  function Removed(t: Tree, p: Path, victims: set<Path>): set<Path> {
    set q | q in t && Under(p, q) && Subtree(t, q) <= victims
  }

  /** `fs::remove_dir_all`: removes a directory and all below it, following no link; it may fail part-way. */
  function RemoveTree(os: Fates, d: Disk, p: Path): (Disk, bool) {
    var q := Locate(d.now, p);
    if q.None? || q.value == [] || q.value !in d.now then (d.Tick(), false)
    else if d.now[q.value].Symlink? then RemoveFile(os, d, p)
    else if !d.now[q.value].Dir? then (d.Tick(), false)
    else
      var partial := d.Tick().Push(d.now - Removed(d.now, q.value, os(d.clock).victims));
      if os(d.clock).works then (partial.Push(d.now - Subtree(d.now, q.value)), true) else (partial, false)
  }

  // ----- Facts about paths and trees -----

  lemma UnderSplit(a: Path, p: Path)
    requires Under(a, p)
    ensures p == a + p[|a|..]
  {
  }

  lemma UnderParent(a: Path, p: Path)
    requires Under(a, p) && p != a
    ensures p != [] && Under(a, Parent(p))
  {
    assert |p| > |a|;
    assert Parent(p)[..|a|] == p[..|a|];
  }

  /** Two prefixes of one path are comparable, so nothing lies below two roots that are apart. */
  lemma UnderBoth(a: Path, b: Path, p: Path)
    requires Under(a, p) && Under(b, p)
    ensures Under(a, b) || Under(b, a)
  {
    if |a| <= |b| {
      assert b[..|a|] == p[..|a|];
    } else {
      assert a[..|b|] == p[..|b|];
    }
  }

  lemma UnderTransitive(a: Path, b: Path, p: Path)
    requires Under(a, b) && Under(b, p)
    ensures Under(a, p)
  {
    assert p[..|a|] == p[..|b|][..|a|];
  }

  /** Everything on the way to an existing node is a directory. */
  lemma {:induction false} AncestorsAreDirs(t: Tree, p: Path, q: Path)
    requires WellFormed(t) && p in t && Under(q, p) && q != p
    ensures At(t, q) == Some(Dir)
    decreases |p|
  {
    UnderParent(q, p);
    if q != Parent(p) {
      AncestorsAreDirs(t, Parent(p), q);
    }
  }

  /** No link on the way to `p`, `p` included. */
  ghost predicate Plain(t: Tree, p: Path) {
    forall k :: 0 <= k <= |p| ==> !(p[..k] in t && t[p[..k]].Symlink?)
  }

  /** A path without links resolves to itself, followed or not. */
  lemma {:induction false} WalkPlain(t: Tree, p: Path, i: nat, follow: bool, links: nat)
    requires i <= |p|
    requires Plain(t, p) || (!follow && p != [] && Plain(t, Parent(p)))
    ensures Walk(t, p[..i], p[i..], follow, links) == Some(p)
    decreases |p| - i
  {
    if i < |p| {
      var q := p[..i] + [p[i..][0]];
      assert q == p[..i + 1];
      assert p[i..][1..] == p[i + 1..];
      if i + 1 < |p| && !Plain(t, p) {
        assert q == Parent(p)[..i + 1];
      }
      WalkPlain(t, p, i + 1, follow, links);
    } else {
      assert p[..i] == p;
    }
  }

  lemma LocatePlain(t: Tree, p: Path)
    requires Plain(t, p) || (p != [] && Plain(t, Parent(p)))
    ensures Locate(t, p) == Some(p)
  {
    WalkPlain(t, p, 0, false, LINK_LIMIT);
    assert p[..0] == [] && p[0..] == p;
  }

  lemma ResolvePlain(t: Tree, p: Path)
    requires Plain(t, p)
    ensures Resolve(t, p) == Some(p) && Locate(t, p) == Some(p)
  {
    WalkPlain(t, p, 0, true, LINK_LIMIT);
    LocatePlain(t, p);
    assert p[..0] == [] && p[0..] == p;
  }

  /** A lookup that goes on where another one has ended up. */
  lemma {:induction false} WalkOn(t: Tree, base: Path, x: Path, rest: Path, follow: bool, links: nat, q: Path)
    returns (left: nat)
    requires Walk(t, base, x, true, links) == Some(q) && rest != []
    ensures Walk(t, base, x + rest, follow, links) == Walk(t, q, rest, follow, left)
    decreases links, |x|
  {
    if x == [] {
      assert x + rest == rest;
      left := links;
    } else {
      var next := base + [x[0]];
      assert (x + rest)[0] == x[0] && (x + rest)[1..] == x[1..] + rest;
      if next in t && t[next].Symlink? {
        assert t[next].target + (x + rest)[1..] == (t[next].target + x[1..]) + rest;
        left := WalkOn(t, [], t[next].target + x[1..], rest, follow, links - 1, q);
      } else {
        left := WalkOn(t, next, x[1..], rest, follow, links, q);
      }
    }
  }

  /** What lies below a directory can be reached by any name of the directory. */
  lemma ResolveBelow(t: Tree, x: Path, a: Path, p: Path, follow: bool)
    requires Resolve(t, x) == Some(a) && Under(a, p) && p != a
    requires Plain(t, p) || (!follow && Plain(t, Parent(p)))
    ensures Walk(t, [], x + p[|a|..], follow, LINK_LIMIT) == Some(p)
  {
    var left := WalkOn(t, [], x, p[|a|..], follow, LINK_LIMIT, a);
    WalkPlain(t, p, |a|, follow, left);
  }

  /** In a well-formed tree the way to an existing node has no links. */
  lemma ExistingIsPlain(t: Tree, p: Path)
    requires WellFormed(t) && p in t
    ensures p != [] ==> Plain(t, Parent(p))
    ensures !t[p].Symlink? ==> Plain(t, p)
    ensures Lstat(t, p) == Some(t[p])
  {
    forall k | 0 <= k < |p| ensures At(t, p[..k]) == Some(Dir) {
      assert Under(p[..k], p);
      AncestorsAreDirs(t, p, p[..k]);
    }
    assert p[..|p|] == p;
    if p != [] {
      forall k | 0 <= k <= |Parent(p)| ensures Parent(p)[..k] == p[..k] {}
      assert Plain(t, Parent(p));
    }
    LocatePlain(t, p);
  }

  lemma PlainPrefix(t: Tree, p: Path, q: Path)
    requires Plain(t, p) && Under(q, p)
    ensures Plain(t, q)
  {
    forall k | 0 <= k <= |q| ensures q[..k] == p[..k] {}
  }

  lemma EntriesOf(t: Tree, p: Path, n: Name)
    ensures n in Entries(t, p) <==> p + [n] in t
  {
    assert Under(p, p + [n]) && (p + [n])[|p|] == n;
    if n in Entries(t, p) {
      var q :| q in t && |q| == |p| + 1 && Under(p, q) && q[|p|] == n;
      assert q == p + [n];
    }
  }

  /** Two trees with the same node everywhere are the same tree. */
  lemma SameTree(t: Tree, u: Tree)
    requires forall p :: At(t, p) == At(u, p)
    ensures t == u
  {
    forall p ensures p in t <==> p in u {
      assert At(t, p) == At(u, p);
    }
    forall p | p in t ensures t[p] == u[p] {
      assert At(t, p) == At(u, p);
    }
  }

  // ----- Creating directories when no call fails -----

  /** All that is on the way to `p`, and `p` itself if it is there, are directories. */
  predicate Clear(t: Tree, p: Path) {
    if p in t then t[p].Dir? else NotThere(t, p)
  }

  /** `t` with all that is missing on the way to `p`, and `p`, made. */
  function Paved(t: Tree, p: Path): Tree
    decreases |p|
  {
    if p in t || p == [] then t else Paved(t, Parent(p))[p := Dir]
  }

  lemma {:induction false} PavedAt(t: Tree, p: Path, q: Path)
    requires WellFormed(t)
    ensures At(Paved(t, p), q) == if q in t || !Under(q, p) then At(t, q) else Some(Dir)
    decreases |p|
  {
    if p in t {
      if Under(q, p) && q != p { AncestorsAreDirs(t, p, q); }
    } else {
      PavedAt(t, Parent(p), q);
      if Under(q, p) && q != p { assert Parent(p)[..|q|] == p[..|q|]; }
      if Under(q, Parent(p)) { assert p[..|q|] == Parent(p)[..|q|]; }
    }
  }

  lemma {:induction false} PavedWellFormed(t: Tree, p: Path)
    requires WellFormed(t) && Clear(t, p)
    ensures WellFormed(Paved(t, p)) && At(Paved(t, p), p) == Some(Dir)
    decreases |p|
  {
    if p !in t {
      PavedWellFormed(t, Parent(p));
      forall q | q in Paved(t, p) && q != [] ensures At(Paved(t, p), Parent(q)) == Some(Dir) {
        if q != p { assert At(Paved(t, Parent(p)), Parent(q)) == Some(Dir); }
      }
    }
  }

  /** All or nothing: the way is paved if it is clear, and else nothing is made. */
  lemma {:induction false} MakeDirsWorks(os: Fates, d: Disk, p: Path)
    requires WellFormed(d.now) && Plain(d.now, p) && forall k :: k >= d.clock ==> os(k).works
    ensures
      var (e, ok) := MakeDirs(os, d, p);
      ok == Clear(d.now, p) && e.now == (if ok then Paved(d.now, p) else d.now) && e.clock >= d.clock
    decreases |p|
  {
    var t := d.now;
    ResolvePlain(t, p);
    assert os(d.clock).works && os(d.clock + 1).works;
    if p !in t && NotThere(t, p) && Parent(p) !in t {
      var d1 := d.Tick();
      PlainPrefix(t, p, Parent(p));
      MakeDirsWorks(os, d1, Parent(p));
      var d2 := MakeDirs(os, d1, Parent(p)).0;
      PavedWellFormed(t, Parent(p));
      PavedPlain(t, Parent(p), p);
      LocatePlain(d2.now, p);
      PavedAt(t, Parent(p), p);
    }
  }

  lemma PavedPlain(t: Tree, p: Path, q: Path)
    requires WellFormed(t) && Plain(t, q)
    ensures Plain(Paved(t, p), q)
  {
    forall k | 0 <= k <= |q| ensures !(q[..k] in Paved(t, p) && Paved(t, p)[q[..k]].Symlink?) {
      PavedAt(t, p, q[..k]);
    }
  }
}
