/** What a successful move leaves on the disk, exactly: every moved subtree is gone from the source,
    whole at its mirror, and (at the top of a mass move) replaced by a link to it. */
module MoverExact {
  import opened FileSystem
  import opened TreeMover
  import opened MoverSafety

  /** `q` lies in one of the subtrees `s/n`, n in names, that a move of directory `s` takes along. */
  predicate Taken(t: Tree, s: Path, names: set<Name>, q: Path) {
    && |s| < |q| && Under(s, q) && q[|s|] in names
    && s + [q[|s|]] in t && !t[s + [q[|s|]]].Symlink?
  }

  /** Only files and directories at and below `p`. */
  ghost predicate Clean(t: Tree, p: Path) {
    forall q :: q in t && Under(p, q) ==> t[q].File? || t[q].Dir?
  }

  /** `u` is `t` after the entries `names` of directory `s` have been moved to the mirror of `s`;
      with `link` set, a link to the copy stands where each of them was. */
  ghost predicate Swept(a: Path, b: Path, t: Tree, u: Tree, s: Path, names: set<Name>, link: bool)
    requires Under(a, s)
  {
    && (forall q :: SweptAt(a, b, t, u, s, names, link, q))
    && ((forall n :: n in names ==> s + [n] !in t || t[s + [n]].Symlink?) ==> u == t)
    && (forall n :: n in names && s + [n] in t && !t[s + [n]].Symlink? ==> Clean(t, s + [n]))
  }

  ghost predicate SweptAt(a: Path, b: Path, t: Tree, u: Tree, s: Path, names: set<Name>, link: bool, q: Path)
    requires Under(a, s)
  {
    if Taken(t, s, names, q) && Under(a, q) then
      At(u, q) == if link && |q| == |s| + 1 then Some(Symlink(Mirror(a, b, q))) else None
    else if Under(b, q) && Taken(t, s, names, Mirror(b, a, q)) then
      At(u, q) == if Mirror(b, a, q) in t then At(t, Mirror(b, a, q)) else At(t, q)
    else if Under(q, Mirror(a, b, s)) then
      At(u, q) == At(t, q) || (At(t, q) == None && At(u, q) == Some(Dir))
    else At(u, q) == At(t, q)
  }

  // ----- The three regions of a sweep -----

  /** A taken path is on the source's side, its mirror on the destination's; neither is on the way there. */
  lemma TakenSides(a: Path, b: Path, t: Tree, s: Path, names: set<Name>, q: Path)
    requires Apart(a, b) && Under(a, s) && Taken(t, s, names, q)
    ensures Under(a, q) && q != a && !Under(b, q) && !Under(q, b) && !Under(q, Mirror(a, b, s))
    ensures Under(b, Mirror(a, b, q)) && Mirror(b, a, Mirror(a, b, q)) == q
    ensures !Under(a, Mirror(a, b, q)) && !Under(Mirror(a, b, q), Mirror(a, b, s))
  {
    UnderTransitive(a, s, q);
    MirrorFacts(a, b, q);
    MirrorFacts(a, b, s);
    MirrorApart(a, b, q, Mirror(a, b, q));
    MirrorApart(a, b, q, b);
    if Under(b, q) { UnderBoth(a, b, q); }
    if Under(q, b) { UnderTransitive(a, q, b); }
    if Under(q, Mirror(a, b, s)) { UnderTransitive(a, q, Mirror(a, b, s)); UnderBoth(a, b, Mirror(a, b, s)); }
  }

  /** Sweeping some entries, then others, sweeps both lots. */
  lemma SweptCompose(a: Path, b: Path, t: Tree, u: Tree, v: Tree, s: Path, m: set<Name>, n: set<Name>, link: bool)
    requires Apart(a, b) && Under(a, s) && m !! n
    requires Swept(a, b, t, u, s, m, link) && Swept(a, b, u, v, s, n, link)
    ensures Swept(a, b, t, v, s, m + n, link)
  {
    forall q | |s| < |q| && Under(s, q) && q[|s|] !in m ensures At(u, q) == At(t, q) {
      UntouchedSource(a, b, t, u, s, m, link, q);
    }
    forall q | |s| < |q| && Under(s, q) && q[|s|] in n ensures Taken(u, s, n, q) == Taken(t, s, n, q) {
      var e := s + [q[|s|]];
      assert Under(s, e) && e[|s|] == q[|s|];
    }
    forall q ensures SweptAt(a, b, t, v, s, m + n, link, q) {
      assert SweptAt(a, b, t, u, s, m, link, q);
      assert SweptAt(a, b, u, v, s, n, link, q);
      if Taken(t, s, m + n, q) {
        TakenSides(a, b, t, s, m + n, q);
      } else if Under(b, q) && Taken(t, s, m + n, Mirror(b, a, q)) {
        TakenSides(a, b, t, s, m + n, Mirror(b, a, q));
        MirrorFacts(b, a, q);
      }
    }
    forall x | x in m + n && s + [x] in t && !t[s + [x]].Symlink? ensures Clean(t, s + [x]) {
      if x in n {
        forall q | Under(s + [x], q) ensures At(u, q) == At(t, q) {
          assert q[..|s| + 1] == s + [x] && q[|s|] == x;
          assert Under(s, q) by { assert q[..|s|] == q[..|s| + 1][..|s|]; }
        }
        assert At(u, s + [x]) == At(t, s + [x]) by { assert Under(s + [x], s + [x]); }
      }
    }
  }

  lemma UntouchedSource(a: Path, b: Path, t: Tree, u: Tree, s: Path, m: set<Name>, link: bool, q: Path)
    requires Apart(a, b) && Under(a, s) && Swept(a, b, t, u, s, m, link)
    requires |s| < |q| && Under(s, q) && q[|s|] !in m
    ensures At(u, q) == At(t, q)
  {
    assert SweptAt(a, b, t, u, s, m, link, q);
    UnderTransitive(a, s, q);
    MirrorFacts(a, b, s);
    if Under(b, q) { UnderBoth(a, b, q); }
    if Under(q, Mirror(a, b, s)) { UnderTransitive(a, q, Mirror(a, b, s)); UnderBoth(a, b, Mirror(a, b, s)); }
  }

  // ----- One entry -----

  lemma BelowEntry(s: Path, name: Name, q: Path)
    ensures Under(s + [name], q) <==> |s| < |q| && Under(s, q) && q[|s|] == name
  {
    if |s| < |q| {
      assert q[..|s| + 1] == q[..|s|] + [q[|s|]];
    }
    if Under(s + [name], q) {
      assert q[..|s|] == q[..|s| + 1][..|s|];
    }
  }

  lemma BelowMirror(a: Path, b: Path, p: Path, q: Path)
    requires Under(a, p)
    ensures Under(Mirror(a, b, p), q) <==> Under(b, q) && Under(p, Mirror(b, a, q))
  {
    MirrorFacts(a, b, p);
    if Under(Mirror(a, b, p), q) {
      UnderTransitive(b, Mirror(a, b, p), q);
      assert Mirror(b, a, q)[..|p|] == a + q[|b|..][..|p| - |a|];
      assert q[|b|..][..|p| - |a|] == q[..|Mirror(a, b, p)|][|b|..];
    }
    if Under(b, q) && Under(p, Mirror(b, a, q)) {
      MirrorFacts(b, a, q);
      var x := Mirror(b, a, q);
      assert Under(a, x);
      assert Mirror(a, b, x)[..|Mirror(a, b, p)|] == b + x[|a|..][..|p| - |a|];
      assert x[|a|..][..|p| - |a|] == x[..|p|][|a|..];
    }
  }

  /** The sweep of one entry `p`, told by where `q` lies. */
  ghost predicate EntrySweptAt(a: Path, b: Path, t: Tree, u: Tree, p: Path, link: bool, q: Path)
    requires Under(a, p)
  {
    var m := Mirror(a, b, p);
    if Under(p, q) then At(u, q) == if link && q == p then Some(Symlink(m)) else None
    else if Under(m, q) && Under(b, q) then
      At(u, q) == if Mirror(b, a, q) in t then At(t, Mirror(b, a, q)) else At(t, q)
    else if Under(q, m) then At(u, q) == At(t, q) || (At(t, q) == None && At(u, q) == Some(Dir))
    else At(u, q) == At(t, q)
  }

  lemma EntrySwept(a: Path, b: Path, t: Tree, u: Tree, s: Path, name: Name, link: bool)
    requires Apart(a, b) && Under(a, s) && Under(a, s + [name])
    requires s + [name] in t && !t[s + [name]].Symlink?
    requires forall q :: EntrySweptAt(a, b, t, u, s + [name], link, q)
    requires Clean(t, s + [name])
    ensures Swept(a, b, t, u, s, {name}, link)
  {
    var p := s + [name];
    MirrorChild(a, b, s, name);
    var m := Mirror(a, b, p);
    forall q ensures SweptAt(a, b, t, u, s, {name}, link, q) {
      assert EntrySweptAt(a, b, t, u, p, link, q);
      BelowEntry(s, name, q);
      if Under(p, q) {
        UnderTransitive(a, p, q);
      } else {
        BelowMirror(a, b, p, q);
        if Under(b, q) {
          BelowEntry(s, name, Mirror(b, a, q));
        }
        PrefixOfChild(Mirror(a, b, s), m, q);
      }
    }
  }

  lemma PrefixOfChild(p: Path, m: Path, q: Path)
    requires m != [] && Parent(m) == p
    ensures Under(q, m) <==> q == m || Under(q, p)
  {
    if Under(q, m) && q != m { assert p[..|q|] == m[..|q|]; }
    if Under(q, p) { assert p[..|q|] == m[..|q|]; }
    assert Under(m, m);
  }

  /** A copied file, deleted and perhaps linked, is a sweep of that one entry. */
  lemma FileEntrySwept(a: Path, b: Path, t: Tree, v: Tree, s: Path, name: Name, link: bool)
    requires Ready(a, b, t) && Under(a, s) && Under(a, s + [name])
    requires s + [name] in t && t[s + [name]].File?
    requires
      var p, m := s + [name], Mirror(a, b, s + [name]);
      && (forall q :: q != p ==> At(v, q) == At(t[m := t[p]], q))
      && At(v, p) == if link then Some(Symlink(m)) else None
    ensures Swept(a, b, t, v, s, {name}, link)
  {
    var p := s + [name];
    forall q | Under(p, q) && q != p ensures q !in t {
      if q in t { AncestorsAreDirs(t, q, p); }
    }
    forall q ensures EntrySweptAt(a, b, t, v, p, link, q) {
      FileEntrySweptAt(a, b, t, v, p, link, q);
    }
    assert Clean(t, p);
    EntrySwept(a, b, t, v, s, name, link);
  }

  lemma FileEntrySweptAt(a: Path, b: Path, t: Tree, v: Tree, p: Path, link: bool, q: Path)
    requires Apart(a, b) && Under(a, p) && p in t
    requires Under(p, q) && q != p ==> q !in t
    requires Under(b, q) && Under(p, Mirror(b, a, q)) && Mirror(b, a, q) != p ==> Mirror(b, a, q) !in t
    requires q != p ==> At(v, q) == At(t[Mirror(a, b, p) := t[p]], q)
    requires At(v, p) == if link then Some(Symlink(Mirror(a, b, p))) else None
    ensures EntrySweptAt(a, b, t, v, p, link, q)
  {
    var m := Mirror(a, b, p);
    MirrorFacts(a, b, p);
    MirrorApart(a, b, p, m);
    if !Under(p, q) && Under(m, q) && Under(b, q) {
      BelowMirror(a, b, p, q);
      MirrorFacts(b, a, q);
    }
  }

  /** What a nested call on a directory leaves: the mirror exists, and every entry but links has moved. */
  ghost predicate Emptied(a: Path, b: Path, t: Tree, g: Tree, u: Tree, p: Path)
    requires Under(a, p)
  {
    && Grown(Mirror(a, b, p), t, g) && At(g, Mirror(a, b, p)) == Some(Dir)
    && WellFormed(g)
    && Swept(a, b, g, u, p, Entries(g, p), false)
  }

  /** A path below the source is on neither the destination's side nor the way there. */
  lemma SourceSide(a: Path, b: Path, p: Path, q: Path)
    requires Apart(a, b) && Under(a, p) && Under(p, q)
    ensures Under(a, q) && !Under(b, q) && !Under(q, Mirror(a, b, p))
  {
    UnderTransitive(a, p, q);
    MirrorFacts(a, b, p);
    MirrorApart(a, b, q, b);
    MirrorApart(a, b, q, Mirror(a, b, p));
    if Under(b, q) { UnderBoth(a, b, q); }
  }

  /** If nothing at all is left in the emptied directory, every path below it was taken or never was. */
  lemma EmptiedBelow(a: Path, b: Path, t: Tree, g: Tree, u: Tree, p: Path, q: Path)
    requires Ready(a, b, t) && Under(a, p) && Emptied(a, b, t, g, u, p)
    requires Entries(u, p) == {}
    requires Under(p, q) && q != p
    ensures At(g, q) == At(t, q)
    ensures Taken(g, p, Entries(g, p), q) <==> p + [q[|p|]] in t
    ensures q in t ==> p + [q[|p|]] in t
    ensures q !in u
  {
    MirrorFacts(a, b, p);
    MadeOutsideSource(a, b, Mirror(a, b, p), t, g);
    var c := q[|p|];
    var e := p + [c];
    BelowEntry(p, c, q);
    BelowEntry(p, c, e);
    SourceSide(a, b, p, q);
    SourceSide(a, b, p, e);
    EntriesOf(g, p, c);
    EntriesOf(u, p, c);
    assert SweptAt(a, b, g, u, p, Entries(g, p), false, q);
    assert SweptAt(a, b, g, u, p, Entries(g, p), false, e);
    if q in t && q != e { AncestorsAreDirs(t, q, e); }
  }

  /** An emptied directory, removed and perhaps linked, is a sweep of that one entry. */
  lemma DirEntrySwept(a: Path, b: Path, t: Tree, g: Tree, u: Tree, v: Tree, s: Path, name: Name, link: bool)
    requires Ready(a, b, t) && Under(a, s) && Under(a, s + [name])
    requires At(t, s + [name]) == Some(Dir)
    requires Emptied(a, b, t, g, u, s + [name]) && Entries(u, s + [name]) == {}
    requires forall q :: q != s + [name] ==> At(v, q) == At(u, q)
    requires At(v, s + [name]) == if link then Some(Symlink(Mirror(a, b, s + [name]))) else None
    ensures Swept(a, b, t, v, s, {name}, link)
  {
    var p := s + [name];
    forall q ensures EntrySweptAt(a, b, t, v, p, link, q) {
      DirEntrySweptAt(a, b, t, g, u, v, p, link, q);
    }
    forall q | q in t && Under(p, q) ensures t[q].File? || t[q].Dir? {
      if q != p {
        EmptiedBelow(a, b, t, g, u, p, q);
        BelowEntry(p, q[|p|], q);
        assert Clean(g, p + [q[|p|]]);
      }
    }
    EntrySwept(a, b, t, v, s, name, link);
  }

  lemma DirEntrySweptAt(a: Path, b: Path, t: Tree, g: Tree, u: Tree, v: Tree, p: Path, link: bool, q: Path)
    requires Ready(a, b, t) && Under(a, p) && At(t, p) == Some(Dir)
    requires Emptied(a, b, t, g, u, p) && Entries(u, p) == {}
    requires forall q :: q != p ==> At(v, q) == At(u, q)
    requires At(v, p) == if link then Some(Symlink(Mirror(a, b, p))) else None
    ensures EntrySweptAt(a, b, t, v, p, link, q)
  {
    var m := Mirror(a, b, p);
    MirrorFacts(a, b, p);
    assert SweptAt(a, b, g, u, p, Entries(g, p), false, q);
    if Under(p, q) {
      if q != p { EmptiedBelow(a, b, t, g, u, p, q); }
    } else if Under(m, q) && Under(b, q) {
      var x := Mirror(b, a, q);
      BelowMirror(a, b, p, q);
      MirrorFacts(b, a, q);
      MirrorApart(a, b, p, q);
      SourceSide(a, b, p, x);
      assert !Taken(g, p, Entries(g, p), q);
      if x != p {
        EmptiedBelow(a, b, t, g, u, p, x);
        assert |x| > |p| && !Under(q, m);
      }
    } else {
      BelowMirror(a, b, p, q);
      assert !Taken(g, p, Entries(g, p), q);
    }
  }

  // ----- Whole calls -----

  /** The result of a call that returned Ok. */
  ghost predicate Result(a: Path, b: Path, t: Tree, u: Tree, isRoot: bool, isMass: bool, src: Path)
    requires Under(a, src)
  {
    if src in t && t[src].File? then
      u == t[Mirror(a, b, src) := t[src]]
    else if isRoot && isMass then
      Swept(a, b, t, u, src, Entries(t, src), true)
    else if isRoot then
      src != a && Under(a, Parent(src)) && Swept(a, b, t, u, Parent(src), {Last(src)}, true)
    else
      At(t, src) == Some(Dir) && exists g :: Emptied(a, b, t, g, u, src)
  }

  lemma {:induction false} MoveDirExact(
    os: Fates, a: Path, b: Path, d: Disk, isRoot: bool, isMass: bool, src: Path, dst: Path)
    requires Ready(a, b, d.now) && Placed(a, b, isRoot, isMass, src, dst, d.now)
    requires MoveDir(os, d, isRoot, isMass, src, dst).1
    ensures Under(a, src) && Result(a, b, d.now, MoveDir(os, d, isRoot, isMass, src, dst).0.now, isRoot, isMass, src)
    decreases Depth(src), 1
  {
    PlacedTarget(a, b, isRoot, isMass, src, dst, d.now);
    var target := Destination(isRoot, isMass, src, dst);
    PlainSource(a, b, d.now, src);
    ResolvePlain(d.now, src);
    MirrorFacts(a, b, src);
    var (d1, isFile) := TestFile(os, d, src);
    if isFile {
      CopySafe(os, a, b, d1, src);
    } else {
      MoveTreeExact(os, a, b, d1, isRoot, isMass, src);
    }
  }

  lemma {:induction false} MoveTreeExact(
    os: Fates, a: Path, b: Path, d: Disk, isRoot: bool, isMass: bool, src: Path)
    requires Ready(a, b, d.now) && SourceAt(a, isRoot, isMass, src, d.now) && Under(a, src)
    requires MoveTree(os, d, isRoot, isMass, src, Mirror(a, b, src)).1 && src != []
    ensures
      At(d.now, src) == Some(Dir)
      && Result(a, b, d.now, MoveTree(os, d, isRoot, isMass, src, Mirror(a, b, src)).0.now, isRoot, isMass, src)
    decreases Depth(src), 0
  {
    var target := Mirror(a, b, src);
    var (d2, made) := if AppendsName(isRoot, isMass) then MakeDirs(os, d, target) else (d, true);
    MirrorFacts(a, b, src);
    if AppendsName(isRoot, isMass) {
      PlainMirror(a, b, d.now, src);
      MakeDirsSafe(os, a, b, d, target);
      MadeOutsideSource(a, b, target, d.now, d2.now);
      ReadyNow(a, b, d, d2);
    }
    PlainSource(a, b, d2.now, src);
    ResolvePlain(d2.now, src);
    var (d3, names) := ReadDir(os, d2, src);
    var all := set n | n in names.value;
    assert all == Entries(d3.now, src);
    MoveEntriesExact(os, a, b, d3, isRoot, isMass, src, names.value);
    var (d4, ok) := MoveEntries(os, d3, isRoot, isMass, src, target, names.value);
    if AppendsName(isRoot, isMass) {
      assert Emptied(a, b, d.now, d2.now, d4.now, src);
      if isRoot {
        RestExact(os, a, b, d, d2, d3, isMass, src, names.value);
      }
    }
  }

  /** The end of a targeted move: the emptied directory has given way to a link. */
  lemma RestExact(os: Fates, a: Path, b: Path, d: Disk, d2: Disk, d3: Disk, isMass: bool, src: Path, names: seq<Name>)
    requires Ready(a, b, d.now) && Ready(a, b, d3.now) && !isMass
    requires SourceAt(a, true, isMass, src, d.now) && Under(a, src)
    requires |src| <= PATH_LIMIT && At(d.now, src) == Some(Dir) == At(d3.now, src)
    requires
      var (d4, ok) := MoveEntries(os, d3, true, isMass, src, Mirror(a, b, src), names);
      ok && Emptied(a, b, d.now, d2.now, d4.now, src)
    requires MoveRest(os, d3, true, isMass, src, Mirror(a, b, src), names).1
    ensures Result(a, b, d.now, MoveRest(os, d3, true, isMass, src, Mirror(a, b, src), names).0.now, true, isMass, src)
  {
    var target := Mirror(a, b, src);
    var d4 := MoveEntries(os, d3, true, isMass, src, target, names).0;
    assert Ready(a, b, d4.now) && At(d4.now, src) == Some(Dir) by {
      MoveEntriesSafe(os, a, b, d3, true, isMass, src, names);
      ReadyNow(a, b, d3, d4);
    }
    var e := ReplaceRoot(os, d4, src, target).0;
    ReplaceRootSafe(os, a, b, d4, src, target);
    RootSwept(a, b, d.now, d2.now, d4.now, e.now, src);
  }

  /** An emptied title that has given way to a link is the sweep of that one title. */
  lemma RootSwept(a: Path, b: Path, t: Tree, g: Tree, u: Tree, v: Tree, src: Path)
    requires Ready(a, b, t) && Under(a, src) && src != a && Under(a, Parent(src)) && At(t, src) == Some(Dir)
    requires Emptied(a, b, t, g, u, src) && Entries(u, src) == {}
    requires forall q :: q != src ==> At(v, q) == At(u, q)
    requires At(v, src) == Some(Symlink(Mirror(a, b, src)))
    ensures Swept(a, b, t, v, Parent(src), {Last(src)}, true)
  {
    assert Parent(src) + [Last(src)] == src;
    DirEntrySwept(a, b, t, g, u, v, Parent(src), Last(src), true);
  }

  lemma {:induction false} MoveEntriesExact(
    os: Fates, a: Path, b: Path, d: Disk, isRoot: bool, isMass: bool, src: Path, names: seq<Name>)
    requires Ready(a, b, d.now) && Under(a, src) && |src| <= PATH_LIMIT
    requires At(d.now, src) == Some(Dir) && (isRoot ==> src == a || !isMass)
    requires forall i, j :: 0 <= i < j < |names| ==> names[i] != names[j]
    requires MoveEntries(os, d, isRoot, isMass, src, Mirror(a, b, src), names).1
    ensures
      var e := MoveEntries(os, d, isRoot, isMass, src, Mirror(a, b, src), names).0;
      Swept(a, b, d.now, e.now, src, (set n | n in names), isRoot && isMass)
    decreases Depth(src) - 1, |names| + 3
  {
    var d1 := Attempt(os, d).0;
    if names != [] {
      var d2 := MoveEntry(os, d1, isRoot, isMass, src, Mirror(a, b, src), names[0]).0;
      MoveEntrySafe(os, a, b, d1, isRoot, isMass, src, names[0]);
      MoveEntryExact(os, a, b, d1, isRoot, isMass, src, names[0]);
      EntryFrame(a, src, names[0], d1.now, d2.now);
      ReachesSame(a, b, d, d1);
      ReadyNow(a, b, d1, d2);
      MoveEntriesExact(os, a, b, d2, isRoot, isMass, src, names[1..]);
      var e := MoveEntries(os, d2, isRoot, isMass, src, Mirror(a, b, src), names[1..]).0;
      SweptNext(a, b, d.now, d2.now, e.now, src, names, isRoot && isMass);
    }
  }

  lemma SweptNext(a: Path, b: Path, t: Tree, t1: Tree, u: Tree, src: Path, names: seq<Name>, link: bool)
    requires Apart(a, b) && Under(a, src) && names != []
    requires forall i, j :: 0 <= i < j < |names| ==> names[i] != names[j]
    requires Swept(a, b, t, t1, src, {names[0]}, link)
    requires Swept(a, b, t1, u, src, (set n | n in names[1..]), link)
    ensures Swept(a, b, t, u, src, (set n | n in names), link)
  {
    var rest := set n | n in names[1..];
    assert (set n | n in names) == {names[0]} + rest;
    SweptCompose(a, b, t, t1, u, src, {names[0]}, rest, link);
  }

  lemma {:induction false} MoveEntryExact(
    os: Fates, a: Path, b: Path, d: Disk, isRoot: bool, isMass: bool, src: Path, name: Name)
    requires Ready(a, b, d.now) && Under(a, src) && |src| <= PATH_LIMIT
    requires At(d.now, src) == Some(Dir) && (isRoot ==> src == a || !isMass)
    requires MoveEntry(os, d, isRoot, isMass, src, Mirror(a, b, src), name).1
    ensures
      var e := MoveEntry(os, d, isRoot, isMass, src, Mirror(a, b, src), name).0;
      Swept(a, b, d.now, e.now, src, {name}, isRoot && isMass)
    decreases Depth(src) - 1, 3
  {
    var entry := src + [name];
    EntryLookup(a, b, d.now, src, name);
    var (d1, meta) := Metadata(os, d, entry);
    if meta.node.Symlink? {
      LinkNotSwept(a, b, d.now, src, name, isRoot && isMass);
    } else {
      var d2 := MoveDir(os, d1, false, isMass, entry, Mirror(a, b, src)).0;
      NestedExact(os, a, b, d1, isMass, src, name);
      FinishedEntrySwept(os, a, b, d.now, d2, isRoot && isMass, isMass, src, name);
    }
  }

  /** Passing over a link is the sweep of nothing. */
  lemma LinkNotSwept(a: Path, b: Path, t: Tree, src: Path, name: Name, link: bool)
    requires Apart(a, b) && Under(a, src) && IsLink(t, src + [name])
    ensures Swept(a, b, t, t, src, {name}, link)
  {
  }

  /** The nested call that an entry of a directory is moved by. */
  lemma {:induction false} NestedExact(os: Fates, a: Path, b: Path, d: Disk, isMass: bool, src: Path, name: Name)
    requires Ready(a, b, d.now) && Under(a, src) && |src| <= PATH_LIMIT && At(d.now, src) == Some(Dir)
    requires src + [name] in d.now && !d.now[src + [name]].Symlink?
    requires MoveDir(os, d, false, isMass, src + [name], Mirror(a, b, src)).1
    ensures
      var entry, t, u := src + [name], d.now, MoveDir(os, d, false, isMass, src + [name], Mirror(a, b, src)).0.now;
      && Under(a, entry) && Ready(a, b, u) && At(u, src) == Some(Dir) && At(u, entry) == At(t, entry)
      && (t[entry].File? || t[entry].Dir?) && (t[entry].File? ==> At(u, Mirror(a, b, entry)) == At(t, entry))
      && Result(a, b, t, u, false, isMass, entry)
    decreases Depth(src) - 1, 2
  {
    var entry := src + [name];
    MirrorChild(a, b, src, name);
    NestedSafe(os, a, b, d, isMass, src, name);
    MoveDirExact(os, a, b, d, false, isMass, entry, Mirror(a, b, src));
  }

  lemma NestedSafe(os: Fates, a: Path, b: Path, d: Disk, isMass: bool, src: Path, name: Name)
    requires Ready(a, b, d.now) && Under(a, src) && At(d.now, src) == Some(Dir)
    requires src + [name] in d.now && !d.now[src + [name]].Symlink?
    requires MoveDir(os, d, false, isMass, src + [name], Mirror(a, b, src)).1
    ensures
      var entry, t, u := src + [name], d.now, MoveDir(os, d, false, isMass, src + [name], Mirror(a, b, src)).0.now;
      && Ready(a, b, u) && At(u, src) == Some(Dir) && At(u, entry) == At(t, entry)
      && (t[entry].File? || t[entry].Dir?) && (t[entry].File? ==> At(u, Mirror(a, b, entry)) == At(t, entry))
  {
    var entry := src + [name];
    MirrorChild(a, b, src, name);
    assert !Under(entry, src);
    MoveDirSafe(os, a, b, d, false, isMass, entry, Mirror(a, b, src));
    ReadyNow(a, b, d, MoveDir(os, d, false, isMass, entry, Mirror(a, b, src)).0);
  }

  lemma FinishedEntrySwept(
    os: Fates, a: Path, b: Path, t: Tree, d: Disk, link: bool, isMass: bool, src: Path, name: Name)
    requires Ready(a, b, t) && Ready(a, b, d.now) && Under(a, src)
    requires Under(a, src + [name]) && At(d.now, src) == Some(Dir)
    requires src + [name] in t && (t[src + [name]].File? || t[src + [name]].Dir?)
    requires At(d.now, src + [name]) == At(t, src + [name])
    requires t[src + [name]].File? ==> At(d.now, Mirror(a, b, src + [name])) == At(t, src + [name])
    requires Result(a, b, t, d.now, false, isMass, src + [name])
    requires FinishEntry(os, d, link, src + [name], Mirror(a, b, src) + [name]).1
    ensures Swept(a, b, t, FinishEntry(os, d, link, src + [name], Mirror(a, b, src) + [name]).0.now, src, {name}, link)
  {
    MirrorChild(a, b, src, name);
    FinishEntrySafe(os, a, b, d, link, src, name, Mirror(a, b, src) + [name]);
    var e := FinishEntry(os, d, link, src + [name], Mirror(a, b, src) + [name]).0;
    MovedEntrySwept(a, b, t, d.now, e.now, src, name, link);
  }

  /** An entry that has been moved to leave `u` and then deleted, perhaps linked, to leave `v`. */
  lemma MovedEntrySwept(a: Path, b: Path, t: Tree, u: Tree, v: Tree, src: Path, name: Name, link: bool)
    requires Ready(a, b, t) && Under(a, src) && Under(a, src + [name])
    requires src + [name] in t && At(u, src + [name]) == At(t, src + [name])
    requires Result(a, b, t, u, false, true, src + [name]) || Result(a, b, t, u, false, false, src + [name])
    requires forall q :: q != src + [name] ==> At(v, q) == At(u, q)
    requires At(v, src + [name]) == if link then Some(Symlink(Mirror(a, b, src + [name]))) else None
    requires t[src + [name]].Dir? ==> Entries(u, src + [name]) == {}
    ensures Swept(a, b, t, v, src, {name}, link)
  {
    var entry := src + [name];
    if t[entry].File? {
      FileEntrySwept(a, b, t, v, src, name, link);
    } else {
      var g :| Emptied(a, b, t, g, u, entry);
      DirEntrySwept(a, b, t, g, u, v, src, name, link);
    }
  }

  /** A targeted call on a plain file only copies it: nothing below the source root is deleted or replaced
      by a link, whatever fails; and on Ok the copy is whole and all else is as before. */
  lemma TargetedFileOnlyCopied(os: Fates, a: Path, b: Path, d: Disk, src: Path, dst: Path)
    requires Ready(a, b, d.now) && Placed(a, b, true, false, src, dst, d.now) && d.now[src].File?
    ensures
      var (e, ok) := MoveDir(os, d, true, false, src, dst);
      && (forall q :: Under(a, q) ==> At(e.now, q) == At(d.now, q))
      && (ok ==> e.now == d.now[Mirror(a, b, src) := d.now[src]])
  {
    PlacedTarget(a, b, true, false, src, dst, d.now);
    var target := Mirror(a, b, src);
    ExistingIsPlain(d.now, src);
    ResolvePlain(d.now, src);
    MirrorFacts(a, b, src);
    var (d1, isFile) := TestFile(os, d, src);
    if isFile {
      CopySafe(os, a, b, d1, src);
    } else {
      PlainMirror(a, b, d1.now, src);
      MakeDirsSafe(os, a, b, d1, target);
      var (d2, made) := MakeDirs(os, d1, target);
      MadeOutsideSource(a, b, target, d1.now, d2.now);
      if made {
        ReadyNow(a, b, d1, d2);
        assert At(d2.now, src) == At(d.now, src);
        ExistingIsPlain(d2.now, src);
        ResolvePlain(d2.now, src);
      }
    }
  }
}
