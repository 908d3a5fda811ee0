/** Which release archives are accepted: the scan over the entries against the rule it stands for. */
module ReleaseArchive {
  import opened FileSystem

  datatype Kind = Regular | Directory | OtherKind

  /** An entry of the unpacked archive; its size is that of its data. */
  datatype Entry = Entry(path: string, kind: Kind, data: Bytes)

  const SERVER := "dookie/dookie_server"
  const CLI := "dookie/dookie_cli_client"
  const README := "dookie/README.md"
  const MAX_ENTRIES: nat := 4
  const MAX_BINARY: nat := 128 * 1024 * 1024
  const MAX_README: nat := 1024 * 1024
  const HEADER: Bytes := [0xcf, 0xfa, 0xed, 0xfe, 0x07, 0x00, 0x00, 0x01]   // thin Mach-O 64, x86-64

  // ----- The rule -----

  predicate Executable(e: Entry) {
    e.kind.Regular? && |e.data| <= MAX_BINARY && |HEADER| <= |e.data| && e.data[..|HEADER|] == HEADER
  }

  predicate Companion(e: Entry) {
    || ((e.path == "dookie" || e.path == "dookie/") && e.kind.Directory? && e.data == [])
    || (e.path == README && e.kind.Regular? && |e.data| <= MAX_README)
  }

  predicate Allowed(e: Entry) {
    if e.path == SERVER || e.path == CLI then Executable(e) else Companion(e)
  }

  function Count(entries: seq<Entry>, path: string): nat
    decreases |entries|
  {
    if entries == [] then 0
    else Count(entries[..|entries| - 1], path) + if entries[|entries| - 1].path == path then 1 else 0
  }

  /** At most four entries, each of an allowed kind, with exactly one server and one client. */
  ghost predicate Acceptable(entries: seq<Entry>) {
    && |entries| <= MAX_ENTRIES
    && (forall e :: e in entries ==> Allowed(e))
    && Count(entries, SERVER) == 1 && Count(entries, CLI) == 1
  }

  /** `data` is what the archive holds under `path`. */
  ghost predicate Holds(entries: seq<Entry>, path: string, data: Bytes) {
    exists e :: e in entries && e.path == path && e.data == data
  }

  /** What each entry must be. */
  lemma AllowedExactly(e: Entry)
    ensures
      Allowed(e) <==>
        if e.path == "dookie/dookie_server" || e.path == "dookie/dookie_cli_client" then
          && e.kind == Regular && 8 <= |e.data| <= 134217728
          && e.data[..8] == [0xcf, 0xfa, 0xed, 0xfe, 0x07, 0x00, 0x00, 0x01]
        else if e.path == "dookie" || e.path == "dookie/" then e.kind == Directory && |e.data| == 0
        else e.path == "dookie/README.md" && e.kind == Regular && |e.data| <= 1048576
  {
  }

  /** One entry of this name, and no other. */
  ghost predicate Once(entries: seq<Entry>, path: string) {
    exists i :: 0 <= i < |entries| && OnlyAt(entries, path, i)
  }

  ghost predicate OnlyAt(entries: seq<Entry>, path: string, i: nat)
    requires i < |entries|
  {
    entries[i].path == path && forall j :: 0 <= j < |entries| && entries[j].path == path ==> j == i
  }

  lemma {:induction false} CountedOnce(entries: seq<Entry>, path: string)
    ensures Count(entries, path) == 0 <==> forall j :: 0 <= j < |entries| ==> entries[j].path != path
    ensures Count(entries, path) == 1 <==> Once(entries, path)
    decreases |entries|
  {
    if entries != [] {
      var k := |entries| - 1;
      var front := entries[..k];
      CountedOnce(front, path);
      if entries[k].path == path {
        if Count(front, path) == 0 { assert OnlyAt(entries, path, k); }
        if i :| 0 <= i < |entries| && OnlyAt(entries, path, i) {
          assert i == k;
          forall j | 0 <= j < k ensures front[j].path != path {}
        }
      } else {
        if i :| 0 <= i < |front| && OnlyAt(front, path, i) {
          forall j | 0 <= j < |entries| && entries[j].path == path ensures j == i {
            assert j != k && front[j].path == path;
          }
          assert OnlyAt(entries, path, i);
        }
        if i :| 0 <= i < |entries| && OnlyAt(entries, path, i) {
          assert OnlyAt(front, path, i);
        }
      }
    }
  }

  /** The rule, in plain terms. */
  lemma AcceptableExactly(entries: seq<Entry>)
    ensures
      Acceptable(entries) <==>
        && |entries| <= 4 && (forall e :: e in entries ==> Allowed(e))
        && Once(entries, "dookie/dookie_server") && Once(entries, "dookie/dookie_cli_client")
  {
    CountedOnce(entries, SERVER);
    CountedOnce(entries, CLI);
  }

  // ----- Facts about counting -----

  lemma {:induction false} CountPrefix(entries: seq<Entry>, path: string, k: nat)
    requires k <= |entries|
    ensures Count(entries[..k], path) <= Count(entries, path)
    decreases |entries|
  {
    if k == |entries| {
      assert entries[..k] == entries;
    } else {
      var front := entries[..|entries| - 1];
      assert front[..k] == entries[..k];
      CountPrefix(front, path, k);
    }
  }

  lemma CountNext(entries: seq<Entry>, path: string, i: nat)
    requires i < |entries|
    ensures Count(entries[..i + 1], path) == Count(entries[..i], path) + if entries[i].path == path then 1 else 0
  {
    assert entries[..i + 1][..i] == entries[..i];
  }

  /** Counting does not depend on the order. */
  lemma {:induction false} CountRemoved(entries: seq<Entry>, path: string, i: nat)
    requires i < |entries|
    ensures
      Count(entries, path) ==
        Count(entries[..i] + entries[i + 1..], path) + if entries[i].path == path then 1 else 0
    decreases |entries|
  {
    var last := |entries| - 1;
    if i == last {
      assert entries[..i] + entries[i + 1..] == entries[..last];
    } else {
      var front, rest := entries[..last], entries[..i] + entries[i + 1..];
      CountRemoved(front, path, i);
      assert rest[..|rest| - 1] == front[..i] + front[i + 1..] && rest[|rest| - 1] == entries[last];
    }
  }

  lemma RemovedOne(entries: seq<Entry>, i: nat)
    requires i < |entries|
    ensures multiset(entries[..i] + entries[i + 1..]) == multiset(entries) - multiset{entries[i]}
  {
    assert entries == entries[..i] + [entries[i]] + entries[i + 1..];
  }

  lemma {:induction false} CountPermuted(entries: seq<Entry>, entries': seq<Entry>, path: string)
    requires multiset(entries) == multiset(entries')
    ensures Count(entries, path) == Count(entries', path)
    decreases |entries|
  {
    if entries == [] {
      assert |multiset(entries')| == 0;
    } else {
      var last := entries[|entries| - 1];
      var front := entries[..|entries| - 1];
      assert entries == front + [last];
      assert last in multiset(entries);
      var i :| 0 <= i < |entries'| && entries'[i] == last;
      var rest := entries'[..i] + entries'[i + 1..];
      assert multiset(rest) == multiset(front) by {
        RemovedOne(entries', i);
        RemovedOne(entries, |entries| - 1);
        assert entries[..|entries| - 1] + entries[|entries| - 1 + 1..] == front;
      }
      CountPermuted(front, rest, path);
      CountRemoved(entries', path, i);
    }
  }

  /** An archive with its entries in another order is accepted just the same, with the same contents. */
  lemma OrderDoesNotMatter(entries: seq<Entry>, entries': seq<Entry>, data: Bytes)
    requires multiset(entries) == multiset(entries')
    ensures Acceptable(entries) <==> Acceptable(entries')
    ensures Holds(entries, SERVER, data) <==> Holds(entries', SERVER, data)
    ensures Holds(entries, CLI, data) <==> Holds(entries', CLI, data)
  {
    CountPermuted(entries, entries', SERVER);
    CountPermuted(entries, entries', CLI);
    assert |entries| == |multiset(entries)| == |multiset(entries')| == |entries'|;
    forall e ensures e in entries <==> e in entries' {
      assert e in multiset(entries) <==> e in multiset(entries');
    }
  }

  /** What is staged under a name is determined: an archive that is accepted holds it once. */
  lemma {:induction false} HoldsOne(entries: seq<Entry>, path: string, x: Bytes, y: Bytes)
    requires Count(entries, path) <= 1 && Holds(entries, path, x) && Holds(entries, path, y)
    ensures x == y
    decreases |entries|
  {
    var last, front := entries[|entries| - 1], entries[..|entries| - 1];
    assert entries == front + [last];
    if last.path == path {
      if Count(front, path) == 0 { CountZero(front, path); }
    } else {
      HoldsOne(front, path, x, y);
    }
  }

  lemma {:induction false} CountZero(entries: seq<Entry>, path: string)
    requires Count(entries, path) == 0
    ensures forall e :: e in entries ==> e.path != path
    decreases |entries|
  {
    if entries != [] {
      CountZero(entries[..|entries| - 1], path);
      assert entries == entries[..|entries| - 1] + [entries[|entries| - 1]];
    }
  }

  // ----- The scan -----

  function IndexOf(path: string): nat {
    if path == SERVER then 0 else 1
  }

  function PathOf(index: nat): string {
    if index == 0 then SERVER else CLI
  }

  /** What the scan has established about the entries it has seen. */
  ghost predicate Scanned(entries: seq<Entry>, found: seq<bool>, files: seq<Bytes>) {
    && |found| == |files| == 2
    && (forall e :: e in entries ==> Allowed(e))
    && (forall k :: 0 <= k < 2 ==> Count(entries, PathOf(k)) == if found[k] then 1 else 0)
    && (forall k :: 0 <= k < 2 && found[k] ==> Holds(entries, PathOf(k), files[k]))
  }

  lemma CountAppend(entries: seq<Entry>, e: Entry, path: string)
    ensures Count(entries + [e], path) == Count(entries, path) + if e.path == path then 1 else 0
  {
    assert (entries + [e])[..|entries|] == entries;
  }

  lemma HoldsAppend(entries: seq<Entry>, e: Entry, path: string, data: Bytes)
    requires Holds(entries, path, data) || (e.path == path && e.data == data)
    ensures Holds(entries + [e], path, data)
  {
    assert e in entries + [e];
    if Holds(entries, path, data) {
      var x :| x in entries && x.path == path && x.data == data;
      assert x in entries + [e];
    }
  }

  lemma ScanCompanion(entries: seq<Entry>, e: Entry, found: seq<bool>, files: seq<Bytes>)
    requires Scanned(entries, found, files) && e.path != SERVER && e.path != CLI && Companion(e)
    ensures Scanned(entries + [e], found, files)
  {
    forall k | 0 <= k < 2
      ensures Count(entries + [e], PathOf(k)) == if found[k] then 1 else 0
      ensures found[k] ==> Holds(entries + [e], PathOf(k), files[k])
    {
      CountAppend(entries, e, PathOf(k));
      if found[k] { HoldsAppend(entries, e, PathOf(k), files[k]); }
    }
  }

  lemma ScanBinary(entries: seq<Entry>, e: Entry, found: seq<bool>, files: seq<Bytes>, index: nat)
    requires Scanned(entries, found, files) && index < 2 && e.path == PathOf(index) && !found[index] && Executable(e)
    ensures Scanned(entries + [e], found[index := true], files[index := e.data])
  {
    assert SERVER != CLI by { assert |SERVER| != |CLI|; }
    forall k | 0 <= k < 2
      ensures Count(entries + [e], PathOf(k)) == if found[index := true][k] then 1 else 0
      ensures found[index := true][k] ==> Holds(entries + [e], PathOf(k), files[index := e.data][k])
    {
      CountAppend(entries, e, PathOf(k));
      if k == index || found[k] { HoldsAppend(entries, e, PathOf(k), files[index := e.data][k]); }
    }
  }

  /** An entry that makes the scan give up is against the rule. */
  lemma Rejected(entries: seq<Entry>, i: nat)
    requires i < |entries| && !Allowed(entries[i])
    ensures !Acceptable(entries)
  {
    assert entries[i] in entries;
  }

  lemma RejectedBinary(entries: seq<Entry>, i: nat, found: seq<bool>, files: seq<Bytes>, index: nat)
    requires i < |entries| && Scanned(entries[..i], found, files)
    requires index < 2 && entries[i].path == PathOf(index) && (found[index] || !Executable(entries[i]))
    ensures !Acceptable(entries)
  {
    if found[index] {
      CountNext(entries, PathOf(index), i);
      CountPrefix(entries, PathOf(index), i + 1);
    } else {
      Rejected(entries, i);
    }
  }

  lemma ScannedAll(entries: seq<Entry>, found: seq<bool>, files: seq<Bytes>)
    requires Scanned(entries, found, files) && |entries| <= MAX_ENTRIES
    ensures found[0] && found[1] <==> Acceptable(entries)
    ensures found[0] && found[1] ==> Holds(entries, SERVER, files[0]) && Holds(entries, CLI, files[1])
  {
    assert PathOf(0) == SERVER && PathOf(1) == CLI;
  }

  /** One binary: refused if there was one already, or if it is not an executable; else staged. */
  method Stage(e: Entry, index: nat, found: array<bool>, files: array<Bytes>) returns (ok: bool)
    requires found.Length == files.Length == 2 && index < 2
    modifies found, files
    ensures ok <==> !old(found[index]) && Executable(e)
    ensures ok ==> found[..] == old(found[..])[index := true] && files[..] == old(files[..])[index := e.data]
  {
    if found[index] || !e.kind.Regular? || |e.data| > MAX_BINARY {
      return false;
    }
    files[index] := e.data;
    if |e.data| < |HEADER| || e.data[..|HEADER|] != HEADER {
      return false;
    }
    found[index] := true;
    return true;
  }

  /** One entry, number `count` of the archive. */
  method ScanEntry(e: Entry, found: array<bool>, files: array<Bytes>, ghost entries: seq<Entry>, ghost count: nat)
    returns (ok: bool)
    requires count < |entries| && e == entries[count] && found.Length == files.Length == 2
    requires Scanned(entries[..count], found[..], files[..])
    modifies found, files
    ensures if ok then Scanned(entries[..count + 1], found[..], files[..]) else !Acceptable(entries)
  {
    ghost var before, was, had := entries[..count], found[..], files[..];
    assert entries[..count + 1] == before + [e];
    if e.path != SERVER && e.path != CLI {
      ok := Companion(e);
      if ok {
        ScanCompanion(before, e, was, had);
      } else {
        Rejected(entries, count);
      }
    } else {
      var index := IndexOf(e.path);
      ok := Stage(e, index, found, files);
      if ok {
        ScanBinary(before, e, was, had, index);
      } else {
        RejectedBinary(entries, count, was, had, index);
      }
    }
  }

  /** The scan accepts exactly the acceptable archives, and stages the data of their two binaries. */
  method Scan(entries: seq<Entry>) returns (staged: Option<(Bytes, Bytes)>)
    ensures staged.Some? <==> Acceptable(entries)
    ensures staged.Some? ==> Holds(entries, SERVER, staged.value.0) && Holds(entries, CLI, staged.value.1)
  {
    var found := new bool[2](_ => false);
    var files := new Bytes[2](_ => []);
    for count := 0 to |entries|
      invariant count <= MAX_ENTRIES && fresh(found) && fresh(files) && found.Length == files.Length == 2
      invariant Scanned(entries[..count], found[..], files[..])
    {
      if count >= MAX_ENTRIES {
        return None;
      }
      var ok := ScanEntry(entries[count], found, files, entries, count);
      if !ok {
        return None;
      }
    }
    assert entries[..|entries|] == entries;
    ScannedAll(entries, found[..], files[..]);
    if !found[0] || !found[1] {
      return None;
    }
    return Some((files[0], files[1]));
  }
}
