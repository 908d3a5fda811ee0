/** When the updater looks for a release, and which release it takes: versions only ever go up (section 11
    of Semantic Versioning 2.0.0), and a failed installation is not tried again within a day. */
module UpdateSchedule {
  import opened FileSystem

  // ----- Versions -----

  datatype Identifier = Numeric(n: nat) | Alphanumeric(s: string)

  datatype Version = Version(major: nat, minor: nat, patch: nat, pre: seq<Identifier>, build: string)

  datatype Parsed = Parsed(version: Version) | Malformed

  datatype Release = Release(tag: string, draft: bool, prerelease: bool)

  datatype Candidate = Newer(version: Version) | Nothing | Invalid

  predicate CoreLess(x: Version, y: Version) {
    || x.major < y.major
    || (x.major == y.major && x.minor < y.minor)
    || (x.major == y.major && x.minor == y.minor && x.patch < y.patch)
  }

  predicate SameCore(x: Version, y: Version) {
    x.major == y.major && x.minor == y.minor && x.patch == y.patch
  }

  predicate StringLess(x: string, y: string)
    decreases |x|
  {
    if y == [] then false
    else if x == [] then true
    else if x[0] != y[0] then x[0] < y[0]
    else StringLess(x[1..], y[1..])
  }

  predicate IdentifierLess(x: Identifier, y: Identifier) {
    match (x, y)
    case (Numeric(m), Numeric(n)) => m < n
    case (Numeric(_), Alphanumeric(_)) => true
    case (Alphanumeric(_), Numeric(_)) => false
    case (Alphanumeric(s), Alphanumeric(t)) => StringLess(s, t)
  }

  /** Of two lists of identifiers that agree as far as the shorter goes, the shorter is the lesser. */
  predicate IdentifiersLess(x: seq<Identifier>, y: seq<Identifier>)
    decreases |x|
  {
    if y == [] then false
    else if x == [] then true
    else if x[0] != y[0] then IdentifierLess(x[0], y[0])
    else IdentifiersLess(x[1..], y[1..])
  }

  /** A pre-release comes before the release itself. */
  predicate PreLess(x: seq<Identifier>, y: seq<Identifier>) {
    if x == [] then false else y == [] || IdentifiersLess(x, y)
  }

  /** Precedence by the standard: build metadata does not figure in it. */
  predicate Precedes(x: Version, y: Version) {
    CoreLess(x, y) || (SameCore(x, y) && PreLess(x.pre, y.pre))
  }

  // ----- Precedence is an order -----

  lemma {:induction false} StringsCompare(x: string, y: string)
    ensures StringLess(x, y) ==> !StringLess(y, x) && x != y
    ensures x == y || StringLess(x, y) || StringLess(y, x)
    decreases |x|
  {
    if x != [] && y != [] && x[0] == y[0] {
      StringsCompare(x[1..], y[1..]);
      assert x == [x[0]] + x[1..] && y == [y[0]] + y[1..];
    }
  }

  lemma {:induction false} StringsChain(x: string, y: string, z: string)
    requires StringLess(x, y) && StringLess(y, z)
    ensures StringLess(x, z)
    decreases |x|
  {
    if x != [] && x[0] == y[0] == z[0] {
      StringsChain(x[1..], y[1..], z[1..]);
    }
  }

  lemma IdentifierCompare(x: Identifier, y: Identifier)
    ensures IdentifierLess(x, y) ==> !IdentifierLess(y, x) && x != y
    ensures x == y || IdentifierLess(x, y) || IdentifierLess(y, x)
  {
    if x.Alphanumeric? && y.Alphanumeric? {
      StringsCompare(x.s, y.s);
    }
  }

  lemma IdentifierChain(x: Identifier, y: Identifier, z: Identifier)
    requires IdentifierLess(x, y) && IdentifierLess(y, z)
    ensures IdentifierLess(x, z)
  {
    if x.Alphanumeric? {
      StringsChain(x.s, y.s, z.s);
    }
  }

  lemma {:induction false} IdentifiersCompare(x: seq<Identifier>, y: seq<Identifier>)
    ensures IdentifiersLess(x, y) ==> !IdentifiersLess(y, x) && x != y
    ensures x == y || IdentifiersLess(x, y) || IdentifiersLess(y, x)
    decreases |x|
  {
    if x != [] && y != [] {
      IdentifierCompare(x[0], y[0]);
      IdentifiersCompare(x[1..], y[1..]);
      assert x == [x[0]] + x[1..] && y == [y[0]] + y[1..];
    }
  }

  lemma {:induction false} IdentifiersChain(x: seq<Identifier>, y: seq<Identifier>, z: seq<Identifier>)
    requires IdentifiersLess(x, y) && IdentifiersLess(y, z)
    ensures IdentifiersLess(x, z)
    decreases |x|
  {
    if x != [] {
      IdentifierCompare(x[0], y[0]);
      if x[0] == y[0] == z[0] {
        IdentifiersChain(x[1..], y[1..], z[1..]);
      } else if x[0] != y[0] && y[0] != z[0] {
        IdentifierChain(x[0], y[0], z[0]);
        IdentifierCompare(x[0], z[0]);
      }
    }
  }

  /** Of any two versions exactly one precedes the other, or they differ in their build metadata at most. */
  lemma PrecedenceDecides(x: Version, y: Version)
    ensures Precedes(x, y) ==> !Precedes(y, x)
    ensures !Precedes(x, y) && !Precedes(y, x) <==> y == x.(build := y.build)
  {
    IdentifiersCompare(x.pre, y.pre);
  }

  lemma PrecedenceChains(x: Version, y: Version, z: Version)
    requires Precedes(x, y) && Precedes(y, z)
    ensures Precedes(x, z)
  {
    if IdentifiersLess(x.pre, y.pre) && IdentifiersLess(y.pre, z.pre) {
      IdentifiersChain(x.pre, y.pre, z.pre);
    }
  }

  // ----- What precedence means -----

  /** `s` comes before `t` in the order of the characters' codes. */
  ghost predicate StringBefore(s: string, t: string) {
    exists k :: 0 <= k <= |s| && StringParts(s, t, k)
  }

  /** They agree up to `k`, where `s` ends first or has the lower character. */
  predicate StringParts(s: string, t: string, k: nat)
    requires k <= |s|
  {
    k < |t| && s[..k] == t[..k] && (k == |s| || s[k] < t[k])
  }

  ghost predicate IdentifierBefore(x: Identifier, y: Identifier) {
    match x
    case Numeric(m) => y.Alphanumeric? || m < y.n
    case Alphanumeric(s) => y.Alphanumeric? && StringBefore(s, y.s)
  }

  ghost predicate ListBefore(x: seq<Identifier>, y: seq<Identifier>) {
    exists k :: 0 <= k <= |x| && ListsPart(x, y, k)
  }

  ghost predicate ListsPart(x: seq<Identifier>, y: seq<Identifier>, k: nat)
    requires k <= |x|
  {
    k < |y| && x[..k] == y[..k] && (k == |x| || IdentifierBefore(x[k], y[k]))
  }

  lemma {:induction false} StringLessExactly(s: string, t: string)
    ensures StringLess(s, t) <==> StringBefore(s, t)
    decreases |s|
  {
    if t != [] && (s == [] || s[0] != t[0]) {
      assert StringParts(s, t, 0) || (s != [] && s[0] > t[0]);
    } else if t != [] {
      StringLessExactly(s[1..], t[1..]);
      if k :| 0 <= k <= |s[1..]| && StringParts(s[1..], t[1..], k) {
        assert s[..k + 1] == [s[0]] + s[1..][..k] && t[..k + 1] == [t[0]] + t[1..][..k];
        assert StringParts(s, t, k + 1);
      }
      if k :| 0 <= k <= |s| && StringParts(s, t, k) {
        assert s[1..][..k - 1] == s[..k][1..] && t[1..][..k - 1] == t[..k][1..];
        assert StringParts(s[1..], t[1..], k - 1);
      }
    }
  }

  lemma IdentifierLessExactly(x: Identifier, y: Identifier)
    ensures IdentifierLess(x, y) <==> IdentifierBefore(x, y)
  {
    if x.Alphanumeric? && y.Alphanumeric? {
      StringLessExactly(x.s, y.s);
    }
  }

  lemma NotBeforeItself(x: Identifier)
    ensures !IdentifierBefore(x, x)
  {
    IdentifierLessExactly(x, x);
    IdentifierCompare(x, x);
  }

  lemma {:induction false} IdentifiersLessExactly(x: seq<Identifier>, y: seq<Identifier>)
    ensures IdentifiersLess(x, y) <==> ListBefore(x, y)
    decreases |x|
  {
    if y != [] && (x == [] || x[0] != y[0]) {
      if x != [] { IdentifierLessExactly(x[0], y[0]); }
      assert ListsPart(x, y, 0) <==> IdentifiersLess(x, y);
    } else if y != [] {
      IdentifiersLessExactly(x[1..], y[1..]);
      NotBeforeItself(x[0]);
      if k :| 0 <= k <= |x[1..]| && ListsPart(x[1..], y[1..], k) {
        assert x[..k + 1] == [x[0]] + x[1..][..k] && y[..k + 1] == [y[0]] + y[1..][..k];
        assert ListsPart(x, y, k + 1);
      }
      if k :| 0 <= k <= |x| && ListsPart(x, y, k) {
        assert x[1..][..k - 1] == x[..k][1..] && y[1..][..k - 1] == y[..k][1..];
        assert ListsPart(x[1..], y[1..], k - 1);
      }
    }
  }

  /** The first of major, minor and patch that differs decides, by value. If none does, a pre-release comes before
      its release, and of two pre-releases the first identifier that differs decides: numbers by value and before
      words, words by their characters, and the end of a list before anything more. */
  lemma PrecedesExactly(x: Version, y: Version)
    ensures
      Precedes(x, y) <==>
        if x.major != y.major then x.major < y.major
        else if x.minor != y.minor then x.minor < y.minor
        else if x.patch != y.patch then x.patch < y.patch
        else x.pre != [] && (y.pre == [] || ListBefore(x.pre, y.pre))
  {
    IdentifiersLessExactly(x.pre, y.pre);
  }

  // ----- Which release is taken -----

  /** The total order that the program compares with; it goes on to compare the build metadata, by `builds`. */
  predicate AtMost(x: Version, y: Version, builds: (string, string) -> bool) {
    || CoreLess(x, y)
    || (SameCore(x, y) && (PreLess(x.pre, y.pre) || (x.pre == y.pre && builds(x.build, y.build))))
  }

  function NewerVersion(
    r: Release, current: Version, parse: string -> Parsed, builds: (string, string) -> bool): Candidate
  {
    if r.draft || r.prerelease then Nothing
    else if r.tag == "" || r.tag[0] != 'v' then Invalid
    else
      match parse(r.tag[1..])
      case Malformed => Invalid
      case Parsed(version) =>
        if version.pre != [] || version.build != "" || AtMost(version, current, builds) then Nothing else Newer(version)
  }

  /** A release is taken exactly if it is published, stable, and later than what runs: the first of its numbers
      that differs is higher, or none does and a pre-release runs. Where the program's order differs from the
      standard's, in the build metadata, that changes nothing. */
  lemma NewerExactly(
    r: Release, current: Version, parse: string -> Parsed, builds: (string, string) -> bool, v: Version)
    requires forall b :: builds("", b)
    ensures
      NewerVersion(r, current, parse, builds) == Newer(v) <==>
        && !r.draft && !r.prerelease && r.tag != "" && r.tag[0] == 'v' && parse(r.tag[1..]) == Parsed(v)
        && v.pre == [] && v.build == ""
        && (if v.major != current.major then v.major > current.major
            else if v.minor != current.minor then v.minor > current.minor
            else if v.patch != current.patch then v.patch > current.patch
            else current.pre != [])
  {
    if v.pre == [] && v.build == "" {
      assert builds("", current.build);
      assert AtMost(v, current, builds) <==> !Precedes(current, v);
    }
  }

  /** A check reports an error, rather than no news, exactly for a published release whose tag is no version. */
  lemma InvalidExactly(r: Release, current: Version, parse: string -> Parsed, builds: (string, string) -> bool)
    ensures
      NewerVersion(r, current, parse, builds) == Invalid <==>
        && !r.draft && !r.prerelease
        && (forall v, rest :: r.tag == "v" + rest ==> parse(rest) != Parsed(v))
  {
    if r.tag != "" && r.tag[0] == 'v' {
      assert r.tag == "v" + r.tag[1..];
      assert parse(r.tag[1..]).Parsed? ==> parse(r.tag[1..]) == Parsed(parse(r.tag[1..]).version);
    }
    forall v, rest | r.tag == "v" + rest && parse(rest) == Parsed(v)
      ensures NewerVersion(r, current, parse, builds) != Invalid
    {
      assert r.tag[1..] == rest;
    }
  }

  /** One update: the release found is newer than what runs, and its server names that very version. */
  ghost predicate Updates(x: Version, y: Version, parse: string -> Parsed, builds: (string, string) -> bool) {
    exists r :: NewerVersion(r, x, parse, builds) == Newer(y)
  }

  /** Along any chain of updates the precedence strictly increases, so no version ever runs twice. */
  lemma {:induction false} ChainIncreases(
    chain: seq<Version>, parse: string -> Parsed, builds: (string, string) -> bool, i: nat, j: nat)
    requires forall b :: builds("", b)
    requires forall k :: 0 <= k < |chain| - 1 ==> Updates(chain[k], chain[k + 1], parse, builds)
    requires i < j < |chain|
    ensures Precedes(chain[i], chain[j]) && !Precedes(chain[j], chain[i]) && chain[i] != chain[j]
    ensures chain[j].pre == [] && chain[j].build == ""
    decreases j
  {
    assert Updates(chain[j - 1], chain[j - 1 + 1], parse, builds);
    var r :| NewerVersion(r, chain[j - 1], parse, builds) == Newer(chain[j]);
    NewerExactly(r, chain[j - 1], parse, builds, chain[j]);
    PrecedesExactly(chain[j - 1], chain[j]);
    if i < j - 1 {
      ChainIncreases(chain, parse, builds, i, j - 1);
      PrecedenceChains(chain[i], chain[j - 1], chain[j]);
    }
    PrecedenceDecides(chain[i], chain[j]);
  }

  // ----- Times, in seconds since the epoch -----

  const DAY: nat := 24 * 60 * 60

  /** What a server that restarts after a failed installation is told. */
  function RetryAfter(failed: nat): nat {
    failed + DAY
  }

  /** How long a server waits before its first check: never more than a day. */
  function StartDelay(retryAfter: Option<nat>, now: nat): nat {
    if retryAfter.None? || retryAfter.value <= now then 0
    else if retryAfter.value - now < DAY then retryAfter.value - now
    else DAY
  }

  /** The first check begins when it was asked for, but at once if that is past, and after a day at the latest. */
  lemma StartsExactly(retryAfter: Option<nat>, now: nat)
    ensures
      now + StartDelay(retryAfter, now) ==
        if retryAfter.None? || retryAfter.value < now then now
        else if retryAfter.value > now + 86400 then now + 86400
        else retryAfter.value
  {
  }

  /** The first check after a failed installation is a day after it or later exactly if the clock has not
      gone back in between; and the delay is within a day in any case. */
  lemma BackoffExact(failed: nat, started: nat)
    ensures StartDelay(Some(RetryAfter(failed)), started) <= 86400
    ensures started + StartDelay(Some(RetryAfter(failed)), started) >= failed + 86400 <==> started >= failed
  {
  }

  /** When check number `checks` ends: the first begins at `start`, and after each the loop sleeps for a day. */
  function CheckEnds(start: nat, takes: nat -> nat, checks: nat): nat {
    if checks == 0 then start + takes(0) else CheckEnds(start, takes, checks - 1) + DAY + takes(checks)
  }

  /** What the first `n` checks take. */
  function Total(takes: nat -> nat, n: nat): nat {
    if n == 0 then 0 else Total(takes, n - 1) + takes(n - 1)
  }

  /** A day of sleep between any two checks, and nothing more. */
  lemma {:induction false} ChecksADayApart(start: nat, takes: nat -> nat, checks: nat)
    ensures CheckEnds(start, takes, checks) == start + checks * 86400 + Total(takes, checks + 1)
    ensures CheckEnds(start, takes, checks) >= start
  {
    if checks > 0 {
      ChecksADayApart(start, takes, checks - 1);
      assert checks * 86400 == (checks - 1) * 86400 + 86400;
    }
  }

  /** When a server that starts at `now`, and is told not to check before `retryAfter`, has made `checks` + 1. */
  function FoundAt(now: nat, retryAfter: Option<nat>, takes: nat -> nat, checks: nat): nat {
    CheckEnds(now + StartDelay(retryAfter, now), takes, checks)
  }

  /** The loop: check, and sleep for a day after every check that leads to nothing. `takes` is how long each
      check takes and `ready` whether it ends with an update that has passed its preflight; `first` is a
      check that does. */
  method WaitForUpdate(now: nat, retryAfter: Option<nat>, takes: nat -> nat, ready: nat -> bool, ghost first: nat)
    returns (time: nat, checks: nat)
    requires ready(first)
    ensures checks <= first && ready(checks) && forall k :: 0 <= k < checks ==> !ready(k)
    ensures time == FoundAt(now, retryAfter, takes, checks)
    ensures time == now + StartDelay(retryAfter, now) + checks * 86400 + Total(takes, checks + 1)
  {
    ghost var start := now + StartDelay(retryAfter, now);
    time, checks := now + StartDelay(retryAfter, now), 0;
    while true
      invariant checks <= first && forall k :: 0 <= k < checks ==> !ready(k)
      invariant time == if checks == 0 then start else CheckEnds(start, takes, checks - 1) + DAY
      decreases first - checks
    {
      time := time + takes(checks);
      if ready(checks) {
        ChecksADayApart(start, takes, checks);
        return;
      }
      time, checks := time + DAY, checks + 1;
    }
  }

  /** One life of the server: it starts, waits for an update as above, and fails to install it. */
  datatype Life = Life(started: nat, takes: nat -> nat, checks: nat, failed: nat)

  /** Each life starts when the one before has failed to install; it is told when to check again and finds its
      update no sooner than the loop can. `told` is what the first one is told. */
  ghost predicate Lives(lives: seq<Life>, told: Option<nat>) {
    forall k :: 0 <= k < |lives| ==> Lived(lives, told, k)
  }

  ghost predicate Lived(lives: seq<Life>, told: Option<nat>, k: nat)
    requires k < |lives|
  {
    var retryAfter := if k == 0 then told else Some(RetryAfter(lives[k - 1].failed));
    && (k > 0 ==> lives[k - 1].failed <= lives[k].started)
    && FoundAt(lives[k].started, retryAfter, lives[k].takes, lives[k].checks) <= lives[k].failed
  }

  /** An installation that keeps failing is tried at most once a day. */
  lemma {:induction false} FailuresADayApart(lives: seq<Life>, told: Option<nat>, i: nat, j: nat)
    requires Lives(lives, told) && i <= j < |lives|
    ensures lives[j].failed >= lives[i].failed + (j - i) * 86400
    decreases j
  {
    if i < j {
      FailuresADayApart(lives, told, i, j - 1);
      NextFailure(lives, told, j);
      assert (j - i) * 86400 == (j - 1 - i) * 86400 + 86400;
    }
  }

  lemma NextFailure(lives: seq<Life>, told: Option<nat>, j: nat)
    requires Lives(lives, told) && 0 < j < |lives|
    ensures lives[j].failed >= lives[j - 1].failed + 86400
  {
    assert Lived(lives, told, j);
    var life, before := lives[j], lives[j - 1];
    BackoffExact(before.failed, life.started);
    ChecksADayApart(life.started + StartDelay(Some(RetryAfter(before.failed)), life.started), life.takes, life.checks);
  }
}
