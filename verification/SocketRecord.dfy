/** The ownership record of the CLI socket: 40 bytes that name one bound socket, and no other. */
module SocketRecord {
  import opened FileSystem

  type u64 = x: int | 0 <= x < 0x1_0000_0000_0000_0000
  type i64 = x: int | -0x8000_0000_0000_0000 <= x < 0x8000_0000_0000_0000

  /** What tells one bound socket from any other: device, inode, and when it was created. */
  datatype Stamp = Stamp(dev: u64, ino: u64, ctime: i64, nsec: i64)

  const MAGIC: Bytes := [0x64, 0x6f, 0x6f, 0x6b, 0x69, 0x65, 0x30, 0x31]   // "dookie01"
  const WIDTH: nat := 8
  const RECORD_SIZE: nat := 40

  /** Where word number `k` of a record begins. */
  function Offset(k: nat): nat {
    8 + 8 * k
  }

  /** A signed word as the unsigned one with the same bits. */
  function Bits(x: i64): u64 {
    if x < 0 then x + 0x1_0000_0000_0000_0000 else x
  }

  /** The low `size` bytes of `x`, lowest first. */
  function LittleEndian(x: nat, size: nat): (bytes: Bytes)
    ensures |bytes| == size
    decreases size
  {
    if size == 0 then [] else [x % 256] + LittleEndian(x / 256, size - 1)
  }

  function Value(bytes: Bytes): nat
    decreases |bytes|
  {
    if bytes == [] then 0 else bytes[0] + 256 * Value(bytes[1..])
  }

  function Words(s: Stamp): seq<u64> {
    [s.dev, s.ino, Bits(s.ctime), Bits(s.nsec)]
  }

  /** The record with its first `k` words filled in. */
  function Filled(words: seq<u64>, k: nat): (bytes: Bytes)
    requires k <= |words|
    ensures |bytes| == Offset(k)
  {
    if k == 0 then MAGIC else Filled(words, k - 1) + LittleEndian(words[k - 1], WIDTH)
  }

  /** The record of a socket. */
  function Identity(s: Stamp): (bytes: Bytes)
    ensures |bytes| == RECORD_SIZE
  {
    Filled(Words(s), |Words(s)|)
  }

  /** Word number `k` of a record, read back. */
  function Field(record: Bytes, k: nat): nat
    requires Offset(k + 1) <= |record|
  {
    Value(record[Offset(k)..Offset(k + 1)])
  }

  // ----- One word -----

  function Pow256(n: nat): (r: nat)
    ensures r > 0
  {
    if n == 0 then 1 else 256 * Pow256(n - 1)
  }

  lemma {:induction false} LittleEndianValue(x: nat, size: nat)
    requires x < Pow256(size)
    ensures Value(LittleEndian(x, size)) == x
    decreases size
  {
    if size > 0 {
      LittleEndianValue(x / 256, size - 1);
      var bytes := LittleEndian(x, size);
      assert bytes[0] == x % 256 && bytes[1..] == LittleEndian(x / 256, size - 1);
    }
  }

  lemma WordValue(x: u64)
    ensures Value(LittleEndian(x, WIDTH)) == x
  {
    assert Pow256(4) == 0x1_0000_0000;
    assert Pow256(6) == 0x1_0000_0000_0000;
    assert Pow256(8) == 0x1_0000_0000_0000_0000;
    assert Pow256(WIDTH) == 0x1_0000_0000_0000_0000;
    LittleEndianValue(x, WIDTH);
  }

  // ----- The record -----

  lemma SliceOfFirst(first: Bytes, rest: Bytes, i: nat, j: nat)
    requires i <= j <= |first|
    ensures (first + rest)[i..j] == first[i..j]
  {
  }

  lemma SliceOfRest(first: Bytes, rest: Bytes)
    ensures (first + rest)[|first|..|first| + |rest|] == rest
  {
  }

  lemma {:induction false} FilledField(words: seq<u64>, j: nat, k: nat)
    requires j < k <= |words|
    ensures Offset(j + 1) <= |Filled(words, k)| && Field(Filled(words, k), j) == words[j]
    decreases k
  {
    var before, last := Filled(words, k - 1), LittleEndian(words[k - 1], WIDTH);
    if j == k - 1 {
      WordValue(words[j]);
      SliceOfRest(before, last);
    } else {
      FilledField(words, j, k - 1);
      SliceOfFirst(before, last, Offset(j), Offset(j + 1));
    }
  }

  /** Reading a record back gives the four words it was made from. */
  lemma RecordRoundTrip(s: Stamp)
    ensures Field(Identity(s), 0) == s.dev && Field(Identity(s), 1) == s.ino
    ensures Field(Identity(s), 2) == if s.ctime < 0 then s.ctime + 0x1_0000_0000_0000_0000 else s.ctime
    ensures Field(Identity(s), 3) == if s.nsec < 0 then s.nsec + 0x1_0000_0000_0000_0000 else s.nsec
  {
    FilledField(Words(s), 0, 4);
    FilledField(Words(s), 1, 4);
    FilledField(Words(s), 2, 4);
    FilledField(Words(s), 3, 4);
  }

  lemma {:induction false} FilledBegins(words: seq<u64>, k: nat)
    requires k <= |words|
    ensures |Filled(words, k)| >= 8 && Filled(words, k)[..8] == MAGIC
    decreases k
  {
    if k > 0 {
      FilledBegins(words, k - 1);
      SliceOfFirst(Filled(words, k - 1), LittleEndian(words[k - 1], WIDTH), 0, 8);
    }
  }

  /** Every record begins with the same eight characters. */
  lemma RecordBegins(s: Stamp)
    ensures forall i :: 0 <= i < 8 ==> Identity(s)[i] == "dookie01"[i] as int
  {
    FilledBegins(Words(s), |Words(s)|);
    forall i | 0 <= i < 8 ensures Identity(s)[i] == "dookie01"[i] as int {
      assert Identity(s)[i] == Identity(s)[..8][i];
    }
  }

  /** Two sockets have the same record only if they are the same in all four respects. */
  lemma RecordInjective(s: Stamp, s': Stamp)
    ensures Identity(s) == Identity(s') <==> s == s'
  {
    RecordRoundTrip(s);
    RecordRoundTrip(s');
  }

  /** Whether the lock file, with this content, records the socket of this identity: first the length is
      checked, then as many bytes are read and compared. */
  predicate Matches(content: Bytes, identity: Bytes) {
    |content| == |identity| && content[..|identity|] == identity
  }

  /** A truncated file, or one that a write of any record has not finished, records no socket at all. */
  lemma UnfinishedNeverMatches(written: Stamp, k: nat, s: Stamp)
    requires k < RECORD_SIZE
    ensures !Matches(Identity(written)[..k], Identity(s))
    ensures Matches(Identity(written), Identity(s)) <==> written == s
  {
    RecordInjective(written, s);
    assert Identity(written)[..RECORD_SIZE] == Identity(written);
  }

  // ----- The record as it is filled in -----

  lemma NextByte(bytes: Bytes, rest: nat, left: nat)
    requires left > 0
    ensures bytes + LittleEndian(rest, left) == (bytes + [rest % 256]) + LittleEndian(rest / 256, left - 1)
  {
    var tail := LittleEndian(rest / 256, left - 1);
    assert bytes + ([rest % 256] + tail) == (bytes + [rest % 256]) + tail;
  }

  /** `to_le_bytes`. */
  method ToLittleEndian(x: u64) returns (bytes: Bytes)
    ensures bytes == LittleEndian(x, WIDTH)
  {
    var rest: nat := x;
    bytes := [];
    for i := 0 to WIDTH
      invariant bytes + LittleEndian(rest, WIDTH - i) == LittleEndian(x, WIDTH)
    {
      NextByte(bytes, rest, WIDTH - i);
      bytes, rest := bytes + [rest % 256], rest / 256;
    }
  }

  /** `copy_from_slice`. */
  method CopyChunk(identity: array<byte>, start: nat, bytes: Bytes)
    requires start + |bytes| <= identity.Length
    modifies identity
    ensures identity[..start + |bytes|] == old(identity[..start]) + bytes
  {
    for i := 0 to |bytes|
      invariant identity[..start + i] == old(identity[..start]) + bytes[..i]
    {
      identity[start + i] := bytes[i];
    }
  }

  method SocketIdentity(s: Stamp) returns (identity: array<byte>)
    ensures fresh(identity) && identity[..] == Identity(s)
  {
    identity := new byte[RECORD_SIZE](_ => 0);
    CopyChunk(identity, 0, MAGIC);
    var words := Words(s);
    for i := 0 to |words|
      invariant fresh(identity) && identity.Length == RECORD_SIZE
      invariant identity[..Offset(i)] == Filled(words, i)
    {
      var bytes := ToLittleEndian(words[i]);
      CopyChunk(identity, Offset(i), bytes);
    }
    assert identity[..] == identity[..RECORD_SIZE];
  }
}
