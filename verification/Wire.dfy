/** worker/snapstore/types.go: the frames written to the character device, and the
    little-endian decoding of the notifications read from it. */
module Wire {

  import opened Words
  import opened Rows

  const CHARCMD_ACKNOWLEDGE: U32 := 0x01
  const CHARCMD_INITIATE: U32 := 0x21
  const CHARCMD_NEXT_PORTION: U32 := 0x22
  const CHARCMD_HALFFILL: U32 := 0x41
  const CHARCMD_OVERFLOW: U32 := 0x42
  const CHARCMD_TERMINATE: U32 := 0x43

  type UUID = s: seq<Byte> | |s| == 16 witness [0, 0, 0, 0, 0, 0, 0, 0, 0, 0, 0, 0, 0, 0, 0, 0]

  datatype Range = Range(left: U64, right: U64)

  datatype Initiate = Initiate(id: UUID, emptyLimit: U64, device: DevID, count: U32, deviceIDs: seq<DevID>)

  datatype NextPortion = NextPortion(id: UUID, count: U32, ranges: seq<Range>)

  datatype Multidev = Multidev(id: UUID, device: DevID, count: U32, ranges: seq<Range>)

  // ---------------------------------------------------------------- little-endian words

  /** The `n` low bytes of `v`, lowest first. */
  function LE(v: nat, n: nat): (b: seq<Byte>)
    ensures |b| == n
  {
    if n == 0 then [] else [v % 256] + LE(v / 256, n - 1)
  }

  function Value(b: seq<Byte>): nat {
    if b == [] then 0 else b[0] + 256 * Value(b[1..])
  }

  function Pow256(n: nat): nat {
    if n == 0 then 1 else 256 * Pow256(n - 1)
  }

  lemma PowWords()
    ensures Pow256(4) == TWO_32 && Pow256(8) == TWO_64
  {
    assert Pow256(2) == 0x1_0000 && Pow256(4) == 0x1_0000 * Pow256(2);
    assert Pow256(6) == 0x1_0000 * Pow256(4) && Pow256(8) == 0x1_0000 * Pow256(6);
  }

  lemma {:induction false} ValueOfLE(v: nat, n: nat)
    requires v < Pow256(n)
    ensures Value(LE(v, n)) == v
  {
    if n > 0 {
      ValueOfLE(v / 256, n - 1);
      assert LE(v, n)[1..] == LE(v / 256, n - 1);
    }
  }

  lemma LowByte(low: Byte, rest: nat)
    ensures (low + 256 * rest) % 256 == low && (low + 256 * rest) / 256 == rest
  {
  }

  lemma {:induction false} LEOfValue(b: seq<Byte>)
    ensures Value(b) < Pow256(|b|)
    ensures LE(Value(b), |b|) == b
    decreases |b|
  {
    if b != [] {
      var low, rest := b[0], b[1..];
      LEOfValue(rest);
      LowByte(low, Value(rest));
      assert b == [low] + rest;
    }
  }

  lemma {:induction false} ValueConcat(p: seq<Byte>, q: seq<Byte>)
    ensures Value(p + q) == Value(p) + Pow256(|p|) * Value(q)
  {
    if p == [] {
      assert p + q == q;
    } else {
      ValueConcat(p[1..], q);
      assert (p + q)[1..] == p[1..] + q;
      assert Pow256(|p|) * Value(q) == 256 * (Pow256(|p| - 1) * Value(q));
    }
  }

  function Width32(): nat { 4 }
  function Width64(): nat { 8 }

  function LE32(v: U32): (b: seq<Byte>)
    ensures |b| == 4
  {
    LE(v, Width32())
  }

  function LE64(v: U64): (b: seq<Byte>)
    ensures |b| == 8
  {
    LE(v, Width64())
  }

  function Uint32(b: seq<Byte>): U32
    requires |b| == 4
  {
    LEOfValue(b);
    PowWords();
    Value(b)
  }

  /** The two halves put together as `uint64(hi) << 32 | uint64(lo)`. */
  function Halves(lo: U32, hi: U32): U64 { hi * TWO_32 + lo }

  /** Eight bytes read as the watcher reads a fill status: two 32-bit halves. */
  function Uint64(b: seq<Byte>): U64
    requires |b| == 8
  {
    Halves(Uint32(b[..4]), Uint32(b[4..]))
  }

  /** Four bytes as a number, lowest first. */
  function Word(b: seq<Byte>, off: nat): nat
    requires off + 4 <= |b|
  {
    var b0: nat, b1: nat, b2: nat, b3: nat := b[off], b[off + 1], b[off + 2], b[off + 3];
    b0 + 0x100 * b1 + 0x1_0000 * b2 + 0x100_0000 * b3
  }

  /** Eight bytes as a number, lowest first. */
  function DoubleWord(b: seq<Byte>, off: nat): nat
    requires off + 8 <= |b|
  {
    Word(b, off) + 0x1_0000_0000 * Word(b, off + 4)
  }

  lemma Uint32IsWord(b: seq<Byte>, off: nat)
    requires off + 4 <= |b|
    ensures Uint32(b[off..off + 4]) == Word(b, off)
  {
    var c := b[off..off + 4];
    var c0: nat, c1: nat, c2: nat, c3: nat := c[0], c[1], c[2], c[3];
    assert c == [c[0]] + c[1..] && c[1..] == [c[1]] + c[2..] && c[2..] == [c[2]] + c[3..] && c[3..] == [c[3]];
    assert Value(c[3..]) == c3;
    assert Value(c[2..]) == c2 + 0x100 * c3;
    assert Value(c[1..]) == c1 + 0x100 * c2 + 0x1_0000 * c3;
    assert Value(c) == c0 + 0x100 * Value(c[1..]);
  }

  lemma WordAt(b: seq<Byte>, off: nat, v: U32)
    requires off + 4 <= |b| && b[off..off + 4] == LE32(v)
    ensures Word(b, off) == v
  {
    Uint32IsWord(b, off);
    Uint32OfLE32(v);
  }

  lemma DoubleWordAt(b: seq<Byte>, off: nat, v: U64)
    requires off + 8 <= |b| && b[off..off + 8] == LE64(v)
    ensures DoubleWord(b, off) == v
  {
    TwoWords(v);
    var c := b[off..off + 8];
    assert b[off..off + 4] == c[..4] == LE32(v % TWO_32) && b[off + 4..off + 8] == c[4..] == LE32(v / TWO_32);
    WordAt(b, off, v % TWO_32);
    WordAt(b, off + 4, v / TWO_32);
  }

  lemma Uint32OfLE32(v: U32)
    ensures Uint32(LE32(v)) == v
  {
    PowWords();
    ValueOfLE(v, Width32());
  }

  lemma Uint64IsValue(b: seq<Byte>)
    requires |b| == 8
    ensures Uint64(b) == Value(b)
  {
    ValueConcat(b[..4], b[4..]);
    PowWords();
    assert b == b[..4] + b[4..];
  }

  /** Reading a fill status as two 32-bit halves inverts the kernel's 64-bit encoding. */
  lemma Uint64OfLE64(v: U64)
    ensures Uint64(LE64(v)) == v
  {
    PowWords();
    ValueOfLE(v, Width64());
    Uint64IsValue(LE64(v));
  }

  lemma LE64OfUint64(b: seq<Byte>)
    requires |b| == 8
    ensures LE64(Uint64(b)) == b
  {
    LEOfValue(b);
    Uint64IsValue(b);
  }

  /** Encoding the halves one after the other is encoding the whole. */
  lemma LE64OfHalves(lo: U32, hi: U32)
    ensures LE64(Halves(lo, hi)) == LE32(lo) + LE32(hi)
  {
    var b := LE32(lo) + LE32(hi);
    assert b[..4] == LE32(lo) && b[4..] == LE32(hi);
    Uint32OfLE32(lo);
    Uint32OfLE32(hi);
    LE64OfUint64(b);
  }

  // ---------------------------------------------------------------- frames

  function Dev(d: DevID): (b: seq<Byte>)
    ensures |b| == 8
  {
    LE32(d.major) + LE32(d.minor)
  }

  function Pair(r: Range): (b: seq<Byte>)
    ensures |b| == 16
  {
    LE64(r.left) + LE64(r.right)
  }

  /** The encodings of several values, one after the other. */
  function EncodeAll<T>(enc: T -> seq<Byte>, ts: seq<T>): seq<Byte> {
    if ts == [] then [] else EncodeAll(enc, ts[..|ts| - 1]) + enc(ts[|ts| - 1])
  }

  lemma {:induction false} EncodeLength<T(!new)>(enc: T -> seq<Byte>, width: nat, ts: seq<T>)
    requires forall t :: |enc(t)| == width
    ensures |EncodeAll(enc, ts)| == width * |ts|
  {
    if ts != [] {
      EncodeLength(enc, width, ts[..|ts| - 1]);
      assert width * (|ts| - 1) + width == width * |ts|;
    }
  }

  lemma EncodeSnoc<T>(enc: T -> seq<Byte>, ts: seq<T>, i: nat)
    requires i < |ts|
    ensures EncodeAll(enc, ts[..i + 1]) == EncodeAll(enc, ts[..i]) + enc(ts[i])
  {
    assert ts[..i + 1][..i] == ts[..i];
  }

  function Devs(ds: seq<DevID>): (b: seq<Byte>)
    ensures |b| == 8 * |ds|
  {
    EncodeLength(Dev, 8, ds);
    EncodeAll(Dev, ds)
  }

  function Pairs(rs: seq<Range>): (b: seq<Byte>)
    ensures |b| == 16 * |rs|
  {
    EncodeLength(Pair, 16, rs);
    EncodeAll(Pair, rs)
  }

  function InitiateFrame(p: Initiate): (b: seq<Byte>)
    ensures |b| == 40 + 8 * |p.deviceIDs|
  {
    LE32(CHARCMD_INITIATE) + p.id + LE64(p.emptyLimit) + Dev(p.device) + LE32(p.count) + Devs(p.deviceIDs)
  }

  function NextPortionFrame(p: NextPortion): (b: seq<Byte>)
    ensures |b| == 24 + 16 * |p.ranges|
  {
    LE32(CHARCMD_NEXT_PORTION) + p.id + LE32(p.count) + Pairs(p.ranges)
  }

  /** The multi-device portion is sent under the command word of an initiate frame. */
  function MultidevFrame(p: Multidev): (b: seq<Byte>)
    ensures |b| == 32 + 16 * |p.ranges|
  {
    LE32(CHARCMD_INITIATE) + p.id + Dev(p.device) + LE32(p.count) + Pairs(p.ranges)
  }

  lemma DevsSnoc(ds: seq<DevID>, i: nat)
    requires i < |ds|
    ensures Devs(ds[..i + 1]) == Devs(ds[..i]) + Dev(ds[i])
  {
    EncodeSnoc(Dev, ds, i);
  }

  lemma PairsSnoc(rs: seq<Range>, i: nat)
    requires i < |rs|
    ensures Pairs(rs[..i + 1]) == Pairs(rs[..i]) + Pair(rs[i])
  {
    EncodeSnoc(Pair, rs, i);
  }

  lemma Regroup(h: seq<Byte>, p: seq<Byte>, a: seq<Byte>)
    ensures h + p + a == h + (p + a)
  {
  }

  // ---------------------------------------------------------------- serializers

  /** PutUint32 and PutUint64 of encoding/binary, for a width of 4 or 8. */
  method PutUint(a: array<Byte>, off: nat, v: nat, width: nat)
    requires off + width <= a.Length
    modifies a
    ensures a[..off + width] == old(a[..off]) + LE(v, width)
  {
    var rest := v;
    for i := 0 to width
      invariant a[..off] == old(a[..off])
      invariant a[off..off + i] + LE(rest, width - i) == LE(v, width)
    {
      ghost var done := a[off..off + i];
      a[off + i] := rest % 256;
      assert a[off..off + i + 1] == done + [rest % 256];
      rest := rest / 256;
    }
    assert a[..off + width] == a[..off] + a[off..off + width];
  }

  method Copy(a: array<Byte>, off: nat, id: UUID)
    requires off + 16 <= a.Length
    modifies a
    ensures a[..off + 16] == old(a[..off]) + id
  {
    for i := 0 to 16
      invariant a[..off] == old(a[..off])
      invariant a[off..off + i] == id[..i]
    {
      a[off + i] := id[i];
    }
    assert a[..off + 16] == a[..off] + a[off..off + 16];
    assert id[..16] == id;
  }

  method PutDev(a: array<Byte>, off: nat, d: DevID)
    requires off + 8 <= a.Length
    modifies a
    ensures a[..off + 8] == old(a[..off]) + Dev(d)
  {
    ghost var header := a[..off];
    PutUint(a, off, d.major, Width32());
    assert a[..off + 4] == header + LE32(d.major);
    PutUint(a, off + 4, d.minor, Width32());
    Regroup(header, LE32(d.major), LE32(d.minor));
  }

  method PutPair(a: array<Byte>, off: nat, r: Range)
    requires off + 16 <= a.Length
    modifies a
    ensures a[..off + 16] == old(a[..off]) + Pair(r)
  {
    ghost var header := a[..off];
    PutUint(a, off, r.left, Width64());
    assert a[..off + 8] == header + LE64(r.left);
    PutUint(a, off + 8, r.right, Width64());
    Regroup(header, LE64(r.left), LE64(r.right));
  }

  /** The buffer is filled to the last byte and never overrun, whatever Count says. */
  method SerializeInitiate(p: Initiate) returns (ret: array<Byte>)
    ensures ret[..] == InitiateFrame(p)
  {
    ret := new Byte[40 + 8 * |p.deviceIDs|];
    var processed := 0;
    PutUint(ret, processed, CHARCMD_INITIATE, Width32());
    processed := processed + 4;
    Copy(ret, processed, p.id);
    processed := processed + 16;
    PutUint(ret, processed, p.emptyLimit, Width64());
    processed := processed + 8;
    assert ret[..28] == LE32(CHARCMD_INITIATE) + p.id + LE64(p.emptyLimit);
    PutDev(ret, processed, p.device);
    processed := processed + 8;
    PutUint(ret, processed, p.count, Width32());
    processed := processed + 4;
    assert ret[..40] == LE32(CHARCMD_INITIATE) + p.id + LE64(p.emptyLimit) + Dev(p.device) + LE32(p.count);
    PutDevs(ret, processed, p.deviceIDs);
  }

  method PutDevs(ret: array<Byte>, off: nat, ds: seq<DevID>)
    requires off + 8 * |ds| == ret.Length
    modifies ret
    ensures ret[..] == old(ret[..off]) + Devs(ds)
  {
    var processed := off;
    ghost var header := ret[..off];
    for i := 0 to |ds|
      invariant processed == off + 8 * i
      invariant ret[..processed] == header + Devs(ds[..i])
    {
      PutDev(ret, processed, ds[i]);
      processed := processed + 8;
      DevsSnoc(ds, i);
      Regroup(header, Devs(ds[..i]), Dev(ds[i]));
    }
    assert processed == ret.Length;
    assert ds[..|ds|] == ds;
  }

  method PutRanges(ret: array<Byte>, off: nat, rs: seq<Range>)
    requires off + 16 * |rs| == ret.Length
    modifies ret
    ensures ret[..] == old(ret[..off]) + Pairs(rs)
  {
    var processed := off;
    ghost var header := ret[..off];
    for i := 0 to |rs|
      invariant processed == off + 16 * i
      invariant ret[..processed] == header + Pairs(rs[..i])
    {
      PutPair(ret, processed, rs[i]);
      processed := processed + 16;
      PairsSnoc(rs, i);
      Regroup(header, Pairs(rs[..i]), Pair(rs[i]));
    }
    assert processed == ret.Length;
    assert rs[..|rs|] == rs;
  }

  method SerializeNextPortion(p: NextPortion) returns (ret: array<Byte>)
    ensures ret[..] == NextPortionFrame(p)
  {
    ret := new Byte[24 + 16 * |p.ranges|];
    var processed := 0;
    PutUint(ret, processed, CHARCMD_NEXT_PORTION, Width32());
    processed := processed + 4;
    Copy(ret, processed, p.id);
    processed := processed + 16;
    PutUint(ret, processed, p.count, Width32());
    processed := processed + 4;
    assert ret[..24] == LE32(CHARCMD_NEXT_PORTION) + p.id + LE32(p.count);
    PutRanges(ret, processed, p.ranges);
  }

  method SerializeMultidev(p: Multidev) returns (r: Result<seq<Byte>>)
    ensures r == if p.count == |p.ranges| then Ok(MultidevFrame(p)) else Err(Failed)
  {
    if p.count != |p.ranges| {
      return Err(Failed);
    }
    var ret := new Byte[32 + 16 * |p.ranges|];
    var processed := 0;
    PutUint(ret, processed, CHARCMD_INITIATE, Width32());
    processed := processed + 4;
    Copy(ret, processed, p.id);
    processed := processed + 16;
    PutDev(ret, processed, p.device);
    processed := processed + 8;
    PutUint(ret, processed, p.count, Width32());
    processed := processed + 4;
    assert ret[..32] == LE32(CHARCMD_INITIATE) + p.id + Dev(p.device) + LE32(p.count);
    PutRanges(ret, processed, p.ranges);
    return Ok(ret[..]);
  }

  // ---------------------------------------------------------------- the bytes of a frame

  lemma Fits(width: nat, i: nat, n: nat)
    requires i < n
    ensures width * i + width <= width * n
  {
    assert width * i + width == width * (i + 1);
    assert width * n == width * (i + 1) + width * (n - i - 1);
  }

  lemma SliceOfPrefix(p: seq<Byte>, q: seq<Byte>, from: nat, to: nat)
    requires from <= to <= |p|
    ensures (p + q)[from..to] == p[from..to]
  {
  }

  lemma {:induction false} EncodeAt<T(!new)>(enc: T -> seq<Byte>, width: nat, ts: seq<T>, i: nat)
    requires i < |ts| && forall t :: |enc(t)| == width
    ensures width * i + width <= |EncodeAll(enc, ts)|
    ensures EncodeAll(enc, ts)[width * i..width * i + width] == enc(ts[i])
    decreases |ts|
  {
    var n := |ts| - 1;
    var front := ts[..n];
    EncodeLength(enc, width, front);
    EncodeLength(enc, width, ts);
    Fits(width, i, |ts|);
    if i < n {
      EncodeAt(enc, width, front, i);
      Fits(width, i, n);
      SliceOfPrefix(EncodeAll(enc, front), enc(ts[n]), width * i, width * i + width);
    }
  }

  /** Each device as two words, at eight bytes a device. */
  ghost predicate DevsAt(b: seq<Byte>, off: nat, ds: seq<DevID>) {
    && |b| == off + 8 * |ds|
    && forall i | 0 <= i < |ds| :: Word(b, off + 8 * i) == ds[i].major && Word(b, off + 8 * i + 4) == ds[i].minor
  }

  /** Each range as two double words, left end first, at sixteen bytes a range. */
  ghost predicate PairsAt(b: seq<Byte>, off: nat, rs: seq<Range>) {
    && |b| == off + 16 * |rs|
    && forall i | 0 <= i < |rs| ::
         DoubleWord(b, off + 16 * i) == rs[i].left && DoubleWord(b, off + 16 * i + 8) == rs[i].right
  }

  lemma DevAt(b: seq<Byte>, off: nat, d: DevID)
    requires off + 8 <= |b| && b[off..off + 8] == Dev(d)
    ensures Word(b, off) == d.major && Word(b, off + 4) == d.minor
  {
    var c := b[off..off + 8];
    assert b[off..off + 4] == c[..4] == LE32(d.major) && b[off + 4..off + 8] == c[4..] == LE32(d.minor);
    WordAt(b, off, d.major);
    WordAt(b, off + 4, d.minor);
  }

  lemma PairAt(b: seq<Byte>, off: nat, r: Range)
    requires off + 16 <= |b| && b[off..off + 16] == Pair(r)
    ensures DoubleWord(b, off) == r.left && DoubleWord(b, off + 8) == r.right
  {
    var c := b[off..off + 16];
    assert b[off..off + 8] == c[..8] == LE64(r.left) && b[off + 8..off + 16] == c[8..] == LE64(r.right);
    DoubleWordAt(b, off, r.left);
    DoubleWordAt(b, off + 8, r.right);
  }

  lemma DevsLieAt(b: seq<Byte>, off: nat, ds: seq<DevID>)
    requires off <= |b| && b[off..] == Devs(ds)
    ensures DevsAt(b, off, ds)
  {
    forall i | 0 <= i < |ds|
      ensures Word(b, off + 8 * i) == ds[i].major && Word(b, off + 8 * i + 4) == ds[i].minor
    {
      EncodeAt(Dev, 8, ds, i);
      assert b[off + 8 * i..off + 8 * i + 8] == b[off..][8 * i..8 * i + 8];
      DevAt(b, off + 8 * i, ds[i]);
    }
  }

  lemma PairsLieAt(b: seq<Byte>, off: nat, rs: seq<Range>)
    requires off <= |b| && b[off..] == Pairs(rs)
    ensures PairsAt(b, off, rs)
  {
    forall i | 0 <= i < |rs|
      ensures DoubleWord(b, off + 16 * i) == rs[i].left && DoubleWord(b, off + 16 * i + 8) == rs[i].right
    {
      EncodeAt(Pair, 16, rs, i);
      assert b[off + 16 * i..off + 16 * i + 16] == b[off..][16 * i..16 * i + 16];
      PairAt(b, off + 16 * i, rs[i]);
    }
  }

  /** Where every field of an initiate frame lies. */
  lemma InitiateLayout(p: Initiate)
    ensures var b := InitiateFrame(p);
            && Word(b, 0) == 0x21 && b[4..20] == p.id && DoubleWord(b, 20) == p.emptyLimit
            && Word(b, 28) == p.device.major && Word(b, 32) == p.device.minor && Word(b, 36) == p.count
            && DevsAt(b, 40, p.deviceIDs)
  {
    var b := InitiateFrame(p);
    assert b[0..4] == LE32(CHARCMD_INITIATE) && b[4..20] == p.id && b[20..28] == LE64(p.emptyLimit);
    assert b[28..36] == Dev(p.device) && b[36..40] == LE32(p.count) && b[40..] == Devs(p.deviceIDs);
    WordAt(b, 0, CHARCMD_INITIATE);
    DoubleWordAt(b, 20, p.emptyLimit);
    DevAt(b, 28, p.device);
    WordAt(b, 36, p.count);
    DevsLieAt(b, 40, p.deviceIDs);
  }

  lemma NextPortionLayout(p: NextPortion)
    ensures var b := NextPortionFrame(p);
            Word(b, 0) == 0x22 && b[4..20] == p.id && Word(b, 20) == p.count && PairsAt(b, 24, p.ranges)
  {
    var b := NextPortionFrame(p);
    assert b[0..4] == LE32(CHARCMD_NEXT_PORTION) && b[4..20] == p.id && b[20..24] == LE32(p.count);
    assert b[24..] == Pairs(p.ranges);
    WordAt(b, 0, CHARCMD_NEXT_PORTION);
    WordAt(b, 20, p.count);
    PairsLieAt(b, 24, p.ranges);
  }

  lemma MultidevLayout(p: Multidev)
    ensures var b := MultidevFrame(p);
            && Word(b, 0) == 0x21 && b[4..20] == p.id
            && Word(b, 20) == p.device.major && Word(b, 24) == p.device.minor && Word(b, 28) == p.count
            && PairsAt(b, 32, p.ranges)
  {
    var b := MultidevFrame(p);
    assert b[0..4] == LE32(CHARCMD_INITIATE) && b[4..20] == p.id && b[20..28] == Dev(p.device);
    assert b[28..32] == LE32(p.count) && b[32..] == Pairs(p.ranges);
    WordAt(b, 0, CHARCMD_INITIATE);
    DevAt(b, 20, p.device);
    WordAt(b, 28, p.count);
    PairsLieAt(b, 32, p.ranges);
  }

  // ---------------------------------------------------------------- the receiving side

  /** As many values as there are whole groups of `width` bytes, counted from the end. */
  function DecodeAll<T>(dec: seq<Byte> --> T, width: nat, b: seq<Byte>): seq<T>
    requires width > 0 && forall c: seq<Byte> | |c| == width :: dec.requires(c)
  {
    if |b| < width then []
    else DecodeAll(dec, width, b[..|b| - width]) + [dec(b[|b| - width..])]
  }

  lemma {:induction false} DecodeOfEncode<T(!new)>(enc: T -> seq<Byte>, dec: seq<Byte> --> T, width: nat, ts: seq<T>)
    requires width > 0 && forall c: seq<Byte> | |c| == width :: dec.requires(c)
    requires forall t :: |enc(t)| == width && dec(enc(t)) == t
    ensures DecodeAll(dec, width, EncodeAll(enc, ts)) == ts
  {
    if ts != [] {
      var front, t := ts[..|ts| - 1], ts[|ts| - 1];
      DecodeOfEncode(enc, dec, width, front);
      var b := EncodeAll(enc, front) + enc(t);
      assert b[..|b| - width] == EncodeAll(enc, front) && b[|b| - width..] == enc(t);
      assert ts == front + [t];
    }
  }

  function ParseDev(b: seq<Byte>): DevID
    requires |b| == 8
  {
    DevID(Uint32(b[..4]), Uint32(b[4..]))
  }

  function ParsePair(b: seq<Byte>): Range
    requires |b| == 16
  {
    Range(Uint64(b[..8]), Uint64(b[8..]))
  }

  function ReadDevs(b: seq<Byte>): seq<DevID> { DecodeAll(ParseDev, 8, b) }

  function ReadPairs(b: seq<Byte>): seq<Range> { DecodeAll(ParsePair, 16, b) }

  /** The kernel's reading of a frame: the command, the fixed fields, and as many entries as
      the count announces, no more and no less. */
  function DecodeInitiate(b: seq<Byte>): Option<Initiate> {
    if |b| < 40 || Uint32(b[..4]) != CHARCMD_INITIATE || |b| != 40 + 8 * Uint32(b[36..40]) then None
    else Some(Initiate(b[4..20], Uint64(b[20..28]), DevID(Uint32(b[28..32]), Uint32(b[32..36])),
                       Uint32(b[36..40]), ReadDevs(b[40..])))
  }

  function DecodeNextPortion(b: seq<Byte>): Option<NextPortion> {
    if |b| < 24 || Uint32(b[..4]) != CHARCMD_NEXT_PORTION || |b| != 24 + 16 * Uint32(b[20..24]) then None
    else Some(NextPortion(b[4..20], Uint32(b[20..24]), ReadPairs(b[24..])))
  }

  function DecodeMultidev(b: seq<Byte>): Option<Multidev> {
    if |b| < 32 || Uint32(b[..4]) != CHARCMD_INITIATE || |b| != 32 + 16 * Uint32(b[28..32]) then None
    else Some(Multidev(b[4..20], DevID(Uint32(b[20..24]), Uint32(b[24..28])), Uint32(b[28..32]), ReadPairs(b[32..])))
  }

  lemma ParseOfDev(d: DevID)
    ensures ParseDev(Dev(d)) == d
  {
    Uint32OfLE32(d.major);
    Uint32OfLE32(d.minor);
  }

  lemma ParseOfPair(r: Range)
    ensures ParsePair(Pair(r)) == r
  {
    var b := Pair(r);
    assert b[..8] == LE64(r.left) && b[8..] == LE64(r.right);
    Uint64OfLE64(r.left);
    Uint64OfLE64(r.right);
  }

  lemma ReadDevsOfDevs(ds: seq<DevID>)
    ensures ReadDevs(Devs(ds)) == ds
  {
    forall d: DevID ensures ParseDev(Dev(d)) == d {
      ParseOfDev(d);
    }
    DecodeOfEncode(Dev, ParseDev, 8, ds);
  }

  lemma ReadPairsOfPairs(rs: seq<Range>)
    ensures ReadPairs(Pairs(rs)) == rs
  {
    forall r: Range ensures ParsePair(Pair(r)) == r {
      ParseOfPair(r);
    }
    DecodeOfEncode(Pair, ParsePair, 16, rs);
  }

  /** An initiate frame is read back field by field, for any number of devices, exactly when
      its Count field is the number of devices it carries. */
  lemma InitiateRoundTrip(p: Initiate)
    ensures DecodeInitiate(InitiateFrame(p)) == Some(p) <==> p.count == |p.deviceIDs|
  {
    var b := InitiateFrame(p);
    assert b[..4] == LE32(CHARCMD_INITIATE) && b[4..20] == p.id && b[20..28] == LE64(p.emptyLimit);
    assert b[28..32] == LE32(p.device.major) && b[32..36] == LE32(p.device.minor) && b[36..40] == LE32(p.count);
    assert b[40..] == Devs(p.deviceIDs);
    Uint32OfLE32(CHARCMD_INITIATE);
    Uint64OfLE64(p.emptyLimit);
    Uint32OfLE32(p.device.major);
    Uint32OfLE32(p.device.minor);
    Uint32OfLE32(p.count);
    ReadDevsOfDevs(p.deviceIDs);
  }

  lemma NextPortionRoundTrip(p: NextPortion)
    ensures DecodeNextPortion(NextPortionFrame(p)) == Some(p) <==> p.count == |p.ranges|
  {
    var b := NextPortionFrame(p);
    assert b[..4] == LE32(CHARCMD_NEXT_PORTION) && b[4..20] == p.id && b[20..24] == LE32(p.count);
    assert b[24..] == Pairs(p.ranges);
    Uint32OfLE32(CHARCMD_NEXT_PORTION);
    Uint32OfLE32(p.count);
    ReadPairsOfPairs(p.ranges);
  }

  lemma MultidevRoundTrip(p: Multidev)
    ensures DecodeMultidev(MultidevFrame(p)) == Some(p) <==> p.count == |p.ranges|
  {
    var b := MultidevFrame(p);
    assert b[..4] == LE32(CHARCMD_INITIATE) && b[4..20] == p.id && b[20..24] == LE32(p.device.major);
    assert b[24..28] == LE32(p.device.minor) && b[28..32] == LE32(p.count) && b[32..] == Pairs(p.ranges);
    Uint32OfLE32(CHARCMD_INITIATE);
    Uint32OfLE32(p.device.major);
    Uint32OfLE32(p.device.minor);
    Uint32OfLE32(p.count);
    ReadPairsOfPairs(p.ranges);
  }

  lemma SameBytes(h: seq<Byte>, dev: seq<Byte>, a: seq<Byte>, b: seq<Byte>, c: seq<Byte>, d: seq<Byte>)
    ensures h + dev + a + ((b + c) + d) == h + dev + (a + b) + c + d
  {
  }

  /** The initiate request whose frame has the same bytes. */
  function Lookalike(p: Multidev): Initiate
    requires |p.ranges| == 1
  {
    var r := p.ranges[0];
    Initiate(p.id, Halves(p.device.major, p.device.minor), DevID(1, r.left % TWO_32), 1,
             [DevID(r.right % TWO_32, r.right / TWO_32)])
  }

  lemma OnePair(r: Range)
    ensures Pairs([r]) == LE64(r.left) + LE64(r.right)
  {
    PairsSnoc([r], 0);
    assert [r][..1] == [r] && [r][..0] == [];
  }

  lemma OneDev(d: DevID)
    ensures Devs([d]) == LE32(d.major) + LE32(d.minor)
  {
    DevsSnoc([d], 0);
    assert [d][..1] == [d] && [d][..0] == [];
  }

  lemma LookalikeFrame(p: Multidev)
    requires p.count == |p.ranges| == 1 && TWO_32 <= p.ranges[0].left < 2 * TWO_32
    ensures MultidevFrame(p) == InitiateFrame(Lookalike(p))
  {
    var r := p.ranges[0];
    assert p.ranges == [r];
    OnePair(r);
    OneDev(Lookalike(p).deviceIDs[0]);
    LE64OfHalves(p.device.major, p.device.minor);
    TwoWords(r.left);
    TwoWords(r.right);
    assert r.left / TWO_32 == 1;
    assert Devs(Lookalike(p).deviceIDs) == LE64(r.right);
    assert Dev(Lookalike(p).device) == LE32(1) + LE32(r.left % TWO_32);
    SameBytes(LE32(CHARCMD_INITIATE) + p.id, Dev(p.device), LE32(1), LE32(r.left % TWO_32), LE32(1), LE64(r.right));
  }

  lemma TwoWords(v: U64)
    ensures LE64(v) == LE32(v % TWO_32) + LE32(v / TWO_32)
  {
    LE64OfHalves(v % TWO_32, v / TWO_32);
  }

  /** Because it borrows the initiate command word, a multi-device frame cannot be told from
      an initiate frame by its bytes: every one-range frame whose left end lies between 2^32
      and 2^33 is read without complaint either way. */
  lemma MultidevAmbiguous(p: Multidev)
    requires p.count == |p.ranges| == 1 && TWO_32 <= p.ranges[0].left < 2 * TWO_32
    ensures DecodeInitiate(MultidevFrame(p)) == Some(Lookalike(p))
    ensures DecodeMultidev(MultidevFrame(p)) == Some(p)
  {
    LookalikeFrame(p);
    MultidevRoundTrip(p);
    InitiateRoundTrip(Lookalike(p));
  }

  lemma {:induction false} FirstPair(rs: seq<Range>)
    requires rs != []
    ensures Pairs(rs)[..16] == Pair(rs[0])
    decreases |rs|
  {
    var n := |rs| - 1;
    PairsSnoc(rs, n);
    assert rs[..n + 1] == rs;
    if n == 0 {
      assert Pairs(rs[..0]) == [];
    } else {
      FirstPair(rs[..n]);
    }
  }

  /** Exactly when a multi-device frame also passes for an initiate frame: the high word of
      its first range's left end happens to be one less than twice the number of ranges. */
  lemma MultidevMistakenIff(p: Multidev)
    ensures DecodeInitiate(MultidevFrame(p)).Some? <==>
              |p.ranges| > 0 && p.ranges[0].left / TWO_32 == 2 * |p.ranges| - 1
  {
    var b := MultidevFrame(p);
    assert b[..4] == LE32(CHARCMD_INITIATE);
    Uint32OfLE32(CHARCMD_INITIATE);
    if |p.ranges| > 0 {
      assert b[32..] == Pairs(p.ranges);
      FirstPair(p.ranges);
      TwoWords(p.ranges[0].left);
      assert b[36..40] == Pairs(p.ranges)[..16][4..8] == LE64(p.ranges[0].left)[4..];
      Uint32OfLE32(p.ranges[0].left / TWO_32);
    }
  }
}
