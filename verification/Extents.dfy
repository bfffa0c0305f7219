/** internal/util/fiemap.go and internal/util/util.go, GetFileRanges: from the extents of a
    pre-allocated file to the ranges handed to the kernel. The FIEMAP ioctl is an oracle. */
module Extents {

  import opened Words
  import opened Rows
  import opened Wire

  datatype Extent = Extent(logical: U64, physical: U64, length: U64)

  /** How many extents one FIEMAP call may return. */
  const FE_COUNT := 8000

  function End(e: Extent): nat { e.logical + e.length }

  /** A file's extents: not empty, in logical order, addressed with 64 bits. */
  ghost predicate Layout(file: seq<Extent>) {
    && (forall i | 0 <= i < |file| :: file[i].length > 0 && End(file[i]) < TWO_64)
    && (forall i, j | 0 <= i < j < |file| :: End(file[i]) <= file[j].logical)
  }

  /** What remains of the file from a logical offset on. */
  function From(file: seq<Extent>, start: nat): seq<Extent> {
    if file == [] then [] else if End(file[0]) <= start then From(file[1..], start) else file
  }

  /** The ioctl's contract: unless it fails, a call returns the next extents from the offset,
      at least one if there is one, and never more than it was asked for. How many is up to
      the kernel, call by call. */
  ghost predicate Answers(fiemap: nat -> Result<seq<Extent>>, file: seq<Extent>) {
    forall start: nat :: fiemap(start).Ok? ==>
      && fiemap(start).value <= From(file, start)
      && |fiemap(start).value| <= FE_COUNT
      && (From(file, start) != [] ==> fiemap(start).value != [])
  }

  lemma {:induction false} FromAfter(file: seq<Extent>, k: nat)
    requires Layout(file) && k <= |file|
    ensures From(file, if k == 0 then 0 else End(file[k - 1])) == file[k..]
  {
    if k > 0 {
      var start := End(file[k - 1]);
      if k == 1 {
        if |file| > 1 {
          assert file[1..][0] == file[1];
          assert From(file[1..], start) == file[1..];
        }
      } else {
        assert End(file[0]) <= file[k - 1].logical < start;
        FromAfter(file[1..], k - 1);
        assert file[1..][k - 1..] == file[k..];
        assert file[1..][k - 2] == file[k - 1];
      }
    }
  }

  /** Where the walk goes on after some of the extents, what a call brings is what comes next. */
  lemma NextBatch(fiemap: nat -> Result<seq<Extent>>, file: seq<Extent>, ret: seq<Extent>)
    requires Layout(file) && Answers(fiemap, file) && ret <= file
    ensures var batch := fiemap(if ret == [] then 0 else End(ret[|ret| - 1]));
            batch.Ok? ==> ret + batch.value <= file && (batch.value == [] ==> ret == file)
  {
    FromAfter(file, |ret|);
  }

  /** The batched walk ends and returns the complete extent list, each extent once and in
      order, however the kernel cuts the batches; it fails only if a call failed. */
  method WalkFiemap(fiemap: nat -> Result<seq<Extent>>, ghost file: seq<Extent>) returns (r: Result<seq<Extent>>)
    requires Layout(file) && Answers(fiemap, file)
    ensures r.Ok? ==> r.value == file
    ensures r.Err? ==> exists start: nat :: fiemap(start).Err?
  {
    var ret: seq<Extent> := [];
    while true
      invariant ret <= file
      decreases |file| - |ret|
    {
      var last := 0;
      if |ret| > 0 {
        last := ret[|ret| - 1].logical + ret[|ret| - 1].length;
      }
      NextBatch(fiemap, file, ret);
      var batch := fiemap(last);
      if batch.Err? {
        return Err(batch.error);
      }
      if |batch.value| == 0 {
        break;
      }
      ret := ret + batch.value;
    }
    return Ok(ret);
  }

  // ---------------------------------------------------------------- ranges

  /** An inclusive byte range, in Go's wrapping 64-bit arithmetic. */
  function RangeOf(e: Extent): Range {
    Range(e.physical, (e.physical + e.length - 1) % TWO_64)
  }

  function RangesOf(file: seq<Extent>): (rs: seq<Range>)
    ensures |rs| == |file|
  {
    seq(|file|, i requires 0 <= i < |file| => RangeOf(file[i]))
  }

  /** GetFileRanges, given the device lookup's outcome. */
  method GetFileRanges(device: Result<DevID>, fiemap: nat -> Result<seq<Extent>>, ghost file: seq<Extent>)
    returns (r: Result<(seq<Range>, DevID)>)
    requires Layout(file) && Answers(fiemap, file)
    ensures r.Ok? ==> device == Ok(r.value.1) && r.value.0 == RangesOf(file)
    ensures r.Err? ==> device.Err? || exists start: nat :: fiemap(start).Err?
  {
    if device.Err? {
      return Err(device.error);
    }
    var extents := WalkFiemap(fiemap, file);
    if extents.Err? {
      return Err(extents.error);
    }
    var ret: seq<Range> := [];
    for i := 0 to |extents.value|
      invariant |ret| == i
      invariant forall k | 0 <= k < i :: ret[k] == RangeOf(file[k])
    {
      var val := extents.value[i];
      ret := ret + [Range(val.physical, (val.physical + val.length - 1) % TWO_64)];
    }
    return Ok((ret, device.value));
  }

  /** The frame AllocateStorage writes: Count is the number of ranges cut to 32 bits. */
  function Portion(id: UUID, file: seq<Extent>): NextPortion {
    NextPortion(id, |file| % TWO_32, RangesOf(file))
  }

  method AllocationFrame(id: UUID, snapDevice: DevID, device: Result<DevID>,
                         fiemap: nat -> Result<seq<Extent>>, ghost file: seq<Extent>)
    returns (r: Result<seq<Byte>>)
    requires Layout(file) && Answers(fiemap, file)
    ensures r.Ok? ==> device == Ok(snapDevice) && r.value == NextPortionFrame(Portion(id, file))
    ensures r.Err? ==> device != Ok(snapDevice) || exists start: nat :: fiemap(start).Err?
  {
    var ranges := GetFileRanges(device, fiemap, file);
    if ranges.Err? {
      return Err(ranges.error);
    }
    if ranges.value.1 != snapDevice {
      return Err(Failed);
    }
    var bytes := SerializeNextPortion(NextPortion(id, |ranges.value.0| % TWO_32, ranges.value.0));
    return Ok(bytes[..]);
  }

  // ---------------------------------------------------------------- what reaches the kernel

  predicate InExtents(file: seq<Extent>, x: nat) {
    exists i | 0 <= i < |file| :: file[i].physical <= x < file[i].physical + file[i].length
  }

  predicate InPairs(rs: seq<Range>, x: nat) {
    exists i | 0 <= i < |rs| :: rs[i].left <= x <= rs[i].right
  }

  function TotalExtent(file: seq<Extent>): nat {
    if file == [] then 0 else TotalExtent(file[..|file| - 1]) + file[|file| - 1].length
  }

  function TotalPairs(rs: seq<Range>): int {
    if rs == [] then 0
    else TotalPairs(rs[..|rs| - 1]) + (rs[|rs| - 1].right - rs[|rs| - 1].left + 1)
  }

  /** Every extent has bytes, and all of them lie on a 64-bit addressed device. */
  ghost predicate OnDevice(file: seq<Extent>) {
    forall i | 0 <= i < |file| :: file[i].length > 0 && file[i].physical + file[i].length <= TWO_64
  }

  lemma {:induction false} TotalsAgree(file: seq<Extent>)
    requires OnDevice(file)
    ensures TotalPairs(RangesOf(file)) == TotalExtent(file)
  {
    if file != [] {
      var n := |file| - 1;
      TotalsAgree(file[..n]);
      assert RangesOf(file)[..n] == RangesOf(file[..n]);
      assert file[n].length > 0;
    }
  }

  lemma RangeEnds(file: seq<Extent>)
    requires OnDevice(file)
    ensures forall i | 0 <= i < |file| ::
              && RangesOf(file)[i].left == file[i].physical
              && RangesOf(file)[i].right == file[i].physical + file[i].length - 1
  {
  }

  lemma SameBytesCovered(file: seq<Extent>, x: nat)
    requires OnDevice(file)
    ensures InPairs(RangesOf(file), x) <==> InExtents(file, x)
  {
    RangeEnds(file);
    var rs := RangesOf(file);
    if InPairs(rs, x) {
      var i :| 0 <= i < |rs| && rs[i].left <= x <= rs[i].right;
      assert file[i].physical <= x < file[i].physical + file[i].length;
    }
    if InExtents(file, x) {
      var i :| 0 <= i < |file| && file[i].physical <= x < file[i].physical + file[i].length;
      assert rs[i].left <= x <= rs[i].right;
    }
  }

  predicate Apart(a: Extent, b: Extent) {
    a.physical + a.length <= b.physical || b.physical + b.length <= a.physical
  }

  predicate PairsApart(a: Range, b: Range) { a.right < b.left || b.right < a.left }

  /** The ranges stand for the same bytes of the device as the extents. */
  ghost predicate Faithful(rs: seq<Range>, file: seq<Extent>) {
    && |rs| == |file|
    && (forall x: nat :: InPairs(rs, x) <==> InExtents(file, x))
    && TotalPairs(rs) == TotalExtent(file)
    && forall i, j | 0 <= i < j < |file| :: Apart(file[i], file[j]) <==> PairsApart(rs[i], rs[j])
  }

  lemma RangesFaithful(file: seq<Extent>)
    requires OnDevice(file)
    ensures Faithful(RangesOf(file), file)
  {
    TotalsAgree(file);
    forall x: nat ensures InPairs(RangesOf(file), x) <==> InExtents(file, x) {
      SameBytesCovered(file, x);
    }
    RangeEnds(file);
  }

  lemma CountFits(n: nat)
    ensures n % TWO_32 == n <==> n < TWO_32
  {
  }

  lemma PortionReadBack(id: UUID, file: seq<Extent>)
    ensures DecodeNextPortion(NextPortionFrame(Portion(id, file))) == Some(Portion(id, file)) <==> |file| < TWO_32
  {
    ReadBack(Portion(id, file));
    CountFits(|file|);
  }

  lemma ReadBack(p: NextPortion)
    ensures DecodeNextPortion(NextPortionFrame(p)) == Some(p) <==> p.count == |p.ranges|
  {
    NextPortionRoundTrip(p);
  }

  /** From the file's extents to the decoded frame: the kernel reads the portion back exactly
      when the extent count fits its 32-bit field, and what it reads covers exactly the
      file's physical bytes, overlaps only where extents do, and is as long in all. */
  lemma ExtentsReachKernel(id: UUID, file: seq<Extent>, decoded: Option<NextPortion>)
    requires OnDevice(file)
    requires decoded == DecodeNextPortion(NextPortionFrame(Portion(id, file)))
    ensures decoded == Some(Portion(id, file)) <==> |file| < TWO_32
    ensures |file| < TWO_32 ==> decoded.Some? && decoded.value.id == id && Faithful(decoded.value.ranges, file)
  {
    PortionReadBack(id, file);
    RangesFaithful(file);
  }
}
