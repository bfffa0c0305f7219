/** worker/manager/manager.go, fetchIncrements: turning a map of per-block
    snapshot stamps into byte ranges.

    Blocks are numbered from 0; a range is a pair of byte offset and byte length.
    Go's int is modelled as an unbounded integer: no intermediate value exceeds
    the number of blocks times the block size (see RangesCanonical).
 */
module Increments {

  import opened Words

  datatype DiskRange = DiskRange(startOffset: nat, length: nat)

  /** A run of `count` blocks beginning with block `start`. */
  datatype Span = Span(start: nat, count: nat)

  // ---------------------------------------------------------------- what is reported

  /** The block was last written after snapshot `prev` and not after snapshot `cur`. */
  predicate Dirty(bitmap: seq<Byte>, prev: nat, cur: nat, i: nat) {
    i < |bitmap| && prev < bitmap[i] <= cur
  }

  predicate OtherDirty(bitmap: seq<Byte>, prev: nat, cur: nat) {
    exists j | 1 <= j < |bitmap| :: Dirty(bitmap, prev, cur, j)
  }

  /** The blocks the response really covers. A full response covers every block; an
      incremental one covers the dirty blocks, except that a dirty block 0 is lost as
      soon as any other block is dirty: start 0 doubles as "no range open yet". */
  predicate Reported(bitmap: seq<Byte>, prev: nat, cur: nat, i: nat) {
    && i < |bitmap|
    && (prev == 0 ||
        (Dirty(bitmap, prev, cur, i) && (i == 0 ==> !OtherDirty(bitmap, prev, cur))))
  }

  function Marks(bitmap: seq<Byte>, prev: nat, cur: nat): seq<bool> {
    seq(|bitmap|, i requires 0 <= i < |bitmap| => Reported(bitmap, prev, cur, i))
  }

  /** The maximal runs of `true`, in order: the reference the loop is proved against. */
  function Runs(marks: seq<bool>): seq<Span> {
    if |marks| == 0 then []
    else
      var n := |marks| - 1;
      var p := Runs(marks[..n]);
      if !marks[n] then p
      else if |p| > 0 && p[|p| - 1].start + p[|p| - 1].count == n then
        p[..|p| - 1] + [Span(p[|p| - 1].start, p[|p| - 1].count + 1)]
      else p + [Span(n, 1)]
  }

  function ToBytes(s: Span, blk: nat): DiskRange {
    DiskRange(s.start * blk, s.count * blk)
  }

  function AllToBytes(spans: seq<Span>, blk: nat): (r: seq<DiskRange>)
    ensures |r| == |spans|
  {
    seq(|spans|, k requires 0 <= k < |spans| => ToBytes(spans[k], blk))
  }

  /** The response as a set comprehension would give it: one range per maximal run, and
      the single empty range when there is nothing to report. */
  function IncrementRanges(bitmap: seq<Byte>, prev: nat, cur: nat, blk: nat): seq<DiskRange> {
    var spans := Runs(Marks(bitmap, prev, cur));
    if spans == [] then [DiskRange(0, 0)] else AllToBytes(spans, blk)
  }

  // ---------------------------------------------------------------- the loop

  /** Dirty blocks other than block 0. */
  function Rest(bitmap: seq<Byte>, prev: nat, cur: nat): seq<bool> {
    seq(|bitmap|, i requires 0 <= i < |bitmap| => i > 0 && Dirty(bitmap, prev, cur, i))
  }

  lemma {:induction false} RunsOfNone(marks: seq<bool>)
    requires forall i | 0 <= i < |marks| :: !marks[i]
    ensures Runs(marks) == []
  {
    if |marks| > 0 {
      RunsOfNone(marks[..|marks| - 1]);
    }
  }

  lemma {:induction false} RunsOfFirst(marks: seq<bool>)
    requires |marks| > 0 && marks[0]
    requires forall i | 1 <= i < |marks| :: !marks[i]
    ensures Runs(marks) == [Span(0, 1)]
  {
    if |marks| == 1 {
      assert Runs(marks[..0]) == [];
    } else {
      RunsOfFirst(marks[..|marks| - 1]);
    }
  }

  lemma {:induction false} RunsOfAll(marks: seq<bool>)
    requires forall i | 0 <= i < |marks| :: marks[i]
    ensures Runs(marks) == if |marks| == 0 then [] else [Span(0, |marks|)]
  {
    if |marks| > 0 {
      RunsOfAll(marks[..|marks| - 1]);
    }
  }

  lemma SpanMeets(s: Span, blk: nat, i: nat)
    requires blk > 0
    ensures s.start * blk + s.count * blk == i * blk <==> s.start + s.count == i
  {
    assert s.start * blk + s.count * blk == (s.start + s.count) * blk;
    if s.start + s.count < i {
      assert (i - (s.start + s.count)) * blk > 0;
    } else if s.start + s.count > i {
      assert (s.start + s.count - i) * blk > 0;
    }
  }

  /** What the loop has in hand after `i` blocks of an incremental request. */
  ghost predicate LoopState(bitmap: seq<Byte>, prev: nat, cur: nat, blk: nat, i: nat,
                            ranges: seq<DiskRange>, start: nat, length: nat)
    requires i <= |bitmap|
  {
    var sp := Runs(Rest(bitmap, prev, cur)[..i]);
    if sp == [] then
      ranges == [] && start == 0 && length == (if i > 0 && Dirty(bitmap, prev, cur, 0) then blk else 0)
    else
      && ranges == AllToBytes(sp[..|sp| - 1], blk)
      && start == sp[|sp| - 1].start > 0
      && length == sp[|sp| - 1].count * blk
  }

  lemma LoopStateStep(bitmap: seq<Byte>, prev: nat, cur: nat, i: nat)
    requires i < |bitmap|
    ensures var m := Rest(bitmap, prev, cur);
            && m[..i + 1][..i] == m[..i]
            && Runs(m[..i + 1]) ==
               (var p := Runs(m[..i]);
                if !m[i] then p
                else if |p| > 0 && p[|p| - 1].start + p[|p| - 1].count == i then
                  p[..|p| - 1] + [Span(p[|p| - 1].start, p[|p| - 1].count + 1)]
                else p + [Span(i, 1)])
  {
    var m := Rest(bitmap, prev, cur);
    assert m[..i + 1][..i] == m[..i];
  }

  /** A clean block leaves the loop's variables as they are. */
  lemma LoopSkip(bitmap: seq<Byte>, prev: nat, cur: nat, blk: nat, i: nat,
                 ranges: seq<DiskRange>, start: nat, length: nat)
    requires i < |bitmap| && LoopState(bitmap, prev, cur, blk, i, ranges, start, length)
    requires !Dirty(bitmap, prev, cur, i)
    ensures LoopState(bitmap, prev, cur, blk, i + 1, ranges, start, length)
  {
    LoopStateStep(bitmap, prev, cur, i);
  }

  /** A dirty block found while start is 0 opens a range, forgetting block 0. */
  lemma LoopOpen(bitmap: seq<Byte>, prev: nat, cur: nat, blk: nat, i: nat,
                 ranges: seq<DiskRange>, length: nat)
    requires i < |bitmap| && LoopState(bitmap, prev, cur, blk, i, ranges, 0, length)
    requires Dirty(bitmap, prev, cur, i)
    ensures LoopState(bitmap, prev, cur, blk, i + 1, ranges, i, blk)
  {
    LoopStateStep(bitmap, prev, cur, i);
    if i > 0 {
      assert Runs(Rest(bitmap, prev, cur)[..i + 1]) == [Span(i, 1)];
    }
  }

  /** A dirty block found while a range is open extends it or closes it. */
  lemma LoopExtend(bitmap: seq<Byte>, prev: nat, cur: nat, blk: nat, i: nat,
                   ranges: seq<DiskRange>, start: nat, length: nat)
    requires blk > 0 && start > 0
    requires i < |bitmap| && LoopState(bitmap, prev, cur, blk, i, ranges, start, length)
    requires Dirty(bitmap, prev, cur, i)
    ensures if start * blk + length != i * blk
            then LoopState(bitmap, prev, cur, blk, i + 1, ranges + [DiskRange(start * blk, length)], i, blk)
            else LoopState(bitmap, prev, cur, blk, i + 1, ranges, start, length + blk)
  {
    LoopStateStep(bitmap, prev, cur, i);
    var sp := Runs(Rest(bitmap, prev, cur)[..i]);
    var next := Runs(Rest(bitmap, prev, cur)[..i + 1]);
    SpanMeets(sp[|sp| - 1], blk, i);
    if start * blk + length != i * blk {
      assert next[..|next| - 1] == sp;
      SpansSnoc(sp, blk);
    } else {
      assert next[..|next| - 1] == sp[..|sp| - 1];
      assert (sp[|sp| - 1].count + 1) * blk == sp[|sp| - 1].count * blk + blk;
    }
  }

  lemma SpansSnoc(spans: seq<Span>, blk: nat)
    requires spans != []
    ensures AllToBytes(spans, blk) == AllToBytes(spans[..|spans| - 1], blk) + [ToBytes(spans[|spans| - 1], blk)]
  {
  }

  /** With a dirty block beyond block 0, what is reported is what the loop collected. */
  lemma MarksAreRest(bitmap: seq<Byte>, prev: nat, cur: nat)
    requires prev != 0 && OtherDirty(bitmap, prev, cur)
    ensures Marks(bitmap, prev, cur) == Rest(bitmap, prev, cur)
    ensures Runs(Rest(bitmap, prev, cur)) != []
  {
    var rest := Rest(bitmap, prev, cur);
    var j :| 1 <= j < |bitmap| && Dirty(bitmap, prev, cur, j);
    assert rest[j];
    RunsCover(rest, j);
  }

  /** Without one, only block 0 can be. */
  lemma MarksAreFirst(bitmap: seq<Byte>, prev: nat, cur: nat)
    requires prev != 0 && !OtherDirty(bitmap, prev, cur)
    ensures Runs(Rest(bitmap, prev, cur)) == []
    ensures Runs(Marks(bitmap, prev, cur)) == if Dirty(bitmap, prev, cur, 0) then [Span(0, 1)] else []
  {
    RunsOfNone(Rest(bitmap, prev, cur));
    if Dirty(bitmap, prev, cur, 0) {
      RunsOfFirst(Marks(bitmap, prev, cur));
    } else {
      RunsOfNone(Marks(bitmap, prev, cur));
    }
  }

  lemma LoopDone(bitmap: seq<Byte>, prev: nat, cur: nat, blk: nat,
                 ranges: seq<DiskRange>, start: nat, length: nat)
    requires prev != 0
    requires LoopState(bitmap, prev, cur, blk, |bitmap|, ranges, start, length)
    ensures ranges + [DiskRange(start * blk, length)] == IncrementRanges(bitmap, prev, cur, blk)
  {
    var rest := Rest(bitmap, prev, cur);
    assert rest[..|bitmap|] == rest;
    if OtherDirty(bitmap, prev, cur) {
      MarksAreRest(bitmap, prev, cur);
      SpansSnoc(Runs(rest), blk);
    } else {
      MarksAreFirst(bitmap, prev, cur);
    }
  }

  /** A full request is answered with the whole map as one range. */
  lemma FullDone(bitmap: seq<Byte>, cur: nat, blk: nat)
    ensures IncrementRanges(bitmap, 0, cur, blk) == [DiskRange(0, |bitmap| * blk)]
  {
    RunsOfAll(Marks(bitmap, 0, cur));
  }

  method FetchIncrements(bitmap: seq<Byte>, prevNumber: nat, currentNumber: nat, cbtBlkSize: nat)
    returns (ranges: seq<DiskRange>)
    ensures cbtBlkSize > 0 ==> ranges == IncrementRanges(bitmap, prevNumber, currentNumber, cbtBlkSize)
    ensures cbtBlkSize == 0 ==> ranges == [DiskRange(0, 0)]
    ensures cbtBlkSize > 0 && prevNumber == 0 ==> forall b: nat ::
              InRanges(ranges, b) <==> b < |bitmap| * cbtBlkSize
    ensures cbtBlkSize > 0 && prevNumber != 0 ==> forall b: nat | b >= cbtBlkSize ::
              InRanges(ranges, b) <==>
              b / cbtBlkSize < |bitmap| && prevNumber < bitmap[b / cbtBlkSize] <= currentNumber
    ensures cbtBlkSize > 0 && prevNumber != 0 ==> forall b: nat | b < cbtBlkSize ::
              InRanges(ranges, b) <==>
              |bitmap| > 0 && prevNumber < bitmap[0] <= currentNumber &&
              forall j | 1 <= j < |bitmap| :: !(prevNumber < bitmap[j] <= currentNumber)
  {
    if cbtBlkSize > 0 {
      RangesExactAll(bitmap, prevNumber, currentNumber, cbtBlkSize);
    }
    ranges := [];
    var tmpStartSector: nat := 0;
    var tmpLength: nat := 0;
    for i := 0 to |bitmap|
      invariant cbtBlkSize == 0 ==> ranges == [] && tmpLength == 0
      invariant cbtBlkSize > 0 && prevNumber == 0 ==>
                  ranges == [] && tmpStartSector == 0 && tmpLength == i * cbtBlkSize
      invariant cbtBlkSize > 0 && prevNumber != 0 ==>
                  LoopState(bitmap, prevNumber, currentNumber, cbtBlkSize, i, ranges, tmpStartSector, tmpLength)
    {
      if prevNumber != 0 {
        if bitmap[i] <= prevNumber || bitmap[i] > currentNumber {
          if cbtBlkSize > 0 {
            LoopSkip(bitmap, prevNumber, currentNumber, cbtBlkSize, i, ranges, tmpStartSector, tmpLength);
          }
          continue;
        }
        if tmpStartSector == 0 {
          if cbtBlkSize > 0 {
            LoopOpen(bitmap, prevNumber, currentNumber, cbtBlkSize, i, ranges, tmpLength);
          }
          tmpStartSector := i;
          tmpLength := cbtBlkSize;
          continue;
        }
        if cbtBlkSize > 0 {
          LoopExtend(bitmap, prevNumber, currentNumber, cbtBlkSize, i, ranges, tmpStartSector, tmpLength);
        }
      }
      assert (i + 1) * cbtBlkSize == i * cbtBlkSize + cbtBlkSize;
      if tmpStartSector * cbtBlkSize + tmpLength != i * cbtBlkSize {
        ranges := ranges + [DiskRange(tmpStartSector * cbtBlkSize, tmpLength)];
        tmpStartSector := i;
        tmpLength := cbtBlkSize;
        continue;
      }
      tmpLength := tmpLength + cbtBlkSize;
    }
    if cbtBlkSize > 0 {
      if prevNumber == 0 {
        FullDone(bitmap, currentNumber, cbtBlkSize);
      } else {
        LoopDone(bitmap, prevNumber, currentNumber, cbtBlkSize, ranges, tmpStartSector, tmpLength);
      }
    }
    ranges := ranges + [DiskRange(tmpStartSector * cbtBlkSize, tmpLength)];
  }

  // ---------------------------------------------------------------- exact coverage

  predicate InSpan(s: Span, i: nat) { s.start <= i < s.start + s.count }

  predicate InSpans(spans: seq<Span>, i: nat) { exists k | 0 <= k < |spans| :: InSpan(spans[k], i) }

  predicate InRange(r: DiskRange, b: nat) { r.startOffset <= b < r.startOffset + r.length }

  predicate InRanges(rs: seq<DiskRange>, b: nat) { exists k | 0 <= k < |rs| :: InRange(rs[k], b) }

  /** Runs are non-empty, lie below `n`, and leave at least one block between neighbours. */
  ghost predicate Separated(spans: seq<Span>, n: nat) {
    && (forall k | 0 <= k < |spans| :: spans[k].count > 0 && spans[k].start + spans[k].count <= n)
    && (forall k, l | 0 <= k < l < |spans| :: spans[k].start + spans[k].count < spans[l].start)
  }

  lemma {:induction false} RunsSeparated(marks: seq<bool>)
    ensures Separated(Runs(marks), |marks|)
  {
    if |marks| > 0 {
      RunsSeparated(marks[..|marks| - 1]);
    }
  }

  lemma {:induction false} RunsCover(marks: seq<bool>, i: nat)
    ensures InSpans(Runs(marks), i) <==> i < |marks| && marks[i]
  {
    if |marks| > 0 {
      var n := |marks| - 1;
      var p := Runs(marks[..n]);
      RunsCover(marks[..n], i);
      var r := Runs(marks);
      if !marks[n] {
      } else if |p| > 0 && p[|p| - 1].start + p[|p| - 1].count == n {
        assert r[..|p| - 1] == p[..|p| - 1];
        if InSpans(p, i) {
          var k :| 0 <= k < |p| && InSpan(p[k], i);
          assert InSpan(r[k], i);
        }
        if InSpans(r, i) {
          var k :| 0 <= k < |r| && InSpan(r[k], i);
          if k < |p| - 1 || i < n {
            assert InSpan(p[k], i);
          }
        }
        if i == n {
          assert InSpan(r[|p| - 1], i);
        }
      } else {
        if InSpans(p, i) {
          var k :| 0 <= k < |p| && InSpan(p[k], i);
          assert InSpan(r[k], i);
        }
        if InSpans(r, i) {
          var k :| 0 <= k < |r| && InSpan(r[k], i);
          if k < |p| {
            assert InSpan(p[k], i);
          }
        }
        if i == n {
          assert InSpan(r[|p|], i);
        }
      }
    }
  }

  lemma BlockOf(s: nat, blk: nat, b: nat)
    requires blk > 0
    ensures s * blk <= b <==> s <= b / blk
  {
    var q := b / blk;
    assert b == q * blk + b % blk;
    if s <= q {
      assert (q - s) * blk >= 0;
    } else {
      assert (s - q - 1) * blk >= 0;
    }
  }

  lemma SpanBytes(s: Span, blk: nat, b: nat)
    requires blk > 0
    ensures InRange(ToBytes(s, blk), b) <==> InSpan(s, b / blk)
  {
    BlockOf(s.start, blk, b);
    BlockOf(s.start + s.count, blk, b);
    assert (s.start + s.count) * blk == s.start * blk + s.count * blk;
  }

  lemma RangesReported(bitmap: seq<Byte>, prev: nat, cur: nat, blk: nat, b: nat)
    requires blk > 0
    ensures InRanges(IncrementRanges(bitmap, prev, cur, blk), b) <==> Reported(bitmap, prev, cur, b / blk)
  {
    var marks := Marks(bitmap, prev, cur);
    var spans := Runs(marks);
    var rs := IncrementRanges(bitmap, prev, cur, blk);
    RunsCover(marks, b / blk);
    if spans != [] {
      forall k | 0 <= k < |spans|
        ensures InRange(rs[k], b) <==> InSpan(spans[k], b / blk)
      {
        SpanBytes(spans[k], blk, b);
      }
    }
  }

  /** The same for all bytes at once. */
  lemma RangesExactAll(bitmap: seq<Byte>, prev: nat, cur: nat, blk: nat)
    requires blk > 0
    ensures prev == 0 ==> forall b: nat ::
              InRanges(IncrementRanges(bitmap, prev, cur, blk), b) <==> b < |bitmap| * blk
    ensures prev != 0 ==> forall b: nat | b >= blk ::
              InRanges(IncrementRanges(bitmap, prev, cur, blk), b) <==>
              b / blk < |bitmap| && prev < bitmap[b / blk] <= cur
    ensures prev != 0 ==> forall b: nat | b < blk ::
              InRanges(IncrementRanges(bitmap, prev, cur, blk), b) <==>
              |bitmap| > 0 && prev < bitmap[0] <= cur && forall j | 1 <= j < |bitmap| :: !(prev < bitmap[j] <= cur)
  {
    forall b: nat
      ensures prev == 0 ==> (InRanges(IncrementRanges(bitmap, prev, cur, blk), b) <==> b < |bitmap| * blk)
      ensures prev != 0 && b >= blk ==>
        (InRanges(IncrementRanges(bitmap, prev, cur, blk), b) <==>
         b / blk < |bitmap| && prev < bitmap[b / blk] <= cur)
      ensures prev != 0 && b < blk ==>
        (InRanges(IncrementRanges(bitmap, prev, cur, blk), b) <==>
         |bitmap| > 0 && prev < bitmap[0] <= cur && forall j | 1 <= j < |bitmap| :: !(prev < bitmap[j] <= cur))
    {
      RangesExact(bitmap, prev, cur, blk, b);
    }
  }

  /** The account of every byte. A full response covers all of the map. An incremental one
      covers, from block 1 on, exactly the bytes of dirty blocks; it covers block 0 exactly
      when block 0 is the only dirty block, so a dirty block 0 is lost if and only if some
      other block is dirty too. */
  lemma RangesExact(bitmap: seq<Byte>, prev: nat, cur: nat, blk: nat, b: nat)
    requires blk > 0
    ensures prev == 0 ==>
      (InRanges(IncrementRanges(bitmap, prev, cur, blk), b) <==> b < |bitmap| * blk)
    ensures prev != 0 && b >= blk ==>
      (InRanges(IncrementRanges(bitmap, prev, cur, blk), b) <==>
       b / blk < |bitmap| && prev < bitmap[b / blk] <= cur)
    ensures prev != 0 && b < blk ==>
      (InRanges(IncrementRanges(bitmap, prev, cur, blk), b) <==>
       |bitmap| > 0 && prev < bitmap[0] <= cur && forall j | 1 <= j < |bitmap| :: !(prev < bitmap[j] <= cur))
  {
    RangesReported(bitmap, prev, cur, blk, b);
    BlockOf(|bitmap|, blk, b);
    BlockOf(1, blk, b);
    OtherDirtyIff(bitmap, prev, cur);
    if prev != 0 && b < blk {
      assert b / blk == 0;
    }
  }

  lemma OtherDirtyIff(bitmap: seq<Byte>, prev: nat, cur: nat)
    ensures !OtherDirty(bitmap, prev, cur) <==> forall j | 1 <= j < |bitmap| :: !(prev < bitmap[j] <= cur)
  {
    if j :| 1 <= j < |bitmap| && prev < bitmap[j] <= cur {
      assert Dirty(bitmap, prev, cur, j);
    }
  }

  // ---------------------------------------------------------------- canonical form

  function CountTrue(marks: seq<bool>): nat {
    if |marks| == 0 then 0 else CountTrue(marks[..|marks| - 1]) + (if marks[|marks| - 1] then 1 else 0)
  }

  function Blocks(spans: seq<Span>): nat {
    if |spans| == 0 then 0 else Blocks(spans[..|spans| - 1]) + spans[|spans| - 1].count
  }

  function TotalLength(rs: seq<DiskRange>): nat {
    if |rs| == 0 then 0 else TotalLength(rs[..|rs| - 1]) + rs[|rs| - 1].length
  }

  lemma {:induction false} RunsCount(marks: seq<bool>)
    ensures Blocks(Runs(marks)) == CountTrue(marks)
  {
    if |marks| > 0 {
      var n := |marks| - 1;
      RunsCount(marks[..n]);
      var p, r := Runs(marks[..n]), Runs(marks);
      if marks[n] {
        if |r| == |p| {
          assert r[..|r| - 1] == p[..|p| - 1];
        } else {
          assert r[..|r| - 1] == p;
        }
      }
    }
  }

  lemma {:induction false} TotalLengthOfSpans(spans: seq<Span>, blk: nat)
    ensures TotalLength(AllToBytes(spans, blk)) == Blocks(spans) * blk
  {
    if |spans| > 0 {
      var n := |spans| - 1;
      TotalLengthOfSpans(spans[..n], blk);
      assert AllToBytes(spans, blk)[..n] == AllToBytes(spans[..n], blk);
      assert Blocks(spans) * blk == Blocks(spans[..n]) * blk + spans[n].count * blk;
    }
  }

  ghost predicate Canonical(rs: seq<DiskRange>, blocks: nat, blk: nat)
    requires blk > 0
  {
    && (forall k | 0 <= k < |rs| ::
          && rs[k].startOffset % blk == 0
          && rs[k].length % blk == 0
          && rs[k].length > 0
          && rs[k].startOffset + rs[k].length <= blocks * blk)
    && (forall k, l | 0 <= k < l < |rs| :: rs[k].startOffset + rs[k].length + blk <= rs[l].startOffset)
  }

  lemma SpanCanonical(s: Span, n: nat, blk: nat)
    requires blk > 0 && s.count > 0 && s.start + s.count <= n
    ensures var r := ToBytes(s, blk);
            && r.startOffset % blk == 0 && r.length % blk == 0 && r.length > 0
            && r.startOffset + r.length <= n * blk
  {
    ModOfMultiple(s.start, blk);
    ModOfMultiple(s.count, blk);
    assert s.count * blk >= blk by { assert (s.count - 1) * blk >= 0; }
    assert n * blk - (s.start * blk + s.count * blk) == (n - s.start - s.count) * blk >= 0;
  }

  lemma ModOfMultiple(k: nat, blk: nat)
    requires blk > 0
    ensures (k * blk) % blk == 0
  {
    var q := (k * blk) / blk;
    BlockOf(k, blk, k * blk);
    BlockOf(k + 1, blk, k * blk);
    assert k * blk == q * blk + (k * blk) % blk;
  }

  lemma SpanGap(s: Span, t: Span, blk: nat)
    requires s.start + s.count < t.start
    ensures s.start * blk + s.count * blk + blk <= t.start * blk
  {
    assert t.start * blk - (s.start * blk + s.count * blk + blk) == (t.start - s.start - s.count - 1) * blk >= 0;
  }

  /** Block-aligned, inside the map, ordered, at least one whole block apart; the lengths
      add up to the reported blocks; the one empty range means "nothing to report". */
  lemma RangesCanonical(bitmap: seq<Byte>, prev: nat, cur: nat, blk: nat)
    requires blk > 0
    ensures var rs := IncrementRanges(bitmap, prev, cur, blk);
            var reported := CountTrue(Marks(bitmap, prev, cur));
            && TotalLength(rs) == reported * blk
            && (if reported == 0 then rs == [DiskRange(0, 0)] else |rs| > 0 && Canonical(rs, |bitmap|, blk))
  {
    var marks := Marks(bitmap, prev, cur);
    var spans := Runs(marks);
    var rs := IncrementRanges(bitmap, prev, cur, blk);
    RunsCount(marks);
    RunsSeparated(marks);
    if spans == [] {
      assert rs[..0] == [];
    } else {
      TotalLengthOfSpans(spans, blk);
      assert Blocks(spans) > 0;
      forall k | 0 <= k < |rs|
        ensures rs[k].startOffset % blk == 0 && rs[k].length % blk == 0 && rs[k].length > 0
        ensures rs[k].startOffset + rs[k].length <= |bitmap| * blk
      {
        SpanCanonical(spans[k], |bitmap|, blk);
      }
      forall k, l | 0 <= k < l < |rs|
        ensures rs[k].startOffset + rs[k].length + blk <= rs[l].startOffset
      {
        SpanGap(spans[k], spans[l], blk);
      }
    }
  }

  // ---------------------------------------------------------------- as few ranges as possible

  lemma {:induction false} Pigeonhole(f: seq<nat>, m: nat)
    requires forall k | 0 <= k < |f| :: f[k] < m
    requires forall k, l | 0 <= k < l < |f| :: f[k] != f[l]
    ensures |f| <= m
    decreases m
  {
    if |f| > 0 {
      assert f[0] < m;
      if p :| 0 <= p < |f| && f[p] == m - 1 {
        Pigeonhole(f[..p] + f[p + 1..], m - 1);
      } else {
        Pigeonhole(f, m - 1);
      }
    }
  }

  /** No list of byte ranges whatsoever covers the same bytes with fewer ranges. */
  lemma RangesMinimal(bitmap: seq<Byte>, prev: nat, cur: nat, blk: nat, other: seq<DiskRange>)
    requires blk > 0
    requires CountTrue(Marks(bitmap, prev, cur)) > 0
    requires forall b: nat :: InRanges(other, b) <==> InRanges(IncrementRanges(bitmap, prev, cur, blk), b)
    ensures |IncrementRanges(bitmap, prev, cur, blk)| <= |other|
  {
    var rs := IncrementRanges(bitmap, prev, cur, blk);
    RangesCanonical(bitmap, prev, cur, blk);
    forall k | 0 <= k < |rs|
      ensures exists j | 0 <= j < |other| :: InRange(other[j], rs[k].startOffset)
    {
      assert InRange(rs[k], rs[k].startOffset);
      assert InRanges(rs, rs[k].startOffset);
      assert InRanges(other, rs[k].startOffset);
    }
    var f := seq(|rs|, k requires 0 <= k < |rs| => Holder(other, rs[k].startOffset));
    forall k, l | 0 <= k < l < |f|
      ensures f[k] != f[l]
    {
      var gap := rs[k].startOffset + rs[k].length;
      assert !InRanges(rs, gap) by {
        forall j | 0 <= j < |rs| ensures !InRange(rs[j], gap) {
          assert j < k ==> rs[j].startOffset + rs[j].length + blk <= rs[k].startOffset;
        }
      }
      assert !InRanges(other, gap);
    }
    Pigeonhole(f, |other|);
  }

  ghost function Holder(rs: seq<DiskRange>, b: nat): (j: nat)
    requires InRanges(rs, b)
    ensures j < |rs| && InRange(rs[j], b)
  {
    var j :| 0 <= j < |rs| && InRange(rs[j], b);
    j
  }
}
