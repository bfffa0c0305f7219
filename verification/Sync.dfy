/** The changed-block backup protocol end to end: a tracked disk, the kernel's change
    tracking, the agent's snapshot row and a client that pulls ranges, over whole runs.

    Environment assumptions (internal/ioctl/ioctl.go:104-111): a write made after snapshot
    k stamps its blocks with k + 1; the map read for a snapshot is the one frozen when the
    snapshot was taken; a reset clears the map and draws a generation ID never used before;
    a stamp is a byte, so the kernel resets before it would need stamp 256. The agent
    allows one active snapshot per disk (worker/manager/manager.go:480-490).
 */
module Sync {

  import opened Words
  import opened Increments
  import opened Rows
  import opened ChangedSectors
  import Machines

  datatype Kernel = Kernel(disk: seq<Byte>, stamps: seq<Byte>, last: nat, generation: string)

  /** What the kernel froze when it took a snapshot. */
  datatype Taken = Taken(image: seq<Byte>, bitmap: seq<Byte>)

  /** A backup client: its copy, and the snapshot it last synchronised with. */
  datatype Client = Client(replica: seq<Byte>, generation: string, number: nat)

  datatype State = State(
    blk: nat,
    kernel: Kernel,
    usedGenerations: set<string>,
    row: Option<VolumeSnapshot>,
    client: Client,
    history: map<(string, nat), Taken>)

  datatype Event =
    | Write(offset: nat, data: seq<Byte>)
    | Reset(generation: string)
    | ForeignSnapshot                 // a kernel snapshot that leaves no row: another tool, or a failed create
    | Create(vol: VolumeSnapshot)     // CreateSnapshot; number, generation and map come from the kernel
    | Delete
    | Pull                            // the client asks for changes and applies them

  // ---------------------------------------------------------------- steps

  function Stamped(stamps: seq<Byte>, blk: nat, offset: nat, length: nat, stamp: Byte): (r: seq<Byte>)
    requires blk > 0 && length > 0
    ensures |r| == |stamps|
  {
    seq(|stamps|, i requires 0 <= i < |stamps| =>
      if offset / blk <= i <= (offset + length - 1) / blk then stamp else stamps[i])
  }

  /** The client overwrites every byte that lies in a range with the image's byte. */
  function Applied(replica: seq<Byte>, image: seq<Byte>, ranges: seq<DiskRange>): (r: seq<Byte>)
    requires |replica| == |image|
    ensures |r| == |image|
  {
    seq(|image|, b requires 0 <= b < |image| => if InRanges(ranges, b) then image[b] else replica[b])
  }

  function KernelSnapshot(s: State): State
    requires s.kernel.last < 255
  {
    var k := s.kernel;
    s.(kernel := k.(last := k.last + 1),
       history := s.history[(k.generation, k.last + 1) := Taken(k.disk, k.stamps)])
  }

  /** One event; an event that is not possible in the state leaves it unchanged. */
  function Step(s: State, e: Event): State {
    var k := s.kernel;
    match e
    case Write(offset, data) =>
      if s.blk == 0 || |data| == 0 || offset + |data| > |k.disk| || k.last >= 255 then s
      else s.(kernel := k.(
                disk := Written(k.disk, offset, data),
                stamps := Stamped(k.stamps, s.blk, offset, |data|, k.last + 1)))
    case Reset(generation) =>
      if generation in s.usedGenerations then s
      else s.(kernel := Kernel(k.disk, seq(|k.stamps|, i => 0), 0, generation),
              usedGenerations := s.usedGenerations + {generation})
    case ForeignSnapshot =>
      if k.last >= 255 then s else KernelSnapshot(s)
    case Create(vol) =>
      if s.row.Some? || k.last >= 255 then s
      else
        var t := KernelSnapshot(s);
        t.(row := Some(vol.(snapshotNumber := t.kernel.last,
                            generationID := t.kernel.generation,
                            bitmap := k.stamps)))
    case Delete =>
      s.(row := None)
    case Pull =>
      if s.row.None? || Key(s.row.value) !in s.history then s
      else if |s.client.replica| != |s.history[Key(s.row.value)].image| then s
      else
        var vol := s.row.value;
        var ranges := ChangedRanges(vol, s.client.generation, s.client.number, s.blk);
        s.(client := Client(Applied(s.client.replica, s.history[Key(vol)].image, ranges),
                            vol.generationID, vol.snapshotNumber))
  }

  function Key(vol: VolumeSnapshot): (string, nat) { (vol.generationID, vol.snapshotNumber) }

  function Run(s: State, events: seq<Event>): State {
    Machines.Run(Step, s, events)
  }

  lemma RunSnoc(s: State, events: seq<Event>, e: Event)
    ensures Run(s, events + [e]) == Step(Run(s, events), e)
  {
    Machines.RunSnoc(Step, s, events, e);
  }

  /** A freshly tracked disk and a client that knows nothing. */
  ghost predicate Init(s: State) {
    && s.blk > 0
    && s.kernel.generation != ""
    && (forall b: nat | b < |s.kernel.disk| :: b / s.blk < |s.kernel.stamps|)
    && (forall i | 0 <= i < |s.kernel.stamps| :: s.kernel.stamps[i] == 0)
    && s.kernel.last == 0
    && s.usedGenerations == {"", s.kernel.generation}
    && s.row.None?
    && |s.client.replica| == |s.kernel.disk| && s.client.generation == "" && s.client.number == 0
    && s.history == map[]
  }

  // ---------------------------------------------------------------- the invariant

  /** `t` has the disk's size and the map's size, and no stamp above its own number. */
  ghost predicate WellFormed(s: State, number: nat, t: Taken) {
    && |t.image| == |s.kernel.disk| && |t.bitmap| == |s.kernel.stamps|
    && forall i | 0 <= i < |t.bitmap| :: t.bitmap[i] <= number
  }

  /** What a later map says about snapshot `number`: a block it does not show as written
      since then still has the content and the stamp it had then. */
  ghost predicate Evolves(blk: nat, number: nat, past: Taken, now: Taken)
    requires blk > 0
  {
    && |now.image| == |past.image| && |now.bitmap| == |past.bitmap|
    && (forall b: nat | b < |now.image| :: b / blk < |now.bitmap|)
    && (forall b: nat | b < |now.image| :: now.bitmap[b / blk] <= number ==> now.image[b] == past.image[b])
    && (forall i | 0 <= i < |now.bitmap| :: now.bitmap[i] <= number ==> now.bitmap[i] == past.bitmap[i])
  }

  ghost predicate KernelOk(s: State) {
    && s.blk > 0
    && s.kernel.last <= 255
    && s.kernel.generation in s.usedGenerations && "" in s.usedGenerations
    && (forall b: nat | b < |s.kernel.disk| :: b / s.blk < |s.kernel.stamps|)
    && (forall i | 0 <= i < |s.kernel.stamps| :: s.kernel.stamps[i] <= s.kernel.last + 1)
  }

  ghost predicate HistoryOk(s: State)
    requires s.blk > 0
  {
    && (forall key | key in s.history ::
          key.0 in s.usedGenerations && key.1 > 0 && WellFormed(s, key.1, s.history[key]))
    && (forall key | key in s.history && key.0 == s.kernel.generation ::
          key.1 <= s.kernel.last &&
          Evolves(s.blk, key.1, s.history[key], Taken(s.kernel.disk, s.kernel.stamps)))
    && (forall earlier, later | earlier in s.history && later in s.history &&
                                earlier.0 == later.0 && earlier.1 < later.1 ::
          Evolves(s.blk, earlier.1, s.history[earlier], s.history[later]))
  }

  ghost predicate RowOk(s: State) {
    s.row.Some? ==>
      && Key(s.row.value) in s.history
      && s.row.value.bitmap == s.history[Key(s.row.value)].bitmap
      && (s.client.generation == s.row.value.generationID ==> s.client.number <= s.row.value.snapshotNumber)
  }

  /** The client holds the image of the snapshot it names, from block 1 on. */
  ghost predicate ClientOk(s: State) {
    && |s.client.replica| == |s.kernel.disk|
    && (s.client.number == 0 ==> s.client.generation == "")
    && (s.client.number > 0 ==>
          && (s.client.generation, s.client.number) in s.history
          && HoldsFromBlock1(s.client.replica, s.history[(s.client.generation, s.client.number)].image, s.blk))
  }

  ghost predicate HoldsFromBlock1(replica: seq<Byte>, image: seq<Byte>, blk: nat) {
    |replica| == |image| && forall b: nat | blk <= b < |image| :: replica[b] == image[b]
  }

  ghost predicate HoldsBlock0(replica: seq<Byte>, image: seq<Byte>, blk: nat) {
    |replica| == |image| && forall b: nat | b < blk && b < |image| :: replica[b] == image[b]
  }

  ghost predicate Inv(s: State) {
    KernelOk(s) && HistoryOk(s) && RowOk(s) && ClientOk(s)
  }

  // ---------------------------------------------------------------- every step keeps it

  lemma DivMonotone(a: nat, b: nat, d: nat)
    requires d > 0 && a <= b
    ensures a / d <= b / d
  {
    BlockOf(a / d, d, a);
    BlockOf(a / d, d, b);
  }

  lemma WrittenStamp(stamps: seq<Byte>, blk: nat, offset: nat, length: nat, stamp: Byte, b: nat)
    requires blk > 0 && offset <= b < offset + length && b / blk < |stamps|
    ensures Stamped(stamps, blk, offset, length, stamp)[b / blk] == stamp
  {
    DivMonotone(offset, b, blk);
    DivMonotone(b, offset + length - 1, blk);
  }

  function Written(disk: seq<Byte>, offset: nat, data: seq<Byte>): (r: seq<Byte>)
    requires offset + |data| <= |disk|
    ensures |r| == |disk|
    ensures forall b: nat | b < |disk| && !(offset <= b < offset + |data|) :: r[b] == disk[b]
  {
    disk[..offset] + data + disk[offset + |data|..]
  }

  lemma StampedAt(stamps: seq<Byte>, blk: nat, offset: nat, length: nat, stamp: Byte, number: nat)
    requires blk > 0 && length > 0 && number < stamp
    ensures var m := Stamped(stamps, blk, offset, length, stamp);
            forall i | 0 <= i < |m| && m[i] <= number :: m[i] == stamps[i]
  {
  }

  /** A byte whose block still shows an old stamp after a write was not written. */
  lemma WriteByte(blk: nat, disk: seq<Byte>, stamps: seq<Byte>, offset: nat, data: seq<Byte>, stamp: Byte,
                  number: nat, b: nat)
    requires blk > 0 && |data| > 0 && offset + |data| <= |disk| && number < stamp
    requires b < |disk| && b / blk < |stamps| && Stamped(stamps, blk, offset, |data|, stamp)[b / blk] <= number
    ensures Written(disk, offset, data)[b] == disk[b] && stamps[b / blk] <= number
  {
    if offset <= b < offset + |data| {
      WrittenStamp(stamps, blk, offset, |data|, stamp, b);
      assert false;
    }
  }

  lemma WriteEvolves(blk: nat, disk: seq<Byte>, stamps: seq<Byte>, offset: nat, data: seq<Byte>, stamp: Byte,
                     number: nat, past: Taken)
    requires blk > 0 && |data| > 0 && offset + |data| <= |disk| && number < stamp
    requires Evolves(blk, number, past, Taken(disk, stamps))
    ensures Evolves(blk, number, past, Taken(Written(disk, offset, data), Stamped(stamps, blk, offset, |data|, stamp)))
  {
    var image, bitmap := Written(disk, offset, data), Stamped(stamps, blk, offset, |data|, stamp);
    StampedAt(stamps, blk, offset, |data|, stamp, number);
    forall b: nat | b < |image| && bitmap[b / blk] <= number ensures image[b] == past.image[b] {
      WriteByte(blk, disk, stamps, offset, data, stamp, number, b);
    }
  }

  lemma WriteKeeps(s: State, offset: nat, data: seq<Byte>)
    requires Inv(s)
    ensures Inv(Step(s, Write(offset, data)))
  {
    var t := Step(s, Write(offset, data));
    if t != s {
      WriteKernel(s, offset, data);
      WriteHistory(s, offset, data);
    }
  }

  lemma WriteKernel(s: State, offset: nat, data: seq<Byte>)
    requires KernelOk(s)
    ensures KernelOk(Step(s, Write(offset, data)))
  {
  }

  lemma WriteHistory(s: State, offset: nat, data: seq<Byte>)
    requires KernelOk(s) && HistoryOk(s) && Step(s, Write(offset, data)) != s
    ensures HistoryOk(Step(s, Write(offset, data)))
  {
    var t := Step(s, Write(offset, data));
    forall key | key in s.history && key.0 == s.kernel.generation
      ensures key.1 <= t.kernel.last && Evolves(s.blk, key.1, s.history[key], Taken(t.kernel.disk, t.kernel.stamps))
    {
      WriteEvolves(s.blk, s.kernel.disk, s.kernel.stamps, offset, data, s.kernel.last + 1, key.1, s.history[key]);
    }
  }

  lemma SnapshotKeeps(s: State)
    requires Inv(s) && s.kernel.last < 255
    ensures var t := KernelSnapshot(s);
            && KernelOk(t) && HistoryOk(t) && ClientOk(t)
            && (s.row.Some? ==> RowOk(t))
            && (s.client.generation == t.kernel.generation ==> s.client.number < t.kernel.last)
  {
    var t := KernelSnapshot(s);
    var later := (s.kernel.generation, s.kernel.last + 1);
    assert later !in s.history;
    assert t.history[later] == Taken(s.kernel.disk, s.kernel.stamps);
  }

  lemma PullKeeps(s: State)
    requires Inv(s)
    ensures Inv(Step(s, Pull))
  {
    if s.row.Some? {
      var vol := s.row.value;
      var image := s.history[Key(vol)].image;
      var t := Step(s, Pull);
      forall b: nat | s.blk <= b < |image|
        ensures t.client.replica[b] == image[b]
      {
        PulledByte(s, b);
      }
    }
  }

  /** A full response brings every byte. */
  lemma FullByte(bitmap: seq<Byte>, cur: nat, blk: nat, b: nat)
    requires blk > 0 && b / blk < |bitmap|
    ensures InRanges(IncrementRanges(bitmap, 0, cur, blk), b)
  {
    RangesExact(bitmap, 0, cur, blk, b);
    BlockOf(|bitmap|, blk, b);
  }

  /** The heart of the protocol: a byte outside block 0 that an increment does not bring has
      not changed since the earlier snapshot. */
  lemma IncrementByte(past: Taken, now: Taken, blk: nat, prev: nat, cur: nat, b: nat)
    requires 0 < prev && blk > 0 && blk <= b < |now.image|
    requires Evolves(blk, prev, past, now) && forall i | 0 <= i < |now.bitmap| :: now.bitmap[i] <= cur
    ensures InRanges(IncrementRanges(now.bitmap, prev, cur, blk), b) || now.image[b] == past.image[b]
  {
    RangesExact(now.bitmap, prev, cur, blk, b);
    BlockOf(|now.bitmap|, blk, b);
  }

  lemma PulledByte(s: State, b: nat)
    requires Inv(s) && s.row.Some? && s.blk <= b < |s.kernel.disk|
    ensures Step(s, Pull).client.replica[b] == s.history[Key(s.row.value)].image[b]
  {
    var vol := s.row.value;
    var now := s.history[Key(vol)];
    if IsFull(vol, s.client.generation, s.client.number) {
      FullByte(vol.bitmap, vol.snapshotNumber, s.blk, b);
    } else if s.client.number < vol.snapshotNumber {
      var past := s.history[(s.client.generation, s.client.number)];
      IncrementByte(past, now, s.blk, s.client.number, vol.snapshotNumber, b);
    }
  }

  lemma StepKeeps(s: State, e: Event)
    requires Inv(s)
    ensures Inv(Step(s, e))
  {
    match e
    case Write(offset, data) => WriteKeeps(s, offset, data);
    case Reset(generation) =>
    case ForeignSnapshot =>
      if s.kernel.last < 255 {
        SnapshotKeeps(s);
      }
    case Create(vol) =>
      if s.row.None? && s.kernel.last < 255 {
        SnapshotKeeps(s);
      }
    case Delete =>
    case Pull => PullKeeps(s);
  }

  lemma {:induction false} RunKeeps(s: State, events: seq<Event>)
    requires Init(s)
    ensures Inv(Run(s, events)) && Run(s, events).blk == s.blk
    decreases |events|
  {
    if events != [] {
      RunKeeps(s, events[..|events| - 1]);
      StepKeeps(Run(s, events[..|events| - 1]), events[|events| - 1]);
      Machines.RunLast(Step, s, events);
    }
  }

  // ---------------------------------------------------------------- the promises

  /** Whatever was written, snapshotted, skipped or reset before: after a pull the client
      holds, from block 1 on, exactly the current snapshot's image, and after a full pull
      block 0 as well. */
  lemma SyncCorrect(s: State, events: seq<Event>)
    requires Init(s)
    requires Run(s, events).row.Some?
    ensures var before := Run(s, events);
            var after := Run(s, events + [Pull]);
            var vol := before.row.value;
            && Key(vol) in after.history
            && HoldsFromBlock1(after.client.replica, after.history[Key(vol)].image, s.blk)
            && (IsFull(vol, before.client.generation, before.client.number) ==>
                  after.client.replica == after.history[Key(vol)].image)
  {
    var before := Run(s, events);
    RunKeeps(s, events);
    RunSnoc(s, events, Pull);
    PullKeeps(before);
    var vol := before.row.value;
    var after := Step(before, Pull);
    if IsFull(vol, before.client.generation, before.client.number) {
      forall b: nat | b < |after.client.replica|
        ensures after.client.replica[b] == after.history[Key(vol)].image[b]
      {
        RangesExact(vol.bitmap, 0, vol.snapshotNumber, s.blk, b);
        BlockOf(|vol.bitmap|, s.blk, b);
        assert b / s.blk < |before.kernel.stamps|;
      }
    }
  }

  /** The first pull of a snapshot just created brings the disk as it was at that moment. */
  lemma CreateThenPull(s: State, events: seq<Event>, vol: VolumeSnapshot)
    requires Init(s) && Run(s, events).row.None? && Run(s, events).kernel.last < 255
    requires Step(Run(s, events), Create(vol)).row == Some(vol)
    ensures var before := Run(s, events);
            var after := Step(Step(before, Create(vol)), Pull);
            var ranges := ChangedRanges(vol, before.client.generation, before.client.number, s.blk);
            && |before.client.replica| == |before.kernel.disk|
            && after.client.replica == Applied(before.client.replica, before.kernel.disk, ranges)
            && HoldsFromBlock1(after.client.replica, before.kernel.disk, s.blk)
            && (IsFull(vol, before.client.generation, before.client.number) ==>
                  after.client.replica == before.kernel.disk)
  {
    var before := Run(s, events);
    var create := events + [Create(vol)];
    RunKeeps(s, events);
    RunSnoc(s, events, Create(vol));
    RunSnoc(s, create, Pull);
    CreateFreezes(before, vol);
    SyncCorrect(s, create);
  }

  lemma CreateFreezes(s: State, vol: VolumeSnapshot)
    requires s.row.None? && s.kernel.last < 255 && Step(s, Create(vol)).row == Some(vol)
    ensures var t := Step(s, Create(vol));
            && t.client == s.client && t.blk == s.blk && t.kernel.disk == s.kernel.disk
            && Key(vol) in t.history && t.history[Key(vol)] == Taken(s.kernel.disk, s.kernel.stamps)
  {
  }

  /** Between pulls too: at every point of every run the client's copy is, from block 1 on,
      the image of the snapshot it names as its last one. */
  lemma ClientAlwaysConsistent(s: State, events: seq<Event>)
    requires Init(s)
    ensures var t := Run(s, events);
            t.client.number > 0 ==>
              && (t.client.generation, t.client.number) in t.history
              && HoldsFromBlock1(t.client.replica, t.history[(t.client.generation, t.client.number)].image, s.blk)
  {
    RunKeeps(s, events);
  }

  /** One byte of block 0, before and after an incremental pull. */
  lemma PulledBlock0(t: State, b: nat)
    requires Inv(t) && t.row.Some? && !IsFull(t.row.value, t.client.generation, t.client.number)
    requires b < t.blk && b < |t.kernel.disk|
    requires t.client.replica[b] == t.history[(t.client.generation, t.client.number)].image[b]
    ensures var vol := t.row.value;
            var lost := Dirty(vol.bitmap, t.client.number, vol.snapshotNumber, 0) &&
                        OtherDirty(vol.bitmap, t.client.number, vol.snapshotNumber);
            Step(t, Pull).client.replica[b] ==
              t.history[if lost then (t.client.generation, t.client.number) else Key(vol)].image[b]
  {
    Pull0(t, b);
    if !Dirty(t.row.value.bitmap, t.client.number, t.row.value.snapshotNumber, 0) {
      Clean0(t, b);
    }
  }

  /** A block 0 that is not dirty has the content it had for the client. */
  lemma Clean0(t: State, b: nat)
    requires Inv(t) && t.row.Some? && !IsFull(t.row.value, t.client.generation, t.client.number)
    requires b < t.blk && b < |t.kernel.disk|
    requires !Dirty(t.row.value.bitmap, t.client.number, t.row.value.snapshotNumber, 0)
    ensures t.history[Key(t.row.value)].image[b] == t.history[(t.client.generation, t.client.number)].image[b]
  {
    BlockOf(1, t.blk, b);
    assert b / t.blk == 0;
    if t.client.number < t.row.value.snapshotNumber {
      var past := t.history[(t.client.generation, t.client.number)];
      assert Evolves(t.blk, t.client.number, past, t.history[Key(t.row.value)]);
    }
  }

  /** Block 0, exactly: a client whose block 0 was right before an incremental pull has it
      right afterwards if and only if the pull did not lose it (block 0 and another block
      dirty) or the loss happens not to show. */
  lemma Block0Exact(s: State, events: seq<Event>)
    requires Init(s)
    requires var t := Run(s, events);
             && t.row.Some? && !IsFull(t.row.value, t.client.generation, t.client.number)
             && (t.client.generation, t.client.number) in t.history
             && HoldsBlock0(t.client.replica, t.history[(t.client.generation, t.client.number)].image, s.blk)
    ensures var t := Run(s, events);
            var vol := t.row.value;
            var before := t.history[(t.client.generation, t.client.number)].image;
            && Key(vol) in t.history
            && var after := t.history[Key(vol)].image;
            HoldsBlock0(Step(t, Pull).client.replica, after, s.blk) <==>
              || !(Dirty(vol.bitmap, t.client.number, vol.snapshotNumber, 0) &&
                   OtherDirty(vol.bitmap, t.client.number, vol.snapshotNumber))
              || HoldsBlock0(before, after, s.blk)
  {
    RunKeeps(s, events);
    Block0Step(Run(s, events));
  }

  lemma Block0Step(t: State)
    requires Inv(t) && t.row.Some? && !IsFull(t.row.value, t.client.generation, t.client.number)
    requires HoldsBlock0(t.client.replica, t.history[(t.client.generation, t.client.number)].image, t.blk)
    ensures var vol := t.row.value;
            var before := t.history[(t.client.generation, t.client.number)].image;
            var after := t.history[Key(vol)].image;
            HoldsBlock0(Step(t, Pull).client.replica, after, t.blk) <==>
              || !(Dirty(vol.bitmap, t.client.number, vol.snapshotNumber, 0) &&
                   OtherDirty(vol.bitmap, t.client.number, vol.snapshotNumber))
              || HoldsBlock0(before, after, t.blk)
  {
    var vol := t.row.value;
    var lost := Dirty(vol.bitmap, t.client.number, vol.snapshotNumber, 0) &&
                OtherDirty(vol.bitmap, t.client.number, vol.snapshotNumber);
    var replica := Step(t, Pull).client.replica;
    var source := t.history[if lost then (t.client.generation, t.client.number) else Key(vol)].image;
    var after := t.history[Key(vol)].image;
    assert |replica| == |source| == |after| == |t.kernel.disk|;
    forall b: nat | b < t.blk && b < |replica|
      ensures replica[b] == source[b]
    {
      PulledBlock0(t, b);
    }
    SamePrefix(replica, source, after, t.blk);
  }

  lemma SamePrefix(r: seq<Byte>, q: seq<Byte>, image: seq<Byte>, blk: nat)
    requires |r| == |q| == |image|
    requires forall b: nat | b < blk && b < |r| :: r[b] == q[b]
    ensures HoldsBlock0(r, image, blk) <==> HoldsBlock0(q, image, blk)
  {
  }

  // ---------------------------------------------------------------- block 0 over whole runs

  /** Whether a pull in this state brings block 0. */
  predicate Brings0(t: State) {
    && t.row.Some?
    && (IsFull(t.row.value, t.client.generation, t.client.number) ||
        (Dirty(t.row.value.bitmap, t.client.number, t.row.value.snapshotNumber, 0) &&
         !OtherDirty(t.row.value.bitmap, t.client.number, t.row.value.snapshotNumber)))
  }

  /** The snapshot the last pull that brought block 0 was made from. */
  function Source0(s: State, events: seq<Event>): (string, nat)
    decreases |events|
  {
    if events == [] then ("", 0)
    else
      var n := |events| - 1;
      var t := Run(s, events[..n]);
      if events[n].Pull? && Brings0(t) then Key(t.row.value) else Source0(s, events[..n])
  }

  lemma HistoryStays(s: State, e: Event)
    requires Inv(s)
    ensures forall key | key in s.history :: key in Step(s, e).history && Step(s, e).history[key] == s.history[key]
    ensures !e.Pull? ==> Step(s, e).client == s.client
  {
    var later := (s.kernel.generation, s.kernel.last + 1);
    assert later !in s.history;
  }

  /** One byte of block 0 over a pull, whatever the client held before. */
  lemma Pull0(t: State, b: nat)
    requires Inv(t) && t.row.Some? && b < t.blk && b < |t.kernel.disk|
    ensures Step(t, Pull).client.replica[b] ==
            if Brings0(t) then t.history[Key(t.row.value)].image[b] else t.client.replica[b]
  {
    var vol := t.row.value;
    if IsFull(vol, t.client.generation, t.client.number) {
      FullByte(vol.bitmap, vol.snapshotNumber, t.blk, b);
    } else {
      RangesExact(vol.bitmap, t.client.number, vol.snapshotNumber, t.blk, b);
      OtherDirtyIff(vol.bitmap, t.client.number, vol.snapshotNumber);
    }
  }

  ghost predicate Holds0From(t: State, source: (string, nat)) {
    t.client.number > 0 ==> source in t.history && HoldsBlock0(t.client.replica, t.history[source].image, t.blk)
  }

  lemma Source0Step(t: State, e: Event, source: (string, nat))
    requires Inv(t) && Holds0From(t, source)
    ensures Holds0From(Step(t, e), if e.Pull? && Brings0(t) then Key(t.row.value) else source)
  {
    HistoryStays(t, e);
    if e.Pull? && t.row.Some? {
      var u := Step(t, Pull);
      forall b: nat | b < t.blk && b < |u.client.replica|
        ensures u.client.replica[b] ==
                if Brings0(t) then t.history[Key(t.row.value)].image[b] else t.client.replica[b]
      {
        Pull0(t, b);
      }
    }
  }

  lemma {:induction false} Source0Holds(s: State, events: seq<Event>)
    requires Init(s)
    ensures Holds0From(Run(s, events), Source0(s, events))
    decreases |events|
  {
    if events != [] {
      var n := |events| - 1;
      RunKeeps(s, events[..n]);
      Source0Holds(s, events[..n]);
      Source0Step(Run(s, events[..n]), events[n], Source0(s, events[..n]));
      Machines.RunLast(Step, s, events);
    }
  }

  /** Over every run, right before or not: the client's block 0 is that of the snapshot the
      last pull that brought block 0 was made from. It is right for the snapshot the client
      names exactly when those two snapshots agree on block 0. */
  lemma Block0Traced(s: State, events: seq<Event>)
    requires Init(s) && Run(s, events).client.number > 0
    ensures var t := Run(s, events);
            var source, named := Source0(s, events), (t.client.generation, t.client.number);
            && source in t.history && named in t.history
            && HoldsBlock0(t.client.replica, t.history[source].image, s.blk)
            && (HoldsBlock0(t.client.replica, t.history[named].image, s.blk) <==>
                HoldsBlock0(t.history[source].image, t.history[named].image, s.blk))
  {
    var t := Run(s, events);
    RunKeeps(s, events);
    Source0Holds(s, events);
    SamePrefix(t.client.replica, t.history[Source0(s, events)].image,
               t.history[(t.client.generation, t.client.number)].image, s.blk);
  }

  /** The loss is real: two one-byte blocks, both rewritten between the two snapshots a
      client pulls, leave it with a stale block 0. */
  lemma Block0CanGoStale(vol: VolumeSnapshot)
    ensures var s := TwoBlocks();
            var t := Run(s, StaleRun(vol));
            && Init(s)
            && t.row.Some? && Key(t.row.value) == (t.client.generation, t.client.number)
            && Key(t.row.value) in t.history
            && t.history[Key(t.row.value)].image == [7, 7]
            && t.client.replica == [0, 7]
  {
    var s, es := TwoBlocks(), StaleRun(vol);
    forall b: nat | b < 2 ensures b / 1 < 2 {
      BlockOf(2, 1, b);
    }
    var t := Step(Step(Step(s, es[0]), es[1]), es[2]);
    StaleFirstHalf(vol);
    StaleSecondHalf(vol);
    RunSnoc(s, [], es[0]);
    RunSnoc(s, es[..1], es[1]);
    RunSnoc(s, es[..2], es[2]);
    RunSnoc(s, es[..3], es[3]);
    RunSnoc(s, es[..4], es[4]);
    RunSnoc(s, es[..5], es[5]);
    assert es[..1] == [] + [es[0]] && es[..2] == es[..1] + [es[1]] && es[..3] == es[..2] + [es[2]];
    assert es[..4] == es[..3] + [es[3]] && es[..5] == es[..4] + [es[4]] && es == es[..5] + [es[5]];
  }

  function TwoBlocks(): State {
    State(1, Kernel([0, 0], [0, 0], 0, "g"), {"", "g"}, None, Client([0, 0], "", 0), map[])
  }

  function StaleRun(vol: VolumeSnapshot): seq<Event> {
    [Create(vol), Pull, Delete, Write(0, [7, 7]), Create(vol), Pull]
  }

  /** The client has pulled snapshot 1 of a blank disk, and the snapshot is gone. */
  function Pulled1(): State {
    State(1, Kernel([0, 0], [0, 0], 1, "g"), {"", "g"}, None, Client([0, 0], "g", 1),
          map[("g", 1) := Taken([0, 0], [0, 0])])
  }

  lemma StaleFirstHalf(vol: VolumeSnapshot)
    ensures Step(Step(Step(TwoBlocks(), Create(vol)), Pull), Delete) == Pulled1()
  {
    var s2 := Step(Step(TwoBlocks(), Create(vol)), Pull);
    assert s2.client.replica == [0, 0];
  }

  lemma StaleSecondHalf(vol: VolumeSnapshot)
    ensures var t := Step(Step(Step(Pulled1(), Write(0, [7, 7])), Create(vol)), Pull);
            && t.row.Some? && Key(t.row.value) == ("g", 2) == (t.client.generation, t.client.number)
            && ("g", 2) in t.history && t.history[("g", 2)].image == [7, 7]
            && t.client.replica == [0, 7]
  {
    var t4 := Step(Pulled1(), Write(0, [7, 7]));
    assert t4.kernel.disk == [7, 7] && t4.kernel.stamps == [2, 2];
    var t5 := Step(t4, Create(vol));
    var bitmap := t5.row.value.bitmap;
    assert bitmap == [2, 2];
    assert Dirty(bitmap, 1, 2, 1);
    RangesExact(bitmap, 1, 2, 1, 0);
    RangesExact(bitmap, 1, 2, 1, 1);
    var t6 := Step(t5, Pull);
    assert t6.client.replica == [0, 7];
  }

  /** Two maps of which the second evolved from the first: the dirty sets add up. */
  lemma DirtyCompose(blk: nat, mTaken: Taken, cTaken: Taken, p: nat, m: nat, c: nat, i: nat)
    requires blk > 0 && p < m < c && Evolves(blk, m, mTaken, cTaken)
    requires forall k | 0 <= k < |mTaken.bitmap| :: mTaken.bitmap[k] <= m
    requires forall k | 0 <= k < |cTaken.bitmap| :: cTaken.bitmap[k] <= c
    ensures Dirty(cTaken.bitmap, p, c, i) <==> Dirty(mTaken.bitmap, p, m, i) || Dirty(cTaken.bitmap, m, c, i)
  {
    assert i < |cTaken.bitmap| && cTaken.bitmap[i] <= m ==> cTaken.bitmap[i] == mTaken.bitmap[i];
  }

  /** From block 1 on, a byte is in an incremental response iff its block is dirty. */
  lemma ByteDirty(bitmap: seq<Byte>, prev: nat, cur: nat, blk: nat, b: nat)
    requires blk > 0 && prev > 0 && b >= blk
    ensures InRanges(IncrementRanges(bitmap, prev, cur, blk), b) <==> Dirty(bitmap, prev, cur, b / blk)
  {
    RangesExact(bitmap, prev, cur, blk, b);
  }

  // ---------------------------------------------------------------- increments are what was written

  /** The event writes to block i of a disk of that size. */
  predicate Touches(e: Event, i: nat, blk: nat, size: nat)
    requires blk > 0
  {
    && e.Write? && |e.data| > 0 && e.offset + |e.data| <= size
    && e.offset / blk <= i <= (e.offset + |e.data| - 1) / blk
  }

  predicate WrittenIn(events: seq<Event>, i: nat, blk: nat, size: nat)
    requires blk > 0
  {
    exists k | 0 <= k < |events| :: Touches(events[k], i, blk, size)
  }

  /** The event makes the kernel take a snapshot. */
  predicate Snaps(s: State, e: Event) {
    s.kernel.last < 255 && (e.ForeignSnapshot? || (e.Create? && s.row.None?))
  }

  lemma WrittenSnoc(events: seq<Event>, e: Event, i: nat, blk: nat, size: nat)
    requires blk > 0
    ensures WrittenIn(events + [e], i, blk, size) <==> WrittenIn(events, i, blk, size) || Touches(e, i, blk, size)
  {
    var all := events + [e];
    assert all[|events|] == e && forall k | 0 <= k < |events| :: all[k] == events[k];
    if k :| 0 <= k < |events| && Touches(events[k], i, blk, size) {
      assert Touches(all[k], i, blk, size);
    }
  }

  /** A generation once left does not come back. */
  lemma GenerationStays(s: State, e: Event, generation: string)
    requires generation in s.usedGenerations
    ensures generation in Step(s, e).usedGenerations
    ensures Step(s, e).kernel.generation == generation ==> s.kernel.generation == generation
  {
  }

  lemma {:induction false} GenerationUsed(s: State, events: seq<Event>, generation: string)
    requires generation in s.usedGenerations
    ensures generation in Run(s, events).usedGenerations
    decreases |events|
  {
    if events != [] {
      GenerationUsed(s, events[..|events| - 1], generation);
      GenerationStays(Run(s, events[..|events| - 1]), events[|events| - 1], generation);
      Machines.RunLast(Step, s, events);
    }
  }

  /** Since snapshot p: exactly the blocks written since show a later stamp. */
  ghost predicate StampsSince(s: State, t: State, events: seq<Event>, p: nat)
    requires s.blk > 0
  {
    && t.blk == s.blk && |t.kernel.disk| == |s.kernel.disk| && |t.kernel.stamps| == |s.kernel.stamps|
    && p <= t.kernel.last
    && forall i: nat | i < |t.kernel.stamps| :: t.kernel.stamps[i] > p <==> WrittenIn(events, i, s.blk, |s.kernel.disk|)
  }

  lemma StampsSinceStep(s: State, t: State, events: seq<Event>, e: Event, p: nat)
    requires s.blk > 0 && StampsSince(s, t, events, p)
    requires Step(t, e).kernel.generation == t.kernel.generation && t.kernel.last < 255
    requires t.kernel.generation in t.usedGenerations
    ensures StampsSince(s, Step(t, e), events + [e], p)
  {
    var u := Step(t, e);
    StampsMove(t, e);
    LastGrows(t, e);
    forall i: nat | i < |u.kernel.stamps|
      ensures u.kernel.stamps[i] > p <==> WrittenIn(events + [e], i, s.blk, |s.kernel.disk|)
    {
      WrittenSnoc(events, e, i, s.blk, |s.kernel.disk|);
    }
  }

  /** Outside a reset, only the blocks an event writes get a new stamp. */
  lemma StampsMove(t: State, e: Event)
    requires t.blk > 0 && t.kernel.last < 255
    requires Step(t, e).kernel.generation == t.kernel.generation && t.kernel.generation in t.usedGenerations
    ensures var u := Step(t, e);
            && u.blk == t.blk && |u.kernel.disk| == |t.kernel.disk| && |u.kernel.stamps| == |t.kernel.stamps|
            && forall i: nat | i < |t.kernel.stamps| ::
                 u.kernel.stamps[i] ==
                 if Touches(e, i, t.blk, |t.kernel.disk|) then t.kernel.last + 1 else t.kernel.stamps[i]
  {
  }

  /** Without a reset the last number only grows. */
  lemma LastGrows(t: State, e: Event)
    requires Step(t, e).kernel.generation == t.kernel.generation && t.kernel.generation in t.usedGenerations
    ensures t.kernel.last <= Step(t, e).kernel.last
  {
  }

  lemma {:induction false} StampsBetween(s: State, events: seq<Event>, p: nat)
    requires s.blk > 0 && s.kernel.last == p && s.kernel.generation in s.usedGenerations
    requires forall i | 0 <= i < |s.kernel.stamps| :: s.kernel.stamps[i] <= p
    requires Run(s, events).kernel.generation == s.kernel.generation && Run(s, events).kernel.last < 255
    ensures StampsSince(s, Run(s, events), events, p)
    decreases |events|
  {
    if events != [] {
      var front, e := events[..|events| - 1], events[|events| - 1];
      var t := Run(s, front);
      assert events == front + [e];
      Machines.RunLast(Step, s, events);
      GenerationUsed(s, front, s.kernel.generation);
      GenerationStays(t, e, s.kernel.generation);
      LastGrows(t, e);
      StampsBetween(s, front, p);
      StampsSinceStep(s, t, front, e, p);
    }
  }

  lemma Snapped(s: State, e: Event)
    requires Snaps(s, e)
    ensures var t := Step(s, e);
            && t.blk == s.blk && t.kernel == s.kernel.(last := s.kernel.last + 1)
            && t.usedGenerations == s.usedGenerations
            && (s.kernel.generation, s.kernel.last + 1) in t.history
            && t.history[(s.kernel.generation, s.kernel.last + 1)] == Taken(s.kernel.disk, s.kernel.stamps)
  {
  }

  /** An increment is no larger and no smaller than what was written. Between any two
      snapshots of one generation, taken anywhere in any run, a byte from block 1 on is in the
      increment if and only if some write in between touched its block; a byte of block 0 if
      and only if block 0 was touched and no other block was. */
  lemma IncrementIsWhatWasWritten(s: State, first: seq<Event>, x: Event, between: seq<Event>, y: Event, b: nat)
    requires Init(s) && b < |s.kernel.disk|
    requires Snaps(Run(s, first), x) && Snaps(Run(s, first + [x] + between), y)
    requires Run(s, first + [x] + between).kernel.generation == Run(s, first).kernel.generation
    ensures var p := Run(s, first).kernel.last + 1;
            var q := Run(s, first + [x] + between).kernel.last + 1;
            var key := (Run(s, first).kernel.generation, q);
            var after := Run(s, first + [x] + between + [y]);
            && key in after.history
            && (InRanges(IncrementRanges(after.history[key].bitmap, p, q, s.blk), b) <==>
                  && WrittenIn(between, b / s.blk, s.blk, |s.kernel.disk|)
                  && (b < s.blk ==> forall i: nat | i >= 1 :: !WrittenIn(between, i, s.blk, |s.kernel.disk|)))
  {
    var c := Run(s, first + [x] + between);
    var p, q := Run(s, first).kernel.last + 1, c.kernel.last + 1;
    SinceFirst(s, first, x, between);
    RunSnoc(s, first + [x] + between, y);
    Snapped(c, y);
    IncrementOf(c.kernel.stamps, between, p, q, s.blk, |s.kernel.disk|, b);
  }

  /** The map before the second snapshot, read against the writes since the first. */
  lemma SinceFirst(s: State, first: seq<Event>, x: Event, between: seq<Event>)
    requires Init(s) && Snaps(Run(s, first), x) && Run(s, first + [x] + between).kernel.last < 255
    requires Run(s, first + [x] + between).kernel.generation == Run(s, first).kernel.generation
    ensures var c := Run(s, first + [x] + between);
            ReadsAs(c.kernel.stamps, between, Run(s, first).kernel.last + 1, c.kernel.last + 1, s.blk, |s.kernel.disk|)
  {
    var a, t, c := Run(s, first), Run(s, first + [x]), Run(s, first + [x] + between);
    RunKeeps(s, first);
    RunSizes(s, first);
    Snapped(a, x);
    RunSnoc(s, first, x);
    RunKeeps(s, first + [x] + between);
    Machines.RunConcat(Step, s, first + [x], between);
    StampsBetween(t, between, t.kernel.last);
    forall i: nat | WrittenIn(between, i, s.blk, |s.kernel.disk|) ensures i < |c.kernel.stamps| {
      WrittenBound(c, between, i);
    }
    MapCovers(c);
  }

  lemma MapCovers(c: State)
    requires KernelOk(c)
    ensures forall b: nat | b < |c.kernel.disk| :: b / c.blk < |c.kernel.stamps|
    ensures forall i: nat | i < |c.kernel.stamps| :: c.kernel.stamps[i] <= c.kernel.last + 1
  {
  }

  /** No stamp is above q, and those above p are the blocks written in between. */
  ghost predicate ReadsAs(stamps: seq<Byte>, between: seq<Event>, p: nat, q: nat, blk: nat, size: nat) {
    && blk > 0 && p > 0
    && (forall b: nat | b < size :: b / blk < |stamps|)
    && (forall i: nat | i < |stamps| :: stamps[i] <= q && (stamps[i] > p <==> WrittenIn(between, i, blk, size)))
    && (forall i: nat | WrittenIn(between, i, blk, size) :: i < |stamps|)
  }

  lemma IncrementOf(stamps: seq<Byte>, between: seq<Event>, p: nat, q: nat, blk: nat, size: nat, b: nat)
    requires ReadsAs(stamps, between, p, q, blk, size) && b < size
    ensures InRanges(IncrementRanges(stamps, p, q, blk), b) <==>
              && WrittenIn(between, b / blk, blk, size)
              && (b < blk ==> forall i: nat | i >= 1 :: !WrittenIn(between, i, blk, size))
  {
    RangesExact(stamps, p, q, blk, b);
    var i := b / blk;
    assert i < |stamps|;
    if b < blk {
      FirstBlock(b, blk);
      IncrementOf0(stamps, between, p, q, blk, size);
    } else {
      assert stamps[i] > p <==> WrittenIn(between, i, blk, size);
    }
  }

  lemma FirstBlock(b: nat, blk: nat)
    requires b < blk
    ensures b / blk == 0
  {
  }

  lemma WrittenBound(c: State, between: seq<Event>, i: nat)
    requires KernelOk(c) && WrittenIn(between, i, c.blk, |c.kernel.disk|)
    ensures i < |c.kernel.stamps|
  {
    var k :| 0 <= k < |between| && Touches(between[k], i, c.blk, |c.kernel.disk|);
    var end: nat := between[k].offset + |between[k].data| - 1;
    assert end / c.blk < |c.kernel.stamps|;
  }

  lemma IncrementOf0(stamps: seq<Byte>, between: seq<Event>, p: nat, q: nat, blk: nat, size: nat)
    requires ReadsAs(stamps, between, p, q, blk, size)
    ensures |stamps| > 0 && p < stamps[0] <= q <==> WrittenIn(between, 0, blk, size)
    ensures (forall j | 1 <= j < |stamps| :: !(p < stamps[j] <= q)) <==>
            (forall i: nat | i >= 1 :: !WrittenIn(between, i, blk, size))
  {
  }

  lemma {:induction false} RunSizes(s: State, events: seq<Event>)
    ensures |Run(s, events).kernel.disk| == |s.kernel.disk|
    decreases |events|
  {
    if events != [] {
      RunSizes(s, events[..|events| - 1]);
      Machines.RunLast(Step, s, events);
    }
  }

  /** After a reset the next pull brings everything, whatever the client had. */
  lemma ResetForcesFull(s: State, events: seq<Event>, generation: string, vol: VolumeSnapshot)
    requires Init(s) && Run(s, events).row.None? && generation !in Run(s, events).usedGenerations
    ensures Run(s, events + [Reset(generation), Create(vol), Pull]).client.replica == Run(s, events).kernel.disk
  {
    var t := Run(s, events);
    var reset := events + [Reset(generation)];
    RunKeeps(s, events);
    RunSnoc(s, events, Reset(generation));
    var row := Step(Run(s, reset), Create(vol)).row.value;
    assert Step(Run(s, reset), Create(vol)) == Step(Run(s, reset), Create(row));
    CreateThenPull(s, reset, row);
    Machines.RunThree(Step, s, events, Reset(generation), Create(vol), Pull);
  }

  // ---------------------------------------------------------------- increments compose

  /** The blocks dirty from p to c (in c's map) are those dirty from p to m (in m's map)
      together with those dirty from m to c; and from block 1 on a byte is in the one-step
      response exactly when it is in either of the two. */
  ghost predicate Composes(mMap: seq<Byte>, cMap: seq<Byte>, p: nat, m: nat, c: nat, blk: nat) {
    && (forall i: nat :: Dirty(cMap, p, c, i) <==> Dirty(mMap, p, m, i) || Dirty(cMap, m, c, i))
    && (forall b: nat | b >= blk ::
          InRanges(IncrementRanges(cMap, p, c, blk), b) <==>
          InRanges(IncrementRanges(mMap, p, m, blk), b) || InRanges(IncrementRanges(cMap, m, c, blk), b))
  }

  lemma MapsCompose(mTaken: Taken, cTaken: Taken, p: nat, m: nat, c: nat, blk: nat)
    requires blk > 0 && 0 < p < m < c && Evolves(blk, m, mTaken, cTaken)
    requires forall k | 0 <= k < |mTaken.bitmap| :: mTaken.bitmap[k] <= m
    requires forall k | 0 <= k < |cTaken.bitmap| :: cTaken.bitmap[k] <= c
    ensures Composes(mTaken.bitmap, cTaken.bitmap, p, m, c, blk)
  {
    forall i: nat
      ensures Dirty(cTaken.bitmap, p, c, i) <==> Dirty(mTaken.bitmap, p, m, i) || Dirty(cTaken.bitmap, m, c, i)
    {
      DirtyCompose(blk, mTaken, cTaken, p, m, c, i);
    }
    forall b: nat | b >= blk
      ensures InRanges(IncrementRanges(cTaken.bitmap, p, c, blk), b) <==>
              InRanges(IncrementRanges(mTaken.bitmap, p, m, blk), b) ||
              InRanges(IncrementRanges(cTaken.bitmap, m, c, blk), b)
    {
      ByteDirty(cTaken.bitmap, p, c, blk, b);
      ByteDirty(mTaken.bitmap, p, m, blk, b);
      ByteDirty(cTaken.bitmap, m, c, blk, b);
    }
  }

  /** Skipping a sync loses nothing: in every run the increments between any three snapshots
      p < m < c of one generation compose. */
  lemma IncrementsCompose(s: State, events: seq<Event>, generation: string, p: nat, m: nat, c: nat)
    requires Init(s) && 0 < p < m < c
    requires (generation, m) in Run(s, events).history && (generation, c) in Run(s, events).history
    ensures var h := Run(s, events).history;
            Composes(h[(generation, m)].bitmap, h[(generation, c)].bitmap, p, m, c, s.blk)
  {
    RunKeeps(s, events);
    var t := Run(s, events);
    var mTaken, cTaken := t.history[(generation, m)], t.history[(generation, c)];
    assert Evolves(s.blk, m, mTaken, cTaken) && WellFormed(t, m, mTaken) && WellFormed(t, c, cTaken);
    MapsCompose(mTaken, cTaken, p, m, c, s.blk);
  }
}
