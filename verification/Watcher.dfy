/** worker/snapstore/character_device_watcher.go: the reader loop of one store's watcher.
    The device, the allocation of a file and the removal of the store's directory are the
    environment; each read comes with the outcomes the handlers would meet. */
module Watcher {

  import opened Words
  import opened Rows
  import opened Wire

  datatype Message =
    | AddFile(path: string, size: nat, fillStatus: U64)
    | Overflow(code: U32)
    | Deleted
    | ErrorReport

  /** The 32-byte buffer a read fills; it is zeroed before every read. */
  type Buffer = b: seq<Byte> | |b| == 32 witness seq(32, i => 0)

  datatype Read = Closed | ReadError | Data(n: nat, buff: Buffer)

  /** A read, and what AllocateStorage and RemoveAll would answer to its handler. */
  datatype Event = Event(read: Read, alloc: Result<(string, nat)>, removed: bool)

  /** What one turn of the loop does: the messages it sends, the bytes it adds to
      allocatedSpace, and whether the loop ends. */
  datatype Turn = Turn(msgs: seq<Message>, grown: nat, exit: bool)

  function Command(buff: Buffer): U32 { Uint32(buff[..4]) }

  function TurnOf(e: Event): Turn {
    match e.read
    case Closed => Turn([], 0, true)
    case ReadError => Turn([ErrorReport], 0, true)
    case Data(n, buff) =>
      var command := Command(buff);
      if n < 4 then Turn([], 0, false)
      else if command == CHARCMD_ACKNOWLEDGE then Turn([], 0, Uint32(buff[4..8]) != 0)
      else if command == CHARCMD_HALFFILL then
        if e.alloc.Err? then Turn([ErrorReport], 0, false)
        else Turn([AddFile(e.alloc.value.0, e.alloc.value.1, Uint64(buff[4..12]))], e.alloc.value.1, false)
      else if command == CHARCMD_OVERFLOW then Turn([Overflow(Uint32(buff[4..8])), ErrorReport], 0, false)
      else if command == CHARCMD_TERMINATE then Turn([if e.removed then Deleted else ErrorReport], 0, true)
      else Turn([], 0, false)
  }

  /** The loop's answer to every read, from the bytes it is given. */
  ghost predicate Answers(e: Event, t: Turn) {
    match e.read
    case Closed => t == Turn([], 0, true)
    case ReadError => t == Turn([ErrorReport], 0, true)
    case Data(n, buff) =>
      && (n < 4 ==> t == Turn([], 0, false))
      && (n >= 4 && Word(buff, 0) == 0x01 ==> t == Turn([], 0, Word(buff, 4) != 0))
      && (n >= 4 && Word(buff, 0) == 0x41 && e.alloc.Err? ==> t == Turn([ErrorReport], 0, false))
      && (n >= 4 && Word(buff, 0) == 0x41 && e.alloc.Ok? ==>
            var (path, size) := e.alloc.value;
            |t.msgs| == 1 && t.msgs[0].AddFile? && t.msgs[0].path == path && t.msgs[0].size == size == t.grown &&
            t.msgs[0].fillStatus == Word(buff, 4) + 0x1_0000_0000 * Word(buff, 8) && !t.exit)
      && (n >= 4 && Word(buff, 0) == 0x42 ==>
            |t.msgs| == 2 && t.msgs[0].Overflow? && t.msgs[0].code == Word(buff, 4) && t.msgs[1] == ErrorReport &&
            t.grown == 0 && !t.exit)
      && (n >= 4 && Word(buff, 0) == 0x43 ==> t == Turn([if e.removed then Deleted else ErrorReport], 0, true))
      && (n >= 4 && Word(buff, 0) !in {0x01, 0x41, 0x42, 0x43} ==> t == Turn([], 0, false))
  }

  lemma TurnAnswers(e: Event)
    ensures Answers(e, TurnOf(e))
  {
    if e.read.Data? {
      var buff := e.read.buff;
      Uint32IsWord(buff, 0);
      Uint32IsWord(buff, 4);
      Uint32IsWord(buff, 8);
      assert buff[..4] == buff[0..4] && buff[4..12][..4] == buff[4..8] && buff[4..12][4..] == buff[8..12];
    }
  }

  /** Everything sent in response to a sequence of reads. */
  function Trace(events: seq<Event>): seq<Message> {
    if events == [] then []
    else TurnOf(events[0]).msgs + (if TurnOf(events[0]).exit then [] else Trace(events[1..]))
  }

  function Grown(events: seq<Event>): nat {
    if events == [] then 0
    else TurnOf(events[0]).grown + (if TurnOf(events[0]).exit then 0 else Grown(events[1..]))
  }

  function Exits(events: seq<Event>): bool {
    events != [] && (TurnOf(events[0]).exit || Exits(events[1..]))
  }

  class CharacterDeviceWatcher {
    var allocatedSpace: nat
    var open: bool
    var sent: seq<Message>      // what has gone into the message channel

    constructor ()
      ensures allocatedSpace == 0 && open && sent == []
    {
      allocatedSpace, open, sent := 0, true, [];
    }

    /** The half-fill handler: allocate, then report the new file. */
    method HalfFillHandler(msg: seq<Byte>, alloc: Result<(string, nat)>) returns (ok: bool)
      requires |msg| == 28
      modifies this
      ensures open == old(open) && ok == alloc.Ok?
      ensures alloc.Ok? ==>
        && allocatedSpace == old(allocatedSpace) + alloc.value.1
        && sent == old(sent) + [AddFile(alloc.value.0, alloc.value.1, Uint64(msg[..8]))]
      ensures alloc.Err? ==> allocatedSpace == old(allocatedSpace) && sent == old(sent)
    {
      var fillStatus1 := Uint32(msg[0..4]);
      var fillStatus2 := Uint32(msg[4..8]);
      var filledStatusVal := Halves(fillStatus1, fillStatus2);
      assert msg[..8][..4] == msg[0..4] && msg[..8][4..] == msg[4..8];
      if alloc.Err? {
        return false;
      }
      allocatedSpace := allocatedSpace + alloc.value.1;
      sent := sent + [AddFile(alloc.value.0, alloc.value.1, filledStatusVal)];
      return true;
    }

    /** One turn of the loop; `exit` closes the device. */
    method HandleRead(e: Event) returns (exit: bool)
      requires open
      modifies this
      ensures |old(sent)| <= |sent| && sent[..|old(sent)|] == old(sent) && old(allocatedSpace) <= allocatedSpace
      ensures Answers(e, Turn(sent[|old(sent)|..], allocatedSpace - old(allocatedSpace), exit))
      ensures sent == old(sent) + TurnOf(e).msgs
      ensures allocatedSpace == old(allocatedSpace) + TurnOf(e).grown
      ensures exit == TurnOf(e).exit && open == !exit
    {
      TurnAnswers(e);
      exit := false;
      match e.read {
        case Closed =>
          exit := true;
        case ReadError =>
          sent := sent + [ErrorReport];
          exit := true;
        case Data(n, buff) =>
          if n < 4 {
            return;
          }
          var command := Command(buff);
          if command == CHARCMD_ACKNOWLEDGE {
            exit := Uint32(buff[4..8]) != 0;
          } else if command == CHARCMD_HALFFILL {
            assert buff[4..][..8] == buff[4..12];
            var ok := HalfFillHandler(buff[4..], e.alloc);
            if !ok {
              sent := sent + [ErrorReport];
            }
          } else if command == CHARCMD_OVERFLOW {
            sent := sent + [Overflow(Uint32(buff[4..8]))];
            sent := sent + [ErrorReport];
          } else if command == CHARCMD_TERMINATE {
            sent := sent + [if e.removed then Deleted else ErrorReport];
            exit := true;
          }
      }
      open := !exit;
    }

    /** The reader loop, run over the reads the device delivers. */
    method CharDeviceReader(events: seq<Event>)
      requires open
      modifies this
      ensures sent == old(sent) + Trace(events)
      ensures allocatedSpace == old(allocatedSpace) + Grown(events)
      ensures open <==> !Exits(events)
    {
      assert events[0..] == events;
      for i := 0 to |events|
        invariant open
        invariant sent + Trace(events[i..]) == old(sent) + Trace(events)
        invariant allocatedSpace + Grown(events[i..]) == old(allocatedSpace) + Grown(events)
        invariant Exits(events[i..]) <==> Exits(events)
      {
        TraceStep(sent, events, i);
        var exit := HandleRead(events[i]);
        if exit {
          return;
        }
      }
    }
  }

  lemma TraceStep(sent: seq<Message>, events: seq<Event>, i: nat)
    requires i < |events|
    ensures var t := TurnOf(events[i]);
            && sent + Trace(events[i..]) == sent + t.msgs + (if t.exit then [] else Trace(events[i + 1..]))
            && Grown(events[i..]) == t.grown + (if t.exit then 0 else Grown(events[i + 1..]))
            && (Exits(events[i..]) <==> t.exit || Exits(events[i + 1..]))
  {
    assert events[i..][1..] == events[i + 1..];
  }

  // ---------------------------------------------------------------- over every sequence of reads

  function AddedBytes(msgs: seq<Message>): nat {
    if msgs == [] then 0 else (if msgs[0].AddFile? then msgs[0].size else 0) + AddedBytes(msgs[1..])
  }

  lemma {:induction false} AddedBytesConcat(p: seq<Message>, q: seq<Message>)
    ensures AddedBytes(p + q) == AddedBytes(p) + AddedBytes(q)
  {
    if p == [] {
      assert p + q == q;
    } else {
      AddedBytesConcat(p[1..], q);
      assert (p + q)[1..] == p[1..] + q;
    }
  }

  /** At most one Deleted, and it is the last message the watcher ever sends: every AddFile
      precedes it. */
  lemma {:induction false} DeletedIsLast(events: seq<Event>)
    ensures forall i | 0 <= i < |Trace(events)| - 1 :: !Trace(events)[i].Deleted?
    ensures Deleted in Trace(events) ==> Exits(events)
  {
    if events != [] {
      DeletedIsLast(events[1..]);
      var head := TurnOf(events[0]);
      if head.exit {
        assert Trace(events) == head.msgs;
      } else {
        var rest := Trace(events[1..]);
        assert forall i | 0 <= i < |rest| :: Trace(events)[|head.msgs| + i] == rest[i];
      }
    }
  }

  /** The read is a TERMINATE notification. */
  predicate Terminates(e: Event) {
    e.read.Data? && e.read.n >= 4 && Word(e.read.buff, 0) == 0x43
  }

  /** The read ends the loop: the device is closed or broken, the creation was not
      acknowledged, or the store is gone. */
  predicate Ends(e: Event) {
    || e.read.Closed? || e.read.ReadError?
    || (e.read.Data? && e.read.n >= 4 && Word(e.read.buff, 0) == 0x01 && Word(e.read.buff, 4) != 0)
    || Terminates(e)
  }

  /** Over every sequence of reads: the manager is told Deleted if and only if the first read
      that ends the loop is a TERMINATE whose directory could be removed. */
  lemma {:induction false} DeletedIff(events: seq<Event>)
    ensures Deleted in Trace(events) <==>
              exists k | 0 <= k < |events| ::
                Terminates(events[k]) && events[k].removed && forall j | 0 <= j < k :: !Ends(events[j])
    ensures Exits(events) <==> exists k | 0 <= k < |events| :: Ends(events[k])
  {
    if events != [] {
      var e, rest := events[0], events[1..];
      TurnAnswers(e);
      DeletedIff(rest);
      assert events == [e] + rest;
      assert TurnOf(e).exit <==> Ends(e);
      assert Deleted in TurnOf(e).msgs <==> Terminates(e) && e.removed;
      if TurnOf(e).exit {
        assert Trace(events) == TurnOf(e).msgs;
      } else {
        FirstEnd(events);
      }
    }
  }

  /** Looking for the first ending read one read later. */
  lemma FirstEnd(events: seq<Event>)
    requires events != [] && !Ends(events[0])
    ensures var rest := events[1..];
            (exists k | 0 <= k < |events| ::
               Terminates(events[k]) && events[k].removed && forall j | 0 <= j < k :: !Ends(events[j])) <==>
            (exists k | 0 <= k < |rest| ::
               Terminates(rest[k]) && rest[k].removed && forall j | 0 <= j < k :: !Ends(rest[j]))
    ensures (exists k | 0 <= k < |events| :: Ends(events[k])) <==> exists k | 0 <= k < |events| - 1 ::
            Ends(events[1..][k])
  {
    var rest := events[1..];
    assert forall k | 0 <= k < |rest| :: rest[k] == events[k + 1];
    if k :| 0 <= k < |events| && Terminates(events[k]) && events[k].removed && forall j | 0 <= j < k ::
          !Ends(events[j]) {
      assert Terminates(rest[k - 1]) && forall j | 0 <= j < k - 1 :: !Ends(rest[j]);
    }
    if k :| 0 <= k < |rest| && Terminates(rest[k]) && rest[k].removed && forall j | 0 <= j < k :: !Ends(rest[j]) {
      forall j | 0 <= j < k + 1 ensures !Ends(events[j]) {
        if j > 0 {
          assert events[j] == rest[j - 1];
        }
      }
      assert Terminates(events[k + 1]);
    }
    if k :| 0 <= k < |events| && Ends(events[k]) {
      assert Ends(rest[k - 1]);
    }
  }

  /** Once the loop has ended, nothing the device still delivers is acted upon. */
  lemma {:induction false} SilentAfterExit(events: seq<Event>, more: seq<Event>)
    requires Exits(events)
    ensures Trace(events + more) == Trace(events) && Grown(events + more) == Grown(events)
  {
    assert (events + more)[1..] == events[1..] + more;
    if !TurnOf(events[0]).exit {
      SilentAfterExit(events[1..], more);
    }
  }

  /** The local counter grows by exactly the sizes reported to the manager. */
  lemma {:induction false} CounterMatchesReports(events: seq<Event>)
    ensures Grown(events) == AddedBytes(Trace(events))
  {
    if events != [] {
      var head := TurnOf(events[0]);
      CounterMatchesReports(events[1..]);
      AddedBytesConcat(head.msgs, Trace(events[1..]));
      assert head.msgs + [] == head.msgs;
      assert |head.msgs| > 0 ==> AddedBytes(head.msgs[1..]) == 0;
    }
  }

  /** A half-fill notification carries its 64-bit fill status through unchanged, whatever
      bytes follow it. */
  lemma FillStatusSurvives(status: U64, tail: seq<Byte>, path: string, size: nat, removed: bool)
    requires |tail| == 20
    ensures var e := Event(Data(12, LE32(CHARCMD_HALFFILL) + LE64(status) + tail), Ok((path, size)), removed);
            TurnOf(e) == Turn([AddFile(path, size, status)], size, false)
  {
    var buff := LE32(CHARCMD_HALFFILL) + LE64(status) + tail;
    assert buff[..4] == LE32(CHARCMD_HALFFILL) && buff[4..12] == LE64(status);
    Uint32OfLE32(CHARCMD_HALFFILL);
    Uint64OfLE64(status);
  }
}
