/** worker/manager/manager.go:352-388, CreateSnapStoreMapping, which takes no lock, run by any
    number of requests at once. Each call makes four atomic database calls: it finds the disk,
    checks that the disk is not mapped, fetches the location, and inserts its row. A call is
    named by the UUID its row gets, which is fresh. */
module Mappings {

  import Machines

  type CallID = string

  datatype Row = Row(disk: string, location: string)

  datatype Phase = Find | Check | Locate | Insert

  datatype Call = Call(disk: string, location: string, phase: Phase)

  /** `overlaps` only observes: the pairs of calls for one disk of which the second passed the
      check while the first had passed it and not yet inserted. */
  datatype State = State(
    disks: set<string>,
    locations: set<string>,
    mappings: map<CallID, Row>,
    calls: map<CallID, Call>,
    started: set<CallID>,
    overlaps: set<(CallID, CallID)>)

  datatype Event =
    | Start(id: CallID, disk: string, location: string)
    | Advance(id: CallID)
    | AddDisk(disk: string)
    | AddLocation(location: string)

  predicate Mapped(s: State, disk: string) {
    exists x | x in s.mappings :: s.mappings[x].disk == disk
  }

  /** The call for the disk has passed the check. */
  predicate Passed(s: State, id: CallID, disk: string) {
    id in s.calls && s.calls[id].disk == disk && (s.calls[id].phase.Locate? || s.calls[id].phase.Insert?)
  }

  function Enter(s: State, id: CallID, phase: Phase): State
    requires id in s.calls
  {
    s.(calls := s.calls[id := s.calls[id].(phase := phase)])
  }

  /** A call returns, with or without an error. */
  function Return(s: State, id: CallID): State { s.(calls := s.calls - {id}) }

  function Step(s: State, e: Event): State {
    match e
    case Start(id, disk, location) =>
      if id in s.started then s
      else s.(calls := s.calls[id := Call(disk, location, Find)], started := s.started + {id})
    case AddDisk(disk) => s.(disks := s.disks + {disk})
    case AddLocation(location) => s.(locations := s.locations + {location})
    case Advance(id) =>
      if id !in s.calls then s
      else
        var c := s.calls[id];
        match c.phase
        case Find => if c.disk in s.disks then Enter(s, id, Check) else Return(s, id)
        case Check =>
          if Mapped(s, c.disk) then Return(s, id)
          else
            Enter(s, id, Locate).(overlaps := s.overlaps + set g | g in s.calls && Passed(s, g, c.disk) :: (g, id))
        case Locate => if c.location in s.locations then Enter(s, id, Insert) else Return(s, id)
        case Insert => Return(s, id).(mappings := s.mappings[id := Row(c.disk, c.location)])
  }

  function Run(s: State, events: seq<Event>): State {
    Machines.Run(Step, s, events)
  }

  /** Nothing under way, and every disk mapped at most once. */
  ghost predicate Init(s: State) {
    && s.calls == map[] && s.overlaps == {} && s.started == s.mappings.Keys
    && forall x, y | x in s.mappings && y in s.mappings && s.mappings[x].disk == s.mappings[y].disk :: x == y
  }

  predicate Overlapped(s: State, a: CallID, b: CallID) { (a, b) in s.overlaps || (b, a) in s.overlaps }

  predicate IsFor(s: State, id: CallID, disk: string) {
    (id in s.calls ==> s.calls[id].disk == disk) && (id in s.mappings ==> s.mappings[id].disk == disk)
  }

  // ---------------------------------------------------------------- the invariant

  ghost predicate Known(s: State) {
    s.mappings.Keys <= s.started && s.calls.Keys <= s.started && s.mappings.Keys !! s.calls.Keys
  }

  /** An overlap is between two calls, and for one disk. */
  ghost predicate PairsOk(s: State) {
    forall p | p in s.overlaps ::
      p.0 != p.1 && p.0 in s.started && p.1 in s.started && exists disk :: IsFor(s, p.0, disk) && IsFor(s, p.1, disk)
  }

  /** Whoever passed the check for a disk has overlapped with every other call that did and
      with every row the disk has; and so have any two rows of a disk. */
  ghost predicate Accounted(s: State) {
    && (forall g, h, d | Passed(s, g, d) && Passed(s, h, d) && g != h :: Overlapped(s, g, h))
    && (forall g, x | x in s.mappings && Passed(s, g, s.mappings[x].disk) :: Overlapped(s, g, x))
    && (forall x, y | x in s.mappings && y in s.mappings && x != y && s.mappings[x].disk == s.mappings[y].disk ::
          Overlapped(s, x, y))
  }

  ghost predicate Inv(s: State) { Known(s) && PairsOk(s) && Accounted(s) }

  lemma CheckKeeps(s: State, id: CallID)
    requires Inv(s) && id in s.calls && s.calls[id].phase.Check?
    ensures Inv(Step(s, Advance(id)))
  {
    if Mapped(s, s.calls[id].disk) {
      QuietKeeps(s, Return(s, id));
    } else {
      PassPairs(s, id);
      PassAccounted(s, id);
    }
  }

  /** Passing the check adds overlaps with those who passed it before. */
  lemma PassPairs(s: State, id: CallID)
    requires Inv(s) && id in s.calls && s.calls[id].phase.Check? && !Mapped(s, s.calls[id].disk)
    ensures PairsOk(Step(s, Advance(id)))
  {
    var t := Step(s, Advance(id));
    var disk := s.calls[id].disk;
    forall p | p in t.overlaps
      ensures p.0 != p.1 && p.0 in t.started && p.1 in t.started && exists d :: IsFor(t, p.0, d) && IsFor(t, p.1, d)
    {
      if p in s.overlaps {
        var d :| IsFor(s, p.0, d) && IsFor(s, p.1, d);
        assert IsFor(t, p.0, d) && IsFor(t, p.1, d);
      } else {
        assert Passed(s, p.0, disk) && p.1 == id;
        assert IsFor(t, p.0, disk) && IsFor(t, p.1, disk);
      }
    }
  }

  lemma PassAccounted(s: State, id: CallID)
    requires Inv(s) && id in s.calls && s.calls[id].phase.Check? && !Mapped(s, s.calls[id].disk)
    ensures Accounted(Step(s, Advance(id)))
  {
    var t := Step(s, Advance(id));
    var disk := s.calls[id].disk;
    assert s.overlaps <= t.overlaps;
    forall g, d | Passed(t, g, d) && g != id ensures Passed(s, g, d) && (d == disk ==> (g, id) in t.overlaps) {
    }
    forall g, x | x in t.mappings && Passed(t, g, t.mappings[x].disk) ensures Overlapped(t, g, x) {
      assert t.mappings[x].disk != disk;
      assert Passed(s, g, s.mappings[x].disk);
    }
  }

  lemma InsertKeeps(s: State, id: CallID)
    requires Inv(s) && id in s.calls && s.calls[id].phase.Insert?
    ensures Inv(Step(s, Advance(id)))
  {
    var t := Step(s, Advance(id));
    assert Known(t);
    PairsStay(s, t);
    InsertAccounted(s, id);
  }

  lemma InsertAccounted(s: State, id: CallID)
    requires Inv(s) && id in s.calls && s.calls[id].phase.Insert?
    ensures Accounted(Step(s, Advance(id)))
  {
    var t := Step(s, Advance(id));
    assert Passed(s, id, s.calls[id].disk) && t.overlaps == s.overlaps;
    forall g, d | Passed(t, g, d) ensures Passed(s, g, d) && g != id {
    }
    forall x | x in t.mappings && x != id ensures x in s.mappings && t.mappings[x] == s.mappings[x] {
    }
    forall x, y | x in t.mappings && y in t.mappings && x != y && t.mappings[x].disk == t.mappings[y].disk
      ensures Overlapped(t, x, y)
    {
      if y == id {
        assert Passed(s, id, s.mappings[x].disk);
      } else if x == id {
        assert Passed(s, id, s.mappings[y].disk);
      }
    }
  }

  /** Nobody changes disks. */
  lemma PairsStay(s: State, t: State)
    requires PairsOk(s) && t.overlaps == s.overlaps && s.started <= t.started
    requires forall id, disk | id in s.started && IsFor(s, id, disk) :: IsFor(t, id, disk)
    ensures PairsOk(t)
  {
    forall p | p in t.overlaps ensures exists disk :: IsFor(t, p.0, disk) && IsFor(t, p.1, disk) {
      var disk :| IsFor(s, p.0, disk) && IsFor(s, p.1, disk);
      assert IsFor(t, p.0, disk) && IsFor(t, p.1, disk);
    }
  }

  /** The other steps add neither an overlap nor a row, nor let a call pass the check. */
  lemma QuietKeeps(s: State, t: State)
    requires Inv(s) && Known(t) && t.overlaps == s.overlaps && t.mappings == s.mappings && s.started <= t.started
    requires forall id, disk | id in s.started && IsFor(s, id, disk) :: IsFor(t, id, disk)
    requires forall id, disk | Passed(t, id, disk) :: Passed(s, id, disk)
    ensures Inv(t)
  {
    PairsStay(s, t);
  }

  lemma StepKeeps(s: State, e: Event)
    requires Inv(s)
    ensures Inv(Step(s, e))
  {
    if e.Advance? && e.id in s.calls && s.calls[e.id].phase.Check? {
      CheckKeeps(s, e.id);
    } else if e.Advance? && e.id in s.calls && s.calls[e.id].phase.Insert? {
      InsertKeeps(s, e.id);
    } else {
      QuietKeeps(s, Step(s, e));
    }
  }

  lemma {:induction false} RunKeeps(s: State, events: seq<Event>)
    requires Init(s)
    ensures Inv(Run(s, events))
    decreases |events|
  {
    if events != [] {
      RunKeeps(s, events[..|events| - 1]);
      StepKeeps(Run(s, events[..|events| - 1]), events[|events| - 1]);
      Machines.RunLast(Step, s, events);
    }
  }

  // ---------------------------------------------------------------- the promise

  ghost predicate MappedOnce(s: State, disk: string) {
    forall x, y | x in s.mappings && y in s.mappings && s.mappings[x].disk == disk == s.mappings[y].disk :: x == y
  }

  /** After every interleaving: a disk has at most one mapping if and only if no two of the
      calls that inserted one had overlapped. */
  lemma MappedOnceIff(s: State, events: seq<Event>, disk: string)
    requires Init(s)
    ensures var t := Run(s, events);
            MappedOnce(t, disk) <==>
              forall p | p in t.overlaps && p.0 in t.mappings && p.1 in t.mappings :: t.mappings[p.0].disk != disk
  {
    RunKeeps(s, events);
    var t := Run(s, events);
    if !MappedOnce(t, disk) {
      var x, y :| x in t.mappings && y in t.mappings && t.mappings[x].disk == disk == t.mappings[y].disk && x != y;
      assert Overlapped(t, x, y);
    }
    forall p | p in t.overlaps && p.0 in t.mappings && p.1 in t.mappings
      ensures t.mappings[p.0].disk == t.mappings[p.1].disk && p.0 != p.1
    {
      var d :| IsFor(t, p.0, d) && IsFor(t, p.1, d);
    }
  }

  /** In particular, one mapping per disk as long as no calls overlap. */
  lemma OnceWithoutOverlap(s: State, events: seq<Event>)
    requires Init(s) && Run(s, events).overlaps == {}
    ensures forall disk :: MappedOnce(Run(s, events), disk)
  {
    forall disk ensures MappedOnce(Run(s, events), disk) {
      MappedOnceIff(s, events, disk);
    }
  }

  /** A call that runs alone is one step: it adds its row if the disk is tracked and not
      mapped and the location is known, and changes nothing else. */
  lemma AloneIsOneStep(s: State, id: CallID, disk: string, location: string)
    requires s.calls == map[] && id !in s.started
    ensures Run(s, [Start(id, disk, location), Advance(id), Advance(id), Advance(id), Advance(id)]) ==
            s.(started := s.started + {id},
               mappings := if disk in s.disks && !Mapped(s, disk) && location in s.locations
                           then s.mappings[id := Row(disk, location)] else s.mappings)
  {
    var es := [Start(id, disk, location), Advance(id), Advance(id), Advance(id), Advance(id)];
    var begin := Step(s, es[0]);
    Machines.RunThree(Step, s, [], es[0], es[1], es[2]);
    Machines.RunTwo(Step, s, es[..3], es[3], es[4]);
    assert es[..3] == [] + [es[0], es[1], es[2]] && es == es[..3] + [es[3], es[4]];
    assert begin.calls == map[id := Call(disk, location, Find)];
    AloneFourSteps(begin, id);
  }

  lemma AloneFourSteps(s: State, id: CallID)
    requires s.calls.Keys == {id} && s.calls[id].phase.Find?
    ensures var c := s.calls[id];
            Step(Step(Step(Step(s, Advance(id)), Advance(id)), Advance(id)), Advance(id)) ==
            s.(calls := map[],
               mappings := if c.disk in s.disks && !Mapped(s, c.disk) && c.location in s.locations
                           then s.mappings[id := Row(c.disk, c.location)] else s.mappings)
  {
    var c, a := s.calls[id], Advance(id);
    assert s.calls - {id} == map[];
    var t := Step(s, a);
    if c.disk in s.disks {
      assert t == Enter(s, id, Check);
      assert t.calls - {id} == map[];
      var u := Step(t, a);
      if !Mapped(s, c.disk) {
        assert forall g | g in t.calls :: !Passed(t, g, c.disk);
        assert u == Enter(t, id, Locate);
        assert u.calls - {id} == map[];
        var v := Step(u, a);
        if c.location in s.locations {
          assert v == Enter(u, id, Insert) && v.calls - {id} == map[];
        }
      }
    }
  }

  // ---------------------------------------------------------------- two mappings

  /** Two calls in lockstep. */
  function Race(a: CallID, b: CallID, disk: string, l: string, m: string): seq<Event> {
    [Start(a, disk, l), Start(b, disk, m)] + [Advance(a), Advance(b)] + [Advance(a), Advance(b)] +
    [Advance(a), Advance(b)] + [Advance(a), Advance(b)]
  }

  function Unmapped(disk: string, l: string, m: string): State {
    State({disk}, {l, m}, map[], map[], {}, {})
  }

  /** Both calls of the race, in one phase. */
  function Both(a: CallID, b: CallID, disk: string, l: string, m: string, phase: Phase): State {
    Unmapped(disk, l, m).(
      calls := map[a := Call(disk, l, phase), b := Call(disk, m, phase)],
      started := {a, b},
      overlaps := if phase.Locate? || phase.Insert? then {(a, b)} else {})
  }

  lemma RaceStart(a: CallID, b: CallID, disk: string, l: string, m: string)
    requires a != b
    ensures Step(Step(Unmapped(disk, l, m), Start(a, disk, l)), Start(b, disk, m)) == Both(a, b, disk, l, m, Find)
  {
  }

  lemma RaceFind(a: CallID, b: CallID, disk: string, l: string, m: string)
    requires a != b
    ensures Step(Step(Both(a, b, disk, l, m, Find), Advance(a)), Advance(b)) == Both(a, b, disk, l, m, Check)
  {
  }

  lemma RaceCheck(a: CallID, b: CallID, disk: string, l: string, m: string)
    requires a != b
    ensures Step(Step(Both(a, b, disk, l, m, Check), Advance(a)), Advance(b)) == Both(a, b, disk, l, m, Locate)
  {
    var s := Both(a, b, disk, l, m, Check);
    var t := Step(s, Advance(a));
    assert forall g | g in s.calls :: !Passed(s, g, disk);
    assert t == Enter(s, a, Locate);
    assert Passed(t, a, disk) && !Passed(t, b, disk);
    assert (set g | g in t.calls && Passed(t, g, disk) :: (g, b)) == {(a, b)};
  }

  lemma RaceLocate(a: CallID, b: CallID, disk: string, l: string, m: string)
    requires a != b
    ensures Step(Step(Both(a, b, disk, l, m, Locate), Advance(a)), Advance(b)) == Both(a, b, disk, l, m, Insert)
  {
  }

  lemma RaceInsert(a: CallID, b: CallID, disk: string, l: string, m: string)
    requires a != b
    ensures var t := Step(Step(Both(a, b, disk, l, m, Insert), Advance(a)), Advance(b));
            t.mappings == map[a := Row(disk, l), b := Row(disk, m)] && !MappedOnce(t, disk)
  {
    var t := Step(Step(Both(a, b, disk, l, m, Insert), Advance(a)), Advance(b));
    assert t.mappings == map[a := Row(disk, l), b := Row(disk, m)];
    assert a in t.mappings && b in t.mappings;
  }

  /** Two requests for one unmapped disk, at any two known locations, can both succeed. */
  lemma MappingCanDouble(a: CallID, b: CallID, disk: string, l: string, m: string)
    requires a != b
    ensures Init(Unmapped(disk, l, m))
    ensures var t := Run(Unmapped(disk, l, m), Race(a, b, disk, l, m));
            t.mappings == map[a := Row(disk, l), b := Row(disk, m)] && !MappedOnce(t, disk)
  {
    var s, first, round := Unmapped(disk, l, m), [Start(a, disk, l), Start(b, disk, m)], [Advance(a), Advance(b)];
    Machines.RunTwo(Step, s, [], first[0], first[1]);
    assert [] + first == first;
    Machines.RunTwo(Step, s, first, round[0], round[1]);
    Machines.RunTwo(Step, s, first + round, round[0], round[1]);
    Machines.RunTwo(Step, s, first + round + round, round[0], round[1]);
    Machines.RunTwo(Step, s, first + round + round + round, round[0], round[1]);
    RaceStart(a, b, disk, l, m);
    RaceFind(a, b, disk, l, m);
    RaceCheck(a, b, disk, l, m);
    RaceLocate(a, b, disk, l, m);
    RaceInsert(a, b, disk, l, m);
  }
}
