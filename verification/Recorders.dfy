/** worker/manager/snapstores.go:242-267, RecordSnapStoreFileInDB, run by any number of
    goroutines at once on one store. Each call makes three atomic database calls: it reads
    the store row, inserts the file row, and writes back the row it read with the size
    added. A recorder is named by the file it records, whose ID is fresh. */
module Recorders {

  import opened Sums
  import Machines

  type FileID = string

  /** A call in flight: the row copy it read, and whether its file row is in. `seen` is the
      set of files the copied total accounts for. */
  datatype Call = Call(size: nat, base: nat, seen: set<FileID>, inserted: bool)

  /** `seen` and `overlaps` only observe: the files the stored total accounts for, and the
      pairs of calls of which the second began before the first had finished. */
  datatype State = State(
    total: nat,
    files: map<FileID, nat>,
    calls: map<FileID, Call>,
    started: set<FileID>,
    seen: set<FileID>,
    overlaps: set<(FileID, FileID)>)

  datatype Event = Get(file: FileID, size: nat) | Insert(file: FileID) | Update(file: FileID)

  function Step(s: State, e: Event): State {
    match e
    case Get(f, size) =>
      if f in s.started then s
      else s.(calls := s.calls[f := Call(size, s.total, s.seen, false)],
              started := s.started + {f},
              overlaps := s.overlaps + set g | g in s.calls :: (g, f))
    case Insert(f) =>
      if f !in s.calls || s.calls[f].inserted then s
      else s.(files := s.files[f := s.calls[f].size],
              calls := s.calls[f := s.calls[f].(inserted := true)])
    case Update(f) =>
      if f !in s.calls || !s.calls[f].inserted then s
      else s.(total := s.calls[f].base + s.calls[f].size,
              seen := s.calls[f].seen + {f},
              calls := s.calls - {f})
  }

  function Run(s: State, events: seq<Event>): State {
    Machines.Run(Step, s, events)
  }

  ghost predicate Init(s: State) {
    && s.total == Total(s.files)
    && s.calls == map[]
    && s.started == s.files.Keys == s.seen
    && s.overlaps == {}
  }

  // ---------------------------------------------------------------- the invariant

  /** A total and the set of files it stands for. */
  ghost predicate Accounts(s: State, total: nat, seen: set<FileID>) {
    seen <= s.files.Keys && seen !! s.calls.Keys && total == Total(Restrict(s.files, seen))
  }

  ghost predicate CallOk(s: State, f: FileID)
    requires f in s.calls
  {
    var c := s.calls[f];
    && f in s.started
    && Accounts(s, c.base, c.seen)
    && (f in s.files <==> c.inserted)
    && (c.inserted ==> s.files[f] == c.size)
    && (s.overlaps == {} ==> c.seen == s.seen)
  }

  /** Of two calls that overlapped, no total, stored or about to be, accounts for both. */
  ghost predicate Loses(s: State, p: (FileID, FileID)) {
    && p.0 != p.1 && p.0 in s.started && p.1 in s.started
    && !(p.0 in s.seen && p.1 in s.seen)
    && forall f | f in s.calls :: !(p.0 in s.calls[f].seen + {f} && p.1 in s.calls[f].seen + {f})
  }

  ghost predicate Inv(s: State) {
    && s.started == s.files.Keys + s.calls.Keys
    && Accounts(s, s.total, s.seen)
    && (forall f | f in s.calls :: CallOk(s, f))
    && (forall p | p in s.overlaps :: Loses(s, p))
    && (s.overlaps == {} ==>
          && s.seen == s.files.Keys - s.calls.Keys
          && forall f, g | f in s.calls && g in s.calls :: f == g)
  }

  lemma InitInv(s: State)
    requires Init(s)
    ensures Inv(s)
  {
    assert Restrict(s.files, s.seen) == s.files;
  }

  lemma GetKeeps(s: State, f: FileID, size: nat)
    requires Inv(s) && f !in s.started
    ensures Inv(Step(s, Get(f, size)))
  {
    var t := Step(s, Get(f, size));
    if g :| g in s.calls {
      assert (g, f) in t.overlaps;
    }
    forall p | p in t.overlaps ensures Loses(t, p) {
      if p !in s.overlaps {
        var g := p.0;
        assert g in s.calls && p == (g, f);
        assert CallOk(s, g);
        forall h | h in t.calls
          ensures !(g in t.calls[h].seen + {h} && f in t.calls[h].seen + {h})
        {
          if h != f {
            assert CallOk(s, h);
          }
        }
      } else {
        assert Loses(s, p);
      }
    }
    forall h | h in t.calls ensures CallOk(t, h) {
      if h != f {
        assert CallOk(s, h);
      }
    }
  }

  lemma InsertKeeps(s: State, f: FileID)
    requires Inv(s) && f in s.calls && !s.calls[f].inserted
    ensures Inv(Step(s, Insert(f)))
  {
    var t := Step(s, Insert(f));
    assert CallOk(s, f);
    assert Restrict(t.files, s.seen) == Restrict(s.files, s.seen);
    InsertKeepsCalls(s, f);
    forall p | p in t.overlaps ensures Loses(t, p) {
      assert Loses(s, p);
    }
  }

  lemma InsertKeepsCalls(s: State, f: FileID)
    requires f in s.calls && !s.calls[f].inserted && forall h | h in s.calls :: CallOk(s, h)
    ensures forall h | h in s.calls :: h in Step(s, Insert(f)).calls && CallOk(Step(s, Insert(f)), h)
  {
    var t := Step(s, Insert(f));
    assert CallOk(s, f);
    forall h | h in s.calls ensures CallOk(t, h) {
      assert CallOk(s, h);
      assert Restrict(t.files, s.calls[h].seen) == Restrict(s.files, s.calls[h].seen);
    }
  }

  lemma UpdateKeeps(s: State, f: FileID)
    requires Inv(s) && f in s.calls && s.calls[f].inserted
    ensures Inv(Step(s, Update(f)))
  {
    var t := Step(s, Update(f));
    var c := s.calls[f];
    assert CallOk(s, f);
    assert Restrict(s.files, c.seen + {f}) == Restrict(s.files, c.seen)[f := c.size];
    TotalInsert(Restrict(s.files, c.seen), f, c.size);
    forall h | h in t.calls ensures CallOk(t, h) {
      assert CallOk(s, h);
    }
    forall p | p in t.overlaps ensures Loses(t, p) {
      assert Loses(s, p);
    }
  }

  lemma {:induction false} RunKeeps(s: State, events: seq<Event>)
    requires Init(s)
    ensures Inv(Run(s, events))
    decreases |events|
  {
    if events == [] {
      InitInv(s);
    } else {
      var t, e := Run(s, events[..|events| - 1]), events[|events| - 1];
      RunKeeps(s, events[..|events| - 1]);
      Machines.RunLast(Step, s, events);
      if Step(t, e) != t {
        match e
        case Get(f, size) => GetKeeps(t, f, size);
        case Insert(f) => InsertKeeps(t, f);
        case Update(f) => UpdateKeeps(t, f);
      }
    }
  }

  // ---------------------------------------------------------------- the promises

  /** In every interleaving the stored total never exceeds the sum of the file rows. */
  lemma TotalNeverExceedsFiles(s: State, events: seq<Event>)
    requires Init(s)
    ensures Run(s, events).total <= Total(Run(s, events).files)
  {
    RunKeeps(s, events);
    TotalSplit(Run(s, events).files, Run(s, events).seen);
  }

  /** The exact condition: once all calls have returned, and files are not empty, the total
      equals the sum of the file rows if and only if no two calls ever overlapped. */
  lemma TotalExactIffNoOverlap(s: State, events: seq<Event>)
    requires Init(s)
    requires Run(s, events).calls == map[]
    requires forall f | f in Run(s, events).files :: Run(s, events).files[f] > 0
    ensures Run(s, events).total == Total(Run(s, events).files) <==> Run(s, events).overlaps == {}
  {
    RunKeeps(s, events);
    var t := Run(s, events);
    TotalSplit(t.files, t.seen);
    if t.overlaps == {} {
      assert t.files - t.seen == map[];
    } else {
      var p :| p in t.overlaps;
      assert Loses(t, p);
      var f := if p.0 in t.seen then p.1 else p.0;
      TotalPositive(t.files - t.seen, f);
    }
  }

  /** The lost addition: both calls read the row before either writes it back. */
  function Overlap(a: FileID, b: FileID, m: nat, n: nat): seq<Event> {
    [Get(a, m), Get(b, n), Insert(a), Insert(b), Update(a), Update(b)]
  }

  function Blank(): State { State(0, map[], map[], {}, {}, {}) }

  /** The loss is real, on every new store, for any two files and any sizes: the total ends
      up as the second size alone. */
  lemma TotalCanBeLost(a: FileID, b: FileID, m: nat, n: nat)
    requires a != b && m > 0
    ensures var t := Run(Blank(), Overlap(a, b, m, n));
            && Init(Blank()) && t.calls == map[] && t.files == map[a := m, b := n]
            && t.total == n < Total(t.files) == m + n
  {
    var es := Overlap(a, b, m, n);
    var t1 := Step(Step(Blank(), es[0]), es[1]);
    Machines.RunTwo(Step, Blank(), [], es[0], es[1]);
    Machines.RunTwo(Step, Blank(), es[..2], es[2], es[3]);
    Machines.RunTwo(Step, Blank(), es[..4], es[4], es[5]);
    assert es[..2] == [] + [es[0], es[1]] && es[..4] == es[..2] + [es[2], es[3]] && es == es[..4] + [es[4], es[5]];
    assert t1.calls == map[a := Call(m, 0, {}, false), b := Call(n, 0, {}, false)];
    var t2 := Step(Step(t1, es[2]), es[3]);
    assert t2.files == map[a := m, b := n] && t2.calls == map[a := Call(m, 0, {}, true), b := Call(n, 0, {}, true)];
    TotalInsert(map[], a, m);
    TotalInsert(map[a := m], b, n);
    assert map[a := m][b := n] == map[a := m, b := n] && map[][a := m] == map[a := m];
  }
}
