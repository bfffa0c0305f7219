/** The life of snap stores as a concurrent step system, at the granularity of single
    database calls. The actors are the manager operation that holds m.mux
    (worker/manager/manager.go), one watcher goroutine per store
    (worker/snapstore/character_device_watcher.go), the bounded FIFO msgChan, and the one
    message handler (worker/manager/worker.go), which does not take m.mux.

    Assumptions: an insert fails iff the key is present, an update or delete iff it is
    absent; UUIDs are fresh; the kernel sends TERMINATE for a store only after a cleanup
    ioctl on it; an allocated file is not empty. A file ID is modelled as the store it was
    allocated for and a serial number. The unsynchronised `allocatedSpace += size`, reached
    by both the manager and the watcher, is a load followed by a store.
 */
module Lifecycle {

  import opened Sums
  import Machines

  type StoreID = string

  datatype FileID = FileID(origin: StoreID, serial: nat)

  datatype FileRow = FileRow(store: StoreID, size: nat)

  datatype Msg =
    | AddFile(store: StoreID, file: FileID, size: nat)
    | Deleted(store: StoreID)
    | Other(store: StoreID)       // overflow and error reports

  /** RecordSnapStoreFileInDB: fetch the store row, insert the file row, write the row back. */
  datatype Phase = Fetch | InsertFile(copy: nat) | UpdateRow(copy: nat)

  datatype Work =
    | Idle
    | Recording(store: StoreID, file: FileID, size: nat, phase: Phase)
    | Listing(store: StoreID)
    | Removing(store: StoreID, todo: set<FileID>)
    | Dropping(store: StoreID)
    // only the manager:
    | Starting(store: StoreID)                                       // row inserted, watcher not yet started
    | Allocating(store: StoreID)                                     // about to allocate the initial file
    | Adding(store: StoreID, copy: nat, file: FileID, size: nat)     // between load and store of allocatedSpace

  datatype Watcher =
    | Reading
    | Growing(copy: nat, file: FileID, size: nat)                    // between load and store of allocatedSpace
    | Sending(msgs: seq<Msg>, last: bool)
    | Exited

  datatype State = State(
    stores: map<StoreID, nat>,
    files: map<FileID, FileRow>,
    watchers: map<StoreID, Watcher>,
    space: map<StoreID, nat>,
    queue: seq<Msg>,
    handler: Work,
    manager: Work,
    nextSerial: nat,
    // observations
    used: set<StoreID>,        // store IDs ever drawn
    created: set<StoreID>,     // stores created by this process
    cleaned: set<StoreID>,     // stores a cleanup ioctl was issued for
    done: set<StoreID>,        // stores whose Deleted message the handler has finished
    raced: set<StoreID>)       // stores whose allocatedSpace was loaded by one side while the other was mid-add

  datatype ManagerOp =
    | NewStore(id: StoreID) | StartWatcher | StartFails | StartAbandoned
    | AllocFails | InitialLoad(size: nat) | InitialStore
    | Cleanup(id: StoreID) | DeleteStore(id: StoreID)
    | ManagerDB(file: FileID)

  datatype WatcherOp =
    | HalfFill(size: nat) | HalfFillStore
    | Report(count: nat, fatal: bool)   // a failed allocation, an overflow (two messages), or a fatal read error
    | BadAck
    | Terminate(removed: bool)
    | Send | Sent

  datatype HandlerOp = Receive | HandlerDB(file: FileID)

  datatype Event = M(m: ManagerOp) | W(store: StoreID, w: WatcherOp) | H(h: HandlerOp)

  const CHANNEL_CAPACITY := 50

  // ---------------------------------------------------------------- steps

  function FilesOf(files: map<FileID, FileRow>, s: StoreID): map<FileID, nat> {
    map f | f in files && files[f].store == s :: files[f].size
  }

  /** One database call of a recording or deleting worker. `file` picks the row a removal
      loop deletes next. */
  function DBStep(st: State, w: Work, file: FileID): (State, Work) {
    match w
    case Recording(s, f, size, Fetch) =>
      if s in st.stores then (st, Recording(s, f, size, InsertFile(st.stores[s]))) else (st, Idle)
    case Recording(s, f, size, InsertFile(copy)) =>
      if f in st.files then (st, Idle)
      else (st.(files := st.files[f := FileRow(s, size)]), Recording(s, f, size, UpdateRow(copy)))
    case Recording(s, f, size, UpdateRow(copy)) =>
      (if s in st.stores then st.(stores := st.stores[s := copy + size]) else st, Idle)
    case Listing(s) => (st, Removing(s, FilesOf(st.files, s).Keys))
    case Removing(s, todo) =>
      if todo == {} then (st, Dropping(s))
      else if file in todo then (st.(files := st.files - {file}), Removing(s, todo - {file}))
      else (st, w)
    case Dropping(s) => (st.(stores := st.stores - {s}), Idle)
    case _ => (st, w)
  }

  predicate MidAdd(st: State, s: StoreID) { st.manager.Adding? && st.manager.store == s }

  predicate Growth(st: State, s: StoreID) { s in st.watchers && st.watchers[s].Growing? }

  function ManagerStep(st: State, op: ManagerOp): State {
    match op
    case NewStore(s) =>
      if st.manager.Idle? && s !in st.used then
        st.(stores := st.stores[s := 0], used := st.used + {s}, created := st.created + {s}, manager := Starting(s))
      else st
    case StartWatcher =>
      if st.manager.Starting? then
        var s := st.manager.store;
        st.(watchers := st.watchers[s := Reading], space := st.space[s := 0], manager := Allocating(s))
      else st
    case StartFails =>
      if st.manager.Starting? then st.(stores := st.stores - {st.manager.store}, manager := Idle) else st
    case StartAbandoned =>
      if st.manager.Starting? then st.(manager := Idle) else st
    case AllocFails =>
      if st.manager.Allocating? then st.(manager := Idle) else st
    case InitialLoad(size) =>
      if st.manager.Allocating? && size > 0 && st.manager.store in st.space then
        var s := st.manager.store;
        st.(manager := Adding(s, st.space[s], FileID(s, st.nextSerial), size),
            nextSerial := st.nextSerial + 1,
            raced := if Growth(st, s) then st.raced + {s} else st.raced)
      else st
    case InitialStore =>
      if st.manager.Adding? then
        var m := st.manager;
        st.(space := st.space[m.store := m.copy + m.size],
            manager := Recording(m.store, m.file, m.size, Fetch))
      else st
    case Cleanup(s) =>
      if st.manager.Idle? && s in st.used then st.(cleaned := st.cleaned + {s}) else st
    case DeleteStore(s) =>
      if st.manager.Idle? && s in st.used then st.(cleaned := st.cleaned + {s}, manager := Listing(s)) else st
    case ManagerDB(file) =>
      var (t, w) := DBStep(st, st.manager, file);
      t.(manager := w)
  }

  function Tell(st: State, s: StoreID, w: Watcher): State {
    st.(watchers := st.watchers[s := w])
  }

  function WatcherStep(st: State, s: StoreID, op: WatcherOp): State {
    if s !in st.watchers || s !in st.space then st
    else
      match (st.watchers[s], op)
      case (Reading, HalfFill(size)) =>
        if size == 0 then st
        else Tell(st, s, Growing(st.space[s], FileID(s, st.nextSerial), size)).(
               nextSerial := st.nextSerial + 1,
               raced := if MidAdd(st, s) then st.raced + {s} else st.raced)
      case (Growing(copy, file, size), HalfFillStore) =>
        Tell(st, s, Sending([AddFile(s, file, size)], false)).(space := st.space[s := copy + size])
      case (Reading, Report(count, fatal)) => Tell(st, s, Sending(seq(count, i => Other(s)), fatal))
      case (Reading, BadAck) => Tell(st, s, Exited)
      case (Reading, Terminate(removed)) =>
        if s !in st.cleaned then st
        else Tell(st, s, Sending([if removed then Deleted(s) else Other(s)], true))
      case (Sending(msgs, last), Send) =>
        if msgs == [] || |st.queue| >= CHANNEL_CAPACITY then st
        else Tell(st, s, Sending(msgs[1..], last)).(queue := st.queue + [msgs[0]])
      case (Sending(msgs, last), Sent) =>
        if msgs == [] then Tell(st, s, if last then Exited else Reading) else st
      case _ => st
  }

  function HandlerStep(st: State, op: HandlerOp): State {
    match op
    case Receive =>
      if st.handler.Idle? && st.queue != [] then
        st.(queue := st.queue[1..],
            handler := match st.queue[0]
                       case AddFile(s, f, size) => Recording(s, f, size, Fetch)
                       case Deleted(s) => Listing(s)
                       case Other(_) => Idle)
      else st
    case HandlerDB(file) =>
      var (t, w) := DBStep(st, st.handler, file);
      t.(handler := w, done := if st.handler.Dropping? then st.done + {st.handler.store} else st.done)
  }

  function Step(st: State, e: Event): State {
    match e
    case M(op) => ManagerStep(st, op)
    case W(s, op) => WatcherStep(st, s, op)
    case H(op) => HandlerStep(st, op)
  }

  function Run(st: State, events: seq<Event>): State {
    Machines.Run(Step, st, events)
  }

  lemma RunSnoc(st: State, events: seq<Event>, e: Event)
    ensures Run(st, events + [e]) == Step(Run(st, events), e)
  {
    Machines.RunSnoc(Step, st, events, e);
  }

  lemma RunLast(st: State, events: seq<Event>)
    requires events != []
    ensures Run(st, events) == Step(Run(st, events[..|events| - 1]), events[|events| - 1])
  {
    Machines.RunLast(Step, st, events);
  }

  /** Start-up: whatever rows survive from before have a fresh watcher each
      (worker/manager/initialization.go:137-171). */
  ghost predicate Init(st: State) {
    && (forall f | f in st.files :: f.origin == st.files[f].store && f.origin in st.used && f.serial < st.nextSerial)
    && st.watchers == (map s | s in st.stores :: Reading)
    && st.space == (map s | s in st.stores :: 0)
    && st.stores.Keys <= st.used
    && st.queue == [] && st.handler == Idle && st.manager == Idle
    && st.created == st.cleaned == st.done == st.raced == {}
  }

  // ---------------------------------------------------------------- messages of one store

  function Mine(q: seq<Msg>, s: StoreID): seq<Msg> {
    if q == [] then [] else (if q[0].store == s then [q[0]] else []) + Mine(q[1..], s)
  }

  lemma {:induction false} MineConcat(p: seq<Msg>, q: seq<Msg>, s: StoreID)
    ensures Mine(p + q, s) == Mine(p, s) + Mine(q, s)
  {
    if p == [] {
      assert p + q == q;
    } else {
      MineConcat(p[1..], q, s);
      var own := if p[0].store == s then [p[0]] else [];
      assert (p + q)[0] == p[0] && (p + q)[1..] == p[1..] + q;
      assert own + (Mine(p[1..], s) + Mine(q, s)) == (own + Mine(p[1..], s)) + Mine(q, s);
    }
  }

  lemma MineSnoc(q: seq<Msg>, m: Msg, s: StoreID)
    ensures Mine(q + [m], s) == Mine(q, s) + (if m.store == s then [m] else [])
  {
    MineConcat(q, [m], s);
    assert Mine([m][1..], s) == [];
  }

  function Unsent(st: State, s: StoreID): seq<Msg> {
    if s in st.watchers && st.watchers[s].Sending? then st.watchers[s].msgs else []
  }

  /** Everything the watcher of `s` has said and the handler has not yet picked up. */
  function Stream(st: State, s: StoreID): seq<Msg> { Mine(st.queue, s) + Unsent(st, s) }

  // ---------------------------------------------------------------- deletion is final: the invariant

  predicate Stopped(st: State, s: StoreID) {
    s in st.watchers && (st.watchers[s].Exited? || (st.watchers[s].Sending? && st.watchers[s].last))
  }

  predicate Deleting(w: Work, s: StoreID) {
    (w.Listing? || w.Removing? || w.Dropping?) && w.store == s
  }

  predicate Creating(w: Work, s: StoreID) {
    (w.Starting? || w.Allocating? || w.Adding? || w.Recording?) && w.store == s
  }

  ghost predicate NoFiles(st: State, s: StoreID) {
    forall f | f in st.files :: st.files[f].store != s
  }

  /** A worker names only files of its own store. */
  ghost predicate WorkOk(w: Work, s: StoreID) {
    && (w.Recording? && w.store == s ==> w.file.origin == s)
    && (w.Adding? && w.store == s ==> w.file.origin == s)
    && (w.Removing? && w.store == s ==> forall f | f in w.todo :: f.origin == s)
  }

  ghost predicate MsgOk(m: Msg, s: StoreID) {
    m.store == s && (m.AddFile? ==> m.file.origin == s)
  }

  ghost predicate LastOnly(all: seq<Msg>) {
    forall i | 0 <= i < |all| - 1 :: !all[i].Deleted?
  }

  predicate EndsDeleted(all: seq<Msg>) { all != [] && all[|all| - 1].Deleted? }

  lemma LastOnlyPop(m: Msg, rest: seq<Msg>)
    requires LastOnly([m] + rest)
    ensures LastOnly(rest)
    ensures m.Deleted? ==> rest == []
    ensures EndsDeleted([m] + rest) <==> m.Deleted? || EndsDeleted(rest)
  {
    var all := [m] + rest;
    assert forall i | 0 <= i < |rest| :: rest[i] == all[i + 1];
    assert all[0] == m;
  }

  lemma LastOnlyPush(all: seq<Msg>, more: seq<Msg>)
    requires LastOnly(all) && !EndsDeleted(all) && LastOnly(more)
    ensures LastOnly(all + more)
    ensures EndsDeleted(all + more) <==> EndsDeleted(more)
  {
  }

  /** Names: every message, worker and row of `s` speaks of files allocated for `s`. */
  ghost predicate Names(st: State, s: StoreID) {
    && (forall m | m in Stream(st, s) :: MsgOk(m, s))
    && (forall m | m in Unsent(st, s) :: MsgOk(m, s))
    && (forall f | f in st.files && st.files[f].store == s :: f.origin == s)
    && WorkOk(st.handler, s) && WorkOk(st.manager, s)
    && (Growth(st, s) ==> st.watchers[s].file.origin == s)
    && (s in st.watchers || s in st.cleaned || s in st.stores || Creating(st.manager, s) || !NoFiles(st, s) ==>
          s in st.used)
    && (s in st.watchers <==> s in st.space)
    && (Stream(st, s) != [] ==> s in st.watchers)
  }

  /** Phases: the manager creates a store before it ever cleans it up, and Deleted is the
      last thing a stopped watcher says. */
  ghost predicate Phases(st: State, s: StoreID) {
    var all := Stream(st, s);
    && (Creating(st.manager, s) ==> s !in st.cleaned)
    && (st.manager.Starting? && st.manager.store == s ==> s !in st.watchers)
    && (Creating(st.manager, s) && !st.manager.Starting? ==> s in st.watchers)
    && (Deleting(st.manager, s) ==> s in st.cleaned)
    && !(st.handler.Starting? || st.handler.Allocating? || st.handler.Adding?)
    && LastOnly(all)
    && (EndsDeleted(all) || Deleting(st.handler, s) || s in st.done ==> s in st.cleaned && Stopped(st, s))
    && (Deleting(st.handler, s) || s in st.done ==> all == [])
    && (Creating(st.handler, s) ==> s !in st.done && s in st.used && s in st.watchers)
  }

  /** Gone: once the handler acts on Deleted, the rows of `s` only disappear. */
  ghost predicate Gone(st: State, s: StoreID) {
    && (st.handler.Removing? && st.handler.store == s ==>
          forall f | f in st.files && st.files[f].store == s :: f in st.handler.todo)
    && (st.handler.Dropping? && st.handler.store == s ==> NoFiles(st, s))
    && (s in st.done ==> NoFiles(st, s) && s !in st.stores)
  }

  ghost predicate FinalInv(st: State, s: StoreID) {
    Names(st, s) && Phases(st, s) && Gone(st, s)
  }

  lemma InitFinal(st: State, s: StoreID)
    requires Init(st)
    ensures FinalInv(st, s)
  {
  }

  /** Nothing that the invariant of `s` looks at has changed, save the manager's work. */
  ghost predicate SameFor(st: State, t: State, s: StoreID) {
    && t.queue == st.queue && t.handler == st.handler && t.done == st.done && t.files == st.files
    && st.used <= t.used
    && (s in t.watchers <==> s in st.watchers) && (s in st.watchers ==> t.watchers[s] == st.watchers[s])
    && (s in t.space <==> s in st.space)
    && (s in t.stores ==> s in st.stores || (s in t.used && s !in st.done))
  }

  /** The manager's side of the invariant. */
  ghost predicate ManagerOk(t: State, s: StoreID) {
    && WorkOk(t.manager, s)
    && (s in t.cleaned ==> s in t.used)
    && (Creating(t.manager, s) ==> s in t.used && s !in t.cleaned && (s in t.watchers <==> !t.manager.Starting?))
    && (Deleting(t.manager, s) ==> s in t.cleaned)
  }

  lemma FinalFrame(st: State, t: State, s: StoreID)
    requires FinalInv(st, s) && SameFor(st, t, s) && ManagerOk(t, s)
    requires s in st.cleaned ==> s in t.cleaned
    ensures FinalInv(t, s)
  {
    assert Unsent(t, s) == Unsent(st, s) && Stream(t, s) == Stream(st, s);
    assert Names(t, s);
    assert Stopped(t, s) == Stopped(st, s);
  }

  lemma FinalManagerOk(st: State, s: StoreID)
    requires FinalInv(st, s)
    ensures ManagerOk(st, s)
  {
  }

  lemma ManagerFinal(st: State, op: ManagerOp, s: StoreID)
    requires FinalInv(st, s)
    requires !op.StartWatcher? && !op.ManagerDB?
    ensures FinalInv(ManagerStep(st, op), s)
  {
    var t := ManagerStep(st, op);
    FinalManagerOk(st, s);
    ManagerFrame(st, op, s);
    FinalFrame(st, t, s);
  }

  lemma ManagerFrame(st: State, op: ManagerOp, s: StoreID)
    requires ManagerOk(st, s) && (s in st.done ==> s in st.used) && (s in st.watchers <==> s in st.space)
    requires s in st.watchers ==> s in st.used
    requires !op.StartWatcher? && !op.ManagerDB?
    ensures SameFor(st, ManagerStep(st, op), s) && ManagerOk(ManagerStep(st, op), s)
  {
    ManagerFrameSame(st, op, s);
    ManagerFrameOk(st, op, s);
  }

  lemma ManagerFrameSame(st: State, op: ManagerOp, s: StoreID)
    requires (s in st.done ==> s in st.used) && (s in st.watchers <==> s in st.space)
    requires Creating(st.manager, s) ==> (s in st.watchers <==> !st.manager.Starting?)
    requires !op.StartWatcher? && !op.ManagerDB?
    ensures SameFor(st, ManagerStep(st, op), s)
  {
  }

  lemma ManagerFrameOk(st: State, op: ManagerOp, s: StoreID)
    requires ManagerOk(st, s) && (s in st.watchers ==> s in st.used)
    requires !op.StartWatcher? && !op.ManagerDB?
    ensures ManagerOk(ManagerStep(st, op), s)
  {
  }

  lemma StartWatcherFinal(st: State, s: StoreID)
    requires FinalInv(st, s)
    ensures FinalInv(ManagerStep(st, StartWatcher), s)
  {
    var t := ManagerStep(st, StartWatcher);
    if st.manager.Starting? && st.manager.store == s {
      assert Unsent(t, s) == Unsent(st, s) && Stream(t, s) == Stream(st, s);
    } else {
      FinalManagerOk(st, s);
      FinalFrame(st, t, s);
    }
  }

  /** What a database call can do to the rows of `s`: only the insert of a recording for
      `s` adds one, and nothing but NewStore adds a store row. */
  lemma DBStepRows(st: State, w: Work, file: FileID, s: StoreID)
    ensures var (t, v) := DBStep(st, w, file);
            && (s in t.stores ==> s in st.stores)
            && (forall f | f in t.files ::
                  (f in st.files && st.files[f] == t.files[f]) ||
                  (w.Recording? && w.phase.InsertFile? && f == w.file && t.files[f].store == w.store))
            && t == st.(stores := t.stores, files := t.files)
            && (Creating(v, s) ==> Creating(w, s))
            && (Deleting(v, s) ==> Deleting(w, s))
            && (v.Starting? || v.Allocating? || v.Adding? ==> v == w)
  {
  }

  lemma DBStepNames(st: State, w: Work, file: FileID, s: StoreID)
    requires forall f | f in st.files && st.files[f].store == s :: f.origin == s
    requires WorkOk(w, s)
    ensures var (t, v) := DBStep(st, w, file);
            && WorkOk(v, s)
            && (forall f | f in t.files && t.files[f].store == s :: f.origin == s)
  {
    DBStepRows(st, w, file, s);
  }

  /** What a recording is for: three calls without interference put in the file's row and
      raise the store's total by its size. */
  lemma RecordingAlone(st: State, s: StoreID, f: FileID, size: nat, any: FileID)
    requires s in st.stores && f !in st.files
    ensures var (st1, w1) := DBStep(st, Recording(s, f, size, Fetch), any);
            var (st2, w2) := DBStep(st1, w1, any);
            var (st3, w3) := DBStep(st2, w2, any);
            && w3 == Idle
            && st3 == st.(files := st.files[f := FileRow(s, size)], stores := st.stores[s := st.stores[s] + size])
  {
  }

  /** How the creation of a store can end before its watcher runs: with a running watcher and
      the row, without either, or with the row alone. */
  lemma StartOutcomes(st: State)
    requires st.manager.Starting? && st.manager.store in st.stores
    ensures var s := st.manager.store;
            var started, failed := Step(st, M(StartWatcher)), Step(st, M(StartFails));
            var abandoned := Step(st, M(StartAbandoned));
            && s in started.watchers && started.watchers[s] == Reading && s in started.space && started.space[s] == 0
            && started.stores == st.stores
            && failed.stores == st.stores - {s} && failed.watchers == st.watchers && failed.manager == Idle
            && abandoned == st.(manager := Idle)
  {
  }

  /** The same for the initial allocation: a failure leaves row and watcher; undisturbed, its
      size is added to allocatedSpace, and then recorded. A cleanup ioctl alone changes no row. */
  lemma ManagerOutcomes(st: State, s: StoreID, size: nat)
    ensures st.manager == Allocating(s) ==> Step(st, M(AllocFails)) == st.(manager := Idle)
    ensures st.manager == Allocating(s) && size > 0 && s in st.space ==>
              var file := FileID(s, st.nextSerial);
              var t := Step(Step(st, M(InitialLoad(size))), M(InitialStore));
              && t.manager == Recording(s, file, size, Fetch) && t.space == st.space[s := st.space[s] + size]
              && t.stores == st.stores && t.files == st.files && t.watchers == st.watchers
    ensures st.manager.Idle? && s in st.used ==> Step(st, M(Cleanup(s))) == st.(cleaned := st.cleaned + {s})
  {
  }

  lemma {:induction false} RemovingAlone(st: State, s: StoreID, todo: set<FileID>) returns (es: seq<Event>)
    requires st.manager == Removing(s, todo)
    ensures Run(st, es) == st.(files := st.files - todo, stores := st.stores - {s}, manager := Idle)
    decreases todo
  {
    if file :| file in todo {
      var e := M(ManagerDB(file));
      var t := Step(st, e);
      var rest := RemovingAlone(t, s, todo - {file});
      assert st.files - {file} - (todo - {file}) == st.files - todo;
      Machines.RunOne(Step, st, e);
      Machines.RunConcat(Step, st, [e], rest);
      es := [e] + rest;
    } else {
      var e := M(ManagerDB(FileID(s, 0)));
      assert st.files - {} == st.files;
      Machines.RunTwo(Step, st, [], e, e);
      assert [] + [e, e] == [e, e];
      es := [e, e];
    }
  }

  /** What a deletion is for: without interference it takes the store's row and those of its
      files, and nothing else. */
  lemma DeletingAlone(st: State, s: StoreID) returns (es: seq<Event>)
    requires st.manager.Idle? && s in st.used
    ensures Run(st, es) ==
            st.(cleaned := st.cleaned + {s}, stores := st.stores - {s},
                files := map f | f in st.files && st.files[f].store != s :: st.files[f])
  {
    var a := [M(DeleteStore(s)), M(ManagerDB(FileID(s, 0)))];
    Machines.RunTwo(Step, st, [], a[0], a[1]);
    assert [] + [a[0], a[1]] == a;
    var todo := FilesOf(st.files, s).Keys;
    var b := RemovingAlone(Run(st, a), s, todo);
    assert st.files - todo == map f | f in st.files && st.files[f].store != s :: st.files[f];
    Machines.RunConcat(Step, st, a, b);
    es := a + b;
  }

  lemma ManagerDBFinal(st: State, file: FileID, s: StoreID)
    requires FinalInv(st, s)
    ensures FinalInv(ManagerStep(st, ManagerDB(file)), s)
  {
    var t := ManagerStep(st, ManagerDB(file));
    DBStepRows(st, st.manager, file, s);
    DBStepNames(st, st.manager, file, s);
    assert Stream(t, s) == Stream(st, s) && Unsent(t, s) == Unsent(st, s);
    assert !NoFiles(t, s) ==> !NoFiles(st, s) || Creating(st.manager, s);
    assert Names(t, s);
    assert Phases(t, s);
    assert Gone(t, s);
  }

  lemma HandlerDBFinal(st: State, file: FileID, s: StoreID)
    requires FinalInv(st, s)
    ensures FinalInv(HandlerStep(st, HandlerDB(file)), s)
  {
    var t := HandlerStep(st, HandlerDB(file));
    DBStepRows(st, st.handler, file, s);
    DBStepNames(st, st.handler, file, s);
    assert Stream(t, s) == Stream(st, s) && Unsent(t, s) == Unsent(st, s);
    assert !NoFiles(t, s) ==> !NoFiles(st, s) || Creating(st.handler, s);
    assert Names(t, s);
    assert Phases(t, s);
    assert Gone(t, s);
  }

  lemma WatcherSpeaks(st: State, s: StoreID, msgs: seq<Msg>, last: bool)
    requires FinalInv(st, s) && s in st.watchers && !Stopped(st, s) && Unsent(st, s) == []
    requires forall m | m in msgs :: MsgOk(m, s)
    requires LastOnly(msgs) && (EndsDeleted(msgs) ==> last && s in st.cleaned)
    ensures FinalInv(Tell(st, s, Sending(msgs, last)), s)
  {
    var t := Tell(st, s, Sending(msgs, last));
    LastOnlyPush(Stream(st, s), msgs);
    assert Stream(t, s) == Stream(st, s) + msgs;
  }

  lemma WatcherFinal(st: State, op: WatcherOp, s: StoreID)
    requires FinalInv(st, s) && !op.Send?
    ensures FinalInv(WatcherStep(st, s, op), s)
  {
    if WatcherStep(st, s, op) != st {
      match op
      case HalfFillStore => GrowthFinal(st, s);
      case Report(count, fatal) => WatcherSpeaks(st, s, seq(count, i => Other(s)), fatal);
      case Terminate(removed) => WatcherSpeaks(st, s, [if removed then Deleted(s) else Other(s)], true);
      case _ => SilentFinal(st, op, s);
    }
  }

  lemma GrowthFinal(st: State, s: StoreID)
    requires FinalInv(st, s) && s in st.watchers && st.watchers[s].Growing?
    ensures FinalInv(WatcherStep(st, s, HalfFillStore), s)
  {
    var t := WatcherStep(st, s, HalfFillStore);
    var w := st.watchers[s];
    var u := Tell(st, s, Sending([AddFile(s, w.file, w.size)], false));
    WatcherSpeaks(st, s, [AddFile(s, w.file, w.size)], false);
    assert Stream(t, s) == Stream(u, s) && Unsent(t, s) == Unsent(u, s);
  }

  /** The watcher turns to something else without having anything to say. */
  lemma SilentFinal(st: State, op: WatcherOp, s: StoreID)
    requires FinalInv(st, s) && (op.HalfFill? || op.BadAck? || op.Sent?) && WatcherStep(st, s, op) != st
    ensures FinalInv(WatcherStep(st, s, op), s)
  {
    var t := WatcherStep(st, s, op);
    assert Unsent(t, s) == Unsent(st, s) == [] && Stream(t, s) == Stream(st, s);
  }

  lemma WatcherFrame(st: State, x: StoreID, op: WatcherOp, s: StoreID)
    requires ManagerOk(st, s) && x != s && !op.Send?
    ensures SameFor(st, WatcherStep(st, x, op), s) && ManagerOk(WatcherStep(st, x, op), s)
    ensures WatcherStep(st, x, op).cleaned == st.cleaned
  {
  }

  lemma WatcherOtherFinal(st: State, x: StoreID, op: WatcherOp, s: StoreID)
    requires FinalInv(st, s) && x != s && !op.Send?
    ensures FinalInv(WatcherStep(st, x, op), s)
  {
    FinalManagerOk(st, s);
    WatcherFrame(st, x, op, s);
    FinalFrame(st, WatcherStep(st, x, op), s);
  }

  lemma SendFinal(st: State, x: StoreID, s: StoreID)
    requires FinalInv(st, s) && FinalInv(st, x)
    ensures FinalInv(WatcherStep(st, x, Send), s)
  {
    var t := WatcherStep(st, x, Send);
    StreamKept(st, x, s);
    assert forall m | m in Unsent(t, s) :: m in Unsent(st, s);
  }

  lemma StreamKept(st: State, x: StoreID, s: StoreID)
    requires forall m | m in Unsent(st, x) :: m.store == x
    ensures Stream(WatcherStep(st, x, Send), s) == Stream(st, s)
  {
    var t := WatcherStep(st, x, Send);
    if t != st {
      var w := st.watchers[x];
      var m := w.msgs[0];
      assert m in Unsent(st, x);
      MineSnoc(st.queue, m, s);
      if x == s {
        Moved(Mine(st.queue, s), m, w.msgs);
      } else {
        assert Unsent(t, s) == Unsent(st, s);
      }
    }
  }

  lemma Moved(q: seq<Msg>, m: Msg, msgs: seq<Msg>)
    requires msgs != [] && m == msgs[0]
    ensures (q + [m]) + msgs[1..] == q + msgs
  {
    assert msgs == [m] + msgs[1..];
  }

  /** The message at the head of the channel leaves the stream of its own store. */
  lemma ReceiveStream(st: State, s: StoreID)
    requires st.handler.Idle? && st.queue != []
    ensures var t := HandlerStep(st, Receive);
            && Unsent(t, s) == Unsent(st, s)
            && Stream(st, s) == (if st.queue[0].store == s then [st.queue[0]] else []) + Stream(t, s)
  {
  }

  lemma ReceiveFinal(st: State, s: StoreID)
    requires FinalInv(st, s)
    ensures FinalInv(HandlerStep(st, Receive), s)
  {
    var t := HandlerStep(st, Receive);
    if st.handler.Idle? && st.queue != [] {
      var m := st.queue[0];
      ReceiveStream(st, s);
      if m.store == s {
        assert Stream(st, s) == [m] + Stream(t, s);
        assert m in Stream(st, s);
        LastOnlyPop(m, Stream(t, s));
      } else {
        assert Stream(st, s) == Stream(t, s);
      }
    }
  }

  lemma StepFinal(st: State, e: Event, s: StoreID)
    requires forall x :: FinalInv(st, x)
    ensures FinalInv(Step(st, e), s)
  {
    assert FinalInv(st, s);
    match e
    case M(op) =>
      match op {
        case ManagerDB(file) => ManagerDBFinal(st, file, s);
        case StartWatcher => StartWatcherFinal(st, s);
        case _ => ManagerFinal(st, op, s);
      }
    case W(x, op) =>
      assert FinalInv(st, x);
      if op.Send? {
        SendFinal(st, x, s);
      } else if x == s {
        WatcherFinal(st, op, s);
      } else {
        WatcherOtherFinal(st, x, op, s);
      }
    case H(op) =>
      if op.Receive? {
        ReceiveFinal(st, s);
      } else {
        HandlerDBFinal(st, op.file, s);
      }
  }

  lemma {:induction false} RunFinal(st: State, events: seq<Event>, s: StoreID)
    requires Init(st)
    ensures FinalInv(Run(st, events), s)
    decreases |events|
  {
    if events == [] {
      InitFinal(st, s);
    } else {
      var before := Run(st, events[..|events| - 1]);
      RunLast(st, events);
      forall x ensures FinalInv(before, x) {
        RunFinal(st, events[..|events| - 1], x);
      }
      StepFinal(before, events[|events| - 1], s);
    }
  }

  // ---------------------------------------------------------------- deletion is final: the promise

  lemma StepDone(st: State, e: Event)
    ensures st.done <= Step(st, e).done
  {
    match e
    case H(op) => DBStepRows(st, st.handler, if op.HandlerDB? then op.file else FileID("", 0), "");
    case M(op) => DBStepRows(st, st.manager, if op.ManagerDB? then op.file else FileID("", 0), "");
    case W(s, op) =>
  }

  lemma {:induction false} DoneForever(st: State, events: seq<Event>, more: seq<Event>, s: StoreID)
    requires s in Run(st, events).done
    ensures s in Run(st, events + more).done
    decreases |more|
  {
    if more == [] {
      assert events + more == events;
    } else {
      var n := |more| - 1;
      DoneForever(st, events, more[..n], s);
      StepDone(Run(st, events + more[..n]), more[n]);
      assert events + more == (events + more[..n]) + [more[n]];
      RunSnoc(st, events + more[..n], more[n]);
    }
  }

  /** Once the handler has finished a store's Deleted message, no row of that store exists,
      then or after any continuation of any run. */
  lemma DeletionIsFinal(st: State, events: seq<Event>, more: seq<Event>, s: StoreID)
    requires Init(st)
    requires s in Run(st, events).done
    ensures s !in Run(st, events + more).stores && NoFiles(Run(st, events + more), s)
  {
    DoneForever(st, events, more, s);
    RunFinal(st, events + more, s);
  }

  /** What a watcher says, over every run: Deleted at most once and last, and only after a
      cleanup ioctl. */
  lemma DeletedIsLast(st: State, events: seq<Event>, s: StoreID)
    requires Init(st)
    ensures var t := Run(st, events);
            && LastOnly(Stream(t, s))
            && (EndsDeleted(Stream(t, s)) || Deleting(t.handler, s) || s in t.done ==> s in t.cleaned && Stopped(t, s))
            && (Deleting(t.handler, s) || s in t.done ==> Stream(t, s) == [])
  {
    RunFinal(st, events, s);
  }

  // ---------------------------------------------------------------- space is conserved: the invariant

  datatype Entry = Entry(file: FileID, size: nat)

  function Adds(all: seq<Msg>): seq<Entry> {
    if all == [] then []
    else (if all[0].AddFile? then [Entry(all[0].file, all[0].size)] else []) + Adds(all[1..])
  }

  lemma {:induction false} AddsConcat(p: seq<Msg>, q: seq<Msg>)
    ensures Adds(p + q) == Adds(p) + Adds(q)
  {
    if p == [] {
      assert p + q == q;
    } else {
      AddsConcat(p[1..], q);
      var own := if p[0].AddFile? then [Entry(p[0].file, p[0].size)] else [];
      assert (p + q)[0] == p[0] && (p + q)[1..] == p[1..] + q;
      assert own + (Adds(p[1..]) + Adds(q)) == (own + Adds(p[1..])) + Adds(q);
    }
  }

  lemma {:induction false} AddsNone(p: seq<Msg>)
    requires forall m | m in p :: !m.AddFile?
    ensures Adds(p) == []
  {
    if p != [] {
      AddsNone(p[1..]);
    }
  }

  function Sum(entries: seq<Entry>): nat {
    if entries == [] then 0 else entries[0].size + Sum(entries[1..])
  }

  lemma {:induction false} SumConcat(p: seq<Entry>, q: seq<Entry>)
    ensures Sum(p + q) == Sum(p) + Sum(q)
  {
    if p == [] {
      assert p + q == q;
    } else {
      SumConcat(p[1..], q);
      assert (p + q)[1..] == p[1..] + q;
    }
  }

  /** The file a worker has allocated or picked up but not yet inserted. */
  function Head(w: Work, s: StoreID): seq<Entry> {
    if (w.Adding? || (w.Recording? && !w.phase.UpdateRow?)) && w.store == s then [Entry(w.file, w.size)] else []
  }

  function Grown(st: State, s: StoreID): seq<Entry> {
    if Growth(st, s) then [Entry(st.watchers[s].file, st.watchers[s].size)] else []
  }

  /** Every file of `s` that has no row yet, in the order in which it will get one: picked
      up by the handler, sent or queued, being allocated by the watcher, and the initial
      one in the manager's hands. */
  function Known(st: State, s: StoreID): seq<Entry> {
    Head(st.handler, s) + Adds(Stream(st, s)) + Grown(st, s) + Head(st.manager, s)
  }

  /** Everything handed out to `s`, including what is between load and store. */
  ghost function Accounted(st: State, s: StoreID): nat {
    Total(FilesOf(st.files, s)) + Sum(Known(st, s))
  }

  /** Created by this process, running, and not being deleted. */
  predicate Live(st: State, s: StoreID) {
    s in st.created && s !in st.cleaned && s in st.watchers && s in st.space
  }

  ghost predicate Drawn(entries: seq<Entry>, next: nat) {
    forall i | 0 <= i < |entries| :: entries[i].file.serial < next
  }

  ghost predicate Distinct(entries: seq<Entry>, files: map<FileID, FileRow>) {
    && (forall i | 0 <= i < |entries| :: entries[i].file !in files)
    && (forall i, j | 0 <= i < j < |entries| :: entries[i].file != entries[j].file)
  }

  function GrowthSize(st: State, s: StoreID): nat { if Growth(st, s) then st.watchers[s].size else 0 }

  function MidAddSize(st: State, s: StoreID): nat { if MidAdd(st, s) then st.manager.size else 0 }

  /** allocatedSpace against the account. Without a race they agree; after one, the side
      that stores last writes a stale sum, and the difference never goes away. */
  ghost predicate Balance(st: State, s: StoreID, acc: int)
    requires s in st.space
  {
    var actual := acc - GrowthSize(st, s) - MidAddSize(st, s);
    && (Growth(st, s) ==> st.watchers[s].size > 0)
    && (MidAdd(st, s) ==> st.manager.size > 0)
    && if s !in st.raced then
         && st.space[s] == actual
         && (Growth(st, s) ==> st.watchers[s].copy == st.space[s])
         && (MidAdd(st, s) ==> st.manager.copy == st.space[s])
         && !(Growth(st, s) && MidAdd(st, s))
       else if MidAdd(st, s) then
         && st.space[s] == actual
         && (Growth(st, s) ==> st.watchers[s].copy == st.space[s])
         && (st.manager.copy < st.space[s] || (Growth(st, s) && st.manager.copy == st.space[s]))
       else if Growth(st, s) then st.watchers[s].copy < actual && st.space[s] <= actual
       else st.space[s] < actual
  }

  ghost predicate SpaceInv(st: State, s: StoreID) {
    && (forall f | f in st.files :: f.serial < st.nextSerial)
    && (st.manager.Starting? && st.manager.store == s ==>
          s in st.stores && s in st.created && NoFiles(st, s) && Known(st, s) == [])
    && (s in st.raced ==>
          s in st.watchers && !((st.manager.Allocating? || st.manager.Starting?) && st.manager.store == s))
    && (s in st.created ==> s in st.used)
    && Drawn(Known(st, s), st.nextSerial)
    && (Live(st, s) ==>
          && s in st.stores
          && Distinct(Known(st, s), st.files)
          && Balance(st, s, Accounted(st, s)))
  }

  ghost predicate OriginsOk(st: State) {
    forall f | f in st.files :: f.origin == st.files[f].store
  }

  /** Nothing that the account of `s` looks at has changed. */
  ghost predicate SameAccount(st: State, t: State, s: StoreID) {
    && Head(t.handler, s) == Head(st.handler, s)
    && Adds(Stream(t, s)) == Adds(Stream(st, s))
    && (s in t.watchers <==> s in st.watchers) && (s in st.watchers && s in t.watchers ==>
         t.watchers[s] == st.watchers[s] || (!t.watchers[s].Growing? && !st.watchers[s].Growing?))
    && (t.manager == st.manager || (!Creating(t.manager, s) && !Creating(st.manager, s)))
    && (s in t.space <==> s in st.space) && (s in st.space ==> t.space[s] == st.space[s])
    && (s in t.raced <==> s in st.raced) && (s in t.created <==> s in st.created)
    && (s in t.cleaned <==> s in st.cleaned) && (s in t.stores <==> s in st.stores)
    && st.used <= t.used && st.nextSerial <= t.nextSerial
  }

  ghost predicate SameFiles(st: State, t: State, s: StoreID) {
    && FilesOf(t.files, s) == FilesOf(st.files, s)
    && (forall f | f in t.files :: f.serial < t.nextSerial)
    && (forall f | f in t.files && f !in st.files :: f.origin != s)
    && (NoFiles(st, s) ==> NoFiles(t, s))
  }

  lemma KnownOrigins(st: State, s: StoreID)
    requires Names(st, s)
    ensures forall i | 0 <= i < |Known(st, s)| :: Known(st, s)[i].file.origin == s
  {
    AddsOrigins(Stream(st, s), s);
  }

  lemma {:induction false} AddsOrigins(all: seq<Msg>, s: StoreID)
    requires forall m | m in all :: MsgOk(m, s)
    ensures forall i | 0 <= i < |Adds(all)| :: Adds(all)[i].file.origin == s
  {
    if all != [] {
      assert all[0] in all;
      AddsOrigins(all[1..], s);
    }
  }

  /** allocatedSpace and whoever is adding to it are as before. */
  ghost predicate SameCounter(st: State, t: State, s: StoreID) {
    && (s in t.watchers <==> s in st.watchers) && (s in st.watchers && s in t.watchers ==>
         t.watchers[s] == st.watchers[s] || (!t.watchers[s].Growing? && !st.watchers[s].Growing?))
    && (t.manager == st.manager ||
        !(t.manager.Starting? || t.manager.Allocating? || t.manager.Adding? || st.manager.Adding?) ||
        (!Creating(t.manager, s) && !Creating(st.manager, s)))
    && (s in t.space <==> s in st.space) && (s in st.space ==> t.space[s] == st.space[s])
    && (s in t.raced <==> s in st.raced) && (s in t.created <==> s in st.created)
    && (s in t.cleaned <==> s in st.cleaned)
    && st.used <= t.used
  }

  /** A step that leaves the counter alone keeps the balance if it keeps the account. */
  lemma CounterFrame(st: State, t: State, s: StoreID)
    requires SpaceInv(st, s) && SameCounter(st, t, s)
    requires forall f | f in t.files :: f.serial < t.nextSerial
    requires Drawn(Known(t, s), t.nextSerial)
    requires t.manager.Starting? && t.manager.store == s ==> s in t.stores && NoFiles(t, s) && Known(t, s) == []
    requires Live(st, s) ==> s in t.stores && Distinct(Known(t, s), t.files) && Accounted(t, s) == Accounted(st, s)
    ensures SpaceInv(t, s)
  {
    if Live(t, s) {
      assert Growth(t, s) == Growth(st, s) && MidAdd(t, s) == MidAdd(st, s);
    }
  }

  /** Nor does a step that moves no file at all. */
  lemma QuietFrame(st: State, t: State, s: StoreID)
    requires SpaceInv(st, s) && SameCounter(st, t, s)
    requires t.files == st.files && t.nextSerial == st.nextSerial && Known(t, s) == Known(st, s)
    requires s in t.stores <==> s in st.stores
    ensures SpaceInv(t, s)
  {
    CounterFrame(st, t, s);
  }

  lemma SpaceFrame(st: State, t: State, s: StoreID)
    requires SpaceInv(st, s) && Names(st, s) && SameAccount(st, t, s) && SameFiles(st, t, s)
    ensures SpaceInv(t, s)
  {
    KnownOrigins(st, s);
    assert Known(t, s) == Known(st, s);
    CounterFrame(st, t, s);
  }

  lemma InitSpace(st: State, s: StoreID)
    requires Init(st)
    ensures SpaceInv(st, s)
  {
  }

  // -- manager

  lemma NewStoreSpace(st: State, id: StoreID, s: StoreID)
    requires SpaceInv(st, s) && FinalInv(st, s)
    ensures SpaceInv(ManagerStep(st, NewStore(id)), s)
  {
    var t := ManagerStep(st, NewStore(id));
    if t != st && id == s {
      assert Stream(st, s) == [] && Stream(t, s) == [];
      assert Known(t, s) == [];
    } else {
      SpaceFrame(st, t, s);
    }
  }

  lemma CleanupSpace(st: State, op: ManagerOp, s: StoreID)
    requires SpaceInv(st, s) && Names(st, s)
    requires op.Cleanup? || op.DeleteStore?
    ensures SpaceInv(ManagerStep(st, op), s)
  {
    var t := ManagerStep(st, op);
    if t != st {
      if op.id == s {
        assert Stream(t, s) == Stream(st, s);
        assert Known(t, s) == Known(st, s);
      } else {
        SpaceFrame(st, t, s);
      }
    }
  }

  lemma GiveUpSpace(st: State, op: ManagerOp, s: StoreID)
    requires SpaceInv(st, s) && Names(st, s)
    requires st.manager.Starting? && st.manager.store == s ==> s !in st.watchers
    requires op.StartFails? || op.StartAbandoned? || op.AllocFails?
    ensures SpaceInv(ManagerStep(st, op), s)
  {
    var t := ManagerStep(st, op);
    if t != st {
      if Creating(st.manager, s) {
        assert Stream(t, s) == Stream(st, s);
        assert Known(t, s) == Known(st, s);
      } else {
        SpaceFrame(st, t, s);
      }
    }
  }

  lemma StartWatcherSpace(st: State, s: StoreID)
    requires SpaceInv(st, s) && FinalInv(st, s)
    ensures SpaceInv(ManagerStep(st, StartWatcher), s)
  {
    if st.manager.Starting? && st.manager.store == s {
      StartOwnSpace(st, s);
    } else {
      StartOtherSame(st, s);
      SpaceFrame(st, ManagerStep(st, StartWatcher), s);
    }
  }

  /** A new store's watcher starts with nothing on the account. */
  lemma StartOwnSpace(st: State, s: StoreID)
    requires SpaceInv(st, s) && FinalInv(st, s) && st.manager.Starting? && st.manager.store == s
    ensures SpaceInv(ManagerStep(st, StartWatcher), s)
  {
    var t := ManagerStep(st, StartWatcher);
    assert Stream(t, s) == Stream(st, s) == [];
    assert Known(t, s) == [];
    assert FilesOf(t.files, s) == map[];
  }

  lemma StartOtherSame(st: State, s: StoreID)
    requires !(st.manager.Starting? && st.manager.store == s) && forall f | f in st.files :: f.serial < st.nextSerial
    ensures SameAccount(st, ManagerStep(st, StartWatcher), s) && SameFiles(st, ManagerStep(st, StartWatcher), s)
  {
    var t := ManagerStep(st, StartWatcher);
    assert t.files == st.files && Unsent(t, s) == Unsent(st, s);
  }

  lemma InitialLoadSpace(st: State, size: nat, s: StoreID)
    requires SpaceInv(st, s) && Names(st, s)
    ensures SpaceInv(ManagerStep(st, InitialLoad(size)), s)
  {
    var t := ManagerStep(st, InitialLoad(size));
    if t != st {
      if st.manager.store == s {
        InitialLoadOwn(st, size, s);
      } else {
        SpaceFrame(st, t, s);
      }
    }
  }

  lemma InitialLoadOwn(st: State, size: nat, s: StoreID)
    requires SpaceInv(st, s) && Names(st, s)
    requires size > 0 && st.manager.Allocating? && st.manager.store == s && s in st.space
    ensures SpaceInv(ManagerStep(st, InitialLoad(size)), s)
  {
    var t := ManagerStep(st, InitialLoad(size));
    var e := Entry(FileID(s, st.nextSerial), size);
    InitialLoadKnown(st, size, s);
    SumConcat(Known(st, s), [e]);
    assert Sum([e]) == size;
    DistinctSnoc(Known(st, s), e, st.files, st.nextSerial);
  }

  lemma DistinctSnoc(p: seq<Entry>, e: Entry, files: map<FileID, FileRow>, next: nat)
    requires Drawn(p, next) && e.file.serial == next && forall f | f in files :: f.serial < next
    ensures Drawn(p + [e], next + 1)
    ensures Distinct(p, files) ==> Distinct(p + [e], files)
  {
  }

  lemma InitialLoadKnown(st: State, size: nat, s: StoreID)
    requires size > 0 && st.manager.Allocating? && st.manager.store == s && s in st.space
    ensures Known(ManagerStep(st, InitialLoad(size)), s) == Known(st, s) + [Entry(FileID(s, st.nextSerial), size)]
  {
    var t := ManagerStep(st, InitialLoad(size));
    assert Unsent(t, s) == Unsent(st, s) && Stream(t, s) == Stream(st, s);
  }

  lemma InitialStoreSpace(st: State, s: StoreID)
    requires SpaceInv(st, s) && Names(st, s)
    ensures SpaceInv(ManagerStep(st, InitialStore), s)
  {
    var t := ManagerStep(st, InitialStore);
    if t != st {
      if st.manager.store == s {
        assert Stream(t, s) == Stream(st, s);
        assert Known(t, s) == Known(st, s);
        assert Accounted(t, s) == Accounted(st, s);
      } else {
        SpaceFrame(st, t, s);
      }
    }
  }

  // -- database calls

  lemma InsertOther(files: map<FileID, FileRow>, f: FileID, row: FileRow, s: StoreID)
    requires f !in files && row.store != s
    ensures FilesOf(files[f := row], s) == FilesOf(files, s)
  {
  }

  lemma RemoveOther(files: map<FileID, FileRow>, f: FileID, s: StoreID)
    requires forall g | g in files :: g.origin == files[g].store
    requires f.origin != s
    ensures FilesOf(files - {f}, s) == FilesOf(files, s)
  {
  }

  lemma DBOtherFiles(st: State, w: Work, file: FileID, s: StoreID)
    requires OriginsOk(st) && !(w.Recording? && w.store == s) && !Deleting(w, s)
    requires w.Recording? ==> w.file.origin == w.store
    requires w.Recording? && w.phase.InsertFile? ==> w.file.serial < st.nextSerial
    requires w.Removing? ==> forall f | f in w.todo :: f.origin == w.store
    requires forall f | f in st.files :: f.serial < st.nextSerial
    ensures SameFiles(st, DBStep(st, w, file).0, s)
    ensures s in DBStep(st, w, file).0.stores <==> s in st.stores
  {
    if w.Recording? && w.phase.InsertFile? && w.file !in st.files {
      InsertOther(st.files, w.file, FileRow(w.store, w.size), s);
    } else if w.Removing? && file in w.todo {
      RemoveOther(st.files, file, s);
    }
  }

  /** A recording inserts its row: the file moves from the account's waiting list to the
      table, wherever in the list it stood. */
  lemma InsertMoves(files: map<FileID, FileRow>, s: StoreID, before: seq<Entry>, e: Entry, after: seq<Entry>)
    requires Distinct(before + [e] + after, files)
    ensures var grown := files[e.file := FileRow(s, e.size)];
            && Distinct(before + after, grown)
            && Total(FilesOf(grown, s)) + Sum(before + after) == Total(FilesOf(files, s)) + Sum(before + [e] + after)
  {
    var all := before + [e] + after;
    var grown := files[e.file := FileRow(s, e.size)];
    assert all[|before|] == e;
    assert FilesOf(grown, s) == FilesOf(files, s)[e.file := e.size];
    TotalInsert(FilesOf(files, s), e.file, e.size);
    SumConcat(before + [e], after);
    SumConcat(before, [e]);
    SumConcat(before, after);
    assert Sum([e]) == e.size;
    var rest := before + after;
    forall i | 0 <= i < |rest| ensures rest[i].file !in grown {
      assert rest[i] == all[if i < |before| then i else i + 1];
    }
    forall i, j | 0 <= i < j < |rest| ensures rest[i].file != rest[j].file {
      assert rest[i] == all[if i < |before| then i else i + 1];
      assert rest[j] == all[if j < |before| then j else j + 1];
    }
  }

  /** What both invariants say about a worker's own store. */
  lemma WorkFacts(st: State, w: Work, x: StoreID)
    requires FinalInv(st, x) && SpaceInv(st, x) && (w == st.manager || w == st.handler)
    requires !w.Idle? && w.store == x
    ensures w.Recording? ==> w.file.origin == x
    ensures w.Recording? && w.phase.InsertFile? ==> w.file.serial < st.nextSerial
    ensures w.Removing? ==> forall f | f in w.todo :: f.origin == x
  {
    if w.Recording? && w.phase.InsertFile? {
      if w == st.handler {
        assert Known(st, x)[0] == Entry(w.file, w.size);
      } else {
        assert Known(st, x)[|Known(st, x)| - 1] == Entry(w.file, w.size);
      }
    }
  }

  lemma ManagerDBSpace(st: State, file: FileID, s: StoreID)
    requires SpaceInv(st, s) && FinalInv(st, s) && OriginsOk(st)
    requires !st.manager.Idle? ==> FinalInv(st, st.manager.store) && SpaceInv(st, st.manager.store)
    ensures SpaceInv(ManagerStep(st, ManagerDB(file)), s)
  {
    var w := st.manager;
    if !w.Idle? {
      WorkFacts(st, w, w.store);
      if w.store != s {
        ManagerDBOther(st, file, s);
      } else if w.Recording? && w.phase.InsertFile? {
        ManagerInserts(st, file, s);
      } else if w.Recording? {
        ManagerRecords(st, file, s);
      } else {
        ManagerDeletes(st, file, s);
      }
    }
  }

  lemma ManagerDBOther(st: State, file: FileID, s: StoreID)
    requires SpaceInv(st, s) && Names(st, s) && OriginsOk(st)
    requires !st.manager.Idle? && st.manager.store != s
    requires st.manager.Recording? ==> st.manager.file.origin == st.manager.store
    requires st.manager.Recording? && st.manager.phase.InsertFile? ==> st.manager.file.serial < st.nextSerial
    requires st.manager.Removing? ==> forall f | f in st.manager.todo :: f.origin == st.manager.store
    ensures SpaceInv(ManagerStep(st, ManagerDB(file)), s)
  {
    DBOtherFiles(st, st.manager, file, s);
    ManagerDBAccount(st, file, s);
    SpaceFrame(st, ManagerStep(st, ManagerDB(file)), s);
  }

  lemma ManagerDBAccount(st: State, file: FileID, s: StoreID)
    requires !st.manager.Idle? && st.manager.store != s
    requires SameFiles(st, DBStep(st, st.manager, file).0, s)
    requires s in DBStep(st, st.manager, file).0.stores <==> s in st.stores
    ensures SameAccount(st, ManagerStep(st, ManagerDB(file)), s) && SameFiles(st, ManagerStep(st, ManagerDB(file)), s)
  {
    var (u, w) := DBStep(st, st.manager, file);
    DBStepRows(st, st.manager, file, s);
    OnlyRows(st, u, w, s);
  }

  /** Rows and the manager's work are not part of a stream. */
  lemma OnlyRows(st: State, u: State, w: Work, s: StoreID)
    requires u == st.(stores := u.stores, files := u.files)
    ensures Stream(u.(manager := w), s) == Stream(st, s)
  {
  }

  lemma ManagerDeletes(st: State, file: FileID, s: StoreID)
    requires SpaceInv(st, s) && FinalInv(st, s)
    requires !st.manager.Recording? && !st.manager.Idle? && st.manager.store == s
    ensures SpaceInv(ManagerStep(st, ManagerDB(file)), s)
  {
    var t := ManagerStep(st, ManagerDB(file));
    DBStepRows(st, st.manager, file, s);
    if Deleting(st.manager, s) {
      OthersSame(st, t, s);
      assert Head(t.manager, s) == [] == Head(st.manager, s);
    }
  }

  /** Everything but the manager's own file. */
  function Others(st: State, s: StoreID): seq<Entry> {
    Head(st.handler, s) + Adds(Stream(st, s)) + Grown(st, s)
  }

  lemma OthersSame(st: State, t: State, s: StoreID)
    requires t.handler == st.handler && t.queue == st.queue && t.watchers == st.watchers
    ensures Others(t, s) == Others(st, s)
  {
  }

  /** A fetch or an update moves no file, unless the row is gone and the recording gives up. */
  lemma ManagerRecordsQuietly(st: State, file: FileID, s: StoreID)
    requires st.manager.Recording? && st.manager.store == s && !st.manager.phase.InsertFile?
    ensures var t := ManagerStep(st, ManagerDB(file));
            || (st.manager.phase.Fetch? && s !in st.stores && t == st.(manager := Idle))
            || (SameCounter(st, t, s) && t.files == st.files && t.nextSerial == st.nextSerial &&
                Known(t, s) == Known(st, s) && (s in t.stores <==> s in st.stores))
  {
    OthersSame(st, ManagerStep(st, ManagerDB(file)), s);
  }

  lemma ManagerRecords(st: State, file: FileID, s: StoreID)
    requires SpaceInv(st, s)
    requires st.manager.Recording? && st.manager.store == s && !st.manager.phase.InsertFile?
    ensures SpaceInv(ManagerStep(st, ManagerDB(file)), s)
  {
    ManagerRecordsQuietly(st, file, s);
    if st.manager.phase.Fetch? && s !in st.stores {
      ManagerMisses(st, s);
    } else {
      QuietFrame(st, ManagerStep(st, ManagerDB(file)), s);
    }
  }

  /** The store row is gone: the recording gives up, which only happens during a deletion. */
  lemma ManagerMisses(st: State, s: StoreID)
    requires SpaceInv(st, s) && s !in st.stores
    requires st.manager.Recording? && st.manager.store == s && st.manager.phase.Fetch?
    ensures SpaceInv(st.(manager := Idle), s)
  {
    var t := st.(manager := Idle);
    OthersSame(st, t, s);
    DrawnPrefix(Others(st, s) + [], Others(st, s) + Head(st.manager, s), st.nextSerial);
  }

  lemma DrawnPrefix(p: seq<Entry>, q: seq<Entry>, next: nat)
    requires Drawn(q, next) && p <= q
    ensures Drawn(p, next)
  {
  }

  lemma ManagerInserts(st: State, file: FileID, s: StoreID)
    requires SpaceInv(st, s)
    requires st.manager.Recording? && st.manager.store == s && st.manager.phase.InsertFile?
    requires st.manager.file.serial < st.nextSerial
    ensures SpaceInv(ManagerStep(st, ManagerDB(file)), s)
  {
    var t := ManagerStep(st, ManagerDB(file));
    var e := Entry(st.manager.file, st.manager.size);
    OthersSame(st, t, s);
    assert Head(t.manager, s) == [] && Head(st.manager, s) == [e];
    DrawnPrefix(Others(st, s) + [], Others(st, s) + [e], st.nextSerial);
    if Live(st, s) {
      assert (Others(st, s) + [e])[|Others(st, s)|] == e;
      assert t.files == st.files[e.file := FileRow(s, e.size)];
      assert Others(st, s) + [] == Others(st, s);
      InsertLast(st.files, s, Others(st, s), e);
    }
    CounterFrame(st, t, s);
  }

  lemma InsertLast(files: map<FileID, FileRow>, s: StoreID, before: seq<Entry>, e: Entry)
    requires Distinct(before + [e], files)
    ensures var grown := files[e.file := FileRow(s, e.size)];
            && Distinct(before, grown)
            && Total(FilesOf(grown, s)) + Sum(before) == Total(FilesOf(files, s)) + Sum(before + [e])
  {
    assert before + [e] == before + [e] + [] && before == before + [];
    InsertMoves(files, s, before, e, []);
  }

  lemma InsertFirst(files: map<FileID, FileRow>, s: StoreID, e: Entry, after: seq<Entry>)
    requires Distinct([e] + after, files)
    ensures var grown := files[e.file := FileRow(s, e.size)];
            && Distinct(after, grown)
            && Total(FilesOf(grown, s)) + Sum(after) == Total(FilesOf(files, s)) + Sum([e] + after)
  {
    assert [e] + after == [] + [e] + after && after == [] + after;
    InsertMoves(files, s, [], e, after);
  }

  // -- handler

  /** Everything but the handler's own file. */
  function Later(st: State, s: StoreID): seq<Entry> {
    Adds(Stream(st, s)) + (Grown(st, s) + Head(st.manager, s))
  }

  lemma KnownLater(st: State, s: StoreID)
    ensures Known(st, s) == Head(st.handler, s) + Later(st, s)
  {
  }

  lemma LaterSame(st: State, t: State, s: StoreID)
    requires t.manager == st.manager && t.queue == st.queue && t.watchers == st.watchers
    ensures Later(t, s) == Later(st, s)
  {
  }

  lemma DrawnSuffix(p: seq<Entry>, q: seq<Entry>, next: nat)
    requires Drawn(p + q, next)
    ensures Drawn(q, next)
  {
    forall i | 0 <= i < |q| ensures q[i].file.serial < next {
      assert q[i] == (p + q)[|p| + i];
    }
  }

  lemma HandlerDBSpace(st: State, file: FileID, s: StoreID)
    requires SpaceInv(st, s) && FinalInv(st, s) && OriginsOk(st)
    requires !st.handler.Idle? ==> FinalInv(st, st.handler.store) && SpaceInv(st, st.handler.store)
    ensures SpaceInv(HandlerStep(st, HandlerDB(file)), s)
  {
    var w := st.handler;
    if !w.Idle? {
      WorkFacts(st, w, w.store);
      if w.store != s {
        HandlerDBOther(st, file, s);
      } else if w.Recording? && w.phase.InsertFile? {
        HandlerInserts(st, file, s);
      } else if w.Recording? {
        HandlerRecords(st, file, s);
      } else {
        HandlerDeletes(st, file, s);
      }
    }
  }

  lemma HandlerDBOther(st: State, file: FileID, s: StoreID)
    requires SpaceInv(st, s) && Names(st, s) && OriginsOk(st)
    requires !st.handler.Idle? && st.handler.store != s
    requires st.handler.Recording? ==> st.handler.file.origin == st.handler.store
    requires st.handler.Recording? && st.handler.phase.InsertFile? ==> st.handler.file.serial < st.nextSerial
    requires st.handler.Removing? ==> forall f | f in st.handler.todo :: f.origin == st.handler.store
    ensures SpaceInv(HandlerStep(st, HandlerDB(file)), s)
  {
    var t := HandlerStep(st, HandlerDB(file));
    DBStepRows(st, st.handler, file, s);
    DBOtherFiles(st, st.handler, file, s);
    assert Stream(t, s) == Stream(st, s);
    SpaceFrame(st, t, s);
  }

  lemma HandlerDeletes(st: State, file: FileID, s: StoreID)
    requires SpaceInv(st, s) && FinalInv(st, s)
    requires !st.handler.Recording? && !st.handler.Idle? && st.handler.store == s
    ensures SpaceInv(HandlerStep(st, HandlerDB(file)), s)
  {
    var t := HandlerStep(st, HandlerDB(file));
    DBStepRows(st, st.handler, file, s);
    assert s in st.cleaned;
    LaterSame(st, t, s);
    KnownLater(st, s);
    KnownLater(t, s);
  }

  lemma HandlerRecordsQuietly(st: State, file: FileID, s: StoreID)
    requires st.handler.Recording? && st.handler.store == s && !st.handler.phase.InsertFile?
    ensures var t := HandlerStep(st, HandlerDB(file));
            || (st.handler.phase.Fetch? && s !in st.stores && t == st.(handler := Idle))
            || (SameCounter(st, t, s) && t.files == st.files && t.nextSerial == st.nextSerial &&
                Known(t, s) == Known(st, s) && (s in t.stores <==> s in st.stores))
  {
    var t := HandlerStep(st, HandlerDB(file));
    LaterSame(st, t, s);
    KnownLater(st, s);
    KnownLater(t, s);
  }

  lemma HandlerRecords(st: State, file: FileID, s: StoreID)
    requires SpaceInv(st, s)
    requires st.manager.Starting? ==> st.manager.store != s
    requires st.handler.Recording? && st.handler.store == s && !st.handler.phase.InsertFile?
    ensures SpaceInv(HandlerStep(st, HandlerDB(file)), s)
  {
    HandlerRecordsQuietly(st, file, s);
    if st.handler.phase.Fetch? && s !in st.stores {
      HandlerMisses(st, s);
    } else {
      QuietFrame(st, HandlerStep(st, HandlerDB(file)), s);
    }
  }

  lemma HandlerMisses(st: State, s: StoreID)
    requires SpaceInv(st, s) && s !in st.stores
    requires st.manager.Starting? ==> st.manager.store != s
    requires st.handler.Recording? && st.handler.store == s && st.handler.phase.Fetch?
    ensures SpaceInv(st.(handler := Idle), s)
  {
    var t := st.(handler := Idle);
    LaterSame(st, t, s);
    KnownLater(st, s);
    KnownLater(t, s);
    DrawnSuffix(Head(st.handler, s), Later(st, s), st.nextSerial);
    assert [] + Later(st, s) == Later(st, s);
  }

  lemma HandlerInsertsShape(st: State, file: FileID, s: StoreID)
    requires st.handler.Recording? && st.handler.store == s && st.handler.phase.InsertFile?
    ensures var t := HandlerStep(st, HandlerDB(file));
            var e := Entry(st.handler.file, st.handler.size);
            && SameCounter(st, t, s)
            && t.nextSerial == st.nextSerial && t.manager == st.manager && t.stores == st.stores
            && Known(st, s) == [e] + Later(st, s) && Known(t, s) == Later(st, s)
            && t.files == if e.file in st.files then st.files else st.files[e.file := FileRow(s, e.size)]
  {
    var t := HandlerStep(st, HandlerDB(file));
    LaterSame(st, t, s);
    KnownLater(st, s);
    KnownLater(t, s);
    assert Head(t.handler, s) == [];
    assert [] + Later(st, s) == Later(st, s);
  }

  lemma HandlerInserts(st: State, file: FileID, s: StoreID)
    requires SpaceInv(st, s)
    requires st.manager.Starting? ==> st.manager.store != s
    requires st.handler.Recording? && st.handler.store == s && st.handler.phase.InsertFile?
    requires st.handler.file.serial < st.nextSerial
    ensures SpaceInv(HandlerStep(st, HandlerDB(file)), s)
  {
    var t := HandlerStep(st, HandlerDB(file));
    var e := Entry(st.handler.file, st.handler.size);
    HandlerInsertsShape(st, file, s);
    DrawnSuffix([e], Later(st, s), st.nextSerial);
    if Live(st, s) {
      assert Known(st, s)[0] == e;
      InsertFirst(st.files, s, e, Later(st, s));
    }
    CounterFrame(st, t, s);
  }

  lemma ReceiveSpace(st: State, s: StoreID)
    requires SpaceInv(st, s) && Names(st, s)
    ensures SpaceInv(HandlerStep(st, Receive), s)
  {
    var t := HandlerStep(st, Receive);
    if st.handler.Idle? && st.queue != [] {
      ReceiveKnown(st, s);
      CounterFrame(st, t, s);
    }
  }

  lemma ReceiveKnown(st: State, s: StoreID)
    requires st.handler.Idle? && st.queue != []
    ensures Known(HandlerStep(st, Receive), s) == Known(st, s)
  {
    var t := HandlerStep(st, Receive);
    ReceiveAdds(st, s);
    assert Grown(t, s) == Grown(st, s) && Head(t.manager, s) == Head(st.manager, s) && Head(st.handler, s) == [];
    Regrouped(Head(t.handler, s), Adds(Stream(t, s)), Grown(st, s), Head(st.manager, s));
  }

  lemma Regrouped(a: seq<Entry>, b: seq<Entry>, c: seq<Entry>, d: seq<Entry>)
    ensures a + b + c + d == [] + (a + b) + c + d
  {
  }

  /** The message moves from the stream into the handler's hands. */
  lemma ReceiveAdds(st: State, s: StoreID)
    requires st.handler.Idle? && st.queue != []
    ensures var t := HandlerStep(st, Receive);
            Adds(Stream(st, s)) == Head(t.handler, s) + Adds(Stream(t, s))
  {
    var t := HandlerStep(st, Receive);
    var m := st.queue[0];
    ReceiveStream(st, s);
    if m.store == s {
      assert Stream(st, s) == [m] + Stream(t, s);
      assert ([m] + Stream(t, s))[1..] == Stream(t, s);
    } else {
      assert Stream(st, s) == Stream(t, s);
    }
  }

  // -- watcher

  lemma SendQuietly(st: State, x: StoreID, s: StoreID)
    requires forall m | m in Unsent(st, x) :: m.store == x
    ensures var t := WatcherStep(st, x, Send);
            && SameCounter(st, t, s) && t.files == st.files && t.nextSerial == st.nextSerial
            && Known(t, s) == Known(st, s) && t.stores == st.stores
  {
    StreamKept(st, x, s);
  }

  lemma SendSpace(st: State, x: StoreID, s: StoreID)
    requires SpaceInv(st, s) && Names(st, x)
    ensures SpaceInv(WatcherStep(st, x, Send), s)
  {
    SendQuietly(st, x, s);
    QuietFrame(st, WatcherStep(st, x, Send), s);
  }

  lemma WatcherOtherSame(st: State, x: StoreID, op: WatcherOp, s: StoreID)
    requires x != s && !op.Send? && forall f | f in st.files :: f.serial < st.nextSerial
    ensures SameAccount(st, WatcherStep(st, x, op), s) && SameFiles(st, WatcherStep(st, x, op), s)
  {
    var t := WatcherStep(st, x, op);
    assert t.files == st.files && t.queue == st.queue && Unsent(t, s) == Unsent(st, s);
  }

  lemma WatcherOtherSpace(st: State, x: StoreID, op: WatcherOp, s: StoreID)
    requires SpaceInv(st, s) && Names(st, s) && x != s && !op.Send?
    ensures SpaceInv(WatcherStep(st, x, op), s)
  {
    WatcherOtherSame(st, x, op, s);
    SpaceFrame(st, WatcherStep(st, x, op), s);
  }

  lemma HalfFillSpace(st: State, size: nat, s: StoreID)
    requires SpaceInv(st, s)
    requires st.manager.Starting? && st.manager.store == s ==> s !in st.watchers
    ensures SpaceInv(WatcherStep(st, s, HalfFill(size)), s)
  {
    var t := WatcherStep(st, s, HalfFill(size));
    if t != st {
      HalfFillKnown(st, size, s);
      assert t.files == st.files && t.manager == st.manager;
    }
  }

  lemma HalfFillKnown(st: State, size: nat, s: StoreID)
    requires SpaceInv(st, s) && WatcherStep(st, s, HalfFill(size)) != st
    ensures var t := WatcherStep(st, s, HalfFill(size));
            && Drawn(Known(t, s), t.nextSerial)
            && Sum(Known(t, s)) == Sum(Known(st, s)) + size
            && (Distinct(Known(st, s), st.files) ==> Distinct(Known(t, s), st.files))
            && Known(t, s) != []
  {
    var e := Entry(FileID(s, st.nextSerial), size);
    var p, q := Head(st.handler, s) + Adds(Stream(st, s)), Head(st.manager, s);
    HalfFillShape(st, size, s);
    SumInsert(p, e, q);
    DistinctInsert(p, e, q, st.files, st.nextSerial);
  }

  lemma HalfFillShape(st: State, size: nat, s: StoreID)
    requires WatcherStep(st, s, HalfFill(size)) != st
    ensures var t := WatcherStep(st, s, HalfFill(size));
            var p, q := Head(st.handler, s) + Adds(Stream(st, s)), Head(st.manager, s);
            && t.nextSerial == st.nextSerial + 1
            && Known(st, s) == p + q && Known(t, s) == p + [Entry(FileID(s, st.nextSerial), size)] + q
  {
    var t := WatcherStep(st, s, HalfFill(size));
    assert Unsent(t, s) == [] == Unsent(st, s);
    assert Grown(st, s) == [];
    assert Head(st.handler, s) + Adds(Stream(st, s)) + [] == Head(st.handler, s) + Adds(Stream(st, s));
  }

  lemma SumInsert(p: seq<Entry>, e: Entry, q: seq<Entry>)
    ensures Sum(p + [e] + q) == Sum(p + q) + e.size
  {
    SumConcat(p, q);
    SumConcat(p + [e], q);
    SumConcat(p, [e]);
    assert Sum([e]) == e.size;
  }

  lemma DistinctInsert(p: seq<Entry>, e: Entry, q: seq<Entry>, files: map<FileID, FileRow>, next: nat)
    requires Drawn(p + q, next) && e.file.serial == next
    requires forall f | f in files :: f.serial < next
    ensures Drawn(p + [e] + q, next + 1)
    ensures Distinct(p + q, files) ==> Distinct(p + [e] + q, files)
  {
    var a, b := p + [e] + q, p + q;
    forall i | 0 <= i < |a| && i != |p| ensures a[i] == b[if i < |p| then i else i - 1] {}
  }

  lemma HalfFillStoreSpace(st: State, s: StoreID)
    requires SpaceInv(st, s) && Names(st, s)
    ensures SpaceInv(WatcherStep(st, s, HalfFillStore), s)
  {
    var t := WatcherStep(st, s, HalfFillStore);
    if t != st {
      var w := st.watchers[s];
      var m := AddFile(s, w.file, w.size);
      assert Stream(t, s) == Stream(st, s) + [m];
      AddsConcat(Stream(st, s), [m]);
      assert Adds([m][1..]) == [];
      assert Known(t, s) == Known(st, s);
    }
  }

  lemma SaysQuietly(st: State, op: WatcherOp, s: StoreID)
    requires op.Report? || op.BadAck? || op.Terminate? || op.Sent?
    ensures var t := WatcherStep(st, s, op);
            && SameCounter(st, t, s) && t.files == st.files && t.nextSerial == st.nextSerial
            && Known(t, s) == Known(st, s) && t.stores == st.stores
  {
    var t := WatcherStep(st, s, op);
    if t != st {
      SaysNoFile(st, op, s);
      assert Grown(t, s) == Grown(st, s) == [];
    }
  }

  lemma SaysNoFile(st: State, op: WatcherOp, s: StoreID)
    requires op.Report? || op.BadAck? || op.Terminate? || op.Sent?
    requires WatcherStep(st, s, op) != st
    ensures Adds(Stream(WatcherStep(st, s, op), s)) == Adds(Stream(st, s))
  {
    var t := WatcherStep(st, s, op);
    assert Unsent(st, s) == [] && Stream(t, s) == Stream(st, s) + Unsent(t, s);
    AddsConcat(Stream(st, s), Unsent(t, s));
    AddsNone(Unsent(t, s));
  }

  lemma QuietSpace(st: State, op: WatcherOp, s: StoreID)
    requires SpaceInv(st, s)
    requires op.Report? || op.BadAck? || op.Terminate? || op.Sent?
    ensures SpaceInv(WatcherStep(st, s, op), s)
  {
    SaysQuietly(st, op, s);
    QuietFrame(st, WatcherStep(st, s, op), s);
  }

  // -- all steps

  lemma ManagerSpace(st: State, op: ManagerOp, s: StoreID)
    requires SpaceInv(st, s) && FinalInv(st, s) && OriginsOk(st)
    requires !st.manager.Idle? ==> FinalInv(st, st.manager.store) && SpaceInv(st, st.manager.store)
    ensures SpaceInv(ManagerStep(st, op), s)
  {
    match op
    case NewStore(id) => NewStoreSpace(st, id, s);
    case StartWatcher => StartWatcherSpace(st, s);
    case Cleanup(id) => CleanupSpace(st, op, s);
    case DeleteStore(id) => CleanupSpace(st, op, s);
    case InitialLoad(size) => InitialLoadSpace(st, size, s);
    case InitialStore => InitialStoreSpace(st, s);
    case ManagerDB(file) => ManagerDBSpace(st, file, s);
    case _ => GiveUpSpace(st, op, s);
  }

  lemma WatcherSpace(st: State, x: StoreID, op: WatcherOp, s: StoreID)
    requires SpaceInv(st, s) && FinalInv(st, s) && FinalInv(st, x)
    ensures SpaceInv(WatcherStep(st, x, op), s)
  {
    if op.Send? {
      SendSpace(st, x, s);
    } else if x != s {
      WatcherOtherSpace(st, x, op, s);
    } else {
      match op
      case HalfFill(size) => HalfFillSpace(st, size, s);
      case HalfFillStore => HalfFillStoreSpace(st, s);
      case _ => QuietSpace(st, op, s);
    }
  }

  lemma StepSpace(st: State, e: Event, s: StoreID)
    requires forall x :: FinalInv(st, x)
    requires forall x :: SpaceInv(st, x)
    ensures SpaceInv(Step(st, e), s)
  {
    assert SpaceInv(st, s) && FinalInv(st, s);
    assert OriginsOk(st) by {
      forall f | f in st.files ensures f.origin == st.files[f].store {
        assert FinalInv(st, st.files[f].store);
      }
    }
    match e
    case M(op) =>
      assert !st.manager.Idle? ==> FinalInv(st, st.manager.store) && SpaceInv(st, st.manager.store);
      ManagerSpace(st, op, s);
    case W(x, op) =>
      assert FinalInv(st, x);
      WatcherSpace(st, x, op, s);
    case H(op) =>
      assert !st.handler.Idle? ==> FinalInv(st, st.handler.store) && SpaceInv(st, st.handler.store);
      if op.Receive? {
        ReceiveSpace(st, s);
      } else {
        HandlerDBSpace(st, op.file, s);
      }
  }

  lemma {:induction false} RunSpace(st: State, events: seq<Event>, s: StoreID)
    requires Init(st)
    ensures SpaceInv(Run(st, events), s)
    decreases |events|
  {
    if events == [] {
      InitSpace(st, s);
    } else {
      var before := Run(st, events[..|events| - 1]);
      RunLast(st, events);
      forall x ensures FinalInv(before, x) {
        RunFinal(st, events[..|events| - 1], x);
      }
      forall x ensures SpaceInv(before, x) {
        RunSpace(st, events[..|events| - 1], x);
      }
      StepSpace(before, events[|events| - 1], s);
    }
  }

  // ---------------------------------------------------------------- space is conserved: the promise

  /** For a store created by this process whose deletion has not begun, in every state:
      allocatedSpace never exceeds the sizes of the store's file rows, plus those in messages
      queued, unsent or being recorded, plus the initial file not yet recorded, leaving out
      what one side or the other is only about to add; unless the two additions raced it
      equals that sum. Whenever neither is in the middle of its addition, it equals the sum
      if and only if they never raced. */
  lemma SpaceIsConserved(st: State, events: seq<Event>, s: StoreID)
    requires Init(st)
    requires Live(Run(st, events), s)
    ensures var t := Run(st, events);
            var sum := Total(FilesOf(t.files, s)) + Sum(Known(t, s)) - GrowthSize(t, s) - MidAddSize(t, s);
            && t.space[s] <= sum
            && (s !in t.raced ==> t.space[s] == sum)
            && (!Growth(t, s) && !MidAdd(t, s) ==> (t.space[s] == sum <==> s !in t.raced))
  {
    RunSpace(st, events, s);
  }

  lemma StepRaced(st: State, e: Event)
    ensures st.raced <= Step(st, e).raced
  {
    match e
    case H(op) => DBStepRows(st, st.handler, if op.HandlerDB? then op.file else FileID("", 0), "");
    case M(op) => DBStepRows(st, st.manager, if op.ManagerDB? then op.file else FileID("", 0), "");
    case W(s, op) =>
  }

  /** Once raced, always raced. */
  lemma {:induction false} RacedForever(st: State, events: seq<Event>, more: seq<Event>)
    ensures Run(st, events).raced <= Run(st, events + more).raced
    decreases |more|
  {
    if more == [] {
      assert events + more == events;
    } else {
      var n := |more| - 1;
      RacedForever(st, events, more[..n]);
      StepRaced(Run(st, events + more[..n]), more[n]);
      assert events + more == (events + more[..n]) + [more[n]];
      RunSnoc(st, events + more[..n], more[n]);
    }
  }

  /** A first start: nothing stored, nothing running. */
  function Blank(): State {
    State(map[], map[], map[], map[], [], Idle, Idle, 0, {}, {}, {}, {}, {})
  }

  function RaceEvents(): seq<Event> {
    [M(NewStore("s")), M(StartWatcher), M(InitialLoad(5)), W("s", HalfFill(3)), M(InitialStore), W("s", HalfFillStore)]
  }

  /** The manager has loaded allocatedSpace of its new store. */
  function Loaded(): State {
    Blank().(stores := map["s" := 0], watchers := map["s" := Reading], space := map["s" := 0],
             manager := Adding("s", 0, FileID("s", 0), 5), nextSerial := 1, used := {"s"}, created := {"s"})
  }

  lemma RaceFirstHalf()
    ensures Step(Step(Step(Blank(), RaceEvents()[0]), RaceEvents()[1]), RaceEvents()[2]) == Loaded()
  {
  }

  lemma RaceSecondHalf()
    ensures var t := Step(Step(Step(Loaded(), RaceEvents()[3]), RaceEvents()[4]), RaceEvents()[5]);
            Live(t, "s") && !Growth(t, "s") && !MidAdd(t, "s") && "s" in t.raced
  {
    var u := Step(Loaded(), RaceEvents()[3]);
    assert u.raced == {"s"} && u.watchers["s"] == Growing(0, FileID("s", 1), 3);
  }

  /** The race is real: a half-fill notification that arrives while the initial file is
      being allocated can cost the store the size of one of the two files, and for good: in
      every continuation in which the store lives, the counter stays short. */
  lemma SpaceCanBeLost()
    ensures Init(Blank())
    ensures var t := Run(Blank(), RaceEvents()); Live(t, "s") && !Growth(t, "s") && !MidAdd(t, "s")
    ensures forall more :: var t := Run(Blank(), RaceEvents() + more);
              Live(t, "s") && !Growth(t, "s") && !MidAdd(t, "s") ==>
                t.space["s"] < Total(FilesOf(t.files, "s")) + Sum(Known(t, "s"))
  {
    var es := RaceEvents();
    Machines.RunThree(Step, Blank(), [], es[0], es[1], es[2]);
    Machines.RunThree(Step, Blank(), es[..3], es[3], es[4], es[5]);
    assert es[..3] == [] + [es[0], es[1], es[2]] && es == es[..3] + [es[3], es[4], es[5]];
    RaceFirstHalf();
    RaceSecondHalf();
    forall more | Live(Run(Blank(), es + more), "s")
      ensures var t := Run(Blank(), es + more);
              !Growth(t, "s") && !MidAdd(t, "s") ==> t.space["s"] < Total(FilesOf(t.files, "s")) + Sum(Known(t, "s"))
    {
      RacedForever(Blank(), es, more);
      SpaceIsConserved(Blank(), es + more, "s");
    }
  }
}
