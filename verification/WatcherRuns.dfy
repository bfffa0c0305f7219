/** The byte-level reader loop refines the concurrent step system: whatever the device
    delivers, the system has a run in which the store's watcher says and allocates the same. */
module WatcherRuns {

  import opened Watcher
  import L = Lifecycle
  import Machines

  // ---------------------------------------------------------------- one turn

  /** The steps of the concurrent system that a turn of the loop amounts to. */
  function Ops(s: L.StoreID, e: Event): seq<L.Event> {
    var t := TurnOf(e);
    if t.msgs == [] then (if t.exit then [L.W(s, L.BadAck)] else [])
    else
      match t.msgs[0]
      case AddFile(_, size, _) => [L.W(s, L.HalfFill(size)), L.W(s, L.HalfFillStore)]
      case Overflow(_) => [L.W(s, L.Report(2, false))]
      case Deleted => [L.W(s, L.Terminate(e.removed))]
      case ErrorReport => if Terminates(e) then [L.W(s, L.Terminate(e.removed))] else [L.W(s, L.Report(1, t.exit))]
  }

  predicate SameKind(c: Message, m: L.Msg, s: L.StoreID) {
    && m.store == s
    && (c.AddFile? <==> m.AddFile?) && (c.AddFile? && m.AddFile? ==> c.size == m.size)
    && (c.Deleted? <==> m.Deleted?)
  }

  predicate SameKinds(cs: seq<Message>, ms: seq<L.Msg>, s: L.StoreID) {
    |cs| == |ms| && forall i | 0 <= i < |cs| :: SameKind(cs[i], ms[i], s)
  }

  /** Nothing but the watcher of `s`, its counter and the record of races has changed. */
  ghost predicate OnlyWatcher(st: L.State, t: L.State, s: L.StoreID) {
    && t.queue == st.queue && t.handler == st.handler && t.manager == st.manager && t.cleaned == st.cleaned
    && s in t.watchers && s in t.space && s in st.space
  }

  lemma GrowthSteps(st: L.State, s: L.StoreID, size: nat)
    requires s in st.watchers && st.watchers[s].Reading? && s in st.space && size > 0
    ensures var t := L.Run(st, [L.W(s, L.HalfFill(size)), L.W(s, L.HalfFillStore)]);
            && OnlyWatcher(st, t, s)
            && t.watchers == st.watchers[s := L.Sending([L.AddFile(s, L.FileID(s, st.nextSerial), size)], false)]
            && t.space == st.space[s := st.space[s] + size]
            && t.raced == if L.MidAdd(st, s) then st.raced + {s} else st.raced
  {
    var a, b := L.W(s, L.HalfFill(size)), L.W(s, L.HalfFillStore);
    L.RunSnoc(st, [], a);
    L.RunSnoc(st, [a], b);
    assert [] + [a] == [a] && [a] + [b] == [a, b];
    var u := L.Step(st, a);
    assert u.watchers[s] == L.Growing(st.space[s], L.FileID(s, st.nextSerial), size);
    assert u.space == st.space;
  }

  lemma OneStep(st: L.State, e: L.Event)
    ensures L.Run(st, [e]) == L.Step(st, e)
  {
    Machines.RunOne(L.Step, st, e);
  }

  /** The watcher of `s` is left with `turn` to send. */
  ghost predicate Speaks(st: L.State, t: L.State, s: L.StoreID, turn: Turn) {
    && OnlyWatcher(st, t, s)
    && t.space[s] == st.space[s] + turn.grown
    && t.raced == (if L.MidAdd(st, s) && turn.grown > 0 then st.raced + {s} else st.raced)
    && (turn.msgs == [] && !turn.exit ==> t == st)
    && (turn.msgs == [] && turn.exit ==> t.watchers[s].Exited?)
    && (turn.msgs != [] ==>
          && t.watchers[s].Sending? && t.watchers[s].last == turn.exit
          && SameKinds(turn.msgs, t.watchers[s].msgs, s))
  }

  /** The turns the loop can take. */
  lemma TurnShapes(e: Event)
    ensures var t := TurnOf(e);
            || (t.msgs == [] && t.grown == 0)
            || (exists m | m in t.msgs :: m.AddFile? && t == Turn([m], m.size, false))
            || (|t.msgs| == 2 && t.msgs[0].Overflow? && t.msgs[1].ErrorReport? && t.grown == 0 && !t.exit)
            || t == Turn([Deleted], 0, true)
            || (t.msgs == [ErrorReport] && t.grown == 0)
  {
    var t := TurnOf(e);
    if t.grown > 0 {
      assert t.msgs[0] in t.msgs;
    } else if t.msgs != [] && t.msgs[0].AddFile? {
      assert t.msgs[0] in t.msgs;
    }
  }

  /** The kernel terminates a store only after a cleanup; an allocated file is not empty. */
  ghost predicate PlausibleRead(e: Event, cleaned: bool) {
    && (Terminates(e) ==> cleaned)
    && (forall m | m in TurnOf(e).msgs :: m.AddFile? ==> m.size > 0)
  }

  /** The same for all reads up to the one that ends the loop. */
  ghost predicate Plausible(events: seq<Event>, cleaned: bool) {
    events == [] || (PlausibleRead(events[0], cleaned) && (TurnOf(events[0]).exit || Plausible(events[1..], cleaned)))
  }

  /** Every turn of the byte-level loop is a run of the step system's watcher that leaves the
      same messages to be sent and adds the same number of bytes; if the manager is between
      load and store of the counter, an added file is the race the system records. */
  lemma TurnIsStepsOfSystem(st: L.State, s: L.StoreID, e: Event)
    requires s in st.watchers && st.watchers[s].Reading? && s in st.space
    requires PlausibleRead(e, s in st.cleaned)
    ensures Speaks(st, L.Run(st, Ops(s, e)), s, TurnOf(e))
  {
    TurnShapes(e);
    var turn := TurnOf(e);
    if turn.msgs != [] && turn.msgs[0].AddFile? {
      GrowthSteps(st, s, turn.msgs[0].size);
    } else {
      QuietTurn(st, s, e);
    }
  }

  /** The turns that allocate nothing are one step each, or none. */
  lemma QuietTurn(st: L.State, s: L.StoreID, e: Event)
    requires s in st.watchers && st.watchers[s].Reading? && s in st.space
    requires Terminates(e) ==> s in st.cleaned
    requires TurnOf(e).msgs == [] || !TurnOf(e).msgs[0].AddFile?
    ensures Speaks(st, L.Run(st, Ops(s, e)), s, TurnOf(e))
  {
    TurnShapes(e);
    TurnAnswers(e);
    if Ops(s, e) != [] {
      OneStep(st, Ops(s, e)[0]);
    }
  }

  // ---------------------------------------------------------------- what a run sends

  /** What one event makes the watcher of `s` put into the channel. */
  function Pushed(before: L.State, e: L.Event, s: L.StoreID): seq<L.Msg> {
    var after := L.Step(before, e);
    if e == L.W(s, L.Send) && |after.queue| > |before.queue| then [after.queue[|after.queue| - 1]] else []
  }

  /** The messages the watcher of `s` puts into the channel along a run, in order. */
  function Sends(st: L.State, es: seq<L.Event>, s: L.StoreID): seq<L.Msg> {
    Machines.Outputs(L.Step, (t, e) => Pushed(t, e, s), st, es)
  }

  lemma RunAppend(st: L.State, a: seq<L.Event>, b: seq<L.Event>, s: L.StoreID)
    ensures L.Run(st, a + b) == L.Run(L.Run(st, a), b)
    ensures Sends(st, a + b, s) == Sends(st, a, s) + Sends(L.Run(st, a), b, s)
    ensures TwoActors(a, s) && TwoActors(b, s) ==> TwoActors(a + b, s)
  {
    Machines.RunConcat(L.Step, st, a, b);
    Machines.OutputsConcat(L.Step, (t, e) => Pushed(t, e, s), st, a, b);
  }

  lemma {:induction false} NoSends(st: L.State, es: seq<L.Event>, s: L.StoreID)
    requires L.W(s, L.Send) !in es
    ensures Sends(st, es, s) == []
    decreases |es|
  {
    if es != [] {
      NoSends(L.Step(st, es[0]), es[1..], s);
    }
  }

  lemma OneSends(st: L.State, e: L.Event, s: L.StoreID)
    ensures L.Run(st, [e]) == L.Step(st, e)
    ensures Sends(st, [e], s) == Pushed(st, e, s)
  {
    OneStep(st, e);
    Machines.OutputsOne(L.Step, (t, e) => Pushed(t, e, s), st, e);
  }

  // ---------------------------------------------------------------- making room in the channel

  /** The watcher of `s` and the message handler act, nobody else. */
  predicate TwoActors(es: seq<L.Event>, s: L.StoreID) {
    forall i | 0 <= i < |es| :: es[i].H? || (es[i].W? && es[i].store == s)
  }

  /** What the handler is ever busy with. */
  predicate Handles(w: L.Work) { !w.Starting? && !w.Allocating? && !w.Adding? }

  /** Nothing but the handler, its rows and the channel has changed. */
  ghost predicate OnlyHandler(st: L.State, t: L.State) {
    && t.watchers == st.watchers && t.space == st.space && t.cleaned == st.cleaned
    && t.manager == st.manager && t.raced == st.raced && Handles(t.handler)
  }

  function Rank(st: L.State): nat {
    match st.handler
    case Recording(_, _, _, phase) => (match phase case Fetch => 3 case InsertFile(_) => 2 case UpdateRow(_) => 1)
    case Listing(s) => 3 + |L.FilesOf(st.files, s).Keys|
    case Removing(_, todo) => 2 + |todo|
    case Dropping(_) => 1
    case _ => 0
  }

  /** The handler's next database call. */
  ghost function NextCall(st: L.State): L.Event {
    if st.handler.Removing? && st.handler.todo != {} then
      var file :| file in st.handler.todo;
      L.H(L.HandlerDB(file))
    else L.H(L.HandlerDB(L.FileID("", 0)))
  }

  lemma NextCallLowers(st: L.State)
    requires Handles(st.handler) && !st.handler.Idle?
    ensures var t := L.Step(st, NextCall(st)); OnlyHandler(st, t) && t.queue == st.queue && Rank(t) < Rank(st)
  {
    DBStepLowers(st, NextCall(st).h.file);
  }

  lemma DBStepLowers(st: L.State, file: L.FileID)
    requires Handles(st.handler) && !st.handler.Idle?
    requires st.handler.Removing? && st.handler.todo != {} ==> file in st.handler.todo
    ensures var (u, w) := L.DBStep(st, st.handler, file);
            && u == st.(stores := u.stores, files := u.files)
            && Handles(w) && Rank(u.(handler := w)) < Rank(st)
  {
    match st.handler
    case Removing(_, todo) =>
      if todo != {} {
        assert |todo - {file}| < |todo|;
      }
    case _ =>
  }

  /** The handler can always finish what it is doing. */
  lemma {:induction false} HandlerFinishes(st: L.State, s: L.StoreID) returns (es: seq<L.Event>)
    requires Handles(st.handler)
    ensures var t := L.Run(st, es);
            t.handler.Idle? && OnlyHandler(st, t) && t.queue == st.queue && TwoActors(es, s) && Sends(st, es, s) == []
    decreases Rank(st)
  {
    es := [];
    if !st.handler.Idle? {
      var e := NextCall(st);
      NextCallLowers(st);
      var rest := HandlerFinishes(L.Step(st, e), s);
      OneSends(st, e, s);
      RunAppend(st, [e], rest, s);
      es := [e] + rest;
    }
  }

  lemma Receives(st: L.State)
    requires st.handler.Idle? && st.queue != []
    ensures var t := L.Step(st, L.H(L.Receive)); OnlyHandler(st, t) && t.queue == st.queue[1..]
  {
  }

  /** So it can always take messages out of a full channel. */
  lemma {:induction false} RoomIsMade(st: L.State, s: L.StoreID) returns (es: seq<L.Event>)
    requires Handles(st.handler)
    ensures var t := L.Run(st, es);
            |t.queue| < L.CHANNEL_CAPACITY && OnlyHandler(st, t) && TwoActors(es, s) && Sends(st, es, s) == []
    decreases |st.queue|
  {
    es := [];
    if |st.queue| >= L.CHANNEL_CAPACITY {
      var a := HandlerFinishes(st, s);
      var u := L.Run(st, a);
      var e := L.H(L.Receive);
      Receives(u);
      OneSends(u, e, s);
      RunAppend(st, a, [e], s);
      var rest := RoomIsMade(L.Step(u, e), s);
      RunAppend(st, a + [e], rest, s);
      es := a + [e] + rest;
    }
  }

  // ---------------------------------------------------------------- sending

  /** A watcher between turns. */
  ghost predicate Between(st: L.State, t: L.State, s: L.StoreID, exited: bool) {
    && s in t.watchers && t.watchers[s] == (if exited then L.Exited else L.Reading)
    && s in st.space && s in t.space && t.space[s] == st.space[s]
    && t.cleaned == st.cleaned && t.manager == st.manager && Handles(t.handler)
  }

  lemma SendsOne(st: L.State, s: L.StoreID)
    requires s in st.watchers && s in st.space && st.watchers[s].Sending? && st.watchers[s].msgs != []
    requires |st.queue| < L.CHANNEL_CAPACITY
    ensures var t := L.Step(st, L.W(s, L.Send));
            var w := st.watchers[s];
            t == st.(watchers := st.watchers[s := L.Sending(w.msgs[1..], w.last)], queue := st.queue + [w.msgs[0]])
  {
  }

  /** Whatever the watcher has to say, it gets to say it. */
  lemma {:induction false} AllIsSent(st: L.State, s: L.StoreID) returns (es: seq<L.Event>)
    requires s in st.watchers && s in st.space && st.watchers[s].Sending? && Handles(st.handler)
    ensures Between(st, L.Run(st, es), s, st.watchers[s].last)
    ensures Sends(st, es, s) == st.watchers[s].msgs && TwoActors(es, s)
    decreases |st.watchers[s].msgs|
  {
    var w := st.watchers[s];
    if w.msgs == [] {
      var e := L.W(s, L.Sent);
      OneSends(st, e, s);
      es := [e];
    } else {
      var a := OneIsSent(st, s);
      var rest := AllIsSent(L.Run(st, a), s);
      RunAppend(st, a, rest, s);
      es := a + rest;
      assert w.msgs == [w.msgs[0]] + w.msgs[1..];
    }
  }

  lemma OneIsSent(st: L.State, s: L.StoreID) returns (es: seq<L.Event>)
    requires s in st.watchers && s in st.space && Handles(st.handler)
    requires st.watchers[s].Sending? && st.watchers[s].msgs != []
    ensures var t := L.Run(st, es);
            var w := st.watchers[s];
            && t.watchers == st.watchers[s := L.Sending(w.msgs[1..], w.last)]
            && t.space == st.space && t.cleaned == st.cleaned && t.manager == st.manager && Handles(t.handler)
            && Sends(st, es, s) == [w.msgs[0]] && w.msgs[0] in t.queue && TwoActors(es, s)
  {
    var a := RoomIsMade(st, s);
    var u := L.Run(st, a);
    var e := L.W(s, L.Send);
    SendsOne(u, s);
    OneSends(u, e, s);
    RunAppend(st, a, [e], s);
    es := a + [e];
  }

  // ---------------------------------------------------------------- every sequence of reads

  /** The run says `msgs`, adds `grown` bytes, and leaves the watcher exited or reading. */
  ghost predicate Performs(st: L.State, es: seq<L.Event>, s: L.StoreID, msgs: seq<Message>, grown: nat, exited: bool) {
    var t := L.Run(st, es);
    && TwoActors(es, s) && SameKinds(msgs, Sends(st, es, s), s)
    && s in t.watchers && t.watchers[s] == (if exited then L.Exited else L.Reading)
    && s in st.space && s in t.space && t.space[s] == st.space[s] + grown
    && t.cleaned == st.cleaned && t.manager == st.manager && Handles(t.handler)
  }

  lemma OpsAreOwn(s: L.StoreID, e: Event)
    ensures TwoActors(Ops(s, e), s) && L.W(s, L.Send) !in Ops(s, e)
  {
  }

  lemma TurnPerformed(st: L.State, s: L.StoreID, e: Event) returns (es: seq<L.Event>)
    requires s in st.watchers && st.watchers[s].Reading? && s in st.space && Handles(st.handler)
    requires PlausibleRead(e, s in st.cleaned)
    ensures Performs(st, es, s, TurnOf(e).msgs, TurnOf(e).grown, TurnOf(e).exit)
  {
    var a := Ops(s, e);
    TurnIsStepsOfSystem(st, s, e);
    OpsAreOwn(s, e);
    NoSends(st, a, s);
    es := a;
    if TurnOf(e).msgs != [] {
      var rest := AllIsSent(L.Run(st, a), s);
      RunAppend(st, a, rest, s);
      es := a + rest;
    }
  }

  lemma Performed(st: L.State, a: seq<L.Event>, b: seq<L.Event>, s: L.StoreID, turn: Turn, msgs: seq<Message>,
                  grown: nat, exited: bool)
    requires Performs(st, a, s, turn.msgs, turn.grown, false)
    requires Performs(L.Run(st, a), b, s, msgs, grown, exited)
    ensures Performs(st, a + b, s, turn.msgs + msgs, turn.grown + grown, exited)
  {
    RunAppend(st, a, b, s);
  }

  lemma {:induction false} ReadsPerformed(st: L.State, s: L.StoreID, events: seq<Event>) returns (es: seq<L.Event>)
    requires s in st.watchers && st.watchers[s].Reading? && s in st.space && Handles(st.handler)
    requires Plausible(events, s in st.cleaned)
    ensures Performs(st, es, s, Trace(events), Grown(events), Exits(events))
    decreases |events|
  {
    es := [];
    if events != [] {
      var turn, rest := TurnOf(events[0]), events[1..];
      es := TurnPerformed(st, s, events[0]);
      if turn.exit {
        assert Trace(events) == turn.msgs + [] == turn.msgs;
      } else {
        var more := ReadsPerformed(L.Run(st, es), s, rest);
        Performed(st, es, more, s, turn, Trace(rest), Grown(rest), Exits(rest));
        es := es + more;
      }
    }
  }

  /** The whole loop: for every sequence of reads the system has a run, in which only this
      watcher and the handler act, that puts exactly the loop's messages into the bounded
      channel, in order, adds exactly the loop's bytes, and stops exactly when the loop does. */
  lemma ReadsAreRunOfSystem(st: L.State, events: seq<L.Event>, s: L.StoreID, input: seq<Event>)
    requires L.Init(st) && var t := L.Run(st, events);
             s in t.watchers && t.watchers[s].Reading? && Plausible(input, s in t.cleaned)
    ensures exists es :: Performs(L.Run(st, events), es, s, Trace(input), Grown(input), Exits(input))
  {
    L.RunFinal(st, events, s);
    var es := ReadsPerformed(L.Run(st, events), s, input);
  }
}
