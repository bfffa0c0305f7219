/** A create is handed the row of a store its disk already has (worker/manager/manager.go:416-422).
    Whether that store is there to stay depends on whether the kernel was ever asked to clean
    it up: by a create that failed outside its loop, or by a delete that went wrong. */
module Reuse {

  import opened Lifecycle
  import Machines
  import R = WatcherRuns

  // ---------------------------------------------------------------- rows that stay

  /** A started store loses its row only after a cleanup ioctl on it. */
  lemma StepKeepsRow(st: State, e: Event, s: StoreID)
    requires FinalInv(st, s) && s in st.watchers
    ensures var t := Step(st, e);
            s in t.watchers && st.cleaned <= t.cleaned && (s in st.stores ==> s in t.stores || s in t.cleaned)
  {
    match e
    case M(op) => ManagerKeepsRow(st, op, s);
    case H(op) => HandlerKeepsRow(st, op, s);
    case W(x, op) =>
  }

  lemma ManagerKeepsRow(st: State, op: ManagerOp, s: StoreID)
    requires Phases(st, s) && s in st.watchers
    ensures var t := ManagerStep(st, op);
            s in t.watchers && st.cleaned <= t.cleaned && (s in st.stores ==> s in t.stores || s in t.cleaned)
  {
    if op.ManagerDB? {
      DBStepRow(st, st.manager, op.file, s);
    }
  }

  lemma HandlerKeepsRow(st: State, op: HandlerOp, s: StoreID)
    requires Phases(st, s) && s in st.watchers
    ensures var t := HandlerStep(st, op);
            s in t.watchers && st.cleaned <= t.cleaned && (s in st.stores ==> s in t.stores || s in t.cleaned)
  {
    if op.HandlerDB? {
      DBStepRow(st, st.handler, op.file, s);
    }
  }

  lemma DBStepRow(st: State, w: Work, file: FileID, s: StoreID)
    ensures var (t, v) := DBStep(st, w, file);
            && t == st.(stores := t.stores, files := t.files)
            && (s in st.stores ==> s in t.stores || Deleting(w, s))
  {
  }

  lemma {:induction false} RowStays(st: State, events: seq<Event>, more: seq<Event>, s: StoreID)
    requires Init(st) && s in Run(st, events).watchers && s in Run(st, events).stores
    ensures var t := Run(st, events + more); s in t.watchers && (s in t.stores || s in t.cleaned)
    decreases |more|
  {
    if more == [] {
      assert events + more == events;
    } else {
      var front, e := more[..|more| - 1], more[|more| - 1];
      RowStays(st, events, front, s);
      RunFinal(st, events + front, s);
      StepKeepsRow(Run(st, events + front), e, s);
      assert events + more == (events + front) + [e];
      RunSnoc(st, events + front, e);
    }
  }

  /** No cleanup ioctl on `s`. */
  predicate LeavesAlone(es: seq<Event>, s: StoreID) {
    M(Cleanup(s)) !in es && M(DeleteStore(s)) !in es
  }

  lemma {:induction false} NotCleaned(st: State, events: seq<Event>, more: seq<Event>, s: StoreID)
    requires LeavesAlone(more, s)
    ensures s in Run(st, events + more).cleaned <==> s in Run(st, events).cleaned
    decreases |more|
  {
    if more == [] {
      assert events + more == events;
    } else {
      var front, e := more[..|more| - 1], more[|more| - 1];
      assert e in more;
      NotCleaned(st, events, front, s);
      CleansOnly(Run(st, events + front), e, s);
      assert events + more == (events + front) + [e];
      RunSnoc(st, events + front, e);
    }
  }

  lemma CleansOnly(st: State, e: Event, s: StoreID)
    requires e != M(Cleanup(s)) && e != M(DeleteStore(s))
    ensures s in Step(st, e).cleaned <==> s in st.cleaned
  {
    match e
    case M(op) => DBStepRow(st, st.manager, if op.ManagerDB? then op.file else FileID("", 0), s);
    case H(op) => DBStepRow(st, st.handler, if op.HandlerDB? then op.file else FileID("", 0), s);
    case W(x, op) =>
  }

  // ---------------------------------------------------------------- rows that can go

  /** One call of a handler that deletes `s` goes on deleting it, or has done so. */
  lemma CallDeletes(st: State, s: StoreID)
    requires R.Handles(st.handler) && Deleting(st.handler, s)
    ensures var t := Step(st, R.NextCall(st)); Deleting(t.handler, s) || s in t.done
  {
  }

  lemma {:induction false} DeletionEnds(st: State, s: StoreID) returns (es: seq<Event>)
    requires R.Handles(st.handler) && (Deleting(st.handler, s) || s in st.done)
    ensures s in Run(st, es).done && R.TwoActors(es, s)
    decreases R.Rank(st)
  {
    es := [];
    if s !in st.done {
      var e := R.NextCall(st);
      R.NextCallLowers(st);
      CallDeletes(st, s);
      var rest := DeletionEnds(Step(st, e), s);
      R.OneStep(st, e);
      Machines.RunConcat(Step, st, [e], rest);
      es := [e] + rest;
    }
  }

  lemma Taken(st: State)
    requires st.handler.Idle? && st.queue != []
    ensures var t := Step(st, H(Receive));
            && t.queue == st.queue[1..] && R.Handles(t.handler)
            && (st.queue[0].Deleted? ==> Deleting(t.handler, st.queue[0].store))
  {
  }

  /** A Deleted message in the channel is acted upon, if only the handler goes on. */
  lemma {:induction false} MessageEnds(st: State, s: StoreID) returns (es: seq<Event>)
    requires R.Handles(st.handler) && Deleted(s) in st.queue
    ensures s in Run(st, es).done && R.TwoActors(es, s)
    decreases |st.queue|
  {
    var a := NextTaken(st, s);
    var t := Run(st, a);
    var rest;
    if st.queue[0] == Deleted(s) {
      rest := DeletionEnds(t, s);
    } else {
      assert st.queue == [st.queue[0]] + st.queue[1..];
      rest := MessageEnds(t, s);
    }
    Machines.RunConcat(Step, st, a, rest);
    es := a + rest;
  }

  lemma NextTaken(st: State, s: StoreID) returns (es: seq<Event>)
    requires R.Handles(st.handler) && st.queue != []
    ensures var t := Run(st, es);
            && t.queue == st.queue[1..] && R.Handles(t.handler) && R.TwoActors(es, s)
            && (st.queue[0].Deleted? ==> Deleting(t.handler, st.queue[0].store))
  {
    var a := R.HandlerFinishes(st, s);
    Taken(Run(st, a));
    RunSnoc(st, a, H(Receive));
    es := a + [H(Receive)];
  }

  /** Once a cleanup ioctl was issued for a store, the kernel, its watcher and the handler can
      make its row go without the manager doing anything. */
  lemma RowCanGo(st: State, s: StoreID) returns (es: seq<Event>)
    requires s in st.watchers && st.watchers[s].Reading? && s in st.space && s in st.cleaned && R.Handles(st.handler)
    ensures s in Run(st, es).done && R.TwoActors(es, s)
  {
    var e := W(s, Terminate(true));
    var t := Step(st, e);
    assert t.watchers[s] == Sending([Deleted(s)], true);
    R.OneStep(st, e);
    var a := R.OneIsSent(t, s);
    Machines.RunConcat(Step, st, [e], a);
    var b := MessageEnds(Run(t, a), s);
    Machines.RunConcat(Step, st, [e] + a, b);
    es := [e] + a + b;
  }

  // ---------------------------------------------------------------- the promise

  /** In every reachable state: the row of a started store whose watcher is between turns stays
      through every continuation without a further cleanup of it, if and only if no cleanup
      ioctl was issued for it before. A create that is handed such a row can rely on it exactly
      then. */
  lemma RowIsThereToStayIff(st: State, events: seq<Event>, s: StoreID)
    requires Init(st) && var t := Run(st, events); s in t.stores && s in t.watchers && t.watchers[s].Reading?
    ensures (forall more | LeavesAlone(more, s) :: s in Run(st, events + more).stores) <==>
            s !in Run(st, events).cleaned
  {
    var t := Run(st, events);
    RunFinal(st, events, s);
    if s in t.cleaned {
      var more := RowCanGo(t, s);
      Machines.RunConcat(Step, st, events, more);
      assert (events + more) + [] == events + more;
      DeletionIsFinal(st, events + more, [], s);
      assert LeavesAlone(more, s);
      assert s !in Run(st, events + more).stores;
    } else {
      forall more | LeavesAlone(more, s) ensures s in Run(st, events + more).stores {
        RowStays(st, events, more, s);
        NotCleaned(st, events, more, s);
      }
    }
  }
}
