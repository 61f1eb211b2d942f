/** Who is registered on which thread, told from the calls alone; and so who is
    notified. */
module ObserverRegistration {
  import opened ObserverDelivery
  import opened ObserverLists
  import ObserverPasses
  import opened ObserverThreads

  // ------------------------------------------------------------- the calls

  /** AddObserver(o) on thread t, with a task runner: it begins at event i and
      returns at event j, and t does nothing in between. */
  predicate Adds(es: seq<Event>, i: nat, j: nat, t: Thread, o: Observer) {
    i < j < |es| && es[i] == StartAdd(t, o, true) && es[j] == FinishAdd(t) && forall k :: i < k < j ==> es[k].t != t
  }

  /** And no RemoveObserver(o) on t follows. */
  predicate Lasts(es: seq<Event>, i: nat, j: nat, t: Thread, o: Observer) {
    Adds(es, i, j, t, o) && forall k :: j < k < |es| ==> es[k] != RemoveObserver(t, o)
  }

  /** AddObserver(o) has begun on t and not returned. */
  predicate Begun(es: seq<Event>, i: nat, t: Thread, o: Observer) {
    i < |es| && es[i] == StartAdd(t, o, true) && forall k :: i < k < |es| ==> es[k].t != t
  }

  // ------------------------------------------------------------- one step

  predicate IsAdding(s: State, t: Thread, o: Observer) {
    Stack(s, t) != [] && Top(Stack(s, t)).Adding? && Top(Stack(s, t)).o == o
  }

  lemma OwnAdding(s: State, e: Event, o: Observer)
    requires Inv(s) && Enabled(s, e) && !e.BeginLoop? && !e.Advance?
    ensures IsAdding(Step(s, e), e.t, o) <==> e == StartAdd(e.t, o, true)
  {
    assert ThreadOk(s, e.t);
  }

  lemma OwnLoopAdding(s: State, e: Event, o: Observer)
    requires Inv(s) && Enabled(s, e) && (e.BeginLoop? || e.Advance?)
    ensures !IsAdding(Step(s, e), e.t, o)
  {
    InvTop(s, e.t);
    OwnStack(s, e.t);
    if e.BeginLoop? { BeginArrives(s, e.t); } else { AdvanceArrives(s, e.t); }
  }

  lemma AddingAfter(s: State, e: Event, t: Thread, o: Observer)
    requires Inv(s) && Enabled(s, e)
    ensures IsAdding(Step(s, e), t, o) <==> e == StartAdd(t, o, true) || (e.t != t && IsAdding(s, t, o))
  {
    if e.t != t {
      InvTop(s, e.t);
      OthersDoNotReach(s, e, t);
    } else if e.BeginLoop? || e.Advance? {
      OwnLoopAdding(s, e, o);
    } else {
      OwnAdding(s, e, o);
    }
  }

  lemma AddHolds(l: ListState, a: Observer, o: Observer)
    ensures Held(o) in Add(l, a).slots <==> Held(o) in l.slots || a == o
  {
  }

  lemma RemoveHoldsOthers(l: ListState, a: Observer, o: Observer)
    requires ObserverPasses.Distinct(l.slots)
    ensures Held(o) in Remove(l, a).slots <==> Held(o) in l.slots && a != o
  {
    RemoveHolds(l, a);
    if a == o {
      RemoveDrops(l, o);
    } else if Held(o) in l.slots {
      RemoveKeepsPlace(l, o, a);
    }
  }

  lemma ThenHolds(l: ListState, cur: Cursor, o: Observer)
    requires CanArrive(l, cur)
    ensures Held(o) in ListThen(l, cur).slots <==> Held(o) in l.slots
  {
    CompactedSlots(l.slots);
    if Held(o) in l.slots { DropHolds(l, cur, o); }
  }

  lemma FinishAddRegisters(s: State, e: Event, o: Observer)
    requires Inv(s) && Enabled(s, e) && e.FinishAdd?
    ensures Registered(Step(s, e), e.t, o) <==> Registered(s, e.t, o) || IsAdding(s, e.t, o)
  {
    InvTop(s, e.t);
    var f := Top(Stack(s, e.t));
    AddHolds(s.heap[f.ctx].list, f.o, o);
  }

  lemma RemoveUnregisters(s: State, e: Event, o: Observer)
    requires Inv(s) && Enabled(s, e) && e.RemoveObserver?
    ensures Registered(Step(s, e), e.t, o) <==> Registered(s, e.t, o) && e.o != o
  {
    if e.t in s.lists {
      OwnStack(s, e.t);
      RemoveHoldsOthers(s.heap[s.lists[e.t]].list, e.o, o);
    }
  }

  lemma LoopKeepsRegistered(s: State, e: Event, o: Observer)
    requires Inv(s) && Enabled(s, e) && (e.BeginLoop? || e.Advance?)
    ensures Registered(Step(s, e), e.t, o) <==> Registered(s, e.t, o)
  {
    InvTop(s, e.t);
    OwnStack(s, e.t);
    var l := s.heap[s.lists[e.t]].list;
    var st := Stack(s, e.t);
    if e.BeginLoop? {
      BeginArrives(s, e.t);
      var (m, cur) := Begin(l);
      ThenHolds(m, cur, o);
    } else {
      AdvanceArrives(s, e.t);
      ThenHolds(l, Next(l, Top(st).cursor), o);
    }
  }

  lemma OtherStepKeepsRegistered(s: State, e: Event, o: Observer)
    requires Inv(s) && Enabled(s, e) && (e.StartAdd? || e.Notify? || e.RunTask? || e.FinishTask?)
    ensures Registered(Step(s, e), e.t, o) <==> Registered(s, e.t, o)
  {
    InvTop(s, e.t);
  }

  lemma RegisteredAfter(s: State, e: Event, t: Thread, o: Observer)
    requires Inv(s) && Enabled(s, e)
    ensures Registered(Step(s, e), t, o) <==>
            (Registered(s, t, o) && e != RemoveObserver(t, o)) || (e == FinishAdd(t) && IsAdding(s, t, o))
  {
    if e.t != t {
      InvTop(s, e.t);
      OthersDoNotReach(s, e, t);
      assert t in s.lists ==> s.lists[t] in s.heap;
    } else if e.BeginLoop? || e.Advance? {
      LoopKeepsRegistered(s, e, o);
    } else if e.FinishAdd? {
      FinishAddRegisters(s, e, o);
    } else if e.RemoveObserver? {
      RemoveUnregisters(s, e, o);
    } else {
      OtherStepKeepsRegistered(s, e, o);
    }
  }

  // ------------------------------------------------------------- whole runs

  lemma {:induction false} RunCut(s: State, a: seq<Event>, b: seq<Event>)
    requires CanRun(s, a + b)
    ensures CanRun(s, a) && CanRun(Run(s, a), b) && Run(Run(s, a), b) == Run(s, a + b)
    decreases |a|
  {
    if a == [] {
      assert a + b == b;
    } else {
      assert (a + b)[0] == a[0] && (a + b)[1..] == a[1..] + b;
      RunCut(Step(s, a[0]), a[1..], b);
    }
  }

  lemma LastEvent(s: State, es: seq<Event>, e: Event)
    requires CanRun(s, es + [e])
    ensures CanRun(s, es) && Enabled(Run(s, es), e) && Run(s, es + [e]) == Step(Run(s, es), e)
  {
    RunCut(s, es, [e]);
    assert [e][1..] == [];
  }

  lemma BegunLater(es: seq<Event>, e: Event, t: Thread, o: Observer, i: nat)
    requires i < |es|
    ensures Begun(es + [e], i, t, o) <==> Begun(es, i, t, o) && e.t != t
  {
    var all := es + [e];
    assert all[|es|] == e;
    if Begun(es, i, t, o) && e.t != t {
      forall k | i < k < |all| ensures all[k].t != t {
        assert k < |es| ==> all[k] == es[k];
      }
    }
    if Begun(all, i, t, o) {
      forall k | i < k < |es| ensures es[k].t != t { assert all[k] == es[k]; }
    }
  }

  lemma LastsLater(es: seq<Event>, e: Event, t: Thread, o: Observer, i: nat, j: nat)
    requires j < |es|
    ensures Lasts(es + [e], i, j, t, o) <==> Lasts(es, i, j, t, o) && e != RemoveObserver(t, o)
  {
    var all := es + [e];
    assert all[|es|] == e;
    assert forall k :: 0 <= k < |es| ==> all[k] == es[k];
    if Lasts(all, i, j, t, o) {
      assert forall k :: i < k < j ==> es[k].t == all[k].t;
      assert forall k :: j < k < |es| ==> es[k] == all[k];
    }
  }

  lemma LastsNow(es: seq<Event>, e: Event, t: Thread, o: Observer, i: nat)
    requires i < |es|
    ensures Lasts(es + [e], i, |es|, t, o) <==> Begun(es, i, t, o) && e == FinishAdd(t)
  {
    var all := es + [e];
    assert all[|es|] == e;
    assert forall k :: 0 <= k < |es| ==> all[k] == es[k];
    if Lasts(all, i, |es|, t, o) {
      assert forall k :: i < k < |es| ==> es[k].t == all[k].t;
    }
  }

  ghost predicate SomeBegun(es: seq<Event>, t: Thread, o: Observer) {
    exists i :: 0 <= i < |es| && Begun(es, i, t, o)
  }

  ghost predicate SomeLasts(es: seq<Event>, t: Thread, o: Observer) {
    exists i, j :: 0 <= i < j < |es| && Lasts(es, i, j, t, o)
  }

  lemma SomeBegunLast(es: seq<Event>, e: Event, t: Thread, o: Observer)
    ensures SomeBegun(es + [e], t, o) <==> e == StartAdd(t, o, true) || (SomeBegun(es, t, o) && e.t != t)
  {
    var all := es + [e];
    assert all[|es|] == e;
    if e == StartAdd(t, o, true) { assert Begun(all, |es|, t, o); }
    if i :| 0 <= i < |all| && Begun(all, i, t, o) {
      if i < |es| { BegunLater(es, e, t, o, i); }
    }
    if i :| 0 <= i < |es| && Begun(es, i, t, o) {
      BegunLater(es, e, t, o, i);
    }
  }

  lemma SomeLastsLast(es: seq<Event>, e: Event, t: Thread, o: Observer)
    ensures SomeLasts(es + [e], t, o) <==>
            (SomeLasts(es, t, o) && e != RemoveObserver(t, o)) || (SomeBegun(es, t, o) && e == FinishAdd(t))
  {
    var all := es + [e];
    if i, j :| 0 <= i < j < |all| && Lasts(all, i, j, t, o) {
      if j < |es| { LastsLater(es, e, t, o, i, j); } else { LastsNow(es, e, t, o, i); }
    }
    if i, j :| 0 <= i < j < |es| && Lasts(es, i, j, t, o) {
      LastsLater(es, e, t, o, i, j);
    }
    if i :| 0 <= i < |es| && Begun(es, i, t, o) {
      LastsNow(es, e, t, o, i);
    }
  }

  lemma {:induction false} RegisteredByRun(kind: Kind, es: seq<Event>, t: Thread, o: Observer)
    requires CanRun(Init(kind), es)
    ensures IsAdding(Run(Init(kind), es), t, o) <==> SomeBegun(es, t, o)
    ensures Registered(Run(Init(kind), es), t, o) <==> SomeLasts(es, t, o)
    decreases |es|
  {
    if es != [] {
      var before, e := es[..|es| - 1], es[|es| - 1];
      assert es == before + [e];
      LastEvent(Init(kind), before, e);
      RunKeepsInv(Init(kind), before);
      RegisteredByRun(kind, before, t, o);
      AddingAfter(Run(Init(kind), before), e, t, o);
      RegisteredAfter(Run(Init(kind), before), e, t, o);
      SomeBegunLast(before, e, t, o);
      SomeLastsLast(before, e, t, o);
    }
  }

  /** Over every interleaving, o is registered on t exactly when some call of
      AddObserver(o) on t, with a task runner, has returned and t has not called
      RemoveObserver(o) since. */
  lemma RegisteredIffAdded(kind: Kind, es: seq<Event>, t: Thread, o: Observer)
    requires CanRun(Init(kind), es)
    ensures Registered(Run(Init(kind), es), t, o) <==> exists i, j :: 0 <= i < j < |es| && Lasts(es, i, j, t, o)
  {
    RegisteredByRun(kind, es, t, o);
  }

  // ----------------------------------------------------- who is then notified

  /** Nothing anywhere stands for notification m. */
  ghost predicate Unused(s: State, m: Method) {
    && (forall t :: Over(s, t, m))
    && forall i :: 0 <= i < |s.calls| ==> s.calls[i].m != m
  }

  lemma ArrivalUnused(s: State, s': State, t: Thread, n: Method, l: ListState, cur: Cursor, m: Method)
    requires Stack(s, t) != [] && Arrived(s, s', t, Stack(s, t)[..|Stack(s, t)| - 1], n, l, cur)
    requires Unused(s, m) && n != m
    ensures Unused(s', m)
  {
    var below := Stack(s, t)[..|Stack(s, t)| - 1];
    assert Over(s, t, m);
    forall u ensures Over(s', u, m) {
      assert Over(s, u, m) && Queue(s', u) == Queue(s, u);
      if u == t {
        assert forall i :: 0 <= i < |below| ==> Stack(s', t)[i] == Stack(s, t)[i];
      }
    }
  }

  lemma TopIsUsed(s: State, t: Thread, m: Method)
    requires Over(s, t, m) && Stack(s, t) != [] && !Top(Stack(s, t)).Adding?
    ensures Top(Stack(s, t)).m != m
  {
    assert IsFor(Stack(s, t)[|Stack(s, t)| - 1], Top(Stack(s, t)).m);
  }

  lemma BeginUnused(s: State, t: Thread, m: Method)
    requires Inv(s) && Enabled(s, BeginLoop(t)) && Unused(s, m)
    ensures Unused(Step(s, BeginLoop(t)), m)
  {
    InvTop(s, t);
    OwnStack(s, t);
    BeginArrives(s, t);
    assert Over(s, t, m);
    TopIsUsed(s, t, m);
    var (l, cur) := Begin(s.heap[s.lists[t]].list);
    ArrivalUnused(s, Step(s, BeginLoop(t)), t, Top(Stack(s, t)).m, l, cur, m);
  }

  lemma AdvanceUnused(s: State, t: Thread, m: Method)
    requires Inv(s) && Enabled(s, Advance(t)) && Unused(s, m)
    ensures Unused(Step(s, Advance(t)), m)
  {
    InvTop(s, t);
    OwnStack(s, t);
    AdvanceArrives(s, t);
    assert Over(s, t, m);
    TopIsUsed(s, t, m);
    var l := s.heap[s.lists[t]].list;
    ArrivalUnused(s, Step(s, Advance(t)), t, Top(Stack(s, t)).m, l, Next(l, Top(Stack(s, t)).cursor), m);
  }

  lemma OwnUnused(s: State, e: Event, m: Method)
    requires Inv(s) && Enabled(s, e) && Over(s, e.t, m) && !e.BeginLoop? && !e.Advance? && !e.Notify?
    ensures Over(Step(s, e), e.t, m)
  {
    InvTop(s, e.t);
  }

  lemma NotifyUnused(s: State, e: Event, m: Method, u: Thread)
    requires Inv(s) && Enabled(s, e) && Over(s, u, m) && e.Notify? && e.m != m
    ensures Over(Step(s, e), u, m)
  {
    var s' := Step(s, e);
    assert Stack(s', u) == Stack(s, u);
    assert Queue(s', u) == Queue(s, u) + (if u in s.lists then [Task(s.lists[u], e.m)] else []);
  }

  lemma OtherUnused(s: State, e: Event, m: Method, u: Thread)
    requires Inv(s) && Enabled(s, e) && Over(s, u, m) && Over(s, e.t, m) && !e.BeginLoop? && !e.Advance?
    requires !(e.Notify? && e.m == m)
    ensures Over(Step(s, e), u, m)
  {
    if e.Notify? {
      NotifyUnused(s, e, m, u);
    } else if e.t == u {
      OwnUnused(s, e, m);
    } else {
      InvTop(s, e.t);
      OthersDoNotReach(s, e, u);
      OtherThreadsQueue(s, e, u);
    }
  }

  lemma StepUnused(s: State, e: Event, m: Method)
    requires Inv(s) && Enabled(s, e) && Unused(s, m) && !(e.Notify? && e.m == m)
    ensures Unused(Step(s, e), m)
  {
    if e.BeginLoop? {
      BeginUnused(s, e.t, m);
    } else if e.Advance? {
      AdvanceUnused(s, e.t, m);
    } else {
      OnlyLoopsCall(s, e);
      forall u ensures Over(Step(s, e), u, m) {
        assert Over(s, u, m) && Over(s, e.t, m);
        OtherUnused(s, e, m, u);
      }
    }
  }

  lemma {:induction false} RunUnused(s: State, es: seq<Event>, m: Method)
    requires Inv(s) && CanRun(s, es) && Unused(s, m) && forall e :: e in es ==> !(e.Notify? && e.m == m)
    ensures Unused(Run(s, es), m)
    decreases |es|
  {
    if es != [] {
      assert es[0] in es && forall e :: e in es[1..] ==> e in es;
      StepKeepsInv(s, es[0]);
      StepUnused(s, es[0], m);
      RunUnused(Step(s, es[0]), es[1..], m);
    }
  }

  /** Event n is the only Notify of m, and o was added to t before it and is not
      removed there at all afterwards. */
  predicate Notified(es: seq<Event>, i: nat, j: nat, n: nat, t: Thread, o: Observer, m: Method) {
    && j < n < |es| && Lasts(es, i, j, t, o) && es[n].Notify? && es[n].m == m
    && forall k :: 0 <= k < |es| && k != n ==> !(es[k].Notify? && es[k].m == m)
  }

  lemma AddedBefore(es: seq<Event>, i: nat, j: nat, n: nat, t: Thread, o: Observer)
    requires j < n <= |es| && Lasts(es, i, j, t, o)
    ensures Lasts(es[..n], i, j, t, o)
  {
    var before := es[..n];
    assert forall k :: 0 <= k < n ==> before[k] == es[k];
    forall k | i < k < j ensures before[k].t != t { assert es[k].t != t; }
  }

  lemma AllowedAfter(es: seq<Event>, i: nat, j: nat, n: nat, t: Thread, o: Observer, m: Method)
    requires Notified(es, i, j, n, t, o, m)
    ensures forall e :: e in es[n + 1..] ==> Allowed(e, t, o, m)
    ensures forall e :: e in es[..n] ==> !(e.Notify? && e.m == m)
  {
    var rest := es[n + 1..];
    forall e | e in rest ensures Allowed(e, t, o, m) {
      var k :| 0 <= k < |rest| && rest[k] == e;
      assert es[n + 1 + k] == e;
    }
  }

  lemma CutAtNotify(kind: Kind, es: seq<Event>, i: nat, j: nat, n: nat, t: Thread, o: Observer, m: Method)
    returns (s: State, rest: seq<Event>)
    requires CanRun(Init(kind), es) && Notified(es, i, j, n, t, o, m)
    ensures Inv(s) && Enabled(s, es[n]) && Registered(s, t, o) && Unused(s, m)
    ensures CanRun(Step(s, es[n]), rest) && Run(Init(kind), es) == Run(Step(s, es[n]), rest)
    ensures forall e :: e in rest ==> Allowed(e, t, o, m)
  {
    var before := es[..n];
    rest := es[n + 1..];
    assert es == (before + [es[n]]) + rest;
    RunCut(Init(kind), before + [es[n]], rest);
    LastEvent(Init(kind), before, es[n]);
    AddedBefore(es, i, j, n, t, o);
    AllowedAfter(es, i, j, n, t, o, m);
    s := AddedState(kind, before, i, j, t, o, m);
  }

  lemma AddedState(kind: Kind, es: seq<Event>, i: nat, j: nat, t: Thread, o: Observer, m: Method) returns (s: State)
    requires CanRun(Init(kind), es) && Lasts(es, i, j, t, o) && forall e :: e in es ==> !(e.Notify? && e.m == m)
    ensures s == Run(Init(kind), es) && Inv(s) && Registered(s, t, o) && Unused(s, m)
  {
    s := Run(Init(kind), es);
    RunKeepsInv(Init(kind), es);
    assert Unused(Init(kind), m);
    RunUnused(Init(kind), es, m);
    RegisteredIffAdded(kind, es, t, o);
  }

  /** From the calls alone: an observer that a thread has added, and does not
      remove, is called on that thread for every later notification, at most once
      at any time, and exactly once when the thread is done with it. */
  lemma AddedIsCalledOnce(kind: Kind, es: seq<Event>, i: nat, j: nat, n: nat, t: Thread, o: Observer, m: Method)
    requires CanRun(Init(kind), es) && Notified(es, i, j, n, t, o, m)
    ensures var s := Run(Init(kind), es);
      && Times(s.calls, Callback(t, o, m)) <= 1
      && (Over(s, t, m) ==> Times(s.calls, Callback(t, o, m)) == 1)
      && SomeRunDelivers(s, t, o, m)
  {
    var s, rest := CutAtNotify(kind, es, i, j, n, t, o, m);
    assert es[n] == Notify(es[n].t, m);
    assert Over(s, t, m);
    DeliveredOnce(s, es[n].t, m, t, o, rest);
    CanBeDelivered(s, es[n].t, m, t, o, rest);
  }

  // ------------------------------------------------------ in the order posted

  /** No task of this notification waits behind one of the later. */
  predicate NoneBehind(q: seq<Task>, earlier: Method, later: Method) {
    forall i, j :: 0 <= i < j < |q| && q[i].m == later ==> q[j].m != earlier
  }

  /** On thread t the later notification has not begun, and its task stands behind
      those of the earlier, or none of these waits any more. */
  ghost predicate InOrder(s: State, t: Thread, earlier: Method, later: Method) {
    || (&& NoFrame(Stack(s, t), later) && NoneBehind(Queue(s, t), earlier, later)
        && forall o :: Callback(t, o, later) !in s.calls)
    || NoTask(Queue(s, t), earlier)
  }

  lemma NotifyInOrder(s: State, e: Event, t: Thread, earlier: Method, later: Method)
    requires Inv(s) && Enabled(s, e) && e.Notify? && e.m != earlier && InOrder(s, t, earlier, later)
    ensures InOrder(Step(s, e), t, earlier, later)
  {
    var s' := Step(s, e);
    assert Stack(s', t) == Stack(s, t) && s'.calls == s.calls;
    assert Queue(s', t) == Queue(s, t) + (if t in s.lists then [Task(s.lists[t], e.m)] else []);
  }

  lemma OthersInOrder(s: State, e: Event, t: Thread, earlier: Method, later: Method)
    requires Inv(s) && Enabled(s, e) && !e.Notify? && e.t != t && InOrder(s, t, earlier, later)
    ensures InOrder(Step(s, e), t, earlier, later)
  {
    var s' := Step(s, e);
    InvTop(s, e.t);
    OthersDoNotReach(s, e, t);
    OtherThreadsQueue(s, e, t);
    CallsAreOwn(s, e);
    forall o | Callback(t, o, later) in s'.calls ensures Callback(t, o, later) in s.calls {
      var i :| 0 <= i < |s'.calls| && s'.calls[i] == Callback(t, o, later);
      assert i < |s.calls|;
    }
  }

  lemma OwnInOrder(s: State, e: Event, earlier: Method, later: Method)
    requires Inv(s) && Enabled(s, e) && !e.Notify? && !e.BeginLoop? && !e.Advance? && InOrder(s, e.t, earlier, later)
    ensures InOrder(Step(s, e), e.t, earlier, later)
  {
    InvTop(s, e.t);
    OnlyLoopsCall(s, e);
    var q := Queue(s, e.t);
    if e.RunTask? && NoneBehind(q, earlier, later) && q[0].m == later {
      assert NoTask(q[1..], earlier);
    }
  }

  lemma ArrivalInOrder(s: State, s': State, t: Thread, n: Method, l: ListState, cur: Cursor, earlier: Method,
                       later: Method)
    requires Stack(s, t) != [] && Arrived(s, s', t, Stack(s, t)[..|Stack(s, t)| - 1], n, l, cur)
    requires IsFor(Top(Stack(s, t)), n) && InOrder(s, t, earlier, later)
    ensures InOrder(s', t, earlier, later)
  {
    var st := Stack(s, t);
    assert Queue(s', t) == Queue(s, t);
    assert st[|st| - 1] == Top(st);
    if NoFrame(st, later) {
      assert forall i :: 0 <= i < |st| - 1 ==> Stack(s', t)[i] == st[i];
      assert NoFrame(Stack(s', t), later);
    }
  }

  lemma LoopInOrder(s: State, e: Event, earlier: Method, later: Method)
    requires Inv(s) && Enabled(s, e) && (e.BeginLoop? || e.Advance?) && InOrder(s, e.t, earlier, later)
    ensures InOrder(Step(s, e), e.t, earlier, later)
  {
    InvTop(s, e.t);
    OwnStack(s, e.t);
    var l, f := s.heap[s.lists[e.t]].list, Top(Stack(s, e.t));
    if e.BeginLoop? {
      BeginArrives(s, e.t);
      var (b, cur) := Begin(l);
      ArrivalInOrder(s, Step(s, e), e.t, f.m, b, cur, earlier, later);
    } else {
      AdvanceArrives(s, e.t);
      ArrivalInOrder(s, Step(s, e), e.t, f.m, l, Next(l, f.cursor), earlier, later);
    }
  }

  lemma {:induction false} RunInOrder(s: State, es: seq<Event>, t: Thread, earlier: Method, later: Method)
    requires Inv(s) && CanRun(s, es) && InOrder(s, t, earlier, later)
    requires forall e :: e in es ==> !(e.Notify? && e.m == earlier)
    ensures InOrder(Run(s, es), t, earlier, later)
    decreases |es|
  {
    if es != [] {
      var e := es[0];
      assert e in es && forall x :: x in es[1..] ==> x in es;
      StepKeepsInv(s, e);
      if e.Notify? {
        NotifyInOrder(s, e, t, earlier, later);
      } else if e.t != t {
        OthersInOrder(s, e, t, earlier, later);
      } else if e.BeginLoop? || e.Advance? {
        LoopInOrder(s, e, earlier, later);
      } else {
        OwnInOrder(s, e, earlier, later);
      }
      RunInOrder(Step(s, e), es[1..], t, earlier, later);
    }
  }

  /** Notifications are begun on each thread in the order they were posted: no
      observer is called for the later one while a task of the earlier still
      waits there. */
  lemma BegunInOrder(s: State, u: Thread, earlier: Method, later: Method, t: Thread, es: seq<Event>)
    requires Inv(s) && Enabled(s, Notify(u, later)) && earlier != later
    requires Over(s, t, later) && forall o :: Callback(t, o, later) !in s.calls
    requires CanRun(Step(s, Notify(u, later)), es) && forall e :: e in es ==> !(e.Notify? && e.m == earlier)
    ensures var s' := Run(Step(s, Notify(u, later)), es);
      (exists o :: Callback(t, o, later) in s'.calls) ==> NoTask(Queue(s', t), earlier)
  {
    var s1 := Step(s, Notify(u, later));
    StepKeepsInv(s, Notify(u, later));
    assert Stack(s1, t) == Stack(s, t) && s1.calls == s.calls;
    assert Queue(s1, t) == Queue(s, t) + (if t in s.lists then [Task(s.lists[t], later)] else []);
    RunInOrder(s1, es, t, earlier, later);
  }

  // ------------------------------------------------------ the notification type

  ghost predicate OfKind(s: State, kind: Kind) {
    s.kind == kind && forall c :: c in s.heap ==> s.heap[c].list.kind == kind
  }

  lemma ArrivalKeepsKind(s: State, s': State, t: Thread, below: seq<Frame>, m: Method, l: ListState, cur: Cursor,
                         kind: Kind)
    requires Arrived(s, s', t, below, m, l, cur) && OfKind(s, kind) && l.kind == kind && s'.kind == s.kind
    ensures OfKind(s', kind)
  {
  }

  lemma BeginKeepsKind(s: State, t: Thread, kind: Kind)
    requires Inv(s) && Enabled(s, BeginLoop(t)) && OfKind(s, kind)
    ensures OfKind(Step(s, BeginLoop(t)), kind)
  {
    InvTop(s, t);
    OwnStack(s, t);
    BeginArrives(s, t);
    var (l, cur) := Begin(s.heap[s.lists[t]].list);
    var st := Stack(s, t);
    ArrivalKeepsKind(s, Step(s, BeginLoop(t)), t, st[..|st| - 1], Top(st).m, l, cur, kind);
  }

  lemma AdvanceKeepsKind(s: State, t: Thread, kind: Kind)
    requires Inv(s) && Enabled(s, Advance(t)) && OfKind(s, kind)
    ensures OfKind(Step(s, Advance(t)), kind)
  {
    InvTop(s, t);
    OwnStack(s, t);
    AdvanceArrives(s, t);
    var l, st := s.heap[s.lists[t]].list, Stack(s, t);
    ArrivalKeepsKind(s, Step(s, Advance(t)), t, st[..|st| - 1], Top(st).m, l, Next(l, Top(st).cursor), kind);
  }

  lemma OtherStepKeepsKind(s: State, e: Event, kind: Kind)
    requires Inv(s) && Enabled(s, e) && OfKind(s, kind) && !e.BeginLoop? && !e.Advance?
    ensures OfKind(Step(s, e), kind)
  {
    InvTop(s, e.t);
  }

  lemma StepKeepsKind(s: State, e: Event, kind: Kind)
    requires Inv(s) && Enabled(s, e) && OfKind(s, kind)
    ensures OfKind(Step(s, e), kind)
  {
    if e.BeginLoop? {
      BeginKeepsKind(s, e.t, kind);
    } else if e.Advance? {
      AdvanceKeepsKind(s, e.t, kind);
    } else {
      OtherStepKeepsKind(s, e, kind);
    }
  }

  /** Every thread's list, whenever it was made, notifies in the way that the
      whole was constructed for. */
  lemma {:induction false} ListsAreOfKind(kind: Kind, es: seq<Event>)
    requires CanRun(Init(kind), es)
    ensures forall c :: c in Run(Init(kind), es).heap ==> Run(Init(kind), es).heap[c].list.kind == kind
    ensures OfKind(Run(Init(kind), es), kind)
    decreases |es|
  {
    if es != [] {
      var before, e := es[..|es| - 1], es[|es| - 1];
      assert es == before + [e];
      LastEvent(Init(kind), before, e);
      RunKeepsInv(Init(kind), before);
      ListsAreOfKind(kind, before);
      StepKeepsKind(Run(Init(kind), before), e, kind);
    }
  }
}
