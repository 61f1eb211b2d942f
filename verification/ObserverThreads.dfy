/** Models base::ObserverListThreadSafe: one unsynchronised observer list per
    thread, found through a locked map, and notified by tasks that carry a raw
    pointer to the list's context.  Each step below is one critical section or
    one stretch of code that only its own thread can observe. */
module ObserverThreads {
  import opened ObserverLists
  import ObserverPasses

  type Thread = nat
  type ContextId = nat  // a context's address; addresses are never reused here
  type Method = nat     // what Notify is asked to call, with its arguments

  datatype Context = Context(owner: Thread, list: ListState)

  /** Where a thread stands in a call it has not finished. */
  datatype Frame =
    | Adding(ctx: ContextId, o: Observer)                 // AddObserver, lock released
    | Checked(ctx: ContextId, m: Method)                  // NotifyWrapper, lock released
    | Looping(ctx: ContextId, m: Method, cursor: Cursor)  // inside an observer's callback
    | Finished(ctx: ContextId, m: Method)                 // the loop's iterator is gone

  /** A posted NotifyWrapper. */
  datatype Task = Task(ctx: ContextId, m: Method)

  /** Thread t runs m on observer o. */
  datatype Callback = Callback(t: Thread, o: Observer, m: Method)

  datatype State = State(
    kind: Kind,
    lists: map<Thread, ContextId>,        // observer_lists_
    heap: map<ContextId, Context>,        // contexts not yet freed
    nextId: ContextId,
    queues: map<Thread, seq<Task>>,
    stacks: map<Thread, seq<Frame>>,
    added: set<(Thread, Observer)>,       // every AddObserver call that got past its check
    calls: seq<Callback>,                 // every callback, in order
    crashed: bool)                        // a freed context was dereferenced

  datatype Event =
    | StartAdd(t: Thread, o: Observer, hasRunner: bool)
    | FinishAdd(t: Thread)
    | RemoveObserver(t: Thread, o: Observer)
    | Notify(t: Thread, m: Method)
    | RunTask(t: Thread)
    | BeginLoop(t: Thread)
    | Advance(t: Thread)
    | FinishTask(t: Thread)

  function Init(kind: Kind): State {
    State(kind, map[], map[], 0, map[], map[], {}, [], false)
  }

  function Stack(s: State, t: Thread): seq<Frame> {
    if t in s.stacks then s.stacks[t] else []
  }

  function Queue(s: State, t: Thread): seq<Task> {
    if t in s.queues then s.queues[t] else []
  }

  function Top(st: seq<Frame>): Frame
    requires st != []
  {
    st[|st| - 1]
  }

  function Push(s: State, t: Thread, f: Frame): State {
    s.(stacks := s.stacks[t := Stack(s, t) + [f]])
  }

  function Pop(s: State, t: Thread): State
    requires Stack(s, t) != []
  {
    s.(stacks := s.stacks[t := Stack(s, t)[..|Stack(s, t)| - 1]])
  }

  /** A thread may start something new when idle or from inside a callback. */
  predicate Free(s: State, t: Thread) {
    Stack(s, t) == [] || Top(Stack(s, t)).Looping?
  }

  predicate Enabled(s: State, e: Event) {
    !s.crashed &&
    match e
    case FinishAdd(t) => Stack(s, t) != [] && Top(Stack(s, t)).Adding?
    case BeginLoop(t) => Stack(s, t) != [] && Top(Stack(s, t)).Checked?
    case Advance(t) => Stack(s, t) != [] && Top(Stack(s, t)).Looping?
    case FinishTask(t) => Stack(s, t) != [] && Top(Stack(s, t)).Finished?
    case RunTask(t) => Free(s, t) && Queue(s, t) != []
    case _ => Free(s, e.t)
  }

  function SetList(s: State, c: ContextId, l: ListState): State
    requires c in s.heap
  {
    s.(heap := s.heap[c := s.heap[c].(list := l)])
  }

  function Crash(s: State): State {
    s.(crashed := true)
  }

  /** Erasing the map entry frees the context it owns. */
  function EraseEntry(s: State, t: Thread): State
    requires t in s.lists
  {
    s.(lists := s.lists - {t}, heap := s.heap - {s.lists[t]})
  }

  function PostAll(s: State, m: Method): map<Thread, seq<Task>> {
    map t | t in s.lists.Keys + s.queues.Keys ::
      Queue(s, t) + (if t in s.lists then [Task(s.lists[t], m)] else [])
  }

  /** The range-for over context->list once its iterator stands at c: either
      the next callback starts or the iterator is destroyed. */
  function Arrive(s: State, t: Thread, ctx: ContextId, m: Method, c: Cursor): State
    requires ctx in s.heap && (c.At? ==> s.heap[ctx].list.depth > 0)
  {
    var l := s.heap[ctx].list;
    if AtEnd(l, c) || c.index >= |l.slots| then
      Push(SetList(s, ctx, Drop(l, c)), t, Finished(ctx, m))
    else
      var slot := l.slots[c.index];
      if slot.Null? then Crash(s)
      else Push(s, t, Looping(ctx, m, c)).(calls := s.calls + [Callback(t, slot.obs, m)])
  }

  function Step(s: State, e: Event): State
    requires Enabled(s, e)
  {
    match e
    case StartAdd(t, o, hasRunner) =>
      if !hasRunner then s
      else
        var s1 := s.(added := s.added + {(t, o)});
        if t in s.lists then Push(s1, t, Adding(s.lists[t], o))
        else
          var c := s.nextId;
          Push(s1.(lists := s.lists[t := c], nextId := c + 1,
                   heap := s.heap[c := Context(t, ListState([], 0, s.kind))]), t, Adding(c, o))
    case FinishAdd(t) =>
      var f := Top(Stack(s, t));
      if f.ctx !in s.heap then Crash(s)
      else Pop(SetList(s, f.ctx, Add(s.heap[f.ctx].list, f.o)), t)
    case RemoveObserver(t, o) =>
      if t !in s.lists then s
      else if s.lists[t] !in s.heap then Crash(s)
      else
        var s1 := SetList(s, s.lists[t], Remove(s.heap[s.lists[t]].list, o));
        if s1.heap[s.lists[t]].list.slots == [] then EraseEntry(s1, t) else s1
    case Notify(t, m) =>
      if exists u :: u in s.lists && s.lists[u] !in s.heap then Crash(s)
      else s.(queues := PostAll(s, m))
    case RunTask(t) =>
      var task := Queue(s, t)[0];
      var s1 := s.(queues := s.queues[t := Queue(s, t)[1..]]);
      if t !in s.lists || s.lists[t] != task.ctx then s1 else Push(s1, t, Checked(task.ctx, task.m))
    case BeginLoop(t) =>
      var f := Top(Stack(s, t));
      if f.ctx !in s.heap then Crash(s)
      else
        var (l, c) := Begin(s.heap[f.ctx].list);
        Arrive(SetList(Pop(s, t), f.ctx, l), t, f.ctx, f.m, c)
    case Advance(t) =>
      var f := Top(Stack(s, t));
      if f.ctx !in s.heap then Crash(s)
      else
        var l := s.heap[f.ctx].list;
        if !Fits(l, f.cursor) || AtEnd(l, f.cursor) || l.depth == 0 then Crash(s)
        else Arrive(Pop(s, t), t, f.ctx, f.m, Next(l, f.cursor))
    case FinishTask(t) =>
      var f := Top(Stack(s, t));
      if f.ctx !in s.heap then Crash(s)
      else if s.heap[f.ctx].list.slots == [] && t in s.lists && s.lists[t] == f.ctx then
        EraseEntry(Pop(s, t), t)
      else Pop(s, t)
  }

  predicate CanRun(s: State, es: seq<Event>)
    decreases |es|
  {
    es == [] || (Enabled(s, es[0]) && CanRun(Step(s, es[0]), es[1..]))
  }

  function Run(s: State, es: seq<Event>): State
    requires CanRun(s, es)
    decreases |es|
  {
    if es == [] then s else Run(Step(s, es[0]), es[1..])
  }

  // ---------------------------------------------------------------- invariant

  function Loops(st: seq<Frame>): nat {
    if st == [] then 0 else (if Top(st).Looping? then 1 else 0) + Loops(st[..|st| - 1])
  }

  /** What thread t's stack says about the list l it is working on. */
  ghost predicate StackOk(st: seq<Frame>, c: ContextId, l: ListState) {
    && (forall i :: 0 <= i < |st| ==> st[i].ctx == c)
    && (forall i :: 0 <= i < |st| - 1 ==> st[i].Looping?)
    && (forall i :: 0 <= i < |st| && st[i].Looping? ==> CursorOk(l, st[i].cursor))
    && l.depth == Loops(st)
    && (l.slots == [] ==> st != [] && (Top(st).Adding? || Top(st).Finished?))
    && (l.depth > 0 ==> l.slots != [])
    && (l.depth == 0 ==> forall k :: 0 <= k < |l.slots| ==> l.slots[k].Held?)
    && ObserverPasses.Distinct(l.slots)
  }

  ghost predicate CursorOk(l: ListState, c: Cursor) {
    c.At? && Fits(l, c) && c.index < Clamp(c.limit, |l.slots|)
  }

  ghost predicate OwnsAll(s: State) {
    && (forall t :: t in s.lists ==> s.lists[t] in s.heap && s.heap[s.lists[t]].owner == t)
    && (forall c :: c in s.heap ==>
          c < s.nextId && s.heap[c].owner in s.lists && s.lists[s.heap[c].owner] == c)
  }

  ghost predicate HistoryOk(s: State) {
    && (forall c: ContextId, o: Observer :: c in s.heap && Held(o) in s.heap[c].list.slots ==> (s.heap[c].owner, o) in s.added)
    && (forall t, i :: t in s.stacks && 0 <= i < |s.stacks[t]| && s.stacks[t][i].Adding? ==>
          (t, s.stacks[t][i].o) in s.added)
    && (forall i :: 0 <= i < |s.calls| ==> (s.calls[i].t, s.calls[i].o) in s.added)
  }

  ghost predicate ThreadOk(s: State, t: Thread) {
    if t in s.lists && s.lists[t] in s.heap then StackOk(Stack(s, t), s.lists[t], s.heap[s.lists[t]].list)
    else Stack(s, t) == []
  }

  ghost predicate Inv(s: State) {
    && !s.crashed
    && OwnsAll(s)
    && HistoryOk(s)
    && (forall t :: ThreadOk(s, t))
    && QueuesOk(s)
  }

  ghost predicate QueuesOk(s: State) {
    forall t, i :: t in s.queues && 0 <= i < |s.queues[t]| ==> s.queues[t][i].ctx < s.nextId
  }

  lemma LoopsPush(st: seq<Frame>, f: Frame)
    ensures Loops(st + [f]) == Loops(st) + (if f.Looping? then 1 else 0)
  {
    assert (st + [f])[..|st|] == st;
  }

  lemma LoopsOfCallbacks(st: seq<Frame>)
    requires forall i :: 0 <= i < |st| ==> st[i].Looping?
    ensures Loops(st) == |st|
    decreases |st|
  {
    if st != [] { LoopsOfCallbacks(st[..|st| - 1]); }
  }

  /** Thread t replaced its stack and the list of its own context; everything
      else that the invariant speaks of stayed. */
  ghost predicate OnlyOwn(s: State, s': State, t: Thread, l: ListState) {
    && t in s.lists && s.lists[t] in s.heap
    && s'.lists == s.lists && s'.nextId == s.nextId
    && s'.heap == s.heap[s.lists[t] := s.heap[s.lists[t]].(list := l)]
    && (forall u :: u != t ==> Stack(s', u) == Stack(s, u))
    && StackOk(Stack(s', t), s.lists[t], l)
    && !s'.crashed
  }

  lemma OwnStepKeeps(s: State, s': State, t: Thread, l: ListState)
    requires Inv(s) && OnlyOwn(s, s', t, l) && HistoryOk(s') && QueuesOk(s')
    ensures Inv(s')
  {
    forall u ensures ThreadOk(s', u) {
      assert ThreadOk(s, u);
    }
  }

  /** Thread t's context was erased when its list and its stack were empty. */
  lemma EraseKeeps(s: State, s': State, t: Thread)
    requires Inv(s) && t in s.lists && HistoryOk(s')
    requires s'.lists == s.lists - {t} && s'.heap == s.heap - {s.lists[t]} && s'.nextId == s.nextId
    requires forall u :: u != t ==> Stack(s', u) == Stack(s, u)
    requires Stack(s', t) == [] && !s'.crashed && s'.queues == s.queues
    ensures Inv(s')
  {
    forall u ensures ThreadOk(s', u) {
      assert ThreadOk(s, u);
      if u != t && u in s.lists { assert s.lists[u] != s.lists[t]; }
    }
  }

  // The stack discipline, one lemma per kind of step.

  lemma StackPush(st: seq<Frame>, c: ContextId, l: ListState, f: Frame)
    requires StackOk(st, c, l) && (st == [] || Top(st).Looping?) && f.ctx == c
    requires f.Adding? || (f.Checked? && l.slots != [])
    ensures StackOk(st + [f], c, l)
  {
    LoopsPush(st, f);
  }

  lemma StackFinishAdd(st: seq<Frame>, c: ContextId, l: ListState, o: Observer)
    requires StackOk(st, c, l) && st != [] && Top(st).Adding?
    ensures StackOk(st[..|st| - 1], c, Add(l, o))
  {
    ObserverPasses.ListStepKeeps(l, ObserverPasses.AddE(o));
    var m := Add(l, o);
    forall i | 0 <= i < |st| - 1 ensures CursorOk(m, st[i].cursor) {
      assert st[i].Looping?;
    }
    assert m.slots != [];
  }

  lemma StackFinish(st: seq<Frame>, c: ContextId, l: ListState)
    requires StackOk(st, c, l) && st != [] && Top(st).Finished?
    ensures l.slots == [] ==> |st| == 1
    ensures l.slots != [] ==> StackOk(st[..|st| - 1], c, l)
  {
    var below := st[..|st| - 1];
    assert st == below + [Top(st)];
    LoopsPush(below, Top(st));
    LoopsOfCallbacks(below);
  }

  lemma StackRemove(st: seq<Frame>, c: ContextId, l: ListState, o: Observer)
    requires StackOk(st, c, l) && (st == [] || Top(st).Looping?)
    ensures Remove(l, o).slots == [] ==> st == []
    ensures Remove(l, o).slots != [] ==> StackOk(st, c, Remove(l, o))
  {
    ObserverPasses.ListStepKeeps(l, ObserverPasses.RemoveE(o));
    if st != [] {
      assert l.depth > 0;
    } else {
      var s, i := l.slots, FirstIndex(l.slots, Held(o));
      var t := Remove(l, o).slots;
      assert i < |s| ==> forall k :: 0 <= k < |t| ==> t[k] == s[if k < i then k else k + 1];
    }
  }

  lemma CompactedSlots(s: seq<Slot>)
    ensures forall k :: 0 <= k < |Compacted(s)| ==> Compacted(s)[k].Held? && Compacted(s)[k] in s
    ensures ObserverPasses.Distinct(s) ==> ObserverPasses.Distinct(Compacted(s))
  {
    ObserverPasses.CompactedKeeps(s);
  }

  /** The loop stands at a cursor of a list it counts in; below is the rest of
      the stack.  Either a callback starts or the iterator dies. */
  lemma StackArrive(below: seq<Frame>, c: ContextId, m: Method, l: ListState, cur: Cursor)
    requires l.depth == Loops(below) + 1 && l.slots != [] && ObserverPasses.Distinct(l.slots)
    requires forall i :: 0 <= i < |below| ==> below[i].Looping? && below[i].ctx == c && CursorOk(l, below[i].cursor)
    requires cur.At? && Fits(l, cur) && (AtEnd(l, cur) || l.slots[cur.index].Held?)
    ensures AtEnd(l, cur) ==> StackOk(below + [Finished(c, m)], c, Drop(l, cur))
    ensures !AtEnd(l, cur) ==> StackOk(below + [Looping(c, m, cur)], c, l)
  {
    if AtEnd(l, cur) {
      StackEnds(below, c, m, l);
    } else {
      StackCalls(below, c, m, l, cur);
    }
  }

  lemma StackCalls(below: seq<Frame>, c: ContextId, m: Method, l: ListState, cur: Cursor)
    requires l.depth == Loops(below) + 1 && l.slots != [] && ObserverPasses.Distinct(l.slots)
    requires forall i :: 0 <= i < |below| ==> below[i].Looping? && below[i].ctx == c && CursorOk(l, below[i].cursor)
    requires CursorOk(l, cur)
    ensures StackOk(below + [Looping(c, m, cur)], c, l)
  {
    LoopsPush(below, Looping(c, m, cur));
  }

  lemma StackEnds(below: seq<Frame>, c: ContextId, m: Method, l: ListState)
    requires l.depth == Loops(below) + 1 && l.slots != [] && ObserverPasses.Distinct(l.slots)
    requires forall i :: 0 <= i < |below| ==> below[i].Looping? && below[i].ctx == c && CursorOk(l, below[i].cursor)
    ensures StackOk(below + [Finished(c, m)], c,
                    if l.depth == 1 then l.(depth := 0, slots := Compacted(l.slots)) else l.(depth := l.depth - 1))
  {
    LoopsOfCallbacks(below);
    if l.depth == 1 {
      assert below + [Finished(c, m)] == [Finished(c, m)];
      LastLoopEnds(c, m, l);
    } else {
      InnerLoopEnds(below, c, m, l);
    }
  }

  lemma LastLoopEnds(c: ContextId, m: Method, l: ListState)
    requires ObserverPasses.Distinct(l.slots)
    ensures StackOk([Finished(c, m)], c, l.(depth := 0, slots := Compacted(l.slots)))
  {
    LoopsPush([], Finished(c, m));
    assert [] + [Finished(c, m)] == [Finished(c, m)];
    CompactedSlots(l.slots);
  }

  lemma InnerLoopEnds(below: seq<Frame>, c: ContextId, m: Method, l: ListState)
    requires l.depth == Loops(below) + 1 && l.depth > 1 && l.slots != [] && ObserverPasses.Distinct(l.slots)
    requires forall i :: 0 <= i < |below| ==> below[i].Looping? && below[i].ctx == c && CursorOk(l, below[i].cursor)
    ensures StackOk(below + [Finished(c, m)], c, l.(depth := l.depth - 1))
  {
    LoopsPush(below, Finished(c, m));
  }

  lemma KeepsStartAdd(s: State, e: Event)
    requires Inv(s) && Enabled(s, e) && e.StartAdd?
    ensures Inv(Step(s, e))
  {
    var t, s' := e.t, Step(s, e);
    if e.hasRunner {
      if t in s.lists {
        KeepsPush(s, s', t, Adding(s.lists[t], e.o));
      } else {
        assert Stack(s, t) == [] by { assert ThreadOk(s, t); }
        assert Stack(s', t) == [Adding(s.nextId, e.o)];
        KeepsNewContext(s, s', t, e.o);
      }
    }
  }

  /** Thread t entered AddObserver or NotifyWrapper on the context it has. */
  lemma KeepsPush(s: State, s': State, t: Thread, f: Frame)
    requires Inv(s) && t in s.lists && f.ctx == s.lists[t] && Free(s, t)
    requires f.Adding? || (f.Checked? && s.heap[f.ctx].list.slots != [])
    requires s'.lists == s.lists && s'.heap == s.heap && s'.nextId == s.nextId && s'.calls == s.calls && !s'.crashed
    requires s.added <= s'.added && (f.Adding? ==> (t, f.o) in s'.added)
    requires s'.stacks == s.stacks[t := Stack(s, t) + [f]] && QueuesOk(s')
    ensures Inv(s')
  {
    assert ThreadOk(s, t);
    PushIsOwn(s, s', t, f);
    HistoryGrows(s, s', t, f);
    OwnStepKeeps(s, s', t, s.heap[f.ctx].list);
  }

  lemma PushIsOwn(s: State, s': State, t: Thread, f: Frame)
    requires t in s.lists && f.ctx == s.lists[t] && f.ctx in s.heap && Free(s, t)
    requires StackOk(Stack(s, t), f.ctx, s.heap[f.ctx].list)
    requires f.Adding? || (f.Checked? && s.heap[f.ctx].list.slots != [])
    requires s'.lists == s.lists && s'.heap == s.heap && s'.nextId == s.nextId && !s'.crashed
    requires s'.stacks == s.stacks[t := Stack(s, t) + [f]]
    ensures OnlyOwn(s, s', t, s.heap[f.ctx].list)
  {
    StackPush(Stack(s, t), f.ctx, s.heap[f.ctx].list, f);
  }

  lemma HistoryGrows(s: State, s': State, t: Thread, f: Frame)
    requires HistoryOk(s) && s'.heap == s.heap && s'.calls == s.calls
    requires s.added <= s'.added && (f.Adding? ==> (t, f.o) in s'.added)
    requires s'.stacks == s.stacks[t := Stack(s, t) + [f]]
    ensures HistoryOk(s')
  {
  }

  lemma KeepsNewContext(s: State, s': State, t: Thread, o: Observer)
    requires Inv(s) && t !in s.lists
    requires s'.lists == s.lists[t := s.nextId] && s'.nextId == s.nextId + 1 && s'.queues == s.queues && !s'.crashed
    requires s'.heap == s.heap[s.nextId := Context(t, ListState([], 0, s.kind))]
    requires s'.stacks == s.stacks[t := [Adding(s.nextId, o)]] && s'.calls == s.calls
    requires s'.added == s.added + {(t, o)}
    ensures Inv(s')
  {
    LoopsPush([], Adding(s.nextId, o));
    assert [] + [Adding(s.nextId, o)] == [Adding(s.nextId, o)];
    assert StackOk([Adding(s.nextId, o)], s.nextId, ListState([], 0, s.kind));
    forall u ensures ThreadOk(s', u) {
      assert ThreadOk(s, u);
      assert u != t ==> Stack(s', u) == Stack(s, u);
    }
  }

  lemma KeepsFinishAdd(s: State, e: Event)
    requires Inv(s) && Enabled(s, e) && e.FinishAdd?
    ensures Inv(Step(s, e))
  {
    var t := e.t;
    var f := Top(Stack(s, t));
    assert ThreadOk(s, t);
    StackFinishAdd(Stack(s, t), f.ctx, s.heap[f.ctx].list, f.o);
    HistoryAdds(s, t, f);
    OwnStepKeeps(s, Step(s, e), t, Add(s.heap[f.ctx].list, f.o));
  }

  lemma HistoryAdds(s: State, t: Thread, f: Frame)
    requires HistoryOk(s) && Stack(s, t) != [] && Top(Stack(s, t)) == f && f.Adding?
    requires f.ctx in s.heap && s.heap[f.ctx].owner == t
    ensures HistoryOk(Pop(SetList(s, f.ctx, Add(s.heap[f.ctx].list, f.o)), t))
  {
    assert (t, f.o) in s.added;
  }

  lemma KeepsRemove(s: State, e: Event)
    requires Inv(s) && Enabled(s, e) && e.RemoveObserver?
    ensures Inv(Step(s, e))
  {
    var t, s' := e.t, Step(s, e);
    assert ThreadOk(s, t);
    if t in s.lists {
      var l := s.heap[s.lists[t]].list;
      StackRemove(Stack(s, t), s.lists[t], l, e.o);
      RemoveHolds(l, e.o);
      if Remove(l, e.o).slots == [] {
        EraseKeeps(s, s', t);
      } else {
        OwnStepKeeps(s, s', t, Remove(l, e.o));
      }
    }
  }

  lemma RemoveHolds(l: ListState, o: Observer)
    ensures forall x: Observer :: Held(x) in Remove(l, o).slots ==> Held(x) in l.slots
  {
  }

  lemma KeepsRunTask(s: State, e: Event)
    requires Inv(s) && Enabled(s, e) && e.RunTask?
    ensures Inv(Step(s, e))
  {
    var t, s' := e.t, Step(s, e);
    assert ThreadOk(s, t);
    var task := Queue(s, t)[0];
    if t in s.lists && s.lists[t] == task.ctx {
      assert s.heap[task.ctx].list.slots != [];
      KeepsPush(s, s', t, Checked(task.ctx, task.m));
    } else {
      QueuesMayChange(s, s'.queues);
    }
  }

  lemma QueuesMayChange(s: State, q: map<Thread, seq<Task>>)
    requires Inv(s) && forall t, i :: t in q && 0 <= i < |q[t]| ==> q[t][i].ctx < s.nextId
    ensures Inv(s.(queues := q))
  {
    forall u ensures ThreadOk(s.(queues := q), u) { assert ThreadOk(s, u); }
  }

  lemma KeepsNotify(s: State, e: Event)
    requires Inv(s) && Enabled(s, e) && e.Notify?
    ensures Inv(Step(s, e))
  {
    QueuesMayChange(s, PostAll(s, e.m));
  }

  /** s' is s with thread t's loop newly arrived at cur of its own list, now l. */
  ghost predicate Arrived(s: State, s': State, t: Thread, below: seq<Frame>, m: Method, l: ListState, cur: Cursor) {
    && t in s.lists && s.lists[t] in s.heap && l.slots == s.heap[s.lists[t]].list.slots
    && cur.At? && Fits(l, cur) && (AtEnd(l, cur) || l.slots[cur.index].Held?) && l.depth > 0
    && (forall u :: u != t ==> Stack(s', u) == Stack(s, u))
    && s'.lists == s.lists && s'.nextId == s.nextId && s'.queues == s.queues && s'.added == s.added && !s'.crashed
    && s'.heap == s.heap[s.lists[t] := s.heap[s.lists[t]].(list := if AtEnd(l, cur) then Drop(l, cur) else l)]
    && Stack(s', t) == below + [if AtEnd(l, cur) then Finished(s.lists[t], m) else Looping(s.lists[t], m, cur)]
    && below <= Stack(s, t)
    && s'.calls == (if AtEnd(l, cur) then s.calls else s.calls + [Callback(t, l.slots[cur.index].obs, m)])
  }

  lemma BeginArrives(s: State, t: Thread)
    requires Enabled(s, BeginLoop(t)) && t in s.lists && s.lists[t] in s.heap
    requires StackOk(Stack(s, t), s.lists[t], s.heap[s.lists[t]].list)
    ensures var (l, cur) := Begin(s.heap[s.lists[t]].list); var st := Stack(s, t); var s' := Step(s, BeginLoop(t));
      && Arrived(s, s', t, st[..|st| - 1], Top(st).m, l, cur)
      && StackOk(Stack(s', t), s.lists[t], s'.heap[s.lists[t]].list)
  {
    var st := Stack(s, t);
    var (l, cur) := Begin(s.heap[s.lists[t]].list);
    StackArrive(st[..|st| - 1], s.lists[t], Top(st).m, l, cur);
  }

  lemma AdvanceArrives(s: State, t: Thread)
    requires Enabled(s, Advance(t)) && t in s.lists && s.lists[t] in s.heap
    requires StackOk(Stack(s, t), s.lists[t], s.heap[s.lists[t]].list)
    ensures var l := s.heap[s.lists[t]].list; var st := Stack(s, t); var s' := Step(s, Advance(t));
      && CursorOk(l, Top(st).cursor)
      && Arrived(s, s', t, st[..|st| - 1], Top(st).m, l, Next(l, Top(st).cursor))
      && StackOk(Stack(s', t), s.lists[t], s'.heap[s.lists[t]].list)
  {
    var st := Stack(s, t);
    var l := s.heap[s.lists[t]].list;
    assert CursorOk(l, Top(st).cursor);
    DepthBelow(st, l);
    var next := Next(l, Top(st).cursor);
    StackArrive(st[..|st| - 1], s.lists[t], Top(st).m, l, next);
    AdvanceIs(s, t, s.lists[t], l, Top(st), next);
  }

  lemma DepthBelow(st: seq<Frame>, l: ListState)
    requires st != [] && Top(st).Looping? && l.depth == Loops(st)
    ensures l.depth == Loops(st[..|st| - 1]) + 1
  {
  }

  lemma AdvanceIs(s: State, t: Thread, c: ContextId, l: ListState, f: Frame, next: Cursor)
    requires Enabled(s, Advance(t)) && t in s.lists && s.lists[t] == c && c in s.heap && s.heap[c].list == l
    requires Stack(s, t) != [] && Top(Stack(s, t)) == f && f.ctx == c && f.Looping? && l.depth > 0
    requires CursorOk(l, f.cursor) && next == Next(l, f.cursor)
    ensures Step(s, Advance(t)) == Arrive(Pop(s, t), t, c, f.m, next)
    ensures Arrived(s, Step(s, Advance(t)), t, Stack(s, t)[..|Stack(s, t)| - 1], f.m, l, next)
  {
  }

  lemma KeepsBeginLoop(s: State, e: Event)
    requires Inv(s) && Enabled(s, e) && e.BeginLoop?
    ensures Inv(Step(s, e))
  {
    assert ThreadOk(s, e.t);
    BeginArrives(s, e.t);
    var (l, cur) := Begin(s.heap[s.lists[e.t]].list);
    var st := Stack(s, e.t);
    KeepsArrival(s, Step(s, e), e.t, st[..|st| - 1], Top(st).m, l, cur);
  }

  lemma KeepsAdvance(s: State, e: Event)
    requires Inv(s) && Enabled(s, e) && e.Advance?
    ensures Inv(Step(s, e))
  {
    assert ThreadOk(s, e.t);
    AdvanceArrives(s, e.t);
    var l := s.heap[s.lists[e.t]].list;
    var st := Stack(s, e.t);
    KeepsArrival(s, Step(s, e), e.t, st[..|st| - 1], Top(st).m, l, Next(l, Top(st).cursor));
  }

  lemma KeepsArrival(s: State, s': State, t: Thread, below: seq<Frame>, m: Method, l: ListState,
                     cur: Cursor)
    requires Inv(s) && Arrived(s, s', t, below, m, l, cur)
    requires StackOk(Stack(s', t), s.lists[t], s'.heap[s.lists[t]].list)
    ensures Inv(s')
  {
    HistoryArrives(s, s', t, below, m, l, cur);
    OwnStepKeeps(s, s', t, s'.heap[s.lists[t]].list);
  }

  lemma HistoryArrives(s: State, s': State, t: Thread, below: seq<Frame>, m: Method, l: ListState,
                       cur: Cursor)
    requires HistoryOk(s) && Arrived(s, s', t, below, m, l, cur) && s.heap[s.lists[t]].owner == t
    ensures HistoryOk(s')
  {
    CompactedSlots(l.slots);
    forall c: ContextId, o: Observer | c in s'.heap && Held(o) in s'.heap[c].list.slots
      ensures (s'.heap[c].owner, o) in s'.added
    {
      assert Held(o) in s.heap[c].list.slots;
    }
    forall u, i | u in s'.stacks && 0 <= i < |s'.stacks[u]| && s'.stacks[u][i].Adding?
      ensures (u, s'.stacks[u][i].o) in s'.added
    {
      assert s'.stacks[u][i] == Stack(s', u)[i] && Stack(s, u)[i] == Stack(s', u)[i];
    }
    if !AtEnd(l, cur) { assert Held(l.slots[cur.index].obs) in s.heap[s.lists[t]].list.slots; }
  }

  lemma KeepsFinishTask(s: State, e: Event)
    requires Inv(s) && Enabled(s, e) && e.FinishTask?
    ensures Inv(Step(s, e))
  {
    var t, s' := e.t, Step(s, e);
    assert ThreadOk(s, t);
    var c := Top(Stack(s, t)).ctx;
    StackFinish(Stack(s, t), c, s.heap[c].list);
    HistoryPops(s, t);
    if s.heap[c].list.slots == [] {
      EraseKeeps(s, s', t);
    } else {
      OwnStepKeeps(s, s', t, s.heap[c].list);
    }
  }

  lemma HistoryPops(s: State, t: Thread)
    requires HistoryOk(s) && Stack(s, t) != []
    ensures HistoryOk(Pop(s, t))
  {
  }

  lemma StepKeepsInv(s: State, e: Event)
    requires Inv(s) && Enabled(s, e)
    ensures Inv(Step(s, e))
  {
    match e
    case StartAdd(_, _, _) => KeepsStartAdd(s, e);
    case FinishAdd(_) => KeepsFinishAdd(s, e);
    case RemoveObserver(_, _) => KeepsRemove(s, e);
    case Notify(_, _) => KeepsNotify(s, e);
    case RunTask(_) => KeepsRunTask(s, e);
    case BeginLoop(_) => KeepsBeginLoop(s, e);
    case Advance(_) => KeepsAdvance(s, e);
    case FinishTask(_) => KeepsFinishTask(s, e);
  }

  lemma RunKeepsInv(s: State, es: seq<Event>)
    requires Inv(s) && CanRun(s, es)
    ensures Inv(Run(s, es))
    decreases |es|
  {
    if es != [] {
      StepKeepsInv(s, es[0]);
      RunKeepsInv(Step(s, es[0]), es[1..]);
    }
  }

  /** In every interleaving: no freed context is ever touched, contexts on a
      thread's stack are alive and belong to it (so none is freed while being
      walked), an observer is called only on a thread that added it, and a
      thread with nothing under way keeps no empty list behind. */
  lemma EveryInterleavingIsSafe(kind: Kind, es: seq<Event>)
    requires CanRun(Init(kind), es)
    ensures var s := Run(Init(kind), es);
      && !s.crashed
      && (forall i :: 0 <= i < |s.calls| ==> (s.calls[i].t, s.calls[i].o) in s.added)
      && (forall t, i :: t in s.stacks && 0 <= i < |s.stacks[t]| ==>
            s.stacks[t][i].ctx in s.heap && s.heap[s.stacks[t][i].ctx].owner == t)
      && (forall t :: t in s.lists && Stack(s, t) == [] ==>
            s.lists[t] in s.heap && s.heap[s.lists[t]].list.depth == 0 && |s.heap[s.lists[t]].list.slots| > 0 &&
            s.heap[s.lists[t]].list.slots[0].Held?)
  {
    RunKeepsInv(Init(kind), es);
    var s := Run(Init(kind), es);
    forall t ensures ThreadOk(s, t) { }
    forall t, i | t in s.stacks && 0 <= i < |s.stacks[t]|
      ensures s.stacks[t][i].ctx in s.heap && s.heap[s.stacks[t][i].ctx].owner == t
    {
      assert ThreadOk(s, t) && Stack(s, t)[i] == s.stacks[t][i];
    }
    forall t | t in s.lists && Stack(s, t) == []
      ensures s.heap[s.lists[t]].list.depth == 0 && |s.heap[s.lists[t]].list.slots| > 0
      ensures s.heap[s.lists[t]].list.slots[0].Held?
    {
      assert ThreadOk(s, t);
    }
  }

  /** A task for a context that was freed, even if its thread has since made a
      new one, is dropped and touches nothing. */
  lemma StaleTaskIsDropped(s: State, t: Thread)
    requires Inv(s) && Enabled(s, RunTask(t)) && Queue(s, t)[0].ctx !in s.heap
    ensures Step(s, RunTask(t)) == s.(queues := s.queues[t := Queue(s, t)[1..]])
  {
    assert t in s.lists ==> s.lists[t] in s.heap;
  }

  /** A context created after a task was posted is never that task's context. */
  lemma NewContextIsNew(s: State, e: Event)
    requires Inv(s) && Enabled(s, e) && e.StartAdd? && e.hasRunner && e.t !in s.lists
    ensures var c := Step(s, e).lists[e.t];
      c !in s.heap && forall u, i :: u in s.queues && 0 <= i < |s.queues[u]| ==> s.queues[u][i].ctx != c
  {
  }

  predicate IsCall(c: Callback, t: Thread, o: Observer) {
    c.t == t && c.o == o
  }

  /** Thread t neither has o registered nor is about to register it. */
  ghost predicate Quiet(s: State, t: Thread, o: Observer) {
    && (t in s.lists && s.lists[t] in s.heap ==> Held(o) !in s.heap[s.lists[t]].list.slots)
    && (forall i :: 0 <= i < |Stack(s, t)| && Stack(s, t)[i].Adding? ==> Stack(s, t)[i].o != o)
  }

  /** The part of the invariant that says where a thread's step can reach. */
  ghost predicate TopOwn(s: State, t: Thread) {
    Stack(s, t) != [] ==> t in s.lists && s.lists[t] in s.heap && Top(Stack(s, t)).ctx == s.lists[t]
  }

  lemma InvTop(s: State, t: Thread)
    requires Inv(s)
    ensures TopOwn(s, t)
  {
    assert ThreadOk(s, t);
  }

  /** Nothing of thread t's changed: its stack, its map entry, its context. */
  ghost predicate Untouched(s: State, s': State, t: Thread) {
    && Stack(s', t) == Stack(s, t)
    && (t in s'.lists <==> t in s.lists)
    && (t in s.lists ==> s'.lists[t] == s.lists[t])
    && (t in s.lists && s.lists[t] in s.heap ==>
          s.lists[t] in s'.heap && s'.heap[s.lists[t]] == s.heap[s.lists[t]])
  }

  lemma ArriveDoesNotReach(s: State, t: Thread, ctx: ContextId, m: Method, c: Cursor, u: Thread)
    requires ctx in s.heap && (c.At? ==> s.heap[ctx].list.depth > 0)
    requires u != t && (u in s.lists ==> s.lists[u] != ctx)
    ensures Untouched(s, Arrive(s, t, ctx, m, c), u)
  {
  }

  lemma BeginDoesNotReach(s: State, e: Event, t: Thread)
    requires OwnsAll(s) && TopOwn(s, e.t) && Enabled(s, e) && e.t != t && e.BeginLoop?
    ensures Untouched(s, Step(s, e), t)
  {
    var f := Top(Stack(s, e.t));
    var (l, c) := Begin(s.heap[f.ctx].list);
    ArriveDoesNotReach(SetList(Pop(s, e.t), f.ctx, l), e.t, f.ctx, f.m, c, t);
  }

  lemma AdvanceDoesNotReach(s: State, e: Event, t: Thread)
    requires OwnsAll(s) && TopOwn(s, e.t) && Enabled(s, e) && e.t != t && e.Advance?
    ensures Untouched(s, Step(s, e), t)
  {
    var f := Top(Stack(s, e.t));
    var l := s.heap[f.ctx].list;
    if Fits(l, f.cursor) && !AtEnd(l, f.cursor) && l.depth > 0 {
      ArriveDoesNotReach(Pop(s, e.t), e.t, f.ctx, f.m, Next(l, f.cursor), t);
    }
  }

  lemma OthersDoNotReach(s: State, e: Event, t: Thread)
    requires OwnsAll(s) && TopOwn(s, e.t) && Enabled(s, e) && e.t != t
    ensures Untouched(s, Step(s, e), t)
  {
    if e.BeginLoop? { BeginDoesNotReach(s, e, t); }
    if e.Advance? { AdvanceDoesNotReach(s, e, t); }
  }

  lemma CallsAreOwn(s: State, e: Event)
    requires Enabled(s, e)
    ensures s.calls <= Step(s, e).calls
    ensures forall i :: |s.calls| <= i < |Step(s, e).calls| ==> Step(s, e).calls[i].t == e.t
  {
    if !e.BeginLoop? && !e.Advance? { OnlyLoopsCall(s, e); }
  }

  lemma OnlyLoopsCall(s: State, e: Event)
    requires Enabled(s, e) && !e.BeginLoop? && !e.Advance?
    ensures Step(s, e).calls == s.calls
  {
  }

  lemma OwnBeginStaysQuiet(s: State, e: Event, o: Observer)
    requires TopOwn(s, e.t) && Enabled(s, e) && Quiet(s, e.t, o) && e.BeginLoop?
    ensures Quiet(Step(s, e), e.t, o)
    ensures forall i :: |s.calls| <= i < |Step(s, e).calls| ==> !IsCall(Step(s, e).calls[i], e.t, o)
  {
    CompactedSlots(s.heap[s.lists[e.t]].list.slots);
  }

  lemma OwnAdvanceStaysQuiet(s: State, e: Event, o: Observer)
    requires TopOwn(s, e.t) && Enabled(s, e) && Quiet(s, e.t, o) && e.Advance?
    ensures Quiet(Step(s, e), e.t, o)
    ensures forall i :: |s.calls| <= i < |Step(s, e).calls| ==> !IsCall(Step(s, e).calls[i], e.t, o)
  {
    CompactedSlots(s.heap[s.lists[e.t]].list.slots);
  }

  lemma OwnStepStaysQuiet(s: State, e: Event, o: Observer)
    requires OwnsAll(s) && TopOwn(s, e.t) && Enabled(s, e) && Quiet(s, e.t, o)
    requires !e.BeginLoop? && !e.Advance? && !(e.StartAdd? && e.o == o)
    ensures Quiet(Step(s, e), e.t, o)
  {
    if e.RemoveObserver? && e.t in s.lists { RemoveHolds(s.heap[s.lists[e.t]].list, e.o); }
  }

  lemma StepStaysQuiet(s: State, e: Event, t: Thread, o: Observer)
    requires OwnsAll(s) && TopOwn(s, e.t) && Enabled(s, e) && Quiet(s, t, o)
    requires !(e.StartAdd? && e.t == t && e.o == o)
    ensures Quiet(Step(s, e), t, o)
    ensures s.calls <= Step(s, e).calls
    ensures forall i :: |s.calls| <= i < |Step(s, e).calls| ==> !IsCall(Step(s, e).calls[i], t, o)
  {
    CallsAreOwn(s, e);
    if e.t != t {
      OthersDoNotReach(s, e, t);
    } else if e.BeginLoop? {
      OwnBeginStaysQuiet(s, e, o);
    } else if e.Advance? {
      OwnAdvanceStaysQuiet(s, e, o);
    } else {
      OwnStepStaysQuiet(s, e, o);
    }
  }

  /** Removing an observer aborts its notifications in transit: however the
      threads go on, it is not called again on this thread unless added again. */
  lemma RemovedIsNotCalled(s: State, t: Thread, o: Observer, es: seq<Event>)
    requires Inv(s) && Enabled(s, RemoveObserver(t, o))
    requires CanRun(Step(s, RemoveObserver(t, o)), es)
    requires forall e :: e in es ==> !(e.StartAdd? && e.t == t && e.o == o)
    ensures var s' := Run(Step(s, RemoveObserver(t, o)), es);
      s.calls <= s'.calls && forall i :: |s.calls| <= i < |s'.calls| ==> !IsCall(s'.calls[i], t, o)
  {
    var s1 := Step(s, RemoveObserver(t, o));
    assert ThreadOk(s, t);
    StepKeepsInv(s, RemoveObserver(t, o));
    if t in s.lists { RemoveDrops(s.heap[s.lists[t]].list, o); }
    RunStaysQuiet(s1, es, t, o);
  }

  lemma RemoveDrops(l: ListState, o: Observer)
    requires ObserverPasses.Distinct(l.slots)
    ensures Held(o) !in Remove(l, o).slots
  {
    var s, i := l.slots, FirstIndex(l.slots, Held(o));
    if i == |s| { assert s[..i] == s; }
  }

  lemma RunStaysQuiet(s: State, es: seq<Event>, t: Thread, o: Observer)
    requires Inv(s) && CanRun(s, es) && Quiet(s, t, o)
    requires forall e :: e in es ==> !(e.StartAdd? && e.t == t && e.o == o)
    ensures s.calls <= Run(s, es).calls
    ensures forall i :: |s.calls| <= i < |Run(s, es).calls| ==> !IsCall(Run(s, es).calls[i], t, o)
    decreases |es|
  {
    if es != [] {
      assert es[0] in es && forall e :: e in es[1..] ==> e in es;
      StepKeepsInv(s, es[0]);
      InvTop(s, es[0].t);
      StepStaysQuiet(s, es[0], t, o);
      RunStaysQuiet(Step(s, es[0]), es[1..], t, o);
    }
  }
}
