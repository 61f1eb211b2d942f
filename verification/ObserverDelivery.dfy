/** What a thread-safe observer list is for: every notification reaches every
    registered observer, on its own thread, and reaches it once. */
module ObserverDelivery {
  import opened ObserverLists
  import ObserverPasses
  import opened ObserverThreads

  function Times(calls: seq<Callback>, c: Callback): nat {
    multiset(calls)[c]
  }

  ghost predicate Registered(s: State, t: Thread, o: Observer) {
    t in s.lists && s.lists[t] in s.heap && Held(o) in s.heap[s.lists[t]].list.slots
  }

  predicate IsFor(f: Frame, m: Method) {
    !f.Adding? && f.m == m
  }

  predicate NoTask(q: seq<Task>, m: Method) {
    forall i :: 0 <= i < |q| ==> q[i].m != m
  }

  predicate NoFrame(st: seq<Frame>, m: Method) {
    forall i :: 0 <= i < |st| ==> !IsFor(st[i], m)
  }

  /** Thread t has no task for m left, waiting or begun. */
  predicate Over(s: State, t: Thread, m: Method) {
    NoTask(Queue(s, t), m) && NoFrame(Stack(s, t), m)
  }

  // ---------------------------------------- what the delivery on a thread needs

  datatype Local = Local(
    ctx: ContextId,
    list: ListState,
    stack: seq<Frame>,
    queue: seq<Task>,
    times: nat)        // how often m has been run on o

  ghost function Here(s: State, t: Thread, o: Observer, m: Method): Local
    requires t in s.lists && s.lists[t] in s.heap
  {
    Local(s.lists[t], s.heap[s.lists[t]].list, Stack(s, t), Queue(s, t), Times(s.calls, Callback(t, o, m)))
  }

  ghost predicate OnlyTask(q: seq<Task>, k: int, c: ContextId, m: Method) {
    0 <= k < |q| && q[k] == Task(c, m) && forall j :: 0 <= j < |q| && j != k ==> q[j].m != m
  }

  ghost predicate OnlyFrame(st: seq<Frame>, k: int, m: Method) {
    0 <= k < |st| && IsFor(st[k], m) && forall j :: 0 <= j < |st| && j != k ==> !IsFor(st[j], m)
  }

  predicate Within(i: nat, limit: Limit) {
    limit.UpTo? ==> i < limit.n
  }

  function PlaceOf(l: ListState, o: Observer): nat {
    FirstIndex(l.slots, Held(o))
  }

  /** The observer has been called if and only if the loop has come to it, and
      it lies before the loop's limit. */
  predicate RightTimes(l: ListState, f: Frame, times: nat, o: Observer) {
    match f
    case Adding(_, _) => false
    case Checked(_, _) => times == 0
    case Looping(_, _, cursor) =>
      cursor.At? && Within(PlaceOf(l, o), cursor.limit) && times == if PlaceOf(l, o) <= cursor.index then 1 else 0
    case Finished(_, _) => times == 1
  }

  ghost predicate InTransit(v: Local, m: Method) {
    v.times == 0 && NoFrame(v.stack, m) && exists k :: OnlyTask(v.queue, k, v.ctx, m)
  }

  ghost predicate Running(v: Local, o: Observer, m: Method) {
    NoTask(v.queue, m) && exists k :: OnlyFrame(v.stack, k, m) && RightTimes(v.list, v.stack[k], v.times, o)
  }

  ghost predicate Delivered(v: Local, m: Method) {
    v.times == 1 && NoFrame(v.stack, m) && NoTask(v.queue, m)
  }

  ghost predicate OnItsWay(v: Local, o: Observer, m: Method) {
    && Held(o) in v.list.slots
    && (InTransit(v, m) || Running(v, o, m) || Delivered(v, m))
  }

  // -------------------------------------------- small changes keep it on its way

  lemma OtherTaskPosted(v: Local, o: Observer, m: Method, task: Task)
    requires OnItsWay(v, o, m) && task.m != m
    ensures OnItsWay(v.(queue := v.queue + [task]), o, m)
  {
    if InTransit(v, m) {
      var k :| OnlyTask(v.queue, k, v.ctx, m);
      assert OnlyTask(v.queue + [task], k, v.ctx, m);
    }
  }

  lemma OtherTaskTaken(v: Local, o: Observer, m: Method)
    requires OnItsWay(v, o, m) && v.queue != [] && v.queue[0].m != m
    ensures OnItsWay(v.(queue := v.queue[1..]), o, m)
  {
    if InTransit(v, m) {
      var k :| OnlyTask(v.queue, k, v.ctx, m);
      assert OnlyTask(v.queue[1..], k - 1, v.ctx, m);
    }
  }

  lemma OtherFramePushed(v: Local, o: Observer, m: Method, f: Frame)
    requires OnItsWay(v, o, m) && !IsFor(f, m)
    ensures OnItsWay(v.(stack := v.stack + [f]), o, m)
  {
    if Running(v, o, m) {
      var k :| OnlyFrame(v.stack, k, m) && RightTimes(v.list, v.stack[k], v.times, o);
      assert OnlyFrame(v.stack + [f], k, m) && (v.stack + [f])[k] == v.stack[k];
    }
  }

  lemma OtherFramePopped(v: Local, o: Observer, m: Method)
    requires OnItsWay(v, o, m) && v.stack != [] && !IsFor(Top(v.stack), m)
    ensures OnItsWay(v.(stack := v.stack[..|v.stack| - 1]), o, m)
  {
    if Running(v, o, m) {
      var k :| OnlyFrame(v.stack, k, m) && RightTimes(v.list, v.stack[k], v.times, o);
      assert OnlyFrame(v.stack[..|v.stack| - 1], k, m);
    }
  }

  /** The list changed, but not the observer's place, unless no loop of m is
      under way. */
  lemma ListChanged(v: Local, o: Observer, m: Method, l: ListState)
    requires OnItsWay(v, o, m) && Held(o) in l.slots
    requires PlaceOf(l, o) == PlaceOf(v.list, o) || forall i :: 0 <= i < |v.stack| ==> !v.stack[i].Looping?
    ensures OnItsWay(v.(list := l), o, m)
  {
    if Running(v, o, m) {
      var k :| OnlyFrame(v.stack, k, m) && RightTimes(v.list, v.stack[k], v.times, o);
      assert RightTimes(l, v.stack[k], v.times, o);
    }
  }

  // -------------------------------------------------- the steps of m itself

  lemma TaskTaken(v: Local, o: Observer, m: Method)
    requires OnItsWay(v, o, m) && v.queue != [] && v.queue[0].m == m
    ensures v.queue[0].ctx == v.ctx
    ensures OnItsWay(v.(queue := v.queue[1..], stack := v.stack + [Checked(v.ctx, m)]), o, m)
  {
    assert InTransit(v, m);
    var k :| OnlyTask(v.queue, k, v.ctx, m);
    assert k == 0;
    assert OnlyFrame(v.stack + [Checked(v.ctx, m)], |v.stack|, m);
  }

  lemma TopIsIt(v: Local, o: Observer, m: Method)
    requires OnItsWay(v, o, m) && v.stack != [] && IsFor(Top(v.stack), m)
    ensures NoTask(v.queue, m) && RightTimes(v.list, Top(v.stack), v.times, o)
    ensures NoFrame(v.stack[..|v.stack| - 1], m)
  {
    assert IsFor(v.stack[|v.stack| - 1], m);
    var k :| OnlyFrame(v.stack, k, m) && RightTimes(v.list, v.stack[k], v.times, o);
    assert k == |v.stack| - 1;
  }

  lemma TopReplaced(v: Local, o: Observer, m: Method, below: seq<Frame>, f: Frame)
    requires Held(o) in v.list.slots && NoTask(v.queue, m) && NoFrame(below, m)
    requires IsFor(f, m) && RightTimes(v.list, f, v.times, o) && v.stack == below + [f]
    ensures OnItsWay(v, o, m)
  {
    assert v.stack[|below|] == f;
    assert OnlyFrame(v.stack, |below|, m);
  }

  lemma {:induction false} FoundAt(s: seq<Slot>, x: Slot, i: nat)
    requires i < |s| && s[i] == x
    ensures FirstIndex(s, x) <= i
  {
    if s[0] != x { FoundAt(s[1..], x, i - 1); }
  }

  lemma HasPlace(l: ListState, o: Observer)
    requires Held(o) in l.slots
    ensures PlaceOf(l, o) < |l.slots| && l.slots[PlaceOf(l, o)] == Held(o)
  {
    var i :| 0 <= i < |l.slots| && l.slots[i] == Held(o);
    FoundAt(l.slots, Held(o), i);
  }

  lemma OnePlace(l: ListState, o: Observer, i: nat)
    requires ObserverPasses.Distinct(l.slots) && Held(o) in l.slots && i < |l.slots|
    ensures l.slots[i] == Held(o) <==> i == PlaceOf(l, o)
  {
    HasPlace(l, o);
  }

  /** Skipping null slots does not skip the observer. */
  lemma SkipFinds(l: ListState, o: Observer, i: nat, max: nat)
    requires Held(o) in l.slots && i <= max <= |l.slots| && i <= PlaceOf(l, o) < max
    ensures Skip(l.slots, i, max) <= PlaceOf(l, o)
  {
    HasPlace(l, o);
  }

  // ------------------------------------------------- how the list may change

  lemma {:induction false} FoundBefore(s: seq<Slot>, t: seq<Slot>, x: Slot)
    requires x in s
    ensures FirstIndex(s + t, x) == FirstIndex(s, x)
  {
    if s[0] != x {
      assert (s + t)[1..] == s[1..] + t;
      FoundBefore(s[1..], t, x);
    }
  }

  lemma AddKeepsPlace(l: ListState, o: Observer, a: Observer)
    requires Held(o) in l.slots
    ensures Held(o) in Add(l, a).slots && PlaceOf(Add(l, a), o) == PlaceOf(l, o)
  {
    FoundBefore(l.slots, [Held(a)], Held(o));
  }

  lemma RemoveKeepsPlace(l: ListState, o: Observer, a: Observer)
    requires ObserverPasses.Distinct(l.slots) && Held(o) in l.slots && a != o
    ensures Held(o) in Remove(l, a).slots
    ensures l.depth > 0 ==> PlaceOf(Remove(l, a), o) == PlaceOf(l, o)
  {
    var s, k, i := l.slots, PlaceOf(l, o), FirstIndex(l.slots, Held(a));
    HasPlace(l, o);
    if l.depth > 0 {
      var r := Remove(l, a);
      assert r.slots[k] == Held(o);
      FoundAt(r.slots, Held(o), k);
      HasPlace(r, o);
      FoundAt(s, Held(o), PlaceOf(r, o));
    } else if i < |s| {
      var r := s[..i] + s[i + 1..];
      assert r[if k < i then k else k - 1] == Held(o);
    }
  }

  lemma {:induction false} CompactedHas(s: seq<Slot>, o: Observer)
    requires Held(o) in s
    ensures Held(o) in Compacted(s)
  {
    if s[0] != Held(o) { CompactedHas(s[1..], o); }
  }

  lemma DropHolds(l: ListState, c: Cursor, o: Observer)
    requires Held(o) in l.slots && (c.At? ==> l.depth > 0)
    ensures Held(o) in Drop(l, c).slots
    ensures l.depth != 1 ==> PlaceOf(Drop(l, c), o) == PlaceOf(l, o)
  {
    CompactedHas(l.slots, o);
  }

  // ------------------------------------------------------- the loop arrives

  predicate CanArrive(l: ListState, cur: Cursor) {
    l.depth > 0 && cur.At? && Fits(l, cur) && (AtEnd(l, cur) || l.slots[cur.index].Held?)
  }

  function ListThen(l: ListState, cur: Cursor): ListState
    requires CanArrive(l, cur)
  {
    if AtEnd(l, cur) then Drop(l, cur) else l
  }

  function FrameThen(c: ContextId, m: Method, l: ListState, cur: Cursor): Frame {
    if AtEnd(l, cur) then Finished(c, m) else Looping(c, m, cur)
  }

  function TimesThen(times: nat, l: ListState, cur: Cursor, o: Observer): nat
    requires CanArrive(l, cur)
  {
    if !AtEnd(l, cur) && l.slots[cur.index] == Held(o) then times + 1 else times
  }

  /** The loop of m itself arrives; so far the observer has been called if and
      only if it lies before the cursor. */
  lemma OwnArrival(v: Local, o: Observer, m: Method, below: seq<Frame>, l: ListState, cur: Cursor)
    requires NoTask(v.queue, m) && NoFrame(below, m) && CanArrive(l, cur)
    requires ObserverPasses.Distinct(l.slots) && Held(o) in l.slots && Within(PlaceOf(l, o), cur.limit)
    requires v.times == if PlaceOf(l, o) < cur.index then 1 else 0
    ensures OnItsWay(Local(v.ctx, ListThen(l, cur), below + [FrameThen(v.ctx, m, l, cur)], v.queue,
                           TimesThen(v.times, l, cur, o)), o, m)
  {
    HasPlace(l, o);
    DropHolds(l, cur, o);
    var f := FrameThen(v.ctx, m, l, cur);
    if !AtEnd(l, cur) { OnePlace(l, o, cur.index); }
    TopReplaced(Local(v.ctx, ListThen(l, cur), below + [f], v.queue, TimesThen(v.times, l, cur, o)), o, m, below, f);
  }

  lemma OwnBegins(v: Local, o: Observer, m: Method, l: ListState, cur: Cursor)
    requires OnItsWay(v, o, m) && v.stack != [] && Top(v.stack).Checked? && Top(v.stack).m == m
    requires (l, cur) == Begin(v.list) && CanArrive(l, cur) && ObserverPasses.Distinct(l.slots)
    ensures OnItsWay(Local(v.ctx, ListThen(l, cur), v.stack[..|v.stack| - 1] + [FrameThen(v.ctx, m, l, cur)], v.queue,
                           TimesThen(v.times, l, cur, o)), o, m)
  {
    TopIsIt(v, o, m);
    HasPlace(v.list, o);
    SkipFinds(v.list, o, 0, |v.list.slots|);
    OwnArrival(v, o, m, v.stack[..|v.stack| - 1], l, cur);
  }

  lemma OwnAdvances(v: Local, o: Observer, m: Method, cur: Cursor)
    requires OnItsWay(v, o, m) && v.stack != [] && Top(v.stack).Looping? && Top(v.stack).m == m
    requires CursorOk(v.list, Top(v.stack).cursor) && cur == Next(v.list, Top(v.stack).cursor)
    requires CanArrive(v.list, cur) && ObserverPasses.Distinct(v.list.slots)
    ensures OnItsWay(Local(v.ctx, ListThen(v.list, cur), v.stack[..|v.stack| - 1] + [FrameThen(v.ctx, m, v.list, cur)],
                           v.queue, TimesThen(v.times, v.list, cur, o)), o, m)
  {
    var was := Top(v.stack).cursor;
    TopIsIt(v, o, m);
    HasPlace(v.list, o);
    if PlaceOf(v.list, o) > was.index {
      SkipFinds(v.list, o, was.index + 1, Clamp(was.limit, |v.list.slots|));
    }
    OwnArrival(v, o, m, v.stack[..|v.stack| - 1], v.list, cur);
  }

  /** Another notification's loop arrives; l is the list with that loop counted. */
  lemma OtherArrival(v: Local, o: Observer, m: Method, l: ListState, cur: Cursor, other: Method)
    requires OnItsWay(v, o, m) && v.stack != [] && !IsFor(Top(v.stack), m) && other != m
    requires l.slots == v.list.slots && CanArrive(l, cur) && l.depth == Loops(v.stack[..|v.stack| - 1]) + 1
    requires forall i :: 0 <= i < |v.stack| - 1 ==> v.stack[i].Looping?
    ensures OnItsWay(v.(list := ListThen(l, cur),
                        stack := v.stack[..|v.stack| - 1] + [FrameThen(v.ctx, other, l, cur)]), o, m)
  {
    var below := v.stack[..|v.stack| - 1];
    LoopsOfCallbacks(below);
    DropHolds(l, cur, o);
    OtherFramePopped(v, o, m);
    var w := v.(stack := below);
    ListChanged(w, o, m, ListThen(l, cur));
    OtherFramePushed(w.(list := ListThen(l, cur)), o, m, FrameThen(v.ctx, other, l, cur));
  }

  // --------------------------------------------------- every step of the lists

  /** o is registered on t, and notification m is waiting there, under way or
      done, with o called as often as it should have been by then. */
  ghost predicate Delivers(s: State, t: Thread, o: Observer, m: Method) {
    Registered(s, t, o) && OnItsWay(Here(s, t, o, m), o, m)
  }

  /** The events that the promise is about: o is not removed on t, and no other
      notification is called m. */
  predicate Allowed(e: Event, t: Thread, o: Observer, m: Method) {
    !(e.RemoveObserver? && e.t == t && e.o == o) && !(e.Notify? && e.m == m)
  }

  lemma OneMoreCall(calls: seq<Callback>, x: Callback, c: Callback)
    ensures Times(calls + [x], c) == Times(calls, c) + if x == c then 1 else 0
  {
  }

  lemma OwnStack(s: State, t: Thread)
    requires Inv(s) && t in s.lists
    ensures s.lists[t] in s.heap && StackOk(Stack(s, t), s.lists[t], s.heap[s.lists[t]].list)
  {
    assert ThreadOk(s, t);
  }

  lemma {:induction false} CallsOfOthers(a: seq<Callback>, b: seq<Callback>, c: Callback)
    requires a <= b && forall i :: |a| <= i < |b| ==> b[i] != c
    ensures Times(b, c) == Times(a, c)
    decreases |b|
  {
    if |b| > |a| {
      var last := b[|b| - 1];
      CallsOfOthers(a, b[..|b| - 1], c);
      OneMoreCall(b[..|b| - 1], last, c);
      assert b == b[..|b| - 1] + [last];
    } else {
      assert a == b;
    }
  }

  lemma OtherThreadsQueue(s: State, e: Event, t: Thread)
    requires Enabled(s, e) && e.t != t && !e.Notify?
    ensures Queue(Step(s, e), t) == Queue(s, t)
  {
  }

  lemma OtherThreadSteps(s: State, e: Event, t: Thread, o: Observer, m: Method)
    requires Inv(s) && Enabled(s, e) && Delivers(s, t, o, m) && e.t != t && !e.Notify?
    ensures Delivers(Step(s, e), t, o, m)
  {
    var s' := Step(s, e);
    InvTop(s, e.t);
    OthersDoNotReach(s, e, t);
    OtherThreadsQueue(s, e, t);
    CallsAreOwn(s, e);
    CallsOfOthers(s.calls, s'.calls, Callback(t, o, m));
    assert Here(s', t, o, m) == Here(s, t, o, m);
  }

  lemma NotifySteps(s: State, e: Event, t: Thread, o: Observer, m: Method)
    requires Inv(s) && Enabled(s, e) && Delivers(s, t, o, m) && e.Notify? && e.m != m
    ensures Delivers(Step(s, e), t, o, m)
  {
    var s' := Step(s, e);
    OtherTaskPosted(Here(s, t, o, m), o, m, Task(s.lists[t], e.m));
    assert Here(s', t, o, m) == Here(s, t, o, m).(queue := Queue(s, t) + [Task(s.lists[t], e.m)]);
  }

  lemma StartAddSteps(s: State, e: Event, o: Observer, m: Method)
    requires Enabled(s, e) && Delivers(s, e.t, o, m) && e.StartAdd?
    ensures Delivers(Step(s, e), e.t, o, m)
  {
    var f := Adding(s.lists[e.t], e.o);
    OtherFramePushed(Here(s, e.t, o, m), o, m, f);
    assert e.hasRunner ==>
      Here(Step(s, e), e.t, o, m) == Here(s, e.t, o, m).(stack := Stack(s, e.t) + [f]);
  }

  lemma FinishAddSteps(s: State, e: Event, o: Observer, m: Method)
    requires Inv(s) && Enabled(s, e) && Delivers(s, e.t, o, m) && e.FinishAdd?
    ensures Delivers(Step(s, e), e.t, o, m)
  {
    var v := Here(s, e.t, o, m);
    OwnStack(s, e.t);
    var f := Top(v.stack);
    AddKeepsPlace(v.list, o, f.o);
    OtherFramePopped(v, o, m);
    var w := v.(stack := v.stack[..|v.stack| - 1]);
    ListChanged(w, o, m, Add(v.list, f.o));
    assert Here(Step(s, e), e.t, o, m) == w.(list := Add(v.list, f.o));
  }

  lemma RemoveSteps(s: State, e: Event, o: Observer, m: Method)
    requires Inv(s) && Enabled(s, e) && Delivers(s, e.t, o, m) && e.RemoveObserver? && e.o != o
    ensures Delivers(Step(s, e), e.t, o, m)
  {
    var v := Here(s, e.t, o, m);
    OwnStack(s, e.t);
    RemoveKeepsPlace(v.list, o, e.o);
    if v.list.depth == 0 { assert v.stack == []; }
    ListChanged(v, o, m, Remove(v.list, e.o));
    assert Here(Step(s, e), e.t, o, m) == v.(list := Remove(v.list, e.o));
  }

  lemma RunTaskSteps(s: State, e: Event, o: Observer, m: Method)
    requires Inv(s) && Enabled(s, e) && Delivers(s, e.t, o, m) && e.RunTask?
    ensures Delivers(Step(s, e), e.t, o, m)
  {
    var v := Here(s, e.t, o, m);
    var task, rest := v.queue[0], v.(queue := v.queue[1..]);
    var f := Checked(task.ctx, task.m);
    assert Here(Step(s, e), e.t, o, m) == if task.ctx == v.ctx then rest.(stack := v.stack + [f]) else rest;
    if task.m == m {
      TaskTaken(v, o, m);
    } else {
      OtherTaskTaken(v, o, m);
      OtherFramePushed(rest, o, m, f);
    }
  }

  lemma FinishTaskSteps(s: State, e: Event, o: Observer, m: Method)
    requires Inv(s) && Enabled(s, e) && Delivers(s, e.t, o, m) && e.FinishTask?
    ensures Delivers(Step(s, e), e.t, o, m)
  {
    var v := Here(s, e.t, o, m);
    OwnStack(s, e.t);
    assert Here(Step(s, e), e.t, o, m) == v.(stack := v.stack[..|v.stack| - 1]);
    if IsFor(Top(v.stack), m) {
      TopIsIt(v, o, m);
    } else {
      OtherFramePopped(v, o, m);
    }
  }

  lemma ArrivedHere(s: State, s': State, t: Thread, below: seq<Frame>, n: Method, l: ListState, cur: Cursor,
                    o: Observer, m: Method)
    requires Arrived(s, s', t, below, n, l, cur)
    ensures CanArrive(l, cur) && s.lists[t] in s'.heap && t in s'.lists && s'.lists[t] == s.lists[t]
    ensures Here(s', t, o, m) ==
            Local(s.lists[t], ListThen(l, cur), below + [FrameThen(s.lists[t], n, l, cur)], Queue(s, t),
                  if n == m then TimesThen(Here(s, t, o, m).times, l, cur, o) else Here(s, t, o, m).times)
  {
    if !AtEnd(l, cur) {
      OneMoreCall(s.calls, Callback(t, l.slots[cur.index].obs, n), Callback(t, o, m));
    }
  }

  lemma BeginSteps(s: State, e: Event, o: Observer, m: Method)
    requires Inv(s) && Enabled(s, e) && Delivers(s, e.t, o, m) && e.BeginLoop?
    ensures Delivers(Step(s, e), e.t, o, m)
  {
    var v := Here(s, e.t, o, m);
    OwnStack(s, e.t);
    BeginArrives(s, e.t);
    var (l, cur) := Begin(v.list);
    var n := Top(v.stack).m;
    ArrivedHere(s, Step(s, e), e.t, v.stack[..|v.stack| - 1], n, l, cur, o, m);
    if n == m {
      OwnBegins(v, o, m, l, cur);
    } else {
      OtherArrival(v, o, m, l, cur, n);
    }
  }

  lemma AdvanceSteps(s: State, e: Event, o: Observer, m: Method)
    requires Inv(s) && Enabled(s, e) && Delivers(s, e.t, o, m) && e.Advance?
    ensures Delivers(Step(s, e), e.t, o, m)
  {
    var v := Here(s, e.t, o, m);
    OwnStack(s, e.t);
    AdvanceArrives(s, e.t);
    var n, cur := Top(v.stack).m, Next(v.list, Top(v.stack).cursor);
    ArrivedHere(s, Step(s, e), e.t, v.stack[..|v.stack| - 1], n, v.list, cur, o, m);
    if n == m {
      OwnAdvances(v, o, m, cur);
    } else {
      DepthBelow(v.stack, v.list);
      OtherArrival(v, o, m, v.list, cur, n);
    }
  }

  lemma StepDelivers(s: State, e: Event, t: Thread, o: Observer, m: Method)
    requires Inv(s) && Enabled(s, e) && Delivers(s, t, o, m) && Allowed(e, t, o, m)
    ensures Delivers(Step(s, e), t, o, m)
  {
    if e.Notify? {
      NotifySteps(s, e, t, o, m);
    } else if e.t != t {
      OtherThreadSteps(s, e, t, o, m);
    } else {
      match e
      case StartAdd(_, _, _) => StartAddSteps(s, e, o, m);
      case FinishAdd(_) => FinishAddSteps(s, e, o, m);
      case RemoveObserver(_, _) => RemoveSteps(s, e, o, m);
      case RunTask(_) => RunTaskSteps(s, e, o, m);
      case BeginLoop(_) => BeginSteps(s, e, o, m);
      case Advance(_) => AdvanceSteps(s, e, o, m);
      case FinishTask(_) => FinishTaskSteps(s, e, o, m);
    }
  }

  lemma {:induction false} RunDelivers(s: State, es: seq<Event>, t: Thread, o: Observer, m: Method)
    requires Inv(s) && CanRun(s, es) && Delivers(s, t, o, m)
    requires forall e :: e in es ==> Allowed(e, t, o, m)
    ensures Delivers(Run(s, es), t, o, m)
    decreases |es|
  {
    if es != [] {
      assert es[0] in es && forall e :: e in es[1..] ==> e in es;
      StepKeepsInv(s, es[0]);
      StepDelivers(s, es[0], t, o, m);
      RunDelivers(Step(s, es[0]), es[1..], t, o, m);
    }
  }

  lemma PostedIsInTransit(s: State, u: Thread, t: Thread, o: Observer, m: Method)
    requires Inv(s) && Enabled(s, Notify(u, m)) && Registered(s, t, o)
    requires Over(s, t, m) && Callback(t, o, m) !in s.calls
    ensures Delivers(Step(s, Notify(u, m)), t, o, m)
  {
    var s' := Step(s, Notify(u, m));
    var q := Queue(s, t) + [Task(s.lists[t], m)];
    assert Here(s', t, o, m) == Here(s, t, o, m).(queue := q);
    assert OnlyTask(q, |q| - 1, s.lists[t], m);
  }

  /** An observer that is registered on a thread when Notify posts, and is not
      removed there, is called for that notification at most once at any time,
      and exactly once when the thread's task is over; whatever else the threads
      add, remove, notify and run meanwhile, also from inside the callbacks. */
  lemma DeliveredOnce(s: State, u: Thread, m: Method, t: Thread, o: Observer, es: seq<Event>)
    requires Inv(s) && Enabled(s, Notify(u, m)) && Registered(s, t, o)
    requires Over(s, t, m) && Callback(t, o, m) !in s.calls
    requires CanRun(Step(s, Notify(u, m)), es)
    requires forall e :: e in es ==> Allowed(e, t, o, m)
    ensures var s' := Run(Step(s, Notify(u, m)), es);
      && Times(s'.calls, Callback(t, o, m)) <= 1
      && (Over(s', t, m) ==> Times(s'.calls, Callback(t, o, m)) == 1)
  {
    StepKeepsInv(s, Notify(u, m));
    PostedIsInTransit(s, u, t, o, m);
    RunDelivers(Step(s, Notify(u, m)), es, t, o, m);
    OnceOrOnItsWay(Here(Run(Step(s, Notify(u, m)), es), t, o, m), o, m);
  }

  lemma OnceOrOnItsWay(v: Local, o: Observer, m: Method)
    requires OnItsWay(v, o, m)
    ensures v.times <= 1 && (NoTask(v.queue, m) && NoFrame(v.stack, m) ==> v.times == 1)
  {
  }

  // ------------------------------------------------ and it can always happen

  /** An event with which thread t goes on with what it has begun or been sent. */
  predicate GoesOn(e: Event, t: Thread) {
    e.t == t && (e.FinishAdd? || e.RunTask? || e.BeginLoop? || e.Advance? || e.FinishTask?)
  }

  function Left(l: ListState, f: Frame): nat {
    match f
    case Adding(_, _) => 0
    case Checked(_, _) => |l.slots| + 2
    case Looping(_, _, cursor) => if cursor.At? && cursor.index <= |l.slots| then |l.slots| - cursor.index + 1 else 0
    case Finished(_, _) => 0
  }

  /** How much is left of the frame on top. */
  ghost function LeftOnTop(s: State, t: Thread): nat {
    if Stack(s, t) == [] || t !in s.lists || s.lists[t] !in s.heap then 0
    else Left(s.heap[s.lists[t]].list, Top(Stack(s, t)))
  }

  ghost predicate Less(s': State, s: State, t: Thread) {
    || |Queue(s', t)| < |Queue(s, t)|
    || (|Queue(s', t)| == |Queue(s, t)| && |Stack(s', t)| < |Stack(s, t)|)
    || (|Queue(s', t)| == |Queue(s, t)| && |Stack(s', t)| == |Stack(s, t)| && LeftOnTop(s', t) < LeftOnTop(s, t))
  }

  lemma ArrivalIsLess(s: State, s': State, t: Thread, n: Method, l: ListState, cur: Cursor)
    requires Stack(s, t) != [] && Arrived(s, s', t, Stack(s, t)[..|Stack(s, t)| - 1], n, l, cur)
    requires Left(l, Looping(s.lists[t], n, cur)) < LeftOnTop(s, t)
    ensures Less(s', s, t)
  {
    assert Queue(s', t) == Queue(s, t);
    assert AtEnd(l, cur) ==> LeftOnTop(s', t) == 0;
  }

  lemma BeginIsLess(s: State, t: Thread)
    requires Inv(s) && Enabled(s, BeginLoop(t))
    ensures Less(Step(s, BeginLoop(t)), s, t)
  {
    InvTop(s, t);
    OwnStack(s, t);
    BeginArrives(s, t);
    var (l, cur) := Begin(s.heap[s.lists[t]].list);
    ArrivalIsLess(s, Step(s, BeginLoop(t)), t, Top(Stack(s, t)).m, l, cur);
  }

  lemma AdvanceIsLess(s: State, t: Thread)
    requires Inv(s) && Enabled(s, Advance(t))
    ensures Less(Step(s, Advance(t)), s, t)
  {
    InvTop(s, t);
    OwnStack(s, t);
    AdvanceArrives(s, t);
    var l := s.heap[s.lists[t]].list;
    ArrivalIsLess(s, Step(s, Advance(t)), t, Top(Stack(s, t)).m, l, Next(l, Top(Stack(s, t)).cursor));
  }

  lemma PopIsLess(s: State, e: Event)
    requires Inv(s) && Enabled(s, e) && (e.FinishAdd? || e.FinishTask?)
    ensures Less(Step(s, e), s, e.t)
  {
    InvTop(s, e.t);
    assert Queue(Step(s, e), e.t) == Queue(s, e.t);
  }

  lemma GoesOnStep(s: State, t: Thread) returns (e: Event)
    requires Inv(s) && (Stack(s, t) != [] || Queue(s, t) != [])
    ensures GoesOn(e, t) && Enabled(s, e) && Less(Step(s, e), s, t)
  {
    if Stack(s, t) == [] {
      e := RunTask(t);
    } else {
      match Top(Stack(s, t))
      case Adding(_, _) => e := FinishAdd(t); PopIsLess(s, e);
      case Checked(_, _) => e := BeginLoop(t); BeginIsLess(s, t);
      case Looping(_, _, _) => e := Advance(t); AdvanceIsLess(s, t);
      case Finished(_, _) => e := FinishTask(t); PopIsLess(s, e);
    }
  }

  /** By itself a thread can finish all that it has begun and been sent. */
  lemma {:induction false} Drains(s: State, t: Thread) returns (es: seq<Event>)
    requires Inv(s)
    ensures CanRun(s, es) && (forall e :: e in es ==> GoesOn(e, t))
    ensures Stack(Run(s, es), t) == [] && Queue(Run(s, es), t) == []
    decreases |Queue(s, t)|, |Stack(s, t)|, LeftOnTop(s, t)
  {
    if Stack(s, t) == [] && Queue(s, t) == [] {
      es := [];
    } else {
      var e := GoesOnStep(s, t);
      StepKeepsInv(s, e);
      var rest := Drains(Step(s, e), t);
      es := [e] + rest;
      assert es[0] == e && es[1..] == rest;
    }
  }

  ghost predicate SomeRunDelivers(s: State, t: Thread, o: Observer, m: Method) {
    exists more :: CanRun(s, more) && Times(Run(s, more).calls, Callback(t, o, m)) == 1
  }

  /** However the threads have gone on since, the notification can still be
      delivered: some continuation calls the observer exactly once in all. */
  lemma CanBeDelivered(s: State, u: Thread, m: Method, t: Thread, o: Observer, es: seq<Event>)
    requires Inv(s) && Enabled(s, Notify(u, m)) && Registered(s, t, o)
    requires Over(s, t, m) && Callback(t, o, m) !in s.calls
    requires CanRun(Step(s, Notify(u, m)), es)
    requires forall e :: e in es ==> Allowed(e, t, o, m)
    ensures SomeRunDelivers(Run(Step(s, Notify(u, m)), es), t, o, m)
  {
    StepKeepsInv(s, Notify(u, m));
    PostedIsInTransit(s, u, t, o, m);
    RunDelivers(Step(s, Notify(u, m)), es, t, o, m);
    RunKeepsInv(Step(s, Notify(u, m)), es);
    DrainsToDelivery(Run(Step(s, Notify(u, m)), es), t, o, m);
  }

  lemma DrainsToDelivery(s: State, t: Thread, o: Observer, m: Method)
    requires Inv(s) && Delivers(s, t, o, m)
    ensures SomeRunDelivers(s, t, o, m)
  {
    var more := Drains(s, t);
    RunDelivers(s, more, t, o, m);
    OnceOrOnItsWay(Here(Run(s, more), t, o, m), o, m);
  }
}
