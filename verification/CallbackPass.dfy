/** What a CallbackList::Notify pass runs, and when the removal callback fires,
    whatever the callbacks do to the list meanwhile. */
module CallbackPasses {
  import opened CallbackLists
  import opened Options

  /** A list with its live iterators by name. */
  datatype World = World(list: ListState, cursors: map<nat, Cursor>)

  datatype Event =
    | AddE | UnsubscribeE(id: nat) | SetRemovalE(present: bool)
    | BeginE(it: nat) | CopyE(from: nat, it: nat) | NextE(it: nat) | DropE(it: nat)

  predicate Legal(w: World, e: Event) {
    match e
    case AddE => true
    case SetRemovalE(_) => true
    case UnsubscribeE(id) => Subscribed(w.list, id)
    case BeginE(it) => it !in w.cursors
    case CopyE(from, it) => from in w.cursors && it !in w.cursors
    case NextE(it) => it in w.cursors && Fits(w.list.nodes, w.cursors[it])
    case DropE(it) => it in w.cursors && w.list.active > 0
  }

  function Step(w: World, e: Event): World
    requires Legal(w, e)
  {
    match e
    case AddE => w.(list := Added(w.list))
    case SetRemovalE(present) => w.(list := w.list.(removal := present))
    case UnsubscribeE(id) => w.(list := Unsubscribed(w.list, id))
    case BeginE(it) =>
      World(w.list.(active := w.list.active + 1), w.cursors[it := Start(w.list.nodes, 0)])
    case CopyE(from, it) => World(w.list.(active := w.list.active + 1), w.cursors[it := w.cursors[from]])
    case NextE(it) => w.(cursors := w.cursors[it := Next(w.list.nodes, w.cursors[it]).1])
    case DropE(it) => World(Drop(w.list), w.cursors - {it})
  }

  predicate LegalRun(w: World, es: seq<Event>)
    decreases |es|
  {
    es == [] || (Legal(w, es[0]) && LegalRun(Step(w, es[0]), es[1..]))
  }

  function Run(w: World, es: seq<Event>): World
    requires LegalRun(w, es)
    decreases |es|
  {
    if es == [] then w else Run(Step(w, es[0]), es[1..])
  }

  // ---------------------------------------------------------------- invariant

  /** Nodes stand in the order of subscription. */
  ghost predicate Increasing(s: seq<Node>) {
    forall i, j :: 0 <= i < j < |s| ==> s[i].id < s[j].id
  }

  ghost predicate Valid(w: World) {
    && w.list.active == |w.cursors|
    && Increasing(w.list.nodes)
    && (forall i :: 0 <= i < |w.list.nodes| ==> w.list.nodes[i].id < w.list.nextId)
    && (forall it :: it in w.cursors ==> Fits(w.list.nodes, w.cursors[it]))
    && (w.list.active == 0 ==> AllLive(w.list.nodes))
  }

  /** Nodes are only added at the end and reset. */
  ghost predicate Grown(s: seq<Node>, t: seq<Node>) {
    |s| <= |t| && forall i :: 0 <= i < |s| ==> t[i].id == s[i].id && (t[i].live ==> s[i].live)
  }

  lemma {:induction false} CompactedMembers(s: seq<Node>, n: Node)
    ensures n in Compacted(s) <==> n in s && n.live
  {
    if s != [] {
      CompactedMembers(s[1..], n);
      assert s == [s[0]] + s[1..];
    }
  }

  lemma InFrontIncreases(n: Node, c: seq<Node>)
    requires Increasing(c) && forall m :: m in c ==> n.id < m.id
    ensures Increasing([n] + c)
  {
    forall i, j | 0 <= i < j < |c| + 1 ensures ([n] + c)[i].id < ([n] + c)[j].id {
      assert ([n] + c)[j] == c[j - 1];
    }
  }

  lemma {:induction false} CompactedIncreases(s: seq<Node>)
    requires Increasing(s)
    ensures Increasing(Compacted(s))
  {
    if s != [] {
      CompactedIncreases(s[1..]);
      var c := Compacted(s[1..]);
      assert [] + c == c;
      forall m | m in c ensures s[0].id < m.id {
        CompactedMembers(s[1..], m);
        var j :| 0 <= j < |s[1..]| && s[1..][j] == m;
        assert s[j + 1] == m;
      }
      InFrontIncreases(s[0], c);
    }
  }

  lemma CompactedIs(s: seq<Node>, bound: nat)
    requires Increasing(s) && forall i :: 0 <= i < |s| ==> s[i].id < bound
    ensures var c := Compacted(s);
      AllLive(c) && Increasing(c) && forall i :: 0 <= i < |c| ==> c[i].id < bound
  {
    CompactedIncreases(s);
    var c := Compacted(s);
    forall i | 0 <= i < |c| ensures c[i].live && c[i].id < bound {
      CompactedMembers(s, c[i]);
    }
  }

  lemma ErasedIs(s: seq<Node>, k: nat, bound: nat)
    requires Increasing(s) && k < |s| && forall i :: 0 <= i < |s| ==> s[i].id < bound
    ensures var c := s[..k] + s[k + 1..];
      && Increasing(c) && (forall i :: 0 <= i < |c| ==> c[i].id < bound) && (AllLive(s) ==> AllLive(c))
  {
    var c := s[..k] + s[k + 1..];
    forall i | 0 <= i < |c| ensures c[i] == s[if i < k then i else i + 1] { }
  }

  lemma OneIndex(s: seq<Node>, i: nat, j: nat)
    requires Increasing(s) && i < |s| && j < |s| && s[i].id == s[j].id
    ensures i == j
  {
  }

  lemma CursorCount(w: World, it: nat)
    requires it in w.cursors
    ensures |w.cursors| > 0 && |w.cursors - {it}| == |w.cursors| - 1
  {
    assert w.cursors.Keys == (w.cursors - {it}).Keys + {it};
    assert |w.cursors.Keys| == |w.cursors|;
  }

  lemma CursorAdded(w: World, it: nat, c: Cursor)
    requires it !in w.cursors
    ensures |w.cursors[it := c]| == |w.cursors| + 1
  {
    assert w.cursors[it := c].Keys == w.cursors.Keys + {it};
  }

  lemma CursorMoved(w: World, it: nat, c: Cursor)
    requires it in w.cursors
    ensures |w.cursors[it := c]| == |w.cursors|
  {
    assert w.cursors[it := c].Keys == w.cursors.Keys;
  }

  lemma DropKeepsValid(w: World, it: nat)
    requires Valid(w) && it in w.cursors
    ensures Valid(Step(w, DropE(it)))
  {
    CursorCount(w, it);
    CompactedIs(w.list.nodes, w.list.nextId);
  }

  lemma UnsubscribeKeepsValid(w: World, id: nat)
    requires Valid(w) && Legal(w, UnsubscribeE(id))
    ensures Valid(Step(w, UnsubscribeE(id)))
  {
    if w.list.active == 0 {
      ErasedIs(w.list.nodes, IndexOf(w.list.nodes, id), w.list.nextId);
      assert w.cursors.Keys == {};
    }
  }

  lemma StepKeepsValid(w: World, e: Event)
    requires Valid(w) && Legal(w, e)
    ensures Valid(Step(w, e))
  {
    match e
    case AddE =>
    case SetRemovalE(_) =>
    case UnsubscribeE(id) => UnsubscribeKeepsValid(w, id);
    case BeginE(it) => CursorAdded(w, it, Start(w.list.nodes, 0));
    case CopyE(from, it) => CursorAdded(w, it, w.cursors[from]);
    case NextE(it) => CursorMoved(w, it, Next(w.list.nodes, w.cursors[it]).1);
    case DropE(it) => DropKeepsValid(w, it);
  }

  lemma {:induction false} RunKeepsValid(w: World, es: seq<Event>)
    requires Valid(w) && LegalRun(w, es)
    ensures Valid(Run(w, es))
    decreases |es|
  {
    if es != [] {
      StepKeepsValid(w, es[0]);
      RunKeepsValid(Step(w, es[0]), es[1..]);
    }
  }

  // ----------------------------------------------------- while an iterator lives

  predicate Touches(e: Event, it: nat) {
    e == NextE(it) || e == DropE(it)
  }

  predicate Spares(es: seq<Event>, it: nat) {
    forall i :: 0 <= i < |es| ==> !Touches(es[i], it)
  }

  predicate Unsubscribes(es: seq<Event>, id: nat) {
    UnsubscribeE(id) in es
  }

  /** What a run that leaves iterator it alone may change. */
  ghost predicate SameWalk(w: World, v: World, it: nat) {
    && it in w.cursors && it in v.cursors && v.cursors[it] == w.cursors[it]
    && Grown(w.list.nodes, v.list.nodes)
    && w.list.nextId <= v.list.nextId
    && v.list.removalRuns == w.list.removalRuns
    && forall i :: |w.list.nodes| <= i < |v.list.nodes| ==> w.list.nextId <= v.list.nodes[i].id
  }

  lemma StepKeepsWalk(w: World, e: Event, it: nat)
    requires Valid(w) && Legal(w, e) && it in w.cursors && !Touches(e, it)
    ensures SameWalk(w, Step(w, e), it)
  {
    CursorCount(w, it);
    if e.DropE? && e.it != it {
      CursorCount(w, e.it);
      CursorCount(Step(w, e), it);
    }
  }

  lemma WalkOn(w: World, m: World, v: World, it: nat)
    requires SameWalk(w, m, it) && SameWalk(m, v, it)
    ensures SameWalk(w, v, it)
  {
  }

  lemma {:induction false} RunKeepsWalk(w: World, es: seq<Event>, it: nat)
    requires Valid(w) && LegalRun(w, es) && it in w.cursors && Spares(es, it)
    ensures SameWalk(w, Run(w, es), it) && Valid(Run(w, es))
    decreases |es|
  {
    if es != [] {
      var m := Step(w, es[0]);
      StepKeepsValid(w, es[0]);
      StepKeepsWalk(w, es[0], it);
      RunKeepsWalk(m, es[1..], it);
      WalkOn(w, m, Run(w, es), it);
    }
  }

  lemma StepKeepsLive(w: World, e: Event, it: nat, i: nat)
    requires Valid(w) && Legal(w, e) && it in w.cursors && !Touches(e, it)
    requires i < |w.list.nodes| && w.list.nodes[i].live
    ensures var t := Step(w, e).list.nodes;
      i < |t| && (t[i].live <==> e != UnsubscribeE(w.list.nodes[i].id))
  {
    StepKeepsWalk(w, e, it);
    CursorCount(w, it);
    if e.UnsubscribeE? {
      var j := IndexOf(w.list.nodes, e.id);
      assert w.list.nodes[j].id == w.list.nodes[i].id ==> i == j;
    }
    if e.DropE? && e.it != it {
      CursorCount(w, e.it);
      CursorCount(Step(w, e), it);
    }
  }

  /** A live node stays live exactly until its subscription ends. */
  lemma {:induction false} RunKeepsLive(w: World, es: seq<Event>, it: nat, i: nat)
    requires Valid(w) && LegalRun(w, es) && it in w.cursors && Spares(es, it)
    requires i < |w.list.nodes| && w.list.nodes[i].live
    ensures var t := Run(w, es).list.nodes;
      i < |t| && (t[i].live <==> !Unsubscribes(es, w.list.nodes[i].id))
    decreases |es|
  {
    RunKeepsWalk(w, es, it);
    if es != [] {
      var m := Step(w, es[0]);
      StepKeepsValid(w, es[0]);
      StepKeepsWalk(w, es[0], it);
      StepKeepsLive(w, es[0], it, i);
      RunKeepsWalk(m, es[1..], it);
      if m.list.nodes[i].live {
        RunKeepsLive(m, es[1..], it, i);
      }
    }
  }

  // ------------------------------------------------------------------ a pass

  function GetNext(w: World, it: nat): Option<nat>
    requires Legal(w, NextE(it))
  {
    Next(w.list.nodes, w.cursors[it]).0
  }

  /** A whole Notify: bodies[n] is what the n-th callback that runs does. */
  predicate PassLegal(w: World, it: nat, bodies: seq<seq<Event>>)
    decreases |bodies|
  {
    && Legal(w, NextE(it))
    && if GetNext(w, it).None? then bodies == []
       else
         && bodies != [] && Spares(bodies[0], it)
         && LegalRun(Step(w, NextE(it)), bodies[0])
         && PassLegal(Run(Step(w, NextE(it)), bodies[0]), it, bodies[1..])
  }

  /** The world before the next turn. */
  function Turn(w: World, it: nat, bodies: seq<seq<Event>>): World
    requires PassLegal(w, it, bodies) && bodies != []
  {
    Run(Step(w, NextE(it)), bodies[0])
  }

  /** The subscriptions whose callbacks run, in order, and the world after. */
  function Pass(w: World, it: nat, bodies: seq<seq<Event>>): (World, seq<nat>)
    requires PassLegal(w, it, bodies)
    decreases |bodies|
  {
    if bodies == [] then (Step(w, NextE(it)), [])
    else
      var (v, ids) := Pass(Turn(w, it, bodies), it, bodies[1..]);
      (v, [GetNext(w, it).value] + ids)
  }

  predicate EverUnsubscribes(bodies: seq<seq<Event>>, id: nat) {
    exists n :: 0 <= n < |bodies| && Unsubscribes(bodies[n], id)
  }

  /** One turn: the callback at the first live node j from the cursor on. */
  lemma TurnIs(w: World, it: nat, bodies: seq<seq<Event>>) returns (j: nat)
    requires Valid(w) && PassLegal(w, it, bodies) && bodies != []
    ensures w.cursors[it].At? && w.cursors[it].k <= j < |w.list.nodes|
    ensures w.list.nodes[j].live && GetNext(w, it) == Some(w.list.nodes[j].id)
    ensures forall i :: w.cursors[it].k <= i < j ==> !w.list.nodes[i].live
    ensures var v := Turn(w, it, bodies);
      && Valid(v) && it in v.cursors && v.cursors[it] == Start(w.list.nodes, j + 1)
      && SameWalk(Step(w, NextE(it)), v, it)
  {
    j := SkipDead(w.list.nodes, w.cursors[it].k);
    StepKeepsValid(w, NextE(it));
    RunKeepsWalk(Step(w, NextE(it)), bodies[0], it);
  }

  ghost predicate AllAtLeast(ids: seq<nat>, least: nat) {
    forall i :: 0 <= i < |ids| ==> least <= ids[i]
  }

  ghost predicate Ascending(ids: seq<nat>) {
    forall i, j :: 0 <= i < j < |ids| ==> ids[i] < ids[j]
  }

  lemma AscendingInFront(id: nat, ids: seq<nat>)
    requires Ascending(ids) && AllAtLeast(ids, id + 1)
    ensures Ascending([id] + ids) && AllAtLeast([id] + ids, id)
  {
    forall i, j | 0 <= i < j < |ids| + 1 ensures ([id] + ids)[i] < ([id] + ids)[j] {
      assert ([id] + ids)[j] == ids[j - 1];
    }
  }

  /** Callbacks run in the order of subscription, none twice in a pass; an
      iterator that has reached end() runs nothing more. */
  lemma {:induction false} RunsInOrder(w: World, it: nat, bodies: seq<seq<Event>>)
    requires Valid(w) && PassLegal(w, it, bodies)
    ensures var ids := Pass(w, it, bodies).1;
      && Ascending(ids)
      && (w.cursors[it].End? ==> ids == [])
      && (w.cursors[it].At? ==> AllAtLeast(ids, w.list.nodes[w.cursors[it].k].id))
    decreases |bodies|
  {
    if bodies != [] {
      var j := TurnIs(w, it, bodies);
      var v := Turn(w, it, bodies);
      RunsInOrder(v, it, bodies[1..]);
      var ids := Pass(v, it, bodies[1..]).1;
      assert v.cursors[it].At? ==> v.list.nodes[j + 1].id == w.list.nodes[j + 1].id > w.list.nodes[j].id;
      AscendingInFront(w.list.nodes[j].id, ids);
      assert w.list.nodes[w.cursors[it].k].id <= w.list.nodes[j].id;
    }
  }

  /** Every callback from the cursor on that stays subscribed is run. */
  lemma {:induction false} ReachesTheSubscribed(w: World, it: nat, bodies: seq<seq<Event>>, i: nat)
    requires Valid(w) && PassLegal(w, it, bodies) && w.cursors[it].At? && w.cursors[it].k <= i < |w.list.nodes|
    requires w.list.nodes[i].live && !EverUnsubscribes(bodies, w.list.nodes[i].id)
    ensures w.list.nodes[i].id in Pass(w, it, bodies).1
    decreases |bodies|
  {
    assert SkipDead(w.list.nodes, w.cursors[it].k) <= i;
    if bodies != [] {
      var j := TurnIs(w, it, bodies);
      var v := Turn(w, it, bodies);
      if j < i {
        StepKeepsValid(w, NextE(it));
        assert !Unsubscribes(bodies[0], w.list.nodes[i].id);
        RunKeepsLive(Step(w, NextE(it)), bodies[0], it, i);
        StillNotUnsubscribed(bodies, w.list.nodes[i].id);
        ReachesTheSubscribed(v, it, bodies[1..], i);
      }
    }
  }

  lemma StillNotUnsubscribed(bodies: seq<seq<Event>>, id: nat)
    requires bodies != [] && !EverUnsubscribes(bodies, id)
    ensures !EverUnsubscribes(bodies[1..], id)
  {
    forall n | 0 <= n < |bodies| - 1 ensures !Unsubscribes(bodies[1..][n], id) {
      assert bodies[1..][n] == bodies[n + 1];
    }
  }

  ghost predicate IsDead(s: seq<Node>, id: nat) {
    forall i :: 0 <= i < |s| && s[i].id == id ==> !s[i].live
  }

  /** A subscription that has ended is not run in what is left of the pass. */
  lemma {:induction false} EndedIsNotRun(w: World, it: nat, bodies: seq<seq<Event>>, id: nat)
    requires Valid(w) && PassLegal(w, it, bodies) && id < w.list.nextId && IsDead(w.list.nodes, id)
    ensures id !in Pass(w, it, bodies).1
    decreases |bodies|
  {
    if bodies != [] {
      var j := TurnIs(w, it, bodies);
      var v := Turn(w, it, bodies);
      assert IsDead(v.list.nodes, id);
      EndedIsNotRun(v, it, bodies[1..], id);
    }
  }

  /** In a whole pass each callback that is subscribed throughout runs exactly
      once, in the order of subscription. */
  lemma NotifyRunsEachOnce(w: World, it: nat, bodies: seq<seq<Event>>, id: nat)
    requires Valid(w) && it !in w.cursors && PassLegal(Step(w, BeginE(it)), it, bodies)
    ensures var ids := Pass(Step(w, BeginE(it)), it, bodies).1;
      && Ascending(ids)
      && (Subscribed(w.list, id) && !EverUnsubscribes(bodies, id) ==> id in ids)
      && (!Subscribed(w.list, id) && id < w.list.nextId ==> id !in ids)
  {
    var w1 := Step(w, BeginE(it));
    StepKeepsValid(w, BeginE(it));
    RunsInOrder(w1, it, bodies);
    var i := IndexOf(w.list.nodes, id);
    if Subscribed(w.list, id) && !EverUnsubscribes(bodies, id) {
      ReachesTheSubscribed(w1, it, bodies, i);
    }
    if !Subscribed(w.list, id) && id < w.list.nextId {
      forall j | 0 <= j < |w.list.nodes| && w.list.nodes[j].id == id ensures !w.list.nodes[j].live {
        OneIndex(w.list.nodes, i, j);
      }
      EndedIsNotRun(w1, it, bodies, id);
    }
  }

  /** A callback added during a pass, and not unsubscribed, runs in that pass
      exactly when the iterator was not yet at end(): it has stepped there
      before the last callback runs, so what that one adds must wait. */
  lemma AddedRunsIffNotAtEnd(w: World, it: nat, rest: seq<Event>, bodies: seq<seq<Event>>)
    requires Valid(w) && it in w.cursors && Spares(rest, it)
    requires LegalRun(Step(w, AddE), rest) && PassLegal(Run(Step(w, AddE), rest), it, bodies)
    requires !Unsubscribes(rest, w.list.nextId) && !EverUnsubscribes(bodies, w.list.nextId)
    ensures w.list.nextId in Pass(Run(Step(w, AddE), rest), it, bodies).1 <==> w.cursors[it].At?
  {
    var w1 := Step(w, AddE);
    var v := Run(w1, rest);
    StepKeepsValid(w, AddE);
    RunKeepsWalk(w1, rest, it);
    var n := |w.list.nodes|;
    assert w1.list.nodes[n] == Node(w.list.nextId, true);
    if w.cursors[it].At? {
      RunKeepsLive(w1, rest, it, n);
      ReachesTheSubscribed(v, it, bodies, n);
    } else {
      RunsInOrder(v, it, bodies);
    }
  }

  /** One unsubscribed during a pass before its turn never runs in it. */
  lemma UnsubscribedBeforeItsTurn(w: World, it: nat, id: nat, rest: seq<Event>, bodies: seq<seq<Event>>)
    requires Valid(w) && it in w.cursors && Spares(rest, it) && Legal(w, UnsubscribeE(id))
    requires LegalRun(Step(w, UnsubscribeE(id)), rest)
    requires PassLegal(Run(Step(w, UnsubscribeE(id)), rest), it, bodies)
    ensures id !in Pass(Run(Step(w, UnsubscribeE(id)), rest), it, bodies).1
  {
    var w1 := Step(w, UnsubscribeE(id));
    var v := Run(w1, rest);
    CursorCount(w, it);
    StepKeepsValid(w, UnsubscribeE(id));
    RunKeepsWalk(w1, rest, it);
    var i := IndexOf(w.list.nodes, id);
    assert IsDead(w1.list.nodes, id);
    assert IsDead(v.list.nodes, id);
    EndedIsNotRun(v, it, bodies, id);
  }

  // ------------------------------------------------------ the removal callback

  predicate AnyUnsubscribes(es: seq<Event>) {
    exists n :: 0 <= n < |es| && es[n].UnsubscribeE?
  }

  lemma StepMarks(w: World, e: Event, it: nat)
    requires Valid(w) && Legal(w, e) && it in w.cursors && !Touches(e, it)
    ensures AllLive(Step(w, e).list.nodes) <==> AllLive(w.list.nodes) && !e.UnsubscribeE?
  {
    CursorCount(w, it);
    var s, t := w.list.nodes, Step(w, e).list.nodes;
    if e.DropE? && e.it != it {
      CursorCount(w, e.it);
      CursorCount(Step(w, e), it);
    }
    if e.UnsubscribeE? {
      assert !t[IndexOf(s, e.id)].live;
    }
    if e.AddE? {
      assert t[..|s|] == s && t[|s|].live;
      assert forall i :: 0 <= i < |s| ==> t[i] == s[i];
    }
  }

  /** While an iterator lives, dead nodes record that something unsubscribed. */
  lemma {:induction false} RunMarks(w: World, es: seq<Event>, it: nat)
    requires Valid(w) && LegalRun(w, es) && it in w.cursors && Spares(es, it)
    ensures AllLive(Run(w, es).list.nodes) <==> AllLive(w.list.nodes) && !AnyUnsubscribes(es)
    decreases |es|
  {
    if es != [] {
      var m := Step(w, es[0]);
      StepKeepsValid(w, es[0]);
      StepKeepsWalk(w, es[0], it);
      StepMarks(w, es[0], it);
      RunMarks(m, es[1..], it);
      AnyOfRest(es);
    }
  }

  lemma AnyOfRest(es: seq<Event>)
    requires es != []
    ensures AnyUnsubscribes(es) <==> es[0].UnsubscribeE? || AnyUnsubscribes(es[1..])
  {
    if AnyUnsubscribes(es[1..]) {
      var n :| 0 <= n < |es[1..]| && es[1..][n].UnsubscribeE?;
      assert es[n + 1].UnsubscribeE?;
    }
    if AnyUnsubscribes(es) && !es[0].UnsubscribeE? {
      var n :| 0 <= n < |es| && es[n].UnsubscribeE?;
      assert es[1..][n - 1].UnsubscribeE?;
    }
  }

  /** Over an outermost pass, whatever nests in it, the removal callback fires
      once if anything was unsubscribed, else not at all; outside passes it
      fires at each unsubscribe. */
  lemma RemovalFiresOncePerPass(w: World, it: nat, es: seq<Event>)
    requires Valid(w) && w.list.active == 0 && it !in w.cursors
    requires LegalRun(Step(w, BeginE(it)), es) && Spares(es, it)
    requires Run(Step(w, BeginE(it)), es).list.active == 1 && Legal(Run(Step(w, BeginE(it)), es), DropE(it))
    ensures var v := Run(Step(w, BeginE(it)), es); var v' := Step(v, DropE(it));
      && v.list.removalRuns == w.list.removalRuns
      && v'.list.removalRuns == w.list.removalRuns + (if v.list.removal && AnyUnsubscribes(es) then 1 else 0)
      && AllLive(v'.list.nodes)
  {
    var w1 := Step(w, BeginE(it));
    StepKeepsValid(w, BeginE(it));
    RunKeepsWalk(w1, es, it);
    RunMarks(w1, es, it);
    DropKeepsValid(Run(w1, es), it);
  }

  lemma RemovalFiresOutside(w: World, id: nat)
    requires Valid(w) && w.list.active == 0 && Legal(w, UnsubscribeE(id))
    ensures var w' := Step(w, UnsubscribeE(id));
      && w'.list.removalRuns == w.list.removalRuns + (if w.list.removal then 1 else 0)
      && !Subscribed(w'.list, id)
  {
    StepRefinesPlainSet(w, UnsubscribeE(id));
    SubscribedIs(w, id);
    StepKeepsValid(w, UnsubscribeE(id));
    SubscribedIs(Step(w, UnsubscribeE(id)), id);
  }

  // --------------------------------------------------------------- refinement

  /** The subscriptions that stand. */
  function Standing(s: seq<Node>): set<nat> {
    set i | 0 <= i < |s| && s[i].live :: s[i].id
  }

  function PlainStep(r: set<nat>, nextId: nat, e: Event): set<nat> {
    match e
    case AddE => r + {nextId}
    case UnsubscribeE(id) => r - {id}
    case _ => r
  }

  lemma SubscribedIs(w: World, id: nat)
    requires Valid(w)
    ensures Subscribed(w.list, id) <==> id in Standing(w.list.nodes)
  {
    var s := w.list.nodes;
    var i := IndexOf(s, id);
    forall j | 0 <= j < |s| && s[j].id == id ensures j == i {
      OneIndex(s, i, j);
    }
  }

  lemma CompactedStands(s: seq<Node>)
    ensures Standing(Compacted(s)) == Standing(s)
  {
    forall n: Node ensures n in Compacted(s) <==> n in s && n.live {
      CompactedMembers(s, n);
    }
    forall id ensures id in Standing(Compacted(s)) <==> id in Standing(s) {
      if id in Standing(s) {
        var i :| 0 <= i < |s| && s[i].live && s[i].id == id;
        assert s[i] in Compacted(s);
      }
      if id in Standing(Compacted(s)) {
        var i :| 0 <= i < |Compacted(s)| && Compacted(s)[i].live && Compacted(s)[i].id == id;
        assert Compacted(s)[i] in s;
      }
    }
  }

  /** t has exactly the live nodes of s but the one at k. */
  ghost predicate WithoutNode(s: seq<Node>, k: nat, t: seq<Node>) {
    && k < |s|
    && (forall j :: 0 <= j < |t| && t[j].live ==> t[j] in s && t[j].id != s[k].id)
    && (forall i :: 0 <= i < |s| && i != k && s[i].live ==> s[i] in t)
  }

  lemma WithoutNodeStands(s: seq<Node>, k: nat, t: seq<Node>)
    requires WithoutNode(s, k, t)
    ensures Standing(t) == Standing(s) - {s[k].id}
  {
    forall x | x in Standing(t) ensures x in Standing(s) && x != s[k].id {
      var j :| 0 <= j < |t| && t[j].live && t[j].id == x;
      var i :| 0 <= i < |s| && s[i] == t[j];
    }
    forall x | x in Standing(s) && x != s[k].id ensures x in Standing(t) {
      var i :| 0 <= i < |s| && s[i].live && s[i].id == x;
      var j :| 0 <= j < |t| && t[j] == s[i];
    }
  }

  lemma ResetIsWithout(s: seq<Node>, k: nat)
    requires Increasing(s) && k < |s|
    ensures WithoutNode(s, k, s[k := Node(s[k].id, false)])
  {
    var t := s[k := Node(s[k].id, false)];
    assert forall i :: 0 <= i < |s| && i != k ==> t[i] == s[i];
  }

  lemma ErasedIsWithout(s: seq<Node>, k: nat)
    requires Increasing(s) && k < |s|
    ensures WithoutNode(s, k, s[..k] + s[k + 1..])
  {
    var t := s[..k] + s[k + 1..];
    forall j | 0 <= j < |t| ensures t[j] in s && t[j].id != s[k].id {
      var i := if j < k then j else j + 1;
      assert s[i] == t[j];
    }
    forall i | 0 <= i < |s| && i != k ensures s[i] in t {
      assert t[if i < k then i else i - 1] == s[i];
    }
  }

  lemma UnsubscribeStands(w: World, id: nat)
    requires Valid(w) && Legal(w, UnsubscribeE(id))
    ensures Standing(Step(w, UnsubscribeE(id)).list.nodes) == Standing(w.list.nodes) - {id}
  {
    var k := IndexOf(w.list.nodes, id);
    ResetIsWithout(w.list.nodes, k);
    ErasedIsWithout(w.list.nodes, k);
    WithoutNodeStands(w.list.nodes, k, Step(w, UnsubscribeE(id)).list.nodes);
  }

  /** Dead nodes and late erasure are invisible: seen from outside the list is a
      plain set of subscriptions. */
  lemma StepRefinesPlainSet(w: World, e: Event)
    requires Valid(w) && Legal(w, e)
    ensures Standing(Step(w, e).list.nodes) == PlainStep(Standing(w.list.nodes), w.list.nextId, e)
  {
    match e
    case UnsubscribeE(id) => UnsubscribeStands(w, id);
    case DropE(_) => CompactedStands(w.list.nodes);
    case AddE =>
      var s := w.list.nodes;
      var t := s + [Node(w.list.nextId, true)];
      assert forall i :: 0 <= i < |s| ==> t[i] == s[i];
      assert t[|s|].live && t[|s|].id == w.list.nextId;
    case _ =>
  }
}
