/** What iterations over an IDMap visit while entries are removed, and which ids
    it gives out, over whole runs. */
module IdMapPasses {
  import opened IdMaps

  /** A table with the positions of its live iterators by name. */
  datatype World = World(table: MapState, cursors: map<nat, nat>)

  /** Insertions say how the table is walked afterwards. */
  datatype Event =
    | AddE(value: Value, order: seq<Id>) | AddWithIdE(id: Id, value: Value, order: seq<Id>)
    | RemoveE(id: Id) | ReplaceE(id: Id, value: Value) | ClearE
    | BeginE(it: nat) | CopyE(from: nat, it: nat) | AdvanceE(it: nat) | DropE(it: nat)

  /** What callers may do: add only while nothing iterates. */
  ghost predicate Legal(w: World, e: Event) {
    var s := w.table;
    match e
    case AddE(value, order) => s.depth == 0 && s.nextId < INT32_MAX && MayWalk(s, s.nextId, value, order)
    case AddWithIdE(id, value, order) => s.depth == 0 && MayWalk(s, id, value, order)
    case RemoveE(_) => true
    case ReplaceE(id, _) => id in s.data
    case ClearE => true
    case BeginE(it) => it !in w.cursors
    case CopyE(from, it) => from in w.cursors && it !in w.cursors && w.cursors[from] <= |s.order|
    case AdvanceE(it) => it in w.cursors && w.cursors[it] < |s.order|
    case DropE(it) => it in w.cursors && s.depth > 0
  }

  ghost function Step(w: World, e: Event): World
    requires Legal(w, e)
  {
    var s := w.table;
    match e
    case AddE(value, order) => w.(table := Inserted(s, s.nextId, value, order).(nextId := s.nextId + 1))
    case AddWithIdE(id, value, order) => w.(table := Inserted(s, id, value, order))
    case RemoveE(id) => w.(table := Remove(s, id))
    case ReplaceE(id, value) => w.(table := Replace(s, id, value))
    case ClearE => w.(table := Clear(s))
    case BeginE(it) => World(s.(depth := s.depth + 1), w.cursors[it := Skip(s, 0)])
    case CopyE(from, it) => World(s.(depth := s.depth + 1), w.cursors[it := Skip(s, w.cursors[from])])
    case AdvanceE(it) => w.(cursors := w.cursors[it := Skip(s, w.cursors[it] + 1)])
    case DropE(it) => World(Drop(s), w.cursors - {it})
  }

  ghost predicate LegalRun(w: World, es: seq<Event>)
    decreases |es|
  {
    es == [] || (Legal(w, es[0]) && LegalRun(Step(w, es[0]), es[1..]))
  }

  ghost function Run(w: World, es: seq<Event>): World
    requires LegalRun(w, es)
    decreases |es|
  {
    if es == [] then w else Run(Step(w, es[0]), es[1..])
  }

  // ---------------------------------------------------------------- invariant

  /** The ids that are stored and not to be removed. */
  function Live(s: MapState): set<Id> {
    s.data.Keys - s.removed
  }

  /** removed_ids_ is a subset of the stored ids; at depth 0 it is empty. */
  ghost predicate Valid(w: World) {
    && Lists(w.table.order, w.table.data)
    && w.table.removed <= w.table.data.Keys
    && w.table.depth == |w.cursors|
    && (w.table.depth == 0 ==> w.table.removed == {})
    && (forall it :: it in w.cursors ==> w.cursors[it] <= |w.table.order|)
  }

  lemma {:induction false} WithoutIsDistinct(order: seq<Id>, gone: set<Id>)
    requires forall i, j :: 0 <= i < j < |order| ==> order[i] != order[j]
    ensures var r := Without(order, gone); forall i, j :: 0 <= i < j < |r| ==> r[i] != r[j]
  {
    if order != [] {
      var rest := Without(order[1..], gone);
      WithoutIsDistinct(order[1..], gone);
      forall i | 0 <= i < |rest| ensures rest[i] != order[0] {
        WithoutMembers(order[1..], gone, rest[i]);
        assert rest[i] in order[1..];
      }
      var r := Without(order, gone);
      assert r == rest || r == [order[0]] + rest;
    }
  }

  lemma WithoutLists(order: seq<Id>, data: map<Id, Value>, gone: set<Id>)
    requires Lists(order, data)
    ensures Lists(Without(order, gone), data - gone)
  {
    WithoutIsDistinct(order, gone);
    forall id ensures id in Without(order, gone) <==> id in data - gone {
      WithoutMembers(order, gone, id);
    }
  }

  lemma CursorCount(w: World, it: nat)
    requires it in w.cursors
    ensures |w.cursors| > 0 && |w.cursors - {it}| == |w.cursors| - 1
  {
    assert w.cursors.Keys == (w.cursors - {it}).Keys + {it};
    assert |w.cursors.Keys| == |w.cursors|;
  }

  lemma CursorSet(w: World, it: nat, k: nat)
    ensures |w.cursors[it := k]| == |w.cursors| + if it in w.cursors then 0 else 1
  {
    assert w.cursors[it := k].Keys == w.cursors.Keys + {it};
    assert |w.cursors[it := k].Keys| == |w.cursors[it := k]|;
  }

  lemma NoCursors(w: World)
    requires |w.cursors| == 0
    ensures forall it :: it !in w.cursors
  {
    assert w.cursors.Keys == {};
  }

  lemma RemoveKeepsValid(w: World, id: Id)
    requires Valid(w)
    ensures Valid(Step(w, RemoveE(id)))
  {
    EraseIsWithout(w.table.order, id);
    WithoutLists(w.table.order, w.table.data, {id});
    if w.table.depth == 0 { NoCursors(w); }
  }

  lemma DropKeepsValid(w: World, it: nat)
    requires Valid(w) && Legal(w, DropE(it))
    ensures Valid(Step(w, DropE(it)))
  {
    CursorCount(w, it);
    WithoutLists(w.table.order, w.table.data, w.table.removed);
    if w.table.depth == 1 { NoCursors(Step(w, DropE(it))); }
  }

  lemma StepKeepsValid(w: World, e: Event)
    requires Valid(w) && Legal(w, e)
    ensures Valid(Step(w, e))
  {
    var s := w.table;
    if s.depth == 0 { NoCursors(w); }
    match e
    case RemoveE(id) => RemoveKeepsValid(w, id);
    case BeginE(it) => CursorSet(w, it, Skip(s, 0));
    case CopyE(from, it) => CursorSet(w, it, Skip(s, w.cursors[from]));
    case AdvanceE(it) => CursorSet(w, it, Skip(s, w.cursors[it] + 1));
    case DropE(it) => DropKeepsValid(w, it);
    case _ =>
  }

  lemma {:induction false} RunKeepsValid(w: World, es: seq<Event>)
    requires Valid(w) && LegalRun(w, es)
    ensures Valid(Run(w, es))
    decreases |es|
  {
    if es != [] {
      StepKeepsValid(w, es[0]);
      RunKeepsValid(Step(w, es[0]), es[1..]);
    }
  }

  lemma SubsetSize(a: set<Id>, b: set<Id>)
    requires a <= b
    ensures |b - a| == |b| - |a|
  {
    assert b == (b - a) + a;
  }

  /** size() counts the live ids, and without iterators nothing else is stored. */
  lemma SizeCountsLive(es: seq<Event>)
    requires LegalRun(World(Empty(), map[]), es)
    ensures var s := Run(World(Empty(), map[]), es).table;
      && s.removed <= s.data.Keys
      && SizeOf(s) == |Live(s)|
      && (s.depth == 0 ==> Live(s) == s.data.Keys)
  {
    var w := World(Empty(), map[]);
    RunKeepsValid(w, es);
    var s := Run(w, es).table;
    SubsetSize(s.removed, s.data.Keys);
    assert |s.data.Keys| == |s.data|;
  }

  // --------------------------------------------------------------- refinement

  /** The table as a plain map. */
  function Plain(s: MapState): map<Id, Value> {
    s.data - s.removed
  }

  function PlainStep(m: map<Id, Value>, nextId: Id, e: Event): map<Id, Value> {
    match e
    case AddE(value, _) => m[nextId := value]
    case AddWithIdE(id, value, _) => m[id := value]
    case RemoveE(id) => m - {id}
    case ReplaceE(id, value) => if id in m then m[id := value] else m
    case ClearE => map[]
    case _ => m
  }

  lemma RemoveRefines(s: MapState, id: Id)
    ensures Plain(Remove(s, id)) == Plain(s) - {id}
  {
  }

  lemma ReplaceRefines(s: MapState, id: Id, value: Value)
    requires id in s.data
    ensures Plain(Replace(s, id, value)) == if id in Plain(s) then Plain(s)[id := value] else Plain(s)
  {
  }

  lemma ClearRefines(s: MapState)
    ensures s.removed == {} || s.depth > 0 ==> Plain(Clear(s)) == map[]
  {
  }

  lemma DropRefines(s: MapState)
    requires s.depth > 0
    ensures Plain(Drop(s)) == Plain(s)
  {
  }

  lemma InsertRefines(s: MapState, id: Id, value: Value, order: seq<Id>)
    requires id !in s.removed
    ensures Plain(Inserted(s, id, value, order)) == Plain(s)[id := value]
  {
  }

  /** Late removal is invisible: seen from outside the table is a plain map. */
  lemma LateRemovalRefinesPlainMap(w: World, e: Event)
    requires Valid(w) && Legal(w, e)
    ensures Plain(Step(w, e).table) == PlainStep(Plain(w.table), w.table.nextId, e)
  {
    var s := w.table;
    match e
    case AddE(value, order) => InsertRefines(s, s.nextId, value, order);
    case AddWithIdE(id, value, order) => InsertRefines(s, id, value, order);
    case RemoveE(id) => RemoveRefines(s, id);
    case ReplaceE(id, value) => ReplaceRefines(s, id, value);
    case ClearE => ClearRefines(s);
    case DropE(_) => DropRefines(s);
    case _ => assert Step(w, e).table.data == s.data && Step(w, e).table.removed == s.removed;
  }

  // ------------------------------------------------------------------ a pass

  predicate Touches(e: Event, it: nat) {
    e == AdvanceE(it) || e == DropE(it)
  }

  predicate Spares(es: seq<Event>, it: nat) {
    forall i :: 0 <= i < |es| ==> !Touches(es[i], it)
  }

  /** An event that removes id. */
  predicate Takes(e: Event, id: Id) {
    e == RemoveE(id) || e.ClearE?
  }

  predicate TakesAny(es: seq<Event>, id: Id) {
    exists i :: 0 <= i < |es| && Takes(es[i], id)
  }

  /** What a run that leaves iterator it alone may change. */
  ghost predicate SameWalk(w: World, v: World, it: nat) {
    && it in w.cursors && it in v.cursors && v.cursors[it] == w.cursors[it]
    && v.table.order == w.table.order && w.table.removed <= v.table.removed
  }

  lemma StepKeepsWalk(w: World, e: Event, it: nat)
    requires Valid(w) && Legal(w, e) && it in w.cursors && !Touches(e, it)
    ensures SameWalk(w, Step(w, e), it)
    ensures forall id :: id in w.table.data && id !in w.table.removed ==>
              (id in Step(w, e).table.removed <==> Takes(e, id))
  {
    CursorCount(w, it);
    if e.DropE? {
      CursorCount(w, e.it);
      CursorCount(Step(w, e), it);
    }
  }

  lemma {:induction false} RunKeepsWalk(w: World, es: seq<Event>, it: nat)
    requires Valid(w) && LegalRun(w, es) && it in w.cursors && Spares(es, it)
    ensures Valid(Run(w, es)) && SameWalk(w, Run(w, es), it)
    decreases |es|
  {
    if es != [] {
      StepKeepsValid(w, es[0]);
      StepKeepsWalk(w, es[0], it);
      RunKeepsWalk(Step(w, es[0]), es[1..], it);
    }
  }

  /** A live id stays live exactly until something takes it. */
  lemma {:induction false} RunTakes(w: World, es: seq<Event>, it: nat, id: Id)
    requires Valid(w) && LegalRun(w, es) && it in w.cursors && Spares(es, it)
    requires id in w.table.order && id !in w.table.removed
    ensures id in Run(w, es).table.removed <==> TakesAny(es, id)
    decreases |es|
  {
    if es != [] {
      var m := Step(w, es[0]);
      StepKeepsValid(w, es[0]);
      StepKeepsWalk(w, es[0], it);
      RunKeepsWalk(m, es[1..], it);
      TakesFirst(es, id);
      if id !in m.table.removed {
        RunTakes(m, es[1..], it, id);
      }
    }
  }

  lemma TakesFirst(es: seq<Event>, id: Id)
    requires es != []
    ensures TakesAny(es, id) <==> Takes(es[0], id) || TakesAny(es[1..], id)
  {
    if TakesAny(es[1..], id) {
      var i :| 0 <= i < |es[1..]| && Takes(es[1..][i], id);
      assert Takes(es[i + 1], id);
    }
    if TakesAny(es, id) && !Takes(es[0], id) {
      var i :| 0 <= i < |es| && Takes(es[i], id);
      assert Takes(es[1..][i - 1], id);
    }
  }

  /** A whole loop: bodies[n] is what happens at the n-th id visited. */
  ghost predicate PassLegal(w: World, it: nat, bodies: seq<seq<Event>>)
    decreases |bodies|
  {
    && it in w.cursors && w.cursors[it] <= |w.table.order|
    && if w.cursors[it] == |w.table.order| then bodies == []
       else
         && bodies != [] && Spares(bodies[0], it) && LegalRun(w, bodies[0])
         && Legal(Run(w, bodies[0]), AdvanceE(it))
         && PassLegal(Step(Run(w, bodies[0]), AdvanceE(it)), it, bodies[1..])
  }

  ghost function Turn(w: World, it: nat, bodies: seq<seq<Event>>): World
    requires PassLegal(w, it, bodies) && bodies != []
  {
    Step(Run(w, bodies[0]), AdvanceE(it))
  }

  /** The positions visited, in order. */
  ghost function Pass(w: World, it: nat, bodies: seq<seq<Event>>): seq<nat>
    requires PassLegal(w, it, bodies)
    decreases |bodies|
  {
    if bodies == [] then [] else [w.cursors[it]] + Pass(Turn(w, it, bodies), it, bodies[1..])
  }

  /** The iterator does not rest on what was removed before it came. */
  ghost predicate OnLive(w: World, it: nat) {
    && it in w.cursors
    && (w.cursors[it] < |w.table.order| ==> w.table.order[w.cursors[it]] !in w.table.removed)
  }

  lemma TurnIs(w: World, it: nat, bodies: seq<seq<Event>>)
    requires Valid(w) && PassLegal(w, it, bodies) && bodies != []
    ensures var v := Turn(w, it, bodies);
      && Valid(v) && v.table.order == w.table.order && w.table.removed <= v.table.removed
      && OnLive(v, it) && w.cursors[it] < v.cursors[it] <= |w.table.order|
      && (forall i :: w.cursors[it] < i < v.cursors[it] ==> w.table.order[i] in v.table.removed)
      && v.table.removed == Run(w, bodies[0]).table.removed
  {
    RunKeepsWalk(w, bodies[0], it);
    StepKeepsValid(Run(w, bodies[0]), AdvanceE(it));
  }

  ghost predicate Ascending(ps: seq<nat>) {
    forall i, j :: 0 <= i < j < |ps| ==> ps[i] < ps[j]
  }

  /** Positions are visited in table order, none twice, all of them in range. */
  lemma {:induction false} VisitsAscend(w: World, it: nat, bodies: seq<seq<Event>>)
    requires Valid(w) && PassLegal(w, it, bodies)
    ensures var ps := Pass(w, it, bodies);
      Ascending(ps) && forall i :: 0 <= i < |ps| ==> w.cursors[it] <= ps[i] < |w.table.order|
    decreases |bodies|
  {
    if bodies != [] {
      TurnIs(w, it, bodies);
      VisitsAscend(Turn(w, it, bodies), it, bodies[1..]);
      var k, rest := w.cursors[it], Pass(Turn(w, it, bodies), it, bodies[1..]);
      forall i, j | 0 <= i < j < |rest| + 1 ensures ([k] + rest)[i] < ([k] + rest)[j] {
        assert ([k] + rest)[j] == rest[j - 1];
      }
    }
  }

  predicate EverTaken(bodies: seq<seq<Event>>, id: Id) {
    exists n :: 0 <= n < |bodies| && TakesAny(bodies[n], id)
  }

  lemma TakenLater(bodies: seq<seq<Event>>, id: Id)
    requires bodies != []
    ensures EverTaken(bodies[1..], id) ==> EverTaken(bodies, id)
  {
    if EverTaken(bodies[1..], id) {
      var n :| 0 <= n < |bodies[1..]| && TakesAny(bodies[1..][n], id);
      assert TakesAny(bodies[n + 1], id);
    }
  }

  /** What is ahead of the iterator and stays live is visited. */
  lemma {:induction false} VisitsTheLive(w: World, it: nat, bodies: seq<seq<Event>>, p: nat)
    requires Valid(w) && PassLegal(w, it, bodies) && w.cursors[it] <= p < |w.table.order|
    requires w.table.order[p] !in w.table.removed && !EverTaken(bodies, w.table.order[p])
    ensures p in Pass(w, it, bodies)
    decreases |bodies|
  {
    TurnIs(w, it, bodies);
    if w.cursors[it] < p {
      var id := w.table.order[p];
      assert !TakesAny(bodies[0], id);
      RunTakes(w, bodies[0], it, id);
      TakenLater(bodies, id);
      VisitsTheLive(Turn(w, it, bodies), it, bodies[1..], p);
    }
  }

  /** What was removed before its turn is not visited. */
  lemma {:induction false} SkipsTheRemoved(w: World, it: nat, bodies: seq<seq<Event>>, p: nat)
    requires Valid(w) && PassLegal(w, it, bodies) && OnLive(w, it)
    requires p < |w.table.order| && w.table.order[p] in w.table.removed
    ensures p !in Pass(w, it, bodies)
    decreases |bodies|
  {
    if bodies != [] {
      TurnIs(w, it, bodies);
      SkipsTheRemoved(Turn(w, it, bodies), it, bodies[1..], p);
    }
  }

  /** Over a whole iteration, begun or copied, each id ahead that is live
      throughout is visited exactly once, and none that was removed before. */
  lemma IterationVisitsEachOnce(w: World, it: nat, bodies: seq<seq<Event>>, p: nat)
    requires Valid(w) && PassLegal(w, it, bodies) && OnLive(w, it) && w.cursors[it] <= p < |w.table.order|
    ensures var ps := Pass(w, it, bodies); var id := w.table.order[p];
      && Ascending(ps)
      && (id !in w.table.removed && !EverTaken(bodies, id) ==> p in ps)
      && (id in w.table.removed ==> p !in ps)
  {
    VisitsAscend(w, it, bodies);
    if w.table.order[p] in w.table.removed {
      SkipsTheRemoved(w, it, bodies, p);
    } else if !EverTaken(bodies, w.table.order[p]) {
      VisitsTheLive(w, it, bodies, p);
    }
  }

  /** A new iterator stands before every live id, a copied one before every
      live id that is still ahead of the original. */
  lemma IteratorsStartOnLive(w: World, from: nat, it: nat)
    requires Valid(w) && it !in w.cursors
    ensures var v := Step(w, BeginE(it));
      && Valid(v) && OnLive(v, it)
      && forall p :: 0 <= p < v.cursors[it] ==> w.table.order[p] in w.table.removed
    ensures from in w.cursors ==>
      var v := Step(w, CopyE(from, it));
      && Valid(v) && OnLive(v, it)
      && forall p :: w.cursors[from] <= p < v.cursors[it] ==> w.table.order[p] in w.table.removed
  {
    StepKeepsValid(w, BeginE(it));
    if from in w.cursors {
      StepKeepsValid(w, CopyE(from, it));
    }
  }

  // -------------------------------------------------------------------- ids

  /** The ids that Add gave out in this run, in order. */
  ghost function Given(w: World, es: seq<Event>): seq<Id>
    requires LegalRun(w, es)
    decreases |es|
  {
    if es == [] then []
    else (if es[0].AddE? then [w.table.nextId] else []) + Given(Step(w, es[0]), es[1..])
  }

  predicate OnlyAdds(es: seq<Event>) {
    forall i :: 0 <= i < |es| ==> !es[i].AddWithIdE?
  }

  ghost predicate BelowNext(w: World) {
    forall id :: id in w.table.data ==> id < w.table.nextId
  }

  ghost predicate Rising(ids: seq<Id>, least: Id) {
    && (forall i :: 0 <= i < |ids| ==> least <= ids[i])
    && (forall i, j :: 0 <= i < j < |ids| ==> ids[i] < ids[j])
  }

  lemma RisingInFront(id: Id, ids: seq<Id>)
    requires Rising(ids, id + 1)
    ensures Rising([id] + ids, id)
  {
    forall i, j | 0 <= i < j < |ids| + 1 ensures ([id] + ids)[i] < ([id] + ids)[j] {
      assert ([id] + ids)[j] == ids[j - 1];
    }
  }

  lemma StepKeepsBelowNext(w: World, e: Event)
    requires Valid(w) && Legal(w, e) && BelowNext(w) && !e.AddWithIdE?
    ensures var v := Step(w, e); BelowNext(v) && v.table.nextId == w.table.nextId + if e.AddE? then 1 else 0
  {
  }

  /** If ids come from Add alone, they ascend over the whole run: none is ever
      given out again, not even after its entry was removed, and the id that
      Add would use next is always free. */
  lemma {:induction false} IdsAreNeverReused(w: World, es: seq<Event>)
    requires Valid(w) && LegalRun(w, es) && OnlyAdds(es) && BelowNext(w)
    ensures Rising(Given(w, es), w.table.nextId)
    ensures BelowNext(Run(w, es)) && Run(w, es).table.nextId !in Run(w, es).table.data
    decreases |es|
  {
    if es != [] {
      var v := Step(w, es[0]);
      StepKeepsValid(w, es[0]);
      StepKeepsBelowNext(w, es[0]);
      IdsAreNeverReused(v, es[1..]);
      var rest := Given(v, es[1..]);
      if es[0].AddE? { RisingInFront(w.table.nextId, rest); } else { assert [] + rest == rest; }
    }
  }

  // Mixing the two ways of adding.

  /** Event i stored this id by the caller's choice, and nothing took it since. */
  predicate ChosenAt(es: seq<Event>, i: nat, id: Id) {
    i < |es| && es[i].AddWithIdE? && es[i].id == id && forall j :: i < j < |es| ==> !Takes(es[j], id)
  }

  ghost predicate StillChosen(es: seq<Event>, id: Id) {
    exists i :: ChosenAt(es, i, id)
  }

  lemma ChosenEarlier(es: seq<Event>, id: Id)
    requires es != []
    ensures var n := |es| - 1;
      StillChosen(es, id) <==>
        (es[n].AddWithIdE? && es[n].id == id) || (StillChosen(es[..n], id) && !Takes(es[n], id))
  {
    var n := |es| - 1;
    if es[n].AddWithIdE? && es[n].id == id {
      assert ChosenAt(es, n, id);
    } else {
      if i: nat :| ChosenAt(es, i, id) {
        assert ChosenAt(es[..n], i, id);
      }
      if i: nat :| ChosenAt(es[..n], i, id) {
        assert !Takes(es[n], id) ==> ChosenAt(es, i, id);
      }
    }
  }

  lemma {:induction false} RunLast(w: World, es: seq<Event>)
    requires es != [] && LegalRun(w, es)
    ensures var n := |es| - 1;
      && LegalRun(w, es[..n]) && Legal(Run(w, es[..n]), es[n])
      && Run(w, es) == Step(Run(w, es[..n]), es[n])
    decreases |es|
  {
    if |es| > 1 {
      RunLast(Step(w, es[0]), es[1..]);
      assert es[1..][..|es| - 2] == es[..|es| - 1][1..];
    } else {
      assert es[..0] == [] && es[1..] == [];
    }
  }

  lemma StepBeyondNext(w: World, e: Event, id: Id)
    requires Valid(w) && Legal(w, e) && Step(w, e).table.nextId <= id
    ensures w.table.nextId <= id
    ensures id in Plain(Step(w, e).table) <==>
            (e.AddWithIdE? && e.id == id) || (id in Plain(w.table) && !Takes(e, id))
  {
    LateRemovalRefinesPlainMap(w, e);
    NextIdRises(w, e);
    PlainStepHas(Plain(w.table), w.table.nextId, e, id);
  }

  lemma NextIdRises(w: World, e: Event)
    requires Legal(w, e)
    ensures Step(w, e).table.nextId == w.table.nextId + if e.AddE? then 1 else 0
  {
  }

  lemma PlainStepHas(m: map<Id, Value>, nextId: Id, e: Event, id: Id)
    requires e.AddE? ==> nextId < id
    ensures id in PlainStep(m, nextId, e) <==> (e.AddWithIdE? && e.id == id) || (id in m && !Takes(e, id))
  {
  }

  /** An id that Add has not reached yet is in the table exactly when a caller
      chose it and it was not removed since. */
  lemma {:induction false} BeyondNextIffChosen(es: seq<Event>, id: Id)
    requires LegalRun(World(Empty(), map[]), es) && Run(World(Empty(), map[]), es).table.nextId <= id
    ensures id in Plain(Run(World(Empty(), map[]), es).table) <==> StillChosen(es, id)
    decreases |es|
  {
    var start := World(Empty(), map[]);
    if es != [] {
      var n := |es| - 1;
      RunLast(start, es);
      var w := Run(start, es[..n]);
      RunKeepsValid(start, es[..n]);
      StepBeyondNext(w, es[n], id);
      ChosenEarlier(es, id);
      BeyondNextIffChosen(es[..n], id);
    }
  }

  /** Over every run that mixes Add and AddWithID, the next Add meets an occupied
      slot exactly when a caller chose that id and its entry is still stored.
      The new entry then takes the place of the caller's, whose value is lost;
      every other entry stays. */
  lemma AddOverwritesIffChosen(es: seq<Event>, value: Value, order: seq<Id>)
    requires LegalRun(World(Empty(), map[]), es)
    requires Legal(Run(World(Empty(), map[]), es), AddE(value, order))
    ensures
      var w := Run(World(Empty(), map[]), es);
      var s, s' := w.table, Step(w, AddE(value, order)).table;
      && (s.nextId in s.data <==> StillChosen(es, s.nextId))
      && Plain(s') == Plain(s)[s.nextId := value]
      && SizeOf(s') == SizeOf(s) + if StillChosen(es, s.nextId) then 0 else 1
  {
    var w := Run(World(Empty(), map[]), es);
    RunKeepsValid(World(Empty(), map[]), es);
    BeyondNextIffChosen(es, w.table.nextId);
    LateRemovalRefinesPlainMap(w, AddE(value, order));
    GrowsByOne(w.table.data, w.table.nextId, value);
  }

  lemma GrowsByOne(m: map<Id, Value>, id: Id, value: Value)
    ensures |m[id := value]| == |m| + if id in m then 0 else 1
  {
    assert m[id := value].Keys == m.Keys + {id};
    assert |m[id := value].Keys| == |m[id := value]| && |m.Keys| == |m|;
  }

  /** The shortest such run: the caller takes id 1, then Add does. */
  lemma ChosenEntryIsLost(mine: Value, yours: Value)
    ensures var es := [AddWithIdE(1, mine, [1]), AddE(yours, [1])];
      && LegalRun(World(Empty(), map[]), es)
      && Run(World(Empty(), map[]), es).table.data == map[1 := yours]
  {
    var start := World(Empty(), map[]);
    var w := World(MapState([1], map[1 := mine], {}, 0, 1), map[]);
    assert Empty().data[1 := mine] == map[1 := mine];
    assert Step(start, AddWithIdE(1, mine, [1])) == w;
    assert w.table.data[1 := yours] == map[1 := yours];
    RunTwo(start, AddWithIdE(1, mine, [1]), AddE(yours, [1]));
  }

  lemma RunTwo(w: World, e: Event, f: Event)
    requires Legal(w, e) && Legal(Step(w, e), f)
    ensures LegalRun(w, [e, f]) && Run(w, [e, f]) == Step(Step(w, e), f)
  {
    RunOne(Step(w, e), f);
    assert [e, f][1..] == [f];
  }

  lemma RunOne(w: World, e: Event)
    requires Legal(w, e)
    ensures LegalRun(w, [e]) && Run(w, [e]) == Step(w, e)
  {
    assert [e][1..] == [];
  }
}
