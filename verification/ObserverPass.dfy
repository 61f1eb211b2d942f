/** What a notification pass over an ObserverListBase visits, whatever the
    observers do to the list while it runs. */
module ObserverPasses {
  import opened ObserverLists

  /** A list with its iterators by name; Gone once the list is destroyed. */
  datatype World = Gone | World(list: ListState, cursors: map<nat, Cursor>)

  datatype Event =
    | AddE(o: Observer) | RemoveE(o: Observer) | ClearE | DestroyE
    | BeginE(id: nat) | NextE(id: nat) | DropE(id: nat)

  /** What callers may do: use only live iterators, never step past the end,
      never touch a destroyed list except through its (now null) iterators. */
  predicate Legal(w: World, e: Event) {
    match e
    case BeginE(id) => w.World? && id !in w.cursors
    case NextE(id) =>
      w.World? ==> id in w.cursors && Fits(w.list, w.cursors[id]) && !AtEnd(w.list, w.cursors[id])
    case DropE(id) =>
      w.World? ==> id in w.cursors && (w.cursors[id].At? ==> w.list.depth > 0)
    case _ => w.World?
  }

  function Step(w: World, e: Event): World
    requires Legal(w, e)
  {
    if w.Gone? then w else
      match e
      case AddE(o) => w.(list := Add(w.list, o))
      case RemoveE(o) => w.(list := Remove(w.list, o))
      case ClearE => w.(list := Clear(w.list))
      case DestroyE => Gone
      case BeginE(id) => var (l, c) := Begin(w.list); World(l, w.cursors[id := c])
      case NextE(id) => w.(cursors := w.cursors[id := Next(w.list, w.cursors[id])])
      case DropE(id) => World(Drop(w.list, w.cursors[id]), w.cursors - {id})
  }

  predicate LegalRun(w: World, es: seq<Event>)
    decreases |es|
  {
    es == [] || (Legal(w, es[0]) && LegalRun(Step(w, es[0]), es[1..]))
  }

  function Run(w: World, es: seq<Event>): World
    requires LegalRun(w, es)
    decreases |es|
  {
    if es == [] then w else Run(Step(w, es[0]), es[1..])
  }

  // ---------------------------------------------------------------- invariant

  function AttachedIds(cs: map<nat, Cursor>): set<nat> {
    set i | i in cs && cs[i].At?
  }

  ghost predicate Distinct(s: seq<Slot>) {
    forall i, j :: 0 <= i < j < |s| && s[i].Held? ==> s[i] != s[j]
  }

  ghost predicate Valid(w: World) {
    w.World? ==>
      && w.list.depth == |AttachedIds(w.cursors)|
      && (w.list.depth == 0 ==> forall k :: 0 <= k < |w.list.slots| ==> w.list.slots[k].Held?)
      && Distinct(w.list.slots)
      && forall id :: id in w.cursors ==> Fits(w.list, w.cursors[id]) && RightLimit(w.list, w.cursors[id])
  }

  predicate RightLimit(l: ListState, c: Cursor) {
    c.At? ==> (c.limit.NoLimit? <==> l.kind == NotifyAll)
  }

  /** The iterator is on an observer or at the end, as ++ and begin() leave it. */
  ghost predicate Positioned(w: World, id: nat) {
    w.World? ==>
      && id in w.cursors
      && Fits(w.list, w.cursors[id])
      && (AtEnd(w.list, w.cursors[id]) || w.list.slots[w.cursors[id].index].Held?)
  }

  // -------------------------------------------------------- a pass as a loop

  predicate Ended(w: World, id: nat) {
    w.Gone? || id !in w.cursors || AtEnd(w.list, w.cursors[id])
  }

  datatype Visit = Visit(pos: nat, obs: Observer)

  /** An observer's callback leaves the pass's own iterator alone. */
  predicate Untouched(es: seq<Event>, id: nat) {
    forall e :: e in es ==> e != NextE(id) && e != DropE(id)
  }

  /** for (auto& obs : list) { callback }, where bodies[k] is what the k-th
      notified observer does to the list. */
  function Pass(w: World, id: nat, bodies: seq<seq<Event>>): (r: (World, seq<Visit>))
    requires PassLegal(w, id, bodies)
    decreases |bodies|
  {
    if Ended(w, id) || bodies == [] then (w, [])
    else
      var here := Here(w, id);
      var (wn, vs) := Pass(Step(Run(w, bodies[0]), NextE(id)), id, bodies[1..]);
      (wn, [here] + vs)
  }

  function Here(w: World, id: nat): Visit
    requires !Ended(w, id)
  {
    var c := w.cursors[id];
    var s := if c.index < |w.list.slots| then w.list.slots[c.index] else Null;
    Visit(c.index, if s.Held? then s.obs else 0)
  }

  predicate PassLegal(w: World, id: nat, bodies: seq<seq<Event>>)
    decreases |bodies|
  {
    || Ended(w, id)
    || bodies == []
    || (&& LegalRun(w, bodies[0])
        && Untouched(bodies[0], id)
        && Legal(Run(w, bodies[0]), NextE(id))
        && PassLegal(Step(Run(w, bodies[0]), NextE(id)), id, bodies[1..]))
  }

  // ------------------------------------------------ registration, abstractly

  /** The registered observers in registration order. */
  function Live(s: seq<Slot>): seq<Observer> {
    if s == [] then [] else (if s[0].Null? then [] else [s[0].obs]) + Live(s[1..])
  }

  function Registered(w: World): seq<Observer> {
    if w.Gone? then [] else Live(w.list.slots)
  }

  function Erase(r: seq<Observer>, o: Observer): seq<Observer> {
    if r == [] then [] else if r[0] == o then r[1..] else [r[0]] + Erase(r[1..], o)
  }

  /** The list as its clients see it, with no tombstones and no iterators. */
  function PlainStep(r: seq<Observer>, e: Event): seq<Observer> {
    match e
    case AddE(o) => if o in r then r else r + [o]
    case RemoveE(o) => Erase(r, o)
    case ClearE => []
    case DestroyE => []
    case _ => r
  }

  lemma {:induction false} LiveSplit(s: seq<Slot>, t: seq<Slot>)
    ensures Live(s + t) == Live(s) + Live(t)
  {
    if s == [] {
      assert s + t == t;
    } else {
      assert (s + t)[1..] == s[1..] + t;
      LiveSplit(s[1..], t);
      var h := if s[0].Null? then [] else [s[0].obs];
      assert h + (Live(s[1..]) + Live(t)) == (h + Live(s[1..])) + Live(t);
    }
  }

  lemma {:induction false} LiveMembers(s: seq<Slot>, o: Observer)
    ensures o in Live(s) <==> Held(o) in s
  {
    if s != [] {
      LiveMembers(s[1..], o);
      assert s == [s[0]] + s[1..];
    }
  }

  lemma {:induction false} LiveOfNulls(s: seq<Slot>)
    requires forall k :: 0 <= k < |s| ==> s[k].Null?
    ensures Live(s) == []
  {
    if s != [] { LiveOfNulls(s[1..]); }
  }

  lemma {:induction false} LiveSkipsNulls(s: seq<Slot>, i: nat, j: nat)
    requires i <= j <= |s| && forall k :: i <= k < j ==> s[k].Null?
    ensures Live(s[i..]) == Live(s[j..])
    decreases j - i
  {
    if i < j {
      assert s[i..][1..] == s[i + 1..];
      LiveSkipsNulls(s, i + 1, j);
    }
  }

  lemma {:induction false} CompactedKeeps(s: seq<Slot>)
    ensures Live(Compacted(s)) == Live(s)
    ensures forall k :: 0 <= k < |Compacted(s)| ==> Compacted(s)[k].Held? && Compacted(s)[k] in s
    ensures Distinct(s) ==> Distinct(Compacted(s))
    ensures |Compacted(s)| == |Live(s)|
  {
    if s != [] {
      CompactedKeeps(s[1..]);
      var c := Compacted(s[1..]);
      LiveSplit(if s[0].Null? then [] else [s[0]], c);
      assert s == [s[0]] + s[1..];
      if Distinct(s) {
        assert Distinct(s[1..]);
        forall i, j | 0 <= i < j < |Compacted(s)| ensures Compacted(s)[i] != Compacted(s)[j] {
          if s[0].Held? && i == 0 {
            assert Compacted(s)[j] == c[j - 1] && c[j - 1] in s[1..];
          }
        }
      }
    }
  }

  lemma {:induction false} EraseSplit(r: seq<Observer>, t: seq<Observer>, o: Observer)
    requires o !in r
    ensures Erase(r + t, o) == r + Erase(t, o)
  {
    if r == [] {
      assert r + t == t;
    } else {
      assert (r + t)[1..] == r[1..] + t;
      EraseSplit(r[1..], t, o);
    }
  }

  lemma EraseAbsent(r: seq<Observer>, o: Observer)
    requires o !in r
    ensures Erase(r, o) == r
  {
    EraseSplit(r, [], o);
    assert r + [] == r;
  }

  lemma RemoveRefines(l: ListState, o: Observer)
    ensures Live(Remove(l, o).slots) == Erase(Live(l.slots), o)
  {
    var s := l.slots;
    var i := FirstIndex(s, Held(o));
    if i == |s| {
      assert s[..i] == s;
      LiveMembers(s, o);
      EraseAbsent(Live(s), o);
    } else {
      RemoveAtRefines(s[..i], s[i + 1..], o);
      Around(s, i, Null);
    }
  }

  lemma Around(s: seq<Slot>, i: nat, x: Slot)
    requires i < |s|
    ensures s == s[..i] + ([s[i]] + s[i + 1..])
    ensures s[i := x] == s[..i] + ([x] + s[i + 1..])
  {
  }

  lemma RemoveAtRefines(before: seq<Slot>, after: seq<Slot>, o: Observer)
    requires Held(o) !in before
    ensures Live(before + ([Null] + after)) == Erase(Live(before + ([Held(o)] + after)), o)
    ensures Live(before + after) == Erase(Live(before + ([Held(o)] + after)), o)
  {
    LiveSplit(before, [Held(o)] + after);
    LiveSplit(before, [Null] + after);
    LiveSplit(before, after);
    LiveCons(Held(o), after);
    LiveCons(Null, after);
    LiveMembers(before, o);
    EraseSplit(Live(before), [o] + Live(after), o);
    EraseHead(o, Live(after));
  }

  lemma LiveCons(x: Slot, s: seq<Slot>)
    ensures Live([x] + s) == (if x.Null? then [] else [x.obs]) + Live(s)
  {
    assert ([x] + s)[1..] == s;
  }

  lemma EraseHead(o: Observer, r: seq<Observer>)
    ensures Erase([o] + r, o) == r
  {
    assert ([o] + r)[1..] == r;
  }

  /** Tombstones, nesting and compaction never show: every event changes the
      registered observers as it would change a plain list. */
  lemma TombstonesRefinePlainList(w: World, e: Event)
    requires Valid(w) && Legal(w, e)
    ensures Registered(Step(w, e)) == PlainStep(Registered(w), e) || w.Gone?
    ensures w.Gone? ==> Step(w, e) == Gone
  {
    if w.World? {
      var s := w.list.slots;
      match e {
        case AddE(o) =>
          LiveMembers(s, o);
          LiveSplit(s, [Held(o)]);
        case RemoveE(o) => RemoveRefines(w.list, o);
        case ClearE => LiveOfNulls(Clear(w.list).slots);
        case DropE(id) => CompactedKeeps(s);
        case _ =>
      }
    }
  }

  lemma AttachedAfter(cs: map<nat, Cursor>, id: nat, c: Cursor)
    ensures id !in cs && c.At? ==> |AttachedIds(cs[id := c])| == |AttachedIds(cs)| + 1
    ensures id !in cs && c.Detached? ==> AttachedIds(cs[id := c]) == AttachedIds(cs)
    ensures id in cs && cs[id].At? == c.At? ==> AttachedIds(cs[id := c]) == AttachedIds(cs)
    ensures id in cs && cs[id].At? ==> |AttachedIds(cs - {id})| == |AttachedIds(cs)| - 1
    ensures id in cs && cs[id].Detached? ==> AttachedIds(cs - {id}) == AttachedIds(cs)
  {
    if id !in cs && c.At? {
      assert AttachedIds(cs[id := c]) == AttachedIds(cs) + {id};
    }
    if id in cs && cs[id].At? {
      assert AttachedIds(cs - {id}) == AttachedIds(cs) - {id};
    }
  }

  /** While iterators live: slots are only appended or nulled, never moved. */
  ghost predicate Extends(s: seq<Slot>, t: seq<Slot>) {
    |s| <= |t| && forall k :: 0 <= k < |s| ==> t[k] == s[k] || t[k].Null?
  }

  lemma FitsExtends(l: ListState, m: ListState, c: Cursor)
    requires Fits(l, c) && Extends(l.slots, m.slots)
    ensures Fits(m, c)
  {
  }

  lemma ListStepKeeps(l: ListState, e: Event)
    requires e.AddE? || e.RemoveE? || e.ClearE?
    requires Distinct(l.slots)
    ensures var m := Step(World(l, map[]), e).list;
      && Distinct(m.slots) && m.depth == l.depth && m.kind == l.kind
      && (l.depth > 0 ==> Extends(l.slots, m.slots))
      && (forall k :: 0 <= k < |m.slots| && m.slots[k].Null? && l.depth == 0 ==> exists j :: 0 <= j < |l.slots| && l.slots[j].Null?)
  {
    var s := l.slots;
    var t := Step(World(l, map[]), e).list.slots;
    if e.RemoveE? {
      var i := FirstIndex(s, Held(e.o));
      if l.depth == 0 && i < |s| {
        assert forall k :: 0 <= k < |t| ==> t[k] == s[if k < i then k else k + 1];
      }
    }
  }

  lemma ListStepKeepsValid(w: World, e: Event)
    requires w.World? && Valid(w) && (e.AddE? || e.RemoveE? || e.ClearE?)
    ensures Valid(Step(w, e))
  {
    ListStepKeeps(w.list, e);
    if w.list.depth == 0 {
      NoneAttached(w.cursors);
    } else {
      var m := Step(World(w.list, map[]), e).list;
      forall id | id in w.cursors ensures Fits(m, w.cursors[id]) {
        FitsExtends(w.list, m, w.cursors[id]);
      }
    }
  }

  lemma NoneAttached(cs: map<nat, Cursor>)
    requires |AttachedIds(cs)| == 0
    ensures forall i :: i in cs ==> cs[i].Detached?
  {
    assert AttachedIds(cs) == {};
    forall i | i in cs ensures cs[i].Detached? {
      assert i !in AttachedIds(cs);
    }
  }

  lemma StepKeepsValid(w: World, e: Event)
    requires Valid(w) && Legal(w, e)
    ensures Valid(Step(w, e))
  {
    if w.World? && Step(w, e).World? {
      var v := Step(w, e);
      match e {
        case BeginE(id) => AttachedAfter(w.cursors, id, v.cursors[id]);
        case NextE(id) => AttachedAfter(w.cursors, id, v.cursors[id]);
        case DropE(id) =>
          AttachedAfter(w.cursors, id, Detached);
          CompactedKeeps(w.list.slots);
          if v.list.depth == 0 { NoneAttached(v.cursors); }
        case AddE(_) => ListStepKeepsValid(w, e);
        case RemoveE(_) => ListStepKeepsValid(w, e);
        case ClearE => ListStepKeepsValid(w, e);
        case DestroyE =>
      }
    }
  }

  /** In every reachable world: depth counts the live attached iterators, a
      list no iterator walks holds exactly its registered observers in order,
      and none is registered twice. */
  lemma RunKeepsValid(w: World, es: seq<Event>)
    requires Valid(w) && LegalRun(w, es)
    ensures Valid(Run(w, es))
    ensures var v := Run(w, es); v.World? && AttachedIds(v.cursors) == {} ==>
      |v.list.slots| == |Registered(v)| &&
      forall k :: 0 <= k < |v.list.slots| ==> v.list.slots[k] == Held(Registered(v)[k])
    decreases |es|
  {
    if es == [] {
      if w.World? && AttachedIds(w.cursors) == {} { LiveOfHeld(w.list.slots); }
    } else {
      StepKeepsValid(w, es[0]);
      RunKeepsValid(Step(w, es[0]), es[1..]);
    }
  }

  lemma {:induction false} LiveOfHeld(s: seq<Slot>)
    requires forall k :: 0 <= k < |s| ==> s[k].Held?
    ensures |Live(s)| == |s|
    ensures forall k :: 0 <= k < |s| ==> s[k] == Held(Live(s)[k])
  {
    if s != [] { LiveOfHeld(s[1..]); }
  }

  // ------------------------------------------------------ what a pass visits

  function Notified(vs: seq<Visit>): seq<Observer> {
    if vs == [] then [] else [vs[0].obs] + Notified(vs[1..])
  }

  /** The visits whose registration is still in the list afterwards. */
  function Survivors(vs: seq<Visit>, s: seq<Slot>): seq<Observer> {
    if vs == [] then []
    else (if vs[0].pos < |s| && s[vs[0].pos] == Held(vs[0].obs) then [vs[0].obs] else []) +
         Survivors(vs[1..], s)
  }

  function Restrict(r: seq<Observer>, keep: set<Observer>): seq<Observer> {
    if r == [] then [] else (if r[0] in keep then [r[0]] else []) + Restrict(r[1..], keep)
  }

  /** None of these events unregisters an observer of keep. */
  predicate Spares(es: seq<Event>, keep: set<Observer>) {
    forall e :: e in es ==> e != ClearE && (e.RemoveE? ==> e.o !in keep)
  }

  /** Where the pass's attached iterator stands in a live world. */
  ghost predicate Walking(w: World, id: nat) {
    w.World? && id in w.cursors && w.cursors[id].At?
  }

  ghost predicate SameWalk(w: World, v: World, id: nat)
    requires Walking(w, id)
  {
    Walking(v, id) && v.cursors[id] == w.cursors[id] && Extends(w.list.slots, v.list.slots) && v.list.kind == w.list.kind
  }

  lemma AttachedCounts(w: World, id: nat)
    requires Valid(w) && Walking(w, id)
    ensures w.list.depth > 0
    ensures forall j :: j in w.cursors && w.cursors[j].At? && j != id ==> w.list.depth > 1
  {
    var a := AttachedIds(w.cursors);
    assert id in a;
    forall j | j in w.cursors && w.cursors[j].At? && j != id ensures |a| > 1 {
      assert {id, j} <= a && |{id, j}| == 2;
      assert |a - {id, j}| + 2 == |a|;
    }
  }

  lemma StepKeepsWalk(w: World, e: Event, id: nat)
    requires Valid(w) && Walking(w, id) && Legal(w, e) && e != NextE(id) && e != DropE(id)
    ensures Step(w, e).World? ==> SameWalk(w, Step(w, e), id)
  {
    AttachedCounts(w, id);
    if e.AddE? || e.RemoveE? || e.ClearE? { ListStepKeeps(w.list, e); }
  }

  lemma RunKeepsWalk(w: World, es: seq<Event>, id: nat)
    requires Valid(w) && Walking(w, id) && LegalRun(w, es) && Untouched(es, id)
    ensures Valid(Run(w, es))
    ensures Run(w, es).World? ==> SameWalk(w, Run(w, es), id)
    decreases |es|
  {
    if es != [] {
      var v := Step(w, es[0]);
      assert es[0] in es && forall e :: e in es[1..] ==> e in es;
      StepKeepsValid(w, es[0]);
      StepKeepsWalk(w, es[0], id);
      if v.Gone? {
        GoneStays(es[1..]);
      } else {
        RunKeepsWalk(v, es[1..], id);
      }
    }
  }

  lemma {:induction false} GoneStays(es: seq<Event>)
    requires LegalRun(Gone, es)
    ensures Run(Gone, es) == Gone
    decreases |es|
  {
    if es != [] { GoneStays(es[1..]); }
  }

  /** One turn of the loop: the callback, then ++. */
  function Turn(w: World, id: nat, body: seq<Event>): World
    requires LegalRun(w, body) && Legal(Run(w, body), NextE(id))
  {
    Step(Run(w, body), NextE(id))
  }

  lemma TurnKeeps(w: World, id: nat, body: seq<Event>)
    requires Valid(w) && Walking(w, id) && Positioned(w, id) && !Ended(w, id)
    requires LegalRun(w, body) && Untouched(body, id)
    ensures Legal(Run(w, body), NextE(id))
    ensures Valid(Turn(w, id, body)) && Positioned(Turn(w, id, body), id)
    ensures var v := Turn(w, id, body); v.World? ==>
      && Walking(v, id) && Extends(w.list.slots, v.list.slots)
      && v.cursors[id].limit == w.cursors[id].limit && v.list.kind == w.list.kind
      && v.cursors[id].index > w.cursors[id].index
      && forall k :: w.cursors[id].index < k < v.cursors[id].index ==> v.list.slots[k].Null?
  {
    RunKeepsWalk(w, body, id);
    StepKeepsValid(Run(w, body), NextE(id));
  }

  /** Whatever the callbacks do, the loop never steps an iterator at its end,
      so every pass is legal if its callbacks are. */
  lemma PassNeverOverruns(w: World, id: nat, body: seq<Event>, rest: seq<seq<Event>>)
    requires Valid(w) && Positioned(w, id)
    requires LegalRun(w, body) && Untouched(body, id)
    requires Ended(w, id) || (Legal(Run(w, body), NextE(id)) ==> PassLegal(Turn(w, id, body), id, rest))
    ensures PassLegal(w, id, [body] + rest)
  {
    if !Ended(w, id) {
      TurnKeeps(w, id, body);
      assert ([body] + rest)[1..] == rest;
    }
  }

  lemma PassKeeps(w: World, id: nat, bodies: seq<seq<Event>>)
    requires Valid(w) && Walking(w, id) && Positioned(w, id) && PassLegal(w, id, bodies)
    ensures var v := Pass(w, id, bodies).0; Valid(v) && Positioned(v, id) && (v.World? ==>
      && Walking(v, id) && Extends(w.list.slots, v.list.slots)
      && v.cursors[id].limit == w.cursors[id].limit && v.list.kind == w.list.kind
      && v.cursors[id].index >= w.cursors[id].index)
    decreases |bodies|
  {
    if !Ended(w, id) && bodies != [] {
      TurnKeeps(w, id, bodies[0]);
      var v := Turn(w, id, bodies[0]);
      if v.World? { PassKeeps(v, id, bodies[1..]); }
    }
  }

  /** The visits still registered when the pass ends are, in order, exactly the
      registered observers among the slots the iterator covered. */
  lemma PassCoversSurvivors(w: World, id: nat, bodies: seq<seq<Event>>)
    requires Valid(w) && Walking(w, id) && Positioned(w, id) && PassLegal(w, id, bodies)
    requires var v := Pass(w, id, bodies).0; v.World? && Ended(v, id)
    ensures var (v, vs) := Pass(w, id, bodies);
      Walking(v, id) && w.cursors[id].index <= v.cursors[id].index <= |v.list.slots| &&
      Survivors(vs, v.list.slots) == Live(v.list.slots[w.cursors[id].index..v.cursors[id].index])
    decreases |bodies|
  {
    var (v, vs) := Pass(w, id, bodies);
    PassKeeps(w, id, bodies);
    var i, s := w.cursors[id].index, v.list.slots;
    if !Ended(w, id) {
      var u := Turn(w, id, bodies[0]);
      TurnKeeps(w, id, bodies[0]);
      PassCoversSurvivors(u, id, bodies[1..]);
      PassKeeps(u, id, bodies[1..]);
      var j, n := u.cursors[id].index, v.cursors[id].index;
      assert vs[1..] == Pass(u, id, bodies[1..]).1;
      LiveSkips(s, i, j, n);
    }
  }

  lemma LiveSkips(s: seq<Slot>, i: nat, j: nat, n: nat)
    requires i < j <= n <= |s| && forall k :: i < k < j ==> s[k].Null?
    ensures Live(s[i..n]) == (if s[i].Null? then [] else [s[i].obs]) + Live(s[j..n])
  {
    var r := s[..n];
    assert r[i..] == s[i..n] && r[j..] == s[j..n] && r[i..][1..] == r[i + 1..];
    LiveSkipsNulls(r, i + 1, j);
  }

  /** t is s after events that spared keep while some iterator lived. */
  ghost predicate Kept(s: seq<Slot>, t: seq<Slot>, keep: set<Observer>) {
    && Extends(s, t)
    && (forall k :: 0 <= k < |s| && s[k].Held? && s[k].obs in keep ==> t[k] == s[k])
    && (forall k :: |s| <= k < |t| && t[k].Held? ==> t[k].obs !in keep)
  }

  ghost predicate AllHeld(keep: set<Observer>, s: seq<Slot>) {
    forall o :: o in keep ==> Held(o) in s
  }

  lemma KeptHolds(s: seq<Slot>, t: seq<Slot>, keep: set<Observer>)
    requires Kept(s, t, keep) && AllHeld(keep, s)
    ensures AllHeld(keep, t)
  {
    forall o | o in keep ensures Held(o) in t {
      var k :| 0 <= k < |s| && s[k] == Held(o);
      assert t[k] == Held(o);
    }
  }

  lemma StepSpares(w: World, e: Event, id: nat, keep: set<Observer>)
    requires Valid(w) && Walking(w, id) && Legal(w, e) && e != NextE(id) && e != DropE(id)
    requires Spares([e], keep) && AllHeld(keep, w.list.slots)
    ensures Step(w, e).World? ==> Kept(w.list.slots, Step(w, e).list.slots, keep)
  {
    StepKeepsWalk(w, e, id);
    AttachedCounts(w, id);
    assert e in [e];
  }

  lemma RunSpares(w: World, es: seq<Event>, id: nat, keep: set<Observer>)
    requires Valid(w) && Walking(w, id) && LegalRun(w, es) && Untouched(es, id)
    requires Spares(es, keep) && AllHeld(keep, w.list.slots)
    ensures Run(w, es).World? ==> Kept(w.list.slots, Run(w, es).list.slots, keep)
    decreases |es|
  {
    if es != [] {
      var v := Step(w, es[0]);
      assert es[0] in es && forall e :: e in es[1..] ==> e in es;
      StepKeepsValid(w, es[0]);
      StepKeepsWalk(w, es[0], id);
      StepSpares(w, es[0], id, keep);
      if v.Gone? {
        GoneStays(es[1..]);
      } else {
        KeptHolds(w.list.slots, v.list.slots, keep);
        RunSpares(v, es[1..], id, keep);
      }
    }
  }

  lemma {:induction false} RestrictSplit(r: seq<Observer>, t: seq<Observer>, keep: set<Observer>)
    ensures Restrict(r + t, keep) == Restrict(r, keep) + Restrict(t, keep)
  {
    if r == [] {
      assert r + t == t;
    } else {
      assert (r + t)[1..] == r[1..] + t;
      RestrictSplit(r[1..], t, keep);
      var h := if r[0] in keep then [r[0]] else [];
      assert h + (Restrict(r[1..], keep) + Restrict(t, keep)) == (h + Restrict(r[1..], keep)) + Restrict(t, keep);
    }
  }

  lemma {:induction false} RestrictNone(s: seq<Slot>, keep: set<Observer>)
    requires forall k :: 0 <= k < |s| && s[k].Held? ==> s[k].obs !in keep
    ensures Restrict(Live(s), keep) == []
  {
    if s != [] {
      RestrictNone(s[1..], keep);
      RestrictSplit(if s[0].Null? then [] else [s[0].obs], Live(s[1..]), keep);
    }
  }

  lemma {:induction false} RestrictKept(s: seq<Slot>, t: seq<Slot>, keep: set<Observer>, i: nat)
    requires Kept(s, t, keep) && i <= |s|
    ensures Restrict(Live(t[i..]), keep) == Restrict(Live(s[i..]), keep)
    decreases |s| - i
  {
    if i == |s| {
      RestrictNone(t[i..], keep);
    } else {
      RestrictKept(s, t, keep, i + 1);
      assert s[i..][1..] == s[i + 1..] && t[i..][1..] == t[i + 1..];
      RestrictSplit(if s[i].Null? then [] else [s[i].obs], Live(s[i + 1..]), keep);
      RestrictSplit(if t[i].Null? then [] else [t[i].obs], Live(t[i + 1..]), keep);
    }
  }

  lemma PassNotifiesKept(w: World, id: nat, bodies: seq<seq<Event>>, keep: set<Observer>)
    requires Valid(w) && Walking(w, id) && Positioned(w, id) && PassLegal(w, id, bodies)
    requires var (v, vs) := Pass(w, id, bodies);
      v.World? && Ended(v, id) && forall k :: 0 <= k < |vs| && k < |bodies| ==> Spares(bodies[k], keep)
    requires AllHeld(keep, w.list.slots)
    requires var s := w.list.slots;
      forall k :: Clamp(w.cursors[id].limit, |s|) <= k < |s| && s[k].Held? ==> s[k].obs !in keep
    ensures Restrict(Notified(Pass(w, id, bodies).1), keep) ==
            Restrict(Live(w.list.slots[w.cursors[id].index..]), keep)
    decreases |bodies|
  {
    var (v, vs) := Pass(w, id, bodies);
    var i, s := w.cursors[id].index, w.list.slots;
    if Ended(w, id) {
      RestrictNone(s[i..], keep);
    } else {
      var u := Turn(w, id, bodies[0]);
      TurnKeeps(w, id, bodies[0]);
      assert vs[1..] == Pass(u, id, bodies[1..]).1 && v == Pass(u, id, bodies[1..]).0;
      RunKeepsWalk(w, bodies[0], id);
      RunSpares(w, bodies[0], id, keep);
      KeptHolds(s, u.list.slots, keep);
      assert forall k :: 0 <= k < |vs[1..]| && k < |bodies[1..]| ==> bodies[1..][k] == bodies[k + 1];
      PassNotifiesKept(u, id, bodies[1..], keep);
      RestrictTurn(s, u.list.slots, keep, i, u.cursors[id].index);
    }
  }

  lemma RestrictTurn(s: seq<Slot>, t: seq<Slot>, keep: set<Observer>, i: nat, j: nat)
    requires Kept(s, t, keep) && i < |s| && i < j <= |t| && s[i].Held?
    requires forall k :: i < k < j ==> t[k].Null?
    ensures (if s[i].obs in keep then [s[i].obs] else []) + Restrict(Live(t[j..]), keep) ==
            Restrict(Live(s[i..]), keep)
  {
    RestrictKept(s, t, keep, i + 1);
    LiveSkipsNulls(t, i + 1, j);
    RestrictHead(s, i, keep);
  }

  lemma RestrictHead(s: seq<Slot>, i: nat, keep: set<Observer>)
    requires i < |s| && s[i].Held?
    ensures Restrict(Live(s[i..]), keep) ==
            (if s[i].obs in keep then [s[i].obs] else []) + Restrict(Live(s[i + 1..]), keep)
  {
    assert s[i..][1..] == s[i + 1..];
    assert ([s[i].obs] + Live(s[i + 1..]))[1..] == Live(s[i + 1..]);
  }

  /** Every observer registered when a pass begins and never unregistered
      during it is notified exactly once and in registration order, whatever
      else the callbacks add, remove or walk. */
  lemma PassNotifiesInOrder(w: World, id: nat, bodies: seq<seq<Event>>, keep: set<Observer>)
    requires Valid(w) && w.World? && id !in w.cursors
    requires PassLegal(Step(w, BeginE(id)), id, bodies)
    requires var (v, vs) := Pass(Step(w, BeginE(id)), id, bodies);
      v.World? && Ended(v, id) && forall k :: 0 <= k < |vs| && k < |bodies| ==> Spares(bodies[k], keep)
    requires forall o :: o in keep ==> o in Registered(w)
    ensures Restrict(Notified(Pass(Step(w, BeginE(id)), id, bodies).1), keep) == Restrict(Registered(w), keep)
  {
    var b := Step(w, BeginE(id));
    StepKeepsValid(w, BeginE(id));
    var s := w.list.slots;
    if s != [] {
      forall o | o in keep ensures Held(o) in s { LiveMembers(s, o); }
      PassNotifiesKept(b, id, bodies, keep);
      BeginSkipsNulls(w, id);
    }
  }

  lemma BeginSkipsNulls(w: World, id: nat)
    requires w.World? && id !in w.cursors && w.list.slots != []
    ensures var i := Step(w, BeginE(id)).cursors[id].index;
      i <= |w.list.slots| && Live(w.list.slots[i..]) == Live(w.list.slots) &&
      forall k :: 0 <= k < i ==> w.list.slots[k].Null?
  {
    var s := w.list.slots;
    var i := Step(w, BeginE(id)).cursors[id].index;
    LiveSkipsNulls(s, 0, i);
    assert s[0..] == s;
  }

  /** Under NOTIFY_ALL a pass ends having notified every observer registered at
      its end, late comers included; under NOTIFY_EXISTING_ONLY exactly those
      whose registration is among the slots present at its start. */
  lemma PassReachesTheRegistered(w: World, id: nat, bodies: seq<seq<Event>>)
    requires Valid(w) && w.World? && id !in w.cursors
    requires w.list.slots != [] && PassLegal(Step(w, BeginE(id)), id, bodies)
    requires var v := Pass(Step(w, BeginE(id)), id, bodies).0; v.World? && Ended(v, id)
    ensures var (v, vs) := Pass(Step(w, BeginE(id)), id, bodies);
      && |w.list.slots| <= |v.list.slots|
      && Survivors(vs, v.list.slots) ==
           (if w.list.kind == NotifyAll then Registered(v) else Live(v.list.slots[..|w.list.slots|]))
  {
    var b := Step(w, BeginE(id));
    StepKeepsValid(w, BeginE(id));
    BeginSkipsNulls(w, id);
    PassKeeps(b, id, bodies);
    PassCoversSurvivors(b, id, bodies);
    var t := Pass(b, id, bodies).0.list.slots;
    var i, n := b.cursors[id].index, Pass(b, id, bodies).0.cursors[id].index;
    LiveSkipsNulls(t[..n], 0, i);
    assert t[..n][0..] == t[..n] && t[..n][i..] == t[i..n];
    assert t[..|t|] == t;
  }

  /** Each registration is visited at most once: slots are visited upwards. */
  lemma VisitsIncrease(w: World, id: nat, bodies: seq<seq<Event>>)
    requires Valid(w) && Walking(w, id) && Positioned(w, id) && PassLegal(w, id, bodies)
    ensures var vs := Pass(w, id, bodies).1;
      && (forall a :: 0 <= a < |vs| ==> w.cursors[id].index <= vs[a].pos)
      && (forall a, b :: 0 <= a < b < |vs| ==> vs[a].pos < vs[b].pos)
    decreases |bodies|
  {
    if !Ended(w, id) && bodies != [] {
      var u := Turn(w, id, bodies[0]);
      TurnKeeps(w, id, bodies[0]);
      if u.World? { VisitsIncrease(u, id, bodies[1..]); }
    }
  }

  /** Under NOTIFY_EXISTING_ONLY a pass visits only registrations that existed
      when it began, and as many callbacks as there were slots always end it. */
  lemma ExistingOnlyIsBounded(w: World, id: nat, bodies: seq<seq<Event>>)
    requires Valid(w) && Walking(w, id) && Positioned(w, id) && PassLegal(w, id, bodies)
    requires w.cursors[id].limit.UpTo?
    ensures var (v, vs) := Pass(w, id, bodies);
      var n := w.cursors[id].limit.n;
      && n <= |w.list.slots|
      && (forall a :: 0 <= a < |vs| ==> vs[a].pos < n && w.list.slots[vs[a].pos] == Held(vs[a].obs))
      && |vs| <= n - w.cursors[id].index
      && (|bodies| >= n - w.cursors[id].index ==> Ended(v, id))
    decreases |bodies|
  {
    if !Ended(w, id) && bodies != [] {
      var u := Turn(w, id, bodies[0]);
      TurnKeeps(w, id, bodies[0]);
      if u.World? { ExistingOnlyIsBounded(u, id, bodies[1..]); }
    }
  }

  lemma RunStaysAbsent(w: World, es: seq<Event>, o: Observer)
    requires Valid(w) && LegalRun(w, es)
    requires o !in Registered(w) && AddE(o) !in es
    ensures o !in Registered(Run(w, es))
    decreases |es|
  {
    if es != [] {
      assert es[0] in es;
      TombstonesRefinePlainList(w, es[0]);
      if es[0].RemoveE? && w.World? { EraseOnlyDrops(Registered(w), es[0].o); }
      StepKeepsValid(w, es[0]);
      RunStaysAbsent(Step(w, es[0]), es[1..], o);
    }
  }

  lemma {:induction false} EraseOnlyDrops(r: seq<Observer>, o: Observer)
    ensures forall x :: x in Erase(r, o) ==> x in r
  {
    if r != [] && r[0] != o { EraseOnlyDrops(r[1..], o); }
  }

  /** From any point of a pass on, an observer that is not registered there and
      is not added again is never notified. */
  lemma UnregisteredIsNotNotified(w: World, id: nat, bodies: seq<seq<Event>>, o: Observer)
    requires Valid(w) && Walking(w, id) && Positioned(w, id) && PassLegal(w, id, bodies)
    requires o !in Registered(w) && forall b :: b in bodies ==> AddE(o) !in b
    ensures o !in Notified(Pass(w, id, bodies).1)
    decreases |bodies|
  {
    if !Ended(w, id) && bodies != [] {
      var u := Turn(w, id, bodies[0]);
      TurnKeeps(w, id, bodies[0]);
      LiveMembers(w.list.slots, w.list.slots[w.cursors[id].index].obs);
      assert bodies[0] in bodies && forall b :: b in bodies[1..] ==> b in bodies;
      RunKeepsWalk(w, bodies[0], id);
      RunStaysAbsent(w, bodies[0], o);
      if u.World? { UnregisteredIsNotNotified(u, id, bodies[1..], o); }
    }
  }

  /** A pass can be cut after any number of callbacks. */
  lemma {:induction false} PassSplits(w: World, id: nat, first: seq<seq<Event>>, rest: seq<seq<Event>>)
    requires PassLegal(w, id, first + rest) && |first| <= |Pass(w, id, first + rest).1|
    ensures PassLegal(w, id, first) && |Pass(w, id, first).1| == |first|
    ensures PassLegal(Pass(w, id, first).0, id, rest)
    ensures var v := Pass(w, id, first).0;
      Pass(w, id, first + rest) == (Pass(v, id, rest).0, Pass(w, id, first).1 + Pass(v, id, rest).1)
    decreases |first|
  {
    if first == [] {
      assert first + rest == rest;
      assert [] + Pass(w, id, rest).1 == Pass(w, id, rest).1;
    } else {
      assert (first + rest)[0] == first[0] && (first + rest)[1..] == first[1..] + rest;
      var u := Turn(w, id, first[0]);
      PassSplits(u, id, first[1..], rest);
      var (v, vs) := Pass(u, id, first[1..]);
      assert [Here(w, id)] + (vs + Pass(v, id, rest).1) == ([Here(w, id)] + vs) + Pass(v, id, rest).1;
    }
  }

  /** An observer removed before its turn is skipped: if it is not registered
      after the first callbacks and not added later, no later visit is to it. */
  lemma RemovedBeforeItsTurn(w: World, id: nat, first: seq<seq<Event>>, rest: seq<seq<Event>>, o: Observer)
    requires Valid(w) && Walking(w, id) && Positioned(w, id) && PassLegal(w, id, first + rest)
    requires |first| <= |Pass(w, id, first + rest).1|
    requires PassLegal(w, id, first) && o !in Registered(Pass(w, id, first).0)
    requires forall b :: b in rest ==> AddE(o) !in b
    ensures o !in Notified(Pass(w, id, first + rest).1[|first|..])
  {
    PassSplits(w, id, first, rest);
    PassKeeps(w, id, first);
    var v := Pass(w, id, first).0;
    if v.World? { UnregisteredIsNotNotified(v, id, rest, o); }
  }
}
