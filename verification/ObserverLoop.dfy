/** The loop for (auto& observer : list) over the objects themselves. */
module ObserverLoop {
  import opened ObserverLists
  import opened ObserverPasses

  /** What a callback does to the list, other than walking it. */
  predicate IsPlain(e: Event) {
    e.AddE? || e.RemoveE? || e.ClearE? || e.DestroyE?
  }

  predicate ArePlain(bodies: seq<seq<Event>>) {
    forall k :: 0 <= k < |bodies| ==> forall i :: 0 <= i < |bodies[k]| ==> IsPlain(bodies[k][i])
  }

  /** The world with one iterator, named 0. */
  function Walked(l: ListState): World {
    var (m, c) := Begin(l);
    World(m, map[0 := c])
  }

  /** The list object is as w says, with its iterator at this cursor. */
  ghost predicate Mirrors(w: World, l: ObserverList, c: Cursor)
    reads l
  {
    if w.Gone? then !l.alive else l.alive && w.list == l.State() && w.cursors == map[0 := c]
  }

  /** One callback. */
  method Callback(l: ObserverList, body: seq<Event>, ghost w: World, ghost c: Cursor)
    requires Mirrors(w, l, c) && LegalRun(w, body) && forall i :: 0 <= i < |body| ==> IsPlain(body[i])
    modifies l
    ensures Mirrors(Run(w, body), l, c)
  {
    ghost var v := w;
    var i := 0;
    while i < |body|
      invariant i <= |body| && Mirrors(v, l, c)
      invariant LegalRun(v, body[i..]) && Run(v, body[i..]) == Run(w, body)
    {
      assert body[i..][0] == body[i] && body[i..][1..] == body[i + 1..];
      match body[i] {
        case AddE(o) => l.AddObserver(o);
        case RemoveE(o) => l.RemoveObserver(o);
        case ClearE => l.ClearAll();
        case DestroyE => l.Destroy();
        case _ =>
      }
      v := Step(v, body[i]);
      i := i + 1;
    }
    assert body[i..] == [];
  }

  /** What the loop keeps at its head. */
  ghost predicate AtHead(w: World) {
    Positioned(w, 0) && (w.World? ==> Legal(w, DropE(0)))
  }

  lemma {:induction false} PlainKeepsDepth(w: World, body: seq<Event>)
    requires LegalRun(w, body) && forall i :: 0 <= i < |body| ==> IsPlain(body[i])
    requires w.World?
    ensures var v := Run(w, body); v.World? ==> v.list.depth == w.list.depth && v.cursors == w.cursors
    decreases |body|
  {
    if body != [] {
      var v := Step(w, body[0]);
      if v.Gone? { GoneStays(body[1..]); } else { PlainKeepsDepth(v, body[1..]); }
    }
  }

  lemma NextIsHead(w: World, body: seq<Event>)
    requires AtHead(w) && !Ended(w, 0) && LegalRun(w, body) && forall i :: 0 <= i < |body| ==> IsPlain(body[i])
    requires Legal(Run(w, body), NextE(0))
    ensures AtHead(Step(Run(w, body), NextE(0)))
  {
    PlainKeepsDepth(w, body);
  }

  lemma StartIsHead(l: ListState)
    ensures AtHead(Walked(l))
  {
  }

  /** The loop at its head in world w, having visited some observers, will visit
      those of the pass from here, and end as it does. */
  ghost predicate Continues(w0: World, w: World, bodies: seq<seq<Event>>, k: nat, visits: seq<Visit>)
    requires PassLegal(w0, 0, bodies)
  {
    && k <= |bodies| && PassLegal(w, 0, bodies[k..])
    && Pass(w0, 0, bodies) == (Pass(w, 0, bodies[k..]).0, visits + Pass(w, 0, bodies[k..]).1)
  }

  lemma FirstTurn(w0: World, bodies: seq<seq<Event>>)
    requires PassLegal(w0, 0, bodies)
    ensures Continues(w0, w0, bodies, 0, []) && bodies[0..] == bodies
  {
    assert bodies[0..] == bodies;
    assert [] + Pass(w0, 0, bodies).1 == Pass(w0, 0, bodies).1;
  }

  lemma OneTurn(w0: World, w: World, bodies: seq<seq<Event>>, k: nat, visits: seq<Visit>)
    requires PassLegal(w0, 0, bodies) && Continues(w0, w, bodies, k, visits) && !Ended(w, 0)
    requires Ended(Pass(w0, 0, bodies).0, 0)
    ensures k < |bodies| && LegalRun(w, bodies[k]) && Legal(Run(w, bodies[k]), NextE(0))
    ensures Continues(w0, Step(Run(w, bodies[k]), NextE(0)), bodies, k + 1, visits + [Here(w, 0)])
  {
    assert bodies[k..] != [];
    assert bodies[k..][0] == bodies[k] && bodies[k..][1..] == bodies[k + 1..];
    var rest := Pass(Step(Run(w, bodies[k]), NextE(0)), 0, bodies[k + 1..]).1;
    assert visits + ([Here(w, 0)] + rest) == (visits + [Here(w, 0)]) + rest;
  }

  /** operator*, the callback, operator++ */
  method TakeTurn(l: ObserverList, it: Iter, body: seq<Event>, ghost w: World) returns (visit: Visit)
    requires it.list == l && !it.IsEnd() && Mirrors(w, l, it.Where()) && AtHead(w) && !Ended(w, 0)
    requires LegalRun(w, body) && Legal(Run(w, body), NextE(0)) && forall i :: 0 <= i < |body| ==> IsPlain(body[i])
    modifies l, it
    ensures visit == Here(w, 0) && it.list == l
    ensures Mirrors(Step(Run(w, body), NextE(0)), l, it.Where()) && AtHead(Step(Run(w, body), NextE(0)))
  {
    NextIsHead(w, body);
    var slot := it.GetCurrent();
    visit := Visit(it.index, slot.obs);
    Callback(l, body, w, it.Where());
    it.Increment();
  }

  method Walk(l: ObserverList, it: Iter, bodies: seq<seq<Event>>, ghost w0: World)
    returns (visits: seq<Visit>, ghost w: World)
    requires it.list == null || it.list == l
    requires Mirrors(w0, l, it.Where()) && AtHead(w0) && (it.list == null ==> Ended(w0, 0))
    requires ArePlain(bodies) && PassLegal(w0, 0, bodies) && Ended(Pass(w0, 0, bodies).0, 0)
    modifies l, it
    ensures (w, visits) == Pass(w0, 0, bodies) && it.list == old(it.list)
    ensures Mirrors(w, l, it.Where()) && AtHead(w)
  {
    w := w0;
    visits := [];
    ghost var k := 0;
    var left := bodies;
    FirstTurn(w0, bodies);
    while !it.IsEnd()
      invariant it.list == old(it.list) && (it.list == null ==> Ended(w, 0))
      invariant Mirrors(w, l, it.Where()) && AtHead(w)
      invariant Continues(w0, w, bodies, k, visits) && left == bodies[k..]
      decreases |left|
    {
      OneTurn(w0, w, bodies, k, visits);
      assert left[0] == bodies[k];
      var visit := TakeTurn(l, it, left[0], w);
      visits := visits + [visit];
      w := Step(Run(w, bodies[k]), NextE(0));
      left := left[1..];
      k := k + 1;
    }
    assert visits + [] == visits;
  }

  /** With an iterator of its own, whatever other iterators there are, the loop
      visits exactly what the pass does, and leaves the list as it does, for as
      many callbacks as it makes; an iterator that outlives the list included. */
  method ForEach(l: ObserverList, bodies: seq<seq<Event>>) returns (visits: seq<Visit>)
    requires l.alive && ArePlain(bodies)
    requires PassLegal(Walked(l.State()), 0, bodies) && Ended(Pass(Walked(l.State()), 0, bodies).0, 0)
    modifies l
    ensures var (v, visited) := Pass(old(Walked(l.State())), 0, bodies);
      && visits == visited
      && (v.Gone? ==> !l.alive)
      && (v.World? ==> l.alive && Legal(v, DropE(0)) && l.State() == Step(v, DropE(0)).list)
  {
    ghost var w0 := Walked(l.State());
    StartIsHead(l.State());
    var it := new Iter(l);
    ghost var w;
    visits, w := Walk(l, it, bodies, w0);
    it.Destroy();
  }
}
