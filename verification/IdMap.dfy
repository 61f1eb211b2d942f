/** Models base/id_map.h: a table of values by id, whose iterators survive
    removal because removal is put off while one of them lives. */
module IdMaps {

  type Id = int
  type Value = nat  // an object's identity

  const INT32_MAX: int := 0x7fff_ffff

  /** The table with the order in which it is walked, and what is to be removed. */
  datatype MapState = MapState(
    order: seq<Id>,
    data: map<Id, Value>,
    removed: set<Id>,    // removed_ids_
    depth: nat,          // iteration_depth_
    nextId: Id)

  function Empty(): MapState {
    MapState([], map[], {}, 0, 1)
  }

  /** data_[id] = value: an occupied slot is overwritten; an insertion may
      rearrange the table, so its new order is given. */
  function Inserted(s: MapState, id: Id, value: Value, order: seq<Id>): MapState {
    s.(order := order, data := s.data[id := value])
  }

  function Erase(order: seq<Id>, id: Id): seq<Id> {
    if order == [] then [] else (if order[0] == id then [] else [order[0]]) + Erase(order[1..], id)
  }

  function Remove(s: MapState, id: Id): MapState {
    if id !in s.data then s
    else if s.depth > 0 then s.(removed := s.removed + {id})
    else s.(order := Erase(s.order, id), data := s.data - {id})
  }

  function Replace(s: MapState, id: Id, value: Value): MapState
    requires id in s.data
  {
    s.(data := s.data[id := value])
  }

  function Clear(s: MapState): MapState {
    if s.depth > 0 then s.(removed := s.removed + s.data.Keys) else s.(order := [], data := map[])
  }

  /** The ids of order that are not in gone. */
  function Without(order: seq<Id>, gone: set<Id>): seq<Id> {
    if order == [] then [] else (if order[0] in gone then [] else [order[0]]) + Without(order[1..], gone)
  }

  function Compact(s: MapState): MapState {
    s.(order := Without(s.order, s.removed), data := s.data - s.removed, removed := {})
  }

  /** ~Iterator */
  function Drop(s: MapState): MapState
    requires s.depth > 0
  {
    var fewer := s.(depth := s.depth - 1);
    if fewer.depth == 0 then Compact(fewer) else fewer
  }

  /** SkipRemovedEntries */
  function Skip(s: MapState, k: nat): (j: nat)
    requires k <= |s.order|
    ensures k <= j <= |s.order| && (j < |s.order| ==> s.order[j] !in s.removed)
    ensures forall i :: k <= i < j ==> s.order[i] in s.removed
    decreases |s.order| - k
  {
    if k == |s.order| || s.order[k] !in s.removed then k else Skip(s, k + 1)
  }

  /** size() */
  function SizeOf(s: MapState): int {
    |s.data| - |s.removed|
  }

  /** How the table may be walked after data_[id] = value. */
  ghost predicate MayWalk(s: MapState, id: Id, value: Value, order: seq<Id>) {
    Lists(order, s.data[id := value]) && (id in s.data ==> order == s.order)
  }

  /** The table lists each stored id once. */
  ghost predicate Lists(order: seq<Id>, data: map<Id, Value>) {
    && (forall i, j :: 0 <= i < j < |order| ==> order[i] != order[j])
    && (forall id :: id in order <==> id in data)
  }

  lemma {:induction false} WithoutMembers(order: seq<Id>, gone: set<Id>, id: Id)
    ensures id in Without(order, gone) <==> id in order && id !in gone
  {
    if order != [] {
      WithoutMembers(order[1..], gone, id);
      assert order == [order[0]] + order[1..];
    }
  }

  lemma {:induction false} EraseIsWithout(order: seq<Id>, id: Id)
    ensures Erase(order, id) == Without(order, {id})
  {
    if order != [] { EraseIsWithout(order[1..], id); }
  }

  lemma {:induction false} WithoutTwice(order: seq<Id>, a: set<Id>, b: set<Id>)
    ensures Without(Without(order, a), b) == Without(order, a + b)
  {
    if order != [] {
      WithoutTwice(order[1..], a, b);
      var rest := Without(order[1..], a);
      assert ([order[0]] + rest)[1..] == rest && [] + rest == rest;
    }
  }

  lemma {:induction false} WithoutNothing(order: seq<Id>)
    ensures Without(order, {}) == order
  {
    if order != [] { WithoutNothing(order[1..]); }
  }

  class IdMap {
    var order: seq<Id>
    var data: map<Id, Value>
    var removedIds: set<Id>
    var iterationDepth: nat
    var nextId: Id

    function State(): MapState
      reads this
    {
      MapState(order, data, removedIds, iterationDepth, nextId)
    }

    constructor ()
      ensures State() == Empty()
    {
      order, data, removedIds, iterationDepth, nextId := [], map[], {}, 0, 1;
    }

    /** AddInternal; newOrder is how the table is then walked.  If a caller has
        chosen the next id for itself, its entry is overwritten. */
    method Add(value: Value, newOrder: seq<Id>) returns (id: Id)
      requires nextId < INT32_MAX && MayWalk(State(), nextId, value, newOrder)
      modifies this
      ensures State() == Inserted(old(State()), id, value, newOrder).(nextId := id + 1) && id == old(nextId)
    {
      id := nextId;
      data, order := data[id := value], newOrder;
      nextId := nextId + 1;
    }

    method AddWithID(value: Value, id: Id, newOrder: seq<Id>)
      requires MayWalk(State(), id, value, newOrder)
      modifies this
      ensures State() == Inserted(old(State()), id, value, newOrder)
    {
      data, order := data[id := value], newOrder;
    }

    method RemoveId(id: Id)
      modifies this
      ensures State() == Remove(old(State()), id)
    {
      if id !in data {
        return;
      }
      if iterationDepth == 0 {
        order, data := Erase(order, id), data - {id};
      } else {
        removedIds := removedIds + {id};
      }
    }

    method ReplaceValue(id: Id, newData: Value) returns (oldData: Value)
      requires id in data
      modifies this
      ensures State() == Replace(old(State()), id, newData) && oldData == old(data)[id]
    {
      oldData := data[id];
      data := data[id := newData];
    }

    method ClearAll()
      modifies this
      ensures Lists(old(order), old(data)) ==> State() == Clear(old(State()))
    {
      if iterationDepth == 0 {
        order, data := [], map[];
      } else {
        var i := 0;
        while i < |order|
          invariant i <= |order|
          invariant removedIds == old(removedIds) + set id | id in order[..i]
          invariant State() == old(State()).(removed := removedIds)
        {
          removedIds := removedIds + {order[i]};
          assert order[..i + 1] == order[..i] + [order[i]];
          i := i + 1;
        }
        assert order[..i] == order;
        assert Lists(order, data) ==> (set id | id in order) == data.Keys;
      }
    }

    /** Removes the put-off ids one by one. */
    method CompactTable()
      requires iterationDepth == 0 && forall id :: id in removedIds ==> id in data
      modifies this
      ensures State() == Compact(old(State()))
    {
      var todo := removedIds;
      ghost var done: set<Id> := {};
      WithoutNothing(order);
      while exists id :: id in todo
        invariant todo + done == old(removedIds) && todo * done == {}
        invariant State() == old(State()).(order := Without(old(order), done), data := old(data) - done)
        decreases todo
      {
        var id :| id in todo;
        EraseIsWithout(order, id);
        WithoutTwice(old(order), done, {id});
        RemoveId(id);
        todo, done := todo - {id}, done + {id};
      }
      assert todo == {} && done == old(removedIds);
      removedIds := {};
    }

    function Size(): (n: int)
      reads this
      ensures n == SizeOf(State())
    {
      |data| - |removedIds|
    }
  }

  class Iterator {
    const table: IdMap
    var k: nat   // iter_

    constructor (m: IdMap)
      modifies m`iterationDepth
      ensures table == m && m.State() == old(m.State()).(depth := old(m.iterationDepth) + 1)
      ensures k == Skip(m.State(), 0)
    {
      table := m;
      k := 0;
      new;
      m.iterationDepth := m.iterationDepth + 1;
      SkipRemovedEntries();
    }

    constructor Copy(other: Iterator)
      requires other.k <= |other.table.order|
      modifies other.table`iterationDepth
      ensures table == other.table
      ensures table.State() == old(other.table.State()).(depth := old(other.table.iterationDepth) + 1)
      ensures k == Skip(table.State(), other.k)
    {
      table := other.table;
      k := other.k;
      new;
      table.iterationDepth := table.iterationDepth + 1;
      SkipRemovedEntries();
    }

    method SkipRemovedEntries()
      requires k <= |table.order|
      modifies this`k
      ensures k == Skip(table.State(), old(k))
    {
      while k < |table.order| && table.order[k] in table.removedIds
        invariant k <= |table.order| && Skip(table.State(), k) == Skip(table.State(), old(k))
      {
        k := k + 1;
      }
    }

    predicate IsAtEnd()
      reads this, table
    {
      k == |table.order|
    }

    method Advance()
      requires k < |table.order|
      modifies this`k
      ensures k == Skip(table.State(), old(k) + 1)
    {
      k := k + 1;
      SkipRemovedEntries();
    }

    /** ~Iterator */
    method Destroy()
      requires table.iterationDepth > 0 && forall id :: id in table.removedIds ==> id in table.data
      modifies table
      ensures table.State() == Drop(old(table.State()))
    {
      table.iterationDepth := table.iterationDepth - 1;
      if table.iterationDepth == 0 {
        table.CompactTable();
      }
    }
  }
}
