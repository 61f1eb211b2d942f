/** Models base::ObserverListBase: a vector of observers that may be changed
    while any number of iterators walk it.  Removed entries become null slots
    while an iterator is alive and are squeezed out when the last one dies. */
module ObserverLists {

  /** The identity of an observer object. */
  type Observer = nat

  datatype Slot = Null | Held(obs: Observer)

  datatype Kind = NotifyAll | NotifyExistingOnly

  /** An iterator's max_index_: the largest size_t, or the size at its birth. */
  datatype Limit = NoLimit | UpTo(n: nat)

  datatype ListState = ListState(slots: seq<Slot>, depth: nat, kind: Kind)

  /** Detached is the default-constructed iterator, which has no list. */
  datatype Cursor = Detached | At(index: nat, limit: Limit)

  // ---------------------------------------------------------------- operations

  function Clamp(limit: Limit, size: nat): nat {
    match limit
    case NoLimit => size
    case UpTo(n) => if n < size then n else size
  }

  /** The first index from i on that holds an observer, or max. */
  function Skip(s: seq<Slot>, i: nat, max: nat): (j: nat)
    requires i <= max <= |s|
    ensures i <= j <= max
    ensures j < max ==> s[j].Held?
    ensures forall k :: i <= k < j ==> s[k].Null?
    decreases max - i
  {
    if i < max && s[i].Null? then Skip(s, i + 1, max) else i
  }

  function FirstIndex(s: seq<Slot>, x: Slot): (i: nat)
    ensures i <= |s|
    ensures i < |s| ==> s[i] == x
    ensures x !in s[..i]
  {
    if s == [] || s[0] == x then 0 else 1 + FirstIndex(s[1..], x)
  }

  /** The slots without the null ones, in order. */
  function Compacted(s: seq<Slot>): seq<Slot> {
    if s == [] then [] else (if s[0].Null? then [] else [s[0]]) + Compacted(s[1..])
  }

  function Add(l: ListState, o: Observer): ListState {
    if Held(o) in l.slots then l else l.(slots := l.slots + [Held(o)])
  }

  function Remove(l: ListState, o: Observer): ListState {
    var i := FirstIndex(l.slots, Held(o));
    if i == |l.slots| then l
    else if l.depth > 0 then l.(slots := l.slots[i := Null])
    else l.(slots := l.slots[..i] + l.slots[i + 1..])
  }

  function Clear(l: ListState): ListState {
    if l.depth > 0 then l.(slots := seq(|l.slots|, _ => Null)) else l.(slots := [])
  }

  /** begin(): an empty list hands out a detached iterator. */
  function Begin(l: ListState): (ListState, Cursor) {
    if l.slots == [] then (l, Detached)
    else
      var limit := if l.kind == NotifyAll then NoLimit else UpTo(|l.slots|);
      (l.(depth := l.depth + 1), At(Skip(l.slots, 0, |l.slots|), limit))
  }

  predicate AtEnd(l: ListState, c: Cursor) {
    c.Detached? || c.index == Clamp(c.limit, |l.slots|)
  }

  /** A cursor on a list that has not lost slots since the cursor was placed. */
  predicate Fits(l: ListState, c: Cursor) {
    c.At? ==>
      && c.index <= Clamp(c.limit, |l.slots|)
      && (c.limit.UpTo? ==> c.limit.n <= |l.slots|)
  }

  function Next(l: ListState, c: Cursor): Cursor
    requires Fits(l, c) && !AtEnd(l, c)
  {
    c.(index := Skip(l.slots, c.index + 1, Clamp(c.limit, |l.slots|)))
  }

  /** The iterator's destructor. */
  function Drop(l: ListState, c: Cursor): ListState
    requires c.At? ==> l.depth > 0
  {
    if c.Detached? then l
    else if l.depth == 1 then l.(depth := 0, slots := Compacted(l.slots))
    else l.(depth := l.depth - 1)
  }

  // ------------------------------------------------------- the mutable objects

  class ObserverList {
    var observers: seq<Slot>
    var notifyDepth: nat
    const kind: Kind
    var alive: bool  // false once destroyed: weak pointers to this list read null

    function State(): ListState
      reads this
    {
      ListState(observers, notifyDepth, kind)
    }

    constructor (kind: Kind)
      ensures State() == ListState([], 0, kind) && alive
    {
      observers, notifyDepth, this.kind, alive := [], 0, kind, true;
    }

    method HasObserver(o: Observer) returns (found: bool)
      ensures found <==> Held(o) in observers
    {
      for i := 0 to |observers|
        invariant Held(o) !in observers[..i]
      {
        if observers[i] == Held(o) {
          return true;
        }
      }
      return false;
    }

    method AddObserver(o: Observer)
      modifies this`observers
      ensures State() == Add(old(State()), o)
    {
      var present := HasObserver(o);
      if present {
        return;
      }
      observers := observers + [Held(o)];
    }

    method RemoveObserver(o: Observer)
      modifies this`observers
      ensures State() == Remove(old(State()), o)
    {
      var i := 0;
      while i < |observers| && observers[i] != Held(o)
        invariant i <= |observers|
        invariant Held(o) !in observers[..i]
      {
        i := i + 1;
      }
      FirstIndexIs(observers, Held(o), i);
      if i < |observers| {
        if notifyDepth > 0 {
          observers := observers[i := Null];
        } else {
          observers := observers[..i] + observers[i + 1..];
        }
      }
    }

    method ClearAll()
      modifies this`observers
      ensures State() == Clear(old(State()))
    {
      if notifyDepth > 0 {
        var i := 0;
        while i < |observers|
          invariant i <= |observers| == |old(observers)|
          invariant forall k :: 0 <= k < i ==> observers[k].Null?
        {
          observers := observers[i := Null];
          i := i + 1;
        }
        assert observers == seq(|observers|, _ => Null);
      } else {
        observers := [];
      }
    }

    method Compact()
      modifies this`observers
      ensures observers == Compacted(old(observers))
    {
      ghost var was := observers;
      var kept: seq<Slot> := [];
      var i := 0;
      assert was[0..] == was && kept + Compacted(was) == Compacted(was);
      while i < |observers|
        invariant i <= |observers| && observers == was
        invariant kept + Compacted(was[i..]) == Compacted(was)
      {
        CompactedFrom(kept, was, i);
        if !observers[i].Null? {
          kept := kept + [observers[i]];
        }
        i := i + 1;
      }
      assert was[i..] == [] && Compacted(was[i..]) == [];
      assert kept + [] == kept;
      observers := kept;
    }

    method Destroy()
      modifies this`alive
      ensures !alive
    {
      alive := false;
    }
  }

  class Iter {
    var list: ObserverList?
    var index: nat
    var limit: Limit

    function Where(): Cursor
      reads this
    {
      if list == null then Detached else At(index, limit)
    }

    predicate Usable()
      reads this, list
    {
      list != null && list.alive ==> Fits(list.State(), Where())
    }

    /** begin() */
    constructor (l: ObserverList)
      requires l.alive
      modifies l`notifyDepth
      ensures (l.State(), Where()) == Begin(old(l.State()))
      ensures list == (if old(l.observers) == [] then null else l)
    {
      list := if |l.observers| == 0 then null else l;
      index := 0;
      limit := if l.kind == NotifyAll then NoLimit else UpTo(|l.observers|);
      new;
      if list != null {
        EnsureValidIndex();
        l.notifyDepth := l.notifyDepth + 1;
      }
    }

    method EnsureValidIndex()
      requires list != null ==> index <= Clamp(limit, |list.observers|)
      modifies this`index
      ensures list == null || !list.alive ==> index == old(index)
      ensures list != null && list.alive ==>
                index == Skip(list.observers, old(index), Clamp(limit, |list.observers|))
    {
      if list == null || !list.alive {
        return;
      }
      var max := Clamp(limit, |list.observers|);
      while index < max && list.observers[index].Null?
        invariant old(index) <= index <= max
        invariant Skip(list.observers, index, max) == Skip(list.observers, old(index), max)
      {
        index := index + 1;
      }
    }

    predicate IsEnd()
      reads this, list
    {
      list == null || !list.alive || AtEnd(list.State(), Where())
    }

    /** operator++ */
    method Increment()
      requires Usable() && (IsEnd() ==> list == null || !list.alive)
      modifies this`index
      ensures list != null && list.alive ==> Where() == Next(list.State(), old(Where()))
      ensures list == null || !list.alive ==> Where() == old(Where())
    {
      if list != null && list.alive {
        index := index + 1;
        EnsureValidIndex();
      }
    }

    /** operator* reads null when the slot was removed or the walk is over. */
    function GetCurrent(): Slot
      requires Usable()
      reads this, list
    {
      if list == null || !list.alive then Null
      else if index < Clamp(limit, |list.observers|) then list.observers[index] else Null
    }

    /** ~Iter() */
    method Destroy()
      requires list != null && list.alive ==> list.notifyDepth > 0
      modifies list
      ensures list != null && old(list.alive) ==> list.State() == Drop(old(list.State()), Where())
      ensures list != null ==> list.alive == old(list.alive)
      ensures list != null && !old(list.alive) ==> list.State() == old(list.State())
    {
      if list != null && list.alive {
        list.notifyDepth := list.notifyDepth - 1;
        if list.notifyDepth == 0 {
          list.Compact();
        }
      }
    }
  }

  lemma CompactedFrom(kept: seq<Slot>, s: seq<Slot>, i: nat)
    requires i < |s|
    ensures kept + Compacted(s[i..]) ==
            (if s[i].Null? then kept else kept + [s[i]]) + Compacted(s[i + 1..])
  {
    assert s[i..][1..] == s[i + 1..];
    assert kept + ([s[i]] + Compacted(s[i + 1..])) == (kept + [s[i]]) + Compacted(s[i + 1..]);
    assert [] + Compacted(s[i + 1..]) == Compacted(s[i + 1..]);
  }

  lemma FirstIndexIs(s: seq<Slot>, x: Slot, i: nat)
    requires i <= |s| && x !in s[..i] && (i < |s| ==> s[i] == x)
    ensures FirstIndex(s, x) == i
  {
    assert i > 0 ==> s[..i][0] == s[0];
    if s != [] && s[0] != x {
      assert s[1..][..i - 1] == s[..i][1..];
      FirstIndexIs(s[1..], x, i - 1);
    }
  }
}
