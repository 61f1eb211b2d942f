/** Models base::CallbackList: a linked list of callbacks whose subscriptions can
    end while it is being walked. */
module CallbackLists {
  import opened Options

  /** A list node: which subscription it is, and whether the callback is still
      there or was reset. */
  datatype Node = Node(id: nat, live: bool)

  /** Where a std::list iterator is.  An iterator at end() stays there when
      nodes are added. */
  datatype Cursor = At(k: nat) | End

  datatype ListState = ListState(
    nodes: seq<Node>,
    active: nat,        // active_iterator_count_
    nextId: nat,        // the next subscription's identity
    removal: bool,      // removal_callback_ is set
    removalRuns: nat)   // how often it has run

  function Start(s: seq<Node>, k: nat): Cursor {
    if k < |s| then At(k) else End
  }

  predicate Fits(s: seq<Node>, c: Cursor) {
    c.At? ==> c.k < |s|
  }

  function RunRemoval(l: ListState): ListState {
    if l.removal then l.(removalRuns := l.removalRuns + 1) else l
  }

  function Added(l: ListState): ListState {
    l.(nodes := l.nodes + [Node(l.nextId, true)], nextId := l.nextId + 1)
  }

  /** The position of a subscription's node, or the length. */
  function IndexOf(s: seq<Node>, id: nat): (i: nat)
    ensures i <= |s| && (i < |s| ==> s[i].id == id) && forall j :: 0 <= j < i ==> s[j].id != id
  {
    if s == [] || s[0].id == id then 0 else 1 + IndexOf(s[1..], id)
  }

  predicate Subscribed(l: ListState, id: nat) {
    var i := IndexOf(l.nodes, id);
    i < |l.nodes| && l.nodes[i].live
  }

  /** ~Subscription */
  function Unsubscribed(l: ListState, id: nat): ListState
    requires Subscribed(l, id)
  {
    var i := IndexOf(l.nodes, id);
    if l.active > 0 then l.(nodes := l.nodes[i := Node(id, false)])
    else RunRemoval(l.(nodes := l.nodes[..i] + l.nodes[i + 1..]))
  }

  function Compacted(s: seq<Node>): seq<Node> {
    if s == [] then [] else (if s[0].live then [s[0]] else []) + Compacted(s[1..])
  }

  predicate AllLive(s: seq<Node>) {
    forall i :: 0 <= i < |s| ==> s[i].live
  }

  function CompactList(l: ListState): ListState {
    var kept := l.(nodes := Compacted(l.nodes));
    if AllLive(l.nodes) then kept else RunRemoval(kept)
  }

  /** ~Iterator */
  function Drop(l: ListState): ListState
    requires l.active > 0
  {
    var fewer := l.(active := l.active - 1);
    if fewer.active == 0 then CompactList(fewer) else fewer
  }

  /** The first live node from k on. */
  function SkipDead(s: seq<Node>, k: nat): (j: nat)
    requires k <= |s|
    ensures k <= j <= |s| && (j < |s| ==> s[j].live) && forall i :: k <= i < j ==> !s[i].live
    decreases |s| - k
  {
    if k == |s| || s[k].live then k else SkipDead(s, k + 1)
  }

  /** GetNext: the subscription to run, if any, and where the iterator then is. */
  function Next(s: seq<Node>, c: Cursor): (Option<nat>, Cursor)
    requires Fits(s, c)
  {
    if c.End? then (None, End)
    else
      var j := SkipDead(s, c.k);
      if j == |s| then (None, End) else (Some(s[j].id), Start(s, j + 1))
  }

  class CallbackList {
    var callbacks: seq<Node>
    var activeIteratorCount: nat
    var nextId: nat
    var removal: bool
    var removalRuns: nat

    function State(): ListState
      reads this
    {
      ListState(callbacks, activeIteratorCount, nextId, removal, removalRuns)
    }

    constructor ()
      ensures State() == ListState([], 0, 0, false, 0)
    {
      callbacks, activeIteratorCount, nextId, removal, removalRuns := [], 0, 0, false, 0;
    }

    method SetRemovalCallback(present: bool)
      modifies this`removal
      ensures State() == old(State()).(removal := present)
    {
      removal := present;
    }

    method RunRemovalCallback()
      modifies this`removalRuns
      ensures State() == RunRemoval(old(State()))
    {
      if removal {
        removalRuns := removalRuns + 1;
      }
    }

    method Add() returns (id: nat)
      modifies this`callbacks, this`nextId
      ensures State() == Added(old(State())) && id == old(nextId)
    {
      id := nextId;
      callbacks := callbacks + [Node(nextId, true)];
      nextId := nextId + 1;
    }

    method Unsubscribe(id: nat)
      requires Subscribed(State(), id)
      modifies this
      ensures State() == Unsubscribed(old(State()), id)
    {
      var i := IndexOf(callbacks, id);
      if activeIteratorCount > 0 {
        callbacks := callbacks[i := Node(id, false)];
      } else {
        callbacks := callbacks[..i] + callbacks[i + 1..];
        RunRemovalCallback();
      }
    }

    method Compact()
      modifies this
      ensures State() == CompactList(old(State()))
    {
      ghost var was, n, kept: seq<Node> := callbacks, 0, [];
      var it, updated := 0, false;
      assert was[0..] == was && [] + was == was && [] + Compacted(was) == Compacted(was);
      while it < |callbacks|
        invariant n <= |was| && it == |kept| && callbacks == kept + was[n..]
        invariant kept + Compacted(was[n..]) == Compacted(was)
        invariant updated <==> !AllLive(was[..n])
        invariant State() == old(State()).(nodes := callbacks)
        decreases |was| - n
      {
        StepsOver(kept, was, n);
        CompactsFirst(kept, was, n);
        if !callbacks[it].live {
          updated := true;
          callbacks := callbacks[..it] + callbacks[it + 1..];
        } else {
          kept := kept + [callbacks[it]];
          it := it + 1;
        }
        n := n + 1;
      }
      assert was[n..] == [] && was[..n] == was;
      assert kept + [] == kept && callbacks == kept;
      if updated {
        RunRemovalCallback();
      }
    }
  }

  lemma StepsOver(kept: seq<Node>, was: seq<Node>, n: nat)
    requires n < |was|
    ensures var s := kept + was[n..]; var it := |kept|;
      && s[it] == was[n]
      && s[..it] + s[it + 1..] == kept + was[n + 1..]
      && s == (kept + [was[n]]) + was[n + 1..]
    ensures AllLive(was[..n + 1]) <==> AllLive(was[..n]) && was[n].live
  {
    assert was[n..] == [was[n]] + was[n + 1..];
    assert was[..n + 1] == was[..n] + [was[n]];
  }

  lemma CompactsFirst(kept: seq<Node>, was: seq<Node>, n: nat)
    requires n < |was|
    ensures kept + Compacted(was[n..]) == (if was[n].live then kept + [was[n]] else kept) + Compacted(was[n + 1..])
  {
    var rest := Compacted(was[n + 1..]);
    assert was[n..][0] == was[n] && was[n..][1..] == was[n + 1..];
    assert kept + ([was[n]] + rest) == (kept + [was[n]]) + rest;
    assert [] + rest == rest;
  }

  class Iterator {
    const list: CallbackList
    var cursor: Cursor

    /** Iterator(list) */
    constructor (l: CallbackList)
      modifies l`activeIteratorCount
      ensures list == l && cursor == Start(l.callbacks, 0)
      ensures l.State() == old(l.State()).(active := old(l.activeIteratorCount) + 1)
    {
      list := l;
      cursor := Start(l.callbacks, 0);
      new;
      l.activeIteratorCount := l.activeIteratorCount + 1;
    }

    /** Iterator(const Iterator&) */
    constructor Copy(other: Iterator)
      modifies other.list`activeIteratorCount
      ensures list == other.list && cursor == other.cursor
      ensures list.State() == old(other.list.State()).(active := old(other.list.activeIteratorCount) + 1)
    {
      list := other.list;
      cursor := other.cursor;
      new;
      list.activeIteratorCount := list.activeIteratorCount + 1;
    }

    method GetNext() returns (id: Option<nat>)
      requires Fits(list.callbacks, cursor)
      modifies this`cursor
      ensures (id, cursor) == Next(list.callbacks, old(cursor))
    {
      var s := list.callbacks;
      while cursor.At? && !s[cursor.k].live
        invariant Fits(s, cursor)
        invariant Next(s, cursor) == Next(s, old(cursor))
        decreases if cursor.At? then |s| - cursor.k else 0
      {
        cursor := Start(s, cursor.k + 1);
      }
      if cursor.End? {
        return None;
      }
      id := Some(s[cursor.k].id);
      cursor := Start(s, cursor.k + 1);
    }

    /** ~Iterator */
    method Destroy()
      requires list.activeIteratorCount > 0
      modifies list
      ensures list.State() == Drop(old(list.State()))
    {
      list.activeIteratorCount := list.activeIteratorCount - 1;
      if list.activeIteratorCount == 0 {
        list.Compact();
      }
    }
  }
}
