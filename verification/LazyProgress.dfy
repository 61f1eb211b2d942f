/** When a call of Pointer() can still return, and when its thread spins for
    good. */
module LazyProgress {
  import opened LazyInstances

  // ---------------------------------------------------------- who waits for whom

  /** A call at one of these places goes on to wait while its word is 1. */
  predicate Asks(f: Frame) {
    f.at == Loading || f.at == Swapping || f.at == Spinning
  }

  /** t's top call asks for a lazy that is being created. */
  predicate Waits(s: State, t: Thread) {
    Stack(s, t) != [] && Asks(Top(Stack(s, t))) && Word(s, Top(Stack(s, t)).l) == CREATING
  }

  /** And u is the thread that is creating it. */
  ghost predicate WaitsOn(s: State, t: Thread, u: Thread) {
    Waits(s, t) && exists i :: OwnsAt(s, u, i, Top(Stack(s, t)).l)
  }

  /** Each thread of the path waits on the next. */
  ghost predicate IsChain(s: State, p: seq<Thread>) {
    forall i :: 0 <= i < |p| - 1 ==> WaitsOn(s, p[i], p[i + 1])
  }

  ghost predicate Repeats(p: seq<Thread>) {
    p != [] && p[|p| - 1] in p[..|p| - 1]
  }

  /** The chain of waiting threads that begins at t runs into a cycle. */
  ghost predicate RunsIntoCycle(s: State, t: Thread) {
    exists p :: IsCycleFrom(s, t, p)
  }

  ghost predicate IsCycleFrom(s: State, t: Thread, p: seq<Thread>) {
    p != [] && p[0] == t && IsChain(s, p) && Repeats(p)
  }

  // ------------------------------------------------ a cycle is never left

  ghost predicate WaitsInside(s: State, c: set<Thread>, t: Thread) {
    exists u :: u in c && WaitsOn(s, t, u)
  }

  /** Each of these threads waits on one of them. */
  ghost predicate Stuck(s: State, c: set<Thread>) {
    forall t :: t in c ==> WaitsInside(s, c, t)
  }

  lemma CycleIsStuck(s: State, t: Thread, p: seq<Thread>)
    requires IsCycleFrom(s, t, p)
    ensures Stuck(s, set i | 0 <= i < |p| :: p[i]) && t in (set i | 0 <= i < |p| :: p[i])
  {
    var c := set i | 0 <= i < |p| :: p[i];
    forall v | v in c ensures WaitsInside(s, c, v) {
      var i :| 0 <= i < |p| && p[i] == v;
      if i < |p| - 1 {
        assert p[i + 1] in c && WaitsOn(s, v, p[i + 1]);
      } else {
        var j :| 0 <= j < |p| - 1 && p[j] == v;
        assert p[j + 1] in c && WaitsOn(s, v, p[j + 1]);
      }
    }
    assert p[0] in c;
  }

  /** The same call is still there, asking for the same lazy. */
  ghost predicate StillAsks(s: State, s': State, t: Thread) {
    && Stack(s, t) != [] && |Stack(s', t)| == |Stack(s, t)|
    && Stack(s', t)[..|Stack(s, t)| - 1] == Stack(s, t)[..|Stack(s, t)| - 1]
    && Top(Stack(s', t)).l == Top(Stack(s, t)).l && Asks(Top(Stack(s', t)))
  }

  lemma WaitingStep(s: State, e: Event, t: Thread)
    requires Waits(s, t) && Enabled(s, e)
    ensures e != Exit && StillAsks(s, Step(s, e), t)
  {
    assert t in s.stacks && s.stacks[t] != [];
  }

  /** The owner's frame lies below a call that asks, so it is Constructing, and
      the word that is waited for is still 1. */
  lemma OwnerStays(s: State, s': State, t: Thread, u: Thread)
    requires Inv(s) && Inv(s') && WaitsOn(s, t, u) && Waits(s, u)
    requires StillAsks(s, s', t) && StillAsks(s, s', u)
    ensures WaitsOn(s', t, u)
  {
    var l := Top(Stack(s, t)).l;
    var i :| OwnsAt(s, u, i, l);
    assert i < |Stack(s, u)| - 1;
    assert Stack(s', u)[i] == Stack(s', u)[..|Stack(s, u)| - 1][i] == Stack(s, u)[i];
    assert Knows(s', Stack(s', u)[i]) && Stack(s', u)[i].at == Constructing;
    assert OwnsAt(s', u, i, l);
  }

  lemma InsideWaits(s: State, c: set<Thread>, t: Thread) returns (u: Thread)
    requires Stuck(s, c) && t in c
    ensures u in c && WaitsOn(s, t, u) && Waits(s, t) && Waits(s, u)
  {
    assert WaitsInside(s, c, t);
    u :| u in c && WaitsOn(s, t, u);
    assert WaitsInside(s, c, u);
  }

  lemma StuckOne(s: State, e: Event, s': State, c: set<Thread>, t: Thread)
    requires Inv(s) && Enabled(s, e) && s' == Step(s, e) && Inv(s') && Stuck(s, c) && t in c
    ensures WaitsInside(s', c, t) && StillAsks(s, s', t)
  {
    var u := InsideWaits(s, c, t);
    WaitingStep(s, e, t);
    WaitingStep(s, e, u);
    OwnerStays(s, s', t, u);
  }

  lemma AsksOn(s: State, m: State, s': State, t: Thread)
    requires StillAsks(s, m, t) && StillAsks(m, s', t)
    ensures StillAsks(s, s', t)
  {
  }

  lemma StuckStep(s: State, e: Event, c: set<Thread>)
    requires Inv(s) && Enabled(s, e) && Stuck(s, c)
    ensures Stuck(Step(s, e), c)
  {
    StepKeepsInv(s, e);
    forall t | t in c ensures WaitsInside(Step(s, e), c, t) {
      StuckOne(s, e, Step(s, e), c, t);
    }
  }

  /** What every step keeps holds after every run. */
  lemma {:induction false} KeptOverRuns(p: State -> bool, s: State, es: seq<Event>, s': State)
    requires p(s) && Reaches(s, es, s')
    requires forall m, e :: p(m) && Enabled(m, e) ==> p(Step(m, e))
    ensures p(s')
    decreases |es|
  {
    if es != [] {
      assert Reaches(Step(s, es[0]), es[1..], s');
      KeptOverRuns(p, Step(s, es[0]), es[1..], s');
    }
  }

  ghost predicate StuckSince(s: State, c: set<Thread>, t: Thread, m: State) {
    Inv(m) && Stuck(m, c) && StillAsks(s, m, t)
  }

  lemma StuckNext(s: State, e: Event, c: set<Thread>, t: Thread) returns (m: State)
    requires Inv(s) && Enabled(s, e) && Stuck(s, c) && t in c
    ensures m == Step(s, e) && Inv(m) && Stuck(m, c) && StillAsks(s, m, t)
  {
    m := Step(s, e);
    StepKeepsInv(s, e);
    StuckOne(s, e, m, c, t);
    StuckStep(s, e, c);
  }

  lemma StuckSinceStep(s: State, c: set<Thread>, t: Thread, m: State, e: Event) returns (n: State)
    requires StuckSince(s, c, t, m) && Enabled(m, e) && t in c
    ensures n == Step(m, e) && StuckSince(s, c, t, n)
  {
    n := StuckNext(m, e, c, t);
    AsksOn(s, m, n, t);
  }

  /** Whatever the threads do, the calls of a stuck set never return. */
  lemma StuckForGood(s: State, es: seq<Event>, c: set<Thread>, t: Thread, s': State)
    requires Inv(s) && Reaches(s, es, s') && Stuck(s, c) && t in c
    ensures StillAsks(s, s', t)
  {
    var u := InsideWaits(s, c, t);
    var p := m => StuckSince(s, c, t, m);
    forall m, e | p(m) && Enabled(m, e) ensures p(Step(m, e)) {
      var n := StuckSinceStep(s, c, t, m, e);
    }
    KeptOverRuns(p, s, es, s');
    assert p(s');
  }

  // ---------------------------------------- without a cycle a call can return

  /** One step of t that changes only the place of its top frame, its word, or
      what nobody waits for. */
  ghost predicate TopMoved(s: State, s': State, t: Thread, below: seq<Frame>, f: Frame, at: Place) {
    && Stack(s', t) == below + [Frame(f.l, at)]
    && (forall u :: u != t ==> Stack(s', u) == Stack(s, u))
    && (forall m :: m != f.l ==> Word(s', m) == Word(s, m))
  }

  /** How far a frame is from returning, if it need not wait. */
  function Distance(f: Frame): nat {
    match f.at
    case Loading => 6
    case Swapping => 5
    case Spinning => 2
    case Constructing => 4
    case Storing => 3
    case Registering => 2
    case Returning => 1
  }

  lemma NextStep(s: State, t: Thread, below: seq<Frame>, f: Frame) returns (s': State, at: Place)
    requires Inv(s) && Stack(s, t) == below + [f] && f.at != Returning && !Waits(s, t)
    ensures Reaches(s, [Go(t)], s') && Inv(s') && TopMoved(s, s', t, below, f, at)
    ensures Distance(Frame(f.l, at)) < Distance(f) && !Waits(s', t)
    ensures Word(s', f.l) == Word(s, f.l) || Word(s', f.l) == Address(f.l) || Word(s', f.l) == CREATING
  {
    assert Top(Stack(s, t)) == f && Stack(s, t)[..|Stack(s, t)| - 1] == below;
    assert Knows(s, Stack(s, t)[|Stack(s, t)| - 1]);
    assert WordOk(s, f.l);
    s' := Goes(s, t, below, f);
    at := Top(Stack(s', t)).at;
    StepKeepsInv(s, Go(t));
  }

  /** The call on top has returned its instance; no other thread has moved, and
      no other word has changed. */
  ghost predicate TopReturned(s: State, s': State, t: Thread, below: seq<Frame>, l: Lazy) {
    && Stack(s', t) == below
    && (forall u :: u != t ==> Stack(s', u) == Stack(s, u))
    && Word(s', l) == Address(l)
    && (forall m :: m != l ==> Word(s', m) == Word(s, m))
    && s'.returned != [] && s'.returned[|s'.returned| - 1] == (t, l, Address(l))
  }

  lemma LastStep(s: State, t: Thread, below: seq<Frame>, f: Frame) returns (s': State)
    requires Inv(s) && Stack(s, t) == below + [f] && f.at == Returning
    ensures Reaches(s, [Go(t)], s') && Inv(s') && TopReturned(s, s', t, below, f.l)
  {
    assert Top(Stack(s, t)) == f && Stack(s, t)[..|Stack(s, t)| - 1] == below;
    assert Knows(s, Stack(s, t)[|Stack(s, t)| - 1]);
    s' := Goes(s, t, below, f);
    StepKeepsInv(s, Go(t));
  }

  lemma MovedThenReturned(s: State, m: State, s': State, t: Thread, below: seq<Frame>, f: Frame, at: Place)
    requires TopMoved(s, m, t, below, f, at) && TopReturned(m, s', t, below, f.l)
    ensures TopReturned(s, s', t, below, f.l)
  {
  }

  /** A thread that does not wait can finish its call by itself. */
  lemma {:induction false} TopFinishes(s: State, t: Thread, below: seq<Frame>, f: Frame)
    returns (es: seq<Event>, s': State)
    requires Inv(s) && Stack(s, t) == below + [f] && !Waits(s, t)
    ensures Reaches(s, es, s') && Inv(s') && TopReturned(s, s', t, below, f.l)
    decreases Distance(f)
  {
    if f.at == Returning {
      es := [Go(t)];
      s' := LastStep(s, t, below, f);
    } else {
      var m, at := NextStep(s, t, below, f);
      es, s' := TopFinishes(m, t, below, Frame(f.l, at));
      MovedThenReturned(s, m, s', t, below, f, at);
      ReachesOn(s, [Go(t)], m, es, s');
      es := [Go(t)] + es;
    }
  }

  /** The calls of u from height i on have returned. */
  ghost predicate PoppedTo(s: State, s': State, u: Thread, i: nat) {
    && i <= |Stack(s, u)| && Stack(s', u) == Stack(s, u)[..i]
    && (forall v :: v != u ==> Stack(s', v) == Stack(s, v))
    && (forall j :: i <= j < |Stack(s, u)| ==> Word(s', Stack(s, u)[j].l) == Address(Stack(s, u)[j].l))
  }

  lemma PoppedOneMore(s: State, m: State, s': State, u: Thread, i: nat, below: seq<Frame>, f: Frame)
    requires PoppedTo(s, m, u, i + 1) && Stack(m, u) == below + [f]
    requires TopReturned(m, s', u, below, f.l)
    ensures PoppedTo(s, s', u, i)
  {
    var st := Stack(s, u);
    assert |below| == i && st[..i + 1] == below + [f];
    assert st[i] == st[..i + 1][i] == f;
    assert below == st[..i + 1][..i] == st[..i];
    forall j | i <= j < |st| ensures Word(s', st[j].l) == Address(st[j].l) {
      if j > i { assert Word(m, st[j].l) == Address(st[j].l); }
    }
  }

  /** Below the top every frame is Constructing, so nothing waits there. */
  lemma LowerDoesNotWait(s: State, m: State, u: Thread, i: nat)
    requires Inv(s) && PoppedTo(s, m, u, i) && 0 < i < |Stack(s, u)|
    ensures !Waits(m, u)
  {
    assert Knows(s, Stack(s, u)[i - 1]) && Stack(s, u)[i - 1].at == Constructing;
    assert Top(Stack(m, u)) == Stack(s, u)[i - 1];
  }

  /** A thread that does not wait can let any number of its calls return. */
  lemma {:induction false} Releases(s: State, u: Thread, i: nat) returns (es: seq<Event>, s': State)
    requires Inv(s) && !Waits(s, u) && i <= |Stack(s, u)|
    ensures Reaches(s, es, s') && Inv(s') && PoppedTo(s, s', u, i)
    decreases |Stack(s, u)| - i
  {
    if i == |Stack(s, u)| {
      es, s' := [], s;
      assert Stack(s, u)[..i] == Stack(s, u);
    } else {
      var m := s;
      es := [];
      assert Stack(s, u)[..|Stack(s, u)|] == Stack(s, u);
      if i + 1 < |Stack(s, u)| {
        es, m := Releases(s, u, i + 1);
        LowerDoesNotWait(s, m, u, i + 1);
      }
      var below, f := Stack(m, u)[..i], Stack(m, u)[i];
      var more;
      more, s' := TopFinishes(m, u, below, f);
      PoppedOneMore(s, m, s', u, i, below, f);
      ReachesOn(s, es, m, more, s');
      es := es + more;
    }
  }

  ghost predicate Distinct(p: seq<Thread>) {
    forall i, j :: 0 <= i < j < |p| ==> p[i] != p[j]
  }

  /** A chain of waiting threads without repetition that ends in one that does
      not wait. */
  ghost predicate LeadsOut(s: State, t: Thread, p: seq<Thread>) {
    p != [] && p[0] == t && IsChain(s, p) && Distinct(p) && !Waits(s, p[|p| - 1])
  }

  lemma RestLeadsOut(s: State, t: Thread, p: seq<Thread>)
    requires LeadsOut(s, t, p) && |p| > 1
    ensures LeadsOut(s, p[1], p[1..]) && t !in p[1..] && WaitsOn(s, t, p[1]) && t != p[1]
  {
    var rest := p[1..];
    forall i | 0 <= i < |rest| - 1 ensures WaitsOn(s, rest[i], rest[i + 1]) {
      assert rest[i] == p[i + 1] && rest[i + 1] == p[i + 2];
    }
    assert WaitsOn(s, p[0], p[1]);
  }

  /** Once u has come out of the constructor that t waits for, t waits no more. */
  lemma OwnerLetsGo(s: State, m: State, t: Thread, u: Thread)
    returns (es: seq<Event>, s': State)
    requires WaitsOn(s, t, u) && t != u
    requires Inv(m) && Stack(m, t) == Stack(s, t) && Stack(m, u) == Stack(s, u) && !Waits(m, u)
    ensures Reaches(m, es, s') && Inv(s') && !Waits(s', t)
    ensures forall v :: v != u ==> Stack(s', v) == Stack(m, v)
  {
    var l := Top(Stack(s, t)).l;
    var i :| OwnsAt(s, u, i, l);
    es, s' := Releases(m, u, i);
    assert Stack(m, u)[i].l == l;
    assert Top(Stack(s', t)).l == l && Word(s', l) == Address(l);
  }

  /** The threads on the way out return from the constructors that are waited
      for, the last of them first. */
  lemma {:induction false} Unblocks(s: State, t: Thread, p: seq<Thread>)
    returns (es: seq<Event>, s': State)
    requires Inv(s) && LeadsOut(s, t, p)
    ensures Reaches(s, es, s') && Inv(s') && !Waits(s', t) && Stack(s', t) == Stack(s, t)
    ensures forall v :: v !in p ==> Stack(s', v) == Stack(s, v)
    decreases |p|
  {
    if |p| == 1 {
      es, s' := [], s;
    } else {
      RestLeadsOut(s, t, p);
      var first, m := Unblocks(s, p[1], p[1..]);
      var more;
      more, s' := OwnerLetsGo(s, m, t, p[1]);
      ReachesOn(s, first, m, more, s');
      es := first + more;
    }
  }

  lemma {:induction false} DistinctFits(p: seq<Thread>, c: set<Thread>)
    requires Distinct(p) && forall i :: 0 <= i < |p| ==> p[i] in c
    ensures |p| <= |c|
    decreases |p|
  {
    if p != [] {
      var last := p[|p| - 1];
      DistinctFits(p[..|p| - 1], c - {last});
    }
  }

  lemma AnOwner(s: State, t: Thread) returns (u: Thread)
    requires Inv(s) && Waits(s, t)
    ensures WaitsOn(s, t, u)
  {
    var l := Top(Stack(s, t)).l;
    assert WordOk(s, l) && HasOwner(s, l);
    var i;
    u, i :| OwnsAt(s, u, i, l);
  }

  lemma OneFurther(s: State, p: seq<Thread>, u: Thread)
    requires p != [] && IsChain(s, p) && WaitsOn(s, p[|p| - 1], u)
    ensures IsChain(s, p + [u])
  {
  }

  /** Following the chain, one comes out of it or runs into a cycle: there are
      only so many threads. */
  lemma {:induction false} ChainEnds(s: State, t: Thread, p: seq<Thread>) returns (q: seq<Thread>)
    requires Inv(s) && p != [] && p[0] == t && IsChain(s, p) && Distinct(p)
    requires forall i :: 0 <= i < |p| ==> p[i] in s.stacks
    ensures IsCycleFrom(s, t, q) || LeadsOut(s, t, q)
    decreases |s.stacks.Keys| - |p|
  {
    var last := p[|p| - 1];
    if !Waits(s, last) {
      q := p;
    } else {
      var u := AnOwner(s, last);
      OneFurther(s, p, u);
      q := p + [u];
      if u in p {
        assert q[..|q| - 1] == p;
      } else {
        assert u in s.stacks;
        DistinctFits(q, s.stacks.Keys);
        q := ChainEnds(s, t, q);
      }
    }
  }

  // ------------------------------------------------------------- the condition

  /** Some continuation lets t's top call return its lazy's instance. */
  ghost predicate CanReturn(s: State, t: Thread) {
    Stack(s, t) != [] && exists es, s' ::
      Reaches(s, es, s') && Stack(s', t) == Stack(s, t)[..|Stack(s, t)| - 1]
      && s'.returned != [] && s'.returned[|s'.returned| - 1] == (t, Top(Stack(s, t)).l, Address(Top(Stack(s, t)).l))
  }

  lemma CycleSpins(s: State, t: Thread, es: seq<Event>, s': State)
    requires Inv(s) && RunsIntoCycle(s, t) && Reaches(s, es, s')
    ensures StillAsks(s, s', t)
  {
    var p :| IsCycleFrom(s, t, p);
    CycleIsStuck(s, t, p);
    StuckForGood(s, es, set i | 0 <= i < |p| :: p[i], t, s');
  }

  lemma WayOutReturns(s: State, t: Thread, p: seq<Thread>)
    requires Inv(s) && Stack(s, t) != [] && LeadsOut(s, t, p)
    ensures CanReturn(s, t)
  {
    var below, f := Stack(s, t)[..|Stack(s, t)| - 1], Top(Stack(s, t));
    var first, m := Unblocks(s, t, p);
    var more, s' := TopFinishes(m, t, below, f);
    ReachesOn(s, first, m, more, s');
  }

  /** A call can return if and only if the chain of waiting threads that begins
      with its own does not run into a cycle. */
  lemma ReturnsIffNoCycle(s: State, t: Thread)
    requires Inv(s) && Stack(s, t) != []
    ensures CanReturn(s, t) <==> !RunsIntoCycle(s, t)
  {
    if CanReturn(s, t) && RunsIntoCycle(s, t) {
      var es, s' :| Reaches(s, es, s') && Stack(s', t) == Stack(s, t)[..|Stack(s, t)| - 1];
      CycleSpins(s, t, es, s');
    }
    var q := ChainEnds(s, t, [t]);
    if LeadsOut(s, t, q) {
      WayOutReturns(s, t, q);
    }
  }

  // ------------------------------------------------- both kinds of cycle arise

  /** t waits for a lazy whose constructor it is itself running. */
  ghost predicate WaitsForItself(s: State, t: Thread, i: nat) {
    && i < |Stack(s, t)| - 1
    && Stack(s, t)[i].l == Top(Stack(s, t)).l
    && Top(Stack(s, t)).at == Spinning
  }

  /** A constructor that asks for its own lazy never returns: whatever the
      other threads do, its thread spins for good. */
  lemma {:induction false} SelfUseSpinsForever(s: State, t: Thread, i: nat, es: seq<Event>)
    requires Inv(s) && WaitsForItself(s, t, i) && CanRun(s, es)
    ensures Stack(Run(s, es), t) == Stack(s, t)
    decreases |es|
  {
    if es != [] {
      assert Knows(s, Stack(s, t)[i]) && Stack(s, t)[i].at == Constructing;
      assert es[0] != Exit;
      assert Stack(Step(s, es[0]), t) == Stack(s, t);
      StepKeepsInv(s, es[0]);
      SelfUseSpinsForever(Step(s, es[0]), t, i, es[1..]);
    }
  }

  lemma SelfUseIsCycle(s: State, t: Thread, i: nat)
    requires Inv(s) && WaitsForItself(s, t, i)
    ensures RunsIntoCycle(s, t)
  {
    assert Knows(s, Stack(s, t)[i]) && Stack(s, t)[i].at == Constructing;
    assert OwnsAt(s, t, i, Top(Stack(s, t)).l);
    assert IsCycleFrom(s, t, [t, t]);
  }

  /** A thread enters the constructor of a lazy that nobody has asked for. */
  lemma Enters(s: State, t: Thread, l: Lazy) returns (es: seq<Event>, s': State)
    requires Stack(s, t) == [] && Word(s, l) == 0
    ensures Reaches(s, es, s') && Stack(s', t) == [Frame(l, Constructing)]
    ensures s'.words == s.words[l := CREATING]
    ensures forall u :: u != t ==> Stack(s', u) == Stack(s, u)
  {
    var m := Calls(s, t, l);
    assert [] + [Frame(l, Loading)] == [Frame(l, Loading)];
    s' := Wins(m, t, l);
    ReachesOn(s, [Call(t, l)], m, [Go(t), Go(t)], s');
    es := [Call(t, l)] + [Go(t), Go(t)];
  }

  /** Within a constructor it asks for a lazy that is being created, and spins. */
  lemma SpinsOn(s: State, t: Thread, outer: Lazy, l: Lazy) returns (es: seq<Event>, s': State)
    requires Stack(s, t) == [Frame(outer, Constructing)] && Word(s, l) == CREATING
    ensures Reaches(s, es, s') && Stack(s', t) == [Frame(outer, Constructing), Frame(l, Spinning)]
    ensures s'.words == s.words
    ensures forall u :: u != t ==> Stack(s', u) == Stack(s, u)
  {
    var below := [Frame(outer, Constructing)];
    var m := Calls(s, t, l);
    var n := Goes(m, t, below, Frame(l, Loading));
    assert Stack(n, t) == below + [Frame(l, Swapping)];
    s' := Goes(n, t, below, Frame(l, Swapping));
    ReachesOn(s, [Call(t, l)], m, [Go(t)], n);
    ReachesOn(s, [Call(t, l)] + [Go(t)], n, [Go(t)], s');
    es := [Call(t, l)] + [Go(t)] + [Go(t)];
    assert Stack(s', t) == below + [Frame(l, Spinning)];
  }

  /** A constructor that asks for its own lazy brings its thread there. */
  lemma SelfUseIsReachable(leaky: set<Lazy>, l: Lazy) returns (es: seq<Event>, s: State)
    ensures Reaches(Init(leaky), es, s) && Inv(s)
    ensures Stack(s, 0) == [Frame(l, Constructing), Frame(l, Spinning)]
    ensures WaitsForItself(s, 0, 0) && RunsIntoCycle(s, 0)
  {
    var first, m := Enters(Init(leaky), 0, l);
    var more;
    more, s := SpinsOn(m, 0, l, l);
    ReachesOn(Init(leaky), first, m, more, s);
    es := first + more;
    ReachableKeepsInv(leaky, es);
    SelfUseIsCycle(s, 0, 0);
  }

  lemma CrossedIsCycle(s: State, t: Thread, u: Thread, a: Lazy, b: Lazy)
    requires Stack(s, t) == [Frame(a, Constructing), Frame(b, Spinning)]
    requires Stack(s, u) == [Frame(b, Constructing), Frame(a, Spinning)]
    requires Word(s, a) == Word(s, b) == CREATING
    ensures RunsIntoCycle(s, t)
  {
    assert OwnsAt(s, u, 0, b) && OwnsAt(s, t, 0, a);
    assert WaitsOn(s, t, u) && WaitsOn(s, u, t);
    var p := [t, u, t];
    assert IsChain(s, p);
    assert p[..|p| - 1] == [t, u];
    assert IsCycleFrom(s, t, p);
  }

  /** Two threads whose constructors ask for each other's lazy wait for each
      other; neither waits for a lazy of its own. */
  lemma CrossWaitIsReachable(leaky: set<Lazy>, a: Lazy, b: Lazy) returns (es: seq<Event>, s: State)
    requires a != b
    ensures Reaches(Init(leaky), es, s) && Inv(s)
    ensures Stack(s, 0) == [Frame(a, Constructing), Frame(b, Spinning)]
    ensures Stack(s, 1) == [Frame(b, Constructing), Frame(a, Spinning)]
    ensures RunsIntoCycle(s, 0) && RunsIntoCycle(s, 1)
    ensures forall i :: !WaitsForItself(s, 0, i) && !WaitsForItself(s, 1, i)
  {
    var s0 := Init(leaky);
    var e1, s1 := Enters(s0, 0, a);
    var e2, s2 := Enters(s1, 1, b);
    var e3, s3 := SpinsOn(s2, 0, a, b);
    var e4;
    e4, s := SpinsOn(s3, 1, b, a);
    ReachesOn(s0, e1, s1, e2, s2);
    ReachesOn(s0, e1 + e2, s2, e3, s3);
    ReachesOn(s0, e1 + e2 + e3, s3, e4, s);
    es := e1 + e2 + e3 + e4;
    ReachableKeepsInv(leaky, es);
    CrossedIsCycle(s, 0, 1, a, b);
    CrossedIsCycle(s, 1, 0, b, a);
  }
}
