/** Models base::LazyInstance over base::AtExitManager: any number of threads
    race to create any number of lazily built objects, whose constructors may
    use each other.  Every step is one access to a shared word; accesses are
    sequentially consistent. */
module LazyInstances {
  import AtExits

  type Thread = nat
  type Lazy = nat

  /** kLazyInstanceStateCreating */
  const CREATING: nat := 1

  /** Where private_buf_ lies: an aligned address, so neither 0 nor 1. */
  function Address(l: Lazy): (a: nat)
    ensures a > CREATING
  {
    2 * l + 2
  }

  /** The places in Pointer() and what it calls where a thread can be. */
  datatype Place =
    | Loading       // before the acquire load
    | Swapping      // before the compare-and-swap
    | Spinning      // waiting for another thread's store
    | Constructing  // in Traits::New
    | Storing       // before the release store
    | Registering   // before RegisterCallback
    | Returning     // before instance()

  datatype Frame = Frame(l: Lazy, at: Place)

  datatype State = State(
    leaky: set<Lazy>,                       // kRegisterOnExit is false
    words: map<Lazy, nat>,                  // private_instance_; 0 where absent
    stacks: map<Thread, seq<Frame>>,
    exits: seq<Lazy>,                       // the at-exit stack, newest last
    built: multiset<Lazy>,                  // constructor runs since it was last destroyed
    alive: set<Lazy>,                       // constructed and not destroyed
    inside: set<(Lazy, Lazy)>,              // created within another's constructor
    returned: seq<(Thread, Lazy, nat)>,     // what Pointer() returned since the last exit
    destroyed: seq<Lazy>)                   // all destructions, in order

  datatype Event = Call(t: Thread, l: Lazy) | Go(t: Thread) | Exit

  function Init(leaky: set<Lazy>): State {
    State(leaky, map[], map[], [], multiset{}, {}, {}, [], [])
  }

  function Word(s: State, l: Lazy): nat {
    if l in s.words then s.words[l] else 0
  }

  function Stack(s: State, t: Thread): seq<Frame> {
    if t in s.stacks then s.stacks[t] else []
  }

  function Top(st: seq<Frame>): Frame
    requires st != []
  {
    st[|st| - 1]
  }

  /** Pointer() is called by idle threads and from constructors. */
  predicate Enabled(s: State, e: Event) {
    match e
    case Call(t, _) => Stack(s, t) == [] || Top(Stack(s, t)).at == Constructing
    case Go(t) => Stack(s, t) != []
    case Exit => forall t :: t in s.stacks ==> s.stacks[t] == []
  }

  function Move(s: State, t: Thread, at: Place): State
    requires Stack(s, t) != []
  {
    var st := Stack(s, t);
    s.(stacks := s.stacks[t := st[..|st| - 1] + [Frame(Top(st).l, at)]])
  }

  /** The lazies whose constructors this stack is inside of. */
  function Outers(st: seq<Frame>): set<Lazy> {
    set i | 0 <= i < |st| - 1 :: st[i].l
  }

  function Step(s: State, e: Event): State
    requires Enabled(s, e)
  {
    match e
    case Call(t, l) => s.(stacks := s.stacks[t := Stack(s, t) + [Frame(l, Loading)]])
    case Exit => ProcessCallbacks(s).(inside := {}, returned := [])
    case Go(t) =>
      var st := Stack(s, t);
      var l := Top(st).l;
      match Top(st).at
      case Loading => Move(s, t, if Word(s, l) > CREATING then Returning else Swapping)
      case Swapping =>
        if Word(s, l) != 0 then Move(s, t, Spinning)
        else Move(s, t, Constructing).(words := s.words[l := CREATING], built := s.built + multiset{l},
                                       inside := s.inside + (set o | o in Outers(st) :: (l, o)))
      case Spinning => if Word(s, l) == CREATING then s else Move(s, t, Returning)
      case Constructing => Move(s, t, Storing).(alive := s.alive + {l})
      case Storing => Move(s, t, if l in s.leaky then Returning else Registering).(words := s.words[l := Address(l)])
      case Registering => Move(s, t, Returning).(exits := WithCallback(s, l))
      case Returning =>
        s.(stacks := s.stacks[t := st[..|st| - 1]], returned := s.returned + [(t, l, Word(s, l))])
  }

  /** The at-exit manager that the lazies register with. */
  function AtExit(s: State): AtExits.State {
    AtExits.State([s.exits], [false], false, [], [])
  }

  /** The manager's stack after RegisterCallback. */
  function WithCallback(s: State, l: Lazy): seq<Lazy> {
    AtExits.Top(AtExits.Register(AtExit(s), l))
  }

  /** OnExit registers nothing. */
  function Nothing(l: Lazy): seq<Lazy> {
    []
  }

  function AfterExit(s: State): AtExits.State {
    AtExits.Process(AtExit(s), Nothing)
  }

  /** OnExit: destroys the instance and makes its word 0 again. */
  function OnExit(s: State, l: Lazy): State {
    s.(words := s.words - {l}, alive := s.alive - {l}, built := s.built[l := 0], destroyed := s.destroyed + [l])
  }

  /** The callbacks that the manager runs, in that order. */
  function Destroyed(s: State, ran: seq<Lazy>): State
    decreases |ran|
  {
    if ran == [] then s else Destroyed(OnExit(s, ran[0]), ran[1..])
  }

  function ProcessCallbacks(s: State): State {
    Destroyed(s.(exits := AtExits.Top(AfterExit(s))), AfterExit(s).ran)
  }

  predicate CanRun(s: State, es: seq<Event>)
    decreases |es|
  {
    es == [] || (Enabled(s, es[0]) && CanRun(Step(s, es[0]), es[1..]))
  }

  function Run(s: State, es: seq<Event>): State
    requires CanRun(s, es)
    decreases |es|
  {
    if es == [] then s else Run(Step(s, es[0]), es[1..])
  }

  // ---------------------------------------------------------------- invariant

  /** This frame won the compare-and-swap and has not yet registered. */
  predicate Owns(f: Frame) {
    f.at == Constructing || f.at == Storing || f.at == Registering
  }

  ghost predicate OwnsAt(s: State, t: Thread, i: int, l: Lazy) {
    0 <= i < |Stack(s, t)| && Owns(Stack(s, t)[i]) && Stack(s, t)[i].l == l
  }

  ghost predicate OneOwner(s: State) {
    forall t, i, u, j, l :: OwnsAt(s, t, i, l) && OwnsAt(s, u, j, l) ==> t == u && i == j
  }

  /** What a frame at this place knows of its lazy's word. */
  ghost predicate Knows(s: State, f: Frame) {
    && (f.at == Constructing || f.at == Storing ==> Word(s, f.l) == CREATING)
    && (f.at == Storing ==> f.l in s.alive)
    && (f.at == Registering ==> Word(s, f.l) == Address(f.l) && f.l !in s.exits && f.l !in s.leaky)
    && (f.at == Returning ==> Word(s, f.l) == Address(f.l))
    && (f.at == Spinning ==> Word(s, f.l) != 0)
  }

  ghost predicate FramesOk(s: State) {
    forall t, i {:trigger Stack(s, t)[i]} :: 0 <= i < |Stack(s, t)| ==>
      Knows(s, Stack(s, t)[i]) && (i < |Stack(s, t)| - 1 ==> Stack(s, t)[i].at == Constructing)
  }

  ghost predicate HasOwner(s: State, l: Lazy) {
    exists t, i :: OwnsAt(s, t, i, l)
  }

  ghost predicate WordOk(s: State, l: Lazy) {
    var w := Word(s, l);
    && (w == 0 || w == CREATING || w == Address(l))
    && (w == Address(l) ==> l in s.alive)
    && (l in s.alive ==> w != 0)
    && s.built[l] == (if w == 0 then 0 else 1)
    && (w == CREATING ==> HasOwner(s, l))
    && (w == Address(l) && l !in s.leaky ==> l in s.exits || HasOwner(s, l))
  }

  ghost predicate WordsOk(s: State) {
    forall l :: WordOk(s, l)
  }

  ghost predicate ExitsOk(s: State) {
    && (forall i, j :: 0 <= i < j < |s.exits| ==> s.exits[i] != s.exits[j])
    && (forall i :: 0 <= i < |s.exits| ==> Word(s, s.exits[i]) == Address(s.exits[i]) && s.exits[i] !in s.leaky)
    && (forall i :: 0 <= i < |s.returned| ==>
          s.returned[i].2 == Address(s.returned[i].1) == Word(s, s.returned[i].1))
  }

  /** The inner lazy registers first: it is on the exit stack below the outer
      one, or the outer one is not there yet. */
  ghost predicate RegistersBefore(s: State, inner: Lazy, outer: Lazy) {
    forall j :: 0 <= j < |s.exits| && s.exits[j] == outer ==> exists i :: 0 <= i < j && s.exits[i] == inner
  }

  ghost predicate Nested(s: State, inner: Lazy, outer: Lazy) {
    exists t, i, j :: i < j && OwnsAt(s, t, i, outer) && OwnsAt(s, t, j, inner)
  }

  ghost predicate InsideOk(s: State) {
    forall p :: p in s.inside ==>
      && Word(s, p.0) != 0 && Word(s, p.1) != 0
      && (Nested(s, p.0, p.1) || p.0 in s.leaky || (p.0 in s.exits && RegistersBefore(s, p.0, p.1)))
  }

  ghost predicate Inv(s: State) {
    OneOwner(s) && FramesOk(s) && WordsOk(s) && ExitsOk(s) && InsideOk(s)
  }

  // -------------------------------------------------- every step keeps it

  /** s' is s with t's top frame moved to another place, and any words. */
  ghost predicate Moved(s: State, s': State, t: Thread, at: Place) {
    && Stack(s, t) != []
    && Stack(s', t) == Stack(s, t)[..|Stack(s, t)| - 1] + [Frame(Top(Stack(s, t)).l, at)]
    && forall u :: u != t ==> Stack(s', u) == Stack(s, u)
  }

  ghost predicate IsTop(s: State, t: Thread, i: int) {
    i == |Stack(s, t)| - 1
  }

  lemma OwnersAfterMove(s: State, s': State, t: Thread, at: Place)
    requires Moved(s, s', t, at)
    ensures forall u, i, l :: u != t || !IsTop(s, t, i) ==> (OwnsAt(s', u, i, l) <==> OwnsAt(s, u, i, l))
    ensures forall i, l :: IsTop(s, t, i) ==>
              (OwnsAt(s', t, i, l) <==> Owns(Frame(l, at)) && l == Top(Stack(s, t)).l)
  {
  }

  /** A move between places that both own, or both do not, changes no owner. */
  lemma SameOwners(s: State, s': State, t: Thread, at: Place)
    requires Moved(s, s', t, at) && Owns(Top(Stack(s, t))) == Owns(Frame(Top(Stack(s, t)).l, at))
    ensures forall u, i, l :: OwnsAt(s', u, i, l) <==> OwnsAt(s, u, i, l)
  {
    OwnersAfterMove(s, s', t, at);
  }

  lemma FramesAfterMove(s: State, s': State, t: Thread, at: Place)
    requires Moved(s, s', t, at) && FramesOk(s) && Knows(s', Frame(Top(Stack(s, t)).l, at))
    requires forall u, i {:trigger Stack(s, u)[i]} ::
               0 <= i < |Stack(s, u)| && (u != t || !IsTop(s, t, i)) ==> Knows(s', Stack(s, u)[i])
    ensures FramesOk(s')
  {
    forall u, i | 0 <= i < |Stack(s', u)|
      ensures Knows(s', Stack(s', u)[i]) && (i < |Stack(s', u)| - 1 ==> Stack(s', u)[i].at == Constructing)
    {
      if u != t || !IsTop(s, t, i) {
        assert Stack(s', u)[i] == Stack(s, u)[i];
        assert Knows(s', Stack(s, u)[i]);
      } else {
        assert Stack(s', u)[i] == Frame(Top(Stack(s, t)).l, at);
      }
    }
  }

  ghost predicate SameOwnership(s: State, s': State) {
    forall u, i, l :: OwnsAt(s', u, i, l) <==> OwnsAt(s, u, i, l)
  }

  lemma NestedStays(s: State, s': State, a: Lazy, b: Lazy)
    requires SameOwnership(s, s')
    ensures Nested(s, a, b) ==> Nested(s', a, b)
  {
    if Nested(s, a, b) {
      var u, i, j :| i < j && OwnsAt(s, u, i, b) && OwnsAt(s, u, j, a);
      assert OwnsAt(s', u, i, b) && OwnsAt(s', u, j, a);
    }
  }

  /** A step that changes only stacks, the log and what is newly alive, and no
      owner. */
  lemma PrivateStepKeeps(s: State, s': State)
    requires Inv(s) && SameOwnership(s, s') && FramesOk(s')
    requires s' == s.(stacks := s'.stacks, returned := s'.returned, alive := s'.alive) && s.alive <= s'.alive
    requires forall l :: l in s'.alive ==> l in s.alive || Word(s, l) != 0
    requires forall i :: 0 <= i < |s'.returned| ==>
               s'.returned[i].2 == Address(s'.returned[i].1) == Word(s, s'.returned[i].1)
    ensures Inv(s')
  {
    forall l ensures WordOk(s', l) {
      assert WordOk(s, l);
      if HasOwner(s, l) {
        var u, i :| OwnsAt(s, u, i, l);
        assert OwnsAt(s', u, i, l);
      }
    }
    assert InsideOk(s') by {
      forall p | p in s'.inside
        ensures Nested(s', p.0, p.1) || p.0 in s'.leaky || (p.0 in s'.exits && RegistersBefore(s', p.0, p.1))
      {
        NestedStays(s, s', p.0, p.1);
      }
    }
  }

  /** A step that moves t's top frame and leaves every shared thing alone. */
  lemma QuietMoveKeeps(s: State, s': State, t: Thread, at: Place)
    requires Inv(s) && Moved(s, s', t, at)
    requires s' == s.(stacks := s'.stacks)
    requires Owns(Top(Stack(s, t))) == Owns(Frame(Top(Stack(s, t)).l, at)) && Knows(s', Frame(Top(Stack(s, t)).l, at))
    ensures Inv(s')
  {
    SameOwners(s, s', t, at);
    FramesAfterMove(s, s', t, at);
    PrivateStepKeeps(s, s');
  }

  lemma CallKeeps(s: State, t: Thread, l: Lazy)
    requires Inv(s) && Enabled(s, Call(t, l))
    ensures Inv(Step(s, Call(t, l)))
  {
    var s' := Step(s, Call(t, l));
    assert Stack(s', t) == Stack(s, t) + [Frame(l, Loading)];
    assert forall u :: u != t ==> Stack(s', u) == Stack(s, u);
    forall u, i | 0 <= i < |Stack(s', u)|
      ensures Knows(s', Stack(s', u)[i]) && (i < |Stack(s', u)| - 1 ==> Stack(s', u)[i].at == Constructing)
    {
      if i < |Stack(s, u)| { assert Stack(s', u)[i] == Stack(s, u)[i]; }
    }
    PrivateStepKeeps(s, s');
  }

  lemma ReturnKeeps(s: State, t: Thread)
    requires Inv(s) && Stack(s, t) != [] && Top(Stack(s, t)).at == Returning
    ensures Inv(Step(s, Go(t)))
  {
    var s' := Step(s, Go(t));
    var st := Stack(s, t);
    assert Knows(s, st[|st| - 1]);
    assert Stack(s', t) == st[..|st| - 1];
    assert forall u :: u != t ==> Stack(s', u) == Stack(s, u);
    forall u, i | 0 <= i < |Stack(s', u)|
      ensures Knows(s', Stack(s', u)[i]) && (i < |Stack(s', u)| - 1 ==> Stack(s', u)[i].at == Constructing)
    {
      assert Stack(s', u)[i] == Stack(s, u)[i];
    }
    PrivateStepKeeps(s, s');
  }

  ghost predicate NobodyOwns(s: State, l: Lazy) {
    forall u, i :: !OwnsAt(s, u, i, l)
  }

  lemma ZeroHasNoOwner(s: State, l: Lazy)
    requires FramesOk(s) && Word(s, l) == 0
    ensures NobodyOwns(s, l)
  {
    forall u, i ensures !OwnsAt(s, u, i, l) {
      assert 0 <= i < |Stack(s, u)| ==> Knows(s, Stack(s, u)[i]);
    }
  }

  /** The compare-and-swap is about to succeed for t's top frame. */
  ghost predicate WinsSwap(s: State, t: Thread) {
    Stack(s, t) != [] && Top(Stack(s, t)).at == Swapping && Word(s, Top(Stack(s, t)).l) == 0
  }

  lemma SwapFacts(s: State, t: Thread)
    requires WinsSwap(s, t)
    ensures var s' := Step(s, Go(t)); var l := Top(Stack(s, t)).l;
      && Moved(s, s', t, Constructing)
      && (forall m :: Word(s', m) == if m == l then CREATING else Word(s, m))
      && OwnsAt(s', t, |Stack(s, t)| - 1, l)
  {
    OwnersAfterMove(s, Step(s, Go(t)), t, Constructing);
  }

  lemma SwapKeepsOneOwner(s: State, t: Thread)
    requires Inv(s) && WinsSwap(s, t)
    ensures OneOwner(Step(s, Go(t)))
  {
    SwapFacts(s, t);
    OwnersAfterMove(s, Step(s, Go(t)), t, Constructing);
    ZeroHasNoOwner(s, Top(Stack(s, t)).l);
  }

  lemma SwapKeepsFrames(s: State, t: Thread)
    requires Inv(s) && WinsSwap(s, t)
    ensures FramesOk(Step(s, Go(t)))
  {
    var s' := Step(s, Go(t));
    SwapFacts(s, t);
    ZeroHasNoOwner(s, Top(Stack(s, t)).l);
    forall u, i {:trigger Stack(s, u)[i]} | 0 <= i < |Stack(s, u)| && (u != t || !IsTop(s, t, i))
      ensures Knows(s', Stack(s, u)[i])
    {
      assert Owns(Stack(s, u)[i]) ==> OwnsAt(s, u, i, Stack(s, u)[i].l);
    }
    FramesAfterMove(s, s', t, Constructing);
  }

  lemma OwnerSurvivesMove(s: State, s': State, t: Thread, at: Place, l: Lazy)
    requires Moved(s, s', t, at) && HasOwner(s, l)
    requires Owns(Top(Stack(s, t))) && Top(Stack(s, t)).l == l ==> Owns(Frame(l, at))
    ensures HasOwner(s', l)
  {
    OwnersAfterMove(s, s', t, at);
    var u, i :| OwnsAt(s, u, i, l);
    assert OwnsAt(s', u, i, l);
  }

  lemma SwapKeepsWord(s: State, t: Thread, m: Lazy)
    requires WordOk(s, m) && WinsSwap(s, t)
    ensures WordOk(Step(s, Go(t)), m)
  {
    var s' := Step(s, Go(t));
    SwapFacts(s, t);
    if m == Top(Stack(s, t)).l {
      assert HasOwner(s', m);
    } else if HasOwner(s, m) {
      OwnerSurvivesMove(s, s', t, Constructing, m);
    }
  }

  lemma SwapKeepsExits(s: State, t: Thread)
    requires ExitsOk(s) && WinsSwap(s, t)
    ensures ExitsOk(Step(s, Go(t)))
  {
    SwapFacts(s, t);
  }

  /** A lazy that starts while others of its thread are being constructed is
      nested in each of them. */
  lemma SwapNests(s: State, t: Thread, i: nat)
    requires FramesOk(s) && WinsSwap(s, t) && i < |Stack(s, t)| - 1
    ensures Nested(Step(s, Go(t)), Top(Stack(s, t)).l, Stack(s, t)[i].l)
    ensures Word(s, Stack(s, t)[i].l) == CREATING
  {
    var s' := Step(s, Go(t));
    SwapFacts(s, t);
    var l, o := Top(Stack(s, t)).l, Stack(s, t)[i].l;
    assert Knows(s, Stack(s, t)[i]) && Stack(s, t)[i].at == Constructing;
    OwnersAfterMove(s, s', t, Constructing);
    assert OwnsAt(s, t, i, o);
    assert OwnsAt(s', t, i, o) && OwnsAt(s', t, |Stack(s, t)| - 1, l);
  }

  lemma NestedSurvivesMove(s: State, s': State, t: Thread, at: Place, a: Lazy, b: Lazy)
    requires Moved(s, s', t, at) && Nested(s, a, b)
    requires Owns(Top(Stack(s, t))) && Top(Stack(s, t)).l == a ==> Owns(Frame(a, at))
    ensures Nested(s', a, b)
  {
    OwnersAfterMove(s, s', t, at);
    var u, i, j :| i < j && OwnsAt(s, u, i, b) && OwnsAt(s, u, j, a);
    assert OwnsAt(s', u, i, b) && OwnsAt(s', u, j, a);
  }

  lemma SwapKeepsInside(s: State, t: Thread)
    requires Inv(s) && WinsSwap(s, t)
    ensures InsideOk(Step(s, Go(t)))
  {
    var s' := Step(s, Go(t));
    SwapFacts(s, t);
    forall p | p in s'.inside
      ensures Word(s', p.0) != 0 && Word(s', p.1) != 0
      ensures Nested(s', p.0, p.1) || p.0 in s'.leaky || (p.0 in s'.exits && RegistersBefore(s', p.0, p.1))
    {
      if p in s.inside {
        if Nested(s, p.0, p.1) { NestedSurvivesMove(s, s', t, Constructing, p.0, p.1); }
      } else {
        var i :| 0 <= i < |Stack(s, t)| - 1 && Stack(s, t)[i].l == p.1;
        SwapNests(s, t, i);
      }
    }
  }

  /** The compare-and-swap succeeds: nobody owned l, now t's top frame does. */
  lemma SwapKeeps(s: State, t: Thread)
    requires Inv(s) && WinsSwap(s, t)
    ensures Inv(Step(s, Go(t)))
  {
    SwapKeepsOneOwner(s, t);
    SwapKeepsFrames(s, t);
    forall m ensures WordOk(Step(s, Go(t)), m) {
      assert WordOk(s, m);
      SwapKeepsWord(s, t, m);
    }
    SwapKeepsExits(s, t);
    SwapKeepsInside(s, t);
  }

  /** Traits::New has returned: the instance is there, the word is still 1. */
  lemma ConstructedKeeps(s: State, t: Thread)
    requires Inv(s) && Stack(s, t) != [] && Top(Stack(s, t)).at == Constructing
    ensures Inv(Step(s, Go(t)))
  {
    var s' := Step(s, Go(t));
    assert Moved(s, s', t, Storing);
    assert Knows(s, Stack(s, t)[|Stack(s, t)| - 1]);
    SameOwners(s, s', t, Storing);
    FramesAfterMove(s, s', t, Storing);
    PrivateStepKeeps(s, s');
  }

  lemma QuietGoKeeps(s: State, t: Thread)
    requires Inv(s) && Stack(s, t) != []
    requires
      var f := Top(Stack(s, t));
      || f.at == Loading
      || f.at == Spinning
      || (f.at == Swapping && Word(s, f.l) != 0)
    ensures Inv(Step(s, Go(t)))
  {
    var f := Top(Stack(s, t));
    assert Knows(s, Stack(s, t)[|Stack(s, t)| - 1]);
    assert WordOk(s, f.l);
    var s' := Step(s, Go(t));
    if s' != s {
      var at := s'.stacks[t][|s'.stacks[t]| - 1].at;
      QuietMoveKeeps(s, s', t, at);
    }
  }

  // The release store: the owner of l publishes its address.

  ghost predicate Stores(s: State, t: Thread) {
    Stack(s, t) != [] && Top(Stack(s, t)).at == Storing
  }

  function AfterStore(s: State, l: Lazy): Place {
    if l in s.leaky then Returning else Registering
  }

  lemma StoreFacts(s: State, t: Thread)
    requires FramesOk(s) && Stores(s, t)
    ensures var s' := Step(s, Go(t)); var l := Top(Stack(s, t)).l;
      && Moved(s, s', t, AfterStore(s, l))
      && (forall m :: Word(s', m) == if m == l then Address(l) else Word(s, m))
      && Word(s, l) == CREATING && l in s.alive
      && OwnsAt(s, t, |Stack(s, t)| - 1, l)
      && s' == s.(stacks := s'.stacks, words := s'.words)
  {
    assert Knows(s, Stack(s, t)[|Stack(s, t)| - 1]);
  }

  /** If t's top frame owns l, no other frame does, so none is creating l. */
  lemma OthersAreNotCreating(s: State, t: Thread, u: Thread, i: nat)
    requires OneOwner(s) && Stack(s, t) != [] && Owns(Top(Stack(s, t)))
    requires i < |Stack(s, u)| && (u != t || !IsTop(s, t, i))
    ensures Owns(Stack(s, u)[i]) ==> Stack(s, u)[i].l != Top(Stack(s, t)).l
  {
    assert OwnsAt(s, t, |Stack(s, t)| - 1, Top(Stack(s, t)).l);
    assert Owns(Stack(s, u)[i]) ==> OwnsAt(s, u, i, Stack(s, u)[i].l);
  }

  lemma MoveKeepsOneOwner(s: State, s': State, t: Thread, at: Place)
    requires OneOwner(s) && Moved(s, s', t, at) && Owns(Top(Stack(s, t)))
    ensures OneOwner(s')
  {
    OwnersAfterMove(s, s', t, at);
    forall u, i, l ensures OwnsAt(s', u, i, l) ==> OwnsAt(s, u, i, l) {
      assert u != t || !IsTop(s, t, i) ==> (OwnsAt(s', u, i, l) <==> OwnsAt(s, u, i, l));
    }
  }

  lemma StoreKeepsFrames(s: State, t: Thread)
    requires Inv(s) && Stores(s, t)
    ensures FramesOk(Step(s, Go(t)))
  {
    var s' := Step(s, Go(t));
    StoreFacts(s, t);
    forall u, i {:trigger Stack(s, u)[i]} | 0 <= i < |Stack(s, u)| && (u != t || !IsTop(s, t, i))
      ensures Knows(s', Stack(s, u)[i])
    {
      assert Knows(s, Stack(s, u)[i]);
      OthersAreNotCreating(s, t, u, i);
    }
    if Top(Stack(s, t)).l !in s.leaky { CreatingIsNotRegistered(s, Top(Stack(s, t)).l); }
    FramesAfterMove(s, s', t, AfterStore(s, Top(Stack(s, t)).l));
  }

  lemma CreatingIsNotRegistered(s: State, l: Lazy)
    requires ExitsOk(s) && Word(s, l) == CREATING
    ensures l !in s.exits
  {
  }

  lemma StoreKeepsWord(s: State, t: Thread, m: Lazy)
    requires FramesOk(s) && Stores(s, t) && WordOk(s, m) && WordOk(s, Top(Stack(s, t)).l)
    ensures WordOk(Step(s, Go(t)), m)
  {
    var s' := Step(s, Go(t));
    var l := Top(Stack(s, t)).l;
    StoreFacts(s, t);
    if m == l {
      OwnersAfterMove(s, s', t, AfterStore(s, l));
      assert l !in s.leaky ==> OwnsAt(s', t, |Stack(s, t)| - 1, l);
    } else if HasOwner(s, m) {
      OwnerSurvivesMove(s, s', t, AfterStore(s, l), m);
    }
  }

  lemma StoreKeepsInside(s: State, t: Thread)
    requires Inv(s) && Stores(s, t)
    ensures InsideOk(Step(s, Go(t)))
  {
    var s' := Step(s, Go(t));
    var l := Top(Stack(s, t)).l;
    StoreFacts(s, t);
    forall p | p in s'.inside
      ensures Word(s', p.0) != 0 && Word(s', p.1) != 0
      ensures Nested(s', p.0, p.1) || p.0 in s'.leaky || (p.0 in s'.exits && RegistersBefore(s', p.0, p.1))
    {
      if Nested(s, p.0, p.1) && p.0 !in s.leaky {
        NestedSurvivesMove(s, s', t, AfterStore(s, l), p.0, p.1);
      }
    }
  }

  lemma StoreKeeps(s: State, t: Thread)
    requires Inv(s) && Stores(s, t)
    ensures Inv(Step(s, Go(t)))
  {
    StoreFacts(s, t);
    MoveKeepsOneOwner(s, Step(s, Go(t)), t, AfterStore(s, Top(Stack(s, t)).l));
    StoreKeepsFrames(s, t);
    assert WordOk(s, Top(Stack(s, t)).l);
    forall m ensures WordOk(Step(s, Go(t)), m) {
      assert WordOk(s, m);
      StoreKeepsWord(s, t, m);
    }
    StoreKeepsInside(s, t);
  }

  // RegisterCallback: l joins the at-exit stack and t stops owning it.

  ghost predicate Registers(s: State, t: Thread) {
    Stack(s, t) != [] && Top(Stack(s, t)).at == Registering
  }

  lemma RegisterFacts(s: State, t: Thread)
    requires FramesOk(s) && Registers(s, t)
    ensures var s' := Step(s, Go(t)); var l := Top(Stack(s, t)).l;
      && Moved(s, s', t, Returning)
      && Word(s, l) == Address(l) && l !in s.exits && l !in s.leaky
      && OwnsAt(s, t, |Stack(s, t)| - 1, l)
      && s' == s.(stacks := s'.stacks, exits := s.exits + [l])
  {
    assert Knows(s, Stack(s, t)[|Stack(s, t)| - 1]);
  }

  lemma RegisterKeepsFrames(s: State, t: Thread)
    requires OneOwner(s) && FramesOk(s) && Registers(s, t)
    ensures FramesOk(Step(s, Go(t)))
  {
    var s' := Step(s, Go(t));
    RegisterFacts(s, t);
    forall u, i {:trigger Stack(s, u)[i]} | 0 <= i < |Stack(s, u)| && (u != t || !IsTop(s, t, i))
      ensures Knows(s', Stack(s, u)[i])
    {
      assert Knows(s, Stack(s, u)[i]);
      OthersAreNotCreating(s, t, u, i);
    }
    FramesAfterMove(s, s', t, Returning);
  }

  lemma RegisterKeepsWord(s: State, t: Thread, m: Lazy)
    requires FramesOk(s) && WordOk(s, m) && Registers(s, t)
    ensures WordOk(Step(s, Go(t)), m)
  {
    RegisterFacts(s, t);
    if m != Top(Stack(s, t)).l && HasOwner(s, m) {
      OwnerSurvivesMove(s, Step(s, Go(t)), t, Returning, m);
    }
    assert Step(s, Go(t)).exits[|s.exits|] == Top(Stack(s, t)).l;
  }

  /** l is inside b, whose constructor still runs: b registers later. */
  lemma InnerRegistersFirst(s: State, t: Thread, b: Lazy)
    requires Inv(s) && Registers(s, t) && Nested(s, Top(Stack(s, t)).l, b)
    ensures RegistersBefore(Step(s, Go(t)), Top(Stack(s, t)).l, b)
  {
    RegisterFacts(s, t);
    var l := Top(Stack(s, t)).l;
    var u, i, j :| i < j && OwnsAt(s, u, i, b) && OwnsAt(s, u, j, l);
    assert Stack(s, u)[i].at == Constructing && Knows(s, Stack(s, u)[i]);
    CreatingIsNotRegistered(s, b);
  }

  lemma RegisterKeepsInside(s: State, t: Thread)
    requires Inv(s) && Registers(s, t)
    ensures InsideOk(Step(s, Go(t)))
  {
    var s' := Step(s, Go(t));
    var l := Top(Stack(s, t)).l;
    RegisterFacts(s, t);
    assert s'.exits[|s.exits|] == l;
    forall p | p in s'.inside
      ensures Word(s', p.0) != 0 && Word(s', p.1) != 0
      ensures Nested(s', p.0, p.1) || p.0 in s'.leaky || (p.0 in s'.exits && RegistersBefore(s', p.0, p.1))
    {
      if Nested(s, p.0, p.1) {
        if p.0 == l { InnerRegistersFirst(s, t, p.1); }
        else { NestedSurvivesMove(s, s', t, Returning, p.0, p.1); }
      } else if p.0 !in s.leaky {
        RegisteredStays(s, s', p.0, p.1, l);
      }
    }
  }

  lemma RegisteredStays(s: State, s': State, a: Lazy, b: Lazy, l: Lazy)
    requires s'.exits == s.exits + [l] && a in s.exits && RegistersBefore(s, a, b)
    ensures a in s'.exits && RegistersBefore(s', a, b)
  {
    var k :| 0 <= k < |s.exits| && s.exits[k] == a;
    assert s'.exits[k] == a;
    forall j | 0 <= j < |s'.exits| && s'.exits[j] == b ensures exists i :: 0 <= i < j && s'.exits[i] == a {
      if j < |s.exits| {
        var i :| 0 <= i < j && s.exits[i] == a;
        assert s'.exits[i] == a;
      }
    }
  }

  lemma RegisterKeeps(s: State, t: Thread)
    requires Inv(s) && Registers(s, t)
    ensures Inv(Step(s, Go(t)))
  {
    RegisterFacts(s, t);
    MoveKeepsOneOwner(s, Step(s, Go(t)), t, Returning);
    RegisterKeepsFrames(s, t);
    forall m ensures WordOk(Step(s, Go(t)), m) {
      assert WordOk(s, m);
      RegisterKeepsWord(s, t, m);
    }
    RegisterKeepsInside(s, t);
  }

  // At exit: every registered instance is destroyed, newest first.

  lemma {:induction false} NothingIsRegistered(tasks: seq<Lazy>)
    ensures AtExits.Registered(Nothing, tasks) == []
  {
    if tasks != [] { NothingIsRegistered(tasks[..|tasks| - 1]); }
  }

  lemma ManagerRuns(s: State)
    ensures AfterExit(s).ran == AtExits.Reverse(s.exits) && AtExits.Top(AfterExit(s)) == []
  {
    NothingIsRegistered(AtExits.Reverse(s.exits));
    assert [] + AtExits.Reverse(s.exits) == AtExits.Reverse(s.exits);
  }

  lemma {:induction false} DestroyedIs(s: State, ran: seq<Lazy>)
    ensures
      var s' := Destroyed(s, ran);
      && s' == s.(words := s'.words, alive := s'.alive, built := s'.built, destroyed := s.destroyed + ran)
      && (forall l :: Word(s', l) == if l in ran then 0 else Word(s, l))
      && (forall l :: s'.built[l] == if l in ran then 0 else s.built[l])
      && (forall l :: l in s'.alive <==> l in s.alive && l !in ran)
    decreases |ran|
  {
    if ran == [] {
      assert s.destroyed + ran == s.destroyed;
    } else {
      DestroyedIs(OnExit(s, ran[0]), ran[1..]);
      assert ran == [ran[0]] + ran[1..];
      assert (s.destroyed + [ran[0]]) + ran[1..] == s.destroyed + ran;
    }
  }

  /** All of exit processing: the registered words become 0, the registered
      instances die newest first, and nothing else changes. */
  lemma CallbacksDestroyInReverse(s: State)
    ensures
      var s' := ProcessCallbacks(s);
      && s' == s.(words := s'.words, alive := s'.alive, built := s'.built, exits := [],
                  destroyed := s.destroyed + AtExits.Reverse(s.exits))
      && (forall l :: Word(s', l) == if l in s.exits then 0 else Word(s, l))
      && (forall l :: s'.built[l] == if l in s.exits then 0 else s.built[l])
      && (forall l :: l in s'.alive <==> l in s.alive && l !in s.exits)
  {
    ManagerRuns(s);
    DestroyedIs(s.(exits := []), AtExits.Reverse(s.exits));
    SameMembers(s.exits);
  }

  lemma SameMembers(r: seq<Lazy>)
    ensures forall l :: l in AtExits.Reverse(r) <==> l in r
  {
    var v := AtExits.Reverse(r);
    forall l ensures l in v <==> l in r {
      if l in r {
        var i :| 0 <= i < |r| && r[i] == l;
        assert v[|r| - 1 - i] == l;
      }
    }
  }

  ghost predicate Idle(s: State) {
    forall t :: Stack(s, t) == []
  }

  lemma ExitKeeps(s: State)
    requires Inv(s) && Idle(s) && Enabled(s, Exit)
    ensures Inv(Step(s, Exit))
  {
    var s' := Step(s, Exit);
    CallbacksDestroyInReverse(s);
    assert forall t :: Stack(s', t) == Stack(s, t);
    forall l ensures WordOk(s', l) { assert WordOk(s, l); }
  }

  /** Inv is kept by every step of every thread, and by exit processing. */
  lemma StepKeepsInv(s: State, e: Event)
    requires Inv(s) && Enabled(s, e)
    ensures Inv(Step(s, e))
  {
    match e
    case Call(t, l) => CallKeeps(s, t, l);
    case Exit => ExitKeeps(s);
    case Go(t) =>
      match Top(Stack(s, t)).at
      case Loading => QuietGoKeeps(s, t);
      case Swapping => if Word(s, Top(Stack(s, t)).l) == 0 { SwapKeeps(s, t); } else { QuietGoKeeps(s, t); }
      case Spinning => QuietGoKeeps(s, t);
      case Constructing => ConstructedKeeps(s, t);
      case Storing => StoreKeeps(s, t);
      case Registering => RegisterKeeps(s, t);
      case Returning => ReturnKeeps(s, t);
  }

  lemma {:induction false} RunKeepsInv(s: State, es: seq<Event>)
    requires Inv(s) && CanRun(s, es)
    ensures Inv(Run(s, es))
    decreases |es|
  {
    if es != [] {
      StepKeepsInv(s, es[0]);
      RunKeepsInv(Step(s, es[0]), es[1..]);
    }
  }

  lemma ReachableKeepsInv(leaky: set<Lazy>, es: seq<Event>)
    requires CanRun(Init(leaky), es)
    ensures Inv(Run(Init(leaky), es))
  {
    RunKeepsInv(Init(leaky), es);
  }

  // ------------------------------------------------------------- what it buys

  predicate Creating(f: Frame, l: Lazy) {
    f.l == l && (f.at == Constructing || f.at == Storing)
  }

  /** In every interleaving, at most one call is in the creating section of a
      lazy, and between two destructions its constructor runs at most once. */
  lemma CreatesOnce(leaky: set<Lazy>, es: seq<Event>, l: Lazy)
    requires CanRun(Init(leaky), es)
    ensures var s := Run(Init(leaky), es);
      && s.built[l] <= 1
      && (forall t, i, u, j {:trigger Stack(s, t)[i], Stack(s, u)[j]} ::
            0 <= i < |Stack(s, t)| && 0 <= j < |Stack(s, u)| ==>
              Creating(Stack(s, t)[i], l) && Creating(Stack(s, u)[j], l) ==> t == u && i == j)
  {
    ReachableKeepsInv(leaky, es);
    var s := Run(Init(leaky), es);
    assert WordOk(s, l);
    forall t, i, u, j {:trigger Stack(s, t)[i], Stack(s, u)[j]}
      | 0 <= i < |Stack(s, t)| && 0 <= j < |Stack(s, u)| && Creating(Stack(s, t)[i], l) && Creating(Stack(s, u)[j], l)
      ensures t == u && i == j
    {
      assert OwnsAt(s, t, i, l) && OwnsAt(s, u, j, l);
    }
  }

  /** Every call returns its lazy's one address, and the instance there has been
      constructed and is not destroyed. */
  lemma ReturnsTheInstance(leaky: set<Lazy>, es: seq<Event>, k: nat)
    requires CanRun(Init(leaky), es) && k < |Run(Init(leaky), es).returned|
    ensures var s := Run(Init(leaky), es); var r := s.returned[k];
      r.2 == Address(r.1) && r.1 in s.alive
  {
    ReachableKeepsInv(leaky, es);
    var s := Run(Init(leaky), es);
    assert WordOk(s, s.returned[k].1);
  }

  /** When no call is under way, the at-exit stack holds exactly the
      constructed lazies that register, each of them once. */
  lemma RegistersOncePerConstruction(leaky: set<Lazy>, es: seq<Event>, l: Lazy)
    requires CanRun(Init(leaky), es) && Idle(Run(Init(leaky), es))
    ensures var s := Run(Init(leaky), es);
      && multiset(s.exits)[l] == (if l in s.leaky then 0 else s.built[l])
      && (l in s.alive <==> s.built[l] == 1)
  {
    ReachableKeepsInv(leaky, es);
    var s := Run(Init(leaky), es);
    assert WordOk(s, l);
    NoDuplicates(s.exits, l);
  }

  lemma {:induction false} NoDuplicates(r: seq<Lazy>, l: Lazy)
    requires forall i, j :: 0 <= i < j < |r| ==> r[i] != r[j]
    ensures multiset(r)[l] == if l in r then 1 else 0
  {
    if r != [] {
      NoDuplicates(r[..|r| - 1], l);
      assert r == r[..|r| - 1] + [r[|r| - 1]];
    }
  }

  /** At exit everything registered is destroyed, in the reverse of the order
      of registration, and each word is 0 again, so the lazies start over. */
  lemma ExitDestroysInReverse(leaky: set<Lazy>, es: seq<Event>)
    requires CanRun(Init(leaky), es) && Enabled(Run(Init(leaky), es), Exit)
    ensures var s := Run(Init(leaky), es); var s' := Step(s, Exit);
      && s'.destroyed == s.destroyed + AtExits.Reverse(s.exits)
      && s'.exits == []
      && (forall l :: l in s.exits ==> l in s.alive && l !in s'.alive && Word(s', l) == 0)
      && (forall l :: l in s'.alive <==> l in s.alive && l in leaky)
  {
    ReachableKeepsInv(leaky, es);
    RunKeepsLeaky(Init(leaky), es);
    var s := Run(Init(leaky), es);
    CallbacksDestroyInReverse(s);
    forall l ensures l in s.exits <==> l in s.alive && l !in leaky { assert WordOk(s, l); }
  }

  lemma {:induction false} RunKeepsLeaky(s: State, es: seq<Event>)
    requires CanRun(s, es)
    ensures Run(s, es).leaky == s.leaky
    decreases |es|
  {
    if es != [] {
      if es[0] == Exit { CallbacksDestroyInReverse(s); }
      RunKeepsLeaky(Step(s, es[0]), es[1..]);
    }
  }

  lemma InnerIsBelow(s: State, inner: Lazy, outer: Lazy) returns (i: nat, j: nat)
    requires Inv(s) && Idle(s) && (inner, outer) in s.inside && inner !in s.leaky && outer !in s.leaky
    ensures i < j < |s.exits| && s.exits[i] == inner && s.exits[j] == outer
  {
    assert WordOk(s, outer) && !HasOwner(s, outer);
    assert !Nested(s, inner, outer);
    assert RegistersBefore(s, (inner, outer).0, (inner, outer).1);
    j :| 0 <= j < |s.exits| && s.exits[j] == outer;
    i :| 0 <= i < j && s.exits[i] == inner;
  }

  lemma ReversedOrder(d: seq<Lazy>, r: seq<Lazy>, i: nat, j: nat)
    requires i < j < |r|
    ensures exists a, b :: |d| <= a < b < |d + AtExits.Reverse(r)| && (d + AtExits.Reverse(r))[a] == r[j] && (d + AtExits.Reverse(r))[b] == r[i]
  {
    var a, b := |d| + (|r| - 1 - j), |d| + (|r| - 1 - i);
    assert (d + AtExits.Reverse(r))[a] == r[j] && (d + AtExits.Reverse(r))[b] == r[i];
  }

  /** An instance created inside another's constructor outlives it: at exit the
      outer one is destroyed first. */
  lemma InnerOutlivesOuter(leaky: set<Lazy>, es: seq<Event>, inner: Lazy, outer: Lazy)
    requires CanRun(Init(leaky), es) && Enabled(Run(Init(leaky), es), Exit)
    requires (inner, outer) in Run(Init(leaky), es).inside && inner !in leaky && outer !in leaky
    ensures var s := Run(Init(leaky), es); var s' := Step(s, Exit); exists i, j ::
              |s.destroyed| <= i < j < |s'.destroyed| && s'.destroyed[i] == outer && s'.destroyed[j] == inner
  {
    ReachableKeepsInv(leaky, es);
    RunKeepsLeaky(Init(leaky), es);
    ExitDestroysInReverse(leaky, es);
    var s := Run(Init(leaky), es);
    var i, j := InnerIsBelow(s, inner, outer);
    ReversedOrder(s.destroyed, s.exits, i, j);
  }

  // -------------------------------------------------- runs, piece by piece

  ghost predicate Reaches(s: State, es: seq<Event>, s': State) {
    CanRun(s, es) && Run(s, es) == s'
  }

  lemma {:induction false} OneMore(s: State, es: seq<Event>, m: State, e: Event)
    requires Reaches(s, es, m) && Enabled(m, e)
    ensures Reaches(s, es + [e], Step(m, e))
    decreases |es|
  {
    if es == [] {
      assert Reaches(Step(s, e), [], Step(s, e));
      assert ([] + [e])[1..] == [];
    } else {
      OneMore(Step(s, es[0]), es[1..], m, e);
      assert (es + [e])[1..] == es[1..] + [e];
    }
  }

  lemma {:induction false} ReachesOn(s: State, a: seq<Event>, m: State, b: seq<Event>, s': State)
    requires Reaches(s, a, m) && Reaches(m, b, s')
    ensures Reaches(s, a + b, s')
    decreases |a|
  {
    if a == [] {
      assert a + b == b;
    } else {
      ReachesOn(Step(s, a[0]), a[1..], m, b, s');
      assert (a + b)[1..] == a[1..] + b;
    }
  }

  lemma Calls(s: State, t: Thread, l: Lazy) returns (s': State)
    requires Enabled(s, Call(t, l))
    ensures Reaches(s, [Call(t, l)], s') && s' == Step(s, Call(t, l))
    ensures Stack(s', t) == Stack(s, t) + [Frame(l, Loading)]
    ensures forall u :: u != t ==> Stack(s', u) == Stack(s, u)
  {
    s' := Step(s, Call(t, l));
    OneMore(s, [], s, Call(t, l));
    assert [] + [Call(t, l)] == [Call(t, l)];
  }

  lemma Goes(s: State, t: Thread, below: seq<Frame>, f: Frame) returns (s': State)
    requires Stack(s, t) == below + [f]
    ensures Reaches(s, [Go(t)], s') && s' == Step(s, Go(t))
    ensures forall u :: u != t ==> Stack(s', u) == Stack(s, u)
  {
    assert Top(Stack(s, t)) == f && Stack(s, t)[..|Stack(s, t)| - 1] == below;
    s' := Step(s, Go(t));
    OneMore(s, [], s, Go(t));
    assert [] + [Go(t)] == [Go(t)];
  }

  /** The load sees 0 and the compare-and-swap succeeds. */
  lemma Wins(s: State, t: Thread, l: Lazy) returns (s': State)
    requires Stack(s, t) == [Frame(l, Loading)] && Word(s, l) == 0
    ensures Reaches(s, [Go(t), Go(t)], s')
    ensures Stack(s', t) == [Frame(l, Constructing)] && (forall v :: v != t ==> Stack(s', v) == Stack(s, v))
    ensures s' == s.(stacks := s'.stacks, words := s.words[l := CREATING], built := s'.built, inside := s'.inside)
  {
    assert Stack(s, t) == [] + [Frame(l, Loading)];
    var s1 := Goes(s, t, [], Frame(l, Loading));
    assert Stack(s1, t) == [] + [Frame(l, Swapping)];
    s' := Goes(s1, t, [], Frame(l, Swapping));
    ReachesOn(s, [Go(t)], s1, [Go(t)], s');
    assert [Go(t)] + [Go(t)] == [Go(t), Go(t)];
  }
}
