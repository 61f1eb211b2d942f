/** In which order lazy instances are destroyed, and so which of them another
    instance may rely on for as long as it lives. */
module LazyOrder {
  import AtExits
  import opened LazyInstances

  // ------------------------------------------------------- runs cut in two

  lemma {:induction false} RunCut(s: State, es: seq<Event>, i: nat)
    requires CanRun(s, es) && i <= |es|
    ensures CanRun(s, es[..i]) && CanRun(Run(s, es[..i]), es[i..])
    ensures Run(Run(s, es[..i]), es[i..]) == Run(s, es)
    decreases i
  {
    if i == 0 {
      assert es[..0] == [] && es[0..] == es;
    } else {
      RunCut(Step(s, es[0]), es[1..], i - 1);
      assert es[..i][1..] == es[1..][..i - 1] && es[1..][i - 1..] == es[i..];
    }
  }

  /** The state that event i of a run finds. */
  ghost function Before(s: State, es: seq<Event>, i: nat): State
    requires CanRun(s, es) && i <= |es|
  {
    RunCut(s, es, i);
    Run(s, es[..i])
  }

  predicate NoExit(es: seq<Event>) {
    forall i :: 0 <= i < |es| ==> es[i] != Exit
  }

  lemma NoExitFrom(es: seq<Event>, i: nat)
    requires NoExit(es) && i <= |es|
    ensures NoExit(es[i..]) && NoExit(es[..i])
  {
    var rest := es[i..];
    forall j | 0 <= j < |rest| ensures rest[j] != Exit {
      assert rest[j] == es[i + j];
    }
  }

  /** Between two exits the at-exit stack only grows. */
  lemma {:induction false} ExitsGrow(s: State, es: seq<Event>)
    requires CanRun(s, es) && NoExit(es)
    ensures s.exits <= Run(s, es).exits
    decreases |es|
  {
    if es != [] {
      assert es[0] != Exit;
      NoExitFrom(es, 1);
      ExitsGrow(Step(s, es[0]), es[1..]);
      PrefixOfPrefix(s.exits, Step(s, es[0]).exits, Run(s, es).exits);
    }
  }

  lemma PrefixOfPrefix(a: seq<Lazy>, b: seq<Lazy>, c: seq<Lazy>)
    requires a <= b <= c
    ensures a <= c
  {
  }

  // -------------------------------------------------- the order of destruction

  /** Event i registers k, and no exit comes after it. */
  ghost predicate RegistersAt(s: State, es: seq<Event>, i: nat, k: Lazy)
    requires CanRun(s, es)
  {
    && i < |es| && NoExit(es[i..]) && es[i].Go?
    && Stack(Before(s, es, i), es[i].t) != []
    && Top(Stack(Before(s, es, i), es[i].t)) == Frame(k, Registering)
  }

  /** b is destroyed after a by the exit that comes next. */
  ghost predicate DiesAfter(s: State, b: Lazy, a: Lazy)
    requires Enabled(s, Exit)
  {
    exists i, j :: |s.destroyed| <= i < j < |Step(s, Exit).destroyed|
                && Step(s, Exit).destroyed[i] == a && Step(s, Exit).destroyed[j] == b
  }

  ghost predicate Below(r: seq<Lazy>, b: Lazy, a: Lazy) {
    exists i, j :: 0 <= i < j < |r| && r[i] == b && r[j] == a
  }

  /** The same for d followed by r in reverse. */
  ghost predicate Later(d: seq<Lazy>, end: seq<Lazy>, b: Lazy, a: Lazy) {
    exists i, j :: |d| <= i < j < |end| && end[i] == a && end[j] == b
  }

  lemma LaterIsBelow(d: seq<Lazy>, r: seq<Lazy>, b: Lazy, a: Lazy)
    requires Later(d, d + AtExits.Reverse(r), b, a)
    ensures Below(r, b, a)
  {
    var end := d + AtExits.Reverse(r);
    var i, j :| |d| <= i < j < |end| && end[i] == a && end[j] == b;
    assert AtExits.Reverse(r)[i - |d|] == a && AtExits.Reverse(r)[j - |d|] == b;
    assert r[|r| - 1 - (j - |d|)] == b && r[|r| - 1 - (i - |d|)] == a;
  }

  lemma BelowIsLater(d: seq<Lazy>, r: seq<Lazy>, b: Lazy, a: Lazy)
    requires Below(r, b, a)
    ensures Later(d, d + AtExits.Reverse(r), b, a)
  {
    var end := d + AtExits.Reverse(r);
    var i, j :| 0 <= i < j < |r| && r[i] == b && r[j] == a;
    assert end[|d| + (|r| - 1 - j)] == a && end[|d| + (|r| - 1 - i)] == b;
  }

  lemma DiesAfterIffBelow(s: State, b: Lazy, a: Lazy)
    requires Enabled(s, Exit)
    ensures DiesAfter(s, b, a) <==> Below(s.exits, b, a)
  {
    CallbacksDestroyInReverse(s);
    assert DiesAfter(s, b, a) <==> Later(s.destroyed, Step(s, Exit).destroyed, b, a);
    if DiesAfter(s, b, a) { LaterIsBelow(s.destroyed, s.exits, b, a); }
    if Below(s.exits, b, a) { BelowIsLater(s.destroyed, s.exits, b, a); }
  }

  lemma BelowIffBefore(r: seq<Lazy>, early: seq<Lazy>, b: Lazy, a: Lazy)
    requires forall i, j :: 0 <= i < j < |r| ==> r[i] != r[j]
    requires early + [a] <= r && b != a
    ensures Below(r, b, a) <==> b in early
  {
    assert r[|early|] == a;
    if Below(r, b, a) {
      var i, j :| 0 <= i < j < |r| && r[i] == b && r[j] == a;
      OneIndex(r, j, |early|);
      assert early[i] == r[i];
    }
    if b in early {
      var i :| 0 <= i < |early| && early[i] == b;
      assert r[i] == b;
    }
  }

  lemma OneIndex(r: seq<Lazy>, i: nat, j: nat)
    requires forall m, n :: 0 <= m < n < |r| ==> r[m] != r[n]
    requires i < |r| && j < |r| && r[i] == r[j]
    ensures i == j
  {
  }

  lemma RegisterPushes(s: State, es: seq<Event>, i: nat, k: Lazy)
    requires Inv(s) && CanRun(s, es) && RegistersAt(s, es, i, k)
    ensures Before(s, es, i).exits + [k] <= Run(s, es).exits
  {
    RunCut(s, es, i);
    var m := Before(s, es, i);
    RunKeepsInv(s, es[..i]);
    RegisterFacts(m, es[i].t);
    assert es[i..][0] == es[i] && es[i..][1..] == es[i + 1..];
    NoExitFrom(es[i..], 1);
    ExitsGrow(Step(m, es[i]), es[i + 1..]);
  }

  /** Exactly which registered instance outlives which: at exit l is destroyed
      after k if and only if l was already registered when k was. */
  lemma DiesAfterIffRegisteredBefore(leaky: set<Lazy>, es: seq<Event>, i: nat, k: Lazy, l: Lazy)
    requires CanRun(Init(leaky), es) && Enabled(Run(Init(leaky), es), Exit)
    requires RegistersAt(Init(leaky), es, i, k) && l != k
    ensures DiesAfter(Run(Init(leaky), es), l, k) <==> l in Before(Init(leaky), es, i).exits
  {
    ReachableKeepsInv(leaky, es);
    RegisterPushes(Init(leaky), es, i, k);
    DiesAfterIffBelow(Run(Init(leaky), es), l, k);
    BelowIffBefore(Run(Init(leaky), es).exits, Before(Init(leaky), es, i).exits, l, k);
  }

  /** What is on the stack at exit was put there by some such event. */
  lemma {:induction false} RegistrationExists(s: State, es: seq<Event>, k: Lazy) returns (i: nat)
    requires Inv(s) && CanRun(s, es) && NoExit(es) && k !in s.exits && k in Run(s, es).exits
    ensures RegistersAt(s, es, i, k)
    decreases |es|
  {
    var n := Step(s, es[0]);
    StepKeepsInv(s, es[0]);
    assert es[0] != Exit;
    if k in n.exits {
      i := 0;
      assert es[0..] == es && es[..0] == [];
      assert Before(s, es, 0) == s;
    } else {
      NoExitFrom(es, 1);
      var j := RegistrationExists(n, es[1..], k);
      i := j + 1;
      LaterEvent(s, es, j, k);
    }
  }

  lemma LaterEvent(s: State, es: seq<Event>, j: nat, k: Lazy)
    requires CanRun(s, es) && es != [] && RegistersAt(Step(s, es[0]), es[1..], j, k)
    ensures RegistersAt(s, es, j + 1, k)
  {
    assert es[1..][j..] == es[j + 1..] && es[1..][j] == es[j + 1];
    assert es[..j + 1][0] == es[0] && es[..j + 1][1..] == es[1..][..j];
    assert Before(s, es, j + 1) == Before(Step(s, es[0]), es[1..], j);
  }

  /** What a constructor may rely on.  If l is registered, and not merely
      published, when the constructor of k asks for it, l outlives k. */
  lemma UsedWhenRegisteredOutlives(leaky: set<Lazy>, es: seq<Event>, c: nat, k: Lazy, l: Lazy)
    requires CanRun(Init(leaky), es) && Enabled(Run(Init(leaky), es), Exit)
    requires c < |es| && NoExit(es[c..]) && es[c].Call? && es[c].l == l
    requires var st := Stack(Before(Init(leaky), es, c), es[c].t); st != [] && Top(st) == Frame(k, Constructing)
    requires l in Before(Init(leaky), es, c).exits && k in Run(Init(leaky), es).exits
    ensures DiesAfter(Run(Init(leaky), es), l, k)
  {
    var start := Init(leaky);
    RunCut(start, es, c);
    ReachableKeepsInv(leaky, es[..c]);
    RegisteredOutlives(Before(start, es, c), es[c..], es[c].t, k, l);
  }

  lemma RegisteredOutlives(m: State, es: seq<Event>, t: Thread, k: Lazy, l: Lazy)
    requires Inv(m) && CanRun(m, es) && NoExit(es) && Enabled(Run(m, es), Exit)
    requires Stack(m, t) != [] && Top(Stack(m, t)) == Frame(k, Constructing)
    requires l in m.exits && k in Run(m, es).exits
    ensures DiesAfter(Run(m, es), l, k)
  {
    assert Knows(m, Stack(m, t)[|Stack(m, t)| - 1]);
    CreatingIsNotRegistered(m, k);
    var j := RegistrationExists(m, es, k);
    StillRegistered(m, es, j, l);
    RegisterPushes(m, es, j, k);
    RunKeepsInv(m, es);
    DiesAfterIffBelow(Run(m, es), l, k);
    BelowIffBefore(Run(m, es).exits, Before(m, es, j).exits, l, k);
  }

  lemma StillRegistered(m: State, es: seq<Event>, j: nat, l: Lazy)
    requires CanRun(m, es) && NoExit(es) && j <= |es| && l in m.exits
    ensures l in Before(m, es, j).exits
  {
    RunCut(m, es, j);
    NoExitFrom(es, j);
    ExitsGrow(m, es[..j]);
    var i :| 0 <= i < |m.exits| && m.exits[i] == l;
    assert Before(m, es, j).exits[i] == l;
  }

  // ------------------------------------------------- where the guarantee ends

  /** A lazy whose word is published is returned to whoever asks. */
  lemma UsesPublished(s: State, u: Thread, l: Lazy) returns (s': State)
    requires Enabled(s, Call(u, l)) && Word(s, l) == Address(l)
    ensures Reaches(s, [Call(u, l), Go(u), Go(u)], s')
    ensures s'.returned == s.returned + [(u, l, Address(l))]
    ensures s' == s.(stacks := s'.stacks, returned := s'.returned)
    ensures forall v :: Stack(s', v) == Stack(s, v)
  {
    var st := Stack(s, u);
    var s1 := Calls(s, u, l);
    var s2 := Goes(s1, u, st, Frame(l, Loading));
    assert Stack(s2, u) == st + [Frame(l, Returning)];
    s' := Goes(s2, u, st, Frame(l, Returning));
    ReachesOn(s1, [Go(u)], s2, [Go(u)], s');
    ReachesOn(s, [Call(u, l)], s1, [Go(u)] + [Go(u)], s');
    assert [Call(u, l)] + ([Go(u)] + [Go(u)]) == [Call(u, l), Go(u), Go(u)];
  }

  /** A thread whose constructor of k has nothing more to do registers k. */
  lemma FinishesAndRegisters(s: State, u: Thread, k: Lazy, below: seq<Frame>) returns (s': State)
    requires Stack(s, u) == below + [Frame(k, Constructing)] && k !in s.leaky
    ensures Reaches(s, [Go(u), Go(u), Go(u)], s')
    ensures s'.exits == s.exits + [k] && s'.returned == s.returned
    ensures forall v :: v != u ==> Stack(s', v) == Stack(s, v)
  {
    var s1 := Goes(s, u, below, Frame(k, Constructing));
    assert Stack(s1, u) == below + [Frame(k, Storing)];
    var s2 := Goes(s1, u, below, Frame(k, Storing));
    assert Stack(s2, u) == below + [Frame(k, Registering)];
    s' := Goes(s2, u, below, Frame(k, Registering));
    ReachesOn(s1, [Go(u)], s2, [Go(u)], s');
    ReachesOn(s, [Go(u)], s1, [Go(u)] + [Go(u)], s');
    assert [Go(u)] + ([Go(u)] + [Go(u)]) == [Go(u), Go(u), Go(u)];
  }

  /** The constructor of k uses l, which is published, and k is registered. */
  lemma UsesAndRegisters(s: State, l: Lazy, u: Thread, k: Lazy) returns (es: seq<Event>, s': State)
    requires Stack(s, u) != [] && Top(Stack(s, u)) == Frame(k, Constructing) && k !in s.leaky
    requires Word(s, l) == Address(l)
    ensures Reaches(s, es, s')
    ensures s'.returned == s.returned + [(u, l, Address(l))] && s'.exits == s.exits + [k]
    ensures forall v :: v != u ==> Stack(s', v) == Stack(s, v)
  {
    var m := UsesPublished(s, u, l);
    var below := Stack(s, u)[..|Stack(s, u)| - 1];
    assert Stack(s, u) == below + [Frame(k, Constructing)];
    s' := FinishesAndRegisters(m, u, k, below);
    ReachesOn(s, [Call(u, l), Go(u), Go(u)], m, [Go(u), Go(u), Go(u)], s');
    es := [Call(u, l), Go(u), Go(u)] + [Go(u), Go(u), Go(u)];
  }

  /** "Created inside" cannot be weakened to "used inside".  Whenever thread t
      has published l and not yet registered it, a constructor of k that
      another thread is running can use l and finish, and only then is l
      registered: l goes above k on the at-exit stack, so l is destroyed while
      k, whose constructor relied on it, is still alive. */
  lemma UsedInsideMayDieFirst(s: State, t: Thread, l: Lazy, u: Thread, k: Lazy) returns (es: seq<Event>)
    requires Inv(s) && t != u && Stack(s, t) != [] && Top(Stack(s, t)) == Frame(l, Registering)
    requires Stack(s, u) != [] && Top(Stack(s, u)) == Frame(k, Constructing) && k !in s.leaky
    ensures CanRun(s, es)
    ensures Run(s, es).returned == s.returned + [(u, l, Address(l))]
    ensures Run(s, es).exits == s.exits + [k, l]
  {
    var below := Stack(s, t)[..|Stack(s, t)| - 1];
    assert Knows(s, Stack(s, t)[|Stack(s, t)| - 1]);
    var first, m := UsesAndRegisters(s, l, u, k);
    assert Stack(m, t) == below + [Frame(l, Registering)];
    var s' := Goes(m, t, below, Frame(l, Registering));
    ReachesOn(s, first, m, [Go(t)], s');
    es := first + [Go(t)];
  }

  /** An idle thread creates l and stops before it registers it. */
  lemma Publishes(s: State, t: Thread, l: Lazy) returns (s': State)
    requires Stack(s, t) == [] && Word(s, l) == 0 && l !in s.leaky
    ensures Reaches(s, [Call(t, l)] + ([Go(t), Go(t)] + [Go(t), Go(t)]), s')
    ensures Stack(s', t) == [Frame(l, Registering)] && (forall v :: v != t ==> Stack(s', v) == Stack(s, v))
    ensures s' == s.(stacks := s'.stacks, words := s'.words, built := s'.built, inside := s'.inside, alive := s'.alive)
    ensures forall m :: m != l ==> Word(s', m) == Word(s, m)
  {
    var s1 := Calls(s, t, l);
    var s2 := Wins(s1, t, l);
    var s3 := Goes(s2, t, [], Frame(l, Constructing));
    assert Stack(s3, t) == [] + [Frame(l, Storing)];
    s' := Goes(s3, t, [], Frame(l, Storing));
    ReachesOn(s2, [Go(t)], s3, [Go(t)], s');
    assert [Go(t)] + [Go(t)] == [Go(t), Go(t)];
    ReachesOn(s1, [Go(t), Go(t)], s2, [Go(t), Go(t)], s');
    ReachesOn(s, [Call(t, l)], s1, [Go(t), Go(t)] + [Go(t), Go(t)], s');
  }

  /** Such a run exists for any two lazies and any two threads. */
  lemma UsedInsideDoesDieFirst(t: Thread, l: Lazy, u: Thread, k: Lazy) returns (es: seq<Event>)
    requires t != u && l != k
    ensures CanRun(Init({}), es)
    ensures Run(Init({}), es).returned == [(u, l, Address(l))] && Run(Init({}), es).exits == [k, l]
  {
    var s0 := Init({});
    var s1 := Publishes(s0, t, l);
    var s2 := Calls(s1, u, k);
    assert Word(s1, k) == Word(s0, k) == 0 && s2.words == s1.words;
    assert Stack(s2, u) == [Frame(k, Loading)] && Word(s2, k) == 0;
    var s3 := Wins(s2, u, k);
    var a := [Call(t, l)] + ([Go(t), Go(t)] + [Go(t), Go(t)]);
    ReachesOn(s1, [Call(u, k)], s2, [Go(u), Go(u)], s3);
    ReachesOn(s0, a, s1, [Call(u, k)] + [Go(u), Go(u)], s3);
    ReachableKeepsInv({}, a + ([Call(u, k)] + [Go(u), Go(u)]));
    var more := UsedInsideMayDieFirst(s3, t, l, u, k);
    ReachesOn(s0, a + ([Call(u, k)] + [Go(u), Go(u)]), s3, more, Run(s3, more));
    es := a + ([Call(u, k)] + [Go(u), Go(u)]) + more;
  }
}
