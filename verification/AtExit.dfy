/** Models base::AtExitManager: a stack of managers, each with a stack of
    tasks, and the loop that runs those of the newest one. */
module AtExits {

  type Task = nat

  /** What a task registers when it runs, oldest first. */
  type Registers = Task -> seq<Task>

  /** The global state: managers, oldest first (g_top_manager is the last), each
      the stack of its tasks, newest last; and what became of them. */
  datatype State = State(
    managers: seq<seq<Task>>,
    processing: seq<bool>,       // processing_callbacks_ of each
    disabled: bool,              // g_disable_managers
    ran: seq<Task>,              // every run, in order
    lost: seq<Task>)             // dropped unrun, with their manager or for want of one

  datatype Op = NewManager | RegisterTask(task: Task) | ProcessCallbacksNow | DisableAll | DeleteManager

  function Init(): State {
    State([], [], false, [], [])
  }

  function Reverse<T>(s: seq<T>): (r: seq<T>)
    ensures |r| == |s| && forall i :: 0 <= i < |s| ==> r[i] == s[|s| - 1 - i]
  {
    seq(|s|, i requires 0 <= i < |s| => s[|s| - 1 - i])
  }

  /** Everything a list of tasks registers, when run in this order. */
  function Registered(reg: Registers, tasks: seq<Task>): seq<Task> {
    if tasks == [] then [] else Registered(reg, tasks[..|tasks| - 1]) + reg(tasks[|tasks| - 1])
  }

  function Top(s: State): seq<Task>
    requires s.managers != []
  {
    s.managers[|s.managers| - 1]
  }

  function WithTop(s: State, tasks: seq<Task>): State
    requires s.managers != []
  {
    s.(managers := s.managers[|s.managers| - 1 := tasks])
  }

  function Marked(processing: seq<bool>): (p: seq<bool>)
    ensures |p| == |processing|
  {
    if processing == [] then [] else processing[|processing| - 1 := true]
  }

  function Register(s: State, task: Task): State {
    if s.managers == [] then s.(lost := s.lost + [task]) else WithTop(s, Top(s) + [task])
  }

  /** Every task of the newest manager runs, newest first; what they register
      replaces them and waits for the next call. */
  function Process(s: State, reg: Registers): State {
    if s.managers == [] then s
    else
      WithTop(s, Registered(reg, Reverse(Top(s))))
        .(ran := s.ran + Reverse(Top(s)), processing := Marked(s.processing))
  }

  /** The newest manager goes, with what it still holds. */
  function Dropped(s: State): State
    requires s.managers != []
  {
    s.(managers := s.managers[..|s.managers| - 1], lost := s.lost + Top(s),
       processing := if s.processing == [] then [] else s.processing[..|s.processing| - 1])
  }

  function Delete(s: State, reg: Registers): State {
    if s.managers == [] then s else Dropped(if s.disabled then s else Process(s, reg))
  }

  function Step(s: State, reg: Registers, op: Op): State {
    match op
    case NewManager => s.(managers := s.managers + [[]], processing := s.processing + [false])
    case RegisterTask(task) => Register(s, task)
    case ProcessCallbacksNow => Process(s, reg)
    case DisableAll => s.(disabled := true)
    case DeleteManager => Delete(s, reg)
  }

  function Run(s: State, reg: Registers, ops: seq<Op>): State
    decreases |ops|
  {
    if ops == [] then s else Run(Step(s, reg, ops[0]), reg, ops[1..])
  }

  /** The managers themselves. */
  class AtExitManagers {
    const reg: Registers
    var managers: seq<seq<Task>>
    var processing: seq<bool>
    var disabled: bool
    var ran: seq<Task>
    var lost: seq<Task>

    function Model(): State
      reads this
    {
      State(managers, processing, disabled, ran, lost)
    }

    constructor (reg: Registers)
      ensures Model() == Init() && this.reg == reg
    {
      this.reg := reg;
      managers, processing, disabled, ran, lost := [], [], false, [], [];
    }

    method NewManager()
      modifies this
      ensures Model() == Step(old(Model()), reg, Op.NewManager)
    {
      managers, processing := managers + [[]], processing + [false];
    }

    method RegisterTask(task: Task)
      modifies this
      ensures Model() == Step(old(Model()), reg, Op.RegisterTask(task))
    {
      if managers == [] {
        lost := lost + [task];
        return;
      }
      managers := managers[|managers| - 1 := managers[|managers| - 1] + [task]];
    }

    /** Closure::Run, for a task that calls RegisterTask. */
    method RunTask(task: Task)
      requires managers != []
      modifies this
      ensures Model() == WithTop(old(Model()), Top(old(Model())) + reg(task)).(ran := old(ran) + [task])
    {
      ran := ran + [task];
      var more := reg(task);
      ghost var was := managers;
      var i := 0;
      assert was[|was| - 1] + more[..0] == was[|was| - 1];
      while i < |more|
        invariant i <= |more| && |managers| == |was|
        invariant managers == was[|was| - 1 := was[|was| - 1] + more[..i]]
        invariant disabled == old(disabled) && ran == old(ran) + [task] && lost == old(lost)
        invariant processing == old(processing)
      {
        RegisterTask(more[i]);
        assert more[..i + 1] == more[..i] + [more[i]];
        assert (was[|was| - 1] + more[..i]) + [more[i]] == was[|was| - 1] + more[..i + 1];
        i := i + 1;
      }
      assert more[..i] == more;
    }

    method ProcessCallbacksNow()
      modifies this
      ensures Model() == Step(old(Model()), reg, Op.ProcessCallbacksNow)
    {
      if managers == [] {
        return;
      }
      ghost var s := Model();
      var tasks := managers[|managers| - 1];
      managers := managers[|managers| - 1 := []];
      processing := Marked(processing);
      ghost var done: seq<Task> := [];
      while tasks != []
        invariant managers != [] && done + Reverse(tasks) == Reverse(Top(s))
        invariant Model() == WithTop(s, Registered(reg, done)).(ran := s.ran + done, processing := Marked(s.processing))
        decreases |tasks|
      {
        var task := tasks[|tasks| - 1];
        RunTask(task);
        ghost var was := done;
        done := done + [task];
        assert done[..|done| - 1] == was;
        assert s.ran + was + [task] == s.ran + done;
        assert Reverse(tasks) == [task] + Reverse(tasks[..|tasks| - 1]);
        assert was + ([task] + Reverse(tasks[..|tasks| - 1])) == done + Reverse(tasks[..|tasks| - 1]);
        tasks := tasks[..|tasks| - 1];
      }
      assert done == Reverse(Top(s));
    }

    method DisableAllAtExitManagers()
      modifies this
      ensures Model() == Step(old(Model()), reg, DisableAll)
    {
      disabled := true;
    }

    /** ~AtExitManager of the newest manager. */
    method DeleteManager()
      modifies this
      ensures Model() == Step(old(Model()), reg, Op.DeleteManager)
    {
      if managers == [] {
        return;
      }
      if !disabled {
        ProcessCallbacksNow();
      }
      lost := lost + managers[|managers| - 1];
      managers := managers[..|managers| - 1];
      processing := if processing == [] then [] else processing[..|processing| - 1];
    }
  }

  // -------------------------------------------------------------- conservation

  function Flat(m: seq<seq<Task>>): seq<Task> {
    if m == [] then [] else Flat(m[..|m| - 1]) + m[|m| - 1]
  }

  /** Every task that was ever handed to RegisterTask during a run, by a caller
      or by a task that ran. */
  function Handed(s: State, reg: Registers, ops: seq<Op>): multiset<Task>
    decreases |ops|
  {
    if ops == [] then multiset{}
    else HandedBy(s, reg, ops[0]) + Handed(Step(s, reg, ops[0]), reg, ops[1..])
  }

  function HandedBy(s: State, reg: Registers, op: Op): multiset<Task> {
    match op
    case NewManager => multiset{}
    case RegisterTask(task) => multiset{task}
    case DisableAll => multiset{}
    case ProcessCallbacksNow => HandedByProcess(s, reg)
    case DeleteManager => if s.disabled then multiset{} else HandedByProcess(s, reg)
  }

  function HandedByProcess(s: State, reg: Registers): multiset<Task> {
    if s.managers == [] then multiset{} else multiset(Registered(reg, Reverse(Top(s))))
  }

  /** Where each task now is. */
  function Accounted(s: State): multiset<Task> {
    multiset(s.ran) + multiset(s.lost) + multiset(Flat(s.managers))
  }

  lemma {:induction false} ReverseKeepsElements(s: seq<Task>)
    ensures multiset(Reverse(s)) == multiset(s)
  {
    if s != [] {
      ReverseKeepsElements(s[..|s| - 1]);
      assert s == s[..|s| - 1] + [s[|s| - 1]];
      assert Reverse(s) == [s[|s| - 1]] + Reverse(s[..|s| - 1]);
    }
  }

  lemma FlatTop(m: seq<seq<Task>>, tasks: seq<Task>)
    requires m != []
    ensures Flat(m) == Flat(m[..|m| - 1]) + m[|m| - 1]
    ensures Flat(m[|m| - 1 := tasks]) == Flat(m[..|m| - 1]) + tasks
  {
    assert m[|m| - 1 := tasks][..|m| - 1] == m[..|m| - 1];
  }

  lemma Concat(a: seq<Task>, b: seq<Task>)
    ensures multiset(a + b) == multiset(a) + multiset(b)
  {
  }

  lemma Exchange(ran: multiset<Task>, lost: multiset<Task>, below: multiset<Task>, top: multiset<Task>,
                 more: multiset<Task>)
    ensures (ran + top) + lost + (below + more) == (ran + lost + (below + top)) + more
  {
  }

  /** s's tasks, with the newest manager's apart. */
  lemma AccountedByTop(s: State, tasks: seq<Task>)
    requires s.managers != []
    ensures var below := multiset(Flat(s.managers[..|s.managers| - 1]));
      && Accounted(s) == multiset(s.ran) + multiset(s.lost) + (below + multiset(Top(s)))
      && multiset(Flat(WithTop(s, tasks).managers)) == below + multiset(tasks)
  {
    FlatTop(s.managers, tasks);
    Concat(Flat(s.managers[..|s.managers| - 1]), Top(s));
    Concat(Flat(s.managers[..|s.managers| - 1]), tasks);
  }

  lemma ProcessAccounts(s: State, reg: Registers)
    ensures Accounted(Process(s, reg)) == Accounted(s) + HandedByProcess(s, reg)
  {
    if s.managers != [] {
      var more := Registered(reg, Reverse(Top(s)));
      AccountedByTop(s, more);
      ReverseKeepsElements(Top(s));
      Concat(s.ran, Reverse(Top(s)));
      Exchange(multiset(s.ran), multiset(s.lost), multiset(Flat(s.managers[..|s.managers| - 1])), multiset(Top(s)),
               multiset(more));
    }
  }

  lemma RegisterAccounts(s: State, task: Task)
    ensures Accounted(Register(s, task)) == Accounted(s) + multiset{task}
  {
    if s.managers != [] {
      AccountedByTop(s, Top(s) + [task]);
      Concat(Top(s), [task]);
    } else {
      Concat(s.lost, [task]);
    }
  }

  lemma DropAccounts(s: State)
    requires s.managers != []
    ensures Accounted(Dropped(s)) == Accounted(s)
  {
    AccountedByTop(s, []);
    Concat(s.lost, Top(s));
  }

  lemma NewManagerAccounts(s: State)
    ensures Accounted(s.(managers := s.managers + [[]], processing := s.processing + [false])) == Accounted(s)
  {
    assert (s.managers + [[]])[..|s.managers|] == s.managers;
    assert Flat(s.managers + [[]]) == Flat(s.managers) + [];
  }

  lemma DeleteAccounts(s: State, reg: Registers)
    ensures Accounted(Delete(s, reg)) == Accounted(s) + HandedBy(s, reg, DeleteManager)
  {
    if s.managers != [] {
      ProcessAccounts(s, reg);
      DropAccounts(if s.disabled then s else Process(s, reg));
    }
  }

  lemma StepAccounts(s: State, reg: Registers, op: Op)
    ensures Accounted(Step(s, reg, op)) == Accounted(s) + HandedBy(s, reg, op)
  {
    match op
    case NewManager => NewManagerAccounts(s);
    case RegisterTask(task) => RegisterAccounts(s, task);
    case ProcessCallbacksNow => ProcessAccounts(s, reg);
    case DisableAll => assert Accounted(s.(disabled := true)) == Accounted(s);
    case DeleteManager => DeleteAccounts(s, reg);
  }

  /** Over every run, each registration is accounted for exactly once: it has
      run, or waits in some manager, or was lost.  In particular nothing runs
      twice for one registration. */
  lemma {:induction false} EveryTaskIsAccountedFor(s: State, reg: Registers, ops: seq<Op>)
    ensures Accounted(Run(s, reg, ops)) == Accounted(s) + Handed(s, reg, ops)
    decreases |ops|
  {
    if ops != [] {
      StepAccounts(s, reg, ops[0]);
      EveryTaskIsAccountedFor(Step(s, reg, ops[0]), reg, ops[1..]);
    }
  }

  /** Tasks registered one after another with one manager run in reverse. */
  lemma {:induction false} LastInFirstOut(s: State, reg: Registers, tasks: seq<Task>)
    requires s.managers != []
    ensures
      var ops := seq(|tasks|, i requires 0 <= i < |tasks| => RegisterTask(tasks[i]));
      && Run(s, reg, ops) == WithTop(s, Top(s) + tasks)
      && Process(Run(s, reg, ops), reg).ran == s.ran + (Reverse(tasks) + Reverse(Top(s)))
    decreases |tasks|
  {
    var ops := seq(|tasks|, i requires 0 <= i < |tasks| => RegisterTask(tasks[i]));
    if tasks == [] {
      assert Top(s) + tasks == Top(s);
      assert WithTop(s, Top(s)).managers == s.managers;
    } else {
      var rest := tasks[1..];
      var s1 := Register(s, tasks[0]);
      LastInFirstOut(s1, reg, rest);
      assert ops[1..] == seq(|rest|, i requires 0 <= i < |rest| => RegisterTask(rest[i]));
      assert (Top(s) + [tasks[0]]) + rest == Top(s) + tasks;
      assert WithTop(s1, Top(s) + tasks).managers == WithTop(s, Top(s) + tasks).managers;
    }
    assert Reverse(Top(s) + tasks) == Reverse(tasks) + Reverse(Top(s));
  }

  /** What was lost stays lost. */
  lemma {:induction false} LostStaysLost(s: State, reg: Registers, ops: seq<Op>)
    ensures s.lost <= Run(s, reg, ops).lost
    decreases |ops|
  {
    if ops != [] {
      LostStaysLost(Step(s, reg, ops[0]), reg, ops[1..]);
    }
  }

  /** A task that is handed in once over a whole run, while its manager is being
      destroyed, never runs, whatever happens afterwards. */
  lemma RegisteredAtTheEndNeverRuns(s: State, reg: Registers, ops: seq<Op>, t: Task)
    requires s.managers != [] && !s.disabled && t in Registered(reg, Reverse(Top(s)))
    requires (Accounted(s) + Handed(s, reg, [DeleteManager] + ops))[t] == 1
    ensures t !in Run(s, reg, [DeleteManager] + ops).ran
    ensures t in Run(s, reg, [DeleteManager] + ops).lost
  {
    var all := [DeleteManager] + ops;
    var s1 := Delete(s, reg);
    assert all[1..] == ops;
    assert t in s1.lost;
    LostStaysLost(s1, reg, ops);
    var end := Run(s1, reg, ops);
    assert t in end.lost by {
      var i :| 0 <= i < |s1.lost| && s1.lost[i] == t;
      assert end.lost[i] == t;
    }
    EveryTaskIsAccountedFor(s, reg, all);
    CountedOnce(end, t);
  }

  lemma CountedOnce(s: State, t: Task)
    requires Accounted(s)[t] == 1 && t in s.lost
    ensures t !in s.ran
  {
    assert multiset(s.lost)[t] >= 1;
  }

  // ------------------------------------------------------------- debug builds

  ghost predicate Sound(s: State) {
    |s.processing| == |s.managers|
  }

  /** RegisterTask passes its debug check. */
  predicate MayRegister(s: State) {
    s.managers == [] || s.processing == [] || !s.processing[|s.processing| - 1]
  }

  /** No manager below number m is deleted in this run. */
  predicate Keeps(s: State, reg: Registers, ops: seq<Op>, m: nat)
    decreases |ops|
  {
    |s.managers| > m && (ops == [] || Keeps(Step(s, reg, ops[0]), reg, ops[1..], m))
  }

  lemma StepKeepsSound(s: State, reg: Registers, op: Op)
    requires Sound(s)
    ensures Sound(Step(s, reg, op))
  {
  }

  /** The flag is never reset: a manager that has processed its callbacks once
      keeps it for as long as it lives. */
  lemma {:induction false} ProcessingIsForGood(s: State, reg: Registers, ops: seq<Op>, m: nat)
    requires Sound(s) && Keeps(s, reg, ops, m) && s.processing[m]
    ensures Sound(Run(s, reg, ops)) && m < |Run(s, reg, ops).processing| && Run(s, reg, ops).processing[m]
    decreases |ops|
  {
    if ops != [] {
      StepKeepsSound(s, reg, ops[0]);
      assert |Step(s, reg, ops[0]).managers| > m;
      ProcessingIsForGood(Step(s, reg, ops[0]), reg, ops[1..], m);
    }
  }

  /** So after ProcessCallbacksNow no registration with that manager passes the
      debug check again, while release builds take it and run it next time. */
  lemma RegisteringAfterProcessing(s: State, reg: Registers, ops: seq<Op>, task: Task)
    requires Sound(s) && s.managers != []
    requires Keeps(Process(s, reg), reg, ops, |s.managers| - 1)
    requires |Run(Process(s, reg), reg, ops).managers| == |s.managers|
    ensures var end := Run(Process(s, reg), reg, ops);
      && !MayRegister(end)
      && task in Process(Register(end, task), reg).ran
  {
    var m, p := |s.managers| - 1, Process(s, reg);
    StepKeepsSound(s, reg, ProcessCallbacksNow);
    ProcessingIsForGood(p, reg, ops, m);
    var end := Run(p, reg, ops);
    var top := Top(end) + [task];
    assert Top(Register(end, task)) == top;
    assert Reverse(top)[0] == task;
    assert (end.ran + Reverse(top))[|end.ran|] == task;
  }
}
