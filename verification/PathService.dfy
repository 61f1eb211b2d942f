/** Models base::PathService: a cache in front of overrides and a chain of
    providers.  The file system is a parameter. */
module PathServices {

  import opened Options

  type Path = string
  type Overrides = map<int, Path>

  const DIR_CURRENT: int := 0

  /** A provider answers some keys; what it answers may depend on the overrides,
      which it sees by asking the service itself. */
  datatype Provider = Provider(func: (int, Overrides) -> Option<Path>, keyStart: int, keyEnd: int)

  /** MakeAbsoluteFilePath (empty when it fails), ReferencesParent, and whether
      a directory exists or can be created. */
  datatype FileSystem = FileSystem(absolute: Path -> Path, refersToParent: Path -> bool, canExist: Path -> bool)

  datatype State = State(
    cache: map<int, Path>,
    overrides: Overrides,
    providers: seq<Provider>,   // newest first
    cacheDisabled: bool)

  /** What the providers say: the first that answers decides, even when its
      answer is empty. */
  function FirstAnswer(providers: seq<Provider>, key: int, overrides: Overrides): Path {
    if providers == [] then ""
    else
      match providers[0].func(key, overrides)
      case Some(path) => path
      case None => FirstAnswer(providers[1..], key, overrides)
  }

  function Cleaned(fs: FileSystem, path: Path): Option<Path> {
    var clean := if path != "" && fs.refersToParent(path) then fs.absolute(path) else path;
    if clean == "" then None else Some(clean)
  }

  /** The cacheless answer. */
  function Direct(fs: FileSystem, s: State, key: int): Option<Path> {
    if key in s.overrides then Some(s.overrides[key])
    else Cleaned(fs, FirstAnswer(s.providers, key, s.overrides))
  }

  /** Get: what it returns, and the cache it leaves. */
  function GetResult(fs: FileSystem, s: State, key: int, cwd: Option<Path>): Option<Path> {
    if key == DIR_CURRENT then cwd
    else if !s.cacheDisabled && key in s.cache then Some(s.cache[key])
    else Direct(fs, s, key)
  }

  function AfterGet(fs: FileSystem, s: State, key: int): State {
    if key == DIR_CURRENT || s.cacheDisabled || key in s.cache then s
    else
      match Direct(fs, s, key)
      case None => s
      case Some(path) => s.(cache := s.cache[key := path])
  }

  /** The path an override stores, or None when it is refused. */
  function OverridePath(fs: FileSystem, path: Path, isAbsolute: bool, create: bool): Option<Path> {
    if create && !fs.canExist(path) then None
    else if isAbsolute then Some(path)
    else if fs.absolute(path) == "" then None
    else Some(fs.absolute(path))
  }

  /** When an override is refused: the directory has to exist and cannot, or the
      path has to be made absolute and cannot. */
  predicate Refused(fs: FileSystem, path: Path, isAbsolute: bool, create: bool) {
    (create && !fs.canExist(path)) || (!isAbsolute && fs.absolute(path) == "")
  }

  function AfterOverride(s: State, key: int, stored: Option<Path>): State {
    match stored
    case None => s
    case Some(path) => s.(cache := map[], overrides := s.overrides[key := path])
  }

  function AfterRemove(s: State, key: int): State {
    if key in s.overrides then s.(cache := map[], overrides := s.overrides - {key}) else s
  }

  function AfterRegister(s: State, p: Provider): State {
    s.(providers := [p] + s.providers)
  }

  class PathService {
    const fs: FileSystem
    var cache: map<int, Path>
    var overrides: Overrides
    var providers: seq<Provider>
    var cacheDisabled: bool

    function Model(): State
      reads this
    {
      State(cache, overrides, providers, cacheDisabled)
    }

    constructor (fs: FileSystem, base: seq<Provider>)
      ensures Model() == State(map[], map[], base, false) && this.fs == fs
    {
      this.fs := fs;
      cache, overrides, providers, cacheDisabled := map[], map[], base, false;
    }

    method LockedGetFromCache(key: int) returns (result: Option<Path>)
      ensures result == if !cacheDisabled && key in cache then Some(cache[key]) else None
    {
      if cacheDisabled {
        return None;
      }
      if key in cache {
        return Some(cache[key]);
      }
      return None;
    }

    method LockedGetFromOverrides(key: int) returns (result: Option<Path>)
      modifies this`cache
      ensures result == if key in overrides then Some(overrides[key]) else None
      ensures cache == if result.Some? && !cacheDisabled then old(cache)[key := result.value] else old(cache)
    {
      if key in overrides {
        if !cacheDisabled {
          cache := cache[key := overrides[key]];
        }
        return Some(overrides[key]);
      }
      return None;
    }

    /** The walk along the chain of providers. */
    method Ask(key: int) returns (path: Path)
      ensures path == FirstAnswer(providers, key, overrides)
    {
      var i := 0;
      path := "";
      while i < |providers|
        invariant i <= |providers| && path == ""
        invariant FirstAnswer(providers, key, overrides) == FirstAnswer(providers[i..], key, overrides)
      {
        var answer := providers[i].func(key, overrides);
        if answer.Some? {
          return answer.value;
        }
        i := i + 1;
      }
    }

    method Get(key: int, cwd: Option<Path>) returns (result: Option<Path>)
      modifies this`cache
      ensures result == GetResult(fs, old(Model()), key, cwd)
      ensures Model() == AfterGet(fs, old(Model()), key)
    {
      if key == DIR_CURRENT {
        return cwd;
      }
      result := LockedGetFromCache(key);
      if result.Some? {
        return;
      }
      result := LockedGetFromOverrides(key);
      if result.Some? {
        return;
      }
      var path := Ask(key);
      if path == "" {
        return None;
      }
      if fs.refersToParent(path) {
        path := fs.absolute(path);
        if path == "" {
          return None;
        }
      }
      result := Some(path);
      if !cacheDisabled {
        cache := cache[key := path];
      }
    }

    method OverrideAndCreateIfNeeded(key: int, path: Path, isAbsolute: bool, create: bool) returns (ok: bool)
      modifies this`cache, this`overrides
      ensures ok == !Refused(fs, path, isAbsolute, create)
      ensures Model() == AfterOverride(old(Model()), key, OverridePath(fs, path, isAbsolute, create))
    {
      var filePath := path;
      if create && !fs.canExist(filePath) {
        return false;
      }
      if !isAbsolute {
        filePath := fs.absolute(filePath);
        if filePath == "" {
          return false;
        }
      }
      cache := map[];
      overrides := overrides[key := filePath];
      return true;
    }

    method RemoveOverride(key: int) returns (ok: bool)
      modifies this`cache, this`overrides
      ensures ok == (key in old(overrides))
      ensures Model() == AfterRemove(old(Model()), key)
    {
      if key !in overrides {
        return false;
      }
      cache := map[];
      overrides := overrides - {key};
      return true;
    }

    method RegisterProvider(p: Provider)
      modifies this`providers
      ensures Model() == AfterRegister(old(Model()), p)
    {
      providers := [p] + providers;
    }

    method DisableCache()
      modifies this`cache, this`cacheDisabled
      ensures Model() == old(Model()).(cache := map[], cacheDisabled := true)
    {
      cache := map[];
      cacheDisabled := true;
    }
  }

  // ------------------------------------------------------------------- runs

  datatype Op =
    | Get(key: int)
    | Override(key: int, path: Path, isAbsolute: bool, create: bool)
    | RemoveOverride(key: int)
    | RegisterProvider(provider: Provider)
    | DisableCache

  function Step(fs: FileSystem, s: State, op: Op): State {
    match op
    case Get(key) => AfterGet(fs, s, key)
    case Override(key, path, isAbsolute, create) => AfterOverride(s, key, OverridePath(fs, path, isAbsolute, create))
    case RemoveOverride(key) => AfterRemove(s, key)
    case RegisterProvider(p) => AfterRegister(s, p)
    case DisableCache => s.(cache := map[], cacheDisabled := true)
  }

  function Run(fs: FileSystem, s: State, ops: seq<Op>): State
    decreases |ops|
  {
    if ops == [] then s else Run(fs, Step(fs, s, ops[0]), ops[1..])
  }

  /** A provider answers no key outside its range. */
  ghost predicate Honest(p: Provider) {
    forall key, o {:trigger p.func(key, o)} :: p.func(key, o).Some? ==> p.keyStart <= key < p.keyEnd
  }

  /** What the debug build checks of a new provider. */
  predicate Collides(p: Provider, q: Provider) {
    p.keyStart < q.keyEnd && q.keyStart < p.keyEnd
  }

  ghost predicate Fits(s: State, p: Provider) {
    Honest(p) && forall q :: q in s.providers ==> !Collides(p, q)
  }

  ghost predicate AllHonest(providers: seq<Provider>) {
    forall p :: p in providers ==> Honest(p)
  }

  ghost predicate Allowed(fs: FileSystem, s: State, ops: seq<Op>)
    decreases |ops|
  {
    ops == [] ||
    ((ops[0].RegisterProvider? ==> Fits(s, ops[0].provider)) && Allowed(fs, Step(fs, s, ops[0]), ops[1..]))
  }

  /** Every cached entry is what the overrides and providers say now. */
  ghost predicate Coherent(fs: FileSystem, s: State) {
    && (s.cacheDisabled ==> s.cache == map[])
    && (forall key :: key in s.cache ==> Direct(fs, s, key) == Some(s.cache[key]))
  }

  /** A coherent cache makes no difference to any answer. */
  lemma CoherentAnswers(fs: FileSystem, s: State, key: int, cwd: Option<Path>)
    requires Coherent(fs, s)
    ensures GetResult(fs, s, key, cwd) == if key == DIR_CURRENT then cwd else Direct(fs, s, key)
  {
  }

  lemma {:induction false} AnswererExists(providers: seq<Provider>, key: int, o: Overrides) returns (p: Provider)
    requires FirstAnswer(providers, key, o) != ""
    ensures p in providers && p.func(key, o).Some?
  {
    if providers[0].func(key, o).Some? {
      p := providers[0];
    } else {
      p := AnswererExists(providers[1..], key, o);
    }
  }

  lemma RegisterKeepsCoherence(fs: FileSystem, s: State, p: Provider)
    requires Coherent(fs, s) && AllHonest(s.providers) && Fits(s, p)
    ensures Coherent(fs, AfterRegister(s, p))
  {
    forall key | key in s.cache
      ensures Direct(fs, AfterRegister(s, p), key) == Some(s.cache[key])
    {
      assert Direct(fs, s, key) == Some(s.cache[key]);
      if key !in s.overrides {
        var q := AnswererExists(s.providers, key, s.overrides);
        assert Honest(q) && !Collides(p, q);
        assert p.func(key, s.overrides).None?;
        assert ([p] + s.providers)[1..] == s.providers;
      }
    }
  }

  lemma StepKeepsCoherence(fs: FileSystem, s: State, op: Op)
    requires Coherent(fs, s) && AllHonest(s.providers)
    requires op.RegisterProvider? ==> Fits(s, op.provider)
    ensures Coherent(fs, Step(fs, s, op)) && AllHonest(Step(fs, s, op).providers)
  {
    if op.RegisterProvider? {
      RegisterKeepsCoherence(fs, s, op.provider);
    }
  }

  /** Over every run, however its operations are ordered, Get gives the
      cacheless answer: the override if there is one, else what the first
      provider that answers says. */
  lemma {:induction false} GetIsCacheless(fs: FileSystem, s: State, ops: seq<Op>, key: int, cwd: Option<Path>)
    requires Coherent(fs, s) && AllHonest(s.providers) && Allowed(fs, s, ops)
    ensures var s' := Run(fs, s, ops);
      && Coherent(fs, s')
      && GetResult(fs, s', key, cwd) == if key == DIR_CURRENT then cwd else Direct(fs, s', key)
    decreases |ops|
  {
    if ops == [] {
      CoherentAnswers(fs, s, key, cwd);
    } else {
      StepKeepsCoherence(fs, s, ops[0]);
      GetIsCacheless(fs, Step(fs, s, ops[0]), ops[1..], key, cwd);
    }
  }

  /** A provider may ask the service for other keys before it answers.  Those
      nested calls move neither overrides nor providers, so the answer that is
      cached after them is still current. */
  lemma {:induction false} NestedGetsAreHarmless(fs: FileSystem, s: State, nested: seq<Op>, key: int)
    requires Coherent(fs, s) && AllHonest(s.providers) && !s.cacheDisabled && Direct(fs, s, key).Some?
    requires forall op :: op in nested ==> op.Get?
    ensures var s' := Run(fs, s, nested);
      && s'.overrides == s.overrides && s'.providers == s.providers && !s'.cacheDisabled
      && Coherent(fs, s'.(cache := s'.cache[key := Direct(fs, s, key).value]))
    decreases |nested|
  {
    if nested != [] {
      assert nested[0] in nested;
      NestedGetsAreHarmless(fs, Step(fs, s, nested[0]), nested[1..], key);
    }
  }

  // ------------------------------------------------------------ histories

  lemma {:induction false} RunLast(fs: FileSystem, s: State, ops: seq<Op>)
    requires ops != []
    ensures Run(fs, s, ops) == Step(fs, Run(fs, s, ops[..|ops| - 1]), ops[|ops| - 1])
    decreases |ops|
  {
    if |ops| > 1 {
      RunLast(fs, Step(fs, s, ops[0]), ops[1..]);
      assert ops[1..][..|ops| - 2] == ops[..|ops| - 1][1..];
    } else {
      assert ops[..0] == [] && ops[1..] == [];
    }
  }

  /** The state that op i of a run finds. */
  function Before(fs: FileSystem, s: State, ops: seq<Op>, i: nat): State
    requires i <= |ops|
  {
    Run(fs, s, ops[..i])
  }

  /** op, in state s, empties the cache. */
  predicate Empties(fs: FileSystem, s: State, op: Op) {
    match op
    case Override(_, path, isAbsolute, create) => OverridePath(fs, path, isAbsolute, create).Some?
    case RemoveOverride(key) => key in s.overrides
    case DisableCache => true
    case _ => false
  }

  /** Op i asked for this key, got an answer, and the cache was not emptied since. */
  ghost predicate AskedAt(fs: FileSystem, s: State, ops: seq<Op>, key: int, i: nat) {
    && i < |ops| && ops[i] == Get(key) && key != DIR_CURRENT
    && !Before(fs, s, ops, i).cacheDisabled && GetResult(fs, Before(fs, s, ops, i), key, None).Some?
    && forall j :: i < j < |ops| ==> !Empties(fs, Before(fs, s, ops, j), ops[j])
  }

  ghost predicate WasAsked(fs: FileSystem, s: State, ops: seq<Op>, key: int) {
    exists i :: AskedAt(fs, s, ops, key, i)
  }

  lemma AskedEarlier(fs: FileSystem, s: State, ops: seq<Op>, key: int)
    requires ops != []
    ensures var n := |ops| - 1;
      WasAsked(fs, s, ops, key) <==>
        AskedAt(fs, s, ops, key, n)
        || (WasAsked(fs, s, ops[..n], key) && !Empties(fs, Before(fs, s, ops, n), ops[n]))
  {
    var n := |ops| - 1;
    forall i | 0 <= i <= n ensures ops[..n][..i] == ops[..i] { }
    if WasAsked(fs, s, ops, key) && !AskedAt(fs, s, ops, key, n) {
      var i :| AskedAt(fs, s, ops, key, i);
      assert AskedAt(fs, s, ops[..n], key, i);
    }
    if WasAsked(fs, s, ops[..n], key) && !Empties(fs, Before(fs, s, ops, n), ops[n]) {
      var i :| AskedAt(fs, s, ops[..n], key, i);
      assert AskedAt(fs, s, ops, key, i);
    }
  }

  /** The cache holds exactly the keys that were asked for and answered since it
      was last emptied. */
  lemma {:induction false} CachedIffAsked(fs: FileSystem, s: State, ops: seq<Op>, key: int)
    requires s.cache == map[] && key != DIR_CURRENT
    ensures var s' := Run(fs, s, ops);
      && (key in s'.cache <==> WasAsked(fs, s, ops, key))
      && (s'.cacheDisabled ==> s'.cache == map[])
    decreases |ops|
  {
    if ops != [] {
      var n := |ops| - 1;
      CachedIffAsked(fs, s, ops[..n], key);
      RunLast(fs, s, ops);
      AskedEarlier(fs, s, ops, key);
    }
  }

  // ------------------------------------------- providers that do collide

  /** Release builds do not check ranges.  There, after any run, registering p
      makes an answer wrong exactly when the key was asked for since the cache
      was last emptied, is not overridden, and p answers it differently. */
  lemma RegisteringIsSafeIff(fs: FileSystem, base: seq<Provider>, ops: seq<Op>, p: Provider, key: int)
    requires AllHonest(base) && Allowed(fs, State(map[], map[], base, false), ops) && key != DIR_CURRENT
    ensures
      var start := State(map[], map[], base, false);
      var s := Run(fs, start, ops);
      var s' := AfterRegister(s, p);
      GetResult(fs, s', key, None) != Direct(fs, s', key) <==>
        && WasAsked(fs, start, ops, key)
        && key !in s.overrides
        && p.func(key, s.overrides).Some?
        && Cleaned(fs, p.func(key, s.overrides).value) != Direct(fs, s, key)
  {
    var start := State(map[], map[], base, false);
    GetIsCacheless(fs, start, ops, key, None);
    CachedIffAsked(fs, start, ops, key);
    var s := Run(fs, start, ops);
    assert AfterRegister(s, p).providers[1..] == s.providers;
    assert key in s.cache ==> Direct(fs, s, key) == Some(s.cache[key]);
  }

  /** With the cache off, or before anything is asked, any provider may come. */
  lemma EmptyCacheIsAlwaysSafe(fs: FileSystem, s: State, p: Provider, key: int, cwd: Option<Path>)
    requires s.cache == map[] && key != DIR_CURRENT
    ensures GetResult(fs, AfterRegister(s, p), key, cwd) == Direct(fs, AfterRegister(s, p), key)
  {
  }

  /** Otherwise the answer depends on what was asked before: the old provider's
      path sticks until some override is set or removed. */
  lemma CollisionLeavesStaleEntry(fs: FileSystem, key: int, before: Path, after: Path, cwd: Option<Path>)
    requires key != DIR_CURRENT && before != after && before != "" && after != ""
    requires !fs.refersToParent(before) && !fs.refersToParent(after)
    ensures
      var p := Provider((k, o) => if k == key then Some(before) else None, key, key + 1);
      var q := Provider((k, o) => if k == key then Some(after) else None, key, key + 1);
      var start := State(map[], map[], [p], false);
      && GetResult(fs, AfterRegister(AfterGet(fs, start, key), q), key, cwd) == Some(before)
      && GetResult(fs, AfterRegister(start, q), key, cwd) == Some(after)
  {
  }

  // ------------------------------------------------------- what it answers

  /** With ranges disjoint at most one provider answers, so the order of
      registration does not matter. */
  lemma {:induction false} OnlyAnswererDecides(providers: seq<Provider>, p: Provider, key: int, o: Overrides)
    requires AllHonest(providers) && p in providers && p.func(key, o).Some?
    requires forall q :: q in providers && q.keyStart <= key < q.keyEnd ==> q == p
    ensures FirstAnswer(providers, key, o) == p.func(key, o).value
  {
    assert Honest(p) && Honest(providers[0]);
    if providers[0].func(key, o).None? {
      assert providers[0] != p;
      OnlyAnswererDecides(providers[1..], p, key, o);
    }
  }

  // Overrides over a run.

  /** op is an accepted override of this key, and stores this path. */
  predicate Accepts(fs: FileSystem, op: Op, key: int, path: Path) {
    op.Override? && op.key == key && OverridePath(fs, op.path, op.isAbsolute, op.create) == Some(path)
  }

  /** op changes or removes the override of this key. */
  predicate Changes(fs: FileSystem, op: Op, key: int) {
    || (op.Override? && op.key == key && OverridePath(fs, op.path, op.isAbsolute, op.create).Some?)
    || op == RemoveOverride(key)
  }

  /** Op i set the override of this key, and nothing has changed it since. */
  ghost predicate Stands(fs: FileSystem, ops: seq<Op>, i: nat, key: int, path: Path) {
    i < |ops| && Accepts(fs, ops[i], key, path) && forall j :: i < j < |ops| ==> !Changes(fs, ops[j], key)
  }

  lemma {:induction false} OverridesAreHistory(fs: FileSystem, s: State, ops: seq<Op>, key: int, path: Path)
    requires s.overrides == map[]
    ensures var o := Run(fs, s, ops).overrides;
      key in o && o[key] == path <==> exists i :: Stands(fs, ops, i, key, path)
    decreases |ops|
  {
    if ops != [] {
      var n := |ops| - 1;
      OverridesAreHistory(fs, s, ops[..n], key, path);
      RunLast(fs, s, ops);
      var last := ops[n];
      if Accepts(fs, last, key, path) {
        assert Stands(fs, ops, n, key, path);
      }
      if !Changes(fs, last, key) {
        if i: nat :| Stands(fs, ops[..n], i, key, path) {
          assert Stands(fs, ops, i, key, path);
        }
        if i: nat :| Stands(fs, ops, i, key, path) {
          assert Stands(fs, ops[..n], i, key, path);
        }
      }
    }
  }

  /** Op i accepted an override given as absolute with a parent reference in it,
      of a key that Get looks up, and it still stands. */
  ghost predicate Taints(fs: FileSystem, ops: seq<Op>, i: nat) {
    && i < |ops| && ops[i].Override? && ops[i].isAbsolute && ops[i].key != DIR_CURRENT
    && fs.refersToParent(ops[i].path) && Stands(fs, ops, i, ops[i].key, ops[i].path)
  }

  ghost predicate AnswersWithParent(fs: FileSystem, s: State, key: int) {
    && key != DIR_CURRENT && GetResult(fs, s, key, None).Some?
    && fs.refersToParent(GetResult(fs, s, key, None).value)
  }

  lemma TaintIsAnswered(fs: FileSystem, s: State, ops: seq<Op>, i: nat)
    requires s.overrides == map[] && Taints(fs, ops, i) && Coherent(fs, Run(fs, s, ops))
    ensures AnswersWithParent(fs, Run(fs, s, ops), ops[i].key)
  {
    OverridesAreHistory(fs, s, ops, ops[i].key, ops[i].path);
    CoherentAnswers(fs, Run(fs, s, ops), ops[i].key, None);
  }

  lemma AnswerIsTainted(fs: FileSystem, s: State, ops: seq<Op>, key: int) returns (i: nat)
    requires s.overrides == map[] && Coherent(fs, Run(fs, s, ops)) && AnswersWithParent(fs, Run(fs, s, ops), key)
    requires forall path :: !fs.refersToParent(fs.absolute(path))
    ensures Taints(fs, ops, i)
  {
    var s' := Run(fs, s, ops);
    CoherentAnswers(fs, s', key, None);
    assert key in s'.overrides;
    OverridesAreHistory(fs, s, ops, key, s'.overrides[key]);
    i :| Stands(fs, ops, i, key, s'.overrides[key]);
  }

  /** "Make sure path service never returns a path with '..' in it": over every
      run, some Get answers with a parent reference exactly when an accepted
      override that was given as absolute, with such a path, still stands.  What
      providers say, and other overrides, are made absolute first. */
  lemma NoParentReferencesIff(fs: FileSystem, base: seq<Provider>, ops: seq<Op>)
    requires AllHonest(base) && Allowed(fs, State(map[], map[], base, false), ops)
    requires forall path :: !fs.refersToParent(fs.absolute(path))
    ensures (exists key :: AnswersWithParent(fs, Run(fs, State(map[], map[], base, false), ops), key)) <==>
            (exists i :: Taints(fs, ops, i))
  {
    var start := State(map[], map[], base, false);
    GetIsCacheless(fs, start, ops, 1, None);
    if key :| AnswersWithParent(fs, Run(fs, start, ops), key) {
      var i := AnswerIsTainted(fs, start, ops, key);
    }
    if i: nat :| Taints(fs, ops, i) {
      TaintIsAnswered(fs, start, ops, i);
    }
  }

  /** One such override is enough. */
  lemma AbsoluteOverrideIsNotCleaned(fs: FileSystem, base: seq<Provider>, key: int, path: Path)
    requires key != DIR_CURRENT && fs.refersToParent(path)
    ensures GetResult(fs, Run(fs, State(map[], map[], base, false), [Override(key, path, true, false)]), key, None)
         == Some(path)
  {
    var ops := [Override(key, path, true, false)];
    RunLast(fs, State(map[], map[], base, false), ops);
    assert ops[..0] == [];
  }

  // ------------------------------------------------ what an override is good for

  lemma {:induction false} RunCut(fs: FileSystem, s: State, a: seq<Op>, b: seq<Op>)
    ensures Run(fs, s, a + b) == Run(fs, Run(fs, s, a), b)
    decreases |a|
  {
    if a == [] {
      assert a + b == b;
    } else {
      RunCut(fs, Step(fs, s, a[0]), a[1..], b);
      assert (a + b)[1..] == a[1..] + b;
    }
  }

  /** A refused override leaves everything after it as it was, and every answer
      with it. */
  lemma RefusedOverrideChangesNothing(fs: FileSystem, s: State, before: seq<Op>, op: Op, after: seq<Op>)
    requires op.Override? && Refused(fs, op.path, op.isAbsolute, op.create)
    ensures Run(fs, s, before + [op] + after) == Run(fs, s, before + after)
  {
    RunCut(fs, s, before + [op], after);
    RunCut(fs, s, before, [op]);
    RunCut(fs, s, before, after);
    assert [op][1..] == [];
  }

  /** op overrides this key without being refused, or removes its override. */
  predicate Replaces(fs: FileSystem, op: Op, key: int) {
    || (op.Override? && op.key == key && !Refused(fs, op.path, op.isAbsolute, op.create))
    || (op.RemoveOverride? && op.key == key)
  }

  /** The override of this key is this path, and the cache does not disagree. */
  predicate Stays(s: State, key: int, path: Path) {
    key in s.overrides && s.overrides[key] == path && (key in s.cache ==> s.cache[key] == path)
  }

  lemma {:induction false} RunStays(fs: FileSystem, s: State, ops: seq<Op>, key: int, path: Path)
    requires Stays(s, key, path) && forall i :: 0 <= i < |ops| ==> !Replaces(fs, ops[i], key)
    ensures Stays(Run(fs, s, ops), key, path)
    decreases |ops|
  {
    if ops != [] {
      assert !Replaces(fs, ops[0], key);
      RunStays(fs, Step(fs, s, ops[0]), ops[1..], key, path);
    }
  }

  /** From any state, an override that is not refused is what Get answers from
      then on, made absolute unless it was given so, until the key is overridden
      again or its override removed; whatever else happens, whichever providers
      come, and with the cache on or off. */
  lemma AcceptedOverrideIsAnswered(fs: FileSystem, s: State, op: Op, after: seq<Op>, cwd: Option<Path>)
    requires op.Override? && op.key != DIR_CURRENT && !Refused(fs, op.path, op.isAbsolute, op.create)
    requires forall i :: 0 <= i < |after| ==> !Replaces(fs, after[i], op.key)
    ensures GetResult(fs, Run(fs, s, [op] + after), op.key, cwd) ==
            Some(if op.isAbsolute then op.path else fs.absolute(op.path))
  {
    var path := if op.isAbsolute then op.path else fs.absolute(op.path);
    assert ([op] + after)[1..] == after;
    RunStays(fs, Step(fs, s, op), after, op.key, path);
  }

  /** Once the override is removed, the providers answer again: over every run,
      for a key without override, the only provider in whose range it lies
      decides, and its path is made absolute if it refers to a parent. */
  lemma ProviderIsAnswered(fs: FileSystem, base: seq<Provider>, ops: seq<Op>, key: int, p: Provider)
    requires AllHonest(base) && Allowed(fs, State(map[], map[], base, false), ops) && key != DIR_CURRENT
    requires var s := Run(fs, State(map[], map[], base, false), ops);
      && key !in s.overrides && p in s.providers && p.func(key, s.overrides).Some?
      && (forall q :: q in s.providers && q.keyStart <= key < q.keyEnd ==> q == p)
    ensures var s := Run(fs, State(map[], map[], base, false), ops);
      var path, answer := p.func(key, s.overrides).value, GetResult(fs, s, key, None);
      && (path == "" ==> answer == None)
      && (path != "" && !fs.refersToParent(path) ==> answer == Some(path))
      && (path != "" && fs.refersToParent(path) ==>
            answer == if fs.absolute(path) == "" then None else Some(fs.absolute(path)))
  {
    var start := State(map[], map[], base, false);
    GetIsCacheless(fs, start, ops, key, None);
    RunKeepsHonest(fs, start, ops);
    var s := Run(fs, start, ops);
    OnlyAnswererDecides(s.providers, p, key, s.overrides);
  }

  lemma {:induction false} RunKeepsHonest(fs: FileSystem, s: State, ops: seq<Op>)
    requires AllHonest(s.providers) && Allowed(fs, s, ops)
    ensures AllHonest(Run(fs, s, ops).providers)
    decreases |ops|
  {
    if ops != [] {
      RunKeepsHonest(fs, Step(fs, s, ops[0]), ops[1..]);
    }
  }
}
