/** How FeatureList stores its overrides in shared memory, one pickle each, and
    restores them. */
module FeatureStore {
  import opened Ascii
  import opened Bits
  import opened FeatureText
  import opened Options
  import opened PickleFormat
  import opened PickleImage

  /** FeatureEntry with the pickle that follows it. */
  datatype FeatureEntry = FeatureEntry(state: nat, pickle: seq<byte>)

  /** The enum's numbers, and the cast back. */
  function Number(state: OverrideState): nat {
    match state
    case UseDefault => 0
    case Disable => 1
    case Enable => 2
    case Other(n) => n
  }

  function StateNumbered(n: nat): (state: OverrideState)
    ensures Number(state) == n
  {
    if n == 0 then UseDefault else if n == 1 then Disable else if n == 2 then Enable else Other(n)
  }

  function Strings(k: Text, e: Entry): seq<Value> {
    [Value.String(k)] + (if e.trial.Some? then [Value.String(e.trial.value)] else [])
  }

  predicate Storable(k: Text, e: Entry) {
    && AllFit(Strings(k, e)) && |EncodeAll(Strings(k, e))| + HEADER <= INT_MAX
    && (e.state.Other? ==> e.state.number > 2)
  }

  predicate AllStorable(o: Overrides) {
    forall k :: k in o ==> Storable(k, o[k])
  }

  /** f is what AddFeaturesToAllocator stores for feature k. */
  predicate Stores(f: FeatureEntry, k: Text, e: Entry)
    requires Storable(k, e)
  {
    && f.state == Number(e.state)
    && |f.pickle| == HEADER + |EncodeAll(Strings(k, e))|
    && IsImage(HEADER, f.pickle)
    && f.pickle[HEADER..] == EncodeAll(Strings(k, e))
  }

  /** sizeof(FeatureEntry) and the pickle's size */
  function EntrySize(k: Text, e: Entry): nat
    requires Storable(k, e)
  {
    8 + HEADER + |EncodeAll(Strings(k, e))|
  }

  /** The payload that Pickle(src, pickle_size) finds. */
  function PayloadOf(b: seq<byte>): seq<byte>
    requires |b| <= INT_MAX
  {
    var h := DeducedHeader(b, |b|);
    AcceptedIffHeaderFits(b, |b|);
    if h == 0 then [] else b[h..]
  }

  /** GetFeatureAndTrialName: a missing trial name reads as the empty one. */
  function GetNames(payload: seq<byte>): Option<(Text, Text)> {
    var (name, r1) := Read(Reader(payload, 0), KString);
    if name.None? || !name.value.String? then None
    else
      var (trial, _) := Read(r1, KString);
      Some((name.value.s, if trial.Some? && trial.value.String? then trial.value.s else []))
  }

  function RestoreOne(o: Overrides, trials: set<Text>, f: FeatureEntry): Overrides
    requires |f.pickle| <= INT_MAX
  {
    match GetNames(PayloadOf(f.pickle))
    case None => o
    case Some((name, trial)) => Register(o, name, StateNumbered(f.state), FindTrial(trials, trial))
  }

  predicate AllSized(fs: seq<FeatureEntry>) {
    forall i :: 0 <= i < |fs| ==> |fs[i].pickle| <= INT_MAX
  }

  /** InitializeFromSharedMemory of a list that has these overrides already. */
  function Restore(o: Overrides, trials: set<Text>, fs: seq<FeatureEntry>): Overrides
    requires AllSized(fs)
    decreases |fs|
  {
    if fs == [] then o else Restore(RestoreOne(o, trials, fs[0]), trials, fs[1..])
  }

  lemma StringsEncode(k: Text, e: Entry)
    requires AllFit(Strings(k, e))
    ensures EncodeAll(Strings(k, e)) ==
            Encode(Value.String(k)) + if e.trial.Some? then Encode(Value.String(e.trial.value)) else []
  {
    var vs := Strings(k, e);
    var one := [Value.String(k)];
    assert EncodeAll([]) == [] && [] + one == one;
    EncodeAllAppends([], Value.String(k));
    assert [] + Encode(Value.String(k)) == Encode(Value.String(k));
    if e.trial.Some? {
      assert Fits(vs[1]);
      EncodeAllAppends(one, Value.String(e.trial.value));
    } else {
      assert Encode(Value.String(k)) + [] == Encode(Value.String(k));
      assert vs == one;
    }
  }

  lemma NothingReads(r: Reader)
    requires Sound(r) && r.payload[r.pos..] == []
    ensures Read(r, KString).0 == None
  {
    assert |r.payload[r.pos..]| == |r.payload| - r.pos;
  }

  lemma StringReads(r: Reader, s: Text, first: seq<byte>, rest: seq<byte>) returns (r1: Reader)
    requires Fits(Value.String(s)) && first == Encode(Value.String(s)) && Sound(r)
    requires r.payload[r.pos..] == first + rest
    ensures Read(r, KString) == (Some(Value.String(s)), r1) && Sound(r1) && r1.payload[r1.pos..] == rest
  {
    FirstReads(r, Value.String(s), first, rest);
    r1 := r.(pos := r.pos + |first|);
  }

  lemma NamesRead(p: seq<byte>, k: Text, trial: Option<Text>, first: seq<byte>, rest: seq<byte>)
    requires Fits(Value.String(k)) && first == Encode(Value.String(k)) && p == first + rest
    requires trial.Some? ==> Fits(Value.String(trial.value)) && rest == Encode(Value.String(trial.value))
    requires trial.None? ==> rest == []
    ensures GetNames(p) == Some((k, if trial.Some? then trial.value else []))
  {
    assert p[0..] == p;
    var r1 := StringReads(Reader(p, 0), k, first, rest);
    if trial.Some? {
      assert rest == rest + [];
      var _ := StringReads(r1, trial.value, rest, []);
    } else {
      NothingReads(r1);
    }
  }

  /** Both names come back from the bytes. */
  lemma NamesComeBack(k: Text, e: Entry)
    requires AllFit(Strings(k, e))
    ensures GetNames(EncodeAll(Strings(k, e))) == Some((k, if e.trial.Some? then e.trial.value else []))
  {
    StringsEncode(k, e);
    assert Fits(Strings(k, e)[0]) && (e.trial.Some? ==> Fits(Strings(k, e)[1]));
    NamesRead(EncodeAll(Strings(k, e)), k, e.trial, Encode(Value.String(k)),
              if e.trial.Some? then Encode(Value.String(e.trial.value)) else []);
  }

  lemma PayloadComesBack(b: seq<byte>, payload: seq<byte>)
    requires IsImage(HEADER, b) && |b| <= INT_MAX && b[HEADER..] == payload
    ensures PayloadOf(b) == payload
  {
    ImageIsAccepted(HEADER, b);
  }

  lemma StoredEntryRestores(o: Overrides, trials: set<Text>, f: FeatureEntry, k: Text, e: Entry)
    requires Storable(k, e) && Stores(f, k, e)
    ensures RestoreOne(o, trials, f) ==
            Register(o, k, e.state, FindTrial(trials, if e.trial.Some? then e.trial.value else []))
  {
    PayloadComesBack(f.pickle, EncodeAll(Strings(k, e)));
    NamesComeBack(k, e);
    assert StateNumbered(f.state) == e.state;
  }

  /** The entries are what the features in this order store. */
  ghost predicate StoresAll(fs: seq<FeatureEntry>, o: Overrides, order: seq<Text>)
    requires AllStorable(o)
  {
    |fs| == |order| && forall i :: 0 <= i < |fs| ==> order[i] in o && Stores(fs[i], order[i], o[order[i]])
  }

  lemma StoredAreSized(fs: seq<FeatureEntry>, o: Overrides, order: seq<Text>)
    requires AllStorable(o) && StoresAll(fs, o, order)
    ensures AllSized(fs)
  {
    forall i | 0 <= i < |fs| ensures |fs[i].pickle| <= INT_MAX {
      assert Storable(order[i], o[order[i]]);
    }
  }

  /** The entry that feature k has after a restore. */
  function Restored(trials: set<Text>, e: Entry): Entry {
    var trial := FindTrial(trials, if e.trial.Some? then e.trial.value else []);
    Entry(e.state, trial, trial.Some?)
  }

  lemma RestoresOne(start: Overrides, trials: set<Text>, f: FeatureEntry, k: Text, e: Entry) returns (next: Overrides)
    requires Storable(k, e) && Stores(f, k, e) && !IsStarred(k)
    ensures next == RestoreOne(start, trials, f)
    ensures next == if k in start then start else start[k := Restored(trials, e)]
  {
    next := RestoreOne(start, trials, f);
    StoredEntryRestores(start, trials, f, k, e);
  }

  lemma RestStores(fs: seq<FeatureEntry>, o: Overrides, order: seq<Text>)
    requires AllStorable(o) && StoresAll(fs, o, order) && AllSized(fs) && fs != []
    ensures order[0] in o && Storable(order[0], o[order[0]]) && Stores(fs[0], order[0], o[order[0]])
    ensures StoresAll(fs[1..], o, order[1..]) && AllSized(fs[1..])
  {
    assert Stores(fs[0], order[0], o[order[0]]);
  }

  lemma {:induction false} RestoreIs(start: Overrides, trials: set<Text>, fs: seq<FeatureEntry>, o: Overrides,
                                     order: seq<Text>, k: Text)
    requires AllStorable(o) && StoresAll(fs, o, order) && AllSized(fs)
    requires forall x :: x in o ==> !IsStarred(x)
    ensures var r := Restore(start, trials, fs);
      && (k in r <==> k in start || k in order)
      && (k in start ==> r[k] == start[k])
      && (k in order && k !in start ==> k in o && r[k] == Restored(trials, o[k]))
    decreases |fs|
  {
    if fs != [] {
      RestStores(fs, o, order);
      var next := RestoresOne(start, trials, fs[0], order[0], o[order[0]]);
      RestoreIs(next, trials, fs[1..], o, order[1..], k);
      assert k in order <==> k == order[0] || k in order[1..];
    }
  }

  /** Shared memory gives back every override exactly when each trial is known
      and, if some trial has an empty name, each feature has a trial; a name
      needs no trimming here.  The flag is again not preserved. */
  lemma SharedMemoryRoundTripIff(trials: set<Text>, fs: seq<FeatureEntry>, o: Overrides, order: seq<Text>)
    requires AllStorable(o) && StoresAll(fs, o, order) && AllSized(fs) && Enumerates(order, o)
    requires forall x :: x in o ==> !IsStarred(x)
    ensures (forall k :: k in o ==> if o[k].trial.Some? then o[k].trial.value in trials else [] !in trials) <==>
            (forall k :: k in o ==> CameBack(o, Restore(map[], trials, fs), k))
    ensures Restore(map[], trials, fs).Keys == o.Keys
  {
    var r := Restore(map[], trials, fs);
    forall k ensures (k in r <==> k in o) && (k in o ==> r[k] == Restored(trials, o[k])) {
      RestoreIs(map[], trials, fs, o, order, k);
    }
    forall k | k in o
      ensures CameBack(o, r, k) <==> if o[k].trial.Some? then o[k].trial.value in trials else [] !in trials
    {
      assert r[k] == Restored(trials, o[k]);
    }
  }

  /** Without room for all, a prefix of the features is stored, and that prefix
      is restored; the others are simply absent. */
  lemma PartialStoreRestoresPrefix(trials: set<Text>, fs: seq<FeatureEntry>, o: Overrides, order: seq<Text>, k: Text)
    requires AllStorable(o) && |fs| <= |order| && StoresAll(fs, o, order[..|fs|]) && AllSized(fs)
    requires forall x :: x in o ==> !IsStarred(x)
    ensures k in Restore(map[], trials, fs) <==> k in order[..|fs|]
    ensures k in order[..|fs|] ==> k in o && Restore(map[], trials, fs)[k] == Restored(trials, o[k])
  {
    RestoreIs(map[], trials, fs, o, order[..|fs|], k);
  }
}
