/** Models base::FeatureList as an object: registering overrides, printing them,
    and storing them in shared memory through Pickle. */
module FeatureLists {
  import opened Ascii
  import opened Bits
  import opened FeatureStore
  import opened FeatureText
  import opened Options
  import opened PickleFormat
  import opened PickleImage
  import opened Pickles

  /** The persistent allocator: an append-only list in a bounded space. */
  class Allocator {
    var entries: seq<FeatureEntry>
    var room: nat

    constructor (room: nat)
      ensures entries == [] && this.room == room
    {
      entries := [];
      this.room := room;
    }

    /** New and MakeIterable; fails when the space is used up. */
    method Add(size: nat, f: FeatureEntry) returns (ok: bool)
      modifies this
      ensures ok == (size <= old(room))
      ensures if ok then entries == old(entries) + [f] && room == old(room) - size
              else entries == old(entries) && room == old(room)
    {
      if size > room {
        return false;
      }
      entries := entries + [f];
      room := room - size;
      return true;
    }
  }

  /** The bytes the features in this order take. */
  function RoomFor(o: Overrides, order: seq<Text>): nat
    requires AllStorable(o) && forall k :: k in order ==> k in o
  {
    if order == [] then 0 else EntrySize(order[0], o[order[0]]) + RoomFor(o, order[1..])
  }

  /** What is still to be split off, from start on. */
  function Remaining(list: Text, start: nat, more: bool): seq<Text>
    requires start <= |list|
  {
    if more then Features(list[start..]) else []
  }

  function AsList(piece: Text): seq<Text> {
    if piece == [] then [] else [piece]
  }

  lemma SplitsOff(list: Text, start: nat, rest: Text, end: nat)
    requires start <= |list| && rest == list[start..] && end == Find(rest, COMMA) < |rest|
    ensures Remaining(list, start, true) == AsList(Trim(rest[..end])) + Remaining(list, start + end + 1, true)
  {
    KeptFirst(rest, COMMA);
    assert list[start + end + 1..] == rest[end + 1..];
  }

  lemma SplitsLast(list: Text, start: nat, rest: Text)
    requires start <= |list| && rest == list[start..] && Find(rest, COMMA) == |rest|
    ensures Remaining(list, start, true) == AsList(Trim(rest[..|rest|])) + []
  {
    KeptFirst(rest, COMMA);
  }

  lemma Assoc(a: seq<Text>, b: seq<Text>, c: seq<Text>)
    ensures (a + b) + c == a + (b + c)
  {
  }

  lemma Takes(list: Text, start: nat, rest: Text, end: nat, piece: Text, next: nat, more: bool)
    requires start <= |list| && rest == list[start..] && end == Find(rest, COMMA) && piece == Trim(rest[..end])
    requires more == (end < |rest|) && next == if more then start + end + 1 else start
    ensures start <= next <= |list|
    ensures Remaining(list, start, true) == AsList(piece) + Remaining(list, next, more)
  {
    if more {
      SplitsOff(list, start, rest, end);
    } else {
      SplitsLast(list, start, rest);
    }
  }

  /** One turn of the loop: the piece at start, and where the next one starts. */
  method TakePiece(list: Text, start: nat) returns (piece: Text, next: nat, more: bool)
    requires start <= |list|
    ensures start <= next <= |list| && (more ==> start < next)
    ensures Remaining(list, start, true) == AsList(piece) + Remaining(list, next, more)
  {
    var rest := list[start..];
    var end := Find(rest, COMMA);
    piece := Trim(rest[..end]);
    more := end < |rest|;
    next := if more then start + end + 1 else start;
    Takes(list, start, rest, end, piece, next, more);
  }

  lemma Appended(result: seq<Text>, piece: Text)
    ensures result + AsList(piece) == if piece != [] then result + [piece] else result
  {
  }

  /** SplitString(list, ",", TRIM_WHITESPACE, SPLIT_WANT_NONEMPTY) */
  method SplitFeatureListString(list: Text) returns (result: seq<Text>)
    ensures result == Features(list)
  {
    result := [];
    if list == [] {
      KeptFirst(list, COMMA);
      return;
    }
    var start, more := 0, true;
    assert list[0..] == list && [] + Features(list) == Features(list);
    ghost var all := Features(list);
    while more
      invariant 0 <= start <= |list|
      invariant result + Remaining(list, start, more) == all
      decreases more, |list| - start
    {
      var piece, next, again := TakePiece(list, start);
      Assoc(result, AsList(piece), Remaining(list, next, again));
      Appended(result, piece);
      if piece != [] {
        result := result + [piece];
      }
      start, more := next, again;
    }
    assert result + [] == result;
  }

  lemma NextPiece(o: Overrides, trials: set<Text>, values: seq<Text>, i: nat, state: OverrideState)
    requires i < |values|
    ensures RegisterPieces(o, trials, values[i..], state) ==
            RegisterPieces(Register(o, PieceName(values[i]), state, PieceTrial(trials, values[i])), trials,
                           values[i + 1..], state)
  {
    assert values[i..][0] == values[i] && values[i..][1..] == values[i + 1..];
  }

  lemma NextRestored(o: Overrides, trials: set<Text>, entries: seq<FeatureEntry>, i: nat)
    requires i < |entries| && AllSized(entries)
    ensures AllSized(entries[i..]) && AllSized(entries[i + 1..]) && |entries[i].pickle| <= INT_MAX
    ensures Restore(o, trials, entries[i..]) == Restore(RestoreOne(o, trials, entries[i]), trials, entries[i + 1..])
  {
    assert entries[i..][0] == entries[i] && entries[i..][1..] == entries[i + 1..];
  }

  /** The features before i are stored and the rest has the rest of the room. */
  ghost predicate Progress(o: Overrides, order: seq<Text>, i: nat, start: seq<FeatureEntry>, added: seq<FeatureEntry>,
                           entries: seq<FeatureEntry>, room: nat, left: nat)
  {
    && AllStorable(o) && (forall k :: k in order ==> k in o) && i <= |order|
    && entries == start + added && StoresAll(added, o, order[..i])
    && RoomFor(o, order) - room == RoomFor(o, order[i..]) - left
  }

  lemma ProgressStarts(o: Overrides, order: seq<Text>, start: seq<FeatureEntry>, room: nat)
    requires AllStorable(o) && forall k :: k in order ==> k in o
    ensures Progress(o, order, 0, start, [], start, room, room)
  {
    assert order[0..] == order && start + [] == start;
  }

  lemma NextRoom(o: Overrides, order: seq<Text>, i: nat)
    requires AllStorable(o) && (forall k :: k in order ==> k in o) && i < |order|
    ensures RoomFor(o, order[i..]) == EntrySize(order[i], o[order[i]]) + RoomFor(o, order[i + 1..])
  {
    assert order[i..][0] == order[i] && order[i..][1..] == order[i + 1..];
  }

  lemma ProgressSteps(o: Overrides, order: seq<Text>, i: nat, start: seq<FeatureEntry>, added: seq<FeatureEntry>,
                      room: nat, left: nat, f: FeatureEntry)
    requires Progress(o, order, i, start, added, start + added, room, left) && i < |order|
    requires order[i] in o && Storable(order[i], o[order[i]]) && Stores(f, order[i], o[order[i]])
    ensures var size := EntrySize(order[i], o[order[i]]);
      && (size <= left ==> Progress(o, order, i + 1, start, added + [f], (start + added) + [f], room, left - size))
      && (size > left ==> RoomFor(o, order) > room)
  {
    NextRoom(o, order, i);
    assert order[..i + 1] == order[..i] + [order[i]];
    assert (start + added) + [f] == start + (added + [f]);
  }

  /** What progress means for the entries that were added. */
  lemma ProgressEnds(o: Overrides, order: seq<Text>, i: nat, start: seq<FeatureEntry>, added: seq<FeatureEntry>,
                     room: nat, left: nat)
    requires Progress(o, order, i, start, added, start + added, room, left)
    ensures (start + added)[..|start|] == start && (start + added)[|start|..] == added && |added| == i
    ensures i == |order| ==> RoomFor(o, order) <= room
  {
    assert i == |order| ==> order[i..] == [];
  }

  /** One feature, pickled. */
  method MakeEntry(k: Text, e: Entry) returns (f: FeatureEntry, size: nat)
    requires Storable(k, e)
    ensures Stores(f, k, e) && size == EntrySize(k, e)
  {
    var pickle, _ := WriteAll(HEADER, Strings(k, e));
    var data := pickle.Export();
    ghost var h := pickle.header[..];
    assert data[..][HEADER..] == h[HEADER..HEADER + pickle.writeOffset];
    f := FeatureEntry(Number(e.state), data[..]);
    size := 8 + data.Length;
  }

  class FeatureList {
    var overrides: Overrides
    var initialized: bool
    var initializedFromCommandLine: bool
    const trials: set<Text>   // the names in FieldTrialList

    constructor (trials: set<Text>)
      ensures overrides == map[] && !initialized && !initializedFromCommandLine && this.trials == trials
    {
      overrides, initialized, initializedFromCommandLine := map[], false, false;
      this.trials := trials;
    }

    method RegisterOverride(featureName: Text, state: OverrideState, trial: Option<Text>)
      requires !initialized
      modifies this`overrides
      ensures overrides == Register(old(overrides), featureName, state, trial)
    {
      var name, overridden := featureName, state;
      if name != [] && name[0] == STAR {
        name := name[1..];
        overridden := UseDefault;
      }
      if name !in overrides {
        overrides := overrides[name := Entry(overridden, trial, trial.Some?)];
      }
    }

    method RegisterFieldTrialOverride(featureName: Text, state: OverrideState, trial: Text)
      requires !initialized
      requires featureName in overrides ==> overrides[featureName].trial.None?
      modifies this`overrides
      ensures overrides == Register(old(overrides), featureName, state, Some(trial))
    {
      RegisterOverride(featureName, state, Some(trial));
    }

    method RegisterOverridesFromCommandLine(list: Text, state: OverrideState)
      requires !initialized
      modifies this`overrides
      ensures overrides == RegisterPieces(old(overrides), trials, Features(list), state)
    {
      var values := SplitFeatureListString(list);
      var i := 0;
      assert values[0..] == values;
      while i < |values|
        invariant i <= |values| && !initialized
        invariant RegisterPieces(old(overrides), trials, values, state)
               == RegisterPieces(overrides, trials, values[i..], state)
      {
        NextPiece(overrides, trials, values, i, state);
        RegisterPiece(values[i], state);
        i := i + 1;
      }
    }

    /** "Feature" or "Feature<Trial" */
    method RegisterPiece(value: Text, state: OverrideState)
      requires !initialized
      modifies this`overrides
      ensures overrides == Register(old(overrides), PieceName(value), state, PieceTrial(trials, value))
    {
      var name, trial := value, None;
      var pos := Find(value, LESS);
      if pos < |value| {
        name := value[..pos];
        trial := FindTrial(trials, value[pos + 1..]);
      }
      assert value[..|value|] == value;
      RegisterOverride(name, state, trial);
    }

    method InitializeFromCommandLine(enableFeatures: Text, disableFeatures: Text)
      requires !initialized
      modifies this`overrides, this`initializedFromCommandLine
      ensures overrides == RegisterPieces(RegisterPieces(old(overrides), trials, Features(disableFeatures), Disable),
                                          trials, Features(enableFeatures), Enable)
      ensures Extends(old(overrides), overrides)
      ensures initializedFromCommandLine
    {
      PiecesExtend(overrides, trials, Features(disableFeatures), Disable);
      RegisterOverridesFromCommandLine(disableFeatures, Disable);
      PiecesExtend(overrides, trials, Features(enableFeatures), Enable);
      RegisterOverridesFromCommandLine(enableFeatures, Enable);
      initializedFromCommandLine := true;
    }

    /** A trial that only reports: it does not become the reason of the override. */
    method AssociateReportingFieldTrial(featureName: Text, forState: OverrideState, trial: Text)
      requires featureName in overrides && overrides[featureName].state == forState && !overrides[featureName].byTrial
      modifies this`overrides
      ensures var e := old(overrides)[featureName];
        overrides == if e.trial.Some? then old(overrides)
                     else old(overrides)[featureName := Entry(forState, Some(trial), false)]
    {
      var e := overrides[featureName];
      if e.trial.Some? {
        return;
      }
      overrides := overrides[featureName := e.(trial := Some(trial))];
    }

    method FinalizeInitialization()
      requires !initialized
      modifies this`initialized
      ensures initialized
    {
      initialized := true;
    }

    /** The loop over overrides_, in the map's order. */
    method GetFeatureOverrides(order: seq<Text>) returns (enable: Text, disable: Text)
      requires initialized && Enumerates(order, overrides)
      requires forall k :: k in overrides ==> !overrides[k].state.Other?
      ensures enable == Printed(overrides, order, false) && disable == Printed(overrides, order, true)
    {
      enable, disable := [], [];
      var i := 0;
      while i < |order|
        invariant i <= |order|
        invariant enable == Printed(overrides, order[..i], false)
        invariant disable == Printed(overrides, order[..i], true)
      {
        var k := order[i];
        var e := overrides[k];
        var target := if e.state == Disable then disable else enable;
        if target != [] {
          target := target + [COMMA];
        }
        if e.state == UseDefault {
          target := target + [STAR];
        }
        target := target + k;
        if e.trial.Some? {
          target := target + [LESS] + e.trial.value;
        }
        ghost var was := if e.state == Disable then disable else enable;
        Grouped(if was == [] then [] else was + [COMMA], k, e);
        assert order[..i + 1][..i] == order[..i];
        if e.state == Disable {
          disable := target;
        } else {
          enable := target;
        }
        i := i + 1;
      }
      assert order[..i] == order;
    }

    method AddFeaturesToAllocator(order: seq<Text>, allocator: Allocator)
      requires initialized && Enumerates(order, overrides) && AllStorable(overrides)
      modifies allocator
      ensures |old(allocator.entries)| <= |allocator.entries| <= |old(allocator.entries)| + |order|
      ensures allocator.entries[..|old(allocator.entries)|] == old(allocator.entries)
      ensures var added := allocator.entries[|old(allocator.entries)|..];
        && StoresAll(added, overrides, order[..|added|])
        && (|added| == |order| <==> RoomFor(overrides, order) <= old(allocator.room))
    {
      ghost var start, room := allocator.entries, allocator.room;
      ghost var added: seq<FeatureEntry> := [];
      ghost var o := overrides;
      ProgressStarts(o, order, start, room);
      var i := 0;
      while i < |order|
        invariant i <= |order| && overrides == o
        invariant Progress(o, order, i, start, added, allocator.entries, room, allocator.room)
      {
        var k := order[i];
        var f, size := MakeEntry(k, overrides[k]);
        ProgressSteps(o, order, i, start, added, room, allocator.room, f);
        ProgressEnds(o, order, i, start, added, room, allocator.room);
        var ok := allocator.Add(size, f);
        if !ok {
          return;
        }
        added := added + [f];
        i := i + 1;
      }
      ProgressEnds(o, order, i, start, added, room, allocator.room);
    }

    /** The iteration over the allocator's entries, each read through a Pickle. */
    method InitializeFromSharedMemory(allocator: Allocator)
      requires !initialized && AllSized(allocator.entries)
      modifies this`overrides
      ensures overrides == Restore(old(overrides), trials, allocator.entries)
    {
      var entries := allocator.entries;
      ghost var end := Restore(overrides, trials, entries);
      var i := 0;
      assert entries[0..] == entries;
      while i < |entries|
        invariant i <= |entries| && !initialized && AllSized(entries)
        invariant AllSized(entries[i..]) && Restore(overrides, trials, entries[i..]) == end
      {
        NextRestored(overrides, trials, entries, i);
        RestoreEntry(entries[i]);
        i := i + 1;
      }
    }

    /** One turn: an entry without a readable name is skipped. */
    method RestoreEntry(f: FeatureEntry)
      requires !initialized && |f.pickle| <= INT_MAX
      modifies this`overrides
      ensures overrides == RestoreOne(old(overrides), trials, f)
    {
      var names := GetFeatureAndTrialName(f.pickle);
      if names.Some? {
        RegisterOverride(names.value.0, StateNumbered(f.state), FindTrial(trials, names.value.1));
      }
    }

    /** What the feature's state is, given its default. */
    method IsFeatureEnabled(name: Text, enabledByDefault: bool) returns (enabled: bool)
      requires initialized
      ensures enabled ==
              if name in overrides && overrides[name].state != UseDefault then overrides[name].state == Enable
              else enabledByDefault
    {
      if name in overrides {
        var entry := overrides[name];
        if entry.state != UseDefault {
          return entry.state == Enable;
        }
      }
      return enabledByDefault;
    }
  }

  /** Print one list and read the text into a new one: what survives comes back. */
  method TextJourney(list: FeatureList, order: seq<Text>) returns (copy: FeatureList)
    requires list.initialized && Enumerates(order, list.overrides) && AllValid(list.overrides)
    requires AllSurvive(list.trials, list.overrides)
    ensures fresh(copy) && copy.overrides == Reflagged(list.overrides)
  {
    var enable, disable := list.GetFeatureOverrides(order);
    copy := new FeatureList(list.trials);
    copy.InitializeFromCommandLine(enable, disable);
    SurvivorsComeBack(list.trials, list.overrides, order);
  }

  /** Store one list and restore it from the bytes, given enough room. */
  method SharedMemoryJourney(list: FeatureList, order: seq<Text>, room: nat) returns (copy: FeatureList)
    requires list.initialized && Enumerates(order, list.overrides)
    requires AllStorable(list.overrides) && RoomFor(list.overrides, order) <= room
    requires forall k :: k in list.overrides ==> !IsStarred(k)
    ensures fresh(copy) && copy.overrides.Keys == list.overrides.Keys
    ensures forall k :: k in list.overrides ==> copy.overrides[k] == Restored(list.trials, list.overrides[k])
  {
    var allocator := new Allocator(room);
    list.AddFeaturesToAllocator(order, allocator);
    var fs := allocator.entries;
    assert fs[0..] == fs && order[..|fs|] == order;
    StoredAreSized(fs, list.overrides, order);
    copy := new FeatureList(list.trials);
    copy.InitializeFromSharedMemory(allocator);
    forall k
      ensures k in copy.overrides <==> k in list.overrides
      ensures k in list.overrides ==> copy.overrides[k] == Restored(list.trials, list.overrides[k])
    {
      RestoreIs(map[], list.trials, fs, list.overrides, order, k);
    }
  }

  lemma Grouped(start: Text, k: Text, e: Entry)
    ensures
      var starred := if e.state == UseDefault then start + [STAR] else start;
      var named := starred + k;
      (if e.trial.Some? then named + [LESS] + e.trial.value else named) == start + Piece(k, e)
  {
  }

  /** FeatureEntry::GetFeatureAndTrialName */
  method GetFeatureAndTrialName(bytes: seq<byte>) returns (names: Option<(Text, Text)>)
    requires |bytes| <= INT_MAX
    ensures names == GetNames(PayloadOf(bytes))
  {
    var src := new byte[|bytes|](i requires 0 <= i < |bytes| => bytes[i]);
    assert src[..] == bytes;
    var pickle := new Pickle.ReadOnly(src, |bytes|);
    var it := new PickleIterator(pickle);
    assert it.State() == Reader(PayloadOf(bytes), 0);
    var name := it.ReadString();
    if name.None? || !name.value.String? {
      return None;
    }
    var trial := it.ReadString();
    names := Some((name.value.s, if trial.Some? && trial.value.String? then trial.value.s else []));
  }
}
