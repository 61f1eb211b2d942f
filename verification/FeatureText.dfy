/** How FeatureList prints its overrides as two comma-separated lists, and reads
    such lists back. */
module FeatureText {
  import opened Ascii
  import opened Bits
  import opened Options

  /** Other is a number read from shared memory that names no state. */
  datatype OverrideState = UseDefault | Disable | Enable | Other(number: nat)

  /** A field trial is known by its name; byTrial is overridden_by_field_trial. */
  datatype Entry = Entry(state: OverrideState, trial: Option<Text>, byTrial: bool)

  type Overrides = map<Text, Entry>

  /** FieldTrialList::Find */
  function FindTrial(trials: set<Text>, name: Text): Option<Text> {
    if name in trials then Some(name) else None
  }

  // ---------------------------------------------------------------- reading

  predicate IsStarred(name: Text) {
    name != [] && name[0] == STAR
  }

  function KeyOf(name: Text): Text {
    if IsStarred(name) then name[1..] else name
  }

  function StateOf(name: Text, state: OverrideState): OverrideState {
    if IsStarred(name) then UseDefault else state
  }

  /** RegisterOverride: the first override of a feature stands. */
  function Register(o: Overrides, name: Text, state: OverrideState, trial: Option<Text>): Overrides {
    if KeyOf(name) in o then o else o[KeyOf(name) := Entry(StateOf(name, state), trial, trial.Some?)]
  }

  function PieceName(q: Text): Text {
    q[..Find(q, LESS)]
  }

  function PieceTrial(trials: set<Text>, q: Text): Option<Text> {
    if LESS in q then FindTrial(trials, q[Find(q, LESS) + 1..]) else None
  }

  function RegisterPieces(o: Overrides, trials: set<Text>, qs: seq<Text>, state: OverrideState): Overrides
    decreases |qs|
  {
    if qs == [] then o
    else RegisterPieces(Register(o, PieceName(qs[0]), state, PieceTrial(trials, qs[0])), trials, qs[1..], state)
  }

  /** SplitFeatureListString */
  function Features(list: Text): seq<Text> {
    Kept(Split(list, COMMA))
  }

  /** InitializeFromCommandLine: what is disabled takes precedence. */
  function Initialize(trials: set<Text>, enabled: Text, disabled: Text): Overrides {
    RegisterPieces(RegisterPieces(map[], trials, Features(disabled), Disable), trials, Features(enabled), Enable)
  }

  /** Piece q says that feature k has entry e. */
  predicate Says(trials: set<Text>, q: Text, state: OverrideState, k: Text, e: Entry) {
    && KeyOf(PieceName(q)) == k
    && e == Entry(StateOf(PieceName(q), state), PieceTrial(trials, q), PieceTrial(trials, q).Some?)
  }

  /** Nothing registered is ever lost or replaced, every piece registers its
      feature, and every new entry is what some piece says. */
  ghost predicate Extends(o: Overrides, r: Overrides) {
    forall k :: k in o ==> k in r && r[k] == o[k]
  }

  lemma {:induction false} PiecesExtend(o: Overrides, trials: set<Text>, qs: seq<Text>, state: OverrideState)
    ensures Extends(o, RegisterPieces(o, trials, qs, state))
    decreases |qs|
  {
    if qs != [] {
      PiecesExtend(Register(o, PieceName(qs[0]), state, PieceTrial(trials, qs[0])), trials, qs[1..], state);
    }
  }

  lemma {:induction false} PiecesRegister(o: Overrides, trials: set<Text>, qs: seq<Text>, state: OverrideState, q: Text)
    requires q in qs
    ensures KeyOf(PieceName(q)) in RegisterPieces(o, trials, qs, state)
    decreases |qs|
  {
    var o1 := Register(o, PieceName(qs[0]), state, PieceTrial(trials, qs[0]));
    if q == qs[0] {
      assert KeyOf(PieceName(q)) in o1;
      PiecesExtend(o1, trials, qs[1..], state);
    } else {
      PiecesRegister(o1, trials, qs[1..], state, q);
    }
  }

  /** No earlier piece names the feature that piece i names. */
  predicate IsFirst(qs: seq<Text>, i: nat) {
    i < |qs| && forall j :: 0 <= j < i ==> KeyOf(PieceName(qs[j])) != KeyOf(PieceName(qs[i]))
  }

  /** A feature that is new has the entry of the first piece that names it. */
  lemma {:induction false} FirstPieceDecides(o: Overrides, trials: set<Text>, qs: seq<Text>, state: OverrideState,
                                             i: nat)
    requires IsFirst(qs, i) && KeyOf(PieceName(qs[i])) !in o
    ensures var r := RegisterPieces(o, trials, qs, state); var k := KeyOf(PieceName(qs[i]));
      k in r && Says(trials, qs[i], state, k, r[k])
    decreases |qs|
  {
    var o1 := Register(o, PieceName(qs[0]), state, PieceTrial(trials, qs[0]));
    if i == 0 {
      PiecesExtend(o1, trials, qs[1..], state);
    } else {
      assert KeyOf(PieceName(qs[0])) != KeyOf(PieceName(qs[i]));
      LaterPiece(qs, i);
      FirstPieceDecides(o1, trials, qs[1..], state, i - 1);
    }
  }

  lemma LaterPiece(qs: seq<Text>, i: nat)
    requires IsFirst(qs, i) && i > 0
    ensures IsFirst(qs[1..], i - 1) && qs[1..][i - 1] == qs[i]
  {
    forall j | 0 <= j < i - 1 ensures KeyOf(PieceName(qs[1..][j])) != KeyOf(PieceName(qs[i])) {
      assert qs[1..][j] == qs[j + 1];
    }
  }

  /** Every new override is what the first piece that names its feature says. */
  lemma {:induction false} PiecesSay(o: Overrides, trials: set<Text>, qs: seq<Text>, state: OverrideState, k: Text)
    returns (i: nat)
    requires k !in o && k in RegisterPieces(o, trials, qs, state)
    ensures IsFirst(qs, i) && Says(trials, qs[i], state, k, RegisterPieces(o, trials, qs, state)[k])
    decreases |qs|
  {
    var o1 := Register(o, PieceName(qs[0]), state, PieceTrial(trials, qs[0]));
    if k in o1 {
      i := 0;
      PiecesExtend(o1, trials, qs[1..], state);
    } else {
      var j := PiecesSay(o1, trials, qs[1..], state, k);
      i := j + 1;
      EarlierPiece(qs, j, k);
    }
  }

  lemma EarlierPiece(qs: seq<Text>, j: nat, k: Text)
    requires qs != [] && IsFirst(qs[1..], j) && KeyOf(PieceName(qs[1..][j])) == k != KeyOf(PieceName(qs[0]))
    ensures IsFirst(qs, j + 1) && qs[j + 1] == qs[1..][j]
  {
    forall n | 0 <= n < j + 1 ensures KeyOf(PieceName(qs[n])) != k {
      assert n > 0 ==> qs[n] == qs[1..][n - 1];
    }
  }

  /** A feature on the disable list has the override that its first piece there
      says, whatever the enable list says.  So "if a feature appears on both
      lists, it is disabled" holds exactly of the features whose first piece on
      the disable list does not begin with '*'; the others keep their default. */
  lemma DisabledIffNotStarred(trials: set<Text>, enabled: Text, disabled: Text, i: nat)
    requires IsFirst(Features(disabled), i)
    ensures
      var r := Initialize(trials, enabled, disabled);
      var q := Features(disabled)[i];
      var k := KeyOf(PieceName(q));
      && k in r && Says(trials, q, Disable, k, r[k])
      && (r[k].state == Disable <==> !IsStarred(PieceName(q)))
      && (r[k].state == UseDefault <==> IsStarred(PieceName(q)))
  {
    var ds := Features(disabled);
    FirstPieceDecides(map[], trials, ds, Disable, i);
    PiecesExtend(RegisterPieces(map[], trials, ds, Disable), trials, Features(enabled), Enable);
  }

  /** Every feature on the disable list has such a first piece, so none of them
      is enabled. */
  lemma DisabledTakesPrecedence(trials: set<Text>, enabled: Text, disabled: Text, q: Text) returns (i: nat)
    requires q in Features(disabled)
    ensures IsFirst(Features(disabled), i) && KeyOf(PieceName(Features(disabled)[i])) == KeyOf(PieceName(q))
    ensures var r := Initialize(trials, enabled, disabled); var k := KeyOf(PieceName(q));
      k in r && r[k].state != Enable
  {
    i := FirstNaming(Features(disabled), q);
    DisabledIffNotStarred(trials, enabled, disabled, i);
  }

  lemma {:induction false} FirstNaming(qs: seq<Text>, q: Text) returns (i: nat)
    requires q in qs
    ensures IsFirst(qs, i) && KeyOf(PieceName(qs[i])) == KeyOf(PieceName(q))
  {
    if KeyOf(PieceName(qs[0])) == KeyOf(PieceName(q)) {
      i := 0;
    } else {
      var j := FirstNaming(qs[1..], q);
      i := j + 1;
      EarlierPiece(qs, j, KeyOf(PieceName(q)));
    }
  }

  /** A feature on both lists that is not disabled: F enabled, *F disabled. */
  lemma StarredIsNotDisabled(trials: set<Text>)
    ensures var f: Text := [0x46];
      Initialize(trials, f, [STAR] + f) == map[f := Entry(UseDefault, None, false)]
  {
    var f: Text := [0x46];
    var starred: Text := [STAR] + f;
    OnePiece(f);
    OnePiece(starred);
    PieceOf(trials, f);
    PieceOf(trials, starred);
    assert IsStarred(starred) && KeyOf(starred) == f && !IsStarred(f);
    RegistersOne(map[], trials, starred, Disable);
    RegistersOne(map[f := Entry(UseDefault, None, false)], trials, f, Enable);
  }

  lemma RegistersOne(o: Overrides, trials: set<Text>, q: Text, state: OverrideState)
    ensures RegisterPieces(o, trials, [q], state) == Register(o, PieceName(q), state, PieceTrial(trials, q))
  {
    assert [q][1..] == [];
  }

  lemma OnePiece(s: Text)
    requires COMMA !in s && s != [] && IsTrimmed(s)
    ensures Features(s) == [s]
  {
    TrimKeepsExactlyTheTrimmed(s);
    KeptFirst(s, COMMA);
    assert s[..|s|] == s;
  }

  lemma PieceOf(trials: set<Text>, s: Text)
    requires LESS !in s
    ensures PieceName(s) == s && PieceTrial(trials, s) == None
  {
    FindIn(s, [], LESS);
    assert s[..|s|] == s;
  }

  // --------------------------------------------------------------- printing

  function Piece(name: Text, e: Entry): Text {
    (if e.state == UseDefault then [STAR] else [])
    + name
    + (if e.trial.Some? then [LESS] + e.trial.value else [])
  }

  function AppendPiece(list: Text, p: Text): Text {
    (if list == [] then [] else list + [COMMA]) + p
  }

  predicate GoesTo(e: Entry, disabled: bool) {
    (e.state == Disable) == disabled
  }

  ghost predicate Enumerates(order: seq<Text>, o: Overrides) {
    forall k :: k in order <==> k in o
  }

  /** GetFeatureOverrides: one of the two lists, features in this order. */
  function Printed(o: Overrides, order: seq<Text>, disabled: bool): Text
    requires forall k :: k in order ==> k in o
  {
    if order == [] then []
    else
      var rest, k := Printed(o, order[..|order| - 1], disabled), order[|order| - 1];
      if GoesTo(o[k], disabled) then AppendPiece(rest, Piece(k, o[k])) else rest
  }

  /** Reading back what was printed. */
  function Reread(trials: set<Text>, o: Overrides, order: seq<Text>): Overrides
    requires forall k :: k in order ==> k in o
  {
    Initialize(trials, Printed(o, order, false), Printed(o, order, true))
  }

  /** IsValidFeatureOrFieldTrialName, which debug builds check, but for ASCII. */
  predicate IsValidName(name: Text) {
    COMMA !in name && LESS !in name && STAR !in name
  }

  /** What can be printed: valid names and one of the three states. */
  predicate IsValid(k: Text, e: Entry) {
    IsValidName(k) && (e.trial.Some? ==> IsValidName(e.trial.value)) && !e.state.Other?
  }

  predicate AllValid(o: Overrides) {
    forall k :: k in o ==> IsValid(k, o[k])
  }

  // ------------------------------------- the pieces of what was printed

  function Pieces(o: Overrides, order: seq<Text>, disabled: bool): seq<Text>
    requires forall k :: k in order ==> k in o
  {
    if order == [] then []
    else
      var rest, k := Pieces(o, order[..|order| - 1], disabled), order[|order| - 1];
      if GoesTo(o[k], disabled) then rest + [Piece(k, o[k])] else rest
  }

  lemma FeaturesOfAppended(list: Text, p: Text)
    requires COMMA !in p
    ensures Features(AppendPiece(list, p)) == Features(list) + Kept([p])
  {
    if list == [] {
      assert [] + p == p;
      assert Split(p, COMMA) == [p] && Split([], COMMA) == [[]];
      assert Kept([[]]) == [];
    } else {
      SplitAppends(list, COMMA, p);
      KeptAppends(Split(list, COMMA), [p]);
    }
  }

  lemma PieceHasNoComma(k: Text, e: Entry)
    requires IsValid(k, e)
    ensures COMMA !in Piece(k, e)
  {
  }

  lemma {:induction false} PrintedSplits(o: Overrides, order: seq<Text>, disabled: bool)
    requires (forall k :: k in order ==> k in o) && AllValid(o)
    ensures Features(Printed(o, order, disabled)) == Kept(Pieces(o, order, disabled))
  {
    if order == [] {
      assert Split([], COMMA) == [[]];
      assert Kept([[]]) == [];
    } else {
      var k := order[|order| - 1];
      assert k in order;
      PrintedSplits(o, order[..|order| - 1], disabled);
      PieceHasNoComma(k, o[k]);
      FeaturesOfAppended(Printed(o, order[..|order| - 1], disabled), Piece(k, o[k]));
      KeptAppends(Pieces(o, order[..|order| - 1], disabled), [Piece(k, o[k])]);
    }
  }

  /** Piece q came from feature k. */
  predicate CameFrom(o: Overrides, q: Text, disabled: bool, k: Text) {
    k in o && GoesTo(o[k], disabled) && q == Trim(Piece(k, o[k])) != []
  }

  lemma {:induction false} KeptMembers(parts: seq<Text>, q: Text)
    ensures q in Kept(parts) <==> q != [] && exists p :: p in parts && q == Trim(p)
  {
    if parts != [] {
      KeptMembers(parts[1..], q);
      if q != [] && exists p :: p in parts && q == Trim(p) {
        var p :| p in parts && q == Trim(p);
        assert p == parts[0] || p in parts[1..];
      }
      if q in Kept(parts) && q in Kept(parts[1..]) {
        var p :| p in parts[1..] && q == Trim(p);
        assert p in parts;
      }
    }
  }

  lemma {:induction false} PieceMembers(o: Overrides, order: seq<Text>, disabled: bool, p: Text)
    requires forall k :: k in order ==> k in o
    ensures p in Pieces(o, order, disabled) <==>
            exists k :: k in order && GoesTo(o[k], disabled) && p == Piece(k, o[k])
  {
    if order != [] {
      var rest, last := order[..|order| - 1], order[|order| - 1];
      PieceMembers(o, rest, disabled, p);
      assert order == rest + [last];
      if exists k :: k in order && GoesTo(o[k], disabled) && p == Piece(k, o[k]) {
        var k :| k in order && GoesTo(o[k], disabled) && p == Piece(k, o[k]);
        assert k in rest || k == last;
      }
      if p in Pieces(o, rest, disabled) {
        var k :| k in rest && GoesTo(o[k], disabled) && p == Piece(k, o[k]);
        assert k in order;
      }
    }
  }

  lemma FeaturesCameFrom(o: Overrides, order: seq<Text>, disabled: bool, q: Text)
    requires Enumerates(order, o) && AllValid(o)
    ensures q in Features(Printed(o, order, disabled)) <==> exists k :: CameFrom(o, q, disabled, k)
  {
    PrintedSplits(o, order, disabled);
    var ps := Pieces(o, order, disabled);
    KeptMembers(ps, q);
    if q in Kept(ps) {
      var p :| p in ps && q == Trim(p);
      PieceMembers(o, order, disabled, p);
      var k :| k in order && GoesTo(o[k], disabled) && p == Piece(k, o[k]);
      assert CameFrom(o, q, disabled, k);
    }
    if exists k :: CameFrom(o, q, disabled, k) {
      var k :| CameFrom(o, q, disabled, k);
      PieceMembers(o, order, disabled, Piece(k, o[k]));
      assert k in order;
      assert Piece(k, o[k]) in ps;
    }
  }

  /** The entry that the piece of feature k makes when it is read back. */
  function ReadPiece(trials: set<Text>, k: Text, e: Entry): (Text, Entry) {
    var q := Trim(Piece(k, e));
    var trial := PieceTrial(trials, q);
    (KeyOf(PieceName(q)),
     Entry(StateOf(PieceName(q), if e.state == Disable then Disable else Enable), trial, trial.Some?))
  }

  /** Every entry read back is made by the piece of some feature. */
  lemma RereadIsSourced(trials: set<Text>, o: Overrides, order: seq<Text>, k: Text) returns (source: Text)
    requires Enumerates(order, o) && AllValid(o) && k in Reread(trials, o, order)
    ensures source in o && Trim(Piece(source, o[source])) != []
    ensures ReadPiece(trials, source, o[source]) == (k, Reread(trials, o, order)[k])
  {
    var ds, es := Features(Printed(o, order, true)), Features(Printed(o, order, false));
    var o1 := RegisterPieces(map[], trials, ds, Disable);
    if k in o1 {
      PiecesExtend(o1, trials, es, Enable);
      var i := PiecesSay(map[], trials, ds, Disable, k);
      var q := ds[i];
      FeaturesCameFrom(o, order, true, q);
      source :| CameFrom(o, q, true, source);
    } else {
      var i := PiecesSay(o1, trials, es, Enable, k);
      var q := es[i];
      FeaturesCameFrom(o, order, false, q);
      source :| CameFrom(o, q, false, source);
    }
  }

  /** Every piece that is not trimmed away makes an entry for its feature. */
  lemma PiecesAreReread(trials: set<Text>, o: Overrides, order: seq<Text>, k: Text)
    requires Enumerates(order, o) && AllValid(o) && k in o && Trim(Piece(k, o[k])) != []
    ensures ReadPiece(trials, k, o[k]).0 in Reread(trials, o, order)
  {
    var ds, es := Features(Printed(o, order, true)), Features(Printed(o, order, false));
    var o1 := RegisterPieces(map[], trials, ds, Disable);
    var q := Trim(Piece(k, o[k]));
    var disabled := o[k].state == Disable;
    FeaturesCameFrom(o, order, disabled, q);
    assert CameFrom(o, q, disabled, k);
    if disabled {
      PiecesRegister(map[], trials, ds, Disable, q);
      PiecesExtend(o1, trials, es, Enable);
    } else {
      PiecesRegister(o1, trials, es, Enable, q);
    }
  }

  // ------------------------------------------------ what trimming does to a piece

  /** The parts of a piece: star, name, trial. */
  function Star(e: Entry): Text {
    if e.state == UseDefault then [STAR] else []
  }

  function Tail(e: Entry): Text {
    if e.trial.Some? then [LESS] + e.trial.value else []
  }

  lemma NameOfPiece(name: Text, rest: Text)
    requires LESS !in name && (rest == [] || rest[0] == LESS)
    ensures PieceName(name + rest) == name
    ensures LESS in name + rest <==> rest != []
    ensures rest != [] ==> (name + rest)[Find(name + rest, LESS) + 1..] == rest[1..]
  {
    if rest == [] {
      FindIn(name, [], LESS);
      assert name + rest == name && name[..|name|] == name;
    } else {
      FindIn(name, rest[1..], LESS);
      assert name + [LESS] + rest[1..] == name + rest;
    }
  }

  lemma PieceParts(k: Text, e: Entry)
    ensures Piece(k, e) == Star(e) + k + Tail(e)
  {
  }

  /** Trimming keeps the star, a stretch of the name, and a prefix of the rest
      that begins with '<' if the rest does. */
  lemma TrimmedPiece(k: Text, e: Entry) returns (a: nat, b: nat, d: nat)
    requires Trim(Piece(k, e)) != []
    ensures a <= b <= |k| && d <= |Tail(e)| && (Tail(e) != [] ==> d > 0)
    ensures Trim(Piece(k, e)) == Star(e) + k[a..b] + Tail(e)[..d]
    ensures IsTrimmed(Piece(k, e)) <==> b - a == |k| && d == |Tail(e)|
  {
    var star, tail := Star(e), Tail(e);
    var p := Piece(k, e);
    PieceParts(k, e);
    var f, g := FirstGood(p), GoodEnd(p);
    assert star != [] ==> p[0] == STAR;
    assert tail != [] ==> p[|star| + |k|] == LESS;
    a := f;
    b := if tail != [] then |k| else g - |star|;
    d := if tail != [] then g - |star| - |k| else 0;
    SliceOfParts(star, k, tail, f, g);
    TrimKeepsExactlyTheTrimmed(p);
    assert |Trim(p)| == g - f;
    assert p[0..|p|] == p;
  }

  lemma SliceOfParts(star: Text, k: Text, tail: Text, f: nat, g: nat)
    requires f < g <= |star| + |k| + |tail|
    requires star != [] ==> f == 0
    requires if tail != [] then f <= |star| + |k| < g else |star| <= g
    ensures
      var b := if tail != [] then |k| else g - |star|;
      var d := if tail != [] then g - |star| - |k| else 0;
      f <= b <= |k| && (star + k + tail)[f..g] == star + k[f..b] + tail[..d]
  {
  }

  lemma ReadParts(trials: set<Text>, e: Entry, key: Text, rest: Text, listed: OverrideState)
    requires STAR !in key && LESS !in key && (rest == [] || rest[0] == LESS)
    requires !e.state.Other? && listed == if e.state == Disable then Disable else Enable
    ensures var q := Star(e) + key + rest;
      && KeyOf(PieceName(q)) == key
      && StateOf(PieceName(q), listed) == e.state
      && PieceTrial(trials, q) == if rest == [] then None else FindTrial(trials, rest[1..])
  {
    var name := Star(e) + key;
    NameOfPiece(name, rest);
    if e.state == UseDefault {
      assert name[0] == STAR && name[1..] == key;
    } else {
      assert name == key;
      assert key != [] ==> key[0] in key;
    }
  }

  /** What a printed entry is read back as: the feature's own state, a stretch
      of its name, and the trial of that prefix of the trial's name. */
  lemma ReadPieceIs(trials: set<Text>, k: Text, e: Entry) returns (a: nat, b: nat, c: nat)
    requires IsValid(k, e) && Trim(Piece(k, e)) != []
    ensures a <= b <= |k| && (e.trial.Some? ==> c <= |e.trial.value|)
    ensures
      var trial := if e.trial.None? then None else FindTrial(trials, e.trial.value[..c]);
      ReadPiece(trials, k, e) == (k[a..b], Entry(e.state, trial, trial.Some?))
    ensures IsTrimmed(Piece(k, e)) <==> b - a == |k| && (e.trial.Some? ==> c == |e.trial.value|)
  {
    var d: nat;
    a, b, d := TrimmedPiece(k, e);
    c := if d == 0 then 0 else d - 1;
    ReadParts(trials, e, k[a..b], Tail(e)[..d], if e.state == Disable then Disable else Enable);
    TailPrefix(e, d);
  }

  lemma TailPrefix(e: Entry, d: nat)
    requires d <= |Tail(e)|
    ensures e.trial.Some? && d > 0 ==> Tail(e)[..d] != [] && Tail(e)[..d][1..] == e.trial.value[..d - 1]
    ensures e.trial.Some? ==> |Tail(e)| == 1 + |e.trial.value|
    ensures d > 0 ==> Tail(e)[..d][0] == LESS
  {
    if e.trial.Some? && d > 0 {
      assert Tail(e)[..d] == [LESS] + e.trial.value[..d - 1];
    }
  }

  // ------------------------------------------------------------- the round trip

  /** A feature's override can be printed and read back: the printed piece is
      not empty and has no whitespace to trim, and its trial is known. */
  predicate Survives(trials: set<Text>, k: Text, e: Entry) {
    && Piece(k, e) != [] && IsTrimmed(Piece(k, e))
    && (e.trial.Some? ==> e.trial.value in trials)
  }

  predicate SameOverride(e: Entry, f: Entry) {
    e.state == f.state && e.trial == f.trial
  }

  predicate CameBack(o: Overrides, r: Overrides, k: Text)
    requires k in o
  {
    k in r && SameOverride(r[k], o[k])
  }

  lemma SurvivorReadsAsItself(trials: set<Text>, k: Text, e: Entry)
    requires IsValid(k, e) && Survives(trials, k, e)
    ensures Trim(Piece(k, e)) != []
    ensures ReadPiece(trials, k, e) == (k, Entry(e.state, e.trial, e.trial.Some?))
  {
    TrimKeepsExactlyTheTrimmed(Piece(k, e));
    var a, b, c := ReadPieceIs(trials, k, e);
    assert k[a..b] == k;
    assert e.trial.Some? ==> e.trial.value[..c] == e.trial.value;
  }

  /** Some piece of this list names feature k. */
  ghost predicate Names(list: Text, k: Text) {
    exists q :: q in Features(list) && KeyOf(PieceName(q)) == k
  }

  lemma NamedCameFrom(trials: set<Text>, o: Overrides, order: seq<Text>, disabled: bool, k: Text)
    requires Enumerates(order, o) && AllValid(o) && forall x :: x in o ==> Survives(trials, x, o[x])
    ensures Names(Printed(o, order, disabled), k) <==> k in o && GoesTo(o[k], disabled)
  {
    var list := Printed(o, order, disabled);
    if q :| q in Features(list) && KeyOf(PieceName(q)) == k {
      FeaturesCameFrom(o, order, disabled, q);
      var x :| CameFrom(o, q, disabled, x);
      assert IsValid(x, o[x]);
      SurvivorReadsAsItself(trials, x, o[x]);
      assert ReadPiece(trials, x, o[x]).0 == k;
    }
    if k in o && GoesTo(o[k], disabled) {
      var q := Trim(Piece(k, o[k]));
      assert IsValid(k, o[k]);
      SurvivorReadsAsItself(trials, k, o[k]);
      assert CameFrom(o, q, disabled, k);
      FeaturesCameFrom(o, order, disabled, q);
      assert ReadPiece(trials, k, o[k]).0 == k;
    }
  }

  /** The disable list names exactly the disabled features, the enable list the
      enabled ones and those with their default state. */
  lemma PrintedOnTheRightList(trials: set<Text>, o: Overrides, order: seq<Text>, k: Text)
    requires Enumerates(order, o) && AllValid(o) && forall x :: x in o ==> Survives(trials, x, o[x])
    ensures Names(Printed(o, order, true), k) <==> k in o && o[k].state == Disable
    ensures Names(Printed(o, order, false), k) <==> k in o && (o[k].state == Enable || o[k].state == UseDefault)
  {
    NamedCameFrom(trials, o, order, true, k);
    NamedCameFrom(trials, o, order, false, k);
    assert k in o ==> IsValid(k, o[k]);
  }

  /** An entry that cannot survive is not read back from its own piece. */
  lemma OthersReadDifferently(trials: set<Text>, k: Text, e: Entry)
    requires IsValid(k, e) && !Survives(trials, k, e) && Trim(Piece(k, e)) != []
    ensures ReadPiece(trials, k, e).0 != k || !SameOverride(ReadPiece(trials, k, e).1, e)
    ensures ReadPiece(trials, k, e).0 != k ==> |ReadPiece(trials, k, e).0| < |k|
  {
    var a, b, c := ReadPieceIs(trials, k, e);
    assert k[0..|k|] == k;
    assert e.trial.Some? && c == |e.trial.value| ==> e.trial.value[..c] == e.trial.value;
  }

  function Longer(o: Overrides, k: Text): set<Text> {
    set x | x in o && |x| > |k|
  }

  /** If some override cannot survive, some override does not come back.  (Not
      always that one: a longer name may be trimmed to it; but then that longer
      one cannot survive either.) */
  lemma {:induction false} SomethingIsLost(trials: set<Text>, o: Overrides, order: seq<Text>, k: Text)
    returns (lost: Text)
    requires Enumerates(order, o) && AllValid(o) && k in o && !Survives(trials, k, o[k])
    ensures lost in o && !CameBack(o, Reread(trials, o, order), lost)
    decreases |Longer(o, k)|
  {
    var r := Reread(trials, o, order);
    lost := k;
    if CameBack(o, r, k) {
      var k2 := RereadIsSourced(trials, o, order, k);
      assert IsValid(k2, o[k2]);
      if Survives(trials, k2, o[k2]) {
        SurvivorReadsAsItself(trials, k2, o[k2]);
      }
      OthersReadDifferently(trials, k2, o[k2]);
      ProperSubsetIsSmaller(Longer(o, k2), Longer(o, k), k2);
      lost := SomethingIsLost(trials, o, order, k2);
    }
  }

  lemma ProperSubsetIsSmaller(a: set<Text>, b: set<Text>, x: Text)
    requires a <= b && x in b && x !in a
    ensures |a| < |b|
  {
    SubsetIsNoLarger(a, b - {x});
  }

  lemma {:induction false} SubsetIsNoLarger(a: set<Text>, b: set<Text>)
    requires a <= b
    ensures |a| <= |b|
  {
    if a != {} {
      var x :| x in a;
      SubsetIsNoLarger(a - {x}, b - {x});
    }
  }

  /** o with overridden_by_field_trial as the constructor of an entry sets it. */
  function Reflagged(o: Overrides): Overrides {
    map k | k in o :: Entry(o[k].state, o[k].trial, o[k].trial.Some?)
  }

  ghost predicate AllSurvive(trials: set<Text>, o: Overrides) {
    forall k :: k in o ==> Survives(trials, k, o[k])
  }

  lemma SurvivorIsReread(trials: set<Text>, o: Overrides, order: seq<Text>, k: Text)
    requires Enumerates(order, o) && AllValid(o) && AllSurvive(trials, o)
    ensures k in o ==> k in Reread(trials, o, order)
    ensures k in Reread(trials, o, order) ==>
              k in o && Reread(trials, o, order)[k] == Entry(o[k].state, o[k].trial, o[k].trial.Some?)
  {
    if k in o {
      assert IsValid(k, o[k]) && Survives(trials, k, o[k]);
      SurvivorReadsAsItself(trials, k, o[k]);
      PiecesAreReread(trials, o, order, k);
    }
    if k in Reread(trials, o, order) {
      var source := RereadIsSourced(trials, o, order, k);
      assert IsValid(source, o[source]) && Survives(trials, source, o[source]);
      SurvivorReadsAsItself(trials, source, o[source]);
    }
  }

  lemma SameMaps(a: Overrides, b: Overrides)
    requires forall k :: k in a <==> k in b
    requires forall k :: k in a ==> a[k] == b[k]
    ensures a == b
  {
  }

  lemma SurvivorsComeBack(trials: set<Text>, o: Overrides, order: seq<Text>)
    requires Enumerates(order, o) && AllValid(o) && AllSurvive(trials, o)
    ensures Reread(trials, o, order) == Reflagged(o)
  {
    forall k ensures k in o <==> k in Reread(trials, o, order) {
      SurvivorIsReread(trials, o, order, k);
    }
    forall k | k in o ensures Reread(trials, o, order)[k] == Reflagged(o)[k] {
      SurvivorIsReread(trials, o, order, k);
    }
    SameMaps(Reread(trials, o, order), Reflagged(o));
  }

  /** The two printed lists give every override back, whatever the order they
      were printed in, exactly when each printed piece survives trimming and
      each trial is known.  Only overridden_by_field_trial is not preserved. */
  lemma TextRoundTripIff(trials: set<Text>, o: Overrides, order: seq<Text>)
    requires Enumerates(order, o) && AllValid(o)
    ensures AllSurvive(trials, o) <==> forall k :: k in o ==> CameBack(o, Reread(trials, o, order), k)
    ensures AllSurvive(trials, o) ==> Reread(trials, o, order) == Reflagged(o)
  {
    if AllSurvive(trials, o) {
      SurvivorsComeBack(trials, o, order);
    } else {
      var k :| k in o && !Survives(trials, k, o[k]);
      var lost := SomethingIsLost(trials, o, order, k);
    }
  }
}
