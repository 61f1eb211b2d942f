/** What the two lists given to InitializeFromCommandLine mean, in characters. */
module FeatureSpelling {
  import opened Ascii
  import opened Bits
  import opened FeatureLists
  import opened FeatureText
  import opened Options

  /** A list entry: '*' or not, the feature's name, and '<' with a trial's name
      or nothing. */
  predicate Spells(t: Text, starred: bool, k: Text, tail: Text) {
    && t != [] && t == (if starred then [0x2A] else []) + k + tail
    && (tail == [] || tail[0] == 0x3C) && 0x3C !in k
    && (starred || k == [] || k[0] != 0x2A)
  }

  /** The trial named there, if there is one of that name. */
  function TrialIn(trials: set<Text>, tail: Text): Option<Text> {
    if tail != [] && tail[1..] in trials then Some(tail[1..]) else None
  }

  lemma SpelledPiece(trials: set<Text>, t: Text, starred: bool, k: Text, tail: Text)
    requires Spells(t, starred, k, tail)
    ensures IsStarred(PieceName(t)) == starred && KeyOf(PieceName(t)) == k
    ensures PieceTrial(trials, t) == TrialIn(trials, tail)
  {
    var name := (if starred then [STAR] else []) + k;
    NameOfPiece(name, tail);
    if starred {
      assert name[1..] == k;
    } else {
      assert name == k;
    }
  }

  lemma PieceIsSpelled(t: Text) returns (tail: Text)
    requires t != []
    ensures Spells(t, IsStarred(PieceName(t)), KeyOf(PieceName(t)), tail)
  {
    var i := Find(t, LESS);
    var name := t[..i];
    tail := t[i..];
    assert t == name + tail;
    if IsStarred(name) { assert name == [STAR] + name[1..]; }
  }

  /** Trimmed, the part names feature k. */
  ghost predicate NamedBy(part: Text, k: Text) {
    exists starred, tail :: Spells(Trim(part), starred, k, tail)
  }

  ghost predicate NamedIn(parts: seq<Text>, k: Text) {
    exists i :: 0 <= i < |parts| && NamedBy(parts[i], k)
  }

  /** Part i is the first that names k, and this is how. */
  ghost predicate FirstNamed(parts: seq<Text>, i: nat, k: Text, starred: bool, tail: Text) {
    i < |parts| && Spells(Trim(parts[i]), starred, k, tail) && forall j :: 0 <= j < i ==> !NamedBy(parts[j], k)
  }

  ghost predicate SaysSo(trials: set<Text>, e: Entry, state: OverrideState, starred: bool, tail: Text) {
    e.state == (if starred then UseDefault else state) && e.trial == TrialIn(trials, tail)
  }

  lemma NamedIffKey(part: Text, k: Text)
    ensures NamedBy(part, k) <==> Trim(part) != [] && KeyOf(PieceName(Trim(part))) == k
  {
    var t := Trim(part);
    if t != [] && KeyOf(PieceName(t)) == k {
      var tail := PieceIsSpelled(t);
    }
    if starred, tail :| Spells(t, starred, k, tail) {
      SpelledPiece({}, t, starred, k, tail);
    }
  }

  lemma NamedFirst(parts: seq<Text>, k: Text)
    requires parts != []
    ensures NamedIn(parts, k) <==> NamedBy(parts[0], k) || NamedIn(parts[1..], k)
  {
    if i :| 0 <= i < |parts| && NamedBy(parts[i], k) {
      assert i > 0 ==> parts[1..][i - 1] == parts[i];
    }
    if i :| 0 <= i < |parts[1..]| && NamedBy(parts[1..][i], k) {
      assert parts[i + 1] == parts[1..][i];
    }
  }

  lemma FirstNamedLater(parts: seq<Text>, i: nat, k: Text, starred: bool, tail: Text)
    requires 0 < i < |parts| && FirstNamed(parts, i, k, starred, tail)
    ensures FirstNamed(parts[1..], i - 1, k, starred, tail) && !NamedBy(parts[0], k)
  {
    forall j | 0 <= j < i - 1 ensures !NamedBy(parts[1..][j], k) {
      assert parts[1..][j] == parts[j + 1];
    }
  }

  /** What registering the parts of a list does for feature k. */
  ghost predicate Registers(trials: set<Text>, parts: seq<Text>, state: OverrideState, k: Text, r: Overrides) {
    && (k in r <==> NamedIn(parts, k))
    && forall i, starred, tail :: FirstNamed(parts, i, k, starred, tail) ==> k in r && SaysSo(trials, r[k], state, starred, tail)
  }

  lemma NextPart(o: Overrides, trials: set<Text>, parts: seq<Text>, state: OverrideState) returns (o1: Overrides)
    requires parts != []
    ensures RegisterPieces(o, trials, Kept(parts), state) == RegisterPieces(o1, trials, Kept(parts[1..]), state)
    ensures var t := Trim(parts[0]);
      o1 == if t == [] then o else Register(o, PieceName(t), state, PieceTrial(trials, t))
  {
    var t := Trim(parts[0]);
    assert parts == [parts[0]] + parts[1..];
    KeptCons(parts[0], parts[1..]);
    if t == [] {
      o1 := o;
      assert [] + Kept(parts[1..]) == Kept(parts[1..]);
    } else {
      o1 := Register(o, PieceName(t), state, PieceTrial(trials, t));
      assert ([t] + Kept(parts[1..]))[1..] == Kept(parts[1..]);
    }
  }

  lemma {:induction false} PartsRegister(o: Overrides, trials: set<Text>, parts: seq<Text>, state: OverrideState, k: Text)
    requires k !in o
    ensures Registers(trials, parts, state, k, RegisterPieces(o, trials, Kept(parts), state))
    decreases |parts|
  {
    if parts != [] {
      var r := RegisterPieces(o, trials, Kept(parts), state);
      var o1 := NextPart(o, trials, parts, state);
      NamedIffKey(parts[0], k);
      if NamedBy(parts[0], k) {
        PiecesExtend(o1, trials, Kept(parts[1..]), state);
        NamedFirst(parts, k);
        FirstRegisters(trials, parts, state, k, r);
      } else {
        PartsRegister(o1, trials, parts[1..], state, k);
        LaterRegister(trials, parts, state, k, r);
      }
    }
  }

  lemma LaterRegister(trials: set<Text>, parts: seq<Text>, state: OverrideState, k: Text, r: Overrides)
    requires parts != [] && !NamedBy(parts[0], k) && Registers(trials, parts[1..], state, k, r)
    ensures Registers(trials, parts, state, k, r)
  {
    NamedFirst(parts, k);
    forall i: nat, starred, tail | FirstNamed(parts, i, k, starred, tail)
      ensures k in r && SaysSo(trials, r[k], state, starred, tail)
    {
      assert i > 0;
      FirstNamedLater(parts, i, k, starred, tail);
    }
  }

  lemma FirstRegisters(trials: set<Text>, parts: seq<Text>, state: OverrideState, k: Text, r: Overrides)
    requires parts != [] && NamedBy(parts[0], k)
    requires var t := Trim(parts[0]); k in r && Says(trials, t, state, k, r[k])
    ensures Registers(trials, parts, state, k, r)
  {
    forall i: nat, starred, tail | FirstNamed(parts, i, k, starred, tail)
      ensures k in r && SaysSo(trials, r[k], state, starred, tail)
    {
      assert i == 0;
      SpelledPiece(trials, Trim(parts[0]), starred, k, tail);
    }
  }

  lemma FeaturesAreKept(parts: seq<Text>)
    requires forall i :: 0 <= i < |parts| ==> 0x2C !in parts[i]
    ensures Features(Joined(parts, 0x2C)) == Kept(parts)
  {
    if parts == [] {
      assert Split([], COMMA) == [[]] && Kept([[]]) == [];
    } else {
      SplitJoined(parts, COMMA);
    }
  }

  /** The two lists, each parts with commas between them.  A feature has an
      override exactly if some part names it.  The first part of the disable list
      that does decides: with '*' for the default, else against the feature.  If
      there is none, the first of the enable list decides in the same way. */
  lemma ListsInCharacters(trials: set<Text>, enabled: seq<Text>, disabled: seq<Text>, k: Text)
    requires forall i :: 0 <= i < |enabled| ==> 0x2C !in enabled[i]
    requires forall i :: 0 <= i < |disabled| ==> 0x2C !in disabled[i]
    ensures var r := Initialize(trials, Joined(enabled, 0x2C), Joined(disabled, 0x2C));
      && (k in r <==> NamedIn(disabled, k) || NamedIn(enabled, k))
      && (forall i, starred, tail :: FirstNamed(disabled, i, k, starred, tail) ==>
            k in r && SaysSo(trials, r[k], Disable, starred, tail))
      && (!NamedIn(disabled, k) ==> forall i, starred, tail :: FirstNamed(enabled, i, k, starred, tail) ==>
            k in r && SaysSo(trials, r[k], Enable, starred, tail))
  {
    FeaturesAreKept(enabled);
    FeaturesAreKept(disabled);
    var o := RegisterPieces(map[], trials, Kept(disabled), Disable);
    PartsRegister(map[], trials, disabled, Disable, k);
    PiecesExtend(o, trials, Kept(enabled), Enable);
    if k !in o {
      PartsRegister(o, trials, enabled, Enable, k);
      NothingFirst(disabled, k);
    }
  }

  lemma NothingFirst(parts: seq<Text>, k: Text)
    requires !NamedIn(parts, k)
    ensures forall i, starred, tail :: !FirstNamed(parts, i, k, starred, tail)
  {
    forall i: nat, starred, tail ensures !FirstNamed(parts, i, k, starred, tail) {
      assert i < |parts| ==> !NamedBy(parts[i], k);
    }
  }

  /** What IsFeatureEnabled answers then: the first part that names the feature
      decides, unless it has '*'; a feature that no part names has its default. */
  method IsEnabled(trials: set<Text>, enabled: seq<Text>, disabled: seq<Text>, k: Text, byDefault: bool)
    returns (answer: bool)
    requires forall i :: 0 <= i < |enabled| ==> 0x2C !in enabled[i]
    requires forall i :: 0 <= i < |disabled| ==> 0x2C !in disabled[i]
    ensures forall i, tail :: FirstNamed(disabled, i, k, false, tail) ==> !answer
    ensures forall i, tail :: FirstNamed(disabled, i, k, true, tail) ==> answer == byDefault
    ensures !NamedIn(disabled, k) ==> forall i, tail :: FirstNamed(enabled, i, k, false, tail) ==> answer
    ensures !NamedIn(disabled, k) ==> forall i, tail :: FirstNamed(enabled, i, k, true, tail) ==> answer == byDefault
    ensures !NamedIn(disabled, k) && !NamedIn(enabled, k) ==> answer == byDefault
  {
    var list := new FeatureList(trials);
    list.InitializeFromCommandLine(Joined(enabled, 0x2C), Joined(disabled, 0x2C));
    list.FinalizeInitialization();
    answer := list.IsFeatureEnabled(k, byDefault);
    ListsInCharacters(trials, enabled, disabled, k);
  }
}
