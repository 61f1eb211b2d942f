/** What a command line means, in characters: which arguments are switches, what
    their names and values are, and what the arguments that are left are. */
module CommandLineSpelling {
  import opened Ascii
  import opened Bits
  import opened CommandLineArgs
  import opened CommandLines

  // ---------------------------------------------------------------- one switch

  /** t is the prefix p, the name k and, after '=', a value; "--" goes before
      "-", and a prefix alone is no switch. */
  predicate Spells(t: Text, p: Text, k: Text, tail: Text) {
    && t == p + k + tail && t != p
    && (p == [0x2D, 0x2D] || (p == [0x2D] && !([0x2D, 0x2D] <= t)))
    && (tail == [] || tail[0] == 0x3D)
    && 0x3D !in k
  }

  function ValueIn(tail: Text): Text {
    if tail == [] then [] else tail[1..]
  }

  lemma SpelledIsSwitch(t: Text, p: Text, k: Text, tail: Text)
    requires Spells(t, p, k, tail)
    ensures IsSwitch(t) && Key(ToSwitch(t).name) == k && ToSwitch(t).value == ValueIn(tail)
    ensures t != TERMINATOR
  {
    assert t[..|p|] == p;
    assert |t| >= 1 && t[0] == DASH;
    assert |t| >= 2 ==> ([DASH, DASH] <= t <==> t[1] == DASH);
    var name := p + k;
    if tail == [] {
      assert t == name;
      FindIn(name, [], EQUALS);
      assert t[..|t|] == t;
    } else {
      assert t == name + [EQUALS] + tail[1..];
      FindIn(name, tail[1..], EQUALS);
      assert t[..|name|] == name && t[|name| + 1..] == tail[1..];
    }
    NameParts(p, k, t);
  }

  lemma NameParts(p: Text, k: Text, t: Text)
    requires p + k <= t && (p == [DASH, DASH] || (p == [DASH] && !([DASH, DASH] <= t)))
    ensures PrefixLength(p + k) == |p| && (p + k)[|p|..] == k
  {
    var name := p + k;
    assert |t| >= 2 && t[0] == DASH && t[1] == DASH ==> [DASH, DASH] <= t;
    assert |name| >= 2 ==> t[1] == name[1];
  }

  lemma SwitchIsSpelled(t: Text) returns (p: Text, tail: Text)
    requires IsSwitch(t)
    ensures Spells(t, p, Key(ToSwitch(t).name), tail)
  {
    var n, i := PrefixLength(t), Find(t, EQUALS);
    SwitchParts(t);
    p, tail := t[..n], t[i..];
    var name := t[..i];
    assert n <= i;
    assert name[n..] == t[n..i] && t == t[..n] + t[n..i] + t[i..];
    assert n == 1 ==> t[..1] == [DASH];
    assert n == 2 ==> t[..2] == [DASH, DASH];
    assert [DASH, DASH] <= t ==> t[0] == t[..2][0] && t[1] == t[..2][1];
  }

  // ---------------------------------------------------------- the whole vector

  /** Before argument i nothing is "--". */
  predicate StillParses(argv: seq<Text>, i: nat) {
    i <= |argv| && forall j :: 0 < j < i ==> Trim(argv[j]) != [0x2D, 0x2D]
  }

  ghost predicate Gives(arg: Text, k: Text, tail: Text) {
    exists p :: Spells(Trim(arg), p, k, tail)
  }

  /** Argument i is the switch k, with this tail. */
  ghost predicate GivenAt(argv: seq<Text>, i: nat, k: Text, tail: Text) {
    0 < i < |argv| && StillParses(argv, i) && Gives(argv[i], k, tail)
  }

  ghost predicate Given(argv: seq<Text>, k: Text) {
    exists i, tail :: GivenAt(argv, i, k, tail)
  }

  /** And the last that is. */
  ghost predicate GivenLast(argv: seq<Text>, i: nat, k: Text, tail: Text) {
    GivenAt(argv, i, k, tail) && forall j, other :: j > i ==> !GivenAt(argv, j, k, other)
  }

  /** Whether switches are still parsed after these arguments. */
  function LiveAfter(args: seq<Text>, live: bool): bool {
    live && forall i :: 0 <= i < |args| ==> Trim(args[i]) != TERMINATOR
  }

  lemma LiveFirst(args: seq<Text>, live: bool)
    requires args != []
    ensures LiveAfter(args[1..], StaysLive(live, args[0])) == LiveAfter(args, live)
  {
    assert forall i :: 0 < i < |args| ==> args[1..][i - 1] == args[i];
    assert forall i :: 0 <= i < |args[1..]| ==> args[i + 1] == args[1..][i];
  }

  lemma {:induction false} LastText(args: seq<Text>, live: bool, last: Text)
    ensures SwitchTexts(args + [last], live) ==
            SwitchTexts(args, live) + if ParsesAsSwitch(LiveAfter(args, live), last) then [Trim(last)] else []
  {
    var end := if ParsesAsSwitch(LiveAfter(args, live), last) then [Trim(last)] else [];
    if args == [] {
      assert [] + [last] == [last];
      InFront(last, [], live, Trim(last), ParsesAsSwitch(live, last), StaysLive(live, last));
      assert [last] + [] == [last];
    } else {
      var a, rest := args[0], args[1..];
      LiveFirst(args, live);
      LastText(rest, StaysLive(live, a), last);
      assert args == [a] + rest && args + [last] == [a] + (rest + [last]);
      TextInFront(a, rest, live, last, end);
    }
  }

  lemma TextInFront(a: Text, rest: seq<Text>, live: bool, last: Text, end: seq<Text>)
    requires SwitchTexts(rest + [last], StaysLive(live, a)) == SwitchTexts(rest, StaysLive(live, a)) + end
    ensures SwitchTexts([a] + (rest + [last]), live) == SwitchTexts([a] + rest, live) + end
  {
    var parses, stays := ParsesAsSwitch(live, a), StaysLive(live, a);
    InFront(a, rest, live, Trim(a), parses, stays);
    InFront(a, rest + [last], live, Trim(a), parses, stays);
    CommandLineArgs.Regroup(if parses then [Trim(a)] else [], SwitchTexts(rest, stays), end);
  }

  lemma LastEntry(texts: seq<Text>, t: Text)
    ensures Mapped(map[], Entries(texts + [t])) ==
            Mapped(map[], Entries(texts))[Key(ToSwitch(t).name) := ToSwitch(t).value]
  {
    var es := Entries(texts + [t]);
    assert es[..|es| - 1] == Entries(texts);
  }

  lemma LiveIsParsing(argv: seq<Text>)
    requires argv != []
    ensures LiveAfter(Rest(argv), true) == StillParses(argv, |argv|)
  {
    var rest := Rest(argv);
    assert forall j :: 0 < j < |argv| ==> argv[j] == rest[j - 1];
    assert forall j :: 0 <= j < |rest| ==> rest[j] == argv[j + 1];
  }

  /** What one more argument does to the switch map. */
  lemma OneMoreArgument(argv: seq<Text>, arg: Text)
    requires argv != []
    ensures var t := Trim(arg); var m := Parsed(argv).switches;
      Parsed(argv + [arg]).switches ==
      if StillParses(argv, |argv|) && t != TERMINATOR && IsSwitch(t) then m[Key(ToSwitch(t).name) := ToSwitch(t).value]
      else m
  {
    var rest := Rest(argv);
    assert Rest(argv + [arg]) == rest + [arg];
    ParsedIs(argv);
    ParsedIs(argv + [arg]);
    LiveIsParsing(argv);
    LastText(rest, true, arg);
    LastEntry(SwitchTexts(rest, true), Trim(arg));
    CommandLineArgs.Regroup(SwitchTexts(rest, true), [], []);
  }

  lemma ParsesBefore(argv: seq<Text>, arg: Text, i: nat)
    requires i <= |argv|
    ensures StillParses(argv + [arg], i) == StillParses(argv, i)
  {
    assert forall j :: 0 <= j < i ==> (argv + [arg])[j] == argv[j];
  }

  lemma GivenEarlier(argv: seq<Text>, arg: Text, i: nat, k: Text, tail: Text)
    requires i < |argv|
    ensures GivenAt(argv + [arg], i, k, tail) <==> GivenAt(argv, i, k, tail)
  {
    ParsesBefore(argv, arg, i);
  }

  lemma GivenNow(argv: seq<Text>, arg: Text, k: Text, tail: Text)
    requires argv != []
    ensures GivenAt(argv + [arg], |argv|, k, tail) <==> StillParses(argv, |argv|) && Gives(arg, k, tail)
  {
    ParsesBefore(argv, arg, |argv|);
  }

  /** An argument gives k exactly if it parses as k. */
  lemma GivesIff(arg: Text, k: Text) returns (tail: Text)
    ensures var t := Trim(arg); Gives(arg, k, tail) <==> t != TERMINATOR && IsSwitch(t) && Key(ToSwitch(t).name) == k
    ensures forall other :: Gives(arg, k, other) ==> Gives(arg, k, tail) && ToSwitch(Trim(arg)).value == ValueIn(other)
  {
    var t := Trim(arg);
    forall p, other | Spells(t, p, k, other)
      ensures IsSwitch(t) && Key(ToSwitch(t).name) == k && ToSwitch(t).value == ValueIn(other) && t != TERMINATOR
    {
      SpelledIsSwitch(t, p, k, other);
    }
    tail := [];
    if IsSwitch(t) && Key(ToSwitch(t).name) == k {
      var p;
      p, tail := SwitchIsSpelled(t);
    }
  }

  /** The parsed switch map m holds k as the arguments say. */
  ghost predicate HeldAsGiven(argv: seq<Text>, k: Text, m: map<Text, Text>) {
    && (k in m <==> Given(argv, k))
    && forall i, tail :: GivenLast(argv, i, k, tail) ==> k in m && m[k] == ValueIn(tail)
  }

  lemma NotGivenNow(argv: seq<Text>, arg: Text, k: Text, m: map<Text, Text>)
    requires argv != [] && HeldAsGiven(argv, k, m)
    requires forall tail :: !GivenAt(argv + [arg], |argv|, k, tail)
    ensures HeldAsGiven(argv + [arg], k, m)
  {
    var whole := argv + [arg];
    forall i: nat, tail ensures GivenAt(whole, i, k, tail) <==> GivenAt(argv, i, k, tail) {
      if i < |argv| { GivenEarlier(argv, arg, i, k, tail); }
    }
    SameGiven(argv, whole, k, m);
  }

  lemma SameGiven(v: seq<Text>, w: seq<Text>, k: Text, m: map<Text, Text>)
    requires HeldAsGiven(v, k, m) && forall i, tail :: GivenAt(w, i, k, tail) <==> GivenAt(v, i, k, tail)
    ensures HeldAsGiven(w, k, m)
  {
    forall i: nat, tail | GivenLast(w, i, k, tail) ensures k in m && m[k] == ValueIn(tail) {
      assert GivenLast(v, i, k, tail);
    }
  }

  lemma GivenNowIsLast(argv: seq<Text>, arg: Text, k: Text, tail: Text, m: map<Text, Text>)
    requires argv != [] && GivenAt(argv + [arg], |argv|, k, tail) && k in m
    requires forall other :: Gives(arg, k, other) ==> m[k] == ValueIn(other)
    ensures HeldAsGiven(argv + [arg], k, m)
  {
    var whole := argv + [arg];
    assert Given(whole, k);
    forall i: nat, other | GivenLast(whole, i, k, other) ensures m[k] == ValueIn(other) {
      assert i == |argv|;
      GivenNow(argv, arg, k, other);
    }
  }

  lemma HeldAfterOneMore(argv: seq<Text>, arg: Text, k: Text)
    requires argv != [] && HeldAsGiven(argv, k, Parsed(argv).switches)
    ensures HeldAsGiven(argv + [arg], k, Parsed(argv + [arg]).switches)
  {
    var m := Parsed(argv + [arg]).switches;
    OneMoreArgument(argv, arg);
    var tail := GivesIff(arg, k);
    GivenNow(argv, arg, k, tail);
    if GivenAt(argv + [arg], |argv|, k, tail) {
      GivenNowIsLast(argv, arg, k, tail, m);
    } else {
      forall other ensures !GivenAt(argv + [arg], |argv|, k, other) {
        GivenNow(argv, arg, k, other);
      }
      NotGivenNow(argv, arg, k, Parsed(argv).switches);
      SameForKey(argv + [arg], k, Parsed(argv).switches, m);
    }
  }

  lemma SameForKey(argv: seq<Text>, k: Text, m: map<Text, Text>, n: map<Text, Text>)
    requires HeldAsGiven(argv, k, m) && (k in n <==> k in m) && (k in m ==> n[k] == m[k])
    ensures HeldAsGiven(argv, k, n)
  {
  }

  lemma NothingGiven(argv: seq<Text>, k: Text)
    requires |argv| <= 1
    ensures HeldAsGiven(argv, k, Parsed(argv).switches)
  {
    ParsedIs(argv);
    assert Rest(argv) == [] && Entries([]) == [];
  }

  lemma {:induction false} AlwaysHeld(argv: seq<Text>, k: Text, m: map<Text, Text>)
    requires m == Parsed(argv).switches
    ensures HeldAsGiven(argv, k, m)
    decreases |argv|
  {
    if |argv| <= 1 {
      NothingGiven(argv, k);
    } else {
      var before, arg := argv[..|argv| - 1], argv[|argv| - 1];
      assert before + [arg] == argv;
      AlwaysHeld(before, k, Parsed(before).switches);
      HeldAfterOneMore(before, arg, k);
    }
  }

  /** After parsing a vector, a switch k is there exactly when, before the first
      argument that trims to "--", some trimmed argument is "--" or "-" followed
      by k, or by k, '=' and a value; and the last such argument has its value. */
  lemma SwitchesInCharacters(argv: seq<Text>, k: Text)
    ensures k in Parsed(argv).switches <==> exists i, tail :: GivenAt(argv, i, k, tail)
    ensures forall i, tail :: GivenLast(argv, i, k, tail) ==>
              k in Parsed(argv).switches && Parsed(argv).switches[k] == ValueIn(tail)
  {
    AlwaysHeld(argv, k, Parsed(argv).switches);
  }

  /** All that callers see of a parsed vector. */
  method LookUp(argv: seq<Text>, k: Text) returns (found: bool, value: Text, left: seq<Text>)
    ensures found <==> exists i, tail :: GivenAt(argv, i, k, tail)
    ensures forall i, tail :: GivenLast(argv, i, k, tail) ==> value == ValueIn(tail)
    ensures !found ==> value == []
    ensures left == Positional(Rest(argv))
  {
    var line := new CommandLine.FromArgv(argv);
    found := line.HasSwitch(k);
    value := line.GetSwitchValueNative(k);
    left := line.GetArgs();
    SwitchesInCharacters(argv, k);
    ArgsArePositional(argv);
  }

  // ------------------------------------------------------- appending a switch

  /** The switch as argv() holds it: "--" in front unless a dash is there, and
      '=' before a value that is not empty. */
  function Written(name: Text, value: Text): Text {
    (if name != [] && name[0] == 0x2D then [] else [0x2D, 0x2D]) + name + (if value == [] then [] else [0x3D] + value)
  }

  lemma WrittenIs(name: Text, value: Text)
    ensures Combined(Switch(name, value)) == Written(name, value)
  {
  }

  /** A written switch is read as the switch it was written for. */
  lemma WrittenReads(name: Text, value: Text)
    requires EQUALS !in name && Key(name) != [] && EndsBlack(Written(name, value))
    ensures var c := Written(name, value);
      && IsSwitch(c) && Trim(c) == c && !IsFragile(ToSwitch(c)) && Combined(ToSwitch(c)) == c
      && Key(ToSwitch(c).name) == Key(name) && ToSwitch(c).value == value
  {
    var c := Written(name, value);
    var full := (if name != [] && name[0] == DASH then [] else [DASH, DASH]) + name;
    FullName(name, full);
    BlackEnds(c);
    TrimKeepsExactlyTheTrimmed(c);
    if value == [] {
      assert c == full;
      FindIn(full, [], EQUALS);
      assert c[..|c|] == c;
    } else {
      assert c == full + [EQUALS] + value;
      FindIn(full, value, EQUALS);
      assert c[..|full|] == full && c[|full| + 1..] == value;
    }
    assert ToSwitch(c) == Switch(full, value);
    PrefixOfFull(c, full);
    CombinedIs(c);
  }

  lemma FullName(name: Text, full: Text)
    requires EQUALS !in name && Key(name) != []
    requires full == (if name != [] && name[0] == DASH then [] else [DASH, DASH]) + name
    ensures EQUALS !in full && Key(full) == Key(name) && PrefixLength(full) > 0
  {
  }

  lemma PrefixOfFull(c: Text, full: Text)
    requires full <= c && PrefixLength(full) > 0 && Key(full) != []
    ensures IsSwitch(c)
  {
    assert c[0] == full[0];
    assert |full| >= 2 && c[1] == full[1];
  }

  /** A vector put together from sturdy switches and kept arguments. */
  lemma TogetherReadsBack(p: Text, texts: seq<Text>, rest: seq<Text>, v: seq<Text>)
    requires v == [p] + (Rewritten(texts) + rest) && Trim(p) == p && AreSwitches(texts) && AreSturdy(texts)
    requires SwitchTexts(rest, true) == [] && Arguments(rest, true) == rest
    ensures Parsed(v) == State(v, Mapped(map[], Entries(texts)), 1 + |texts|)
  {
    Placed(p, Rewritten(texts), [], rest);
    SturdyAreKept(texts, rest);
    SturdyMapTheSame(texts);
    CommandLineArgs.Regroup(Rewritten(texts), [], []);
    assert Rest(v) == Rewritten(texts) + rest;
    ParsedIs(v);
  }

  lemma Together(argv: seq<Text>) returns (p: Text, texts: seq<Text>, rest: seq<Text>)
    ensures texts == SwitchTexts(Rest(argv), true) && AreSwitches(texts)
    ensures Parsed(argv) == State([p] + (Rewritten(texts) + rest), Mapped(map[], Entries(texts)), 1 + |texts|)
    ensures Trim(p) == p && SwitchTexts(rest, true) == [] && Arguments(rest, true) == rest
  {
    texts, rest := SwitchTexts(Rest(argv), true), Arguments(Rest(argv), true);
    p := if argv == [] then [] else Trim(argv[0]);
    ParsedIs(argv);
    TextsAreSwitches(Rest(argv), true);
    ArgumentsAreKept(Rest(argv), true);
    if argv == [] { TrimKeepsExactlyTheTrimmed([]); } else { TrimTwice(argv[0]); }
  }

  lemma SwitchAdded(p: Text, texts: seq<Text>, rest: seq<Text>, s: State, c: Text, sw: Switch)
    requires s == State([p] + (Rewritten(texts) + rest), Mapped(map[], Entries(texts)), 1 + |texts|)
    requires Combined(ToSwitch(c)) == c == Combined(sw)
    requires Key(ToSwitch(c).name) == Key(sw.name) && ToSwitch(c).value == sw.value
    ensures WithSwitch(s, sw) ==
            State([p] + (Rewritten(texts + [c]) + rest), Mapped(map[], Entries(texts + [c])), 1 + |texts + [c]|)
  {
    RewrittenLast(texts, c);
    Placed(p, Rewritten(texts), c, rest);
    LastEntry(texts, c);
  }

  lemma MoreSturdy(texts: seq<Text>, c: Text)
    requires AreSwitches(texts) && AreSturdy(texts) && IsSwitch(c) && Trim(c) == c && !IsFragile(ToSwitch(c))
    ensures AreSwitches(texts + [c]) && AreSturdy(texts + [c])
  {
    TrimKeepsExactlyTheTrimmed(c);
  }

  /** Appending a switch puts it behind the other switches as it is written, and
      if it is written without '=' in its name or white at its end, parsing argv()
      again, none of the switches before it being fragile, gives it back. */
  lemma AppendedSwitchReadsBack(argv: seq<Text>, name: Text, value: Text)
    requires AreSturdy(SwitchTexts(Rest(argv), true))
    requires EQUALS !in name && Key(name) != [] && EndsBlack(Written(name, value))
    ensures var s := Parsed(argv); var s' := WithSwitch(s, Switch(name, value));
      && s'.argv == s.argv[..s.beginArgs] + [Written(name, value)] + s.argv[s.beginArgs..]
      && Parsed(s'.argv) == s'
  {
    var c := Written(name, value);
    WrittenIs(name, value);
    WrittenReads(name, value);
    var p, texts, rest := Together(argv);
    SwitchAdded(p, texts, rest, Parsed(argv), c, Switch(name, value));
    MoreSturdy(texts, c);
    TogetherReadsBack(p, texts + [c], rest, [p] + (Rewritten(texts + [c]) + rest));
  }

  lemma RewrittenLast(texts: seq<Text>, c: Text)
    requires Combined(ToSwitch(c)) == c
    ensures Rewritten(texts + [c]) == Rewritten(texts) + [c]
  {
  }

  lemma Placed(p: Text, w: seq<Text>, c: Text, rest: seq<Text>)
    ensures var v := [p] + (w + rest);
      v[..1 + |w|] + [c] + v[1 + |w|..] == [p] + ((w + [c]) + rest)
    ensures Rest([p] + ((w + [c]) + rest)) == (w + [c]) + rest
  {
    var v := [p] + (w + rest);
    assert v[..1 + |w|] == [p] + w && v[1 + |w|..] == rest;
    assert ([p] + ((w + [c]) + rest))[1..] == (w + [c]) + rest;
  }
}
