/** How CommandLine takes an argument vector apart on POSIX, and what becomes of
    the vector it keeps when that is parsed again. */
module CommandLineArgs {
  import opened Ascii
  import opened Bits

  /** kSwitchTerminator, which is also kSwitchPrefixes[0] */
  const TERMINATOR: Text := [DASH, DASH]

  /** 2 for "--", else 1 for "-", else 0 */
  function PrefixLength(s: Text): (n: nat)
    ensures n <= |s|
  {
    if |s| >= 2 && s[0] == DASH && s[1] == DASH then 2 else if |s| >= 1 && s[0] == DASH then 1 else 0
  }

  predicate IsSwitch(s: Text) {
    PrefixLength(s) != 0 && PrefixLength(s) != |s|
  }

  /** A switch, its name with the prefix, and its value. */
  datatype Switch = Switch(name: Text, value: Text)

  function ToSwitch(s: Text): Switch {
    Switch(s[..Find(s, EQUALS)], if EQUALS in s then s[Find(s, EQUALS) + 1..] else [])
  }

  function Key(name: Text): Text {
    name[PrefixLength(name)..]
  }

  /** What AppendSwitchNative puts into argv_. */
  function Combined(sw: Switch): Text {
    (if PrefixLength(sw.name) == 0 then TERMINATOR else []) + sw.name
    + (if sw.value == [] then [] else [EQUALS] + sw.value)
  }

  /** parse_switches after this argument. */
  predicate StaysLive(live: bool, arg: Text) {
    live && Trim(arg) != TERMINATOR
  }

  predicate ParsesAsSwitch(live: bool, arg: Text) {
    StaysLive(live, arg) && IsSwitch(Trim(arg))
  }

  /** The arguments that are switches, trimmed, in order; live says whether
      switches are still parsed. */
  function SwitchTexts(args: seq<Text>, live: bool): seq<Text> {
    if args == [] then []
    else
      (if ParsesAsSwitch(live, args[0]) then [Trim(args[0])] else [])
      + SwitchTexts(args[1..], StaysLive(live, args[0]))
  }

  /** The rest, trimmed, in order. */
  function Arguments(args: seq<Text>, live: bool): seq<Text> {
    if args == [] then []
    else
      (if ParsesAsSwitch(live, args[0]) then [] else [Trim(args[0])])
      + Arguments(args[1..], StaysLive(live, args[0]))
  }

  /** The switches as argv_ holds them. */
  function Rewritten(texts: seq<Text>): (r: seq<Text>)
    ensures |r| == |texts|
  {
    seq(|texts|, i requires 0 <= i < |texts| => Combined(ToSwitch(texts[i])))
  }

  /** The keys and values these switches stand for. */
  function Entries(texts: seq<Text>): (es: seq<(Text, Text)>)
    ensures |es| == |texts|
  {
    seq(|texts|, i requires 0 <= i < |texts| => (Key(ToSwitch(texts[i]).name), ToSwitch(texts[i]).value))
  }

  /** The switch map after these entries, each replacing an earlier value. */
  function Mapped(m: map<Text, Text>, es: seq<(Text, Text)>): map<Text, Text> {
    if es == [] then m else Mapped(m, es[..|es| - 1])[es[|es| - 1].0 := es[|es| - 1].1]
  }

  /** argv_, switches_ and begin_args_ */
  datatype State = State(argv: seq<Text>, switches: map<Text, Text>, beginArgs: nat)

  predicate Sound(s: State) {
    1 <= s.beginArgs <= |s.argv|
  }

  function Rest(argv: seq<Text>): seq<Text> {
    if argv == [] then [] else argv[1..]
  }

  /** The switches among args go before the divider, the rest to the end. */
  function AppendedFrom(s: State, args: seq<Text>, live: bool): (s': State)
    requires Sound(s)
    ensures Sound(s')
  {
    var texts := SwitchTexts(args, live);
    State(s.argv[..s.beginArgs] + Rewritten(texts) + s.argv[s.beginArgs..] + Arguments(args, live),
          Mapped(s.switches, Entries(texts)), s.beginArgs + |texts|)
  }

  /** AppendSwitchesAndArguments: argv[0] is skipped. */
  function Appended(s: State, argv: seq<Text>): (s': State)
    requires Sound(s)
    ensures Sound(s')
  {
    AppendedFrom(s, Rest(argv), true)
  }

  function Parsed(argv: seq<Text>): (s: State)
    ensures Sound(s)
  {
    Appended(State([if argv == [] then [] else Trim(argv[0])], map[], 1), argv)
  }

  // ------------------------------------------------------------- one switch

  /** A switch that is written so that it is read differently: an empty value
      after '=' and a name that is only a prefix, or ends in whitespace. */
  predicate IsFragile(sw: Switch) {
    && sw.value == []
    && (|Key(sw.name)| == 0 || IsSpace(sw.name[|sw.name| - 1]))
  }

  lemma SwitchParts(s: Text)
    requires IsSwitch(s)
    ensures var sw := ToSwitch(s);
      && PrefixLength(sw.name) == PrefixLength(s) > 0
      && EQUALS !in sw.name
      && (sw.value != [] ==> s == sw.name + [EQUALS] + sw.value)
      && (EQUALS !in s ==> s == sw.name && sw.value == [])
  {
    var i := Find(s, EQUALS);
    assert s[0] == DASH != EQUALS;
    assert i < |s| ==> s == s[..i] + [EQUALS] + s[i + 1..];
    assert i == |s| ==> s[..i] == s;
  }

  /** Only an argument with '=' can give a fragile switch. */
  lemma FragileHasEquals(s: Text)
    requires IsSwitch(s) && IsTrimmed(s) && IsFragile(ToSwitch(s))
    ensures EQUALS in s
  {
    SwitchParts(s);
  }

  lemma CombinedIs(s: Text)
    requires IsSwitch(s)
    ensures var sw := ToSwitch(s); Combined(sw) == if sw.value == [] then sw.name else s
  {
    SwitchParts(s);
    Concatenated(ToSwitch(s).name, ToSwitch(s).value);
  }

  lemma Concatenated(name: Text, value: Text)
    ensures [] + name + [] == name
    ensures [] + name + ([EQUALS] + value) == name + [EQUALS] + value
  {
  }

  /** A switch that is not fragile is written so that it reads the same. */
  lemma SturdyReadsBack(s: Text)
    requires IsSwitch(s) && IsTrimmed(s) && !IsFragile(ToSwitch(s))
    ensures var c := Combined(ToSwitch(s));
      Trim(c) == c && c != TERMINATOR && IsSwitch(c) && ToSwitch(c) == ToSwitch(s)
  {
    SwitchParts(s);
    CombinedIs(s);
    var sw := ToSwitch(s);
    var c := Combined(sw);
    TrimKeepsExactlyTheTrimmed(c);
    if sw.value == [] {
      assert c == sw.name;
      FindIn(sw.name, [], EQUALS);
      assert c[..|c|] == c;
    }
  }

  /** A fragile one is written so that it is trimmed, or is no switch. */
  lemma FragileReadsDifferently(s: Text)
    requires IsSwitch(s) && IsFragile(ToSwitch(s))
    ensures var c := Combined(ToSwitch(s)); |Trim(c)| < |c| || !IsSwitch(c)
  {
    SwitchParts(s);
    CombinedIs(s);
    FragileName(ToSwitch(s).name);
  }

  lemma FragileName(name: Text)
    requires PrefixLength(name) > 0 && (|Key(name)| == 0 || IsSpace(name[|name| - 1]))
    ensures |Trim(name)| < |name| || !IsSwitch(name)
  {
    if |Key(name)| != 0 {
      TrimmingShortens(name);
    }
  }

  lemma CombinedIsNoLonger(s: Text)
    requires IsSwitch(s)
    ensures |Combined(ToSwitch(s))| <= |s|
  {
    SwitchParts(s);
    CombinedIs(s);
  }

  // --------------------------------------------------------- the whole vector

  ghost predicate AreSwitches(texts: seq<Text>) {
    forall t :: t in texts ==> IsSwitch(t) && IsTrimmed(t)
  }

  ghost predicate AreSturdy(texts: seq<Text>) {
    forall t :: t in texts ==> !IsFragile(ToSwitch(t))
  }

  lemma {:induction false} TextsAreSwitches(args: seq<Text>, live: bool)
    ensures AreSwitches(SwitchTexts(args, live))
  {
    if args != [] {
      TrimKeepsExactlyTheTrimmed(args[0]);
      TextsAreSwitches(args[1..], StaysLive(live, args[0]));
    }
  }

  lemma {:induction false} NotLive(args: seq<Text>)
    ensures SwitchTexts(args, false) == [] && Arguments(args, false) == TrimmedAll(args)
  {
    if args != [] {
      NotLive(args[1..]);
      assert TrimmedAll(args) == [Trim(args[0])] + TrimmedAll(args[1..]);
    }
  }

  function TrimmedAll(args: seq<Text>): seq<Text> {
    seq(|args|, i requires 0 <= i < |args| => Trim(args[i]))
  }

  lemma TrimTwice(s: Text)
    ensures Trim(Trim(s)) == Trim(s)
  {
    TrimKeepsExactlyTheTrimmed(s);
    TrimKeepsExactlyTheTrimmed(Trim(s));
  }

  /** One argument in front of others; all that depends on it is given. */
  lemma InFront(a: Text, rest: seq<Text>, live: bool, trimmed: Text, parses: bool, stays: bool)
    requires trimmed == Trim(a) && parses == ParsesAsSwitch(live, a) && stays == StaysLive(live, a)
    ensures SwitchTexts([a] + rest, live) == (if parses then [trimmed] else []) + SwitchTexts(rest, stays)
    ensures Arguments([a] + rest, live) == (if parses then [] else [trimmed]) + Arguments(rest, stays)
  {
    assert ([a] + rest)[0] == a && ([a] + rest)[1..] == rest;
  }

  lemma KeptInFront(a: Text, rest: seq<Text>, live: bool, stays: bool)
    requires a == Trim(a) && stays == StaysLive(live, a) && !ParsesAsSwitch(live, a)
    requires SwitchTexts(rest, stays) == [] && Arguments(rest, stays) == rest
    ensures SwitchTexts([a] + rest, live) == [] && Arguments([a] + rest, live) == [a] + rest
  {
    InFront(a, rest, live, a, false, stays);
  }

  /** What is left over holds no switch, so it is left over again. */
  lemma {:induction false} ArgumentsAreKept(args: seq<Text>, live: bool)
    ensures SwitchTexts(Arguments(args, live), live) == []
    ensures Arguments(Arguments(args, live), live) == Arguments(args, live)
  {
    if args != [] {
      var a := Trim(args[0]);
      var stays := StaysLive(live, args[0]);
      var rest := Arguments(args[1..], stays);
      ArgumentsAreKept(args[1..], stays);
      if ParsesAsSwitch(live, args[0]) {
        assert [] + rest == rest;
      } else {
        TrimTwice(args[0]);
        KeptInFront(a, rest, live, stays);
      }
    }
  }

  lemma Regroup(a: seq<Text>, b: seq<Text>, c: seq<Text>)
    ensures (a + b) + c == a + (b + c) && [] + a == a && a + [] == a
  {
  }

  lemma RewrittenFirst(texts: seq<Text>)
    requires texts != []
    ensures Rewritten(texts) == [Combined(ToSwitch(texts[0]))] + Rewritten(texts[1..])
  {
    var w, rest := Rewritten(texts), Rewritten(texts[1..]);
    forall i | 0 < i < |texts| ensures w[i] == rest[i - 1] {
      assert texts[i] == texts[1..][i - 1];
    }
    FirstThenRest(w, rest);
  }

  lemma FirstThenRest(w: seq<Text>, rest: seq<Text>)
    requires |w| == |rest| + 1 && forall i :: 0 < i < |w| ==> w[i] == rest[i - 1]
    ensures w == [w[0]] + rest
  {
  }

  /** Rewritten sturdy switches are read back one by one. */
  lemma {:induction false} SturdyAreKept(texts: seq<Text>, tail: seq<Text>)
    requires AreSwitches(texts) && AreSturdy(texts)
    ensures SwitchTexts(Rewritten(texts) + tail, true) == Rewritten(texts) + SwitchTexts(tail, true)
    ensures Arguments(Rewritten(texts) + tail, true) == Arguments(tail, true)
  {
    if texts == [] {
      assert Rewritten(texts) + tail == tail && Rewritten(texts) + SwitchTexts(tail, true) == SwitchTexts(tail, true);
    } else {
      var t, c, w := texts[0], Combined(ToSwitch(texts[0])), Rewritten(texts[1..]);
      assert t in texts;
      SturdyReadsBack(t);
      SturdyAreKept(texts[1..], tail);
      RewrittenFirst(texts);
      InFront(c, w + tail, true, c, true, true);
      Regroup([c], w, tail);
      Regroup([c], w, SwitchTexts(tail, true));
      Regroup(Arguments(tail, true), [], []);
    }
  }

  lemma SturdySwitch(texts: seq<Text>, i: nat)
    requires AreSwitches(texts) && AreSturdy(texts) && i < |texts|
    ensures ToSwitch(Rewritten(texts)[i]) == ToSwitch(texts[i])
  {
    assert texts[i] in texts;
    SturdyReadsBack(texts[i]);
  }

  /** They stand for the same switches. */
  lemma SturdyMapTheSame(texts: seq<Text>)
    requires AreSwitches(texts) && AreSturdy(texts)
    ensures Rewritten(Rewritten(texts)) == Rewritten(texts) && Entries(Rewritten(texts)) == Entries(texts)
  {
    var w := Rewritten(texts);
    forall i | 0 <= i < |texts|
      ensures Rewritten(w)[i] == w[i] && Entries(w)[i] == Entries(texts)[i]
    {
      SturdySwitch(texts, i);
    }
  }

  lemma ParsedIs(argv: seq<Text>)
    ensures var s := Parsed(argv); var texts := SwitchTexts(Rest(argv), true);
      && s.argv == [if argv == [] then [] else Trim(argv[0])] + (Rewritten(texts) + Arguments(Rest(argv), true))
      && s.beginArgs == 1 + |texts| && s.switches == Mapped(map[], Entries(texts))
      && Rest(s.argv) == Rewritten(texts) + Arguments(Rest(argv), true)
  {
    Inserted(if argv == [] then [] else Trim(argv[0]), Rewritten(SwitchTexts(Rest(argv), true)),
             Arguments(Rest(argv), true));
  }

  lemma Inserted(p: Text, w: seq<Text>, rest: seq<Text>)
    ensures [p][..1] + w + [p][1..] + rest == [p] + (w + rest)
    ensures Rest([p] + (w + rest)) == w + rest
  {
    assert ([p] + (w + rest))[1..] == w + rest;
  }

  /** A vector of switches without fragile ones is a fixed point. */
  lemma SturdyIsFixed(argv: seq<Text>)
    requires AreSturdy(SwitchTexts(Rest(argv), true))
    ensures Parsed(Parsed(argv).argv) == Parsed(argv)
  {
    var texts, rest := SwitchTexts(Rest(argv), true), Arguments(Rest(argv), true);
    ParsedIs(argv);
    ParsedIs(Parsed(argv).argv);
    TextsAreSwitches(Rest(argv), true);
    SturdyAreKept(texts, rest);
    SturdyMapTheSame(texts);
    ArgumentsAreKept(Rest(argv), true);
    assert Rewritten(texts) + [] == Rewritten(texts);
    if argv != [] { TrimTwice(argv[0]); }
  }

  /** Each of these switches is read from the text at the same place. */
  ghost predicate ReadOneByOne(ts: seq<Text>, ws: seq<Text>) {
    |ts| == |ws| && forall i :: 0 <= i < |ws| ==> ts[i] == Trim(ws[i]) && IsSwitch(ts[i])
  }

  lemma ReadOneMore(t: Text, w: Text, ts: seq<Text>, ws: seq<Text>)
    requires ReadOneByOne(ts, ws) && t == Trim(w) && IsSwitch(t)
    ensures ReadOneByOne([t] + ts, [w] + ws)
  {
  }

  /** At most the rewritten switches are read as switches again; if all are,
      each is read as its own trimmed text. */
  lemma {:induction false} AllOrFewer(ws: seq<Text>, tail: seq<Text>, live: bool)
    requires SwitchTexts(tail, true) == []
    ensures var ts := SwitchTexts(ws + tail, live); |ts| < |ws| || ReadOneByOne(ts, ws)
  {
    if ws == [] {
      assert ws + tail == tail;
      NotLive(tail);
    } else {
      var w, stays, parses := ws[0], StaysLive(live, ws[0]), ParsesAsSwitch(live, ws[0]);
      var ts := SwitchTexts(ws[1..] + tail, stays);
      AllOrFewer(ws[1..], tail, stays);
      InFront(w, ws[1..] + tail, live, Trim(w), parses, stays);
      assert ws == [w] + ws[1..];
      Regroup([w], ws[1..], tail);
      if parses && |ts| == |ws| - 1 {
        ReadOneMore(Trim(w), w, ts, ws[1..]);
      }
    }
  }

  lemma RewrittenDiffers(t: Text, again: Text)
    requires IsSwitch(t) && IsFragile(ToSwitch(t))
    requires again == Trim(Combined(ToSwitch(t))) && IsSwitch(again)
    ensures Combined(ToSwitch(again)) != Combined(ToSwitch(t))
  {
    FragileReadsDifferently(t);
    var c := Combined(ToSwitch(t));
    if |Trim(c)| == |c| { SameLengthIsTrimmed(c); }
    CombinedIsNoLonger(again);
  }

  /** With a fragile switch, the vector or the divider changes. */
  lemma FragileIsNotFixed(argv: seq<Text>, k: nat)
    requires k < |SwitchTexts(Rest(argv), true)| && IsFragile(ToSwitch(SwitchTexts(Rest(argv), true)[k]))
    ensures var s := Parsed(argv); var s' := Parsed(s.argv); s'.argv != s.argv || s'.beginArgs != s.beginArgs
  {
    var texts, rest := SwitchTexts(Rest(argv), true), Arguments(Rest(argv), true);
    ParsedIs(argv);
    ParsedIs(Parsed(argv).argv);
    TextsAreSwitches(Rest(argv), true);
    ArgumentsAreKept(Rest(argv), true);
    AllOrFewer(Rewritten(texts), rest, true);
    DifferentVectors(texts, rest, k, Parsed(argv).argv, SwitchTexts(Rewritten(texts) + rest, true),
                     Arguments(Rewritten(texts) + rest, true), Parsed(Parsed(argv).argv).argv);
  }

  lemma DifferentVectors(texts: seq<Text>, rest: seq<Text>, k: nat, v: seq<Text>, again: seq<Text>, rest': seq<Text>,
                         v': seq<Text>)
    requires AreSwitches(texts) && k < |texts| && IsFragile(ToSwitch(texts[k]))
    requires |again| < |texts| || ReadOneByOne(again, Rewritten(texts))
    requires |v| > 0 && v[1..] == Rewritten(texts) + rest
    requires |v'| > 0 && v'[1..] == Rewritten(again) + rest'
    ensures v' != v || |again| != |texts|
  {
    if |again| == |texts| {
      assert texts[k] in texts;
      RewrittenDiffers(texts[k], again[k]);
      assert v[1..][k] == Rewritten(texts)[k] && v'[1..][k] == Rewritten(again)[k];
    }
  }

  lemma SameLengthIsTrimmed(s: Text)
    requires |Trim(s)| == |s|
    ensures Trim(s) == s
  {
    TrimKeepsExactlyTheTrimmed(s);
    if !IsTrimmed(s) { TrimmingShortens(s); }
  }

  /** Parsing the kept vector reproduces the vector, the switch map and the
      divider exactly when no switch before the terminator has an empty value
      after '=' and a name that is empty or ends in whitespace. */
  lemma ReparseIff(argv: seq<Text>)
    ensures Parsed(Parsed(argv).argv) == Parsed(argv) <==>
            forall t :: t in SwitchTexts(Rest(argv), true) ==> !(EQUALS in t && IsFragile(ToSwitch(t)))
  {
    var texts := SwitchTexts(Rest(argv), true);
    TextsAreSwitches(Rest(argv), true);
    forall t | t in texts && IsFragile(ToSwitch(t)) ensures EQUALS in t {
      FragileHasEquals(t);
    }
    if AreSturdy(texts) {
      SturdyIsFixed(argv);
    } else {
      var t :| t in texts && IsFragile(ToSwitch(t));
      var k :| 0 <= k < |texts| && texts[k] == t;
      FragileIsNotFixed(argv, k);
    }
  }

  lemma OneArgument(a: Text)
    ensures SwitchTexts([a], true) == if ParsesAsSwitch(true, a) then [Trim(a)] else []
    ensures Arguments([a], true) == if ParsesAsSwitch(true, a) then [] else [Trim(a)]
  {
    InFront(a, [], true, Trim(a), ParsesAsSwitch(true, a), StaysLive(true, a));
    assert [a] + [] == [a];
  }

  lemma ParsedOne(program: Text, a: Text)
    requires Trim(program) == program
    ensures var s := Parsed([program, a]);
      if ParsesAsSwitch(true, a) then s.argv == [program, Combined(ToSwitch(Trim(a)))] && s.beginArgs == 2
      else s.argv == [program, Trim(a)] && s.beginArgs == 1
  {
    ParsedIs([program, a]);
    OneArgument(a);
    assert Rest([program, a]) == [a];
    OneOrNone(program, Trim(a));
  }

  lemma OneOrNone(program: Text, t: Text)
    ensures [program] + (Rewritten([t]) + []) == [program, Combined(ToSwitch(t))]
    ensures [program] + (Rewritten([]) + [t]) == [program, t]
  {
    assert Rewritten([t]) == [Combined(ToSwitch(t))];
  }

  /** "--=" after the program: it is a switch with an empty name, kept as "--",
      which the next parse takes for the terminator and an argument. */
  lemma EmptyNameBecomesTerminator()
    ensures var program: Text, a: Text := [0x70], [DASH, DASH, EQUALS];
      && Parsed([program, a]).argv == [program, TERMINATOR] && Parsed([program, a]).beginArgs == 2
      && Parsed([program, TERMINATOR]).argv == [program, TERMINATOR] && Parsed([program, TERMINATOR]).beginArgs == 1
  {
    var program: Text, a: Text := [0x70], [DASH, DASH, EQUALS];
    TrimKeepsExactlyTheTrimmed(program);
    TrimKeepsExactlyTheTrimmed(a);
    TrimKeepsExactlyTheTrimmed(TERMINATOR);
    FindIn(TERMINATOR, [], EQUALS);
    assert TERMINATOR + [EQUALS] + [] == a;
    assert ToSwitch(a) == Switch(TERMINATOR, []);
    CombinedIs(a);
    ParsedOne(program, a);
    ParsedOne(program, TERMINATOR);
  }

  /** And "--a =" is kept as "--a ", which the next parse trims to another name. */
  lemma SpaceInNameIsTrimmed()
    ensures var program: Text, a: Text := [0x70], [DASH, DASH, 0x61, 0x20, EQUALS];
      && Parsed([program, a]).argv == [program, [DASH, DASH, 0x61, 0x20]]
      && Parsed(Parsed([program, a]).argv).argv == [program, [DASH, DASH, 0x61]]
  {
    var program: Text, a: Text := [0x70], [DASH, DASH, 0x61, 0x20, EQUALS];
    var kept: Text, again: Text := [DASH, DASH, 0x61, 0x20], [DASH, DASH, 0x61];
    TrimKeepsExactlyTheTrimmed(program);
    TrimKeepsExactlyTheTrimmed(a);
    assert kept + [EQUALS] + [] == a;
    NameAlone(a, kept);
    ParsedOne(program, a);
    assert FirstGood(kept) == 0 && GoodEnd(kept) == 3;
    assert Trim(kept) == again;
    assert again + [] == again;
    NameAlone(again, again);
    ParsedOne(program, kept);
  }

  /** A switch that is only a name, with or without '='. */
  lemma NameAlone(s: Text, name: Text)
    requires IsSwitch(s) && EQUALS !in name && (s == name || s == name + [EQUALS] + [])
    ensures ToSwitch(s) == Switch(name, []) && Combined(ToSwitch(s)) == name
  {
    FindIn(name, [], EQUALS);
    assert name[..|name|] == name;
    CombinedIs(s);
  }

  // ------------------------------------------------------------ what lookup sees

  predicate IsLast(es: seq<(Text, Text)>, i: int) {
    0 <= i < |es| && forall j :: i < j < |es| ==> es[j].0 != es[i].0
  }

  /** The map holds, for each key, the value of the last switch with that key,
      and of keys that no switch has what it held before. */
  lemma {:induction false} LastValueWins(m: map<Text, Text>, es: seq<(Text, Text)>, k: Text)
    ensures (k in Mapped(m, es) <==> k in m || exists i :: IsLast(es, i) && es[i].0 == k)
    ensures forall i :: IsLast(es, i) && es[i].0 == k ==> Mapped(m, es)[k] == es[i].1
    ensures k in m && !(exists i :: IsLast(es, i) && es[i].0 == k) ==> Mapped(m, es)[k] == m[k]
  {
    if es != [] {
      var n := |es| - 1;
      var rest := es[..n];
      LastValueWins(m, rest, k);
      assert IsLast(es, n);
      forall i | 0 <= i < n && es[i].0 == k && es[n].0 != k ensures IsLast(es, i) <==> IsLast(rest, i) {
        assert rest[i] == es[i];
        assert forall j :: i < j < n ==> rest[j] == es[j];
      }
      assert es[n].0 == k ==> forall i :: IsLast(es, i) && es[i].0 == k ==> i == n;
    }
  }

  function WithoutFirst(s: seq<Text>, x: Text): seq<Text> {
    if s == [] then [] else if s[0] == x then s[1..] else [s[0]] + WithoutFirst(s[1..], x)
  }

  /** GetArgs */
  function Args(s: State): seq<Text>
    requires Sound(s)
  {
    WithoutFirst(s.argv[s.beginArgs..], TERMINATOR)
  }

  /** A dash and something, but not just "--". */
  predicate LooksLikeSwitch(t: Text) {
    |t| > 1 && t[0] == 0x2D && t != [0x2D, 0x2D]
  }

  lemma SwitchLooks(t: Text)
    ensures IsSwitch(t) <==> LooksLikeSwitch(t)
  {
  }

  /** What the arguments are, in characters: what is not a switch before the
      first "--", and everything after it. */
  function Positional(args: seq<Text>): seq<Text> {
    if args == [] then []
    else if Trim(args[0]) == [0x2D, 0x2D] then TrimmedAll(args[1..])
    else (if LooksLikeSwitch(Trim(args[0])) then [] else [Trim(args[0])]) + Positional(args[1..])
  }

  lemma {:induction false} WithoutTerminator(args: seq<Text>)
    ensures WithoutFirst(Arguments(args, true), TERMINATOR) == Positional(args)
  {
    if args != [] {
      var a := Trim(args[0]);
      SwitchLooks(a);
      if a == TERMINATOR {
        NotLive(args[1..]);
        assert ([a] + TrimmedAll(args[1..]))[1..] == TrimmedAll(args[1..]);
      } else {
        WithoutTerminator(args[1..]);
        var rest := Arguments(args[1..], true);
        assert ([a] + rest)[1..] == rest;
        assert [] + rest == rest && [] + Positional(args[1..]) == Positional(args[1..]);
      }
    }
  }

  lemma ArgsArePositional(argv: seq<Text>)
    ensures Args(Parsed(argv)) == Positional(Rest(argv))
  {
    ParsedIs(argv);
    var s := Parsed(argv);
    var w := Rewritten(SwitchTexts(Rest(argv), true));
    assert s.argv[s.beginArgs..] == (w + Arguments(Rest(argv), true))[|w|..] == Arguments(Rest(argv), true);
    WithoutTerminator(Rest(argv));
  }

  // ------------------------------------------------------- one argument at a time

  /** AppendSwitchNative and AppendArgNative */
  function WithSwitch(s: State, sw: Switch): (s': State)
    requires Sound(s)
    ensures Sound(s')
  {
    State(s.argv[..s.beginArgs] + [Combined(sw)] + s.argv[s.beginArgs..], s.switches[Key(sw.name) := sw.value],
          s.beginArgs + 1)
  }

  function WithArgument(s: State, arg: Text): (s': State)
    requires Sound(s)
    ensures Sound(s')
  {
    s.(argv := s.argv + [arg])
  }

  lemma {:induction false} MappedFirst(m: map<Text, Text>, e: (Text, Text), es: seq<(Text, Text)>)
    ensures Mapped(m, [e] + es) == Mapped(m[e.0 := e.1], es)
  {
    if es == [] {
      assert [e] + es == [e];
      assert Mapped(m, [e][..0]) == m;
    } else {
      var rest := es[..|es| - 1];
      MappedFirst(m, e, rest);
      assert ([e] + es)[..|es|] == [e] + rest;
    }
  }

  lemma InsertedSwitch(v: seq<Text>, b: nat, c: Text, w: seq<Text>, rest: seq<Text>)
    requires b <= |v|
    ensures var v' := v[..b] + [c] + v[b..];
      v[..b] + ([c] + w) + v[b..] + rest == v'[..b + 1] + w + v'[b + 1..] + rest
  {
    var v' := v[..b] + [c] + v[b..];
    assert v'[..b + 1] == v[..b] + [c] && v'[b + 1..] == v[b..];
  }

  lemma AddedArgument(v: seq<Text>, b: nat, a: Text, w: seq<Text>, rest: seq<Text>)
    requires b <= |v|
    ensures v[..b] + w + v[b..] + ([a] + rest) == (v + [a])[..b] + w + (v + [a])[b..] + rest
  {
    assert (v + [a])[..b] == v[..b] && (v + [a])[b..] == v[b..] + [a];
  }

  lemma SwitchInFront(t: Text, texts: seq<Text>)
    ensures Rewritten([t] + texts) == [Combined(ToSwitch(t))] + Rewritten(texts)
    ensures Entries([t] + texts) == [(Key(ToSwitch(t).name), ToSwitch(t).value)] + Entries(texts)
  {
    assert ([t] + texts)[0] == t && ([t] + texts)[1..] == texts;
    RewrittenFirst([t] + texts);
    EntriesFirst([t] + texts);
  }

  lemma EntriesFirst(texts: seq<Text>)
    requires texts != []
    ensures Entries(texts) == [(Key(ToSwitch(texts[0]).name), ToSwitch(texts[0]).value)] + Entries(texts[1..])
  {
    var es, rest := Entries(texts), Entries(texts[1..]);
    forall i | 0 < i < |texts| ensures es[i] == rest[i - 1] {
      assert texts[i] == texts[1..][i - 1];
    }
    assert es == [es[0]] + rest;
  }

  /** The loop's step: the first argument, then the others. */
  lemma AppendsFirst(s: State, args: seq<Text>, live: bool)
    requires Sound(s) && args != []
    ensures var a, stays := Trim(args[0]), StaysLive(live, args[0]);
      AppendedFrom(s, args, live) ==
      AppendedFrom(if stays && IsSwitch(a) then WithSwitch(s, ToSwitch(a)) else WithArgument(s, a), args[1..], stays)
  {
    var a, stays, parses := Trim(args[0]), StaysLive(live, args[0]), ParsesAsSwitch(live, args[0]);
    var texts, rest := SwitchTexts(args[1..], stays), Arguments(args[1..], stays);
    assert args == [args[0]] + args[1..];
    InFront(args[0], args[1..], live, a, parses, stays);
    if parses {
      AppendsSwitch(s, a, texts, rest);
      Regroup(rest, [], []);
    } else {
      AddedArgument(s.argv, s.beginArgs, a, Rewritten(texts), rest);
      Regroup(texts, [], []);
    }
  }

  lemma AppendsSwitch(s: State, a: Text, texts: seq<Text>, rest: seq<Text>)
    requires Sound(s)
    ensures var s1 := WithSwitch(s, ToSwitch(a));
      && s.argv[..s.beginArgs] + Rewritten([a] + texts) + s.argv[s.beginArgs..] + rest
           == s1.argv[..s1.beginArgs] + Rewritten(texts) + s1.argv[s1.beginArgs..] + rest
      && Mapped(s.switches, Entries([a] + texts)) == Mapped(s1.switches, Entries(texts))
  {
    SwitchInFront(a, texts);
    InsertedSwitch(s.argv, s.beginArgs, Combined(ToSwitch(a)), Rewritten(texts), rest);
    MappedFirst(s.switches, (Key(ToSwitch(a).name), ToSwitch(a).value), Entries(texts));
  }

  lemma AppendsNothing(s: State, live: bool)
    requires Sound(s)
    ensures AppendedFrom(s, [], live) == s
  {
    assert s.argv[..s.beginArgs] + [] + s.argv[s.beginArgs..] + [] == s.argv;
  }

  lemma Assembles(name: Text, value: Text)
    ensures
      var prefixed := if PrefixLength(name) == 0 then TERMINATOR + name else name;
      Combined(Switch(name, value)) == if value != [] then prefixed + ([EQUALS] + value) else prefixed
  {
    Concatenated(name, value);
    Concatenated(TERMINATOR + name, value);
    assert [] + name == name;
  }

  /** One turn of the loop, from the state that it finds. */
  function WithOne(s: State, arg: Text, live: bool): (s': State)
    requires Sound(s)
    ensures Sound(s')
  {
    if ParsesAsSwitch(live, arg) then WithSwitch(s, ToSwitch(Trim(arg))) else WithArgument(s, Trim(arg))
  }

  /** What is left of the loop at argument i. */
  function Left(s: State, args: seq<Text>, i: nat, live: bool): State
    requires Sound(s) && i <= |args|
  {
    AppendedFrom(s, args[i..], live)
  }

  lemma Turns(s: State, args: seq<Text>, i: nat, live: bool)
    requires Sound(s) && i < |args|
    ensures Left(s, args, i, live) == Left(WithOne(s, args[i], live), args, i + 1, StaysLive(live, args[i]))
  {
    AppendsFirst(s, args[i..], live);
    assert args[i..][0] == args[i] && args[i..][1..] == args[i + 1..];
  }

  lemma Ends(s: State, args: seq<Text>, live: bool)
    requires Sound(s)
    ensures Left(s, args, |args|, live) == s
  {
    AppendsNothing(s, live);
    assert args[|args|..] == [];
  }

  /** What WithoutFirst does once the search has come this far. */
  lemma {:induction false} Searched(s: seq<Text>, x: Text, i: nat)
    requires i <= |s| && forall j :: 0 <= j < i ==> s[j] != x
    ensures WithoutFirst(s, x) == s[..i] + WithoutFirst(s[i..], x)
  {
    if i == 0 {
      assert s[0..] == s;
      Regroup(WithoutFirst(s, x), [], []);
    } else {
      Searched(s[1..], x, i - 1);
      assert s[1..][i - 1..] == s[i..];
      assert [s[0]] + (s[1..][..i - 1] + WithoutFirst(s[i..], x)) == s[..i] + WithoutFirst(s[i..], x);
    }
  }
}
