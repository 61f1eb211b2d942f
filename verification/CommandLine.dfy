/** Models base::CommandLine on POSIX as an object: the vector, the switch map,
    the mirror of it that lookups use, and the divider between switches and
    arguments. */
module CommandLines {
  import opened Ascii
  import opened Bits
  import opened CommandLineArgs

  /** Where an entry of switches_by_stringpiece_ points: the value of a key in
      some object's switch map. */
  datatype Pointer = Pointer(owner: CommandLine, key: Text)

  class CommandLine {
    var argv: seq<Text>
    var switches: map<Text, Text>
    var mirror: map<Text, Pointer>   // switches_by_stringpiece_
    var beginArgs: nat

    /** The mirror has the map's keys and points into this map only. */
    ghost predicate Valid()
      reads this
    {
      && 1 <= beginArgs <= |argv|
      && mirror.Keys == switches.Keys
      && forall k :: k in mirror ==> mirror[k] == Pointer(this, k)
    }

    function Model(): State
      reads this
    {
      State(argv, switches, beginArgs)
    }

    /** CommandLine(NO_PROGRAM) */
    constructor ()
      ensures Valid() && Model() == State([[]], map[], 1)
    {
      argv, switches, mirror, beginArgs := [[]], map[], map[], 1;
    }

    /** CommandLine(const StringVector&) */
    constructor FromArgv(args: seq<Text>)
      ensures Valid() && Model() == Parsed(args)
    {
      argv, switches, mirror, beginArgs := [[]], map[], map[], 1;
      new;
      InitFromArgv(args);
    }

    /** The copy constructor: a copied mirror would point into the other's map. */
    constructor Copy(other: CommandLine)
      requires other.Valid()
      ensures Valid() && Model() == other.Model()
    {
      argv, switches, beginArgs := other.argv, other.switches, other.beginArgs;
      mirror := map[];
      new;
      ResetStringPieces();
    }

    /** operator= */
    method Assign(other: CommandLine)
      requires Valid() && other.Valid()
      modifies this
      ensures Valid() && Model() == old(other.Model())
    {
      argv := other.argv;
      switches := other.switches;
      beginArgs := other.beginArgs;
      ResetStringPieces();
    }

    method ResetStringPieces()
      requires 1 <= beginArgs <= |argv|
      modifies this`mirror
      ensures Valid()
    {
      mirror := map[];
      var todo := switches.Keys;
      while todo != {}
        invariant todo <= switches.Keys
        invariant mirror.Keys == switches.Keys - todo
        invariant forall k :: k in mirror ==> mirror[k] == Pointer(this, k)
        decreases todo
      {
        var k :| k in todo;
        mirror := mirror[k := Pointer(this, k)];
        todo := todo - {k};
      }
    }

    method SetProgram(program: Text)
      requires Valid()
      modifies this`argv
      ensures Valid() && argv == old(argv)[0 := Trim(program)]
    {
      argv := argv[0 := Trim(program)];
    }

    method InitFromArgv(args: seq<Text>)
      modifies this
      ensures Valid() && Model() == Parsed(args)
    {
      argv, switches, mirror, beginArgs := [[]], map[], map[], 1;
      SetProgram(if args == [] then [] else args[0]);
      ghost var start := State([if args == [] then [] else Trim(args[0])], map[], 1);
      assert argv == start.argv;
      AppendSwitchesAndArguments(args);
      assert Model() == Appended(start, args);
    }

    /** The switch goes in front of the arguments, as it was written. */
    method AppendSwitchNative(switchString: Text, value: Text)
      requires Valid()
      modifies this
      ensures Valid()
      ensures Model() == WithSwitch(old(Model()), Switch(switchString, value))
    {
      var combined := switchString;
      var prefixLength := PrefixLength(combined);
      var key := switchString[prefixLength..];
      switches := switches[key := value];
      mirror := mirror[key := Pointer(this, key)];
      if prefixLength == 0 {
        combined := TERMINATOR + combined;
      }
      if value != [] {
        combined := combined + ([EQUALS] + value);
      }
      Assembles(switchString, value);
      argv := argv[..beginArgs] + [combined] + argv[beginArgs..];
      beginArgs := beginArgs + 1;
    }

    method AppendArgNative(value: Text)
      requires Valid()
      modifies this`argv
      ensures Valid() && Model() == WithArgument(old(Model()), value)
    {
      argv := argv + [value];
    }

    method AppendSwitchesAndArguments(args: seq<Text>)
      requires Valid()
      modifies this
      ensures Valid() && Model() == Appended(old(Model()), args)
    {
      var parseSwitches := true;
      if args == [] {
        AppendsNothing(Model(), true);
        return;
      }
      ghost var start := Model();
      ghost var end := Left(start, args, 1, true);
      var i := 1;
      while i < |args|
        invariant 1 <= i <= |args| && Valid()
        invariant Left(Model(), args, i, parseSwitches) == end
      {
        Turns(Model(), args, i, parseSwitches);
        parseSwitches := AppendOne(args[i], parseSwitches);
        i := i + 1;
      }
      Ends(Model(), args, parseSwitches);
    }

    /** One turn of the loop. */
    method AppendOne(text: Text, live: bool) returns (parseSwitches: bool)
      requires Valid()
      modifies this
      ensures Valid() && Model() == WithOne(old(Model()), text, live) && parseSwitches == StaysLive(live, text)
    {
      var arg := Trim(text);
      parseSwitches := live && arg != TERMINATOR;
      if parseSwitches && IsSwitch(arg) {
        var sw := ToSwitch(arg);
        AppendSwitchNative(sw.name, sw.value);
      } else {
        AppendArgNative(arg);
      }
    }

    method AppendArguments(other: CommandLine, includeProgram: bool)
      requires Valid() && other.Valid()
      modifies this
      ensures Valid()
      ensures
        var start := if includeProgram then old(Model()).(argv := old(argv)[0 := Trim(old(other.argv)[0])])
                     else old(Model());
        Model() == AppendedFrom(start, Rest(old(other.argv)), true)
    {
      if includeProgram {
        SetProgram(other.argv[0]);
      }
      AppendSwitchesAndArguments(other.argv);
    }

    method GetArgs() returns (args: seq<Text>)
      requires Valid()
      ensures args == Args(Model())
    {
      args := argv[beginArgs..];
      var i := 0;
      while i < |args| && args[i] != TERMINATOR
        invariant i <= |args| && forall j :: 0 <= j < i ==> args[j] != TERMINATOR
      {
        i := i + 1;
      }
      Searched(args, TERMINATOR, i);
      if i < |args| {
        args := args[..i] + args[i + 1..];
      }
    }

    /** Reads through the mirror. */
    function GetSwitchValueNative(name: Text): Text
      requires Valid()
      reads this
      ensures GetSwitchValueNative(name) == if name in switches then switches[name] else []
    {
      if name in mirror then mirror[name].owner.switches[mirror[name].key] else []
    }

    predicate HasSwitch(name: Text)
      requires Valid()
      reads this
      ensures HasSwitch(name) <==> name in switches
    {
      name in mirror
    }
  }

  /** A parsed vector, copied and parsed again: the same, and the copy's lookups
      do not reach into the original. */
  method Reparse(args: seq<Text>) returns (again: CommandLine, copy: CommandLine)
    ensures again.Valid() && copy.Valid() && fresh(again) && fresh(copy)
    ensures copy.Model() == Parsed(args)
    ensures again.Model() == copy.Model() <==>
            forall t :: t in SwitchTexts(Rest(args), true) ==> !(EQUALS in t && IsFragile(ToSwitch(t)))
  {
    var first := new CommandLine.FromArgv(args);
    copy := new CommandLine.Copy(first);
    again := new CommandLine.FromArgv(copy.argv);
    ReparseIff(args);
  }
}
