/** Models AlterEnvironment of base/environment.cc, for Windows (one block of
    terminated strings) and for POSIX (an array of pointers with the strings
    behind it in the same allocation). */
module Environments {

  import opened Options

  /** One char or wchar_t; 0 ends a string. */
  type Unit = nat
  type Text = seq<Unit>

  const NUL: Unit := 0
  const EQUALS: Unit := 0x3D

  type Changes = map<Text, Text>

  // --------------------------------------------------------------- the lines

  /** Up to the '=', or the whole line. */
  function KeyLength(line: Text): (n: nat)
    ensures n <= |line| && (forall i :: 0 <= i < n ==> line[i] != EQUALS) && (n < |line| ==> line[n] == EQUALS)
  {
    if line == [] || line[0] == EQUALS then 0 else 1 + KeyLength(line[1..])
  }

  function KeyOf(line: Text): Text {
    line[..KeyLength(line)]
  }

  /** The lines whose key is not to be changed. */
  function Unchanged(env: seq<Text>, changes: Changes): seq<Text> {
    if env == [] then []
    else
      var rest, line := Unchanged(env[..|env| - 1], changes), env[|env| - 1];
      if KeyOf(line) in changes then rest else rest + [line]
  }

  function Line(key: Text, value: Text): Text {
    key + [EQUALS] + value
  }

  /** The lines of the changes that have a value, in the map's order. */
  function Added(changes: Changes, order: seq<Text>): seq<Text>
    requires forall k :: k in order ==> k in changes
  {
    if order == [] then []
    else
      var rest, k := Added(changes, order[..|order| - 1]), order[|order| - 1];
      if changes[k] == [] then rest else rest + [Line(k, changes[k])]
  }

  ghost predicate Enumerates(order: seq<Text>, changes: Changes) {
    forall k :: k in order <==> k in changes
  }

  /** What AlterEnvironment makes of an environment, line by line. */
  function Altered(env: seq<Text>, changes: Changes, order: seq<Text>): seq<Text>
    requires forall k :: k in order ==> k in changes
  {
    Unchanged(env, changes) + Added(changes, order)
  }

  // ------------------------------------------------------------------ lookup

  predicate Defines(line: Text, key: Text) {
    KeyOf(line) == key && KeyLength(line) < |line|
  }

  /** getenv: the value in the first line that defines the key. */
  function Lookup(env: seq<Text>, key: Text): Option<Text> {
    if env == [] then None
    else if Defines(env[0], key) then Some(env[0][KeyLength(env[0]) + 1..])
    else Lookup(env[1..], key)
  }

  predicate IsKey(key: Text) {
    EQUALS !in key
  }

  ghost predicate AreKeys(changes: Changes) {
    forall k :: k in changes ==> IsKey(k)
  }

  lemma {:induction false} KeyLengthOf(key: Text, rest: Text)
    requires EQUALS !in key
    ensures KeyLength(key + [EQUALS] + rest) == |key|
  {
    var line := key + [EQUALS] + rest;
    if key == [] {
      assert line[0] == EQUALS;
    } else {
      assert line[0] == key[0] && line[1..] == key[1..] + [EQUALS] + rest;
      KeyLengthOf(key[1..], rest);
    }
  }

  lemma LineDefines(key: Text, value: Text)
    requires IsKey(key)
    ensures KeyOf(Line(key, value)) == key && KeyLength(Line(key, value)) == |key| && Defines(Line(key, value), key)
    ensures Line(key, value)[|key| + 1..] == value
  {
    KeyLengthOf(key, value);
  }

  lemma {:induction false} LookupConcat(a: seq<Text>, b: seq<Text>, key: Text)
    ensures Lookup(a + b, key) == if Lookup(a, key).Some? then Lookup(a, key) else Lookup(b, key)
  {
    if a == [] {
      assert a + b == b;
    } else {
      assert (a + b)[1..] == a[1..] + b;
      LookupConcat(a[1..], b, key);
    }
  }

  lemma {:induction false} LookupUnchanged(env: seq<Text>, changes: Changes, key: Text)
    ensures Lookup(Unchanged(env, changes), key) == if key in changes then None else Lookup(env, key)
  {
    if env != [] {
      var rest, line := env[..|env| - 1], env[|env| - 1];
      LookupUnchanged(rest, changes, key);
      LookupConcat(rest, [line], key);
      assert env == rest + [line];
      LookupConcat(Unchanged(rest, changes), [line], key);
    }
  }

  lemma {:induction false} LookupAdded(changes: Changes, order: seq<Text>, key: Text)
    requires AreKeys(changes) && forall k :: k in order ==> k in changes
    ensures Lookup(Added(changes, order), key) ==
            if key in order && changes[key] != [] then Some(changes[key]) else None
  {
    if order != [] {
      var rest, k := order[..|order| - 1], order[|order| - 1];
      LookupAdded(changes, rest, key);
      assert order == rest + [k];
      if changes[k] != [] {
        LookupConcat(Added(changes, rest), [Line(k, changes[k])], key);
        LineDefines(k, changes[k]);
      }
    }
  }

  /** Afterwards a changed variable has its new value, or none if that is
      empty, and every other variable what it had, whatever the lines look
      like: repeated keys, lines without '=', the order of the changes. */
  lemma AlteredLookup(env: seq<Text>, changes: Changes, order: seq<Text>, key: Text)
    requires AreKeys(changes) && Enumerates(order, changes)
    ensures Lookup(Altered(env, changes, order), key) ==
            if key !in changes then Lookup(env, key)
            else if changes[key] == [] then None else Some(changes[key])
  {
    LookupConcat(Unchanged(env, changes), Added(changes, order), key);
    LookupUnchanged(env, changes, key);
    LookupAdded(changes, order, key);
  }

  /** One change after another is one merged change, the later one winning. */
  lemma AlteringTwiceMerges(env: seq<Text>, first: Changes, order1: seq<Text>, second: Changes, order2: seq<Text>,
                            merged: seq<Text>, key: Text)
    requires AreKeys(first) && AreKeys(second)
    requires Enumerates(order1, first) && Enumerates(order2, second) && Enumerates(merged, first + second)
    ensures Lookup(Altered(Altered(env, first, order1), second, order2), key)
         == Lookup(Altered(env, first + second, merged), key)
  {
    AlteredLookup(env, first, order1, key);
    AlteredLookup(Altered(env, first, order1), second, order2, key);
    AlteredLookup(env, first + second, merged, key);
  }

  lemma {:induction false} NoLineDefinesEquals(env: seq<Text>, key: Text)
    requires !IsKey(key)
    ensures Lookup(env, key) == None
  {
    if env != [] {
      assert KeyOf(env[0]) != key;
      NoLineDefinesEquals(env[1..], key);
    }
  }

  // Names of changes that contain '=' themselves.

  /** What the line of a change makes of the variable it defines: a name with
      '=' defines what stands before it, and the rest goes to the value. */
  function DefinedValue(name: Text, value: Text): Text {
    if IsKey(name) then value else name[KeyLength(name) + 1..] + [EQUALS] + value
  }

  lemma LineIs(name: Text, value: Text)
    ensures var line := Line(name, value);
      && KeyOf(line) == KeyOf(name) && KeyLength(line) < |line|
      && line[KeyLength(line) + 1..] == DefinedValue(name, value)
  {
    var n := KeyLength(name);
    if IsKey(name) {
      NoEquals(name);
      assert name[..n] == name;
      LineDefines(name, value);
    } else {
      HasEquals(name);
      var rest := name[n + 1..] + [EQUALS] + value;
      assert Line(name, value) == name[..n] + [EQUALS] + rest;
      KeyLengthOf(name[..n], rest);
      assert Line(name, value)[n + 1..] == rest;
    }
  }

  lemma {:induction false} NoEquals(name: Text)
    requires IsKey(name)
    ensures KeyLength(name) == |name|
  {
    if name != [] { NoEquals(name[1..]); }
  }

  lemma {:induction false} HasEquals(name: Text)
    requires !IsKey(name)
    ensures KeyLength(name) < |name| && EQUALS !in name[..KeyLength(name)]
  {
    if name[0] != EQUALS {
      assert name == [name[0]] + name[1..];
      HasEquals(name[1..]);
    }
  }

  /** The first change with a value whose line defines this variable, or the
      number of changes. */
  function FirstDefining(changes: Changes, order: seq<Text>, key: Text): (i: nat)
    requires forall k :: k in order ==> k in changes
    ensures i <= |order|
    ensures i < |order| ==> changes[order[i]] != [] && KeyOf(order[i]) == key
    ensures forall j :: 0 <= j < i ==> changes[order[j]] == [] || KeyOf(order[j]) != key
  {
    if order == [] || (changes[order[0]] != [] && KeyOf(order[0]) == key) then 0
    else 1 + FirstDefining(changes, order[1..], key)
  }

  lemma {:induction false} AddedFirst(changes: Changes, order: seq<Text>)
    requires order != [] && forall k :: k in order ==> k in changes
    ensures Added(changes, order) ==
            (if changes[order[0]] == [] then [] else [Line(order[0], changes[order[0]])]) + Added(changes, order[1..])
  {
    var n := |order| - 1;
    var last := if changes[order[n]] == [] then [] else [Line(order[n], changes[order[n]])];
    assert Added(changes, order[..n]) + [] == Added(changes, order[..n]);
    assert Added(changes, order) == Added(changes, order[..n]) + last;
    if n == 0 {
      assert order[..0] == [] && order[1..] == [];
      assert [] + last == last && last + [] == last;
    } else {
      AddedFirst(changes, order[..n]);
      assert order[..n][1..] == order[1..][..n - 1];
      var first := if changes[order[0]] == [] then [] else [Line(order[0], changes[order[0]])];
      var middle := Added(changes, order[1..][..n - 1]);
      assert middle + [] == middle;
      assert (first + middle) + last == first + (middle + last);
    }
  }

  lemma {:induction false} LookupAddedAny(changes: Changes, order: seq<Text>, key: Text)
    requires forall k :: k in order ==> k in changes
    ensures var i := FirstDefining(changes, order, key);
      Lookup(Added(changes, order), key) ==
        if i < |order| then Some(DefinedValue(order[i], changes[order[i]])) else None
  {
    if order != [] {
      var name, value := order[0], changes[order[0]];
      var rest := Added(changes, order[1..]);
      AddedFirst(changes, order);
      LookupAddedAny(changes, order[1..], key);
      LineIs(name, value);
      assert [] + rest == rest;
      assert ([Line(name, value)] + rest)[1..] == rest;
    }
  }

  /** For change maps of any names: a variable that is not itself a change and
      was there keeps its value; else the first change whose line defines it
      decides.  Nothing defines a name with '='. */
  lemma LookupOfAnyNames(env: seq<Text>, changes: Changes, order: seq<Text>, key: Text)
    requires Enumerates(order, changes)
    ensures var i := FirstDefining(changes, order, key);
      Lookup(Altered(env, changes, order), key) ==
        if key !in changes && Lookup(env, key).Some? then Lookup(env, key)
        else if i < |order| then Some(DefinedValue(order[i], changes[order[i]])) else None
    ensures !IsKey(key) ==> Lookup(Altered(env, changes, order), key) == None
  {
    LookupConcat(Unchanged(env, changes), Added(changes, order), key);
    LookupUnchanged(env, changes, key);
    LookupAddedAny(changes, order, key);
    if !IsKey(key) { NoLineDefinesEquals(Altered(env, changes, order), key); }
  }

  /** A std::map lists a name before every longer one that begins with it. */
  ghost predicate PrefixesFirst(order: seq<Text>) {
    forall i, j :: 0 <= i < j < |order| ==> !(order[j] < order[i])
  }

  /** A variable that is set is found again exactly when its name has no '=',
      whatever else is set with it. */
  lemma SetVariableIsFoundIff(env: seq<Text>, changes: Changes, order: seq<Text>, key: Text)
    requires Enumerates(order, changes) && PrefixesFirst(order) && key in changes && changes[key] != []
    ensures Lookup(Altered(env, changes, order), key) == Some(changes[key]) <==> IsKey(key)
  {
    LookupOfAnyNames(env, changes, order, key);
    if IsKey(key) {
      var i := FirstDefining(changes, order, key);
      assert key in order;
      var p :| 0 <= p < |order| && order[p] == key;
      NoEquals(key);
      assert key[..|key|] == key;
      assert i <= p;
      PlainNameFirst(order, i, p, key);
    }
  }

  lemma PlainNameFirst(order: seq<Text>, i: nat, p: nat, key: Text)
    requires PrefixesFirst(order) && i <= p < |order| && order[p] == key && KeyOf(order[i]) == key
    ensures order[i] == key
  {
    assert i < p ==> !(order[p] < order[i]);
  }

  /** Set together in another order, a name with '=' can shadow the plain one. */
  lemma EqualsNameShadows(value: Text, other: Text)
    requires value != [] && other != []
    ensures var a: Text, b: Text := [0x41], [0x41, EQUALS];
      Lookup(Altered([], map[a := value, b := other], [b, a]), a) == Some([EQUALS] + other)
  {
    var a: Text, b: Text := [0x41], [0x41, EQUALS];
    var changes := map[a := value, b := other];
    KeyLengthOf(a, []);
    assert a + [EQUALS] + [] == b && b[..1] == a;
    LookupOfAnyNames([], changes, [b, a], a);
    assert FirstDefining(changes, [b, a], a) == 0;
    assert b[2..] + [EQUALS] + other == [EQUALS] + other;
  }

  // ------------------------------------------------------ terminated strings

  predicate IsLine(line: Text) {
    NUL !in line
  }

  predicate AreLines(lines: seq<Text>) {
    forall i :: 0 <= i < |lines| ==> IsLine(lines[i])
  }

  /** The lines one after another, each with its terminator. */
  function Flat(lines: seq<Text>): Text {
    if lines == [] then [] else Flat(lines[..|lines| - 1]) + lines[|lines| - 1] + [NUL]
  }

  lemma FlatAppends(lines: seq<Text>, line: Text)
    ensures Flat(lines + [line]) == Flat(lines) + line + [NUL]
  {
    assert (lines + [line])[..|lines|] == lines;
  }

  /** The C string at an address. */
  function CString(mem: seq<Unit>, at: nat): (s: Text)
    ensures NUL !in s
    decreases |mem| - at
  {
    if at >= |mem| || mem[at] == NUL then [] else [mem[at]] + CString(mem, at + 1)
  }

  predicate Terminated(mem: seq<Unit>, at: nat) {
    at + |CString(mem, at)| < |mem|
  }

  lemma {:induction false} CStringIs(mem: seq<Unit>, at: nat, line: Text)
    requires IsLine(line) && at + |line| < |mem| && mem[at..at + |line|] == line && mem[at + |line|] == NUL
    ensures CString(mem, at) == line && Terminated(mem, at)
    decreases |line|
  {
    if line != [] {
      assert mem[at] == mem[at..at + |line|][0] == line[0];
      assert mem[at + 1..at + 1 + |line[1..]|] == mem[at..at + |line|][1..];
      CStringIs(mem, at + 1, line[1..]);
    }
  }

  lemma {:induction false} CStringLies(mem: seq<Unit>, at: nat)
    requires Terminated(mem, at)
    ensures var s := CString(mem, at); mem[at..at + |s|] == s && mem[at + |s|] == NUL
    decreases |mem| - at
  {
    if mem[at] != NUL {
      CStringLies(mem, at + 1);
      var s := CString(mem, at + 1);
      assert mem[at..at + 1 + |s|] == [mem[at]] + mem[at + 1..at + 1 + |s|];
    }
  }

  lemma UnitsOf(mem: seq<Unit>, at: nat)
    requires Terminated(mem, at)
    ensures var s := CString(mem, at);
      && (forall i :: 0 <= i < |s| ==> mem[at + i] == s[i] != NUL)
      && mem[at + |s|] == NUL
  {
    CStringLies(mem, at);
    var s := CString(mem, at);
    forall i | 0 <= i < |s| ensures mem[at + i] == s[i] != NUL {
      assert mem[at..at + |s|][i] == s[i] && s[i] in s;
    }
  }

  lemma {:induction false} FirstNul(mem: seq<Unit>, at: nat, n: nat)
    requires Terminated(mem, at) && n <= |CString(mem, at)| && mem[at + n] == NUL
    ensures n == |CString(mem, at)|
    decreases n
  {
    if n > 0 {
      FirstNul(mem, at + 1, n - 1);
    }
  }

  /** The key and the length with the terminator of the line at an address. */
  method ParseEnvLine(input: seq<Unit>, at: nat) returns (key: Text, length: nat)
    requires Terminated(input, at)
    ensures key == KeyOf(CString(input, at)) && length == |CString(input, at)| + 1
  {
    ghost var line := CString(input, at);
    UnitsOf(input, at);
    var cur := 0;
    while input[at + cur] != NUL && input[at + cur] != EQUALS
      invariant cur <= |line|
      invariant forall i :: 0 <= i < cur ==> line[i] != EQUALS
      decreases |line| - cur
    {
      cur := cur + 1;
    }
    KeyEnds(line, cur);
    assert input[at..at + cur] == line[..cur];
    key := input[at..at + cur];
    while input[at + cur] != NUL
      invariant cur <= |line|
      decreases |line| - cur
    {
      cur := cur + 1;
    }
    FirstNul(input, at, cur);
    length := cur + 1;
  }

  lemma {:induction false} KeyEnds(line: Text, n: nat)
    requires n <= |line| && (forall i :: 0 <= i < n ==> line[i] != EQUALS) && (n < |line| ==> line[n] == EQUALS)
    ensures KeyLength(line) == n
  {
    if n > 0 {
      KeyEnds(line[1..], n - 1);
    }
  }

  lemma FlatGrows(lines: seq<Text>, line: Text)
    ensures Flat(lines + [line]) == Flat(lines) + (line + [NUL])
    ensures Flat(lines + []) == Flat(lines)
  {
    FlatAppends(lines, line);
    assert lines + [] == lines;
    assert Flat(lines) + line + [NUL] == Flat(lines) + (line + [NUL]);
  }

  lemma {:induction false} FlatIsPrefix(lines: seq<Text>, n: nat)
    requires n <= |lines|
    ensures |Flat(lines[..n])| <= |Flat(lines)| && Flat(lines)[..|Flat(lines[..n])|] == Flat(lines[..n])
    decreases |lines| - n
  {
    if n == |lines| {
      assert lines[..n] == lines;
    } else {
      FlatIsPrefix(lines, n + 1);
      assert lines[..n] + [lines[n]] == lines[..n + 1];
      FlatAppends(lines[..n], lines[n]);
      assert Flat(lines)[..|Flat(lines[..n])|] == Flat(lines)[..|Flat(lines[..n + 1])|][..|Flat(lines[..n])|];
    }
  }

  lemma SliceOfSlice(m: seq<Unit>, base: nat, f: seq<Unit>, o: nat, n: nat)
    requires base + |f| <= |m| && m[base..base + |f|] == f && o + n <= |f|
    ensures m[base + o..base + o + n] == f[o..o + n]
  {
    var g, h := m[base + o..base + o + n], f[o..o + n];
    forall k | 0 <= k < n ensures g[k] == h[k] {
      assert m[base..base + |f|][o + k] == m[base + o + k];
    }
    assert g == h;
  }

  /** Where line i lies in the storage. */
  lemma LineInFlat(lines: seq<Text>, i: nat)
    requires i < |lines|
    ensures var o := |Flat(lines[..i])|; var n := |lines[i]| + 1;
      && o + n == |Flat(lines[..i + 1])| <= |Flat(lines)|
      && Flat(lines)[o..o + n] == lines[i] + [NUL]
  {
    var o, n := |Flat(lines[..i])|, |lines[i]| + 1;
    assert lines[..i] + [lines[i]] == lines[..i + 1];
    FlatGrows(lines[..i], lines[i]);
    FlatIsPrefix(lines, i + 1);
    var g := Flat(lines[..i + 1]);
    assert g[o..o + n] == lines[i] + [NUL];
    assert Flat(lines)[o..o + n] == Flat(lines)[..|g|][o..o + n];
  }

  lemma CStringFrom(mem: seq<Unit>, at: nat, line: Text)
    requires IsLine(line) && at + |line| < |mem| && mem[at..at + |line| + 1] == line + [NUL]
    ensures CString(mem, at) == line && Terminated(mem, at)
  {
    var m := mem[at..at + |line| + 1];
    assert mem[at + |line|] == m[|line|];
    assert mem[at..at + |line|] == m[..|line|];
    CStringIs(mem, at, line);
  }

  lemma StoredAt(memory: seq<Unit>, base: nat, f: seq<Unit>, o: nat, line: Text)
    requires IsLine(line) && base + |f| <= |memory| && memory[base..base + |f|] == f
    requires o + |line| + 1 <= |f| && f[o..o + |line| + 1] == line + [NUL]
    ensures Terminated(memory, base + o) && CString(memory, base + o) == line
  {
    SliceOfSlice(memory, base, f, o, |line| + 1);
    CStringFrom(memory, base + o, line);
  }

  // ----------------------------------------------------------------- Windows

  /** A block: the lines and one more terminator; without lines, two. */
  function Block(lines: seq<Text>): Text {
    Flat(lines) + (if lines == [] then [NUL] else []) + [NUL]
  }

  /** The memory at env begins with these lines and a terminator after them. */
  ghost predicate Holds(env: seq<Unit>, lines: seq<Text>) {
    && AreLines(lines) && (forall i :: 0 <= i < |lines| ==> lines[i] != [])
    && |Flat(lines)| < |env| && env[..|Flat(lines)|] == Flat(lines) && env[|Flat(lines)|] == NUL
  }

  /** The part of env that holds line i, and where it is. */
  lemma LineLies(env: seq<Unit>, lines: seq<Text>, i: nat)
    requires Holds(env, lines) && i < |lines|
    ensures var at := |Flat(lines[..i])|;
      && at < |env| && env[at] != NUL && Terminated(env, at) && CString(env, at) == lines[i]
      && at + |lines[i]| + 1 == |Flat(lines[..i + 1])| <= |Flat(lines)|
  {
    LineInFlat(lines, i);
    LineLiesAt(env, Flat(lines), |Flat(lines[..i])|, lines[i]);
  }

  lemma LineLiesAt(env: seq<Unit>, f: seq<Unit>, o: nat, line: Text)
    requires IsLine(line) && line != [] && |f| <= |env| && env[..|f|] == f
    requires o + |line| + 1 <= |f| && f[o..o + |line| + 1] == line + [NUL]
    ensures o < |env| && env[o] != NUL && Terminated(env, o) && CString(env, o) == line
  {
    assert env[0..0 + |f|] == f;
    StoredAt(env, 0, f, o, line);
    UnitsOf(env, o);
  }

  /** The lines of the block at env. */
  function Parse(env: seq<Unit>, at: nat): seq<Text>
    decreases |env| - at
  {
    if at >= |env| || env[at] == NUL then []
    else [CString(env, at)] + Parse(env, at + |CString(env, at)| + 1)
  }

  lemma {:induction false} ParsesFrom(env: seq<Unit>, lines: seq<Text>, i: nat)
    requires Holds(env, lines) && i <= |lines|
    ensures Parse(env, |Flat(lines[..i])|) == lines[i..]
    decreases |lines| - i
  {
    if i == |lines| {
      assert lines[..i] == lines;
    } else {
      LineLies(env, lines, i);
      ParsesFrom(env, lines, i + 1);
      assert [lines[i]] + lines[i + 1..] == lines[i..];
    }
  }

  lemma BlockHolds(lines: seq<Text>)
    requires AreLines(lines) && forall i :: 0 <= i < |lines| ==> lines[i] != []
    ensures Holds(Block(lines), lines)
    ensures |Block(lines)| >= 2 && Block(lines)[|Block(lines)| - 2..] == [0, 0]
  {
    var f := Flat(lines);
    assert Block(lines)[..|f|] == f;
    if lines != [] {
      assert f[|f| - 1] == NUL;
    }
  }

  /** A block parses back, line by line, to the lines it was made of, and ends
      in two terminators. */
  lemma BlockParsesBack(lines: seq<Text>)
    requires AreLines(lines) && forall i :: 0 <= i < |lines| ==> lines[i] != []
    ensures Parse(Block(lines), 0) == lines
    ensures |Block(lines)| >= 2 && Block(lines)[|Block(lines)| - 2..] == [0, 0]
  {
    BlockHolds(lines);
    assert Flat(lines[..0]) == [] && lines[0..] == lines;
    ParsesFrom(Block(lines), lines, 0);
  }

  ghost predicate AreTexts(changes: Changes) {
    forall k :: k in changes ==> NUL !in k && NUL !in changes[k]
  }

  predicate NoneEmpty(lines: seq<Text>) {
    forall i :: 0 <= i < |lines| ==> lines[i] != []
  }

  lemma {:induction false} UnchangedAreLines(env: seq<Text>, changes: Changes)
    ensures AreLines(env) ==> AreLines(Unchanged(env, changes))
    ensures NoneEmpty(env) ==> NoneEmpty(Unchanged(env, changes))
  {
    if env != [] {
      UnchangedAreLines(env[..|env| - 1], changes);
    }
  }

  lemma {:induction false} AddedAreLines(changes: Changes, order: seq<Text>)
    requires AreTexts(changes) && forall k :: k in order ==> k in changes
    ensures AreLines(Added(changes, order)) && NoneEmpty(Added(changes, order))
  {
    if order != [] {
      var k := order[|order| - 1];
      assert k in order;
      AddedAreLines(changes, order[..|order| - 1]);
    }
  }

  lemma AlteredAreLines(env: seq<Text>, changes: Changes, order: seq<Text>)
    requires AreTexts(changes) && AreLines(env) && forall k :: k in order ==> k in changes
    ensures AreLines(Altered(env, changes, order))
    ensures NoneEmpty(env) ==> NoneEmpty(Altered(env, changes, order))
  {
    UnchangedAreLines(env, changes);
    AddedAreLines(changes, order);
  }

  /** One more line of the environment. */
  lemma NextUnchanged(env: seq<Text>, changes: Changes, i: nat)
    requires i < |env|
    ensures Unchanged(env[..i + 1], changes) ==
            Unchanged(env[..i], changes) + if KeyOf(env[i]) in changes then [] else [env[i]]
  {
    assert env[..i + 1][..i] == env[..i];
    assert Unchanged(env[..i], changes) + [] == Unchanged(env[..i], changes);
  }

  /** One more change. */
  lemma NextAltered(env: seq<Text>, changes: Changes, order: seq<Text>, i: nat)
    requires i < |order| && forall k :: k in order ==> k in changes
    ensures Altered(env, changes, order[..i + 1]) ==
            Altered(env, changes, order[..i])
              + if changes[order[i]] == [] then [] else [Line(order[i], changes[order[i]])]
  {
    assert order[..i + 1][..i] == order[..i];
    var a, b := Unchanged(env, changes), Added(changes, order[..i]);
    var more := if changes[order[i]] == [] then [] else [Line(order[i], changes[order[i]])];
    assert b + [] == b;
    assert a + (b + more) == (a + b) + more;
  }

  /** AlterEnvironment on Windows. */
  method AlterBlock(env: seq<Unit>, ghost lines: seq<Text>, changes: Changes, order: seq<Text>)
    returns (result: seq<Unit>)
    requires Holds(env, lines) && Enumerates(order, changes) && AreTexts(changes)
    ensures result == Block(Altered(lines, changes, order))
    ensures Parse(result, 0) == Altered(lines, changes, order)
  {
    result := CopyUnchanged(env, lines, changes);
    result := AppendChanges(result, lines, changes, order);
    if result == [] {
      result := result + [NUL];
    }
    result := result + [NUL];
    AlteredAreLines(lines, changes, order);
    BlockParsesBack(Altered(lines, changes, order));
  }

  /** The first loop: the lines whose key is not to be changed. */
  method CopyUnchanged(env: seq<Unit>, ghost lines: seq<Text>, changes: Changes) returns (result: seq<Unit>)
    requires Holds(env, lines)
    ensures result == Flat(Unchanged(lines, changes))
  {
    result := [];
    var curEnv := 0;
    ghost var i := 0;
    assert lines[..0] == [] && Flat([]) == [];
    NextStop(env, lines, 0);
    while env[curEnv] != NUL
      invariant i <= |lines| && curEnv == |Flat(lines[..i])| < |env|
      invariant env[curEnv] != NUL <==> i < |lines|
      invariant result == Flat(Unchanged(lines[..i], changes))
      decreases |lines| - i
    {
      LineLies(env, lines, i);
      var key, lineLength := ParseEnvLine(env, curEnv);
      NextUnchanged(lines, changes, i);
      FlatGrows(Unchanged(lines[..i], changes), lines[i]);
      if key !in changes {
        LineAndNul(env, curEnv);
        result := result + env[curEnv..curEnv + lineLength];
      }
      curEnv := curEnv + lineLength;
      i := i + 1;
      NextStop(env, lines, i);
    }
    assert lines[..i] == lines;
  }

  lemma LineAndNul(mem: seq<Unit>, at: nat)
    requires Terminated(mem, at)
    ensures mem[at..at + |CString(mem, at)| + 1] == CString(mem, at) + [NUL]
  {
    CStringLies(mem, at);
  }

  lemma NextStop(env: seq<Unit>, lines: seq<Text>, i: nat)
    requires Holds(env, lines) && i <= |lines|
    ensures |Flat(lines[..i])| < |env| && (env[|Flat(lines[..i])|] != NUL <==> i < |lines|)
  {
    if i < |lines| {
      LineLies(env, lines, i);
    } else {
      assert lines[..i] == lines;
    }
  }

  /** The second loop: the changes that have a value. */
  method AppendChanges(start: seq<Unit>, ghost lines: seq<Text>, changes: Changes, order: seq<Text>)
    returns (result: seq<Unit>)
    requires Enumerates(order, changes) && start == Flat(Unchanged(lines, changes))
    ensures result == Flat(Altered(lines, changes, order))
  {
    result := start;
    assert order[..0] == [] && Unchanged(lines, changes) + [] == Unchanged(lines, changes);
    var i := 0;
    while i < |order|
      invariant i <= |order| && result == Flat(Altered(lines, changes, order[..i]))
    {
      var key, value := order[i], changes[order[i]];
      NextAltered(lines, changes, order, i);
      FlatGrows(Altered(lines, changes, order[..i]), Line(key, value));
      if value != [] {
        result := result + (key + [EQUALS] + value + [NUL]);
      }
      i := i + 1;
    }
    assert order[..i] == order;
  }

  // ------------------------------------------------------------------- POSIX

  /** The strings that an array of pointers leads to. */
  function Strings(env: seq<seq<Unit>>): seq<Text> {
    seq(|env|, i requires 0 <= i < |env| => CString(env[i], 0))
  }

  /** Where each line begins in the storage that holds them all. */
  ghost predicate Indexes(indices: seq<nat>, lines: seq<Text>) {
    |indices| == |lines| && forall i :: 0 <= i < |indices| ==> indices[i] == |Flat(lines[..i])|
  }

  lemma IndexesGrow(indices: seq<nat>, lines: seq<Text>, line: Text)
    requires Indexes(indices, lines)
    ensures Indexes(indices + [|Flat(lines)|], lines + [line])
  {
    forall i | 0 <= i < |indices| + 1
      ensures (indices + [|Flat(lines)|])[i] == |Flat((lines + [line])[..i])|
    {
      assert (lines + [line])[..i] == lines[..i];
      assert lines[..|lines|] == lines;
    }
  }

  /** A pointer to each line inside one allocation of memory, whose first words
      hold the pointers and the final null. */
  ghost predicate PointsTo(pointers: seq<Option<nat>>, memory: seq<Unit>, word: nat, lines: seq<Text>) {
    && |pointers| == |lines| + 1 && pointers[|lines|] == None
    && forall i :: 0 <= i < |lines| ==>
         && pointers[i].Some?
         && |pointers| * word <= pointers[i].value
         && Terminated(memory, pointers[i].value)
         && CString(memory, pointers[i].value) == lines[i]
  }

  /** The words that hold so many units. */
  function Words(units: nat, word: nat): nat
    requires word == 4 || word == 8
  {
    if word == 4 then (units + 3) / 4 else (units + 7) / 8
  }

  /** The size of the allocation, in words. */
  function PointerCount(lines: seq<Text>, word: nat): nat
    requires word == 4 || word == 8
  {
    |lines| + 1 + Words(|Flat(lines)|, word)
  }

  lemma StoredLine(memory: seq<Unit>, base: nat, lines: seq<Text>, i: nat, f: seq<Unit>, o: nat)
    requires AreLines(lines) && i < |lines| && f == Flat(lines) && o == |Flat(lines[..i])|
    requires base + |f| <= |memory| && memory[base..base + |f|] == f
    ensures Terminated(memory, base + o) && CString(memory, base + o) == lines[i]
  {
    LineInFlat(lines, i);
    StoredAt(memory, base, f, o, lines[i]);
  }

  lemma KeepOrSkip(storage: seq<Unit>, indices: seq<nat>, lines: seq<Text>, changes: Changes, i: nat)
    requires i < |lines|
    requires storage == Flat(Unchanged(lines[..i], changes)) && Indexes(indices, Unchanged(lines[..i], changes))
    ensures var u := Unchanged(lines[..i + 1], changes);
      if KeyOf(lines[i]) in changes then storage == Flat(u) && Indexes(indices, u)
      else storage + (lines[i] + [NUL]) == Flat(u) && Indexes(indices + [|storage|], u)
  {
    var u := Unchanged(lines[..i], changes);
    NextUnchanged(lines, changes, i);
    FlatGrows(u, lines[i]);
    IndexesGrow(indices, u, lines[i]);
    assert u + [] == u;
  }

  /** One turn of that loop. */
  method Collect(input: seq<Unit>, changes: Changes, storage0: seq<Unit>, indices0: seq<nat>,
                 ghost lines: seq<Text>, ghost i: nat)
    returns (storage: seq<Unit>, indices: seq<nat>)
    requires Terminated(input, 0) && i < |lines| && lines[i] == CString(input, 0)
    requires storage0 == Flat(Unchanged(lines[..i], changes)) && Indexes(indices0, Unchanged(lines[..i], changes))
    ensures storage == Flat(Unchanged(lines[..i + 1], changes))
    ensures Indexes(indices, Unchanged(lines[..i + 1], changes))
  {
    var key, lineLength := ParseEnvLine(input, 0);
    KeepOrSkip(storage0, indices0, lines, changes, i);
    LineAndNul(input, 0);
    storage, indices := storage0, indices0;
    if key !in changes {
      indices := indices + [|storage|];
      storage := storage + input[..lineLength];
    }
  }

  /** The unchanged strings, one after another, and where each begins. */
  method CollectUnchanged(env: seq<seq<Unit>>, changes: Changes) returns (storage: seq<Unit>, indices: seq<nat>)
    requires forall i :: 0 <= i < |env| ==> Terminated(env[i], 0)
    ensures storage == Flat(Unchanged(Strings(env), changes)) && Indexes(indices, Unchanged(Strings(env), changes))
  {
    storage, indices := [], [];
    ghost var lines := Strings(env);
    assert lines[..0] == [];
    var i := 0;
    while i < |env|
      invariant i <= |env|
      invariant storage == Flat(Unchanged(lines[..i], changes))
      invariant Indexes(indices, Unchanged(lines[..i], changes))
    {
      storage, indices := Collect(env[i], changes, storage, indices, lines, i);
      i := i + 1;
    }
    assert lines[..i] == lines;
  }

  /** The changes that have a value, after them. */
  method CollectChanges(storage0: seq<Unit>, indices0: seq<nat>, ghost lines: seq<Text>, changes: Changes,
                        order: seq<Text>)
    returns (storage: seq<Unit>, indices: seq<nat>)
    requires Enumerates(order, changes)
    requires storage0 == Flat(Unchanged(lines, changes)) && Indexes(indices0, Unchanged(lines, changes))
    ensures storage == Flat(Altered(lines, changes, order)) && Indexes(indices, Altered(lines, changes, order))
  {
    storage, indices := storage0, indices0;
    assert order[..0] == [] && Unchanged(lines, changes) + [] == Unchanged(lines, changes);
    var i := 0;
    while i < |order|
      invariant i <= |order|
      invariant storage == Flat(Altered(lines, changes, order[..i]))
      invariant Indexes(indices, Altered(lines, changes, order[..i]))
    {
      var key, value := order[i], changes[order[i]];
      ghost var a := Altered(lines, changes, order[..i]);
      NextAltered(lines, changes, order, i);
      FlatGrows(a, Line(key, value));
      IndexesGrow(indices, a, Line(key, value));
      assert a + [] == a;
      if value != [] {
        indices := indices + [|storage|];
        storage := storage + (key + [EQUALS] + value + [NUL]);
      }
      i := i + 1;
    }
    assert order[..i] == order;
  }

  /** AlterEnvironment on POSIX: one allocation of whole words. */
  method AlterPointers(env: seq<seq<Unit>>, changes: Changes, order: seq<Text>, word: nat)
    returns (pointers: array<Option<nat>>, memory: array<Unit>)
    requires (forall i :: 0 <= i < |env| ==> Terminated(env[i], 0)) && (word == 4 || word == 8)
    requires Enumerates(order, changes) && AreTexts(changes)
    ensures PointsTo(pointers[..], memory[..], word, Altered(Strings(env), changes, order))
    ensures memory.Length == PointerCount(Altered(Strings(env), changes, order), word) * word
  {
    var storage, indices := CollectUnchanged(env, changes);
    storage, indices := CollectChanges(storage, indices, Strings(env), changes, order);
    AlteredAreLines(Strings(env), changes, order);
    pointers, memory := Pack(storage, indices, Altered(Strings(env), changes, order), word);
  }

  lemma WordsSuffice(count: nat, units: nat, word: nat)
    requires word == 4 || word == 8
    ensures (count + Words(units, word)) * word >= count * word + units
    ensures (count + Words(units, word)) * word < count * word + units + word
  {
  }

  method CopyInto(memory: array<Unit>, base: nat, storage: seq<Unit>)
    requires base + |storage| <= memory.Length
    modifies memory
    ensures memory[..][base..base + |storage|] == storage
  {
    forall j | base <= j < base + |storage| {
      memory[j] := storage[j - base];
    }
  }

  /** The pointers first, then the storage. */
  method Pack(storage: seq<Unit>, indices: seq<nat>, ghost lines: seq<Text>, word: nat)
    returns (pointers: array<Option<nat>>, memory: array<Unit>)
    requires AreLines(lines) && storage == Flat(lines) && Indexes(indices, lines) && (word == 4 || word == 8)
    ensures PointsTo(pointers[..], memory[..], word, lines)
    ensures memory.Length == PointerCount(lines, word) * word
  {
    var count := |indices| + 1 + Words(|storage|, word);
    WordsSuffice(|indices| + 1, |storage|, word);
    memory := new Unit[count * word];
    var base := (|indices| + 1) * word;
    CopyInto(memory, base, storage);
    ghost var packed := memory[..];
    pointers := new Option<nat>[|indices| + 1];
    var i := 0;
    while i < |indices|
      invariant i <= |indices|
      invariant forall j :: 0 <= j < i ==> pointers[j] == Some(base + indices[j])
      invariant memory[..] == packed
    {
      pointers[i] := Some(base + indices[i]);
      i := i + 1;
    }
    pointers[|indices|] := None;
    AllPointed(pointers[..], memory[..], base, indices, lines, word);
  }

  lemma AllPointed(pointers: seq<Option<nat>>, memory: seq<Unit>, base: nat, indices: seq<nat>, lines: seq<Text>,
                   word: nat)
    requires AreLines(lines) && Indexes(indices, lines)
    requires base + |Flat(lines)| <= |memory| && memory[base..base + |Flat(lines)|] == Flat(lines)
    requires |pointers| == |lines| + 1 && pointers[|lines|] == None && base == |pointers| * word
    requires forall j :: 0 <= j < |lines| ==> pointers[j] == Some(base + indices[j])
    ensures PointsTo(pointers, memory, word, lines)
  {
    forall j | 0 <= j < |lines|
      ensures pointers[j].Some? && |pointers| * word <= pointers[j].value
      ensures Terminated(memory, pointers[j].value) && CString(memory, pointers[j].value) == lines[j]
    {
      StoredLine(memory, base, lines, j, Flat(lines), indices[j]);
    }
  }
}
