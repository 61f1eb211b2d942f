/** What AlterEnvironment leaves and adds, line by line and in characters. */
module EnvironmentLines {
  import opened Environments
  import opened Options

  /** The line is a changed name alone, or followed by '=' and anything. */
  ghost predicate Touched(line: Text, changes: Changes) {
    exists k :: k in changes && 0x3D !in k && (line == k || k + [0x3D] <= line)
  }

  /** The other lines, in order. */
  ghost function LeftAlone(env: seq<Text>, changes: Changes): seq<Text> {
    if env == [] then [] else (if Touched(env[0], changes) then [] else [env[0]]) + LeftAlone(env[1..], changes)
  }

  /** Name, '=' and value of each change that has a value, in the map's order. */
  function Assignments(changes: Changes, order: seq<Text>): seq<Text>
    requires forall k :: k in order ==> k in changes
  {
    if order == [] then []
    else
      (if changes[order[0]] == [] then [] else [order[0] + [0x3D] + changes[order[0]]])
      + Assignments(changes, order[1..])
  }

  lemma TouchedIffKey(line: Text, changes: Changes)
    ensures Touched(line, changes) <==> KeyOf(line) in changes
  {
    var n := KeyLength(line);
    var k := line[..n];
    if k in changes {
      assert 0x3D !in k;
      assert n == |line| ==> line == k;
      assert n < |line| ==> k + [0x3D] == line[..n + 1];
    }
    if x :| x in changes && 0x3D !in x && (line == x || x + [0x3D] <= line) {
      KeyIs(line, x);
    }
  }

  lemma KeyIs(line: Text, k: Text)
    requires 0x3D !in k && (line == k || k + [0x3D] <= line)
    ensures KeyOf(line) == k
  {
    if line == k {
      NoEquals(k);
      assert line[..|line|] == line;
    } else {
      var rest := line[|k| + 1..];
      assert line == k + [EQUALS] + rest;
      KeyLengthOf(k, rest);
      assert line[..|k|] == k;
    }
  }

  lemma {:induction false} LeftAloneAppends(env: seq<Text>, line: Text, changes: Changes)
    ensures LeftAlone(env + [line], changes) ==
            LeftAlone(env, changes) + if Touched(line, changes) then [] else [line]
  {
    if env == [] {
      assert [] + [line] == [line] && [line][1..] == [];
    } else {
      assert (env + [line])[1..] == env[1..] + [line];
      LeftAloneAppends(env[1..], line, changes);
      var first := if Touched(env[0], changes) then [] else [env[0]];
      var last := if Touched(line, changes) then [] else [line];
      assert first + (LeftAlone(env[1..], changes) + last) == (first + LeftAlone(env[1..], changes)) + last;
    }
  }

  lemma {:induction false} UnchangedIsLeftAlone(env: seq<Text>, changes: Changes)
    ensures Unchanged(env, changes) == LeftAlone(env, changes)
  {
    if env != [] {
      var rest, line := env[..|env| - 1], env[|env| - 1];
      assert env == rest + [line];
      UnchangedIsLeftAlone(rest, changes);
      TouchedIffKey(line, changes);
      LeftAloneAppends(rest, line, changes);
    }
  }

  lemma {:induction false} AssignmentsAppend(changes: Changes, order: seq<Text>, k: Text)
    requires k in changes && forall x :: x in order ==> x in changes
    ensures Assignments(changes, order + [k]) ==
            Assignments(changes, order) + if changes[k] == [] then [] else [k + [0x3D] + changes[k]]
  {
    if order == [] {
      assert [] + [k] == [k] && [k][1..] == [];
    } else {
      assert (order + [k])[1..] == order[1..] + [k];
      AssignmentsAppend(changes, order[1..], k);
      var first := if changes[order[0]] == [] then [] else [order[0] + [0x3D] + changes[order[0]]];
      var last := if changes[k] == [] then [] else [k + [0x3D] + changes[k]];
      var mid := Assignments(changes, order[1..]);
      assert first + (mid + last) == (first + mid) + last;
    }
  }

  lemma {:induction false} AddedAreAssignments(changes: Changes, order: seq<Text>)
    requires forall x :: x in order ==> x in changes
    ensures Added(changes, order) == Assignments(changes, order)
  {
    if order != [] {
      var rest, k := order[..|order| - 1], order[|order| - 1];
      assert order == rest + [k];
      AddedAreAssignments(changes, rest);
      AssignmentsAppend(changes, rest, k);
    }
  }

  /** The altered environment is the untouched lines, each as often as before and
      in their order, and then an assignment for each change that has a value. */
  lemma AlteredLines(env: seq<Text>, changes: Changes, order: seq<Text>)
    requires forall k :: k in order ==> k in changes
    ensures Altered(env, changes, order) == LeftAlone(env, changes) + Assignments(changes, order)
  {
    UnchangedIsLeftAlone(env, changes);
    AddedAreAssignments(changes, order);
  }
}
