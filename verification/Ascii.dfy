/** Byte strings, and the searching, trimming and splitting of base/strings that
    the command line and the feature list rely on. */
module Ascii {
  import opened Bits

  type Text = seq<byte>

  const STAR: byte := 0x2A
  const COMMA: byte := 0x2C
  const DASH: byte := 0x2D
  const LESS: byte := 0x3C
  const EQUALS: byte := 0x3D

  /** kWhitespaceASCII */
  predicate IsSpace(c: byte) {
    0x09 <= c <= 0x0D || c == 0x20
  }

  /** find: where c first is, or the length. */
  function Find(s: Text, c: byte): (i: nat)
    ensures i <= |s| && (forall j :: 0 <= j < i ==> s[j] != c) && (i < |s| ==> s[i] == c)
    ensures c in s <==> i < |s|
  {
    if s == [] || s[0] == c then 0 else 1 + Find(s[1..], c)
  }

  lemma {:induction false} FindIn(a: Text, b: Text, c: byte)
    requires c !in a
    ensures Find(a + [c] + b, c) == |a| && Find(a, c) == |a|
  {
    if a == [] {
      assert (a + [c] + b)[0] == c;
    } else {
      assert (a + [c] + b)[1..] == a[1..] + [c] + b;
      FindIn(a[1..], b, c);
    }
  }

  /** find_first_not_of whitespace, or the length. */
  function FirstGood(s: Text): (i: nat)
    ensures i <= |s| && (forall j :: 0 <= j < i ==> IsSpace(s[j])) && (i < |s| ==> !IsSpace(s[i]))
  {
    if s == [] || !IsSpace(s[0]) then 0 else 1 + FirstGood(s[1..])
  }

  /** One past find_last_not_of whitespace, or 0. */
  function GoodEnd(s: Text): (e: nat)
    ensures e <= |s| && (forall j :: e <= j < |s| ==> IsSpace(s[j])) && (e > 0 ==> !IsSpace(s[e - 1]))
  {
    if s == [] || !IsSpace(s[|s| - 1]) then |s| else GoodEnd(s[..|s| - 1])
  }

  /** TRIM_ALL */
  function Trim(s: Text): (t: Text)
    ensures |t| <= |s|
  {
    if FirstGood(s) < GoodEnd(s) then s[FirstGood(s)..GoodEnd(s)] else []
  }

  predicate IsTrimmed(s: Text) {
    s == [] || (!IsSpace(s[0]) && !IsSpace(s[|s| - 1]))
  }

  lemma TrimKeepsExactlyTheTrimmed(s: Text)
    ensures IsTrimmed(Trim(s)) && (Trim(s) == s <==> IsTrimmed(s))
  {
    assert FirstGood(s) < GoodEnd(s) || Trim(s) == [];
    if s != [] && IsTrimmed(s) {
      assert FirstGood(s) == 0 && GoodEnd(s) == |s|;
      assert s[0..|s|] == s;
    }
  }

  lemma TrimmingShortens(s: Text)
    requires !IsTrimmed(s)
    ensures |Trim(s)| < |s|
  {
    assert FirstGood(s) > 0 || GoodEnd(s) < |s|;
  }

  // --------------------------------------------------- trimming, in characters

  /** Tab, line feed, vertical tab, form feed, carriage return and blank. */
  predicate AllWhite(s: Text) {
    forall i :: 0 <= i < |s| ==> s[i] in [0x09, 0x0A, 0x0B, 0x0C, 0x0D, 0x20]
  }

  predicate EndsBlack(s: Text) {
    s != [] ==> !AllWhite(s[..1]) && !AllWhite(s[|s| - 1..])
  }

  lemma WhiteIsSpace(s: Text)
    ensures AllWhite(s) <==> forall i :: 0 <= i < |s| ==> IsSpace(s[i])
  {
    assert forall c: byte :: c in [0x09, 0x0A, 0x0B, 0x0C, 0x0D, 0x20] <==> IsSpace(c);
  }

  lemma BlackEnds(t: Text)
    ensures EndsBlack(t) <==> IsTrimmed(t)
  {
    if t != [] {
      WhiteIsSpace(t[..1]);
      WhiteIsSpace(t[|t| - 1..]);
      assert t[..1][0] == t[0] && t[|t| - 1..][0] == t[|t| - 1];
    }
  }

  /** Every text is t with white around it for exactly one t that is empty or
      has no white at its ends, and that is what trimming gives. */
  lemma TrimInCharacters(a: Text, t: Text, b: Text)
    requires AllWhite(a) && AllWhite(b) && EndsBlack(t)
    ensures Trim(a + t + b) == t
  {
    var s := a + t + b;
    WhiteIsSpace(a);
    WhiteIsSpace(b);
    BlackEnds(t);
    forall i | 0 <= i < |s| && !(|a| <= i < |a| + |t|) ensures IsSpace(s[i]) {
      assert s[i] == if i < |a| then a[i] else b[i - |a| - |t|];
    }
    if t != [] {
      assert s[|a|] == t[0] && s[|a| + |t| - 1] == t[|t| - 1];
      assert FirstGood(s) == |a| && GoodEnd(s) == |a| + |t|;
      assert s[|a|..|a| + |t|] == t;
    }
  }

  lemma TrimLeavesWhite(s: Text) returns (a: Text, b: Text)
    ensures AllWhite(a) && AllWhite(b) && s == a + Trim(s) + b && EndsBlack(Trim(s))
  {
    TrimKeepsExactlyTheTrimmed(s);
    BlackEnds(Trim(s));
    var i, e := FirstGood(s), GoodEnd(s);
    if i < e {
      a, b := s[..i], s[e..];
      WhiteAround(s, i, e);
    } else {
      a, b := s, [];
      AllWhiteAlone(s, i, e);
    }
  }

  lemma WhiteAround(s: Text, i: nat, e: nat)
    requires i <= e <= |s|
    requires (forall j :: 0 <= j < i ==> IsSpace(s[j])) && forall j :: e <= j < |s| ==> IsSpace(s[j])
    ensures AllWhite(s[..i]) && AllWhite(s[e..]) && s == s[..i] + s[i..e] + s[e..]
  {
    WhiteIsSpace(s[..i]);
    WhiteIsSpace(s[e..]);
  }

  lemma AllWhiteAlone(s: Text, i: nat, e: nat)
    requires e <= i <= |s| && e <= |s|
    requires (forall j :: 0 <= j < i ==> IsSpace(s[j])) && forall j :: e <= j < |s| ==> IsSpace(s[j])
    ensures AllWhite(s) && s == s + [] + []
  {
    WhiteIsSpace(s);
  }

  // ---------------------------------------------------------------- splitting

  /** Cuts s at every separator. */
  function Split(s: Text, sep: byte): (parts: seq<Text>)
    ensures parts != []
    decreases |s|
  {
    if sep !in s then [s] else [s[..Find(s, sep)]] + Split(s[Find(s, sep) + 1..], sep)
  }

  lemma SplitFirst(a: Text, sep: byte, b: Text)
    requires sep !in a
    ensures Split(a + [sep] + b, sep) == [a] + Split(b, sep)
  {
    FindIn(a, b, sep);
    var all := a + [sep] + b;
    assert all[|a|] == sep;
    assert all[..|a|] == a && all[|a| + 1..] == b;
  }

  lemma Regroup(a: Text, sep: Text, b: Text, p: Text)
    ensures (a + sep + b) + sep + p == a + sep + (b + sep + p)
  {
  }

  lemma FrontConcat(a: Text, parts: seq<Text>, p: Text)
    ensures [a] + (parts + [p]) == ([a] + parts) + [p]
  {
  }

  lemma {:induction false} SplitAppends(s: Text, sep: byte, p: Text)
    requires sep !in p
    ensures Split(s + [sep] + p, sep) == Split(s, sep) + [p]
    decreases |s|
  {
    if sep in s {
      var a, b := s[..Find(s, sep)], s[Find(s, sep) + 1..];
      assert s == a + [sep] + b;
      SplitAppends(b, sep, p);
      SplitFirst(a, sep, b);
      SplitFirst(a, sep, b + [sep] + p);
      Regroup(a, [sep], b, p);
      FrontConcat(a, Split(b, sep), p);
    } else {
      SplitFirst(s, sep, p);
    }
  }

  /** TRIM_WHITESPACE, SPLIT_WANT_NONEMPTY */
  function Kept(parts: seq<Text>): seq<Text> {
    if parts == [] then []
    else (if Trim(parts[0]) == [] then [] else [Trim(parts[0])]) + Kept(parts[1..])
  }

  lemma {:induction false} KeptAppends(a: seq<Text>, b: seq<Text>)
    ensures Kept(a + b) == Kept(a) + Kept(b)
  {
    if a == [] {
      assert a + b == b;
    } else {
      assert (a + b)[1..] == a[1..] + b;
      KeptAppends(a[1..], b);
      var first := if Trim(a[0]) == [] then [] else [Trim(a[0])];
      assert first + (Kept(a[1..]) + Kept(b)) == (first + Kept(a[1..])) + Kept(b);
    }
  }

  lemma KeptCons(a: Text, parts: seq<Text>)
    ensures Kept([a] + parts) == (if Trim(a) == [] then [] else [Trim(a)]) + Kept(parts)
  {
    assert ([a] + parts)[0] == a && ([a] + parts)[1..] == parts;
  }

  /** The first piece of a split, then those of the rest after the separator. */
  lemma KeptFirst(s: Text, sep: byte)
    ensures var end := Find(s, sep); var piece := Trim(s[..end]);
      Kept(Split(s, sep)) ==
      (if piece == [] then [] else [piece]) + if end < |s| then Kept(Split(s[end + 1..], sep)) else []
  {
    var end := Find(s, sep);
    if end == |s| {
      assert s[..end] == s && Split(s, sep) == [s] + [];
      KeptCons(s, []);
    } else {
      assert s == s[..end] + [sep] + s[end + 1..];
      SplitFirst(s[..end], sep, s[end + 1..]);
      KeptCons(s[..end], Split(s[end + 1..], sep));
    }
  }

  /** The parts with a separator between each two. */
  function Joined(parts: seq<Text>, sep: byte): Text {
    if parts == [] then [] else if |parts| == 1 then parts[0] else parts[0] + [sep] + Joined(parts[1..], sep)
  }

  /** Splitting is what joining is undone by. */
  lemma {:induction false} SplitJoined(parts: seq<Text>, sep: byte)
    requires parts != [] && forall i :: 0 <= i < |parts| ==> sep !in parts[i]
    ensures Split(Joined(parts, sep), sep) == parts
  {
    if |parts| == 1 {
      assert parts == [parts[0]];
    } else {
      SplitJoined(parts[1..], sep);
      SplitFirst(parts[0], sep, Joined(parts[1..], sep));
      assert [parts[0]] + parts[1..] == parts;
    }
  }
}
