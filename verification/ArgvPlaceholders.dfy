/** What quoting placeholders is for: a '%' of a command line may be replaced by
    a text with blanks, and stays within its argument. */
module ArgvPlaceholders {
  import opened ArgvQuoting

  /** Every '%' replaced by the text. */
  function Substituted(s: string, text: string): string {
    if s == "" then "" else (if s[0] == '%' then text else [s[0]]) + Substituted(s[1..], text)
  }

  function SubstitutedAll(args: seq<string>, text: string): seq<string> {
    seq(|args|, i requires 0 <= i < |args| => Substituted(args[i], text))
  }

  predicate IsPlainText(text: string) {
    '"' !in text && '\\' !in text
  }

  lemma {:induction false} SubstitutedAppends(a: string, b: string, text: string)
    ensures Substituted(a + b, text) == Substituted(a, text) + Substituted(b, text)
  {
    if a == "" {
      assert a + b == b;
    } else {
      assert (a + b)[1..] == a[1..] + b;
      SubstitutedAppends(a[1..], b, text);
      Assoc(if a[0] == '%' then text else [a[0]], Substituted(a[1..], text), Substituted(b, text));
    }
  }

  lemma {:induction false} NothingToSubstitute(s: string, text: string)
    requires '%' !in s
    ensures Substituted(s, text) == s
  {
    if s != "" { NothingToSubstitute(s[1..], text); }
  }

  lemma OneCharacter(c: char, rest: string, text: string)
    ensures Substituted([c] + rest, text) == (if c == '%' then text else [c]) + Substituted(rest, text)
  {
    assert ([c] + rest)[1..] == rest;
  }

  /** A run of backslashes, one character and the rest. */
  lemma RunSubstituted(n: nat, c: char, rest: string, text: string)
    ensures Substituted(Run(n) + ([c] + rest), text) ==
            Run(n) + ((if c == '%' then text else [c]) + Substituted(rest, text))
  {
    SubstitutedAppends(Run(n), [c] + rest, text);
    NothingToSubstitute(Run(n), text);
    OneCharacter(c, rest, text);
  }

  // ------------------------------------------------ escaping and substituting

  /** From here only '%' and backslashes lead to a quote or the end. */
  predicate LeadsToQuote(s: string) {
    s == "" || s[0] == '"' || ((s[0] == '%' || s[0] == '\\') && LeadsToQuote(s[1..]))
  }

  /** A backslash stands before a '%' that, were it gone, would let it meet a
      quote or the closing quote. */
  predicate ExposedAt(arg: string, i: nat) {
    0 < i < |arg| && arg[i - 1] == '\\' && arg[i] == '%' && LeadsToQuote(arg[i..])
  }

  predicate Exposed(arg: string) {
    exists i :: 0 < i < |arg| && ExposedAt(arg, i)
  }

  lemma ExposedLater(arg: string, n: nat, i: nat)
    requires n < |arg| && n + 1 < i < |arg|
    ensures ExposedAt(arg, i) <==> ExposedAt(arg[n + 1..], i - n - 1)
  {
    assert arg[n + 1..][i - n - 1..] == arg[i..];
  }

  lemma ExposedFirst(arg: string, n: nat)
    requires n == Backslashes(arg) && n < |arg|
    ensures Exposed(arg) <==> (n > 0 && arg[n] == '%' && LeadsToQuote(arg[n..])) || Exposed(arg[n + 1..])
  {
    if i :| 0 < i < |arg| && ExposedAt(arg, i) {
      ExposedFrom(arg, n, i);
    }
    var rest := arg[n + 1..];
    if i :| 0 < i < |rest| && ExposedAt(rest, i) {
      ExposedLater(arg, n, i + n + 1);
    }
    assert n > 0 && arg[n] == '%' && LeadsToQuote(arg[n..]) ==> ExposedAt(arg, n);
  }

  lemma ExposedFrom(arg: string, n: nat, i: nat)
    requires n == Backslashes(arg) && n < |arg| && i < |arg| && ExposedAt(arg, i)
    ensures (n > 0 && arg[n] == '%' && LeadsToQuote(arg[n..])) || Exposed(arg[n + 1..])
  {
    NotJustAfter(arg, n);
    if i > n + 1 {
      ExposedLater(arg, n, i);
    } else {
      assert i == n;
    }
  }

  lemma NotJustAfter(arg: string, n: nat)
    requires n == Backslashes(arg) && n < |arg|
    ensures n + 1 < |arg| ==> !ExposedAt(arg, n + 1)
    ensures forall i :: 0 < i < n ==> !ExposedAt(arg, i)
  {
  }

  /** Text without quotes and backslashes is not changed by escaping. */
  lemma {:induction false} PlainTextPasses(text: string, rest: string)
    requires IsPlainText(text)
    ensures Escaped(text + rest) == text + Escaped(rest)
  {
    if text == "" {
      assert text + rest == rest;
    } else {
      assert (text + rest)[1..] == text[1..] + rest;
      PlainTextPasses(text[1..], rest);
      BackslashesAre(text + rest, 0);
      assert [text[0]] + text[1..] == text;
      Assoc([text[0]], text[1..], Escaped(rest));
    }
  }

  lemma RunEscaped(n: nat, c: char, rest: string)
    requires c != '\\'
    ensures Escaped(Run(n) + ([c] + rest)) ==
            Run(if c == '"' then 2 * n + 1 else n) + ([c] + Escaped(rest))
  {
    var s := Run(n) + ([c] + rest);
    BackslashesAre(s, n);
    assert s[n + 1..] == rest;
    EscapedAtEndOfRun(s, n);
  }

  lemma TwoRuns(m: nat, n: nat, t: string)
    ensures Run(m) + (Run(n) + t) == Run(m + n) + t
  {
  }

  lemma FirstCharacter(s: string, n: nat)
    requires n == Backslashes(s) && n < |s|
    ensures s == Run(n) + ([s[n]] + s[n + 1..])
  {
  }

  lemma RunPassesBefore(n: nat, m: nat, c: char, rest: string, s: string)
    requires c != '\\' && c != '"' && s == Run(m) + ([c] + rest)
    ensures Escaped(Run(n) + s) == Run(n) + Escaped(s)
  {
    TwoRuns(n, m, [c] + rest);
    RunEscaped(n + m, c, rest);
    RunEscaped(m, c, rest);
    TwoRuns(n, m, [c] + Escaped(rest));
  }

  /** A run in front of what does not lead to a quote stays as it is. */
  lemma RunPasses(n: nat, s: string, m: nat)
    requires m == Backslashes(s) && (n == 0 || (m < |s| && s[m] != '"'))
    ensures Escaped(Run(n) + s) == Run(n) + Escaped(s)
  {
    if n == 0 {
      NoRun(s);
      NoRun(Escaped(s));
    } else {
      FirstCharacter(s, m);
      RunPassesBefore(n, m, s[m], s[m + 1..], s);
    }
  }

  lemma NoRun(s: string)
    ensures Run(0) + s == s
  {
  }

  lemma RunGrows(c: char, y: string)
    ensures var x := [c] + y;
      && Backslashes(x) == (if c == '\\' then 1 + Backslashes(y) else 0)
      && (c == '\\' && Backslashes(y) < |y| ==> x[Backslashes(x)] == y[Backslashes(y)])
  {
    assert ([c] + y)[1..] == y;
  }

  /** After substituting nothing, a run is followed by a quote or the end exactly
      if only '%' and backslashes led there before. */
  lemma {:induction false} LeadsAfter(s: string)
    ensures var x := Substituted(s, ""); var m := Backslashes(x);
      LeadsToQuote(s) <==> m == |x| || x[m] == '"'
  {
    if s != "" {
      var y := Substituted(s[1..], "");
      LeadsAfter(s[1..]);
      RunGrows(s[0], y);
      assert "" + y == y;
    }
  }

  /** Escaping and substituting can be done in either order: the run that stands
      before a '%' is not doubled, and does not have to be. */
  lemma {:induction false} SubstitutedEscaped(arg: string, text: string)
    requires IsPlainText(text) && (text != "" || !Exposed(arg))
    ensures Substituted(Escaped(arg), text) == Escaped(Substituted(arg, text))
    decreases |arg|
  {
    var n := Backslashes(arg);
    if n == |arg| {
      EscapedRunOnly(arg);
      RunThenRest(arg, n);
      NothingToSubstitute(arg, text);
      NothingToSubstitute(Run(2 * n), text);
    } else {
      var c, rest := arg[n], arg[n + 1..];
      FirstCharacter(arg, n);
      ExposedFirst(arg, n);
      SubstitutedEscaped(rest, text);
      RunEscaped(n, c, rest);
      RunSubstituted(n, c, rest, text);
      RunSubstituted(if c == '"' then 2 * n + 1 else n, c, Escaped(rest), text);
      if c == '%' {
        assert n > 0 && text == "" ==> !LeadsToQuote(arg[n..]);
        assert n > 0 && text == "" ==> !LeadsToQuote(rest) by { assert arg[n..][1..] == rest; }
        PlaceholderPasses(n, rest, Substituted(rest, text), text);
      } else {
        RunEscaped(n, c, Substituted(rest, text));
      }
    }
  }

  lemma PlaceholderPasses(n: nat, rest: string, y: string, text: string)
    requires IsPlainText(text) && y == Substituted(rest, text)
    requires n > 0 && text == "" ==> !LeadsToQuote(rest)
    ensures Escaped(Run(n) + (text + y)) == Run(n) + (text + Escaped(y))
  {
    PlainTextPasses(text, y);
    if text == "" {
      LeadsAfter(rest);
      assert text + y == y && text + Escaped(y) == Escaped(y);
      RunPasses(n, y, Backslashes(y));
    } else {
      assert text[0] in text;
      BackslashesAre(text + y, 0);
      RunPasses(n, text + y, 0);
    }
  }

  // ----------------------------------------------------------- the whole line

  lemma ReadBetweenQuotes(x: string, t: string)
    requires Ends(t)
    ensures Split(['"'] + Escaped(x) + ['"'] + t) == [x] + Split(t)
  {
    QuotedText(x, t);
    ParseQuote(0, Escaped(x) + (['"'] + t), false);
    ParseEscaped(x, t);
    assert Run(0) + x == x;
  }

  lemma ReadUnquoted(arg: string, t: string)
    requires Ends(t) && Survives(arg, true) && !NeedsQuotes(arg, true)
    ensures Split(arg + t) == [arg] + Split(t)
    ensures '%' !in arg
  {
    SplitNext(arg, t, true);
    assert forall i :: 0 <= i < |arg| ==> !Quotable(arg[i], true);
  }

  lemma QuotedSubstituted(arg: string, text: string)
    ensures Substituted(['"'] + Escaped(arg) + ['"'], text) == ['"'] + Substituted(Escaped(arg), text) + ['"']
  {
    SubstitutedAppends(['"'] + Escaped(arg), ['"'], text);
    OneCharacter('"', Escaped(arg), text);
    OneCharacter('"', "", text);
    assert ['"'] + "" == ['"'];
  }

  /** The line without its first argument: nothing, or a blank and the others. */
  function After(args: seq<string>): string
    requires args != []
  {
    if |args| == 1 then "" else " " + CommandLine(args[1..], true)
  }

  lemma FirstOfLine(args: seq<string>, text: string)
    requires args != []
    ensures CommandLine(args, true) == Quote(args[0], true) + After(args)
    ensures Substituted(CommandLine(args, true), text) ==
            Substituted(Quote(args[0], true), text) + Substituted(After(args), text)
    ensures Ends(Substituted(After(args), text))
    ensures Split(Substituted(After(args), text)) == Split(Substituted(CommandLine(args[1..], true), text))
  {
    var rest := CommandLine(args[1..], true);
    SubstitutedAppends(Quote(args[0], true), After(args), text);
    OneCharacter(' ', rest, text);
    Assoc(Quote(args[0], true), " ", rest);
    assert ([' '] + Substituted(rest, text))[1..] == Substituted(rest, text);
    assert Quote(args[0], true) + "" == Quote(args[0], true);
  }

  lemma FirstSubstituted(args: seq<string>, text: string)
    requires args != []
    ensures SubstitutedAll(args, text) == [Substituted(args[0], text)] + SubstitutedAll(args[1..], text)
  {
  }

  ghost predicate AllSurvive(args: seq<string>) {
    forall a :: a in args ==> Survives(a, true)
  }

  ghost predicate SomeExposed(args: seq<string>) {
    exists a :: a in args && Exposed(a)
  }

  /** Substituting stays within the arguments. */
  lemma {:induction false} SubstitutionStaysInside(args: seq<string>, text: string)
    requires AllSurvive(args) && IsPlainText(text) && (text != "" || !SomeExposed(args))
    ensures Split(Substituted(CommandLine(args, true), text)) == SubstitutedAll(args, text)
  {
    if args != [] {
      var a, t := args[0], Substituted(After(args), text);
      assert a in args && forall b :: b in args[1..] ==> b in args;
      SubstitutionStaysInside(args[1..], text);
      FirstOfLine(args, text);
      FirstSubstituted(args, text);
      if NeedsQuotes(a, true) {
        QuotedSubstituted(a, text);
        SubstitutedEscaped(a, text);
        ReadBetweenQuotes(Substituted(a, text), t);
      } else {
        ReadUnquoted(a, t);
        NothingToSubstitute(a, text);
      }
    }
  }

  // ------------------------------------- what is exposed does not come back

  /** Two for a backslash, one for a quote. */
  function Weight(s: string): nat {
    if s == "" then 0 else (if s[0] == '\\' then 2 else if s[0] == '"' then 1 else 0) + Weight(s[1..])
  }

  function TotalWeight(args: seq<string>): nat {
    if args == [] then 0 else Weight(args[0]) + TotalWeight(args[1..])
  }

  /** The weight of all arguments that a line is split into: a backslash counts
      half where its run leads to a quote, and a quote nothing by itself. */
  function LineWeight(s: string): nat
    decreases |s|
  {
    if s == "" then 0
    else
      var n := Backslashes(s);
      if n < |s| && s[n] == '"' then n + LineWeight(s[n + 1..])
      else if n > 0 then 2 * n + LineWeight(s[n..])
      else LineWeight(s[1..])
  }

  lemma {:induction false} WeightAppends(a: string, b: string)
    ensures Weight(a + b) == Weight(a) + Weight(b)
  {
    if a == "" {
      assert a + b == b;
    } else {
      assert (a + b)[1..] == a[1..] + b;
      WeightAppends(a[1..], b);
    }
  }

  lemma {:induction false} RunWeighs(n: nat)
    ensures Weight(Run(n)) == 2 * n
  {
    if n > 0 {
      assert Run(n)[1..] == Run(n - 1);
      RunWeighs(n - 1);
    }
  }

  lemma RunAndMoreWeighs(n: nat, x: string)
    ensures Weight(Run(n) + x) == 2 * n + Weight(x)
  {
    WeightAppends(Run(n), x);
    RunWeighs(n);
  }

  lemma CharacterWeighs(c: char, x: string)
    ensures Weight([c] + x) == (if c == '\\' then 2 else if c == '"' then 1 else 0) + Weight(x)
  {
    assert ([c] + x)[1..] == x;
  }

  ghost predicate Balanced(s: string, r: (string, string)) {
    Weight(r.0) + LineWeight(r.1) == LineWeight(s)
  }

  lemma BalancedAtQuote(s: string, n: nat, p: string, r: (string, string))
    requires n == Backslashes(s) && n < |s| && s[n] == '"' && Balanced(s[n + 1..], r)
    requires p == if n % 2 == 0 then Run(n / 2) else Run(n / 2) + ['"']
    ensures Balanced(s, (p + r.0, r.1))
  {
    QuoteWeighs(n, r.0);
  }

  lemma BalancedAtRun(s: string, n: nat, r: (string, string))
    requires n == Backslashes(s) && n > 0 && (n < |s| ==> s[n] != '"') && Balanced(s[n..], r)
    ensures Balanced(s, (Run(n) + r.0, r.1))
  {
    RunAndMoreWeighs(n, r.0);
  }

  lemma BalancedAtCharacter(s: string, r: (string, string))
    requires s != "" && s[0] != '"' && s[0] != '\\' && Balanced(s[1..], r)
    ensures Balanced(s, ([s[0]] + r.0, r.1))
  {
    CharacterWeighs(s[0], r.0);
  }

  /** Splitting only moves weight: whatever is read inside or outside quotes. */
  lemma {:induction false} ArgumentWeighs(s: string, quoted: bool)
    ensures Balanced(s, ParseArg(s, quoted))
    decreases |s|
  {
    if s != "" && (quoted || !Blank(s[0])) {
      var n := Backslashes(s);
      if n < |s| && s[n] == '"' {
        var next := if n % 2 == 0 then !quoted else quoted;
        ArgumentWeighs(s[n + 1..], next);
        BalancedAtQuote(s, n, if n % 2 == 0 then Run(n / 2) else Run(n / 2) + ['"'], ParseArg(s[n + 1..], next));
      } else if n > 0 {
        ArgumentWeighs(s[n..], quoted);
        BalancedAtRun(s, n, ParseArg(s[n..], quoted));
      } else {
        ArgumentWeighs(s[1..], quoted);
        BalancedAtCharacter(s, ParseArg(s[1..], quoted));
      }
    }
  }

  lemma QuoteWeighs(n: nat, x: string)
    ensures Weight(if n % 2 == 0 then Run(n / 2) + x else Run(n / 2) + ['"'] + x) == n + Weight(x)
  {
    if n % 2 == 0 {
      RunAndMoreWeighs(n / 2, x);
    } else {
      Assoc(Run(n / 2), ['"'], x);
      RunAndMoreWeighs(n / 2, ['"'] + x);
      CharacterWeighs('"', x);
    }
  }

  lemma {:induction false} SplitWeighs(s: string)
    ensures TotalWeight(Split(s)) == LineWeight(s)
    decreases |s|
  {
    if s != "" {
      if Blank(s[0]) {
        SplitWeighs(s[1..]);
        BackslashesAre(s, 0);
      } else {
        var r := ParseArg(s, false);
        ArgumentWeighs(s, false);
        SplitWeighs(r.1);
        assert ([r.0] + Split(r.1))[1..] == Split(r.1);
      }
    }
  }

  /** The run at the front is followed by a quote. */
  predicate QuoteAhead(s: string) {
    Backslashes(s) < |s| && s[Backslashes(s)] == '"'
  }

  lemma RunInFront(n: nat, s: string)
    ensures QuoteAhead(Run(n) + s) == QuoteAhead(s)
    ensures LineWeight(Run(n) + s) == (if QuoteAhead(s) then n else 2 * n) + LineWeight(s)
  {
    var m := Backslashes(s);
    BackslashesAre(Run(n) + s, n + m);
    if n == 0 {
      NoRun(s);
    } else if QuoteAhead(s) {
      assert (Run(n) + s)[n + m + 1..] == s[m + 1..];
    } else {
      RunBeforeOther(n, s, m);
    }
  }

  lemma RunBeforeOther(n: nat, s: string, m: nat)
    requires n > 0 && m == Backslashes(s) && !QuoteAhead(s) && Backslashes(Run(n) + s) == n + m
    ensures LineWeight(Run(n) + s) == 2 * n + LineWeight(s)
  {
    assert (Run(n) + s)[n + m..] == s[m..];
    if m == 0 { assert s[0..] == s; }
  }

  lemma QuoteInFront(s: string)
    ensures QuoteAhead(['"'] + s) && LineWeight(['"'] + s) == LineWeight(s)
  {
    BackslashesAre(['"'] + s, 0);
    assert (['"'] + s)[1..] == s;
  }

  lemma OtherInFront(c: char, s: string)
    requires c != '"' && c != '\\'
    ensures !QuoteAhead([c] + s) && LineWeight([c] + s) == LineWeight(s)
  {
    BackslashesAre([c] + s, 0);
    assert ([c] + s)[1..] == s;
  }

  lemma {:induction false} RunLeads(n: nat, s: string)
    ensures LeadsToQuote(Run(n) + s) == LeadsToQuote(s)
  {
    if n == 0 {
      NoRun(s);
    } else {
      assert (Run(n) + s)[1..] == Run(n - 1) + s;
      RunLeads(n - 1, s);
    }
  }

  /** What follows the opening quote of an argument, when its placeholders are
      replaced by nothing. */
  function Emptied(arg: string, t: string): string {
    Substituted(Escaped(arg), "") + (['"'] + t)
  }

  lemma EmptiedRun(arg: string, t: string)
    requires Backslashes(arg) == |arg|
    ensures Emptied(arg, t) == Run(2 * |arg|) + (['"'] + t) && Substituted(arg, "") == Run(|arg|)
    ensures LeadsToQuote(arg)
  {
    EscapedRunOnly(arg);
    RunThenRest(arg, |arg|);
    NothingToSubstitute(Run(2 * |arg|), "");
    NothingToSubstitute(arg, "");
    RunLeads(|arg|, "");
    assert Run(|arg|) + "" == arg;
  }

  lemma EmptiedNext(arg: string, n: nat, t: string)
    requires n == Backslashes(arg) && n < |arg|
    ensures var c, rest := arg[n], arg[n + 1..];
      && Emptied(arg, t) == Run(if c == '"' then 2 * n + 1 else n) + ((if c == '%' then "" else [c]) + Emptied(rest, t))
      && Substituted(arg, "") == Run(n) + ((if c == '%' then "" else [c]) + Substituted(rest, ""))
      && LeadsToQuote(arg) == (c == '"' || (c == '%' && LeadsToQuote(rest)))
  {
    var c, rest := arg[n], arg[n + 1..];
    var k := if c == '"' then 2 * n + 1 else n;
    FirstCharacter(arg, n);
    RunEscaped(n, c, rest);
    RunSubstituted(n, c, rest, "");
    RunSubstituted(k, c, Escaped(rest), "");
    var mid := if c == '%' then "" else [c];
    Assoc(Run(k), mid + Substituted(Escaped(rest), ""), ['"'] + t);
    Assoc(mid, Substituted(Escaped(rest), ""), ['"'] + t);
    RunLeads(n, [c] + rest);
    assert ([c] + rest)[1..] == rest;
  }

  lemma {:induction false} EmptiedLeads(arg: string, t: string)
    ensures QuoteAhead(Emptied(arg, t)) == LeadsToQuote(arg)
    decreases |arg|
  {
    var n := Backslashes(arg);
    if n == |arg| {
      EmptiedRun(arg, t);
      QuoteInFront(t);
      RunInFront(2 * n, ['"'] + t);
    } else {
      var c, rest := arg[n], arg[n + 1..];
      var e := Emptied(rest, t);
      EmptiedNext(arg, n, t);
      EmptiedLeads(rest, t);
      RunInFront(if c == '"' then 2 * n + 1 else n, (if c == '%' then "" else [c]) + e);
      if c == '%' {
        assert "" + e == e;
      } else if c == '"' {
        QuoteInFront(e);
      } else {
        OtherInFront(c, e);
      }
    }
  }

  /** Replacing by nothing loses weight exactly where a backslash is exposed. */
  lemma {:induction false} EmptiedWeighs(arg: string, t: string)
    ensures var w, x := LineWeight(Emptied(arg, t)), Weight(Substituted(arg, "")) + LineWeight(t);
      if Exposed(arg) then w < x else w <= x
    decreases |arg|
  {
    var n := Backslashes(arg);
    if n == |arg| {
      EmptiedRun(arg, t);
      QuoteInFront(t);
      RunInFront(2 * n, ['"'] + t);
      RunWeighs(n);
    } else {
      var c, rest := arg[n], arg[n + 1..];
      var e, y := Emptied(rest, t), Substituted(rest, "");
      EmptiedNext(arg, n, t);
      EmptiedWeighs(rest, t);
      EmptiedLeads(rest, t);
      ExposedFirst(arg, n);
      RunInFront(if c == '"' then 2 * n + 1 else n, (if c == '%' then "" else [c]) + e);
      RunAndMoreWeighs(n, (if c == '%' then "" else [c]) + y);
      if c == '%' {
        assert "" + e == e && "" + y == y;
        assert arg[n..][1..] == rest;
      } else {
        CharacterWeighs(c, y);
        if c == '"' { QuoteInFront(e); } else { OtherInFront(c, e); }
      }
    }
  }

  lemma {:induction false} PlainWeighs(arg: string, t: string)
    requires '"' !in arg && '\\' !in arg
    ensures LineWeight(arg + t) == LineWeight(t) && Weight(arg) == 0
  {
    if arg == "" {
      assert arg + t == t;
    } else {
      assert arg + t == [arg[0]] + (arg[1..] + t);
      OtherInFront(arg[0], arg[1..] + t);
      PlainWeighs(arg[1..], t);
    }
  }

  lemma UnquotedWeighs(arg: string, t: string)
    requires !NeedsQuotes(arg, true)
    ensures LineWeight(arg + t) == LineWeight(t) && Weight(arg) == 0 && !Exposed(arg) && '%' !in arg
  {
    assert forall i :: 0 <= i < |arg| ==> !Quotable(arg[i], true);
    PlainWeighs(arg, t);
  }

  lemma QuotedWeighs(arg: string, t: string)
    ensures var w, x := LineWeight(['"'] + Substituted(Escaped(arg), "") + ['"'] + t),
                        Weight(Substituted(arg, "")) + LineWeight(t);
      if Exposed(arg) then w < x else w <= x
  {
    var z := Substituted(Escaped(arg), "");
    Assoc(['"'] + z, ['"'], t);
    Assoc(['"'], z, ['"'] + t);
    QuoteInFront(Emptied(arg, t));
    EmptiedWeighs(arg, t);
  }

  lemma {:induction false} EmptiedLineWeighs(args: seq<string>)
    ensures var w, x := LineWeight(Substituted(CommandLine(args, true), "")), TotalWeight(SubstitutedAll(args, ""));
      if SomeExposed(args) then w < x else w <= x
  {
    if args != [] {
      var a, t := args[0], Substituted(After(args), "");
      assert a in args && forall b :: b in args <==> b == a || b in args[1..];
      EmptiedLineWeighs(args[1..]);
      FirstOfLine(args, "");
      FirstSubstituted(args, "");
      AfterWeighs(args);
      if NeedsQuotes(a, true) {
        QuotedSubstituted(a, "");
        QuotedWeighs(a, t);
      } else {
        UnquotedWeighs(a, t);
        NothingToSubstitute(a, "");
      }
    }
  }

  lemma AfterWeighs(args: seq<string>)
    requires args != []
    ensures LineWeight(Substituted(After(args), "")) == LineWeight(Substituted(CommandLine(args[1..], true), ""))
  {
    FirstOfLine(args, "");
    SplitWeighs(Substituted(After(args), ""));
    SplitWeighs(Substituted(CommandLine(args[1..], true), ""));
  }

  /** With placeholders quoted, replacing every '%' of a command line by a text
      without quotes and backslashes, blanks included, and splitting gives the
      same arguments with that text in place, exactly if the text is not empty or
      no backslash is exposed by taking a '%' away. */
  lemma SubstitutionIff(args: seq<string>, text: string)
    requires (forall a :: a in args ==> Survives(a, true)) && IsPlainText(text)
    ensures Split(Substituted(CommandLine(args, true), text)) == SubstitutedAll(args, text) <==>
            text != "" || !(exists a :: a in args && Exposed(a))
  {
    if text != "" || !SomeExposed(args) {
      SubstitutionStaysInside(args, text);
    } else {
      EmptiedLineWeighs(args);
      SplitWeighs(Substituted(CommandLine(args, true), ""));
    }
  }

  /** Such an argument: a backslash, a placeholder, and the end. */
  lemma EmptyTextIsExposed()
    ensures Survives("\\%", true) && Exposed("\\%")
    ensures Split(Substituted(CommandLine(["\\%"], true), "")) != SubstitutedAll(["\\%"], "")
  {
    var a := "\\%";
    assert Quotable(a[1], true);
    assert a[1..] == "%" && "%"[1..] == "";
    assert ExposedAt(a, 1);
    assert forall b :: b in [a] <==> b == a;
    SubstitutionIff([a], "");
  }

  /** Without quoting placeholders, a blank text cuts such an argument in two. */
  lemma UnquotedPlaceholderFallsApart()
    ensures Split(Substituted(CommandLine(["a%b"], false), " ")) == ["a", "b"]
  {
    var a := "a%b";
    assert !NeedsQuotes(a, false);
    assert a == ['a'] + (['%'] + ['b']);
    OneCharacter('a', ['%'] + ['b'], " ");
    OneCharacter('%', ['b'], " ");
    OneCharacter('b', "", " ");
    assert ['b'] + "" == "b";
    assert Substituted(a, " ") == "a" + " b";
    ParsePlain("a", " b");
    ParsePlain("b", "");
    assert "b" + "" == "b" && " b"[1..] == "b";
    assert Split("b") == ["b"] + Split("");
  }
}
