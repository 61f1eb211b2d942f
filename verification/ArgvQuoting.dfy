/** Models QuoteForCommandLineToArgvW and the argument rules of
    CommandLineToArgvW that it has to survive. */
module ArgvQuoting {

  predicate Quotable(c: char, placeholders: bool) {
    c == ' ' || c == '\\' || c == '"' || (placeholders && c == '%')
  }

  predicate NeedsQuotes(arg: string, placeholders: bool) {
    exists i :: 0 <= i < |arg| && Quotable(arg[i], placeholders)
  }

  /** The length of the run of backslashes s starts with. */
  function Backslashes(s: string): (n: nat)
    ensures n <= |s|
    ensures forall i :: 0 <= i < n ==> s[i] == '\\'
    ensures n < |s| ==> s[n] != '\\'
  {
    if s != "" && s[0] == '\\' then 1 + Backslashes(s[1..]) else 0
  }

  function Run(n: nat): (s: string)
    ensures |s| == n && forall i :: 0 <= i < n ==> s[i] == '\\'
  {
    seq(n, _ => '\\')
  }

  /** What goes between the quotes. */
  function Escaped(arg: string): string {
    if arg == "" then ""
    else
      var n := Backslashes(arg);
      if n > 0 then
        Run(if n == |arg| || arg[n] == '"' then 2 * n else n) + Escaped(arg[n..])
      else (if arg[0] == '"' then ['\\', '"'] else [arg[0]]) + Escaped(arg[1..])
  }

  function Quote(arg: string, placeholders: bool): string {
    if NeedsQuotes(arg, placeholders) then ['"'] + Escaped(arg) + ['"'] else arg
  }

  /** Which characters make the difference. */
  lemma QuotedIff(arg: string, placeholders: bool)
    ensures Quote(arg, placeholders) != arg <==>
            ' ' in arg || '\\' in arg || '"' in arg || (placeholders && '%' in arg)
  {
    if NeedsQuotes(arg, placeholders) {
      var i :| 0 <= i < |arg| && Quotable(arg[i], placeholders);
      assert arg[i] in arg;
      EscapedIsNoShorter(arg);
    } else {
      assert forall i :: 0 <= i < |arg| ==> !Quotable(arg[i], placeholders);
    }
  }

  lemma {:induction false} EscapedIsNoShorter(arg: string)
    ensures |Escaped(arg)| >= |arg|
    decreases |arg|
  {
    var n := Backslashes(arg);
    if n > 0 {
      EscapedIsNoShorter(arg[n..]);
    } else if arg != "" {
      EscapedIsNoShorter(arg[1..]);
    }
  }

  method ContainsQuotable(arg: string, placeholders: bool) returns (found: bool)
    ensures found <==> NeedsQuotes(arg, placeholders)
  {
    for i := 0 to |arg|
      invariant forall k :: 0 <= k < i ==> !Quotable(arg[k], placeholders)
    {
      if Quotable(arg[i], placeholders) {
        return true;
      }
    }
    return false;
  }

  method EndOfRun(arg: string, start: nat) returns (end: nat)
    requires start < |arg| && arg[start] == '\\'
    ensures start < end <= |arg|
    ensures forall k :: start <= k < end ==> arg[k] == '\\'
    ensures end < |arg| ==> arg[end] != '\\'
  {
    end := start + 1;
    while end < |arg| && arg[end] == '\\'
      invariant start < end <= |arg|
      invariant forall k :: start <= k < end ==> arg[k] == '\\'
    {
      end := end + 1;
    }
  }

  method PushBackslashes(out: string, count: nat) returns (more: string)
    ensures more == out + Run(count)
  {
    more := out;
    for j := 0 to count
      invariant more == out + Run(j)
    {
      assert Run(j + 1) == Run(j) + ['\\'];
      more := more + ['\\'];
    }
  }

  /** One turn of the loop: a whole run of backslashes, or one character. */
  method QuoteNext(before: string, arg: string, i: nat) returns (out: string, next: nat)
    requires i < |arg|
    ensures i < next <= |arg|
    ensures out + Escaped(arg[next..]) == before + Escaped(arg[i..])
  {
    if arg[i] == '\\' {
      next := EndOfRun(arg, i);
      var count := next - i;
      if next == |arg| || arg[next] == '"' {
        count := count * 2;
      }
      EscapedRun(before, arg, i, next);
      out := PushBackslashes(before, count);
    } else {
      EscapedChar(before, arg, i);
      if arg[i] == '"' {
        out := before + ['\\', '"'];
      } else {
        out := before + [arg[i]];
      }
      next := i + 1;
    }
  }

  method QuoteForCommandLineToArgvW(arg: string, placeholders: bool) returns (out: string)
    ensures out == Quote(arg, placeholders)
    ensures out != arg <==> ' ' in arg || '\\' in arg || '"' in arg || (placeholders && '%' in arg)
  {
    QuotedIff(arg, placeholders);
    var found := ContainsQuotable(arg, placeholders);
    if !found {
      return arg;
    }
    out := ['"'];
    var i := 0;
    while i < |arg|
      invariant i <= |arg|
      invariant out + Escaped(arg[i..]) == ['"'] + Escaped(arg)
    {
      out, i := QuoteNext(out, arg, i);
    }
    assert arg[i..] == "";
    out := out + ['"'];
  }

  lemma Assoc(a: string, b: string, c: string)
    ensures (a + b) + c == a + (b + c)
  {
  }

  lemma BackslashesAre(s: string, n: nat)
    requires n <= |s| && (forall i :: 0 <= i < n ==> s[i] == '\\') && (n < |s| ==> s[n] != '\\')
    ensures Backslashes(s) == n
  {
  }

  lemma EscapedRun(out: string, arg: string, i: nat, end: nat)
    requires i < end <= |arg| && (forall k :: i <= k < end ==> arg[k] == '\\') && (end < |arg| ==> arg[end] != '\\')
    ensures out + Escaped(arg[i..]) ==
            (out + Run(if end == |arg| || arg[end] == '"' then 2 * (end - i) else end - i)) + Escaped(arg[end..])
  {
    BackslashesAre(arg[i..], end - i);
    assert arg[i..][end - i..] == arg[end..];
    Assoc(out, Run(if end == |arg| || arg[end] == '"' then 2 * (end - i) else end - i), Escaped(arg[end..]));
  }

  lemma EscapedChar(out: string, arg: string, i: nat)
    requires i < |arg| && arg[i] != '\\'
    ensures out + Escaped(arg[i..]) ==
            (out + (if arg[i] == '"' then ['\\', '"'] else [arg[i]])) + Escaped(arg[i + 1..])
  {
    assert arg[i..][1..] == arg[i + 1..];
    Assoc(out, if arg[i] == '"' then ['\\', '"'] else [arg[i]], Escaped(arg[i + 1..]));
  }

  // ---------------------------------------------------------------- the parser

  predicate Blank(c: char) {
    c == ' ' || c == '\t'
  }

  /** One argument and what follows it: blanks end it outside quotes, 2n
      backslashes before a quote stand for n and the quote delimits, 2n+1 stand
      for n and a literal quote, other backslashes stand for themselves. */
  function ParseArg(s: string, quoted: bool): (r: (string, string))
    ensures |r.1| <= |s|
    ensures s != "" && (quoted || !Blank(s[0])) ==> |r.1| < |s|
    decreases |s|
  {
    if s == "" || (!quoted && Blank(s[0])) then ("", s)
    else
      var n := Backslashes(s);
      if n < |s| && s[n] == '"' then
        if n % 2 == 0 then Prefixed(Run(n / 2), ParseArg(s[n + 1..], !quoted))
        else Prefixed(Run(n / 2) + ['"'], ParseArg(s[n + 1..], quoted))
      else if n > 0 then Prefixed(Run(n), ParseArg(s[n..], quoted))
      else Prefixed([s[0]], ParseArg(s[1..], quoted))
  }

  function Prefixed(p: string, r: (string, string)): (string, string) {
    (p + r.0, r.1)
  }

  function Split(s: string): seq<string>
    decreases |s|
  {
    if s == "" then []
    else if Blank(s[0]) then Split(s[1..])
    else [ParseArg(s, false).0] + Split(ParseArg(s, false).1)
  }

  function CommandLine(args: seq<string>, placeholders: bool): string {
    if args == [] then ""
    else if |args| == 1 then Quote(args[0], placeholders)
    else Quote(args[0], placeholders) + " " + CommandLine(args[1..], placeholders)
  }

  /** Nothing follows, or a blank does. */
  predicate Ends(t: string) {
    t == "" || Blank(t[0])
  }

  lemma ParseQuote(n: nat, t: string, quoted: bool)
    ensures ParseArg(Run(n) + (['"'] + t), quoted) ==
            if n % 2 == 0 then Prefixed(Run(n / 2), ParseArg(t, !quoted))
            else Prefixed(Run(n / 2) + ['"'], ParseArg(t, quoted))
  {
    var s := Run(n) + (['"'] + t);
    BackslashesAre(s, n);
    assert s[n + 1..] == t;
  }

  lemma ParseRun(n: nat, c: char, t: string)
    requires c != '"' && c != '\\'
    ensures ParseArg(Run(n) + ([c] + t), true) == Prefixed(Run(n) + [c], ParseArg(t, true))
  {
    var s := Run(n) + ([c] + t);
    ParseChar(c, t, true);
    if n == 0 {
      assert s == [c] + t && Run(n) + [c] == [c];
    } else {
      BackslashesAre(s, n);
      assert s[n..] == [c] + t;
      Assoc(Run(n), [c], ParseArg(t, true).0);
    }
  }

  lemma ParseChar(c: char, t: string, quoted: bool)
    requires c != '"' && c != '\\' && (quoted || !Blank(c))
    ensures ParseArg([c] + t, quoted) == Prefixed([c], ParseArg(t, quoted))
  {
    BackslashesAre([c] + t, 0);
    assert ([c] + t)[1..] == t;
  }

  /** The escaped text, read inside quotes up to its closing quote, is arg. */
  lemma {:induction false} ParseEscaped(arg: string, t: string)
    requires Ends(t)
    ensures ParseArg(Escaped(arg) + (['"'] + t), true) == (arg, t)
    decreases |arg|
  {
    var n := Backslashes(arg);
    RunThenRest(arg, n);
    if n < |arg| {
      ParseEscaped(arg[n + 1..], t);
      EscapedText(arg, n, ['"'] + t);
      ParseStep(n, arg[n], arg[n + 1..], Escaped(arg[n + 1..]) + (['"'] + t), t);
    } else {
      EscapedRunOnly(arg);
      ParseClose(n, t);
    }
  }

  lemma ParseClose(n: nat, t: string)
    requires Ends(t)
    ensures ParseArg(Run(2 * n) + (['"'] + t), true) == (Run(n), t)
  {
    ParseQuote(2 * n, t, true);
    assert Run(n) + "" == Run(n);
  }

  lemma ParseStep(n: nat, c: char, tail: string, rest: string, t: string)
    requires c != '\\' && ParseArg(rest, true) == (tail, t)
    ensures ParseArg(Run(if c == '"' then 2 * n + 1 else n) + ([c] + rest), true) == (Run(n) + [c] + tail, t)
  {
    if c == '"' {
      ParseQuote(2 * n + 1, rest, true);
    } else {
      ParseRun(n, c, rest);
    }
  }

  lemma RunThenRest(arg: string, n: nat)
    requires n <= |arg| && forall i :: 0 <= i < n ==> arg[i] == '\\'
    ensures n < |arg| ==> Run(n) + [arg[n]] + arg[n + 1..] == arg
    ensures n == |arg| ==> Run(n) == arg
  {
  }

  lemma EscapedText(arg: string, n: nat, t: string)
    requires n == Backslashes(arg) && n < |arg|
    ensures Escaped(arg) + t ==
            Run(if arg[n] == '"' then 2 * n + 1 else n) + ([arg[n]] + (Escaped(arg[n + 1..]) + t))
  {
    EscapedAtEndOfRun(arg, n);
    Assoc(Run(if arg[n] == '"' then 2 * n + 1 else n), [arg[n]] + Escaped(arg[n + 1..]), t);
    Assoc([arg[n]], Escaped(arg[n + 1..]), t);
  }

  lemma EscapedRunOnly(arg: string)
    requires Backslashes(arg) == |arg|
    ensures Escaped(arg) == Run(2 * |arg|)
  {
    if arg != "" {
      assert arg[|arg|..] == "" && Run(2 * |arg|) + "" == Run(2 * |arg|);
    }
  }

  lemma EscapedAtEndOfRun(arg: string, n: nat)
    requires n == Backslashes(arg) && n < |arg|
    ensures Escaped(arg) == if arg[n] == '"' then Run(2 * n + 1) + (['"'] + Escaped(arg[n + 1..]))
                            else Run(n) + ([arg[n]] + Escaped(arg[n + 1..]))
  {
    var a := arg[n..];
    var e := Escaped(arg[n + 1..]);
    assert a[0] == arg[n] && a[1..] == arg[n + 1..];
    BackslashesAre(a, 0);
    assert n == 0 ==> a == arg && Run(0) + Escaped(a) == Escaped(a);
    if arg[n] == '"' { EscapedQuote(2 * n, e); }
  }

  lemma EscapedQuote(n: nat, e: string)
    ensures Run(n) + (['\\', '"'] + e) == Run(n + 1) + (['"'] + e)
  {
  }

  /** Text with nothing special and no blanks reads back as itself. */
  lemma {:induction false} ParsePlain(p: string, t: string)
    requires Ends(t) && forall i :: 0 <= i < |p| ==> !Blank(p[i]) && p[i] != '"' && p[i] != '\\'
    ensures ParseArg(p + t, false) == (p, t)
  {
    if p == "" {
      assert p + t == t;
    } else {
      assert p + t == [p[0]] + (p[1..] + t);
      ParseChar(p[0], p[1..] + t, false);
      ParsePlain(p[1..], t);
      assert [p[0]] + p[1..] == p;
    }
  }

  /** The arguments that survive: nonempty, and free of tabs unless something
      else in them forces the quotes. */
  predicate Survives(arg: string, placeholders: bool) {
    arg != "" && (NeedsQuotes(arg, placeholders) || '\t' !in arg)
  }

  lemma QuotedText(arg: string, t: string)
    ensures (['"'] + Escaped(arg) + ['"']) + t == Run(0) + (['"'] + (Escaped(arg) + (['"'] + t)))
  {
    Assoc(['"'] + Escaped(arg), ['"'], t);
    Assoc(['"'], Escaped(arg), ['"'] + t);
    assert forall s: string :: Run(0) + s == s;
  }

  lemma ParseQuoted(arg: string, t: string, placeholders: bool)
    requires Ends(t) && Survives(arg, placeholders)
    ensures ParseArg(Quote(arg, placeholders) + t, false) == (arg, t)
    ensures !Ends(Quote(arg, placeholders) + t)
  {
    if NeedsQuotes(arg, placeholders) {
      QuotedText(arg, t);
      ParseQuote(0, Escaped(arg) + (['"'] + t), false);
      ParseEscaped(arg, t);
      assert Run(0) + arg == arg;
    } else {
      forall i | 0 <= i < |arg| ensures !Blank(arg[i]) && arg[i] != '"' && arg[i] != '\\' {
        assert !Quotable(arg[i], placeholders);
        assert arg[i] in arg;
      }
      ParsePlain(arg, t);
    }
  }

  lemma SplitNext(arg: string, t: string, placeholders: bool)
    requires Ends(t) && Survives(arg, placeholders)
    ensures Split(Quote(arg, placeholders) + t) == [arg] + Split(t)
  {
    ParseQuoted(arg, t, placeholders);
  }

  /** Quoting, joining with spaces and splitting returns the list. */
  lemma {:induction false} SurvivorsRoundTrip(args: seq<string>, placeholders: bool)
    requires forall a :: a in args ==> Survives(a, placeholders)
    ensures Split(CommandLine(args, placeholders)) == args
  {
    if args != [] {
      assert args[0] in args && forall a :: a in args[1..] ==> a in args;
      var q, t := Quote(args[0], placeholders), " " + CommandLine(args[1..], placeholders);
      SurvivorsRoundTrip(args[1..], placeholders);
      assert t[1..] == CommandLine(args[1..], placeholders);
      if |args| == 1 {
        SplitNext(args[0], "", placeholders);
        assert q + "" == q;
      } else {
        SplitNext(args[0], t, placeholders);
        Assoc(q, " ", CommandLine(args[1..], placeholders));
      }
    }
  }

  // ------------------------------------------------- and nothing else survives

  /** An unquoted argument falls apart at its tabs into surviving pieces. */
  lemma {:induction false} PlainFallsApart(arg: string, t: string, placeholders: bool)
    requires Ends(t) && !NeedsQuotes(arg, placeholders)
    ensures forall x :: x in Split(arg + t) ==> Survives(x, placeholders) || x in Split(t)
    decreases |arg|
  {
    if arg == "" {
      assert arg + t == t;
    } else if arg[0] == '\t' {
      assert (arg + t)[1..] == arg[1..] + t;
      assert forall i :: 0 <= i < |arg[1..]| ==> arg[1..][i] == arg[i + 1];
      PlainFallsApart(arg[1..], t, placeholders);
    } else {
      var k := ToTab(arg);
      SubstringStaysPlain(arg, k, placeholders);
      SplitPlain(arg[..k], arg[k..], t, placeholders);
      assert arg[..k] + arg[k..] == arg;
      PlainFallsApart(arg[k..], t, placeholders);
    }
  }

  function ToTab(s: string): (n: nat)
    ensures n <= |s| && '\t' !in s[..n]
    ensures n < |s| ==> s[n] == '\t'
  {
    if s == "" || s[0] == '\t' then 0 else 1 + ToTab(s[1..])
  }

  lemma SubstringStaysPlain(arg: string, k: nat, placeholders: bool)
    requires k <= |arg| && !NeedsQuotes(arg, placeholders)
    ensures !NeedsQuotes(arg[..k], placeholders) && !NeedsQuotes(arg[k..], placeholders)
  {
    assert forall i :: 0 <= i < |arg[k..]| ==> arg[k..][i] == arg[i + k];
  }

  lemma SplitPlain(p: string, rest: string, t: string, placeholders: bool)
    requires p != "" && !NeedsQuotes(p, placeholders) && '\t' !in p && Ends(rest) && Ends(t)
    ensures Split(p + rest + t) == [p] + Split(rest + t)
  {
    forall i | 0 <= i < |p| ensures !Blank(p[i]) && !Quotable(p[i], placeholders) {
      assert p[i] in p;
    }
    Assoc(p, rest, t);
    ParsePlain(p, rest + t);
  }

  lemma {:induction false} OnlySurvivorsComeOut(args: seq<string>, placeholders: bool)
    ensures forall x :: x in Split(CommandLine(args, placeholders)) ==> Survives(x, placeholders)
  {
    if args != [] {
      var t := if |args| == 1 then "" else " " + CommandLine(args[1..], placeholders);
      assert CommandLine(args, placeholders) == Quote(args[0], placeholders) + t;
      OnlySurvivorsComeOut(args[1..], placeholders);
      if |args| > 1 { assert t[1..] == CommandLine(args[1..], placeholders); }
      if NeedsQuotes(args[0], placeholders) {
        SplitNext(args[0], t, placeholders);
      } else {
        PlainFallsApart(args[0], t, placeholders);
      }
    }
  }

  /** The round trip holds exactly for lists of surviving arguments; an empty
      argument, or an unquoted one with a tab, always breaks it. */
  lemma RoundTripIffSurvivors(args: seq<string>, placeholders: bool)
    ensures Split(CommandLine(args, placeholders)) == args <==>
            forall a :: a in args ==> Survives(a, placeholders)
  {
    if forall a :: a in args ==> Survives(a, placeholders) {
      SurvivorsRoundTrip(args, placeholders);
    }
    OnlySurvivorsComeOut(args, placeholders);
  }

  lemma EmptyAndTabbedArgumentsAreLost()
    ensures Split(CommandLine([""], false)) != [""]
    ensures Split(CommandLine(["a\tb"], false)) != ["a\tb"]
  {
    RoundTripIffSurvivors([""], false);
    RoundTripIffSurvivors(["a\tb"], false);
    assert "" in [""] && "a\tb" in ["a\tb"];
    assert "a\tb"[1] == '\t';
  }
}
