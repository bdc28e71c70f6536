// The command line Windows runs at login, and the rules by which it is read back.
module WindowsCommandLine {
  import opened Texts
  import opened Autostart

  function Repeat(c: char, n: nat): (s: string)
    ensures |s| == n && forall x <- s :: x == c
  {
    seq(n, _ => c)
  }

  // ── Writing ──────────────────────────────────────────────────────────

  predicate NeedsQuotes(arg: string) {
    arg == "" || exists c <- arg :: c in {' ', '\t', '\n', '\U{B}', '"'}
  }

  // The inside of a quoted argument, after `backslashes` backslashes not yet written.
  function Quoted(arg: string, backslashes: nat): string {
    if arg == "" then Repeat('\\', 2 * backslashes)
    else if arg[0] == '\\' then Quoted(arg[1..], backslashes + 1)
    else if arg[0] == '"' then Repeat('\\', 2 * backslashes + 1) + "\"" + Quoted(arg[1..], 0)
    else Repeat('\\', backslashes) + [arg[0]] + Quoted(arg[1..], 0)
  }

  function QuotedArgument(arg: string): string {
    if !NeedsQuotes(arg) then arg else "\"" + Quoted(arg, 0) + "\""
  }

  function Arguments(args: seq<string>): string {
    if args == [] then ""
    else Arguments(args[..|args| - 1]) + " " + QuotedArgument(args[|args| - 1])
  }

  // The program in quotes, then the arguments.
  function Written(launch: Launch): string {
    "\"" + launch.exe + "\"" + Arguments(launch.args)
  }

  lemma {:induction false} QuotedIsLonger(arg: string, backslashes: nat)
    ensures |Quoted(arg, backslashes)| >= |arg| + backslashes
  {
    if arg == "" {
    } else {
      QuotedIsLonger(arg[1..], if arg[0] == '\\' then backslashes + 1 else 0);
    }
  }

  // An argument is written as it is if and only if it is not empty and has no white space and no quote.
  lemma WrittenPlain(arg: string)
    ensures QuotedArgument(arg) == arg <==> arg != "" && forall c <- arg :: c !in {' ', '\t', '\n', '\U{B}', '"'}
  {
    QuotedIsLonger(arg, 0);
  }

  method QuoteArgument(arg: string) returns (quoted: string)
    ensures quoted == QuotedArgument(arg)
  {
    if !NeedsQuotes(arg) {
      return arg;
    }
    quoted := "\"";
    var backslashes := 0;
    for i := 0 to |arg|
      invariant quoted + Quoted(arg[i..], backslashes) == "\"" + Quoted(arg, 0)
    {
      var c := arg[i];
      assert arg[i..][1..] == arg[i + 1..];
      if c == '\\' {
        backslashes := backslashes + 1;
      } else if c == '"' {
        quoted := quoted + Repeat('\\', backslashes * 2 + 1) + "\"";
        backslashes := 0;
      } else {
        quoted := quoted + Repeat('\\', backslashes) + [c];
        backslashes := 0;
      }
    }
    quoted := quoted + Repeat('\\', backslashes * 2);
    quoted := quoted + "\"";
  }

  method CommandLine(launch: Launch) returns (line: string)
    ensures line == Written(launch)
  {
    hide QuotedArgument, Arguments;
    line := "\"" + launch.exe + "\"";
    ghost var start := line;
    NoArguments();
    for i := 0 to |launch.args|
      invariant line == start + Arguments(launch.args[..i])
    {
      line := line + " ";
      var quoted := QuoteArgument(launch.args[i]);
      line := line + quoted;
      OneMoreArgument(start, launch.args, i);
    }
    assert launch.args[..|launch.args|] == launch.args;
  }

  lemma NoArguments()
    ensures Arguments([]) == ""
  {
  }

  lemma OneMoreArgument(start: string, args: seq<string>, i: nat)
    requires i < |args|
    ensures start + Arguments(args[..i + 1]) == start + Arguments(args[..i]) + " " + QuotedArgument(args[i])
  {
    hide QuotedArgument;
    assert args[..i + 1][..i] == args[..i];
  }

  // ── Reading, by the documented rules of CommandLineToArgvW ───────────

  predicate IsBlank(c: char) {
    c == ' ' || c == '\t'
  }

  function Backslashes(s: string): (n: nat)
    ensures n <= |s|
  {
    if s == "" || s[0] != '\\' then 0 else 1 + Backslashes(s[1..])
  }

  // One argument and the rest of the line. 2n backslashes and a quote are n backslashes and the
  // start or end of a quoted part; 2n + 1 are n backslashes and a quote; others are themselves.
  function ReadArgument(s: string, quoted: bool): (r: (string, string))
    ensures |r.1| <= |s|
    decreases |s|
  {
    var n := Backslashes(s);
    var t := s[n..];
    if t != "" && t[0] == '"' then
      var (arg, rest) := ReadArgument(t[1..], if n % 2 == 0 then !quoted else quoted);
      (Repeat('\\', n / 2) + (if n % 2 == 0 then "" else "\"") + arg, rest)
    else if n > 0 then
      var (arg, rest) := ReadArgument(t, quoted);
      (s[..n] + arg, rest)
    else if s == "" || (!quoted && IsBlank(s[0])) then ("", s)
    else
      var (arg, rest) := ReadArgument(s[1..], quoted);
      ([s[0]] + arg, rest)
  }

  function SkipBlanks(s: string): (r: string)
    ensures |r| <= |s|
    ensures r == "" || !IsBlank(r[0])
  {
    if s != "" && IsBlank(s[0]) then SkipBlanks(s[1..]) else s
  }

  function ReadArguments(s: string): seq<string>
    decreases |s|
  {
    var t := SkipBlanks(s);
    if t == "" then []
    else
      var (arg, rest) := ReadArgument(t, false);
      ReadShortens(t);
      [arg] + ReadArguments(rest)
  }

  lemma ReadShortens(s: string)
    requires s != "" && !IsBlank(s[0])
    ensures |ReadArgument(s, false).1| < |s|
  {
  }

  // A zero ends the line. A program name in quotes ends at the next quote, and a bare one at a
  // blank; backslashes mean nothing in it.
  function ReadCommandLine(line: string): Launch {
    var s := line[..IndexOf(line, '\0')];
    if s != "" && s[0] == '"' then
      var end := IndexOf(s[1..], '"');
      Launch(s[1..][..end], ReadArguments(if end < |s| - 1 then s[end + 2..] else ""))
    else
      var end := BlankAt(s);
      Launch(s[..end], ReadArguments(s[end..]))
  }

  function BlankAt(s: string): (i: nat)
    ensures i <= |s|
  {
    if s == "" || IsBlank(s[0]) then 0 else 1 + BlankAt(s[1..])
  }

  // ── The round trip ───────────────────────────────────────────────────

  predicate EndsHere(rest: string) {
    rest == "" || IsBlank(rest[0])
  }

  lemma {:induction false} CountBackslashes(n: nat, rest: string)
    requires rest == "" || rest[0] != '\\'
    ensures Backslashes(Repeat('\\', n) + rest) == n
  {
    var s := Repeat('\\', n) + rest;
    if n == 0 {
      assert s == rest;
    } else {
      CountBackslashes(n - 1, rest);
      assert s[1..] == Repeat('\\', n - 1) + rest;
    }
  }

  // The rules of `ReadArgument`, one lemma each.
  lemma ReadEnd(rest: string)
    requires EndsHere(rest)
    ensures ReadArgument(rest, false) == ("", rest)
  {
  }

  lemma ReadQuote(n: nat, tail: string, quoted: bool)
    ensures var (arg, rest) := ReadArgument(tail, if n % 2 == 0 then !quoted else quoted);
            ReadArgument(Repeat('\\', n) + ("\"" + tail), quoted)
            == (Repeat('\\', n / 2) + (if n % 2 == 0 then "" else "\"") + arg, rest)
  {
    hide Repeat;
    var s := Repeat('\\', n) + ("\"" + tail);
    CountBackslashes(n, "\"" + tail);
    assert s[n..] == "\"" + tail;
    assert s[n..][1..] == tail;
    hide Backslashes;
  }

  lemma ReadBackslashes(n: nat, t: string, quoted: bool)
    requires n > 0 && (t == "" || (t[0] != '\\' && t[0] != '"'))
    ensures var (arg, rest) := ReadArgument(t, quoted);
            ReadArgument(Repeat('\\', n) + t, quoted) == (Repeat('\\', n) + arg, rest)
  {
    hide Repeat;
    var s := Repeat('\\', n) + t;
    CountBackslashes(n, t);
    assert s[n..] == t && s[..n] == Repeat('\\', n);
    hide Backslashes;
  }

  lemma ReadOrdinary(c: char, tail: string, quoted: bool)
    requires c != '\\' && c != '"' && (quoted || !IsBlank(c))
    ensures var (arg, rest) := ReadArgument(tail, quoted);
            ReadArgument([c] + tail, quoted) == ([c] + arg, rest)
  {
    var s := [c] + tail;
    assert Backslashes(s) == 0;
    assert s[0..] == s && s[1..] == tail;
    hide Backslashes;
  }

  // Backslashes before an ordinary character are themselves, and so is the character.
  lemma ReadPlainChar(n: nat, c: char, tail: string, quoted: bool)
    requires c != '\\' && c != '"' && (quoted || !IsBlank(c))
    ensures var (arg, rest) := ReadArgument(tail, quoted);
            ReadArgument(Repeat('\\', n) + ([c] + tail), quoted) == (Repeat('\\', n) + ([c] + arg), rest)
  {
    hide ReadArgument;
    ReadOrdinary(c, tail, quoted);
    if n == 0 {
      var (arg, rest) := ReadArgument(tail, quoted);
      assert Repeat('\\', 0) + ([c] + tail) == [c] + tail;
      assert Repeat('\\', 0) + ([c] + arg) == [c] + arg;
    } else {
      ReadBackslashes(n, [c] + tail, quoted);
    }
  }

  // Reading what was written for `arg` after `backslashes` pending backslashes gives both back.
  lemma {:induction false} ReadQuoted(arg: string, backslashes: nat, rest: string)
    requires EndsHere(rest)
    ensures ReadArgument(Quoted(arg, backslashes) + "\"" + rest, true) == (Repeat('\\', backslashes) + arg, rest)
  {
    hide ReadArgument;
    var s := Quoted(arg, backslashes) + "\"" + rest;
    if arg == "" {
      assert s == Repeat('\\', 2 * backslashes) + ("\"" + rest);
      ReadQuote(2 * backslashes, rest, true);
      ReadEnd(rest);
      assert Repeat('\\', backslashes) + "" + "" == Repeat('\\', backslashes) + arg;
    } else if arg[0] == '\\' {
      ReadQuoted(arg[1..], backslashes + 1, rest);
      assert Repeat('\\', backslashes + 1) + arg[1..] == Repeat('\\', backslashes) + arg;
    } else if arg[0] == '"' {
      var tail := Quoted(arg[1..], 0) + "\"" + rest;
      ReadQuoted(arg[1..], 0, rest);
      assert s == Repeat('\\', 2 * backslashes + 1) + ("\"" + tail);
      ReadQuote(2 * backslashes + 1, tail, true);
      assert Repeat('\\', backslashes) + "\"" + (Repeat('\\', 0) + arg[1..]) == Repeat('\\', backslashes) + arg;
    } else {
      var tail := Quoted(arg[1..], 0) + "\"" + rest;
      ReadQuoted(arg[1..], 0, rest);
      assert s == Repeat('\\', backslashes) + ([arg[0]] + tail);
      ReadPlainChar(backslashes, arg[0], tail, true);
      assert Repeat('\\', backslashes) + ([arg[0]] + (Repeat('\\', 0) + arg[1..])) == Repeat('\\', backslashes) + arg;
    }
  }

  // An argument written bare reads as itself.
  lemma {:induction false} ReadBare(arg: string, rest: string)
    requires EndsHere(rest)
    requires forall c <- arg :: c != '"' && !IsBlank(c)
    ensures ReadArgument(arg + rest, false) == (arg, rest)
    decreases |arg|
  {
    hide ReadArgument, Backslashes, IsBlank, Repeat;
    var n := Backslashes(arg);
    LeadingBackslashes(arg);
    if n == |arg| {
      assert arg[..n] == arg;
      ReadBareBackslashes(n, rest);
    } else {
      var c, after := arg[n], arg[n + 1..];
      assert c in arg && forall x <- after :: x in arg;
      ReadBare(after, rest);
      ReadPlainChar(n, c, after + rest, false);
      BareApart(arg, n, rest);
    }
  }

  lemma ReadBareBackslashes(n: nat, rest: string)
    requires EndsHere(rest)
    ensures ReadArgument(Repeat('\\', n) + rest, false) == (Repeat('\\', n), rest)
  {
    hide ReadArgument;
    ReadEnd(rest);
    if n == 0 {
      assert Repeat('\\', n) + rest == rest && Repeat('\\', n) == "";
    } else {
      ReadBackslashes(n, rest, false);
      assert Repeat('\\', n) + "" == Repeat('\\', n);
    }
  }

  lemma BareApart(arg: string, n: nat, rest: string)
    requires n < |arg|
    ensures arg == arg[..n] + ([arg[n]] + arg[n + 1..])
    ensures arg + rest == arg[..n] + ([arg[n]] + (arg[n + 1..] + rest))
  {
  }

  lemma {:induction false} LeadingBackslashes(s: string)
    ensures var n := Backslashes(s);
            s[..n] == Repeat('\\', n) && (n < |s| ==> s[n] != '\\')
  {
    if s != "" && s[0] == '\\' {
      LeadingBackslashes(s[1..]);
      var n := Backslashes(s);
      assert s[..n] == [s[0]] + s[1..][..n - 1];
    }
  }

  lemma ReadQuotedArgument(arg: string, rest: string)
    requires EndsHere(rest)
    ensures ReadArgument(QuotedArgument(arg) + rest, false) == (arg, rest)
    ensures QuotedArgument(arg) != "" && !IsBlank(QuotedArgument(arg)[0])
  {
    hide ReadArgument, Quoted;
    if NeedsQuotes(arg) {
      var tail := Quoted(arg, 0) + "\"" + rest;
      ReadQuoted(arg, 0, rest);
      ReadQuote(0, tail, false);
      assert QuotedArgument(arg) + rest == Repeat('\\', 0) + ("\"" + tail);
      assert Repeat('\\', 0) + "" + (Repeat('\\', 0) + arg) == arg;
    } else {
      ReadBare(arg, rest);
    }
  }

  // Arguments with more text after them read as themselves and then whatever that text reads as.
  lemma {:induction false} ReadWrittenArguments(args: seq<string>, rest: string)
    requires EndsHere(rest)
    ensures ReadArguments(Arguments(args) + rest) == args + ReadArguments(rest)
  {
    hide ReadArgument, QuotedArgument, ReadArguments;
    if args == [] {
      assert Arguments(args) + rest == rest;
      assert args + ReadArguments(rest) == ReadArguments(rest);
    } else {
      var before, last := args[..|args| - 1], args[|args| - 1];
      var tail := " " + QuotedArgument(last) + rest;
      ReadWrittenArguments(before, tail);
      assert Arguments(args) + rest == Arguments(before) + tail;
      ReadOneWritten(last, rest);
      assert before + ([last] + ReadArguments(rest)) == args + ReadArguments(rest);
    }
  }

  lemma ReadOneWritten(arg: string, rest: string)
    requires EndsHere(rest)
    ensures ReadArguments(" " + QuotedArgument(arg) + rest) == [arg] + ReadArguments(rest)
  {
    hide ReadArgument, QuotedArgument;
    var tail := " " + QuotedArgument(arg) + rest;
    ReadQuotedArgument(arg, rest);
    assert tail[1..] == QuotedArgument(arg) + rest;
    assert SkipBlanks(tail) == tail[1..];
  }

  predicate NoZeros(launch: Launch) {
    '\0' !in launch.exe && forall arg <- launch.args :: '\0' !in arg
  }

  lemma {:induction false} WrittenZeros(args: seq<string>)
    requires forall arg <- args :: '\0' !in arg
    ensures '\0' !in Arguments(args)
  {
    if args == [] {
    } else {
      WrittenZeros(args[..|args| - 1]);
      QuotedZeros(args[|args| - 1], 0);
    }
  }

  lemma {:induction false} QuotedZeros(arg: string, backslashes: nat)
    requires '\0' !in arg
    ensures '\0' !in Quoted(arg, backslashes)
  {
    if arg == "" {
    } else {
      QuotedZeros(arg[1..], if arg[0] == '\\' then backslashes + 1 else 0);
    }
  }

  lemma {:induction false} ReadArgumentZeros(s: string, quoted: bool)
    requires '\0' !in s
    ensures '\0' !in ReadArgument(s, quoted).0 && '\0' !in ReadArgument(s, quoted).1
    decreases |s|
  {
    var n := Backslashes(s);
    var t := s[n..];
    if t != "" && t[0] == '"' {
      ReadArgumentZeros(t[1..], if n % 2 == 0 then !quoted else quoted);
    } else if n > 0 {
      ReadArgumentZeros(t, quoted);
    } else if !(s == "" || (!quoted && IsBlank(s[0]))) {
      ReadArgumentZeros(s[1..], quoted);
    }
  }

  lemma {:induction false} ReadZeros(s: string)
    requires '\0' !in s
    ensures forall arg <- ReadArguments(s) :: '\0' !in arg
    decreases |s|
  {
    var t := SkipBlanks(s);
    SkipBlanksZeros(s);
    if t == "" {
    } else {
      ReadArgumentZeros(t, false);
      ReadShortens(t);
      ReadZeros(ReadArgument(t, false).1);
    }
  }

  lemma SkipBlanksZeros(s: string)
    requires '\0' !in s
    ensures '\0' !in SkipBlanks(s)
  {
  }

  lemma RecoversWhenPossible(launch: Launch)
    requires '"' !in launch.exe && NoZeros(launch)
    ensures ReadCommandLine(Written(launch)) == launch
  {
    var line := Written(launch);
    var args := Arguments(launch.args);
    WrittenZeros(launch.args);
    assert line == "\"" + (launch.exe + ("\"" + args));
    assert IndexOf(line, '\0') == |line|;
    assert line[..|line|] == line;
    assert line[1..] == launch.exe + ("\"" + args);
    FirstQuote(launch.exe, args);
    assert line[1..][..|launch.exe|] == launch.exe;
    assert line[|launch.exe| + 2..] == args;
    ReadWrittenArguments(launch.args, "");
    assert args + "" == args;
    assert launch.args + ReadArguments("") == launch.args;
  }

  lemma {:induction false} FirstQuote(exe: string, rest: string)
    requires '"' !in exe
    ensures IndexOf(exe + ("\"" + rest), '"') == |exe|
  {
    if exe == "" {
    } else {
      FirstQuote(exe[1..], rest);
      assert (exe + ("\"" + rest))[1..] == exe[1..] + ("\"" + rest);
    }
  }

  // Windows gets back exactly the program and the arguments, if and only if the program's path has
  // no quote in it and there is no zero anywhere.
  lemma WindowsRoundTrip(launch: Launch)
    ensures ReadCommandLine(Written(launch)) == launch <==> '"' !in launch.exe && NoZeros(launch)
  {
    hide Written, NoZeros, ReadCommandLine;
    if '"' !in launch.exe && NoZeros(launch) {
      RecoversWhenPossible(launch);
    }
    WhatIsReadBack(Written(launch));
    WrittenStarts(launch);
  }

  lemma WrittenStarts(launch: Launch)
    ensures Written(launch) != "" && Written(launch)[0] == '"'
  {
  }

  // Whatever is read from a line that starts with a quote has no quote in its program and no zeros.
  lemma WhatIsReadBack(line: string)
    ensures line != "" && line[0] == '"' ==> '"' !in ReadCommandLine(line).exe && NoZeros(ReadCommandLine(line))
  {
    if line != "" && line[0] == '"' {
      var s := line[..IndexOf(line, '\0')];
      assert '\0' !in s && s[0] == '"';
      var end := IndexOf(s[1..], '"');
      ReadZeros(if end < |s| - 1 then s[end + 2..] else "");
    }
  }
}
