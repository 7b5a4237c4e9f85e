/** Command lines on Windows: the quoting the CLI applies to each argument, the published
    rules by which the started program takes the line apart again, and the round trip. */
module ArgQuoting {

  // ---------------------------------------------------------------- quoting

  /** `n` backslashes in front of `s`. */
  function Slashed(n: nat, s: string): (r: string)
    ensures |r| == n + |s|
  {
    if n == 0 then s else ['\\'] + Slashed(n - 1, s)
  }

  predicate Triggers(c: char) {
    c == ' ' || c == '\t' || c == '\n' || c == '\U{0B}' || c == '"'
  }

  predicate NeedsQuoting(arg: string) {
    arg == [] || exists c :: c in arg && Triggers(c)
  }

  /** What is written behind the opening quote: the argument from `i` on, after `pending`
      backslashes, then the closing quote, then `rest`. Backslashes are doubled in front
      of a double quote, and nowhere else. */
  function Body(arg: string, i: nat, pending: nat, rest: string): string
    requires i <= |arg|
    decreases |arg| - i
  {
    if i == |arg| then Slashed(2 * pending, ['"'] + rest)
    else if arg[i] == '\\' then Body(arg, i + 1, pending + 1, rest)
    else if arg[i] == '"' then Slashed(2 * pending + 1, ['"'] + Body(arg, i + 1, 0, rest))
    else Slashed(pending, [arg[i]] + Body(arg, i + 1, 0, rest))
  }

  /** A quoted argument, followed by `rest`. */
  function QuotedBefore(arg: string, rest: string): string {
    if NeedsQuoting(arg) then ['"'] + Body(arg, 0, 0, rest) else arg + rest
  }

  function Quoted(arg: string): string {
    QuotedBefore(arg, [])
  }

  function CommandLine(argv: seq<string>): string
    decreases |argv|, 0
  {
    if argv == [] then [] else QuotedBefore(argv[0], CommandLineTail(argv[1..]))
  }

  function CommandLineTail(argv: seq<string>): string
    decreases |argv|, 1
  {
    if argv == [] then [] else [' '] + CommandLine(argv)
  }

  // ---------------------------------------------------------------- the code

  method FindSpecial(arg: string) returns (found: bool)
    ensures found <==> exists c :: c in arg && Triggers(c)
  {
    var i := 0;
    while i < |arg|
      invariant i <= |arg| && forall k :: 0 <= k < i ==> !Triggers(arg[k])
    {
      if Triggers(arg[i]) {
        assert arg[i] in arg;
        return true;
      }
      i := i + 1;
    }
    return false;
  }

  lemma {:induction false} SlashedIsPrefix(n: nat, s: string)
    ensures Slashed(n, s) == Slashed(n, []) + s
  {
    if n > 0 {
      SlashedIsPrefix(n - 1, s);
    }
  }

  lemma Append(out: string, piece: string, todo: string)
    ensures out + (piece + todo) == out + piece + todo
  {
  }

  /** What the body is still missing at `it`. */
  ghost function Todo(arg: string, it: nat, done: bool): string
    requires it <= |arg|
  {
    if done then ['"'] else Body(arg, it, 0, [])
  }

  /** What follows a run of backslashes, and the run itself. */
  method WriteRun(arg: string, it: nat, backslashes: nat) returns (piece: string, next: nat, done: bool)
    requires it <= |arg| && (it < |arg| ==> arg[it] != '\\')
    ensures it <= next <= |arg| && (done || it < next)
    ensures Body(arg, it, backslashes, []) == piece + Todo(arg, next, done)
  {
    if it == |arg| {
      assert ['"'] + [] == ['"'];
      SlashedIsPrefix(backslashes * 2, ['"']);
      return Slashed(backslashes * 2, []), it, true;
    }
    var count := if arg[it] == '"' then backslashes * 2 + 1 else backslashes;
    ghost var later := Body(arg, it + 1, 0, []);
    SlashedIsPrefix(count, [arg[it]] + later);
    Append(Slashed(count, []), [arg[it]], later);
    return Slashed(count, []) + [arg[it]], it + 1, false;
  }

  method QuoteArgWindows(arg: string) returns (out: string)
    ensures out == Quoted(arg)
  {
    var special := FindSpecial(arg);
    if arg != [] && !special {
      assert arg + [] == arg;
      return arg;
    }
    out := ['"'];
    var it, done := 0, false;
    while !done
      invariant it <= |arg| && Quoted(arg) == out + Todo(arg, it, done)
      decreases !done, |arg| - it
    {
      var start, backslashes := it, 0;
      while it < |arg| && arg[it] == '\\'
        invariant start <= it <= |arg| && Body(arg, it, backslashes, []) == Body(arg, start, 0, [])
        decreases |arg| - it
      {
        backslashes := backslashes + 1;
        it := it + 1;
      }
      var piece;
      piece, it, done := WriteRun(arg, it, backslashes);
      Append(out, piece, Todo(arg, it, done));
      out := out + piece;
    }
    out := out + ['"'];
  }

  lemma {:induction false} SlashedAppend(n: nat, s: string, rest: string)
    ensures Slashed(n, s) + rest == Slashed(n, s + rest)
  {
    if n > 0 {
      SlashedAppend(n - 1, s, rest);
    }
  }

  lemma {:induction false} BodyAppend(arg: string, i: nat, pending: nat, rest: string)
    requires i <= |arg|
    ensures Body(arg, i, pending, []) + rest == Body(arg, i, pending, rest)
    decreases |arg| - i
  {
    if i == |arg| {
      SlashedAppend(2 * pending, ['"'] + [], rest);
      assert ['"'] + [] + rest == ['"'] + rest;
    } else if arg[i] == '\\' {
      BodyAppend(arg, i + 1, pending + 1, rest);
    } else {
      var later := Body(arg, i + 1, 0, []);
      BodyAppend(arg, i + 1, 0, rest);
      SlashedAppend(if arg[i] == '"' then 2 * pending + 1 else pending, [arg[i]] + later, rest);
      assert [arg[i]] + later + rest == [arg[i]] + (later + rest);
    }
  }

  lemma QuotedAppend(arg: string, rest: string)
    ensures Quoted(arg) + rest == QuotedBefore(arg, rest)
  {
    BodyAppend(arg, 0, 0, rest);
    assert NeedsQuoting(arg) ==> Quoted(arg) + rest == ['"'] + (Body(arg, 0, 0, []) + rest);
    assert arg + [] == arg;
  }

  lemma {:induction false} BodyIsLonger(arg: string, i: nat, pending: nat, rest: string)
    requires i <= |arg|
    ensures |Body(arg, i, pending, rest)| > pending + |arg| - i + |rest|
    decreases |arg| - i
  {
    if i == |arg| {
    } else if arg[i] == '\\' {
      BodyIsLonger(arg, i + 1, pending + 1, rest);
    } else {
      BodyIsLonger(arg, i + 1, 0, rest);
    }
  }

  /** An argument is left as it is exactly when it is not empty and has no blank, tab, line
      feed, vertical tab or double quote. */
  lemma LeftAloneIff(arg: string)
    ensures Quoted(arg) == arg <==>
            arg != [] && ' ' !in arg && '\t' !in arg && '\n' !in arg && '\U{0B}' !in arg && '"' !in arg
  {
    if NeedsQuoting(arg) {
      BodyIsLonger(arg, 0, 0, []);
      assert |Quoted(arg)| > |arg|;
    } else {
      assert arg + [] == arg;
      assert forall c :: Triggers(c) ==> c !in arg;
      assert Triggers(' ') && Triggers('\t') && Triggers('\n') && Triggers('\U{0B}') && Triggers('"');
    }
  }

  lemma {:induction false} PlainBody(arg: string, i: nat)
    requires i <= |arg| && '"' !in arg && '\\' !in arg
    ensures Body(arg, i, 0, []) == arg[i..] + ['"']
    decreases |arg| - i
  {
    if i < |arg| {
      PlainBody(arg, i + 1);
      assert arg[i] in arg && arg[i..] == [arg[i]] + arg[i + 1..];
    }
  }

  /** Without quotes and backslashes of its own a quoted argument is just put between quotes. */
  lemma QuotesGoAround(arg: string)
    requires '"' !in arg && '\\' !in arg && Quoted(arg) != arg
    ensures Quoted(arg) == ['"'] + arg + ['"']
  {
    PlainBody(arg, 0);
    assert arg[0..] == arg && arg + [] == arg;
  }

  /** The line is the quoted arguments with one blank between two of them. */
  lemma LineIsJoined(first: string, argv: seq<string>)
    ensures CommandLine([first]) == Quoted(first)
    ensures argv != [] ==> CommandLine([first] + argv) == Quoted(first) + " " + CommandLine(argv)
  {
    assert [first][1..] == [] && ([first] + argv)[1..] == argv;
    QuotedAppend(first, CommandLineTail(argv));
    if argv != [] {
      Append(Quoted(first), " ", CommandLine(argv));
    }
  }

  /** The joining of `RunProcessWithCwd`; without a program there is nothing to start. */
  method BuildCommandLine(argv: seq<string>) returns (spawnable: bool, line: string)
    ensures spawnable <==> argv != []
    ensures line == CommandLine(argv)
  {
    line := [];
    if argv == [] {
      return false, line;
    }
    var i := 0;
    ghost var todo := CommandLine(argv);
    while i < |argv|
      invariant i <= |argv| && CommandLine(argv) == line + todo
      invariant i > 0 ==> todo == CommandLineTail(argv[i..])
      invariant i == 0 ==> todo == CommandLine(argv[i..])
    {
      if i > 0 {
        todo := CommandLine(argv[i..]);
        Append(line, [' '], todo);
        line := line + [' '];
      }
      var q := QuoteArgWindows(argv[i]);
      assert argv[i..][1..] == argv[i + 1..];
      todo := CommandLineTail(argv[i + 1..]);
      QuotedAppend(argv[i], todo);
      Append(line, q, todo);
      line := line + q;
      i := i + 1;
    }
    return true, line;
  }

  // ---------------------------------------------------------------- taking a line apart

  /** Microsoft's parsers differ in one point only: what two double quotes in a row do
      inside a quoted part. The round trip below holds for every variant. */
  datatype PairRule =
    | Toggle        // the first closes the part, the second opens another
    | LiteralStay   // a literal quote, and the part goes on
    | LiteralLeave  // a literal quote, and the part ends

  predicate Separator(c: char) {
    c == ' ' || c == '\t'
  }

  /** One argument and the rest of the line, after `pending` backslashes: these are halved
      in front of a double quote, an odd number making the quote literal, and stand for
      themselves elsewhere; other double quotes switch quoting; a blank outside of quotes
      ends the argument. */
  function ParseArg(s: string, pending: nat, quoting: bool, rule: PairRule): (r: (string, string))
    ensures |r.1| <= |s|
    ensures s != [] && !Separator(s[0]) ==> |r.1| < |s|
  {
    if s == [] || (!quoting && Separator(s[0])) then (Slashed(pending, []), s)
    else if s[0] == '\\' then ParseArg(s[1..], pending + 1, quoting, rule)
    else if s[0] != '"' then
      var r := ParseArg(s[1..], 0, quoting, rule);
      (Slashed(pending, [s[0]] + r.0), r.1)
    else if pending % 2 == 1 then
      var r := ParseArg(s[1..], 0, quoting, rule);
      (Slashed(pending / 2, ['"'] + r.0), r.1)
    else if quoting && rule != Toggle && |s| > 1 && s[1] == '"' then
      var r := ParseArg(s[2..], 0, rule == LiteralStay, rule);
      (Slashed(pending / 2, ['"'] + r.0), r.1)
    else
      var r := ParseArg(s[1..], 0, !quoting, rule);
      (Slashed(pending / 2, r.0), r.1)
  }

  /** The arguments behind the program name. */
  function ParseArgs(s: string, rule: PairRule): seq<string>
    decreases |s|
  {
    if s == [] then []
    else if Separator(s[0]) then ParseArgs(s[1..], rule)
    else
      var r := ParseArg(s, 0, false, rule);
      [r.0] + ParseArgs(r.1, rule)
  }

  /** The program name has a rule of its own: double quotes switch quoting and are dropped,
      a blank outside of quotes ends it, and backslashes are ordinary. */
  function ParseProgram(s: string, quoting: bool): (r: (string, string))
    ensures |r.1| <= |s|
    ensures '"' !in r.0
  {
    if s == [] || (!quoting && Separator(s[0])) then ([], s)
    else if s[0] == '"' then ParseProgram(s[1..], !quoting)
    else
      var r := ParseProgram(s[1..], quoting);
      ([s[0]] + r.0, r.1)
  }

  function ParseCommandLine(s: string, rule: PairRule): seq<string> {
    var program := ParseProgram(s, false);
    [program.0] + ParseArgs(program.1, rule)
  }

  // ---------------------------------------------------------------- round trip of one argument

  /** What may follow an argument on the line. */
  predicate Boundary(rest: string) {
    rest == [] || rest[0] == ' '
  }

  lemma {:induction false} RunCounts(n: nat, s: string, pending: nat, quoting: bool, rule: PairRule)
    ensures ParseArg(Slashed(n, s), pending, quoting, rule) == ParseArg(s, pending + n, quoting, rule)
  {
    if n > 0 {
      assert Slashed(n, s)[1..] == Slashed(n - 1, s);
      RunCounts(n - 1, s, pending + 1, quoting, rule);
    }
  }

  lemma {:induction false} SlashedShift(n: nat, s: string)
    ensures Slashed(n + 1, s) == Slashed(n, ['\\'] + s)
  {
    if n > 0 {
      SlashedShift(n - 1, s);
    }
  }

  lemma CharacterParses(pending: nat, c: char, later: string, rule: PairRule)
    requires c != '\\'
    ensures var written := if c == '"' then 2 * pending + 1 else pending;
            var r := ParseArg(later, 0, true, rule);
            ParseArg(Slashed(written, [c] + later), 0, true, rule) == (Slashed(pending, [c] + r.0), r.1)
  {
    var s, written := [c] + later, if c == '"' then 2 * pending + 1 else pending;
    RunCounts(written, s, 0, true, rule);
    assert s[1..] == later;
  }

  /** Reading back what was written behind an opening quote. */
  lemma {:induction false} BodyParses(arg: string, i: nat, pending: nat, rest: string, rule: PairRule)
    requires i <= |arg| && Boundary(rest)
    ensures ParseArg(Body(arg, i, pending, rest), 0, true, rule) == (Slashed(pending, arg[i..]), rest)
    decreases |arg| - i
  {
    if i == |arg| {
      var s := ['"'] + rest;
      RunCounts(2 * pending, s, 0, true, rule);
      assert s[1..] == rest;
    } else {
      assert arg[i..] == [arg[i]] + arg[i + 1..];
      if arg[i] == '\\' {
        BodyParses(arg, i + 1, pending + 1, rest, rule);
        SlashedShift(pending, arg[i + 1..]);
      } else {
        BodyParses(arg, i + 1, 0, rest, rule);
        CharacterParses(pending, arg[i], Body(arg, i + 1, 0, rest), rule);
      }
    }
  }

  lemma {:induction false} PlainParses(arg: string, pending: nat, rest: string, rule: PairRule)
    requires Boundary(rest) && forall k :: 0 <= k < |arg| ==> !Triggers(arg[k])
    ensures ParseArg(arg + rest, pending, false, rule) == (Slashed(pending, arg), rest)
  {
    var s := arg + rest;
    if arg == [] {
      assert s == rest;
    } else {
      assert s[1..] == arg[1..] + rest;
      if arg[0] == '\\' {
        PlainParses(arg[1..], pending + 1, rest, rule);
        SlashedShift(pending, arg[1..]);
      } else {
        PlainParses(arg[1..], 0, rest, rule);
      }
      assert arg == [arg[0]] + arg[1..];
    }
  }

  /** A quoted argument is read back, up to exactly where it ends on the line. */
  lemma QuotedParses(arg: string, rest: string, rule: PairRule)
    requires Boundary(rest)
    ensures var s := QuotedBefore(arg, rest);
            s != [] && !Separator(s[0]) && ParseArg(s, 0, false, rule) == (arg, rest)
  {
    var s := QuotedBefore(arg, rest);
    if NeedsQuoting(arg) {
      assert s[1..] == Body(arg, 0, 0, rest);
      BodyParses(arg, 0, 0, rest, rule);
      assert arg[0..] == arg;
    } else {
      assert forall k :: 0 <= k < |arg| ==> arg[k] in arg;
      PlainParses(arg, 0, rest, rule);
    }
  }

  // ---------------------------------------------------------------- round trip of a line

  /** Every argument list survives the line, whatever the arguments hold. */
  lemma {:induction false} ArgumentsRoundTrip(args: seq<string>, rule: PairRule)
    ensures ParseArgs(CommandLine(args), rule) == args
    ensures ParseArgs(CommandLineTail(args), rule) == args
    decreases |args|
  {
    if args != [] {
      var rest := CommandLineTail(args[1..]);
      ArgumentsRoundTrip(args[1..], rule);
      QuotedParses(args[0], rest, rule);
      assert args == [args[0]] + args[1..];
      assert CommandLineTail(args)[1..] == CommandLine(args);
    }
  }

  /** Different argument lists give different lines. */
  lemma CommandLineInjective(a: seq<string>, b: seq<string>)
    requires CommandLine(a) == CommandLine(b)
    ensures a == b
  {
    ArgumentsRoundTrip(a, Toggle);
    ArgumentsRoundTrip(b, Toggle);
  }

  /** What the program-name rule reads back: no quote, and no trailing backslash if the
      name has to be quoted. */
  predicate PlainProgram(program: string) {
    '"' !in program && (NeedsQuoting(program) ==> program == [] || program[|program| - 1] != '\\')
  }

  /** The program-name rule keeps every backslash. */
  lemma {:induction false} ProgramKeepsSlashes(n: nat, s: string)
    ensures ParseProgram(Slashed(n, s), true) == (Slashed(n, ParseProgram(s, true).0), ParseProgram(s, true).1)
  {
    if n > 0 {
      assert Slashed(n, s)[1..] == Slashed(n - 1, s);
      ProgramKeepsSlashes(n - 1, s);
    }
  }

  /** A text ends in a run of `k` backslashes, counted on from `pending`. */
  function Trailing(arg: string, i: nat, pending: nat): nat
    requires i <= |arg|
    decreases |arg| - i
  {
    if i == |arg| then pending
    else Trailing(arg, i + 1, if arg[i] == '\\' then pending + 1 else 0)
  }

  lemma {:induction false} TrailingPositive(arg: string, i: nat, pending: nat)
    requires i <= |arg|
    ensures Trailing(arg, i, pending) > 0 <==> if i == |arg| then pending > 0 else arg[|arg| - 1] == '\\'
    decreases |arg| - i
  {
    if i < |arg| {
      TrailingPositive(arg, i + 1, if arg[i] == '\\' then pending + 1 else 0);
    }
  }

  /** Under the program-name rule the doubled trailing backslashes stay doubled. */
  lemma {:induction false} BodyAsProgram(arg: string, i: nat, pending: nat, rest: string)
    requires i <= |arg| && '"' !in arg && Boundary(rest)
    ensures ParseProgram(Body(arg, i, pending, rest), true) ==
            (Slashed(pending, arg[i..] + Slashed(Trailing(arg, i, pending), [])), rest)
    decreases |arg| - i
  {
    if i == |arg| {
      var s := ['"'] + rest;
      assert s[1..] == rest;
      ProgramKeepsSlashes(2 * pending, s);
      SlashedTwice(pending, pending);
      assert arg[i..] + Slashed(pending, []) == Slashed(pending, []);
    } else {
      assert arg[i] in arg;
      var k := Trailing(arg, i, pending);
      var later := arg[i + 1..] + Slashed(k, []);
      assert arg[i..] + Slashed(k, []) == [arg[i]] + later;
      if arg[i] == '\\' {
        BodyAsProgram(arg, i + 1, pending + 1, rest);
        SlashedShift(pending, later);
      } else {
        var s := [arg[i]] + Body(arg, i + 1, 0, rest);
        assert s[1..] == Body(arg, i + 1, 0, rest);
        BodyAsProgram(arg, i + 1, 0, rest);
        ProgramKeepsSlashes(pending, s);
      }
    }
  }

  lemma {:induction false} SlashedTwice(m: nat, n: nat)
    ensures Slashed(m, Slashed(n, [])) == Slashed(m + n, [])
  {
    if m > 0 {
      SlashedTwice(m - 1, n);
    }
  }

  lemma {:induction false} PlainAsProgram(program: string, rest: string)
    requires Boundary(rest) && forall k :: 0 <= k < |program| ==> !Triggers(program[k])
    ensures ParseProgram(program + rest, false) == (program, rest)
  {
    if program == [] {
      assert program + rest == rest;
    } else {
      assert (program + rest)[1..] == program[1..] + rest;
      PlainAsProgram(program[1..], rest);
      assert program == [program[0]] + program[1..];
    }
  }

  /** The program name, quoted like the arguments, is read back under its own rule exactly
      when it is plain; and then the reading stops where it ends. */
  lemma ProgramRoundTrip(program: string, rest: string)
    requires Boundary(rest)
    ensures PlainProgram(program) ==> ParseProgram(QuotedBefore(program, rest), false) == (program, rest)
    ensures !PlainProgram(program) ==> ParseProgram(QuotedBefore(program, rest), false).0 != program
  {
    var s := QuotedBefore(program, rest);
    if '"' in program {
      assert '"' !in ParseProgram(s, false).0;
    } else if NeedsQuoting(program) {
      assert s[1..] == Body(program, 0, 0, rest);
      BodyAsProgram(program, 0, 0, rest);
      TrailingPositive(program, 0, 0);
      var k := Trailing(program, 0, 0);
      assert program[0..] == program;
      assert k == 0 ==> program + Slashed(k, []) == program;
      assert k > 0 ==> |program + Slashed(k, [])| > |program|;
    } else {
      assert forall k :: 0 <= k < |program| ==> program[k] in program;
      PlainAsProgram(program, rest);
    }
  }

  /** The started program sees its whole argument vector exactly when the program name is
      plain; the arguments behind it never matter. */
  lemma CommandLineRoundTrip(argv: seq<string>, rule: PairRule)
    requires argv != []
    ensures ParseCommandLine(CommandLine(argv), rule) == argv <==> PlainProgram(argv[0])
  {
    var rest := CommandLineTail(argv[1..]);
    ProgramRoundTrip(argv[0], rest);
    ArgumentsRoundTrip(argv[1..], rule);
    assert argv == [argv[0]] + argv[1..];
  }
}
