/** The `--rgp-auto-capture` option: splitting it at colons, the accepted grammar, and
    printing a setting back. */
module AutoCaptureOption {
  import opened CStrings
  import opened Wrappers

  const FRAME_CAPTURE_INDEX_MINIMUM: nat := 5
  const DISPATCH_START_INDEX_MINIMUM: nat := 1
  const UINT32_LIMIT: nat := 0x1_0000_0000

  datatype AutoCaptureMode = NoAutoCapture | FrameIndex | DispatchIndex

  datatype Config = Config(mode: AutoCaptureMode, frameCaptureIndex: nat, dispatchStartIndex: nat, dispatchCount: nat)

  /** What the command line sets before the option is looked at. */
  const DEFAULTS := Config(NoAutoCapture, 0, DISPATCH_START_INDEX_MINIMUM, 1)

  // ---------------------------------------------------------------- splitting

  /** The exact split at colons; an empty text is one empty part. */
  function Split(s: string): (parts: seq<string>)
    ensures parts != []
    decreases |s|
  {
    var i := Find(s, ':');
    if i == |s| then [s] else [s[..i]] + Split(s[i + 1..])
  }

  /** The empty part behind a final colon, which the `getline` loop does not deliver. */
  function FinalPart(s: string): seq<string> {
    if s != [] && s[|s| - 1] == ':' then [[]] else []
  }

  /** The parts the code finds: the loop's and the fix-up's. */
  function Parts(s: string): seq<string> {
    GetLines(s, ':') + FinalPart(s)
  }

  lemma Assoc(a: seq<string>, b: seq<string>, c: seq<string>)
    ensures a + b + c == a + (b + c)
  {
  }

  lemma LinesCons(first: string, rest: string)
    requires ':' !in first
    ensures GetLines(first + [':'] + rest, ':') == [first] + GetLines(rest, ':')
  {
    var s := first + [':'] + rest;
    FindIs(first, ':', rest);
    assert s[..|first|] == first && s[|first| + 1..] == rest;
  }

  lemma SplitOne(a: string)
    requires ':' !in a
    ensures Split(a) == [a]
  {
    FindIs(a, ':', []);
  }

  lemma SplitCons(first: string, rest: string)
    requires ':' !in first
    ensures Split(first + [':'] + rest) == [first] + Split(rest)
  {
    var s := first + [':'] + rest;
    FindIs(first, ':', rest);
    assert s[..|first|] == first && s[|first| + 1..] == rest;
  }

  /** Behind a colon that is not the last character nothing changes the final part. */
  lemma FinalPartCons(first: string, rest: string)
    ensures FinalPart(first + [':'] + rest) == if rest == [] then [[]] else FinalPart(rest)
  {
  }

  lemma PartsCons(first: string, rest: string)
    requires ':' !in first
    ensures Parts(first + [':'] + rest) == [first] + if rest == [] then [[]] else Parts(rest)
  {
    LinesCons(first, rest);
    FinalPartCons(first, rest);
    Assoc([first], GetLines(rest, ':'), FinalPart(first + [':'] + rest));
    assert rest == [] ==> GetLines(rest, ':') + [[]] == [[]];
  }

  lemma PartsOne(a: string)
    requires a != [] && ':' !in a
    ensures Parts(a) == [a]
  {
    FindIs(a, ':', []);
    assert a[..|a|] == a && a[|a| - 1] in a;
  }

  /** The loop with its fix-up computes the exact split. */
  lemma {:induction false} PartsAreTheSplit(s: string)
    requires s != []
    ensures Parts(s) == Split(s)
    decreases |s|
  {
    var i := Find(s, ':');
    var first := s[..i];
    if i == |s| {
      assert first == s;
      PartsOne(s);
      SplitOne(s);
    } else {
      var rest := s[i + 1..];
      assert s == first + [':'] + rest;
      PartsCons(first, rest);
      SplitCons(first, rest);
      if rest != [] {
        PartsAreTheSplit(rest);
      } else {
        SplitOne(rest);
      }
    }
  }

  /** Behind the first part comes a colon and the split of the rest. */
  lemma SplitHead(s: string) returns (rest: string)
    requires |Split(s)| > 1
    ensures s == Split(s)[0] + [':'] + rest && Split(rest) == Split(s)[1..] && ':' !in Split(s)[0]
    ensures |rest| < |s|
  {
    rest := s[Find(s, ':') + 1..];
  }

  predicate ColonFree(parts: seq<string>) {
    parts == [] || (':' !in parts[0] && ColonFree(parts[1..]))
  }

  /** The parts hold no colon, and joining them gives the text back. */
  lemma {:induction false} JoinSplit(s: string)
    ensures ColonFree(Split(s)) && Join(Split(s), ':') == s
    decreases |s|
  {
    if |Split(s)| > 1 {
      var rest := SplitHead(s);
      JoinSplit(rest);
    } else {
      assert s[..|s|] == s;
      assert Split(s)[1..] == [];
    }
  }

  /** It is the only split: colon-free parts are found again. */
  lemma {:induction false} SplitJoin(parts: seq<string>)
    requires parts != [] && ColonFree(parts)
    ensures Split(Join(parts, ':')) == parts
    decreases |parts|
  {
    hide Split;
    if |parts| == 1 {
      SplitOne(parts[0]);
    } else {
      SplitCons(parts[0], Join(parts[1..], ':'));
      SplitJoin(parts[1..]);
    }
  }

  // ---------------------------------------------------------------- parsing

  predicate IsUint32(s: string) {
    s != [] && Digits(s) && Value(s) < UINT32_LIMIT
  }

  /** `std::from_chars` into a `uint32_t`, all of the text being used. */
  function ParseNumber(s: string): (n: Option<nat>)
    ensures n.Some? <==> IsUint32(s)
    ensures n.Some? ==> n.value == Value(s) < UINT32_LIMIT
  {
    if s != [] && Digits(s) && Value(s) < UINT32_LIMIT then Some(Value(s)) else None
  }

  function ParseFrame(parts: seq<string>, config: Config): (r: Option<Config>)
    requires parts != []
  {
    if |parts| > 2 then None
    else
      var index := if |parts| == 1 then Some(FRAME_CAPTURE_INDEX_MINIMUM)
                   else if parts[1] == [] then Some(0)
                   else ParseNumber(parts[1]);
      if index.None? || index.value < FRAME_CAPTURE_INDEX_MINIMUM then None
      else Some(config.(mode := FrameIndex, frameCaptureIndex := index.value))
  }

  function ParseDispatch(parts: seq<string>, config: Config): (r: Option<Config>)
    requires parts != []
  {
    if |parts| > 3 then None
    else
      var start := if |parts| < 2 then Some(config.dispatchStartIndex)
                   else if parts[1] == [] then Some(DISPATCH_START_INDEX_MINIMUM)
                   else ParseNumber(parts[1]);
      var count := if |parts| < 3 then Some(config.dispatchCount)
                   else if parts[2] == [] then Some(1)
                   else ParseNumber(parts[2]);
      if start.None? || count.None? || start.value < DISPATCH_START_INDEX_MINIMUM then None
      else Some(config.(mode := DispatchIndex, dispatchStartIndex := start.value,
                        dispatchCount := if |parts| == 3 && count.value == 0 then 1 else count.value))
  }

  function Interpret(parts: seq<string>, config: Config): Option<Config> {
    if parts != [] && parts[0] == "frame" then ParseFrame(parts, config)
    else if parts != [] && parts[0] == "dispatch" then ParseDispatch(parts, config)
    else None
  }

  /** The accepted configuration, or nothing on any error. */
  function Parsed(s: string, config: Config): Option<Config> {
    Interpret(Parts(s), config)
  }

  /** The option parser; on failure the configuration is not used any further. */
  method ParseAutoCapture(s: string, initial: Config) returns (ok: bool, config: Config)
    ensures ok <==> Parsed(s, initial).Some?
    ensures ok ==> config == Parsed(s, initial).value
  {
    config := initial;
    var parts := ReadLines(s, ':');
    if s != [] && s[|s| - 1] == ':' {
      parts := parts + [[]];
    } else {
      assert parts + [] == parts;
    }
    if parts != [] && parts[0] == "frame" {
      config := config.(mode := FrameIndex);
      if |parts| > 2 {
        return false, config;
      }
      if |parts| == 2 {
        if parts[1] == [] {
          config := config.(frameCaptureIndex := 0);
        } else {
          var parsed := ParseNumber(parts[1]);
          if parsed.None? {
            return false, config;
          }
          config := config.(frameCaptureIndex := parsed.value);
        }
      } else {
        config := config.(frameCaptureIndex := FRAME_CAPTURE_INDEX_MINIMUM);
      }
      if config.frameCaptureIndex < FRAME_CAPTURE_INDEX_MINIMUM {
        return false, config;
      }
    } else if parts != [] && parts[0] == "dispatch" {
      config := config.(mode := DispatchIndex);
      if |parts| > 3 {
        return false, config;
      }
      if |parts| >= 2 {
        if parts[1] == [] {
          config := config.(dispatchStartIndex := DISPATCH_START_INDEX_MINIMUM);
        } else {
          var parsed := ParseNumber(parts[1]);
          if parsed.None? {
            return false, config;
          }
          config := config.(dispatchStartIndex := parsed.value);
        }
      }
      if |parts| >= 3 {
        if parts[2] == [] {
          config := config.(dispatchCount := 1);
        } else {
          var parsed := ParseNumber(parts[2]);
          if parsed.None? {
            return false, config;
          }
          config := config.(dispatchCount := parsed.value);
          if config.dispatchCount == 0 {
            config := config.(dispatchCount := 1);
          }
        }
      }
      if config.dispatchStartIndex < DISPATCH_START_INDEX_MINIMUM {
        return false, config;
      }
    } else {
      return false, config;
    }
    return true, config;
  }

  // ---------------------------------------------------------------- the grammar

  predicate FrameField(n: string) {
    IsUint32(n) && Value(n) >= 5
  }

  predicate StartField(a: string) {
    a == [] || (IsUint32(a) && Value(a) >= 1)
  }

  predicate CountField(c: string) {
    c == [] || IsUint32(c)
  }

  /** `frame[:index]` and `dispatch[:start[:count]]`, with numbers in range. An empty index
      is not one: the code reads it as frame 0, which is out of range, although its own
      comment announces a default. */
  ghost predicate Grammar(s: string, config: Config) {
    || s == "frame"
    || (exists n :: s == "frame" + [':'] + n && FrameField(n))
    || (s == "dispatch" && config.dispatchStartIndex >= 1)
    || (exists a :: s == "dispatch" + [':'] + a && StartField(a))
    || (exists a, c :: s == "dispatch" + [':'] + (a + [':'] + c) && StartField(a) && CountField(c))
  }

  lemma TwoParts(first: string, a: string)
    requires ':' !in first && ':' !in a
    ensures Parts(first + [':'] + a) == [first, a]
  {
    PartsAreTheSplit(first + [':'] + a);
    SplitCons(first, a);
    SplitOne(a);
  }

  lemma ThreeParts(first: string, a: string, b: string)
    requires ':' !in first && ':' !in a && ':' !in b
    ensures Parts(first + [':'] + (a + [':'] + b)) == [first, a, b]
  {
    PartsAreTheSplit(first + [':'] + (a + [':'] + b));
    SplitCons(first, a + [':'] + b);
    SplitCons(a, b);
    SplitOne(b);
  }

  lemma AcceptedInGrammar(s: string, config: Config)
    requires Parsed(s, config).Some?
    ensures Grammar(s, config)
  {
    var parts := Parts(s);
    PartsAreTheSplit(s);
    JoinSplit(s);
    if |parts| > 1 {
      var rest := SplitHead(s);
      JoinSplit(rest);
      if |parts| == 3 {
        var last := SplitHead(rest);
        assert Split(last) == [last];
        assert StartField(parts[1]) && CountField(parts[2]);
        assert s == "dispatch" + [':'] + (parts[1] + [':'] + parts[2]);
      }
    }
  }

  lemma BareAccepted(s: string, config: Config)
    requires s == "frame" || (s == "dispatch" && config.dispatchStartIndex >= 1)
    ensures s == "frame" ==> Parsed(s, config) == Some(config.(mode := FrameIndex, frameCaptureIndex := 5))
    ensures s == "dispatch" ==> Parsed(s, config) == Some(config.(mode := DispatchIndex))
  {
    PartsAreTheSplit(s);
    SplitOne(s);
  }

  lemma FrameAccepted(n: string, config: Config)
    requires FrameField(n)
    ensures Parsed("frame" + [':'] + n, config) == Some(config.(mode := FrameIndex, frameCaptureIndex := Value(n)))
  {
    FieldColonFree(n);
    TwoParts("frame", n);
    InterpretFrame(n, config);
  }

  lemma StartAccepted(a: string, config: Config)
    requires StartField(a)
    ensures Parsed("dispatch" + [':'] + a, config) ==
            Some(config.(mode := DispatchIndex, dispatchStartIndex := if a == [] then 1 else Value(a)))
  {
    FieldColonFree(a);
    TwoParts("dispatch", a);
    InterpretStart(a, config);
  }

  lemma CountAccepted(a: string, c: string, config: Config)
    requires StartField(a) && CountField(c)
    ensures Parsed("dispatch" + [':'] + (a + [':'] + c), config) ==
            Some(config.(mode := DispatchIndex,
                         dispatchStartIndex := if a == [] then 1 else Value(a),
                         dispatchCount := if c == [] || Value(c) == 0 then 1 else Value(c)))
  {
    FieldColonFree(a);
    FieldColonFree(c);
    ThreeParts("dispatch", a, c);
    InterpretCount(a, c, config);
  }

  lemma GrammarAccepted(s: string, config: Config)
    requires Grammar(s, config)
    ensures Parsed(s, config).Some?
  {
    if s == "frame" || (s == "dispatch" && config.dispatchStartIndex >= 1) {
      BareAccepted(s, config);
    } else if n :| s == "frame" + [':'] + n && FrameField(n) {
      FrameAccepted(n, config);
    } else if a :| s == "dispatch" + [':'] + a && StartField(a) {
      StartAccepted(a, config);
    } else {
      var a, c :| s == "dispatch" + [':'] + (a + [':'] + c) && StartField(a) && CountField(c);
      CountAccepted(a, c, config);
    }
  }

  lemma InterpretFrame(n: string, config: Config)
    requires FrameField(n)
    ensures Interpret(["frame", n], config) == Some(config.(mode := FrameIndex, frameCaptureIndex := Value(n)))
  {
  }

  lemma InterpretStart(a: string, config: Config)
    requires StartField(a)
    ensures Interpret(["dispatch", a], config) ==
            Some(config.(mode := DispatchIndex, dispatchStartIndex := if a == [] then 1 else Value(a)))
  {
  }

  lemma InterpretCount(a: string, c: string, config: Config)
    requires StartField(a) && CountField(c)
    ensures Interpret(["dispatch", a, c], config) ==
            Some(config.(mode := DispatchIndex,
                         dispatchStartIndex := if a == [] then 1 else Value(a),
                         dispatchCount := if c == [] || Value(c) == 0 then 1 else Value(c)))
  {
  }

  lemma FieldColonFree(a: string)
    requires CountField(a)
    ensures ':' !in a
  {
  }

  /** The accepted strings are exactly those of the grammar. */
  lemma AcceptsIffGrammar(s: string, config: Config)
    ensures Parsed(s, config).Some? <==> Grammar(s, config)
  {
    if Parsed(s, config).Some? {
      AcceptedInGrammar(s, config);
    }
    if Grammar(s, config) {
      GrammarAccepted(s, config);
    }
  }

  /** In particular an empty frame index is rejected. */
  lemma EmptyFrameIndexIsRejected(config: Config)
    ensures Parsed("frame:", config).None?
  {
    assert "frame:" == "frame" + [':'] + [];
    TwoParts("frame", []);
  }

  /** An accepted setting can fire: from the command line's defaults, the frame index is at
      least 5, or the dispatch start and count are at least 1; all fit their 32 bits. */
  lemma AcceptedIsUsable(s: string)
    requires Parsed(s, DEFAULTS).Some?
    ensures var c := Parsed(s, DEFAULTS).value;
            && c.mode != NoAutoCapture
            && (c.mode == FrameIndex ==> 5 <= c.frameCaptureIndex < 0x1_0000_0000)
            && (c.mode == DispatchIndex ==> 1 <= c.dispatchStartIndex < 0x1_0000_0000 &&
                                            1 <= c.dispatchCount < 0x1_0000_0000)
  {
  }

  // ---------------------------------------------------------------- printing

  datatype Setting = Frame(index: nat) | Dispatch(start: nat, count: nat)

  predicate ValidSetting(t: Setting) {
    match t
    case Frame(n) => FRAME_CAPTURE_INDEX_MINIMUM <= n < UINT32_LIMIT
    case Dispatch(a, c) => DISPATCH_START_INDEX_MINIMUM <= a < UINT32_LIMIT && 1 <= c < UINT32_LIMIT
  }

  function Print(t: Setting): string {
    match t
    case Frame(n) => "frame" + [':'] + Decimal(n)
    case Dispatch(a, c) => "dispatch" + [':'] + (Decimal(a) + [':'] + Decimal(c))
  }

  function Applied(t: Setting, config: Config): Config {
    match t
    case Frame(n) => config.(mode := FrameIndex, frameCaptureIndex := n)
    case Dispatch(a, c) => config.(mode := DispatchIndex, dispatchStartIndex := a, dispatchCount := c)
  }

  lemma NumberReads(n: nat)
    requires n < UINT32_LIMIT
    ensures IsUint32(Decimal(n)) && Value(Decimal(n)) == n
  {
    ValueOfDecimal(n);
  }

  /** A printed setting is read back, whatever was configured before. */
  lemma PrintRoundTrip(t: Setting, config: Config)
    requires ValidSetting(t)
    ensures Parsed(Print(t), config) == Some(Applied(t, config))
  {
    match t
    case Frame(n) =>
      NumberReads(n);
      FrameAccepted(Decimal(n), config);
    case Dispatch(a, c) =>
      NumberReads(a);
      NumberReads(c);
      CountAccepted(Decimal(a), Decimal(c), config);
  }
}
