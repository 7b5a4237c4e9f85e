/** What pattern texts mean for names, said without the tokeniser: tokens are what their
    printed forms are read as, and each wildcard admits exactly what the manual promises. */
module GlobText {
  import opened CStrings
  import opened Glob
  import opened GlobFolding

  // ---------------------------------------------------------------- printing tokens

  function PrintToken(t: Token): string {
    match t
    case Literal(c) => if Special(c) then ['\\', c] else [c]
    case AnyChar => "?"
    case Star => "*"
    case Class(negated, body) => (if negated then "[!" else "[") + body + "]"
  }

  function PrintTokens(ts: seq<Token>): string {
    if ts == [] then [] else PrintToken(ts[0]) + PrintTokens(ts[1..])
  }

  /** A class can be printed if it has members, of which only the first may be a closing
      bracket; the first member of a class that is not negated must not look like a negation. */
  predicate PrintableBody(negated: bool, body: string) {
    body != [] && ']' !in body[1..] && (negated || body[0] != '!')
  }

  predicate Printable(t: Token) {
    t.Class? ==> PrintableBody(t.negated, t.body)
  }

  predicate AllPrintable(ts: seq<Token>) {
    ts == [] || (Printable(ts[0]) && AllPrintable(ts[1..]))
  }

  lemma {:induction false} CloseIs(pat: string, i: nat, j: nat)
    requires i <= j < |pat| && pat[j] == ']' && forall k :: i <= k < j ==> pat[k] != ']'
    ensures Close(pat, i) == j
    decreases j - i
  {
    if i < j {
      CloseIs(pat, i + 1, j);
    }
  }

  lemma {:induction false} CloseIsMissing(pat: string, i: nat)
    requires i <= |pat| && forall k :: i <= k < |pat| ==> pat[k] != ']'
    ensures Close(pat, i) == |pat|
    decreases |pat| - i
  {
    if i < |pat| {
      CloseIsMissing(pat, i + 1);
    }
  }

  lemma BracketAt(pat: string, i: nat, negated: bool, body: string)
    requires PrintableBody(negated, body) && i + 1 < |pat| && pat[i] == '['
    requires pat[i + 1] == if negated then '!' else body[0]
    requires var s := if negated then i + 2 else i + 1;
             s + |body| < |pat| && pat[s + |body|] == ']' && pat[s..s + |body|] == body
    ensures var s := if negated then i + 2 else i + 1;
            Next(pat, i) == (Class(negated, body), s + |body| + 1)
  {
    var s := if negated then i + 2 else i + 1;
    forall k | s < k < s + |body| ensures pat[k] != ']' {
      assert pat[k] == pat[s..s + |body|][k - s] == body[1..][k - s - 1];
    }
    assert pat[s] == pat[s..s + |body|][0];
    CloseIs(pat, if body[0] == ']' then s + 1 else s, s + |body|);
  }

  lemma SliceIn(s: string, i: nat, j: nat, u: nat, v: nat)
    requires i <= j <= |s| && u <= v <= j - i
    ensures s[i..j][u..v] == s[i + u..i + v]
  {
    assert forall k :: 0 <= k < v - u ==> s[i..j][u..v][k] == s[i..j][u + k] == s[i + u..i + v][k];
  }

  lemma PartsOf(a: string, b: string, c: string)
    ensures var s := a + b + c; s[..|a|] == a && s[|a|..|a| + |b|] == b && s[|a| + |b|..] == c
  {
  }

  /** `text` stands at place `i`. */
  predicate Stands(pat: string, i: nat, text: string) {
    i + |text| <= |pat| && pat[i..i + |text|] == text
  }

  lemma StandsBoth(pat: string, i: nat, a: string, b: string)
    requires Stands(pat, i, a + b)
    ensures Stands(pat, i, a) && Stands(pat, i + |a|, b)
  {
    SliceIn(pat, i, i + |a + b|, 0, |a|);
    SliceIn(pat, i, i + |a + b|, |a|, |a + b|);
    assert (a + b)[0..|a|] == a && (a + b)[|a|..|a + b|] == b;
  }

  lemma PartsStand(a: string, b: string, c: string)
    ensures var s := a + b + c; Stands(s, 0, a) && Stands(s, |a|, b) && Stands(s, |a| + |b|, c)
    ensures |a + b + c| == |a| + |b| + |c|
  {
    PartsOf(a, b, c);
  }

  lemma ClassIsRead(pat: string, i: nat, negated: bool, body: string)
    requires PrintableBody(negated, body) && Stands(pat, i, PrintToken(Class(negated, body)))
    ensures Next(pat, i) == (Class(negated, body), i + |PrintToken(Class(negated, body))|)
  {
    var open := if negated then "[!" else "[";
    StandsBoth(pat, i, open + body, "]");
    StandsBoth(pat, i, open, body);
    StandCharacters(pat, i, open);
    StandCharacters(pat, i + |open|, body);
    StandCharacters(pat, i + |open + body|, "]");
    BracketAt(pat, i, negated, body);
  }

  lemma StandCharacters(pat: string, i: nat, text: string)
    requires Stands(pat, i, text)
    ensures forall k :: 0 <= k < |text| ==> pat[i + k] == text[k]
  {
    forall k | 0 <= k < |text| ensures pat[i + k] == text[k] {
      assert pat[i..i + |text|][k] == pat[i + k];
    }
  }

  lemma TokenIsRead(pat: string, i: nat, t: Token)
    requires Printable(t) && Stands(pat, i, PrintToken(t))
    ensures Next(pat, i) == (t, i + |PrintToken(t)|)
  {
    if t.Class? {
      ClassIsRead(pat, i, t.negated, t.body);
    } else {
      StandCharacters(pat, i, PrintToken(t));
    }
  }

  /** From `i` to `j` the pattern is read as `ts`. */
  predicate Reads(pat: string, i: nat, ts: seq<Token>, j: nat)
    decreases |ts|
  {
    if ts == [] then i == j
    else i < |pat| && Next(pat, i).0 == ts[0] && Reads(pat, Next(pat, i).1, ts[1..], j)
  }

  lemma {:induction false} ReadsAll(pat: string, i: nat, ts: seq<Token>)
    requires i <= |pat| && Reads(pat, i, ts, |pat|)
    ensures Tokens(pat, i) == ts
    decreases |ts|
  {
    if ts != [] {
      ReadsAll(pat, Next(pat, i).1, ts[1..]);
    }
  }

  lemma {:induction false} ReadsBoth(pat: string, i: nat, a: seq<Token>, j: nat, b: seq<Token>, k: nat)
    requires Reads(pat, i, a, j) && Reads(pat, j, b, k)
    ensures Reads(pat, i, a + b, k)
    decreases |a|
  {
    if a == [] {
      assert a + b == b;
    } else {
      ReadsBoth(pat, Next(pat, i).1, a[1..], j, b, k);
      assert (a + b)[1..] == a[1..] + b;
    }
  }

  lemma ReadsOne(pat: string, i: nat, t: Token, j: nat)
    requires i < |pat| && Next(pat, i) == (t, j)
    ensures Reads(pat, i, [t], j)
  {
    assert [t][1..] == [];
  }

  lemma ReadsOneMore(pat: string, i: nat, j: nat, ts: seq<Token>, k: nat)
    requires ts != [] && i < |pat| && Next(pat, i) == (ts[0], j) && Reads(pat, j, ts[1..], k)
    ensures Reads(pat, i, ts, k)
  {
  }

  lemma FirstIsRead(pat: string, i: nat, t: Token, rest: string, j: nat)
    requires Printable(t) && Stands(pat, i, PrintToken(t) + rest) && j == i + |PrintToken(t)|
    ensures Reads(pat, i, [t], j) && Stands(pat, j, rest)
  {
    StandsBoth(pat, i, PrintToken(t), rest);
    TokenIsRead(pat, i, t);
    ReadsOne(pat, i, t, j);
  }

  lemma PrintTokensSteps(ts: seq<Token>)
    requires ts != [] && AllPrintable(ts)
    ensures PrintTokens(ts) == PrintToken(ts[0]) + PrintTokens(ts[1..])
    ensures |PrintTokens(ts)| == |PrintToken(ts[0])| + |PrintTokens(ts[1..])|
    ensures Printable(ts[0]) && AllPrintable(ts[1..]) && ts == [ts[0]] + ts[1..]
  {
  }

  /** A printed sequence of tokens, wherever it stands, is read as that sequence. */
  lemma {:induction false} PrintedIsRead(pat: string, i: nat, ts: seq<Token>, end: nat)
    requires AllPrintable(ts) && Stands(pat, i, PrintTokens(ts)) && end == i + |PrintTokens(ts)|
    ensures Reads(pat, i, ts, end)
    decreases |ts|
  {
    if ts != [] {
      PrintTokensSteps(ts);
      var t, more, j := ts[0], ts[1..], i + |PrintToken(ts[0])|;
      FirstIsRead(pat, i, t, PrintTokens(more), j);
      PrintedIsRead(pat, j, more, end);
      ReadsBoth(pat, i, [t], j, more, end);
    }
  }

  lemma {:induction false} PrintLiterals(s: string)
    ensures PrintTokens(Literals(s)) == Escape(s)
  {
    if s != [] {
      PrintLiterals(s[1..]);
      assert Literals(s)[1..] == Literals(s[1..]);
    }
  }

  lemma {:induction false} LiteralsPrintable(s: string)
    ensures AllPrintable(Literals(s))
  {
    if s != [] {
      LiteralsPrintable(s[1..]);
      assert Literals(s)[1..] == Literals(s[1..]);
    }
  }

  lemma EscapedIsRead(pat: string, i: nat, s: string, end: nat)
    requires Stands(pat, i, Escape(s)) && end == i + |Escape(s)|
    ensures Reads(pat, i, Literals(s), end)
  {
    PrintLiterals(s);
    LiteralsPrintable(s);
    PrintedIsRead(pat, i, Literals(s), end);
  }

  /** The whole of a printed pattern is read as its tokens. */
  lemma PrintingIsReadBack(ts: seq<Token>, pat: string)
    requires AllPrintable(ts) && pat == PrintTokens(ts)
    ensures Tokens(pat, 0) == ts
  {
    assert pat[0..|pat|] == pat;
    PrintedIsRead(pat, 0, ts, |pat|);
    ReadsAll(pat, 0, ts);
  }

  // ---------------------------------------------------------------- one wildcard in a text

  lemma MiddleAt(pat: string, a: string, i: nat, t: Token, j: nat, b: string)
    requires Stands(pat, 0, Escape(a)) && i == |Escape(a)| < |pat| && Next(pat, i) == (t, j)
    requires Stands(pat, j, Escape(b)) && j + |Escape(b)| == |pat|
    ensures Tokens(pat, 0) == Literals(a) + ([t] + Literals(b))
  {
    EscapedIsRead(pat, 0, a, i);
    ReadsOne(pat, i, t, j);
    EscapedIsRead(pat, j, b, |pat|);
    ReadsBoth(pat, i, [t], j, Literals(b), |pat|);
    ReadsBoth(pat, 0, Literals(a), i, [t] + Literals(b), |pat|);
    ReadsAll(pat, 0, Literals(a) + ([t] + Literals(b)));
  }

  /** Texts around something that is read as one token. */
  lemma MiddleIsRead(a: string, text: string, t: Token, b: string)
    requires var pat := Escape(a) + text + Escape(b);
             |Escape(a)| < |pat| && Next(pat, |Escape(a)|) == (t, |Escape(a)| + |text|)
    ensures Tokens(Escape(a) + text + Escape(b), 0) == Literals(a) + ([t] + Literals(b))
  {
    hide Next;
    var pat := Escape(a) + text + Escape(b);
    PartsStand(Escape(a), text, Escape(b));
    MiddleAt(pat, a, |Escape(a)|, t, |Escape(a)| + |text|, b);
  }

  lemma PrintedMiddleIsRead(a: string, t: Token, b: string)
    requires Printable(t)
    ensures Tokens(Escape(a) + PrintToken(t) + Escape(b), 0) == Literals(a) + ([t] + Literals(b))
  {
    PartsStand(Escape(a), PrintToken(t), Escape(b));
    TokenIsRead(Escape(a) + PrintToken(t) + Escape(b), |Escape(a)|, t);
    MiddleIsRead(a, PrintToken(t), t, b);
  }

  lemma LiteralsMatch(s: string, name: string)
    ensures Matches(Literals(s), name) <==> name == s
  {
    var ts := Literals(s);
    SpanSkip(ts, [], name);
    assert ts + [] == ts;
    if |s| <= |name| {
      assert Fits(ts, name[..|s|]) <==> name[..|s|] == s;
    }
  }

  lemma LiteralsThen(s: string, ts: seq<Token>, name: string)
    ensures Matches(Literals(s) + ts, name) <==> |s| <= |name| && name[..|s|] == s && Matches(ts, name[|s|..])
  {
    SpanSkip(Literals(s), ts, name);
    if |s| <= |name| {
      assert Fits(Literals(s), name[..|s|]) <==> name[..|s|] == s;
    }
  }

  lemma TokenThen(t: Token, b: string, name: string)
    requires !t.Star?
    ensures Matches([t] + Literals(b), name) <==> name != [] && Accepts(t, name[0]) && name[1..] == b
  {
    assert ([t] + Literals(b))[1..] == Literals(b);
    if name != [] {
      LiteralsMatch(b, name[1..]);
    }
  }

  lemma Around(a: string, mid: string, b: string)
    ensures var name := a + mid + b; |a| <= |name| && name[..|a|] == a && name[|a|..] == mid + b
  {
  }

  /** The places of the two texts and of what is between them. */
  predicate OneBetween(a: string, b: string, name: string) {
    |a| < |name| && name[..|a|] == a && name[|a| + 1..] == b
  }

  lemma OneBetweenIs(a: string, b: string, name: string)
    ensures OneBetween(a, b, name) ==> name == a + [name[|a|]] + b
    ensures forall c :: name == a + [c] + b ==> OneBetween(a, b, name) && name[|a|] == c
  {
    forall c | name == a + [c] + b ensures OneBetween(a, b, name) && name[|a|] == c {
      PartsOf(a, [c], b);
    }
  }

  lemma MatchesOneBetween(a: string, t: Token, b: string, name: string)
    requires !t.Star?
    ensures Matches(Literals(a) + ([t] + Literals(b)), name) <==> OneBetween(a, b, name) && Accepts(t, name[|a|])
  {
    LiteralsThen(a, [t] + Literals(b), name);
    if |a| <= |name| {
      TokenThen(t, b, name[|a|..]);
      assert |a| < |name| ==> name[|a|..][1..] == name[|a| + 1..];
    }
  }

  /** A pattern with one token between two texts, other than a star, matches those texts with
      one accepted character between them. */
  lemma OneCharacterBetween(a: string, t: Token, b: string, name: string)
    requires Printable(t) && !t.Star?
    ensures GlobMatch(Escape(a) + PrintToken(t) + Escape(b), name) <==>
            exists c :: name == a + [c] + b && Accepts(t, c)
  {
    PrintedMiddleIsRead(a, t, b);
    MatchesOneBetween(a, t, b, name);
    OneBetweenIs(a, b, name);
  }

  /** `?` stands for exactly one character, whichever it is. */
  lemma QuestionMarkIsAnyCharacter(a: string, b: string, name: string)
    ensures GlobMatch(Escape(a) + "?" + Escape(b), name) <==> exists c :: name == a + [c] + b
  {
    OneCharacterBetween(a, AnyChar, b, name);
  }

  lemma {:induction false} StarTakes(mid: string, b: string)
    ensures Matches([Star] + Literals(b), mid + b)
  {
    var ts := [Star] + Literals(b);
    assert ts[1..] == Literals(b);
    if mid == [] {
      assert mid + b == b;
      LiteralsMatch(b, b);
    } else {
      StarTakes(mid[1..], b);
      assert (mid + b)[1..] == mid[1..] + b;
    }
  }

  lemma {:induction false} StarGives(b: string, name: string) returns (mid: string)
    requires Matches([Star] + Literals(b), name)
    ensures name == mid + b
  {
    var ts := [Star] + Literals(b);
    assert ts[1..] == Literals(b);
    LiteralsMatch(b, name);
    if name == b {
      mid := [];
    } else {
      var rest := StarGives(b, name[1..]);
      mid := [name[0]] + rest;
    }
  }

  lemma MatchesAnyBetween(a: string, b: string, name: string)
    ensures Matches(Literals(a) + ([Star] + Literals(b)), name) <==> exists mid :: name == a + mid + b
  {
    LiteralsThen(a, [Star] + Literals(b), name);
    if Matches(Literals(a) + ([Star] + Literals(b)), name) {
      var mid := StarGives(b, name[|a|..]);
      assert name == a + mid + b;
    }
    forall mid | name == a + mid + b ensures Matches(Literals(a) + ([Star] + Literals(b)), name) {
      Around(a, mid, b);
      StarTakes(mid, b);
    }
  }

  /** `*` stands for any text, the empty one included. */
  lemma StarIsAnyText(a: string, b: string, name: string)
    ensures GlobMatch(Escape(a) + "*" + Escape(b), name) <==> exists mid :: name == a + mid + b
  {
    PrintedMiddleIsRead(a, Star, b);
    MatchesAnyBetween(a, b, name);
  }

  /** Brackets stand for one of their members, and with `!` for any other character. */
  lemma BracketsAreOneMember(a: string, negated: bool, body: string, b: string, name: string)
    requires PrintableBody(negated, body)
    ensures GlobMatch(Escape(a) + ((if negated then "[!" else "[") + body + "]") + Escape(b), name) <==>
            exists c :: name == a + [c] + b && (InClass(body, c) <==> !negated)
  {
    OneCharacterBetween(a, Class(negated, body), b, name);
  }

  lemma LooseBracketAt(pat: string, i: nat)
    requires i < |pat| && pat[i] == '[' && forall k :: i < k < |pat| ==> pat[k] != ']'
    ensures Next(pat, i) == (Literal('['), i + 1)
  {
    CloseIsMissing(pat, ClassStart(pat, i));
  }

  lemma LiteralsJoin(a: string, c: char, b: string)
    ensures Literals(a) + ([Literal(c)] + Literals(b)) == Literals(a + [c] + b)
  {
  }

  /** A character that is read as itself, between two texts. */
  lemma CharacterIsText(a: string, c: char, b: string, name: string)
    requires var pat := Escape(a) + [c] + Escape(b); Next(pat, |Escape(a)|) == (Literal(c), |Escape(a)| + 1)
    ensures GlobMatch(Escape(a) + [c] + Escape(b), name) <==> name == a + [c] + b
  {
    MiddleIsRead(a, [c], Literal(c), b);
    LiteralsJoin(a, c, b);
    LiteralsMatch(a + [c] + b, name);
  }

  /** A backslash makes the character behind it, whichever it is, stand for itself. */
  lemma BackslashTakesOneCharacter(a: string, c: char, b: string, name: string)
    ensures GlobMatch(Escape(a) + ['\\', c] + Escape(b), name) <==> name == a + [c] + b
  {
    PartsOf(Escape(a), ['\\', c], Escape(b));
    MiddleIsRead(a, ['\\', c], Literal(c), b);
    LiteralsJoin(a, c, b);
    LiteralsMatch(a + [c] + b, name);
  }

  /** A bracket that nothing closes stands for itself. */
  lemma UnclosedBracketIsItself(a: string, b: string, name: string)
    requires ']' !in b
    ensures GlobMatch(Escape(a) + "[" + Escape(b), name) <==> name == a + "[" + b
  {
    var pat, i := Escape(a) + "[" + Escape(b), |Escape(a)|;
    EscapeAddsNoBracket(b);
    PartsOf(Escape(a), "[", Escape(b));
    assert forall k :: i < k < |pat| ==> pat[k] == pat[i + 1..][k - i - 1];
    LooseBracketAt(pat, i);
    CharacterIsText(a, '[', b, name);
  }

  lemma {:induction false} EscapeAddsNoBracket(s: string)
    requires ']' !in s
    ensures ']' !in Escape(s)
  {
    if s != [] {
      EscapeAddsNoBracket(s[1..]);
    }
  }

  /** A backslash at the very end stands for itself. */
  lemma FinalBackslashIsItself(a: string, name: string)
    ensures GlobMatch(Escape(a) + "\\", name) <==> name == a + "\\"
  {
    assert Escape(a) + "\\" + Escape([]) == Escape(a) + "\\" && a + "\\" + [] == a + "\\";
    CharacterIsText(a, '\\', [], name);
  }

  // ---------------------------------------------------------------- members

  datatype Member = One(c: char) | FromTo(lo: char, hi: char)

  predicate Names(m: Member, c: char) {
    match m
    case One(x) => c == x
    case FromTo(lo, hi) => lo <= c <= hi
  }

  /** Members written one behind the other, none beginning with a `-`. */
  function Written(ms: seq<Member>): string {
    if ms == [] then [] else
      (match ms[0] case One(c) => [c] case FromTo(lo, hi) => [lo, '-', hi]) + Written(ms[1..])
  }

  predicate NoDash(ms: seq<Member>) {
    ms == [] || ((match ms[0] case One(c) => c != '-' case FromTo(lo, _) => lo != '-') && NoDash(ms[1..]))
  }

  lemma WrittenStarts(ms: seq<Member>)
    requires NoDash(ms)
    ensures Written(ms) != [] ==> Written(ms)[0] != '-'
  {
  }

  predicate SomeNames(ms: seq<Member>, c: char) {
    ms != [] && (Names(ms[0], c) || SomeNames(ms[1..], c))
  }

  lemma {:induction false} SomeNamesIff(ms: seq<Member>, c: char)
    ensures SomeNames(ms, c) <==> exists i :: 0 <= i < |ms| && Names(ms[i], c)
  {
    if ms != [] {
      SomeNamesIff(ms[1..], c);
      if i :| 0 <= i < |ms[1..]| && Names(ms[1..][i], c) {
        assert ms[i + 1] == ms[1..][i];
      }
      forall i | 0 < i < |ms| && Names(ms[i], c) ensures SomeNames(ms[1..], c) {
        assert ms[1..][i - 1] == ms[i];
      }
    }
  }

  lemma {:induction false} WrittenHasThem(ms: seq<Member>, c: char)
    requires NoDash(ms)
    ensures InClass(Written(ms), c) <==> SomeNames(ms, c)
  {
    if ms != [] {
      WrittenHasThem(ms[1..], c);
      WrittenStarts(ms[1..]);
      var body, k := Written(ms), if ms[0].One? then 1 else 3;
      assert body[k..] == Written(ms[1..]);
      assert ms[0].One? && |body| > 1 ==> body[1] == Written(ms[1..])[0];
    }
  }

  /** The members of a class are those written between its brackets: single characters, and
      ranges with both ends. */
  lemma ClassHasItsMembers(ms: seq<Member>, c: char)
    requires NoDash(ms)
    ensures InClass(Written(ms), c) <==> exists i :: 0 <= i < |ms| && Names(ms[i], c)
  {
    WrittenHasThem(ms, c);
    SomeNamesIff(ms, c);
  }

  lemma OneFirst(x: char, rest: string, c: char)
    requires |rest| > 1 ==> rest[0] != '-'
    ensures InClass([x] + rest, c) <==> c == x || InClass(rest, c)
  {
    assert ([x] + rest)[1..] == rest;
  }

  lemma RangeFirst(lo: char, hi: char, rest: string, c: char)
    ensures InClass([lo, '-', hi] + rest, c) <==> lo <= c <= hi || InClass(rest, c)
  {
    assert ([lo, '-', hi] + rest)[3..] == rest;
  }

  lemma {:induction false} DashBehind(ms: seq<Member>, c: char)
    requires NoDash(ms) && !InClass([], c)
    ensures InClass(Written(ms) + "-", c) <==> c == '-' || SomeNames(ms, c)
  {
    hide InClass;
    if ms == [] {
      OneFirst('-', [], c);
      assert Written(ms) + "-" == ['-'] + [];
    } else {
      DashBehind(ms[1..], c);
      WrittenStarts(ms[1..]);
      var rest := Written(ms[1..]) + "-";
      assert |rest| > 1 ==> rest[0] == Written(ms[1..])[0];
      match ms[0]
      case One(x) =>
        OneFirst(x, rest, c);
        assert Written(ms) + "-" == [x] + rest;
      case FromTo(lo, hi) =>
        RangeFirst(lo, hi, rest, c);
        assert Written(ms) + "-" == [lo, '-', hi] + rest;
    }
  }

  /** A dash that comes first or last is a member itself. */
  lemma DashAtAnEndIsAMember(ms: seq<Member>, c: char)
    requires NoDash(ms)
    ensures InClass(Written(ms) + "-", c) <==> c == '-' || InClass(Written(ms), c)
    ensures InClass("-" + Written(ms), c) <==> c == '-' || InClass(Written(ms), c)
  {
    DashBehind(ms, c);
    WrittenHasThem(ms, c);
    WrittenStarts(ms);
    assert ("-" + Written(ms))[1..] == Written(ms);
  }
}
