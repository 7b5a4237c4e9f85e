/** Properties of wildcard patterns that hold for every name: escaping, and what lower-casing
    both sides (the case-insensitive platforms) does to a pattern. */
module GlobFolding {
  import opened CStrings
  import opened Glob

  // ---------------------------------------------------------------- escaping

  predicate Special(c: char) {
    c in "\\[*?"
  }

  /** A pattern for exactly `s`: a backslash in front of every special character. */
  function Escape(s: string): string {
    if s == [] then []
    else (if Special(s[0]) then "\\" + [s[0]] else [s[0]]) + Escape(s[1..])
  }

  function Literals(s: string): (ts: seq<Token>)
    ensures |ts| == |s| && forall i :: 0 <= i < |s| ==> ts[i] == Literal(s[i])
  {
    seq(|s|, i requires 0 <= i < |s| => Literal(s[i]))
  }

  lemma {:induction false} EscapeTokens(front: string, s: string)
    ensures Tokens(front + Escape(s), |front|) == Literals(s)
    decreases |s|
  {
    if s != [] {
      var head := if Special(s[0]) then "\\" + [s[0]] else [s[0]];
      assert front + Escape(s) == (front + head) + Escape(s[1..]);
      EscapeTokens(front + head, s[1..]);
      assert Literals(s) == [Literal(s[0])] + Literals(s[1..]);
    }
  }

  /** A fully escaped text is a pattern for that text and for nothing else. */
  lemma EscapeIsExact(s: string, name: string)
    ensures GlobMatch(Escape(s), name) <==> name == s
  {
    var ts := Literals(s);
    EscapeTokens([], s);
    assert [] + Escape(s) == Escape(s);
    SpanSkip(ts, [], name);
    assert ts + [] == ts;
    if |s| <= |name| {
      assert Fits(ts, name[..|s|]) <==> name[..|s|] == s;
    }
  }

  /** Inside brackets a backslash is an ordinary member, although the CLI manual lets it
      escape "any of these special characters": `[\]]` is the set holding a backslash,
      followed by a literal bracket. */
  lemma BackslashInClassIsAMember(name: string)
    ensures GlobMatch("[\\]]", name) <==> name == "\\]"
  {
    var pat := "[\\]]";
    assert Close(pat, 1) == 2;
    assert pat[1..2] == "\\";
    assert Tokens(pat, 4) == [];
    assert Tokens(pat, 3) == [Literal(']')];
    var ts := [Class(false, "\\"), Literal(']')];
    assert Tokens(pat, 0) == ts;
    SpanSkip(ts, [], name);
    assert ts + [] == ts;
    if |name| >= 2 {
      assert InClass("\\", name[0]) <==> name[0] == '\\';
      assert name == name[..2] + name[2..];
    }
  }

  // ---------------------------------------------------------------- lower-casing a pattern

  function LowerToken(t: Token): Token {
    match t
    case Literal(c) => Literal(Lower(c))
    case Class(negated, body) => Class(negated, LowerAll(body))
    case _ => t
  }

  function LowerTokens(ts: seq<Token>): (r: seq<Token>)
    ensures |r| == |ts| && forall i :: 0 <= i < |ts| ==> r[i] == LowerToken(ts[i])
  {
    seq(|ts|, i requires 0 <= i < |ts| => LowerToken(ts[i]))
  }

  lemma {:induction false} LowerClose(pat: string, i: nat)
    requires i <= |pat|
    ensures Close(LowerAll(pat), i) == Close(pat, i)
    decreases |pat| - i
  {
    if i < |pat| && pat[i] != ']' {
      LowerClose(pat, i + 1);
    }
  }

  lemma LowerBracket(pat: string, i: nat)
    requires i < |pat|
    ensures Bracket(LowerAll(pat), i) == (LowerToken(Bracket(pat, i).0), Bracket(pat, i).1)
  {
    var s := ClassStart(pat, i);
    assert ClassStart(LowerAll(pat), i) == s;
    LowerClose(pat, if At(pat, s) == ']' then s + 1 else s);
    var e := ClassEnd(pat, i);
    assert LowerAll(pat)[s..e] == LowerAll(pat[s..e]);
  }

  /** Tokenising commutes with lower-casing. */
  lemma {:induction false} LowerCommutesWithTokens(pat: string, i: nat)
    requires i <= |pat|
    ensures Tokens(LowerAll(pat), i) == LowerTokens(Tokens(pat, i))
    decreases |pat| - i
  {
    if i < |pat| {
      LowerBracket(pat, i);
      LowerCommutesWithTokens(pat, Next(pat, i).1);
    }
  }

  // ---------------------------------------------------------------- matching modulo case

  predicate SameFold(a: char, b: char) {
    Lower(a) == Lower(b)
  }

  ghost predicate RangeModuloCase(lo: char, hi: char, c: char) {
    exists d :: SameFold(d, c) && lo <= d <= hi
  }

  ghost predicate InClassModuloCase(body: string, c: char) {
    exists d :: SameFold(d, c) && InClass(body, d)
  }

  ghost predicate AcceptsModuloCase(t: Token, c: char) {
    match t
    case Literal(x) => SameFold(x, c)
    case AnyChar => true
    case Star => false
    case Class(negated, body) => InClassModuloCase(body, c) != negated
  }

  ghost predicate MatchesModuloCase(ts: seq<Token>, s: string)
    decreases |ts|, |s|
  {
    if ts == [] then s == []
    else if ts[0].Star? then MatchesModuloCase(ts[1..], s) || (s != [] && MatchesModuloCase(ts, s[1..]))
    else s != [] && AcceptsModuloCase(ts[0], s[0]) && MatchesModuloCase(ts[1..], s[1..])
  }

  /** A range keeps its meaning when its ends are lower-cased. */
  predicate CaseSafe(lo: char, hi: char) {
    if lo > hi then Lower(lo) > Lower(hi)
    else
      || ('A' <= lo && hi <= 'Z')
      || hi < 'A'
      || lo > 'Z'
      || (lo < 'A' && hi >= 'z')
  }

  /** Lower-casing the ends of a range is right for every character exactly when the
      range is case-safe; `[Z-a]` and `[A-z]` are not. */
  lemma RangeFoldsIffCaseSafe(lo: char, hi: char)
    ensures CaseSafe(lo, hi) <==>
            forall c :: (Lower(lo) <= Lower(c) <= Lower(hi)) == RangeModuloCase(lo, hi, c)
  {
    if CaseSafe(lo, hi) {
      forall c ensures (Lower(lo) <= Lower(c) <= Lower(hi)) == RangeModuloCase(lo, hi, c) {
        var l := Lower(c);
        var u := if 'a' <= l <= 'z' then (l as int - 32) as char else l;
        assert SameFold(l, c) && SameFold(u, c);
        assert forall d :: SameFold(d, c) ==> d == l || d == u;
      }
    } else {
      var c := if lo > hi then lo else if lo < 'A' && hi > 'Z' then 'Z' else '[';
      assert (Lower(lo) <= Lower(c) <= Lower(hi)) != RangeModuloCase(lo, hi, c) by {
        assert SameFold(c, c);
        assert forall d :: SameFold(d, '[') ==> d == '[';
      }
    }
  }

  /** Every range of a class is case-safe. */
  predicate ClassCaseSafe(body: string) {
    if |body| >= 3 && body[1] == '-' then CaseSafe(body[0], body[2]) && ClassCaseSafe(body[3..])
    else body == [] || ClassCaseSafe(body[1..])
  }

  predicate TokensCaseSafe(ts: seq<Token>) {
    forall i :: 0 <= i < |ts| && ts[i].Class? ==> ClassCaseSafe(ts[i].body)
  }

  lemma {:induction false} ClassFolds(body: string, c: char)
    requires ClassCaseSafe(body)
    ensures InClass(LowerAll(body), Lower(c)) <==> InClassModuloCase(body, c)
  {
    if body != [] {
      var range := |body| >= 3 && body[1] == '-';
      var k := if range then 3 else 1;
      assert LowerAll(body)[k..] == LowerAll(body[k..]);
      ClassFolds(body[k..], c);
      var lo, hi := body[0], body[k - 1];
      if range {
        RangeFoldsIffCaseSafe(lo, hi);
      }
      forall d ensures InClass(body, d) == ((if range then lo <= d <= hi else lo == d) || InClass(body[k..], d)) {
      }
      if SameFold(lo, c) {
        assert InClass(body, lo) || range;
      }
      if range && RangeModuloCase(lo, hi, c) {
        var d :| SameFold(d, c) && lo <= d <= hi;
        assert InClass(body, d);
      }
      if InClassModuloCase(body[k..], c) {
        var d :| SameFold(d, c) && InClass(body[k..], d);
        assert InClass(body, d);
      }
    }
  }

  lemma {:induction false} MatchFolds(ts: seq<Token>, s: string)
    requires TokensCaseSafe(ts)
    ensures Matches(LowerTokens(ts), LowerAll(s)) <==> MatchesModuloCase(ts, s)
    decreases |ts|, |s|
  {
    if ts != [] {
      assert LowerTokens(ts)[1..] == LowerTokens(ts[1..]);
      if s != [] {
        assert LowerAll(s)[1..] == LowerAll(s[1..]);
      }
      if ts[0].Star? {
        MatchFolds(ts[1..], s);
        if s != [] {
          MatchFolds(ts, s[1..]);
        }
      } else if s != [] {
        MatchFolds(ts[1..], s[1..]);
        if ts[0].Class? {
          ClassFolds(ts[0].body, s[0]);
        }
      }
    }
  }

  /** For patterns whose ranges are case-safe, in particular for all patterns without
      ranges, lower-casing name and pattern is matching modulo case. */
  lemma FoldedGlobIsModuloCase(pattern: string, name: string)
    requires TokensCaseSafe(Tokens(pattern, 0))
    ensures GlobMatch(LowerAll(pattern), LowerAll(name)) <==> MatchesModuloCase(Tokens(pattern, 0), name)
  {
    LowerCommutesWithTokens(pattern, 0);
    MatchFolds(Tokens(pattern, 0), name);
  }

  /** An unsafe range does change the answer: `[Z-a]` holds `Z`, but its lower-cased form
      `[z-a]` is empty. */
  lemma UnsafeRangeLosesAMatch()
    ensures MatchesModuloCase(Tokens("[Z-a]", 0), "Z") && !GlobMatch(LowerAll("[Z-a]"), LowerAll("Z"))
  {
    var pat := "[Z-a]";
    assert Close(pat, 1) == Close(pat, 2) == Close(pat, 3) == 4;
    assert pat[1..4] == "Z-a";
    assert Tokens(pat, 0) == [Class(false, "Z-a")] + Tokens(pat, 5);
    assert SameFold('Z', 'Z') && InClass("Z-a", 'Z');
    LowerCommutesWithTokens(pat, 0);
    var body := LowerAll("Z-a");
    assert body[3..] == [];
    assert !InClass(body, 'z');
    assert LowerAll("Z") == "z";
  }
}
