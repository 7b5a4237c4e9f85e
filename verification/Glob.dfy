/** The wildcard matcher of the application blocklist: a meaning for patterns, token by
    token, and the pointer-walking matcher proved against it. */
module Glob {
  import opened CStrings

  datatype Token =
    | Literal(c: char)
    | AnyChar
    | Star
    | Class(negated: bool, body: string)

  // ---------------------------------------------------------------- tokenising

  /** First `]` at or after `i`, or `|pat|`. */
  function Close(pat: string, i: nat): (r: nat)
    requires i <= |pat|
    ensures i <= r <= |pat| && (r < |pat| ==> pat[r] == ']')
    decreases |pat| - i
  {
    if i == |pat| || pat[i] == ']' then i else Close(pat, i + 1)
  }

  /** Where the members of the class opened at `i` begin. */
  function ClassStart(pat: string, i: nat): (r: nat)
    requires i < |pat|
    ensures i < r <= |pat|
  {
    if At(pat, i + 1) == '!' then i + 2 else i + 1
  }

  /** Where the class opened at `i` is closed; a `]` that comes first is a member. */
  function ClassEnd(pat: string, i: nat): (r: nat)
    requires i < |pat|
    ensures ClassStart(pat, i) <= r <= |pat| && (r < |pat| ==> pat[r] == ']')
  {
    var s := ClassStart(pat, i);
    Close(pat, if At(pat, s) == ']' then s + 1 else s)
  }

  /** A bracket at `i`: a class, or itself when nothing closes it. */
  function Bracket(pat: string, i: nat): (r: (Token, nat))
    requires i < |pat|
    ensures i < r.1 <= |pat| && !r.0.Star?
  {
    var s, e := ClassStart(pat, i), ClassEnd(pat, i);
    if e == |pat| then (Literal('['), i + 1)
    else (Class(At(pat, i + 1) == '!', pat[s..e]), e + 1)
  }

  /** The token at `i` and the position behind it. */
  function Next(pat: string, i: nat): (r: (Token, nat))
    requires i < |pat|
    ensures i < r.1 <= |pat|
  {
    if pat[i] == '\\' && i + 1 < |pat| then (Literal(pat[i + 1]), i + 2)
    else if pat[i] == '[' then Bracket(pat, i)
    else if pat[i] == '*' then (Star, i + 1)
    else if pat[i] == '?' then (AnyChar, i + 1)
    else (Literal(pat[i]), i + 1)
  }

  function Tokens(pat: string, i: nat): seq<Token>
    requires i <= |pat|
    decreases |pat| - i
  {
    if i == |pat| then [] else [Next(pat, i).0] + Tokens(pat, Next(pat, i).1)
  }

  // ---------------------------------------------------------------- meaning

  /** Membership in the text between the brackets: `x-y` is a range, any other
      character stands for itself. */
  predicate InClass(body: string, c: char) {
    if body == [] then false
    else if |body| >= 3 && body[1] == '-' then body[0] <= c <= body[2] || InClass(body[3..], c)
    else body[0] == c || InClass(body[1..], c)
  }

  predicate Accepts(t: Token, c: char) {
    match t
    case Literal(x) => c == x
    case AnyChar => true
    case Star => false
    case Class(negated, body) => InClass(body, c) != negated
  }

  predicate Matches(ts: seq<Token>, s: string)
    decreases |ts|, |s|
  {
    if ts == [] then s == []
    else if ts[0].Star? then Matches(ts[1..], s) || (s != [] && Matches(ts, s[1..]))
    else s != [] && Accepts(ts[0], s[0]) && Matches(ts[1..], s[1..])
  }

  /** The whole pattern matches the whole name. */
  predicate GlobMatch(pattern: string, name: string) {
    Matches(Tokens(pattern, 0), name)
  }

  // An independent reading: cut the name into one piece per token.

  predicate Piece(t: Token, piece: string) {
    t.Star? || (|piece| == 1 && Accepts(t, piece[0]))
  }

  function Flatten(pieces: seq<string>): string {
    if pieces == [] then [] else pieces[0] + Flatten(pieces[1..])
  }

  ghost predicate Cut(ts: seq<Token>, pieces: seq<string>, s: string) {
    |pieces| == |ts| && Flatten(pieces) == s && forall i :: 0 <= i < |ts| ==> Piece(ts[i], pieces[i])
  }

  /** A name matches exactly when it can be cut into consecutive pieces, one per token:
      any text for a star, one accepted character for every other token. */
  lemma MatchesIffCut(ts: seq<Token>, s: string)
    ensures Matches(ts, s) <==> exists pieces :: Cut(ts, pieces, s)
  {
    if Matches(ts, s) {
      var pieces := CutOf(ts, s);
      assert Cut(ts, pieces, s);
    }
    forall pieces | Cut(ts, pieces, s) ensures Matches(ts, s) {
      CutMatches(ts, pieces, s);
    }
  }

  lemma {:induction false} CutOf(ts: seq<Token>, s: string) returns (pieces: seq<string>)
    requires Matches(ts, s)
    ensures Cut(ts, pieces, s)
    decreases |ts|, |s|
  {
    if ts == [] {
      pieces := [];
    } else if ts[0].Star? && !Matches(ts[1..], s) {
      var rest := CutOf(ts, s[1..]);
      pieces := [[s[0]] + rest[0]] + rest[1..];
      assert Flatten(pieces) == [s[0]] + (rest[0] + Flatten(rest[1..]));
    } else {
      var k := if ts[0].Star? then 0 else 1;
      var rest := CutOf(ts[1..], s[k..]);
      pieces := [s[..k]] + rest;
      assert pieces[1..] == rest;
      assert s == s[..k] + s[k..];
    }
  }

  lemma {:induction false} CutMatches(ts: seq<Token>, pieces: seq<string>, s: string)
    requires Cut(ts, pieces, s)
    ensures Matches(ts, s)
    decreases |ts|, |s|
  {
    if ts != [] {
      var head, rest := pieces[0], Flatten(pieces[1..]);
      if ts[0].Star? && head != [] {
        var shorter := [head[1..]] + pieces[1..];
        assert s[1..] == head[1..] + rest;
        assert shorter[1..] == pieces[1..];
        CutMatches(ts, shorter, s[1..]);
      } else {
        assert s[|head|..] == rest;
        CutMatches(ts[1..], pieces[1..], rest);
        assert s[0..] == s;
      }
    }
  }

  // ---------------------------------------------------------------- why one star is enough

  /** Star-free tokens consume exactly as many characters as there are tokens. */
  predicate Plain(span: seq<Token>) {
    forall i :: 0 <= i < |span| ==> !span[i].Star?
  }

  predicate Fits(span: seq<Token>, s: string) {
    |span| == |s| && Plain(span) && forall i :: 0 <= i < |span| ==> Accepts(span[i], s[i])
  }

  lemma {:induction false} SpanSkip(span: seq<Token>, rest: seq<Token>, s: string)
    requires Plain(span)
    ensures Matches(span + rest, s) <==>
            |span| <= |s| && Fits(span, s[..|span|]) && Matches(rest, s[|span|..])
  {
    if span == [] {
      assert span + rest == rest && s[0..] == s;
    } else if s != [] {
      SpanSkip(span[1..], rest, s[1..]);
      assert (span + rest)[1..] == span[1..] + rest;
      if |span| <= |s| {
        assert s[1..][|span| - 1..] == s[|span|..];
        var t, u := s[..|span|], s[1..][..|span| - 1];
        assert t == [s[0]] + u;
        assert Fits(span, t) <==> Accepts(span[0], s[0]) && Fits(span[1..], u);
      }
    }
  }

  /** Behind a star, star-free tokens still need that much text, and what a second star
      can reach from a later start it can reach from the earliest one. */
  lemma {:induction false} EarliestIsBest(span: seq<Token>, rest: seq<Token>, s: string)
    requires Plain(span) && Matches([Star] + (span + rest), s)
    ensures |span| <= |s|
    ensures rest != [] && rest[0].Star? ==> Matches(rest, s[|span|..])
    decreases |s|
  {
    var ts := [Star] + (span + rest);
    assert ts[1..] == span + rest;
    if Matches(span + rest, s) {
      SpanSkip(span, rest, s);
    } else {
      EarliestIsBest(span, rest, s[1..]);
      assert s[|span|..][1..] == s[1..][|span|..];
    }
  }

  /** The current attempt failed: only later starts can still succeed. */
  lemma Backtrack(span: seq<Token>, rest: seq<Token>, s: string)
    requires s != [] && |span| <= |s| && Plain(span) && !Matches(rest, s[|span|..])
    ensures Matches([Star] + (span + rest), s) <==> Matches([Star] + (span + rest), s[1..])
  {
    SpanSkip(span, rest, s);
    assert ([Star] + (span + rest))[1..] == span + rest;
  }

  /** A second star makes the first one's choice final. */
  lemma NewStar(span: seq<Token>, rest: seq<Token>, s: string)
    requires |span| <= |s| && Fits(span, s[..|span|]) && rest != [] && rest[0].Star?
    ensures Matches([Star] + (span + rest), s) <==> Matches(rest, s[|span|..])
  {
    SpanSkip(span, rest, s);
    assert ([Star] + (span + rest))[1..] == span + rest;
    if Matches([Star] + (span + rest), s) {
      EarliestIsBest(span, rest, s);
    }
  }

  /** At the end of the name no later start has room. */
  lemma AtEnd(span: seq<Token>, rest: seq<Token>, s: string)
    requires Fits(span, s)
    ensures Matches([Star] + (span + rest), s) <==> Matches(rest, [])
  {
    SpanSkip(span, rest, s);
    assert s[..|span|] == s && s[|span|..] == [];
    var ts := [Star] + (span + rest);
    assert ts[1..] == span + rest;
    if s != [] && Matches(ts, s[1..]) {
      EarliestIsBest(span, rest, s[1..]);
    }
  }

  // ---------------------------------------------------------------- the matcher

  /** The scan for the end of a class. */
  method FindClassEnd(p: string, open: nat) returns (classP: nat, classEnd: nat)
    requires open < |p| && p[open] == '[' && '\0' !in p
    ensures classP == ClassStart(p, open) && classEnd == ClassEnd(p, open)
  {
    classP := open + 1;
    if At(p, classP) == '!' {
      classP := classP + 1;
    }
    classEnd := classP;
    if At(p, classEnd) == ']' {
      classEnd := classEnd + 1;
    }
    while At(p, classEnd) != '\0' && At(p, classEnd) != ']'
      invariant classP <= classEnd <= |p| && Close(p, classEnd) == ClassEnd(p, open)
      decreases |p| - classEnd
    {
      classEnd := classEnd + 1;
    }
  }

  /** The walk over the members of a class. */
  method InClassBody(p: string, classP: nat, classEnd: nat, c: char) returns (matched: bool)
    requires classP <= classEnd < |p| && p[classEnd] == ']'
    ensures matched <==> InClass(p[classP..classEnd], c)
  {
    matched := false;
    var q := classP;
    while q < classEnd
      invariant classP <= q <= classEnd
      invariant InClass(p[classP..classEnd], c) <==> matched || InClass(p[q..classEnd], c)
    {
      ghost var body := p[q..classEnd];
      if p[q + 1] == '-' && q + 2 < classEnd {
        if p[q] <= c <= p[q + 2] {
          matched := true;
        }
        q := q + 3;
        assert body[3..] == p[q..classEnd];
      } else {
        if c == p[q] {
          matched := true;
        }
        q := q + 1;
        assert body[1..] == p[q..classEnd];
      }
    }
  }

  /** One non-star step of the main loop: where the pattern pointer goes when `c` is
      read at `p`, or `p` itself on a mismatch. */
  method TryToken(pat: string, p: nat, c: char) returns (next: nat)
    requires '\0' !in pat && p <= |pat| && At(pat, p) != '*' && c != '\0'
    ensures next == if p < |pat| && Accepts(Next(pat, p).0, c) then Next(pat, p).1 else p
  {
    if At(pat, p) == '\\' && At(pat, p + 1) != '\0' {
      return if c != pat[p + 1] then p else p + 2;
    } else if At(pat, p) == '[' {
      var classP, classEnd := FindClassEnd(pat, p);
      if At(pat, classEnd) != ']' {
        return if c != '[' then p else p + 1;
      }
      var inClass := InClassBody(pat, classP, classEnd, c);
      if pat[p + 1] == '!' {
        inClass := !inClass;
      }
      return if !inClass then p else classEnd + 1;
    } else if At(pat, p) == '?' || At(pat, p) == c {
      return p + 1;
    }
    return p;
  }

  /** What the two saved pointers remember: the attempt that started behind the last star
      has matched `span` against the text since the star's anchor. */
  ghost predicate Attempt(pat: string, starP: nat, p: nat, span: seq<Token>, s: string, starN: nat, n: nat) {
    && starP <= p <= |pat| && starN <= n <= |s|
    && Tokens(pat, starP) == span + Tokens(pat, p)
    && Fits(span, s[starN..n])
  }

  /** What is still to be decided at pattern position `p` and name position `n`. */
  ghost predicate Pending(pat: string, starP: int, p: nat, span: seq<Token>, s: string, starN: int, n: nat) {
    && p <= |pat| && n <= |s|
    && if starP < 0 then
         GlobMatch(pat, s) == Matches(Tokens(pat, p), s[n..])
       else
         && 0 <= starN
         && Attempt(pat, starP, p, span, s, starN, n)
         && GlobMatch(pat, s) == Matches([Star] + Tokens(pat, starP), s[starN..])
  }

  lemma PendingStar(pat: string, starP: int, p: nat, span: seq<Token>, s: string, starN: int, n: nat)
    requires Pending(pat, starP, p, span, s, starN, n) && At(pat, p) == '*'
    ensures Pending(pat, p + 1, p + 1, [], s, n, n)
  {
    var ts := Tokens(pat, p);
    assert ts == [Star] + Tokens(pat, p + 1);
    if starP >= 0 {
      var t := s[starN..];
      assert t[..|span|] == s[starN..n] && t[|span|..] == s[n..];
      NewStar(span, ts, t);
    }
    assert [] + Tokens(pat, p + 1) == Tokens(pat, p + 1);
  }

  lemma PendingRetry(pat: string, starP: int, p: nat, span: seq<Token>, s: string, starN: int, n: nat)
    requires Pending(pat, starP, p, span, s, starN, n) && n < |s|
    requires p < |pat| ==> !Next(pat, p).0.Star? && !Accepts(Next(pat, p).0, s[n])
    ensures starP < 0 ==> !GlobMatch(pat, s)
    ensures starP >= 0 ==> Pending(pat, starP, starP, [], s, starN + 1, starN + 1)
  {
    var ts := Tokens(pat, p);
    assert !Matches(ts, s[n..]);
    if starP >= 0 {
      var t := s[starN..];
      assert t[|span|..] == s[n..] && t[1..] == s[starN + 1..];
      Backtrack(span, ts, t);
      assert [] + Tokens(pat, starP) == Tokens(pat, starP);
    }
  }

  lemma PendingStep(pat: string, starP: int, p: nat, span: seq<Token>, s: string, starN: int, n: nat)
    requires Pending(pat, starP, p, span, s, starN, n) && n < |s| && p < |pat|
    requires !Next(pat, p).0.Star? && Accepts(Next(pat, p).0, s[n])
    ensures Pending(pat, starP, Next(pat, p).1, span + [Next(pat, p).0], s, starN, n + 1)
  {
    var t, next := Next(pat, p).0, Next(pat, p).1;
    assert Tokens(pat, p) == [t] + Tokens(pat, next);
    if starP < 0 {
      assert s[n..][1..] == s[n + 1..];
    } else {
      assert span + ([t] + Tokens(pat, next)) == (span + [t]) + Tokens(pat, next);
      assert s[starN..n + 1] == s[starN..n] + [s[n]];
    }
  }

  lemma PendingEnd(pat: string, starP: int, p: nat, span: seq<Token>, s: string, starN: int)
    requires Pending(pat, starP, p, span, s, starN, |s|)
    ensures GlobMatch(pat, s) == Matches(Tokens(pat, p), [])
  {
    if starP >= 0 {
      assert s[starN..|s|] == s[starN..];
      AtEnd(span, Tokens(pat, p), s[starN..]);
    }
  }

  /** Iterations so far, paid for by the anchor and the pattern pointer; the anchor only
      ever moves forward. */
  predicate Paid(steps: nat, anchor: nat, p: nat, width: nat) {
    steps <= anchor * width + p
  }

  lemma PaidForward(steps: nat, anchor: nat, p: nat, width: nat, anchor': nat, p': nat)
    requires Paid(steps, anchor, p, width)
    requires (anchor <= anchor' && p < p') || (anchor < anchor' && p < width)
    ensures Paid(steps + 1, anchor', p', width)
  {
    if anchor < anchor' {
      assert (anchor + 1) * width == anchor * width + width;
      MulMonotone(anchor + 1, anchor', width);
    }
  }

  lemma MulMonotone(a: nat, b: nat, width: nat)
    requires a <= b
    ensures a * width <= b * width
  {
    assert b * width == a * width + (b - a) * width;
  }

  lemma PaidInFull(steps: nat, anchor: nat, p: nat, width: nat, length: nat)
    requires Paid(steps, anchor, p, width) && anchor <= length && p < width
    ensures steps + 1 <= (length + 1) * width
  {
    MulMonotone(anchor, length, width);
    assert (length + 1) * width == length * width + width;
  }

  /** The invariant of the main loop. */
  ghost predicate Walk(pat: string, starP: int, p: nat, span: seq<Token>, s: string, starN: nat, n: nat, steps: nat) {
    -1 <= starP && starN <= n && Pending(pat, starP, p, span, s, starN, n) && Paid(steps, starN, p, |pat| + 1)
  }

  lemma WalkStar(pat: string, starP: int, p: nat, span: seq<Token>, s: string, starN: nat, n: nat, steps: nat)
    requires Walk(pat, starP, p, span, s, starN, n, steps) && At(pat, p) == '*'
    ensures starP < p + 1 <= |pat| && Walk(pat, p + 1, p + 1, [], s, n, n, steps + 1)
  {
    PendingStar(pat, starP, p, span, s, starN, n);
    PaidForward(steps, starN, p, |pat| + 1, n, p + 1);
  }

  lemma WalkRetry(pat: string, starP: int, p: nat, span: seq<Token>, s: string, starN: nat, n: nat, steps: nat)
    requires Walk(pat, starP, p, span, s, starN, n, steps) && n < |s|
    requires p < |pat| ==> !Next(pat, p).0.Star? && !Accepts(Next(pat, p).0, s[n])
    ensures starP < 0 ==> !GlobMatch(pat, s) && steps + 1 <= (|s| + 1) * (|pat| + 1)
    ensures starP >= 0 ==> starN + 1 <= |s| && Walk(pat, starP, starP, [], s, starN + 1, starN + 1, steps + 1)
  {
    PendingRetry(pat, starP, p, span, s, starN, n);
    if starP < 0 {
      PaidInFull(steps, starN, p, |pat| + 1, |s|);
    } else {
      PaidForward(steps, starN, p, |pat| + 1, starN + 1, starP);
    }
  }

  lemma WalkStep(pat: string, starP: int, p: nat, span: seq<Token>, s: string, starN: nat, n: nat, steps: nat)
    requires Walk(pat, starP, p, span, s, starN, n, steps) && n < |s| && p < |pat|
    requires !Next(pat, p).0.Star? && Accepts(Next(pat, p).0, s[n])
    ensures Walk(pat, starP, Next(pat, p).1, span + [Next(pat, p).0], s, starN, n + 1, steps + 1)
  {
    PendingStep(pat, starP, p, span, s, starN, n);
    PaidForward(steps, starN, p, |pat| + 1, starN, Next(pat, p).1);
  }

  lemma WalkEnd(pat: string, starP: int, p: nat, span: seq<Token>, s: string, starN: nat, steps: nat)
    requires Walk(pat, starP, p, span, s, starN, |s|, steps)
    ensures GlobMatch(pat, s) == Matches(Tokens(pat, p), []) && steps + 1 <= (|s| + 1) * (|pat| + 1)
  {
    PendingEnd(pat, starP, p, span, s, starN);
    PaidInFull(steps, starN, p, |pat| + 1, |s|);
  }

  /** The matcher. `steps` counts the iterations of its main loop. */
  method MatchesWildcard(name: string, pattern: string) returns (matched: bool, ghost steps: nat)
    ensures matched <==> GlobMatch(CStr(pattern), CStr(name))
    ensures steps <= (|CStr(name)| + 1) * (|CStr(pattern)| + 1)
  {
    var s, pat := CStr(name), CStr(pattern);
    var n, p: nat := 0, 0;
    var starP: int, starN: nat := -1, 0;
    ghost var span: seq<Token> := [];
    steps := 0;
    assert s[0..] == s;

    while At(s, n) != '\0'
      invariant n <= |s| && p <= |pat| && starN <= |s|
      invariant Walk(pat, starP, p, span, s, starN, n, steps)
      decreases |pat| - starP, |s| - starN, |pat| - p
    {
      if At(pat, p) == '*' {
        WalkStar(pat, starP, p, span, s, starN, n, steps);
        p := p + 1;
        starP, starN, span := p, n, [];
      } else {
        var next := TryToken(pat, p, s[n]);
        if next != p {
          WalkStep(pat, starP, p, span, s, starN, n, steps);
          span := span + [Next(pat, p).0];
          p, n := next, n + 1;
        } else {
          WalkRetry(pat, starP, p, span, s, starN, n, steps);
          if starP < 0 {
            return false, steps + 1;
          }
          starN := starN + 1;
          p, n, span := starP, starN, [];
        }
      }
      steps := steps + 1;
    }
    WalkEnd(pat, starP, p, span, s, starN, steps);
    matched := OnlyStarsLeft(pat, p);
  }

  /** The loop behind the main loop, when the name is used up. */
  method OnlyStarsLeft(pat: string, from: nat) returns (all: bool)
    requires from <= |pat| && '\0' !in pat
    ensures all <==> Matches(Tokens(pat, from), [])
  {
    var p := from;
    while At(pat, p) == '*'
      invariant p <= |pat| && Matches(Tokens(pat, from), []) == Matches(Tokens(pat, p), [])
      decreases |pat| - p
    {
      p := p + 1;
    }
    return At(pat, p) == '\0';
  }
}
