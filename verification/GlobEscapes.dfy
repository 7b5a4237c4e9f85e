/** The pattern language as the manual describes it, in which a backslash escapes between
    brackets too, and exactly when a pattern reads the same there and in the code. */
module GlobEscapes {
  import opened CStrings
  import opened Glob

  // ---------------------------------------------------------------- members of a class

  /** A character of a class, and whether a backslash stood before it. */
  datatype Mark = Mark(c: char, escaped: bool)

  datatype Item = Single(c: char) | Range(lo: char, hi: char)

  /** The members of a class: an unescaped `-` between two characters makes a range. */
  function Items(marks: seq<Mark>): seq<Item> {
    if marks == [] then []
    else if |marks| >= 3 && marks[1] == Mark('-', false) then [Range(marks[0].c, marks[2].c)] + Items(marks[3..])
    else [Single(marks[0].c)] + Items(marks[1..])
  }

  predicate InItems(items: seq<Item>, c: char) {
    items != [] &&
    ((match items[0] case Single(x) => x == c case Range(lo, hi) => lo <= c <= hi) || InItems(items[1..], c))
  }

  /** The code's class bodies hold no escapes. */
  function Unescaped(body: string): (r: seq<Mark>)
    ensures |r| == |body| && forall i :: 0 <= i < |r| ==> r[i] == Mark(body[i], false)
  {
    seq(|body|, i requires 0 <= i < |body| => Mark(body[i], false))
  }

  /** The members read from a body without escapes are those the code finds in it. */
  lemma {:induction false} ItemsOfBody(body: string, c: char)
    ensures InItems(Items(Unescaped(body)), c) <==> InClass(body, c)
  {
    if body != [] {
      var marks := Unescaped(body);
      var k := if |body| >= 3 && body[1] == '-' then 3 else 1;
      assert marks[k..] == Unescaped(body[k..]);
      ItemsOfBody(body[k..], c);
      assert |marks| >= 3 && marks[1] == Mark('-', false) <==> k == 3;
      assert Items(marks)[1..] == Items(marks[k..]);
    }
  }

  function Text(items: seq<Item>): string {
    if items == [] then [] else
      (match items[0] case Single(c) => [c] case Range(lo, hi) => [lo, '-', hi]) + Text(items[1..])
  }

  function Chars(marks: seq<Mark>): (r: string)
    ensures |r| == |marks| && forall i :: 0 <= i < |r| ==> r[i] == marks[i].c
  {
    seq(|marks|, i requires 0 <= i < |marks| => marks[i].c)
  }

  /** The members determine the characters. */
  lemma {:induction false} TextOfItems(marks: seq<Mark>)
    ensures Text(Items(marks)) == Chars(marks)
  {
    if marks == [] {
    } else if |marks| >= 3 && marks[1] == Mark('-', false) {
      TextOfItems(marks[3..]);
      assert Items(marks)[1..] == Items(marks[3..]);
      assert Chars(marks) == [marks[0].c, '-', marks[2].c] + Chars(marks[3..]);
    } else {
      TextOfItems(marks[1..]);
      assert Items(marks)[1..] == Items(marks[1..]);
      assert Chars(marks) == [marks[0].c] + Chars(marks[1..]);
    }
  }

  // ---------------------------------------------------------------- the manual's tokens

  datatype Reading = Plain(t: Token) | Set(negated: bool, items: seq<Item>)

  predicate Admits(r: Reading, c: char) {
    match r
    case Plain(t) => Accepts(t, c)
    case Set(negated, items) => InItems(items, c) != negated
  }

  /** A token of the code, its class members spelled out. */
  function Read(t: Token): Reading {
    match t
    case Class(negated, body) => Set(negated, Items(Unescaped(body)))
    case _ => Plain(t)
  }

  lemma ReadAdmits(t: Token, c: char)
    ensures Admits(Read(t), c) <==> Accepts(t, c)
  {
    if t.Class? {
      ItemsOfBody(t.body, c);
    }
  }

  /** First `]` at or after `i` that is not escaped, or `|pat|`. */
  function ManualClose(pat: string, i: nat): (r: nat)
    requires i <= |pat|
    ensures i <= r <= |pat| && (r < |pat| ==> pat[r] == ']')
    decreases |pat| - i
  {
    if i == |pat| || pat[i] == ']' then i
    else if pat[i] == '\\' && i + 1 < |pat| then ManualClose(pat, i + 2)
    else ManualClose(pat, i + 1)
  }

  /** Where the search for the closing bracket begins. */
  function CloseFrom(pat: string, s: nat): nat {
    if At(pat, s) == ']' then s + 1 else s
  }

  function ManualEnd(pat: string, i: nat): (r: nat)
    requires i < |pat|
    ensures ClassStart(pat, i) <= r <= |pat|
  {
    var s := ClassStart(pat, i);
    ManualClose(pat, CloseFrom(pat, s))
  }

  /** The characters from `i` to `e`, escapes resolved. */
  function Marks(pat: string, i: nat, e: nat): seq<Mark>
    requires e <= |pat|
    decreases |pat| - i
  {
    if i >= e then []
    else if pat[i] == '\\' && i + 1 < e then [Mark(pat[i + 1], true)] + Marks(pat, i + 2, e)
    else [Mark(pat[i], false)] + Marks(pat, i + 1, e)
  }

  function ManualNext(pat: string, i: nat): (r: (Reading, nat))
    requires i < |pat|
    ensures i < r.1 <= |pat|
  {
    if pat[i] != '[' then (Plain(Next(pat, i).0), Next(pat, i).1) else
      var e := ManualEnd(pat, i);
      if e == |pat| then (Plain(Literal('[')), i + 1)
      else (Set(At(pat, i + 1) == '!', Items(Marks(pat, ClassStart(pat, i), e))), e + 1)
  }

  function ManualTokens(pat: string, i: nat): seq<Reading>
    requires i <= |pat|
    decreases |pat| - i
  {
    if i == |pat| then [] else [ManualNext(pat, i).0] + ManualTokens(pat, ManualNext(pat, i).1)
  }

  function ReadAll(ts: seq<Token>): seq<Reading> {
    if ts == [] then [] else [Read(ts[0])] + ReadAll(ts[1..])
  }

  /** No class that the code finds has a backslash among its members. */
  predicate SlashFree(ts: seq<Token>) {
    ts == [] || ((ts[0].Class? ==> '\\' !in ts[0].body) && SlashFree(ts[1..]))
  }

  // ---------------------------------------------------------------- without backslashes

  lemma {:induction false} CloseWithoutSlash(pat: string, i: nat)
    requires i <= |pat| && (Close(pat, i) < |pat| ==> '\\' !in pat[i..Close(pat, i)])
    ensures ManualClose(pat, i) == Close(pat, i)
    decreases |pat| - i
  {
    var e := Close(pat, i);
    if e == |pat| {
      NoneCloses(pat, i);
    } else if i < e {
      assert pat[i] in pat[i..e] && pat[i + 1..e] == pat[i..e][1..];
      CloseWithoutSlash(pat, i + 1);
    }
  }

  lemma {:induction false} NoneCloses(pat: string, i: nat)
    requires i <= |pat| && Close(pat, i) == |pat|
    ensures ManualClose(pat, i) == |pat|
    decreases |pat| - i
  {
    if i < |pat| {
      if pat[i] == '\\' && i + 1 < |pat| {
        assert Close(pat, i + 1) == |pat|;
        NoneCloses(pat, i + 2);
      } else {
        NoneCloses(pat, i + 1);
      }
    }
  }

  lemma {:induction false} MarksWithoutSlash(pat: string, i: nat, e: nat)
    requires i <= e <= |pat| && '\\' !in pat[i..e]
    ensures Marks(pat, i, e) == Unescaped(pat[i..e])
    decreases e - i
  {
    if i < e {
      assert pat[i] in pat[i..e] && pat[i + 1..e] == pat[i..e][1..];
      MarksWithoutSlash(pat, i + 1, e);
      assert Unescaped(pat[i..e]) == [Mark(pat[i], false)] + Unescaped(pat[i + 1..e]);
    }
  }

  // ---------------------------------------------------------------- with a backslash

  function Slashes(n: nat): string {
    if n == 0 then [] else ['\\'] + Slashes(n - 1)
  }

  /** Behind a run of backslashes that the code has read in full, and the manual by halves,
      the two texts never meet again. */
  lemma {:induction false} RunDiffers(pat: string, j: nat, e: nat, n: nat)
    requires j <= e < |pat| && pat[e] == ']' && n > 0
    ensures Slashes(n) + pat[j..e] != Chars(Marks(pat, j, ManualClose(pat, j)))
    decreases |pat| - j
  {
    var end := ManualClose(pat, j);
    var theirs := Chars(Marks(pat, j, end));
    if theirs != [] && theirs[0] == '\\' {
      assert pat[j] == '\\' && j + 2 <= e;
      assert pat[j..e] == ['\\', '\\'] + pat[j + 2..e];
      RunDiffers(pat, j + 2, e, n + 1);
      assert theirs[1..] == Chars(Marks(pat, j + 2, end));
      SlashesMore(n, pat[j + 2..e]);
    }
  }

  lemma SlashesMore(n: nat, rest: string)
    requires n > 0
    ensures (Slashes(n) + (['\\', '\\'] + rest))[1..] == Slashes(n + 1) + rest
  {
    SlashesCommute(n - 1);
    assert Slashes(n) + ['\\', '\\'] == ['\\'] + (Slashes(n - 1) + ['\\']) + ['\\'];
    SlashesCommute(n);
  }

  lemma {:induction false} SlashesCommute(n: nat)
    ensures Slashes(n) + ['\\'] == Slashes(n + 1)
  {
    if n > 0 {
      SlashesCommute(n - 1);
      assert Slashes(n) + ['\\'] == ['\\'] + (Slashes(n - 1) + ['\\']);
    }
  }

  /** A body with a backslash is never what the manual reads from the same place. */
  lemma {:induction false} BodyDiffers(pat: string, i: nat, e: nat)
    requires i <= e < |pat| && pat[e] == ']' && '\\' in pat[i..e]
    ensures pat[i..e] != Chars(Marks(pat, i, ManualClose(pat, i)))
    decreases |pat| - i
  {
    var end := ManualClose(pat, i);
    var theirs := Chars(Marks(pat, i, end));
    assert pat[i..e] == [pat[i]] + pat[i + 1..e];
    if pat[i] == '\\' {
      if theirs[0] == '\\' {
        assert i + 2 <= e && pat[i + 1..e] == ['\\'] + pat[i + 2..e];
        RunDiffers(pat, i + 2, e, 1);
        assert Slashes(1) == ['\\'];
        assert theirs[1..] == Chars(Marks(pat, i + 2, end));
      }
    } else if pat[i] != ']' {
      BodyDiffers(pat, i + 1, e);
      assert theirs[1..] == Chars(Marks(pat, i + 1, end));
    }
  }

  // ---------------------------------------------------------------- where code and manual agree

  predicate SlashFreeToken(t: Token) {
    t.Class? ==> '\\' !in t.body
  }

  lemma SliceTail(pat: string, s: nat, t: nat, e: nat)
    requires s <= t <= e <= |pat|
    ensures pat[t..e] == pat[s..e][t - s..]
  {
  }

  lemma ClassWithoutSlash(pat: string, i: nat)
    requires i < |pat| && ClassEnd(pat, i) < |pat| && '\\' !in pat[ClassStart(pat, i)..ClassEnd(pat, i)]
    ensures ManualEnd(pat, i) == ClassEnd(pat, i)
    ensures Marks(pat, ClassStart(pat, i), ClassEnd(pat, i)) == Unescaped(pat[ClassStart(pat, i)..ClassEnd(pat, i)])
  {
    var s, e := ClassStart(pat, i), ClassEnd(pat, i);
    SliceTail(pat, s, CloseFrom(pat, s), e);
    CloseWithoutSlash(pat, CloseFrom(pat, s));
    MarksWithoutSlash(pat, s, e);
  }

  lemma BodiesDiffer(pat: string, s: nat, e: nat)
    requires s <= e < |pat| && CloseFrom(pat, s) <= e && pat[e] == ']' && '\\' in pat[s..e]
    ensures pat[s..e] != Chars(Marks(pat, s, ManualClose(pat, CloseFrom(pat, s))))
  {
    var t := CloseFrom(pat, s);
    var theirs := Chars(Marks(pat, s, ManualClose(pat, t)));
    if t == s + 1 {
      assert pat[s..e] == [']'] + pat[t..e];
      BodyDiffers(pat, t, e);
      assert theirs[1..] == Chars(Marks(pat, t, ManualClose(pat, t)));
    } else {
      BodyDiffers(pat, s, e);
    }
  }

  lemma ItemsDiffer(body: string, marks: seq<Mark>)
    requires body != Chars(marks)
    ensures Items(Unescaped(body)) != Items(marks)
  {
    TextOfItems(marks);
    TextOfItems(Unescaped(body));
    assert Chars(Unescaped(body)) == body;
  }

  lemma ClassWithSlash(pat: string, i: nat)
    requires i < |pat| && ClassEnd(pat, i) < |pat| && '\\' in pat[ClassStart(pat, i)..ClassEnd(pat, i)]
    ensures Items(Marks(pat, ClassStart(pat, i), ManualEnd(pat, i))) !=
            Items(Unescaped(pat[ClassStart(pat, i)..ClassEnd(pat, i)]))
  {
    var s, e := ClassStart(pat, i), ClassEnd(pat, i);
    BodiesDiffer(pat, s, e);
    ItemsDiffer(pat[s..e], Marks(pat, s, ManualEnd(pat, i)));
  }

  lemma TokenAgreesIff(pat: string, i: nat)
    requires i < |pat|
    ensures ManualNext(pat, i).0 == Read(Next(pat, i).0) <==> SlashFreeToken(Next(pat, i).0)
    ensures SlashFreeToken(Next(pat, i).0) ==> ManualNext(pat, i).1 == Next(pat, i).1
  {
    if pat[i] == '[' {
      var s, e := ClassStart(pat, i), ClassEnd(pat, i);
      if e == |pat| {
        NoneCloses(pat, CloseFrom(pat, s));
      } else if '\\' in pat[s..e] {
        ClassWithSlash(pat, i);
      } else {
        ClassWithoutSlash(pat, i);
      }
    }
  }

  lemma {:induction false} TokensAgreeIff(pat: string, i: nat)
    requires i <= |pat|
    ensures ManualTokens(pat, i) == ReadAll(Tokens(pat, i)) <==> SlashFree(Tokens(pat, i))
    decreases |pat| - i
  {
    if i < |pat| {
      TokenAgreesIff(pat, i);
      TokensAgreeIff(pat, Next(pat, i).1);
      var ts := Tokens(pat, i);
      assert ts[1..] == Tokens(pat, Next(pat, i).1);
      assert ReadAll(ts)[1..] == ReadAll(ts[1..]);
      assert ManualTokens(pat, i)[1..] == ManualTokens(pat, ManualNext(pat, i).1);
    }
  }

  /** The manual and the code read a pattern as the same tokens exactly when no class of it
      has a backslash between its brackets. */
  lemma ManualAgreesIff(pat: string)
    ensures ManualTokens(pat, 0) == ReadAll(Tokens(pat, 0)) <==>
            forall t :: t in Tokens(pat, 0) && t.Class? ==> '\\' !in t.body
  {
    TokensAgreeIff(pat, 0);
    SlashFreeIff(Tokens(pat, 0));
  }

  lemma {:induction false} SlashFreeIff(ts: seq<Token>)
    ensures SlashFree(ts) <==> forall t :: t in ts && t.Class? ==> '\\' !in t.body
  {
    if ts != [] {
      SlashFreeIff(ts[1..]);
      assert ts == [ts[0]] + ts[1..];
    }
  }

  predicate ManualMatches(rs: seq<Reading>, s: string)
    decreases |rs|, |s|
  {
    if rs == [] then s == []
    else if rs[0] == Plain(Star) then ManualMatches(rs[1..], s) || (s != [] && ManualMatches(rs, s[1..]))
    else s != [] && Admits(rs[0], s[0]) && ManualMatches(rs[1..], s[1..])
  }

  lemma {:induction false} ReadMatches(ts: seq<Token>, s: string)
    ensures ManualMatches(ReadAll(ts), s) <==> Matches(ts, s)
    decreases |ts|, |s|
  {
    if ts != [] {
      assert ReadAll(ts)[1..] == ReadAll(ts[1..]);
      if ts[0].Star? {
        ReadMatches(ts[1..], s);
        if s != [] {
          ReadMatches(ts, s[1..]);
        }
      } else if s != [] {
        ReadAdmits(ts[0], s[0]);
        ReadMatches(ts[1..], s[1..]);
      }
    }
  }

  /** Then it matches, by the manual, the names the code matches. */
  lemma ManualMatchesAlike(pat: string, name: string)
    requires forall t :: t in Tokens(pat, 0) && t.Class? ==> '\\' !in t.body
    ensures ManualMatches(ManualTokens(pat, 0), name) <==> GlobMatch(pat, name)
  {
    ManualAgreesIff(pat);
    ReadMatches(Tokens(pat, 0), name);
  }
}
