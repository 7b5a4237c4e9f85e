/** Text as the C++ sources see it: NUL-terminated views, single-byte case folding,
    `std::getline` splitting and decimal printing. */
module CStrings {

  /** What a `const char*` obtained from `s.c_str()` denotes: `s` up to its first NUL. */
  function CStr(s: string): (r: string)
    ensures r <= s && '\0' !in r
    ensures r == s || s[|r|] == '\0'
  {
    if s == [] || s[0] == '\0' then [] else [s[0]] + CStr(s[1..])
  }

  /** `p[i]` for a NUL-terminated view: the terminator is read one past the end. */
  function At(s: string, i: nat): char {
    if i < |s| then s[i] else '\0'
  }

  /** `std::tolower` in the "C" locale. */
  function Lower(c: char): char {
    if 'A' <= c <= 'Z' then (c as int + 32) as char else c
  }

  /** The capital letters become the small ones, in their order; nothing else changes. */
  lemma LowerMovesCapitals(c: char)
    ensures if 'A' <= c <= 'Z' then 'a' <= Lower(c) <= 'z' && Lower(c) - 'a' == c - 'A' else Lower(c) == c
  {
  }

  function LowerAll(s: string): (r: string)
    ensures |r| == |s| && forall i :: 0 <= i < |s| ==> r[i] == Lower(s[i])
  {
    seq(|s|, i requires 0 <= i < |s| => Lower(s[i]))
  }

  /** Position of the first `d` in `s`, or `|s|`. */
  function Find(s: string, d: char): (i: nat)
    ensures i <= |s| && d !in s[..i] && (i < |s| ==> s[i] == d)
  {
    if s == [] || s[0] == d then 0 else
      var j := Find(s[1..], d);
      assert s[..1 + j] == [s[0]] + s[1..][..j];
      1 + j
  }

  lemma FindIs(a: string, d: char, b: string)
    requires d !in a
    ensures Find(a + [d] + b, d) == |a| && Find(a, d) == |a|
  {
    assert (a + [d] + b)[|a|] == d;
  }

  /** The parts a `while (std::getline(stream, part, d))` loop visits: a final
      delimiter does not open another, empty, part. */
  function GetLines(s: string, d: char): seq<string>
    decreases |s|
  {
    if s == [] then [] else
      var i := Find(s, d);
      [s[..i]] + if i < |s| then GetLines(s[i + 1..], d) else []
  }

  /** The loop itself, over a stream that starts at the front of `s`. */
  method ReadLines(s: string, d: char) returns (parts: seq<string>)
    ensures parts == GetLines(s, d)
  {
    parts := [];
    var rest := s;
    while rest != []
      invariant parts + GetLines(rest, d) == GetLines(s, d)
      decreases |rest|
    {
      var i := Find(rest, d);
      parts := parts + [rest[..i]];
      rest := if i < |rest| then rest[i + 1..] else [];
    }
  }

  function Join(parts: seq<string>, d: char): string {
    if |parts| == 0 then []
    else if |parts| == 1 then parts[0]
    else parts[0] + [d] + Join(parts[1..], d)
  }

  predicate Digits(s: string) {
    forall i :: 0 <= i < |s| ==> '0' <= s[i] <= '9'
  }

  /** `std::to_string` of an unsigned number. */
  function Decimal(n: nat): (s: string)
    ensures s != [] && Digits(s)
  {
    (if n < 10 then [] else Decimal(n / 10)) + [(n % 10 + 48) as char]
  }

  /** The number a string of decimal digits denotes. */
  function Value(s: string): nat
    requires Digits(s)
  {
    if s == [] then 0 else 10 * Value(s[..|s| - 1]) + (s[|s| - 1] as int - 48)
  }

  lemma {:induction false} ValueOfDecimal(n: nat)
    ensures Value(Decimal(n)) == n
  {
    var s := Decimal(n);
    if n >= 10 {
      ValueOfDecimal(n / 10);
      assert s[..|s| - 1] == Decimal(n / 10);
    } else {
      assert s[..|s| - 1] == [];
    }
  }

  /** Two counters never print alike. */
  lemma DecimalInjective(m: nat, n: nat)
    requires Decimal(m) == Decimal(n)
    ensures m == n
  {
    ValueOfDecimal(m);
    ValueOfDecimal(n);
  }
}
