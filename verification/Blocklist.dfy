/** The application blocklist of the capture API: a pattern list edited in place, and the
    decision whether a process path is blocked. */
module Blocklist {
  import opened CaptureApi
  import opened CStrings
  import opened Glob
  import opened GlobFolding
  import opened Wrappers

  // ---------------------------------------------------------------- text helpers

  predicate Separator(c: char) {
    c == '/' || c == '\\'
  }

  /** The file name of a path: what follows the last separator. */
  function Basename(path: string): (name: string)
    ensures |name| <= |path| && name == path[|path| - |name|..]
    ensures forall c :: c in name ==> !Separator(c)
    ensures |name| < |path| ==> Separator(path[|path| - |name| - 1])
  {
    if path == [] || Separator(path[|path| - 1]) then [] else
      Basename(path[..|path| - 1]) + [path[|path| - 1]]
  }

  predicate Blank(c: char) {
    c == ' ' || c == '\t'
  }

  /** Blanks cut off at both ends, as `find_first_not_of` and `find_last_not_of` do. */
  function Trim(s: string): string {
    if s == [] then []
    else if Blank(s[0]) then Trim(s[1..])
    else if Blank(s[|s| - 1]) then Trim(s[..|s| - 1])
    else s
  }

  /** Blanks around a text that neither starts nor ends with one are what is cut off. */
  lemma {:induction false} TrimCutsBlanks(left: string, s: string, right: string)
    requires forall i :: 0 <= i < |left| ==> Blank(left[i])
    requires forall i :: 0 <= i < |right| ==> Blank(right[i])
    requires s != [] ==> !Blank(s[0]) && !Blank(s[|s| - 1])
    ensures Trim(left + s + right) == s
    decreases |left| + |right|
  {
    var t := left + s + right;
    if left != [] {
      assert t[1..] == left[1..] + s + right;
      TrimCutsBlanks(left[1..], s, right);
    } else if s == [] && right != [] {
      assert t[1..] == [] + s + right[1..];
      TrimCutsBlanks([], s, right[1..]);
    } else if right != [] {
      assert t[..|t| - 1] == [] + s + right[..|right| - 1];
      TrimCutsBlanks([], s, right[..|right| - 1]);
    } else {
      assert t == s;
    }
  }

  /** A line of a blocklist file as a pattern, if it holds one. */
  function Entry(line: string): Option<string> {
    var t := Trim(if line != [] && line[|line| - 1] == '\r' then line[..|line| - 1] else line);
    if t == [] || t[0] == '#' then None else Some(t)
  }

  ghost predicate AllBlank(s: string) {
    forall i :: 0 <= i < |s| ==> Blank(s[i])
  }

  lemma {:induction false} TrimParts(s: string) returns (left: string, right: string)
    ensures s == left + Trim(s) + right && AllBlank(left) && AllBlank(right)
    ensures Trim(s) != [] ==> !Blank(Trim(s)[0]) && !Blank(Trim(s)[|Trim(s)| - 1])
    decreases |s|
  {
    hide Blank;
    left, right := [], [];
    if s != [] && Blank(s[0]) {
      left, right := TrimParts(s[1..]);
      left := [s[0]] + left;
    } else if s != [] && Blank(s[|s| - 1]) {
      left, right := TrimParts(s[..|s| - 1]);
      right := right + [s[|s| - 1]];
    }
  }

  /** A line, taken without one carriage return at its end, holds `p`: blanks, then `p`, which
      is no comment and has no blanks at its ends, then blanks. */
  ghost predicate Holds(line: string, p: string) {
    && p != [] && p[0] !in " \t#" && p[|p| - 1] !in " \t"
    && exists left, right :: AllBlank(left) && AllBlank(right)
         && (line == left + p + right + "\r"
             || (line == left + p + right && line[|line| - 1] != '\r'))
  }

  ghost predicate Padded(text: string, p: string) {
    exists left, right :: AllBlank(left) && AllBlank(right) && text == left + p + right
  }

  lemma TrimIs(text: string, p: string)
    requires p != [] && p[0] !in " \t#" && p[|p| - 1] !in " \t"
    ensures Trim(text) == p <==> Padded(text, p)
  {
    hide Trim;
    if Trim(text) == p {
      var left, right := TrimParts(text);
    }
    if Padded(text, p) {
      var left, right :| AllBlank(left) && AllBlank(right) && text == left + p + right;
      TrimCutsBlanks(left, p, right);
    }
  }

  lemma WithReturn(text: string, line: string, p: string)
    requires line == text + "\r" && p != []
    ensures Padded(text, p) <==>
            exists left, right :: AllBlank(left) && AllBlank(right) && line == left + p + right + "\r"
  {
    if Padded(text, p) {
      var left, right :| AllBlank(left) && AllBlank(right) && text == left + p + right;
      assert line == left + p + right + "\r";
    }
    forall left, right | AllBlank(left) && AllBlank(right) && line == left + p + right + "\r" ensures Padded(text, p) {
      assert line[..|line| - 1] == left + p + right;
    }
  }

  /** What a line of the file says. */
  lemma EntryIff(line: string, p: string)
    ensures Entry(line) == Some(p) <==> Holds(line, p)
  {
    hide Trim;
    var text := if line != [] && line[|line| - 1] == '\r' then line[..|line| - 1] else line;
    var left, right := TrimParts(text);
    if p != [] && p[0] !in " \t#" && p[|p| - 1] !in " \t" {
      TrimIs(text, p);
      if text != line {
        assert line == text + "\r";
        WithReturn(text, line, p);
      }
    }
  }

  /** What is left starts with the first character that is no blank. */
  lemma TrimStarts(text: string, k: nat)
    requires k < |text| && !Blank(text[k]) && AllBlank(text[..k])
    ensures Trim(text) != [] && Trim(text)[0] == text[k]
  {
    hide Trim;
    var left, right := TrimParts(text);
    var t := Trim(text);
    assert forall j :: 0 <= j < k ==> text[j] == text[..k][j];
    assert forall j :: 0 <= j < |left| ==> text[j] == left[j];
    assert forall j :: 0 <= j < |right| ==> text[|left| + |t| + j] == right[j];
    assert t != [] ==> text[|left|] == t[0];
  }

  /** Nothing but blanks is no entry. */
  lemma BlankIsNoEntry(blanks: string)
    requires AllBlank(blanks)
    ensures Entry(blanks).None? && Entry(blanks + "\r").None?
  {
    TrimCutsBlanks(blanks, [], []);
    assert blanks + [] + [] == blanks && (blanks + "\r")[..|blanks|] == blanks;
  }

  /** Nor is a comment, whatever it says. */
  lemma CommentIsNoEntry(blanks: string, comment: string)
    requires AllBlank(blanks)
    ensures Entry(blanks + "#" + comment).None?
  {
    hide Trim;
    var line := blanks + "#" + comment;
    var text := if line[|line| - 1] == '\r' then line[..|line| - 1] else line;
    assert line[|blanks|] == '#' && line[..|blanks|] == blanks;
    assert text[..|blanks|] == blanks;
    TrimStarts(text, |blanks|);
  }

  function Entries(lines: seq<string>): seq<string> {
    if lines == [] then [] else
      (match Entry(lines[0]) case None => [] case Some(p) => [p]) + Entries(lines[1..])
  }

  lemma {:induction false} EntriesSnoc(lines: seq<string>, line: string)
    ensures Entries(lines + [line]) ==
            Entries(lines) + match Entry(line) case None => [] case Some(p) => [p]
  {
    if lines != [] {
      EntriesSnoc(lines[1..], line);
      assert (lines + [line])[1..] == lines[1..] + [line];
    }
  }

  lemma {:induction false} EntriesJoin(a: seq<string>, b: seq<string>)
    requires Entries([]) == []
    ensures Entries(a + b) == Entries(a) + Entries(b)
  {
    hide Entries, Entry;
    if b == [] {
      assert a + b == a;
    } else {
      var front, line := b[..|b| - 1], b[|b| - 1];
      EntriesJoin(a, front);
      assert a + b == (a + front) + [line] && b == front + [line];
      EntriesSnoc(a + front, line);
      EntriesSnoc(front, line);
    }
  }

  /** A file's entries are those of its lines, in their order. */
  lemma EntriesAreLineByLine(a: seq<string>, b: seq<string>, line: string)
    ensures Entries(a + b) == Entries(a) + Entries(b)
    ensures Entries([line]) == match Entry(line) case None => [] case Some(p) => [p]
  {
    hide Entry;
    EntriesJoin(a, b);
    EntriesSnoc([], line);
    assert [] + [line] == [line];
  }

  // ---------------------------------------------------------------- the list as a value

  /** How two patterns are compared when entries are added and removed. */
  predicate Same(caseSensitive: bool, a: string, b: string) {
    if caseSensitive then a == b else LowerAll(a) == LowerAll(b)
  }

  /** Index of the first entry that compares equal to `p`, or the length. */
  function IndexOf(cs: bool, patterns: seq<string>, p: string): (i: nat)
    ensures i <= |patterns| && (i < |patterns| ==> Same(cs, patterns[i], p))
    ensures forall j :: 0 <= j < i ==> !Same(cs, patterns[j], p)
  {
    if patterns == [] || Same(cs, patterns[0], p) then 0 else 1 + IndexOf(cs, patterns[1..], p)
  }

  predicate Has(cs: bool, patterns: seq<string>, p: string) {
    IndexOf(cs, patterns, p) < |patterns|
  }

  function Added(cs: bool, patterns: seq<string>, p: string): seq<string> {
    if Has(cs, patterns, p) then patterns else patterns + [p]
  }

  function Removed(cs: bool, patterns: seq<string>, p: string): seq<string> {
    var i := IndexOf(cs, patterns, p);
    if i < |patterns| then patterns[..i] + patterns[i + 1..] else patterns
  }

  /** Entries of a file join one by one; only exact copies are left out. */
  function Merged(patterns: seq<string>, more: seq<string>): seq<string>
    decreases more
  {
    if more == [] then patterns else Merged(Added(true, patterns, more[0]), more[1..])
  }

  ghost predicate Distinct(cs: bool, patterns: seq<string>) {
    forall i, j :: 0 <= i < j < |patterns| ==> !Same(cs, patterns[i], patterns[j])
  }

  /** One entry blocks a process name. */
  predicate EntryBlocks(cs: bool, p: string, name: string) {
    if cs then GlobMatch(CStr(p), CStr(name)) else GlobMatch(CStr(LowerAll(p)), CStr(LowerAll(name)))
  }

  predicate BlocksName(cs: bool, patterns: seq<string>, name: string) {
    patterns != [] && (EntryBlocks(cs, patterns[0], name) || BlocksName(cs, patterns[1..], name))
  }

  /** What the blocklist is for: the path has a file name and some entry matches it. */
  predicate Blocks(cs: bool, patterns: seq<string>, path: string) {
    Basename(path) != [] && BlocksName(cs, patterns, Basename(path))
  }

  lemma {:induction false} BlocksIffSomeEntry(cs: bool, patterns: seq<string>, name: string)
    ensures BlocksName(cs, patterns, name) <==> exists p :: p in patterns && EntryBlocks(cs, p, name)
  {
    if patterns != [] {
      BlocksIffSomeEntry(cs, patterns[1..], name);
      assert patterns == [patterns[0]] + patterns[1..];
    }
  }

  lemma {:induction false} BlocksConcat(cs: bool, a: seq<string>, b: seq<string>, name: string)
    ensures BlocksName(cs, a + b, name) == (BlocksName(cs, a, name) || BlocksName(cs, b, name))
  {
    if a == [] {
      assert a + b == b;
    } else {
      BlocksConcat(cs, a[1..], b, name);
      assert (a + b)[1..] == a[1..] + b;
    }
  }

  /** The path is `dir`, which is empty or ends with a separator, and a file name. */
  predicate IsPath(path: string, dir: string, name: string) {
    path == dir + name && name != [] && '/' !in name && '\\' !in name && (dir != [] ==> dir[|dir| - 1] in "/\\")
  }

  /** A path is blocked exactly when it ends in a file name that some entry matches. */
  lemma BlocksIff(cs: bool, patterns: seq<string>, path: string)
    ensures Blocks(cs, patterns, path) <==>
            exists dir, name, p :: IsPath(path, dir, name) && p in patterns && EntryBlocks(cs, p, name)
  {
    hide EntryBlocks, BlocksName;
    var base := Basename(path);
    BlocksIffSomeEntry(cs, patterns, base);
    if Blocks(cs, patterns, path) {
      var p :| p in patterns && EntryBlocks(cs, p, base);
      assert IsPath(path, path[..|path| - |base|], base) by {
        hide Basename;
      }
    }
    forall dir, name | IsPath(path, dir, name) ensures base == name {
      hide Basename;
      BasenameIs(dir, name);
    }
  }

  /** `i` is where the file name begins. */
  ghost predicate NameFrom(path: string, i: int) {
    && 0 <= i <= |path| && (forall k :: i <= k < |path| ==> !Separator(path[k]))
    && (i > 0 ==> Separator(path[i - 1]))
  }

  lemma OneName(path: string, i: int, j: int)
    requires NameFrom(path, i) && NameFrom(path, j)
    ensures i == j
  {
  }

  lemma BasenameFrom(path: string)
    ensures NameFrom(path, |path| - |Basename(path)|)
  {
    hide Basename;
    var base := Basename(path);
    assert forall k :: 0 <= k < |base| ==> path[|path| - |base|..][k] == base[k] && base[k] in base;
    assert forall k :: |path| - |base| <= k < |path| ==> path[k] == base[k - (|path| - |base|)];
  }

  lemma PartsNameFrom(dir: string, name: string)
    requires '/' !in name && '\\' !in name && (dir != [] ==> dir[|dir| - 1] in "/\\")
    ensures NameFrom(dir + name, |dir|)
  {
    var path := dir + name;
    assert forall k :: |dir| <= k < |path| ==> path[k] == name[k - |dir|];
    assert forall k :: 0 <= k < |name| ==> name[k] in name;
  }

  lemma BasenameIs(dir: string, name: string)
    requires '/' !in name && '\\' !in name && (dir != [] ==> dir[|dir| - 1] in "/\\")
    ensures Basename(dir + name) == name
  {
    hide Basename, NameFrom, Separator;
    var path := dir + name;
    PartsNameFrom(dir, name);
    BasenameFrom(path);
    OneName(path, |dir|, |path| - |Basename(path)|);
    assert path[|dir|..] == name;
  }

  lemma {:induction false} EscapeHasNoTerminator(s: string)
    requires '\0' !in s
    ensures '\0' !in Escape(s)
  {
    if s != [] {
      EscapeHasNoTerminator(s[1..]);
    }
  }

  lemma {:induction false} LowerEscape(s: string)
    ensures LowerAll(Escape(s)) == Escape(LowerAll(s))
  {
    if s != [] {
      LowerEscape(s[1..]);
      var head := if Special(s[0]) then "\\" + [s[0]] else [s[0]];
      assert Escape(s) == head + Escape(s[1..]);
      assert LowerAll(Escape(s)) == LowerAll(head) + LowerAll(Escape(s[1..]));
      assert LowerAll(s)[1..] == LowerAll(s[1..]);
    }
  }

  lemma NoTerminator(s: string)
    requires '\0' !in s
    ensures CStr(s) == s
  {
  }

  /** A text, escaped, blocks that very name; where case is ignored, every name that differs
      from it in case only. */
  lemma EscapedBlocksItself(s: string, name: string)
    requires '\0' !in s && '\0' !in name
    ensures EntryBlocks(true, Escape(s), name) <==> name == s
    ensures EntryBlocks(false, Escape(s), name) <==>
            |name| == |s| && forall i :: 0 <= i < |s| ==> Lower(name[i]) == Lower(s[i])
  {
    EscapeHasNoTerminator(s);
    NoTerminator(Escape(s));
    NoTerminator(name);
    LowerEscape(s);
    LowerHasNoTerminator(Escape(s));
    LowerHasNoTerminator(name);
    EscapeIsExact(s, name);
    EscapeIsExact(LowerAll(s), LowerAll(name));
  }

  /** Where case counts, an entry blocks the names its pattern matches. */
  lemma CaseSensitiveEntryIsItsPattern(p: string, name: string)
    requires '\0' !in p && '\0' !in name
    ensures EntryBlocks(true, p, name) <==> GlobMatch(p, name)
  {
    NoTerminator(p);
    NoTerminator(name);
  }

  // ---------------------------------------------------------------- properties of the list

  /** An entry that none compares equal to comes last; any other changes nothing. */
  lemma AddedIsLast(cs: bool, patterns: seq<string>, p: string)
    ensures Added(cs, patterns, p) ==
            if exists q :: q in patterns && Same(cs, q, p) then patterns else patterns + [p]
  {
  }

  /** The first entry that compares equal is taken out, the others keep their order. */
  lemma FirstIsRemoved(cs: bool, before: seq<string>, q: string, after: seq<string>, p: string)
    requires forall x :: x in before ==> !Same(cs, x, p)
    ensures Removed(cs, before, p) == before
    ensures Same(cs, q, p) ==> Removed(cs, before + [q] + after, p) == before + after
  {
    hide Same, IndexOf;
    var all := before + [q] + after;
    assert all[|before|] == q && all[..|before|] == before && all[|before| + 1..] == after;
    assert forall j :: 0 <= j < |before| ==> all[j] == before[j] && before[j] in before;
  }

  /** Entries of a file join one by one, each last unless the list has that very entry. */
  lemma {:induction false} MergeIsOneByOne(patterns: seq<string>, a: seq<string>, b: seq<string>, p: string)
    ensures Merged(patterns, a + b) == Merged(Merged(patterns, a), b)
    ensures Merged(patterns, [p]) == if p in patterns then patterns else patterns + [p]
    decreases |a|
  {
    hide Added;
    MergeOne(patterns, p);
    if a == [] {
      assert a + b == b;
    } else {
      MergeIsOneByOne(Added(true, patterns, a[0]), a[1..], b, p);
      assert (a + b)[1..] == a[1..] + b;
    }
  }

  lemma MergeOne(patterns: seq<string>, p: string)
    ensures Merged(patterns, [p]) == if p in patterns then patterns else patterns + [p]
  {
    HasIffIn(patterns, p);
    assert [p][1..] == [];
  }

  lemma HasIffIn(patterns: seq<string>, p: string)
    ensures Has(true, patterns, p) <==> p in patterns
  {
  }

  lemma AddKeepsDistinct(cs: bool, patterns: seq<string>, p: string)
    requires Distinct(cs, patterns)
    ensures Distinct(cs, Added(cs, patterns, p))
  {
  }

  lemma RemoveKeepsDistinct(cs: bool, patterns: seq<string>, p: string)
    requires Distinct(cs, patterns)
    ensures Distinct(cs, Removed(cs, patterns, p))
  {
    var i, r := IndexOf(cs, patterns, p), Removed(cs, patterns, p);
    if i < |patterns| {
      assert forall k :: 0 <= k < |r| ==> r[k] == patterns[if k < i then k else k + 1];
    }
  }

  lemma {:induction false} MergeKeepsExactDistinct(patterns: seq<string>, more: seq<string>)
    requires Distinct(true, patterns)
    ensures Distinct(true, Merged(patterns, more))
    decreases more
  {
    if more != [] {
      AddKeepsDistinct(true, patterns, more[0]);
      MergeKeepsExactDistinct(Added(true, patterns, more[0]), more[1..]);
    }
  }

  /** On a case-insensitive platform a file can bring in an entry that differs from an
      old one in case only. */
  lemma MergeCanBreakDistinct()
    ensures Distinct(false, ["a"]) && !Distinct(false, Merged(["a"], ["A"]))
  {
    assert Merged(["a"], ["A"]) == Merged(["a", "A"], []);
    assert LowerAll("a") == LowerAll("A");
    assert Same(false, ["a", "A"][0], ["a", "A"][1]);
  }

  lemma {:induction false} MergedHas(patterns: seq<string>, more: seq<string>, x: string)
    ensures x in Merged(patterns, more) <==> x in patterns || x in more
    decreases more
  {
    if more != [] {
      MergedHas(Added(true, patterns, more[0]), more[1..], x);
      HasIffIn(patterns, more[0]);
      assert more == [more[0]] + more[1..];
    }
  }

  /** Each entry of the file that compares equal to another, of the list or the file, is an
      exact copy of it. */
  ghost predicate OneSpelling(cs: bool, patterns: seq<string>, more: seq<string>) {
    forall x, y :: x in more && (y in patterns || y in more) && Same(cs, x, y) ==> x == y
  }

  /** Loading keeps the list free of entries that compare equal exactly when the file spells
      every entry as the list does, and in one way. */
  lemma MergeKeepsDistinctIff(cs: bool, patterns: seq<string>, more: seq<string>)
    requires Distinct(cs, patterns)
    ensures Distinct(cs, Merged(patterns, more)) <==> OneSpelling(cs, patterns, more)
  {
    if OneSpelling(cs, patterns, more) {
      OneSpellingSuffices(cs, patterns, more);
    } else {
      var x, y :| x in more && (y in patterns || y in more) && Same(cs, x, y) && x != y;
      TwoSpellingsClash(cs, patterns, more, x, y);
    }
  }

  lemma TwoSpellingsClash(cs: bool, patterns: seq<string>, more: seq<string>, x: string, y: string)
    requires x in more && (y in patterns || y in more) && Same(cs, x, y) && x != y
    ensures !Distinct(cs, Merged(patterns, more))
  {
    MergedHas(patterns, more, x);
    MergedHas(patterns, more, y);
    var r := Merged(patterns, more);
    var i :| 0 <= i < |r| && r[i] == x;
    var j :| 0 <= j < |r| && r[j] == y;
    assert if i < j then Same(cs, r[i], r[j]) else Same(cs, r[j], r[i]);
  }

  lemma OneSpellingSuffices(cs: bool, patterns: seq<string>, more: seq<string>)
    requires Distinct(cs, patterns) && OneSpelling(cs, patterns, more)
    ensures Distinct(cs, Merged(patterns, more))
  {
    MergeKeepsExactDistinct(patterns, more);
    var r := Merged(patterns, more);
    forall i, j | 0 <= i < j < |r| ensures !Same(cs, r[i], r[j]) {
      MergedHas(patterns, more, r[i]);
      MergedHas(patterns, more, r[j]);
      assert r[i] in r && r[j] in r && !Same(true, r[i], r[j]);
    }
  }

  /** Entries that compare equal block the same names. */
  lemma SameBlocksSame(cs: bool, p: string, q: string, name: string)
    requires Same(cs, p, q)
    ensures EntryBlocks(cs, p, name) == EntryBlocks(cs, q, name)
  {
  }

  lemma BlocksMember(cs: bool, patterns: seq<string>, i: nat, name: string)
    requires i < |patterns| && EntryBlocks(cs, patterns[i], name)
    ensures BlocksName(cs, patterns, name)
  {
    assert patterns[i] in patterns;
    BlocksIffSomeEntry(cs, patterns, name);
  }

  /** After an entry is added exactly its own names are blocked in addition, also when
      the entry was left out as a duplicate (`exact`: compared as a file's entries are). */
  lemma AddBlocks(cs: bool, exact: bool, patterns: seq<string>, p: string, path: string)
    ensures Blocks(cs, Added(cs || exact, patterns, p), path) <==> Blocks(cs, patterns, path) || Blocks(cs, [p], path)
  {
    var name, i := Basename(path), IndexOf(cs || exact, patterns, p);
    BlocksConcat(cs, patterns, [p], name);
    if i < |patterns| && EntryBlocks(cs, p, name) {
      SameBlocksSame(cs, patterns[i], p, name);
      BlocksMember(cs, patterns, i, name);
    }
  }

  /** Loading a file blocks exactly the union of both lists' names. */
  lemma {:induction false} MergeBlocks(cs: bool, patterns: seq<string>, more: seq<string>, path: string)
    ensures Blocks(cs, Merged(patterns, more), path) <==> Blocks(cs, patterns, path) || Blocks(cs, more, path)
    decreases more
  {
    if more != [] {
      var first, rest := more[0], more[1..];
      AddBlocks(cs, true, patterns, first, path);
      MergeBlocks(cs, Added(true, patterns, first), rest, path);
      assert more == [first] + rest;
      BlocksConcat(cs, [first], rest, Basename(path));
    }
  }

  /** Removing undoes adding, for an entry that was not there before. */
  lemma RemoveUndoesAdd(cs: bool, patterns: seq<string>, p: string)
    requires !Has(cs, patterns, p)
    ensures Has(cs, Added(cs, patterns, p), p) && Removed(cs, Added(cs, patterns, p), p) == patterns
  {
    var added := patterns + [p];
    assert added[|patterns|] == p;
    assert IndexOf(cs, added, p) == |patterns| by {
      assert forall j :: 0 <= j < |patterns| ==> added[j] == patterns[j];
    }
  }

  function Copies(cs: bool, patterns: seq<string>, p: string): nat {
    if patterns == [] then 0
    else (if Same(cs, patterns[0], p) then 1 else 0) + Copies(cs, patterns[1..], p)
  }

  lemma {:induction false} CopiesHas(cs: bool, patterns: seq<string>, p: string)
    ensures Has(cs, patterns, p) <==> Copies(cs, patterns, p) > 0
  {
    if patterns != [] {
      CopiesHas(cs, patterns[1..], p);
    }
  }

  /** A removed entry is really gone exactly when the list held at most one copy of it;
      a list with two spellings keeps blocking until both are removed. */
  lemma {:induction false} RemovedIsGoneIff(cs: bool, patterns: seq<string>, p: string)
    ensures !Has(cs, Removed(cs, patterns, p), p) <==> Copies(cs, patterns, p) <= 1
  {
    hide Same;
    CopiesHas(cs, patterns, p);
    if patterns != [] {
      var tail := patterns[1..];
      if Same(cs, patterns[0], p) {
        assert Removed(cs, patterns, p) == tail;
        CopiesHas(cs, tail, p);
      } else {
        RemovedIsGoneIff(cs, tail, p);
        CopiesHas(cs, tail, p);
        var r := Removed(cs, tail, p);
        assert Removed(cs, patterns, p) == [patterns[0]] + r;
        assert ([patterns[0]] + r)[1..] == r;
      }
    }
  }

  lemma {:induction false} DistinctHasOneCopy(cs: bool, patterns: seq<string>, p: string)
    requires Distinct(cs, patterns)
    ensures Copies(cs, patterns, p) <= 1
  {
    if patterns != [] {
      DistinctHasOneCopy(cs, patterns[1..], p);
      CopiesHas(cs, patterns[1..], p);
    }
  }

  /** From a list free of entries that compare equal a removed entry is always gone. */
  lemma DistinctRemovedIsGone(cs: bool, patterns: seq<string>, p: string)
    requires Distinct(cs, patterns)
    ensures !Has(cs, Removed(cs, patterns, p), p)
  {
    DistinctHasOneCopy(cs, patterns, p);
    RemovedIsGoneIff(cs, patterns, p);
  }

  lemma BlocksWithout(cs: bool, before: seq<string>, q: string, after: seq<string>, name: string)
    ensures BlocksName(cs, before + ([q] + after), name) ==
            (BlocksName(cs, before + after, name) || BlocksName(cs, [q], name))
  {
    BlocksConcat(cs, before, [q] + after, name);
    BlocksConcat(cs, [q], after, name);
    BlocksConcat(cs, before, after, name);
  }

  lemma SplitAt(patterns: seq<string>, i: nat)
    requires i < |patterns|
    ensures patterns == patterns[..i] + ([patterns[i]] + patterns[i + 1..])
  {
  }

  /** A removal takes away the entry's own names and no others. */
  lemma RemoveBlocks(cs: bool, patterns: seq<string>, p: string, path: string)
    requires Has(cs, patterns, p)
    ensures Blocks(cs, patterns, path) <==> Blocks(cs, Removed(cs, patterns, p), path) || Blocks(cs, [p], path)
  {
    hide Basename, EntryBlocks, Same;
    var i, name := IndexOf(cs, patterns, p), Basename(path);
    SplitAt(patterns, i);
    BlocksWithout(cs, patterns[..i], patterns[i], patterns[i + 1..], name);
    OneEntry(cs, patterns[i], p, name);
  }

  lemma OneEntry(cs: bool, q: string, p: string, name: string)
    requires Same(cs, q, p)
    ensures BlocksName(cs, [q], name) == BlocksName(cs, [p], name)
  {
    SameBlocksSame(cs, q, p, name);
    assert [q][1..] == [] && [p][1..] == [];
  }

  /** Case-insensitively, a list of patterns with case-safe ranges blocks what some entry
      matches modulo case. */
  lemma BlocksModuloCase(patterns: seq<string>, path: string)
    requires forall p :: p in patterns ==> '\0' !in p && TokensCaseSafe(Tokens(p, 0))
    requires '\0' !in path
    ensures Blocks(false, patterns, path) <==>
            Basename(path) != [] && exists p :: p in patterns && MatchesModuloCase(Tokens(p, 0), Basename(path))
  {
    var name := Basename(path);
    forall p | p in patterns
      ensures EntryBlocks(false, p, name) <==> MatchesModuloCase(Tokens(p, 0), name)
    {
      FoldedGlobIsModuloCase(p, name);
      LowerHasNoTerminator(p);
      LowerHasNoTerminator(name);
    }
    BlocksIffSomeEntry(false, patterns, name);
  }

  lemma LowerHasNoTerminator(s: string)
    requires '\0' !in s
    ensures CStr(LowerAll(s)) == LowerAll(s)
  {
    var t := LowerAll(s);
    assert forall i :: 0 <= i < |t| ==> s[i] in s && t[i] != '\0';
  }

  // ---------------------------------------------------------------- the class

  class ApiBlocklist {
    const caseSensitive: bool
    var patterns: seq<string>

    constructor (caseSensitive: bool, initial: seq<string>)
      ensures this.caseSensitive == caseSensitive && patterns == initial
    {
      this.caseSensitive := caseSensitive;
      patterns := initial;
    }

    /** The search shared by adding and removing. */
    method FindEntry(p: string) returns (i: nat)
      ensures i == IndexOf(caseSensitive, patterns, p)
    {
      i := 0;
      while i < |patterns| && !Same(caseSensitive, patterns[i], p)
        invariant i <= |patterns|
        invariant IndexOf(caseSensitive, patterns, p) == i + IndexOf(caseSensitive, patterns[i..], p)
        decreases |patterns| - i
      {
        assert patterns[i..][1..] == patterns[i + 1..];
        i := i + 1;
      }
    }

    method AddEntry(pattern: Option<string>) returns (result: CaptureResult)
      modifies this
      ensures pattern.None? || CStr(pattern.value) == [] ==>
                result == InvalidParams && patterns == old(patterns)
      ensures pattern.Some? && CStr(pattern.value) != [] ==>
                result == Success && patterns == Added(caseSensitive, old(patterns), CStr(pattern.value))
    {
      if pattern.None? || At(CStr(pattern.value), 0) == '\0' {
        return InvalidParams;
      }
      var p := CStr(pattern.value);
      var i := FindEntry(p);
      if i == |patterns| {
        patterns := patterns + [p];
      }
      return Success;
    }

    method RemoveEntry(pattern: Option<string>) returns (result: CaptureResult)
      modifies this
      ensures pattern.None? ==> result == InvalidParams && patterns == old(patterns)
      ensures pattern.Some? ==>
                && result == (if Has(caseSensitive, old(patterns), CStr(pattern.value)) then Success else NotFound)
                && patterns == Removed(caseSensitive, old(patterns), CStr(pattern.value))
    {
      if pattern.None? {
        return InvalidParams;
      }
      var i := FindEntry(CStr(pattern.value));
      if i == |patterns| {
        return NotFound;
      }
      patterns := patterns[..i] + patterns[i + 1..];
      return Success;
    }

    method Clear()
      modifies this
      ensures patterns == []
    {
      patterns := [];
    }

    /** `file` is the text of the file, if it can be opened. */
    method LoadFile(path: Option<string>, file: Option<string>) returns (result: CaptureResult)
      modifies this
      ensures path.None? || CStr(path.value) == [] ==> result == InvalidParams && patterns == old(patterns)
      ensures path.Some? && CStr(path.value) != [] ==>
                match file
                case None => result == NotFound && patterns == old(patterns)
                case Some(text) =>
                  result == Success && patterns == Merged(old(patterns), Entries(GetLines(text, '\n')))
    {
      if path.None? || At(CStr(path.value), 0) == '\0' {
        return InvalidParams;
      }
      if file.None? {
        return NotFound;
      }
      var more := ReadEntries(file.value);
      MergeEntries(more);
      return Success;
    }

    static method ReadEntries(text: string) returns (entries: seq<string>)
      ensures entries == Entries(GetLines(text, '\n'))
    {
      var lines := ReadLines(text, '\n');
      entries := [];
      var k := 0;
      while k < |lines|
        invariant k <= |lines| && entries == Entries(lines[..k])
      {
        assert lines[..k + 1] == lines[..k] + [lines[k]];
        EntriesSnoc(lines[..k], lines[k]);
        var entry := Entry(lines[k]);
        if entry.Some? {
          entries := entries + [entry.value];
        }
        k := k + 1;
      }
      assert lines[..k] == lines;
    }

    method MergeEntries(more: seq<string>)
      modifies this
      ensures patterns == Merged(old(patterns), more)
    {
      var k := 0;
      while k < |more|
        invariant k <= |more| && Merged(patterns, more[k..]) == Merged(old(patterns), more)
      {
        assert more[k..][1..] == more[k + 1..];
        HasIffIn(patterns, more[k]);
        if more[k] !in patterns {
          patterns := patterns + [more[k]];
        }
        k := k + 1;
      }
    }

    method Contains(processPath: string) returns (blocked: bool)
      ensures blocked <==> Blocks(caseSensitive, patterns, processPath)
    {
      var basename := Basename(processPath);
      if basename == [] {
        return false;
      }
      var name := if caseSensitive then basename else LowerAll(basename);
      var i := 0;
      while i < |patterns|
        invariant i <= |patterns|
        invariant BlocksName(caseSensitive, patterns, basename) == BlocksName(caseSensitive, patterns[i..], basename)
      {
        var pat := if caseSensitive then patterns[i] else LowerAll(patterns[i]);
        var matched, _ := MatchesWildcard(name, pat);
        assert matched == EntryBlocks(caseSensitive, patterns[i], basename);
        if matched {
          return true;
        }
        assert patterns[i..][1..] == patterns[i + 1..];
        i := i + 1;
      }
      return false;
    }
  }
}
