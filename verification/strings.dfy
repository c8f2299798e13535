/**
 * The Python `str` operations the grading code relies on, over `seq<char>`:
 * `sub in s`, `split`, `join`, `strip`, `lower`, `startswith`, `endswith`,
 * `partition` and `rpartition`.
 */
module Strings {
  import opened Common

  /** `sub` occurs in `s` starting at index `i`. */
  predicate SubAt(s: string, sub: string, i: int) {
    0 <= i && i + |sub| <= |s| && s[i..i + |sub|] == sub
  }

  /** Python's `sub in s` (the empty string occurs in every string). */
  predicate Contains(s: string, sub: string) {
    exists i | 0 <= i <= |s| - |sub| :: SubAt(s, sub, i)
  }

  /** Python's `s.startswith(prefix)`. */
  predicate StartsWith(s: string, prefix: string) {
    |prefix| <= |s| && s[..|prefix|] == prefix
  }

  /** Python's `s.endswith(suffix)`. */
  predicate EndsWith(s: string, suffix: string) {
    |suffix| <= |s| && s[|s| - |suffix|..] == suffix
  }

  /** Index of the first occurrence of `c` in `s`. */
  function IndexOf(s: string, c: char): (i: nat)
    requires c in s
    ensures i < |s| && s[i] == c && c !in s[..i]
  {
    if s[0] == c then 0
    else
      var j := IndexOf(s[1..], c);
      assert s[..j + 1] == [s[0]] + s[1..][..j];
      1 + j
  }

  /** Python's `s.split(c)` for a one-character separator: never empty. */
  function Split(s: string, c: char): (parts: seq<string>)
    ensures |parts| >= 1
    ensures forall k :: 0 <= k < |parts| ==> c !in parts[k]
    decreases |s|
  {
    if c !in s then [s]
    else
      var i := IndexOf(s, c);
      [s[..i]] + Split(s[i + 1..], c)
  }

  /** Python's `c.join(parts)`. */
  function Join(parts: seq<string>, c: char): string
  {
    if |parts| == 0 then ""
    else if |parts| == 1 then parts[0]
    else parts[0] + [c] + Join(parts[1..], c)
  }

  /** Joining the pieces of a split restores the string. */
  lemma {:induction false} JoinSplit(s: string, c: char)
    ensures Join(Split(s, c), c) == s
    decreases |s|
  {
    if c in s {
      var i := IndexOf(s, c);
      var rest := Split(s[i + 1..], c);
      JoinSplit(s[i + 1..], c);
      assert Split(s, c) == [s[..i]] + rest;
      assert (Split(s, c))[1..] == rest;
      assert s == s[..i] + [c] + s[i + 1..];
    }
  }

  /** The first separator of `a + [c] + b` is the one between them when `a` has none. */
  lemma IndexOfGlue(a: string, c: char, b: string)
    requires c !in a
    ensures c in a + [c] + b
    ensures IndexOf(a + [c] + b, c) == |a|
  {
    var s := a + [c] + b;
    assert s[|a|] == c;
    assert s[..|a|] == a;
    var i := IndexOf(s, c);
  }

  /** Splitting at a first separator glued after a separator-free piece yields that piece first. */
  lemma SplitGlue(a: string, c: char, b: string)
    requires c !in a
    ensures Split(a + [c] + b, c) == [a] + Split(b, c)
  {
    var s := a + [c] + b;
    IndexOfGlue(a, c, b);
    assert s[..|a|] == a;
    assert s[|a| + 1..] == b;
  }

  /** Splitting a join of separator-free pieces recovers the pieces. */
  lemma {:induction false} SplitJoin(parts: seq<string>, c: char)
    requires |parts| >= 1
    requires forall k :: 0 <= k < |parts| ==> c !in parts[k]
    ensures Split(Join(parts, c), c) == parts
    decreases |parts|
  {
    if |parts| == 1 {
      assert Join(parts, c) == parts[0];
    } else {
      var tail := Join(parts[1..], c);
      assert Join(parts, c) == parts[0] + [c] + tail;
      SplitGlue(parts[0], c, tail);
      SplitJoin(parts[1..], c);
      assert parts == [parts[0]] + parts[1..];
    }
  }

  /** `c` occurs in a join exactly when it is the separator of two or more pieces or occurs in a piece. */
  lemma {:induction false} JoinFree(parts: seq<string>, c: char, d: char)
    requires d != c
    requires forall k :: 0 <= k < |parts| ==> d !in parts[k]
    ensures d !in Join(parts, c)
    decreases |parts|
  {
    if |parts| > 1 {
      JoinFree(parts[1..], c, d);
    }
  }

  /** Python's whitespace test for `str.strip()` (the characters `str.isspace` accepts). */
  predicate IsSpace(ch: char) {
    || ch == ' ' || ch == '\t' || ch == '\n' || ch == '\r'
    || ch == '\U{000B}' || ch == '\U{000C}'
    || ('\U{001C}' <= ch <= '\U{001F}')
    || ch == '\U{0085}' || ch == '\U{00A0}' || ch == '\U{1680}'
    || ('\U{2000}' <= ch <= '\U{200A}')
    || ch == '\U{2028}' || ch == '\U{2029}' || ch == '\U{202F}'
    || ch == '\U{205F}' || ch == '\U{3000}'
  }

  /** Drops every leading character that `drop` accepts. */
  function StripLeftBy(s: string, drop: char -> bool): (r: string)
    ensures |r| <= |s| && r == s[|s| - |r|..]
    ensures |r| > 0 ==> !drop(r[0])
    ensures forall k :: 0 <= k < |s| - |r| ==> drop(s[k])
  {
    if |s| > 0 && drop(s[0]) then
      var r := StripLeftBy(s[1..], drop);
      assert forall k :: 1 <= k < |s| - |r| ==> s[k] == s[1..][k - 1];
      r
    else s
  }

  /** Drops every trailing character that `drop` accepts. */
  function StripRightBy(s: string, drop: char -> bool): (r: string)
    ensures |r| <= |s| && r == s[..|r|]
    ensures |r| > 0 ==> !drop(r[|r| - 1])
    ensures forall k :: |r| <= k < |s| ==> drop(s[k])
  {
    if |s| > 0 && drop(s[|s| - 1]) then StripRightBy(s[..|s| - 1], drop) else s
  }

  /** Python's `s.lstrip()`. */
  function LStrip(s: string): string {
    StripLeftBy(s, IsSpace)
  }

  /** Python's `s.strip()`. */
  function Strip(s: string): string {
    StripRightBy(StripLeftBy(s, IsSpace), IsSpace)
  }

  /** The test "is the character `ch`". */
  function Is(ch: char): char -> bool {
    x => x == ch
  }

  /** Python's `s.strip(ch)` for one character. */
  function StripChar(s: string, ch: char): string {
    StripRightBy(StripLeftBy(s, Is(ch)), Is(ch))
  }

  /** Dropping leading characters removes exactly a dropped prefix up to the first kept character. */
  lemma {:induction false} StripLeftPrefix(pre: string, rest: string, drop: char -> bool)
    requires forall k :: 0 <= k < |pre| ==> drop(pre[k])
    requires |rest| == 0 || !drop(rest[0])
    ensures StripLeftBy(pre + rest, drop) == rest
    decreases |pre|
  {
    if |pre| > 0 {
      assert (pre + rest)[0] == pre[0];
      assert (pre + rest)[1..] == pre[1..] + rest;
      StripLeftPrefix(pre[1..], rest, drop);
    } else {
      assert pre + rest == rest;
    }
  }

  /** Dropping trailing characters removes exactly a dropped suffix back to the last kept character. */
  lemma {:induction false} StripRightSuffix(rest: string, suf: string, drop: char -> bool)
    requires forall k :: 0 <= k < |suf| ==> drop(suf[k])
    requires |rest| == 0 || !drop(rest[|rest| - 1])
    ensures StripRightBy(rest + suf, drop) == rest
    decreases |suf|
  {
    var s := rest + suf;
    if |suf| > 0 {
      assert s[|s| - 1] == suf[|suf| - 1];
      assert s[..|s| - 1] == rest + suf[..|suf| - 1];
      StripRightSuffix(rest, suf[..|suf| - 1], drop);
    } else {
      assert s == rest;
    }
  }

  /** Lower-cases the ASCII capitals and leaves every other character alone. */
  function LowerChar(ch: char): char {
    if 'A' <= ch <= 'Z' then (ch as int + 32) as char else ch
  }

  /** Python's `s.lower()`, restricted to ASCII letters. */
  function Lower(s: string): (r: string)
    ensures |r| == |s|
  {
    seq(|s|, k requires 0 <= k < |s| => LowerChar(s[k]))
  }

  /** Python's `s.partition(c)` for a one-character separator: the text before and after the first `c`. */
  function Partition(s: string, c: char): (r: (string, string))
    ensures c in s ==> s == r.0 + [c] + r.1 && c !in r.0
    ensures c !in s ==> r == (s, "")
  {
    if c in s then
      var i := IndexOf(s, c);
      assert s == s[..i] + [c] + s[i + 1..];
      (s[..i], s[i + 1..])
    else (s, "")
  }

  /** Index of the last occurrence of `sub` in `s`, if any. */
  function FindLast(s: string, sub: string): (r: Option<nat>)
    ensures r.Some? ==> SubAt(s, sub, r.value)
    ensures r.Some? ==> forall j :: r.value < j ==> !SubAt(s, sub, j)
    ensures r.None? <==> !Contains(s, sub)
    decreases |s|
  {
    if EndsWith(s, sub) then
      assert SubAt(s, sub, |s| - |sub|);
      Some(|s| - |sub|)
    else if |s| == 0 then None
    else
      var r := FindLast(s[..|s| - 1], sub);
      forall j ensures SubAt(s[..|s| - 1], sub, j) <==> SubAt(s, sub, j) {
        SubAtDropLast(s, sub, j);
      }
      r
  }

  /** Dropping the last character keeps exactly the occurrences that end before it. */
  lemma SubAtDropLast(s: string, sub: string, j: int)
    requires |s| > 0 && !EndsWith(s, sub)
    ensures SubAt(s[..|s| - 1], sub, j) <==> SubAt(s, sub, j)
  {
    if 0 <= j && j + |sub| <= |s| - 1 {
      assert s[..|s| - 1][j..j + |sub|] == s[j..j + |sub|];
    }
    if 0 <= j && j + |sub| == |s| {
      assert s[j..j + |sub|] == s[|s| - |sub|..];
    }
  }

  /** Nothing after the last occurrence of a non-empty `sub` contains it again. */
  lemma NothingAfterLast(s: string, sub: string, i: nat)
    requires |sub| > 0 && SubAt(s, sub, i)
    requires forall j :: i < j ==> !SubAt(s, sub, j)
    ensures !Contains(s[i + |sub|..], sub)
  {
    var after := s[i + |sub|..];
    if Contains(after, sub) {
      var j :| 0 <= j <= |after| - |sub| && SubAt(after, sub, j);
      assert s[i + |sub| + j..i + |sub| + j + |sub|] == after[j..j + |sub|];
      assert SubAt(s, sub, i + |sub| + j);
    }
  }

  /** Python's `s.rpartition(sub)` when `sub` occurs in `s`: the text around its last occurrence. */
  function RPartition(s: string, sub: string): (r: (string, string))
    requires Contains(s, sub)
    ensures s == r.0 + sub + r.1
    ensures |sub| > 0 ==> !Contains(r.1, sub)
  {
    var i := FindLast(s, sub).value;
    assert s == s[..i] + sub + s[i + |sub|..];
    if |sub| > 0 then
      NothingAfterLast(s, sub, i);
      (s[..i], s[i + |sub|..])
    else (s[..i], s[i + |sub|..])
  }
}
