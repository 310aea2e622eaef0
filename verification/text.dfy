/**
 * ASCII string helpers mirroring the JavaScript string methods the source
 * calls: `toLowerCase`, `includes`, `startsWith`, `trim`, `split` on one
 * character, and `replace` with a string pattern (first occurrence only).
 */
module Text {

  predicate IsUpper(c: char) {
    'A' <= c <= 'Z'
  }

  /** `toLowerCase` on one character, ASCII letters only. */
  function LowerChar(c: char): (r: char)
    ensures !IsUpper(r)
    ensures IsUpper(c) ==> r as int == c as int + 32
    ensures !IsUpper(c) ==> r == c
  {
    if IsUpper(c) then (c as int + 32) as char else c
  }

  /** `toLowerCase` on a string, ASCII letters only. */
  function Lower(s: string): (r: string)
    ensures |r| == |s|
    ensures forall i :: 0 <= i < |s| ==> r[i] == LowerChar(s[i])
  {
    seq(|s|, i requires 0 <= i < |s| => LowerChar(s[i]))
  }

  predicate IsLower(c: char) {
    'a' <= c <= 'z'
  }

  /** `toUpperCase` on one character, ASCII letters only. */
  function UpperChar(c: char): (r: char)
    ensures !IsLower(r)
    ensures IsLower(c) ==> r as int == c as int - 32
    ensures !IsLower(c) ==> r == c
  {
    if IsLower(c) then (c as int - 32) as char else c
  }

  /** `toUpperCase` on a string, ASCII letters only. */
  function Upper(s: string): (r: string)
    ensures |r| == |s|
    ensures forall i :: 0 <= i < |s| ==> r[i] == UpperChar(s[i])
  {
    seq(|s|, i requires 0 <= i < |s| => UpperChar(s[i]))
  }

  /** Upper-casing changes any string holding a lower-case letter. */
  lemma UpperDiffersAt(s: string, j: nat)
    requires j < |s| && IsLower(s[j])
    ensures Upper(s) != s
  {
    assert Upper(s)[j] != s[j];
  }

  predicate HasUpper(s: string) {
    exists i :: 0 <= i < |s| && IsUpper(s[i])
  }

  /** Lower-casing a string without upper-case letters changes nothing. */
  lemma LowerOfLower(s: string)
    requires !HasUpper(s)
    ensures Lower(s) == s
  {
  }

  predicate StartsWith(s: string, prefix: string) {
    |prefix| <= |s| && s[..|prefix|] == prefix
  }

  /** `sub` occurs in `s` starting at index `i`. */
  predicate OccursAt(s: string, sub: string, i: int) {
    0 <= i && i + |sub| <= |s| && s[i..i + |sub|] == sub
  }

  /** `String.prototype.includes`. */
  predicate Contains(s: string, sub: string) {
    exists i | 0 <= i <= |s| :: OccursAt(s, sub, i)
  }

  /** Whitespace stripped by `trim`, restricted to ASCII. */
  predicate IsSpace(c: char) {
    c == ' ' || c == '\t' || c == '\n' || c == '\r' || c == '\U{B}' || c == '\U{C}'
  }

  function TrimStart(s: string): (r: string)
    ensures |r| <= |s|
    ensures r == s[|s| - |r|..]
    ensures r == [] || !IsSpace(r[0])
    ensures forall i :: 0 <= i < |s| - |r| ==> IsSpace(s[i])
    decreases |s|
  {
    if s != [] && IsSpace(s[0]) then TrimStart(s[1..]) else s
  }

  function TrimEnd(s: string): (r: string)
    ensures |r| <= |s|
    ensures r == s[..|r|]
    ensures r == [] || !IsSpace(r[|r| - 1])
    ensures forall i :: |r| <= i < |s| ==> IsSpace(s[i])
    decreases |s|
  {
    if s != [] && IsSpace(s[|s| - 1]) then TrimEnd(s[..|s| - 1]) else s
  }

  /** `String.prototype.trim`: drops leading and trailing whitespace. */
  function Trim(s: string): (r: string)
    ensures |r| <= |s|
    ensures r == [] || (!IsSpace(r[0]) && !IsSpace(r[|r| - 1]))
  {
    TrimEnd(TrimStart(s))
  }

  /** Number of occurrences of `c` in `s`. */
  function Occurrences(s: string, c: char): nat
    decreases |s|
  {
    if s == [] then 0 else (if s[0] == c then 1 else 0) + Occurrences(s[1..], c)
  }

  /** `s.split(c)` for a one-character separator. */
  function Split(s: string, c: char): (r: seq<string>)
    ensures |r| == Occurrences(s, c) + 1
    ensures |r| == 1 <==> c !in s
    ensures forall k :: 0 <= k < |r| ==> c !in r[k]
    decreases |s|
  {
    if s == [] then [""]
    else
      var rest := Split(s[1..], c);
      assert s == [s[0]] + s[1..];
      if s[0] == c then [""] + rest
      else [[s[0]] + rest[0]] + rest[1..]
  }

  /** `parts.join(c)`. */
  function Join(parts: seq<string>, c: char): string
    decreases |parts|
  {
    if parts == [] then ""
    else if |parts| == 1 then parts[0]
    else parts[0] + [c] + Join(parts[1..], c)
  }

  /** Splitting and re-joining on the same separator gives back the string. */
  lemma {:induction false} JoinSplit(s: string, c: char)
    ensures Join(Split(s, c), c) == s
    decreases |s|
  {
    if s != [] {
      JoinSplit(s[1..], c);
      SplitHead(s, c);
      var rest := Split(s[1..], c);
      if s[0] == c {
        JoinEmptyHead(rest, c);
      } else {
        JoinExtendHead(s[0], rest, c);
      }
      assert s == [s[0]] + s[1..];
    }
  }

  /** An empty first piece contributes only its separator. */
  lemma JoinEmptyHead(p: seq<string>, c: char)
    requires p != []
    ensures Join([""] + p, c) == [c] + Join(p, c)
  {
    assert ([""] + p)[1..] == p;
  }

  /** A character prefixed to the first piece comes first in the joined string. */
  lemma JoinExtendHead(x: char, p: seq<string>, c: char)
    requires p != []
    ensures Join([[x] + p[0]] + p[1..], c) == [x] + Join(p, c)
  {
    var r := [[x] + p[0]] + p[1..];
    if |p| > 1 {
      assert r[1..] == p[1..];
    }
  }

  /** The first piece of a split is the text before the first separator. */
  lemma {:induction false} SplitFirst(s: string, c: char, k: nat)
    requires k < |s| && s[k] == c && c !in s[..k]
    ensures Split(s, c)[0] == s[..k]
    decreases k
  {
    var t := s[1..];
    if k > 0 {
      assert s[0] in s[..k];
      assert t[k - 1] == c;
      assert t[..k - 1] == s[1..k];
      SplitFirst(t, c, k - 1);
      assert s[..k] == [s[0]] + s[1..k];
    }
  }

  /** Without a separator, a split yields the whole string as its only piece. */
  lemma {:induction false} SplitNoSeparator(s: string, c: char)
    requires c !in s
    ensures Split(s, c) == [s]
    decreases |s|
  {
    if s != [] {
      assert s == [s[0]] + s[1..];
      SplitNoSeparator(s[1..], c);
    }
  }

  /** Splitting two texts joined by the separator splits each of them in turn. */
  lemma {:induction false} SplitConcat(a: string, b: string, c: char)
    ensures Split(a + [c] + b, c) == Split(a, c) + Split(b, c)
    decreases |a|
  {
    var s := a + [c] + b;
    SplitHead(s, c);
    if a == [] {
      assert s[0] == c && s[1..] == b;
    } else {
      var t := a[1..];
      assert s[0] == a[0] && s[1..] == t + [c] + b;
      SplitConcat(t, b, c);
      SplitHead(a, c);
      if a[0] != c {
        JoinFirstPiece(a[0], Split(t, c), Split(b, c));
      }
    }
  }

  /** Prefixing a character to the first piece commutes with appending further pieces. */
  lemma JoinFirstPiece(x: char, p: seq<string>, q: seq<string>)
    requires p != []
    ensures [[x] + (p + q)[0]] + (p + q)[1..] == ([[x] + p[0]] + p[1..]) + q
  {
    assert (p + q)[1..] == p[1..] + q;
  }

  /** One step of a split: the first character either ends the first piece or joins it. */
  lemma SplitHead(s: string, c: char)
    requires s != []
    ensures Split(s, c) == if s[0] == c then [""] + Split(s[1..], c)
                           else [[s[0]] + Split(s[1..], c)[0]] + Split(s[1..], c)[1..]
  {
  }

  /** The last piece of a split is the text after the last separator. */
  lemma {:induction false} SplitLast(s: string, c: char, k: nat)
    requires k < |s| && s[k] == c && c !in s[k + 1..]
    ensures Split(s, c)[|Split(s, c)| - 1] == s[k + 1..]
    decreases |s|
  {
    var t := s[1..];
    var rest := Split(t, c);
    var r := Split(s, c);
    if k == 0 {
      assert t == s[k + 1..];
      SplitNoSeparator(t, c);
      assert r == [""] + rest;
    } else {
      assert t[k - 1] == c && t[k..] == s[k + 1..];
      SplitLast(t, c, k - 1);
      assert c in t;
      assert |rest| > 1;
      if s[0] == c {
        assert r == [""] + rest;
      } else {
        assert r == [[s[0]] + rest[0]] + rest[1..];
      }
      assert r[|r| - 1] == rest[|rest| - 1];
    }
  }

  /** `s.replace(pat, rep)` with a string pattern: only the first occurrence is replaced. */
  function ReplaceFirst(s: string, pat: string, rep: string): string
    decreases |s|
  {
    if |s| < |pat| then s
    else if s[..|pat|] == pat then rep + s[|pat|..]
    else [s[0]] + ReplaceFirst(s[1..], pat, rep)
  }

  /** With no occurrence of the pattern, `replace` returns the string unchanged. */
  lemma {:induction false} ReplaceFirstAbsent(s: string, pat: string, rep: string)
    requires !Contains(s, pat)
    ensures ReplaceFirst(s, pat, rep) == s
    decreases |s|
  {
    if |s| >= |pat| {
      assert !OccursAt(s, pat, 0);
      if |s| > 0 {
        forall j ensures !OccursAt(s[1..], pat, j) {
          if j >= 0 {
            OccursInTail(s, pat, j);
          }
        }
        ReplaceFirstAbsent(s[1..], pat, rep);
        assert s == [s[0]] + s[1..];
      }
    }
  }

  /** An occurrence in the tail is an occurrence one place further on in the whole string. */
  lemma OccursInTail(s: string, pat: string, j: nat)
    requires s != []
    ensures OccursAt(s[1..], pat, j) <==> OccursAt(s, pat, j + 1)
  {
    if j + |pat| <= |s| - 1 {
      assert s[1..][j..j + |pat|] == s[j + 1..j + 1 + |pat|];
    }
  }

  /** The first occurrence is replaced and everything before and after it is kept. */
  lemma {:induction false} ReplaceFirstAt(s: string, pat: string, rep: string, i: nat)
    requires OccursAt(s, pat, i)
    requires forall j :: 0 <= j < i ==> !OccursAt(s, pat, j)
    ensures ReplaceFirst(s, pat, rep) == s[..i] + rep + s[i + |pat|..]
    decreases i
  {
    if i == 0 {
      assert s[..|pat|] == pat;
    } else {
      var t := s[1..];
      ReplaceFirstSkip(s, pat, rep);
      OccursInTail(s, pat, i - 1);
      forall j | 0 <= j < i - 1 ensures !OccursAt(t, pat, j) {
        OccursInTail(s, pat, j);
      }
      ReplaceFirstAt(t, pat, rep, i - 1);
      assert s[..i] == [s[0]] + t[..i - 1];
      assert s[i + |pat|..] == t[i - 1 + |pat|..];
    }
  }

  /** Without an occurrence at the start, `replace` keeps the first character and works on the rest. */
  lemma ReplaceFirstSkip(s: string, pat: string, rep: string)
    requires |pat| < |s| && !OccursAt(s, pat, 0)
    ensures ReplaceFirst(s, pat, rep) == [s[0]] + ReplaceFirst(s[1..], pat, rep)
  {
  }
}
