/** The handful of Go `strings` functions the engine relies on, over `seq<char>`. */
module Text {

  /** strings.HasPrefix */
  predicate HasPrefix(s: string, p: string) {
    |p| <= |s| && s[..|p|] == p
  }

  /** strings.HasSuffix */
  predicate HasSuffix(s: string, p: string) {
    |p| <= |s| && s[|s| - |p|..] == p
  }

  /** strings.Contains(s, sub) */
  predicate IsInfix(sub: string, s: string)
    decreases |s|
  {
    HasPrefix(s, sub) || (|s| > 0 && IsInfix(sub, s[1..]))
  }

  /** strings.Index: the first position at which `sub` occurs in `s`, or -1. */
  function Index(s: string, sub: string): (r: int)
    ensures r == -1 <==> !IsInfix(sub, s)
    ensures r >= 0 ==> r + |sub| <= |s| && s[r..r + |sub|] == sub
    ensures r >= 0 ==> forall k :: 0 <= k < r ==> !HasPrefix(s[k..], sub)
    decreases |s|
  {
    if HasPrefix(s, sub) then 0
    else if s == [] then -1
    else
      var k := Index(s[1..], sub);
      if k < 0 then -1
      else
        assert forall j :: 1 <= j <= k ==> s[j..] == s[1..][j - 1..];
        k + 1
  }

  /** strings.Replace(s, pat, rep, 1): replace the first occurrence of `pat`.
      An empty `pat` matches at position 0, as in Go. */
  function ReplaceFirst(s: string, pat: string, rep: string): string {
    var i := Index(s, pat);
    if i < 0 then s else s[..i] + rep + s[i + |pat|..]
  }

  /** strings.ReplaceAll / strings.Replace(s, pat, rep, -1) for a non-empty `pat`:
      leftmost, non-overlapping occurrences, scanning left to right. */
  function ReplaceAll(s: string, pat: string, rep: string): string
    requires pat != []
    decreases |s|
  {
    if HasPrefix(s, pat) then rep + ReplaceAll(s[|pat|..], pat, rep)
    else if s == [] then []
    else [s[0]] + ReplaceAll(s[1..], pat, rep)
  }

  /** strings.Count(s, string(c)) */
  function CountChar(s: string, c: char): nat
    decreases |s|
  {
    if s == [] then 0 else (if s[0] == c then 1 else 0) + CountChar(s[1..], c)
  }

  /** strings.ToLower restricted to ASCII letters: no capital is left, a capital becomes
      the same letter in lower case, and every other character is kept. */
  function ToLower(s: string): (r: string)
    ensures |r| == |s|
    ensures forall i :: 0 <= i < |r| ==> !('A' <= r[i] <= 'Z')
    ensures forall i :: 0 <= i < |s| && 'A' <= s[i] <= 'Z' ==>
      'a' <= r[i] <= 'z' && r[i] as int - 'a' as int == s[i] as int - 'A' as int
    ensures forall i :: 0 <= i < |s| && !('A' <= s[i] <= 'Z') ==> r[i] == s[i]
  {
    seq(|s|, i requires 0 <= i < |s| => LowerChar(s[i]))
  }

  function LowerChar(c: char): char {
    if 'A' <= c <= 'Z' then (c as int + 32) as char else c
  }

  /** Lowering twice is lowering once. */
  lemma ToLowerIdempotent(s: string)
    ensures ToLower(ToLower(s)) == ToLower(s)
  {
  }

  /** The number of bytes of the UTF-8 encoding of `s`: Go's len, which string slicing
      checks against. */
  function Utf8Len(s: string): (n: nat)
    ensures |s| <= n <= 4 * |s|
    decreases |s|
  {
    if s == [] then 0
    else
      var c := s[0] as int;
      (if c < 0x80 then 1 else if c < 0x800 then 2 else if c < 0x1_0000 then 3 else 4) + Utf8Len(s[1..])
  }

  /** An ASCII string has one byte per character. */
  lemma {:induction false} Utf8LenAscii(s: string)
    requires forall i :: 0 <= i < |s| ==> s[i] as int < 0x80
    ensures Utf8Len(s) == |s|
    decreases |s|
  {
    if s != [] {
      Utf8LenAscii(s[1..]);
    }
  }

  /** Two characters outside ASCII already make four bytes. */
  lemma TwoWideCharsAreFourBytes(s: string)
    requires |s| == 2 && s[0] as int >= 0x80 && s[1] as int >= 0x80
    ensures Utf8Len(s) >= 4
  {
    assert s[1..][1..] == [];
  }

  lemma {:induction false} CountCharZero(s: string, c: char)
    ensures CountChar(s, c) == 0 <==> c !in s
    decreases |s|
  {
    if s != [] {
      CountCharZero(s[1..], c);
      assert s == [s[0]] + s[1..];
    }
  }

  /** Replacing a string that does not occur changes nothing. */
  lemma {:induction false} ReplaceAllAbsent(s: string, pat: string, rep: string)
    requires pat != []
    requires pat[0] !in s
    ensures ReplaceAll(s, pat, rep) == s
    decreases |s|
  {
    if s != [] {
      assert !HasPrefix(s, pat) by { assert s[0] != pat[0]; }
      ReplaceAllAbsent(s[1..], pat, rep);
      assert s == [s[0]] + s[1..];
    }
  }

  /** Replacing a single character distributes over concatenation. */
  lemma {:induction false} ReplaceCharConcat(a: string, b: string, c: char, rep: string)
    ensures ReplaceAll(a + b, [c], rep) == ReplaceAll(a, [c], rep) + ReplaceAll(b, [c], rep)
    decreases |a|
  {
    if a != [] {
      assert (a + b)[1..] == a[1..] + b;
      assert HasPrefix(a + b, [c]) <==> HasPrefix(a, [c]);
      ReplaceCharConcat(a[1..], b, c, rep);
    } else {
      assert a + b == b;
    }
  }

  /** A string ends with its last part. */
  lemma SuffixOfConcat(a: string, b: string)
    ensures HasSuffix(a + b, b)
  {
    assert (a + b)[|a|..] == b;
  }

  /** An occurrence at any position makes `sub` an infix. */
  lemma {:induction false} InfixAt(sub: string, s: string, k: nat)
    requires k <= |s| && HasPrefix(s[k..], sub)
    ensures IsInfix(sub, s)
    decreases k
  {
    if k > 0 {
      assert s[1..][k - 1..] == s[k..];
      InfixAt(sub, s[1..], k - 1);
    }
  }

  /** A string whose first character is absent from `s` does not occur in it. */
  lemma {:induction false} NotInfixFirstAbsent(sub: string, s: string)
    requires sub != [] && sub[0] !in s
    ensures !IsInfix(sub, s)
    decreases |s|
  {
    if s != [] {
      assert !HasPrefix(s, sub) by { assert s[0] != sub[0]; }
      NotInfixFirstAbsent(sub, s[1..]);
    }
  }

  /** Index finds the first occurrence. */
  lemma IndexIs(s: string, sub: string, m: nat)
    requires m <= |s| && HasPrefix(s[m..], sub)
    requires forall k :: 0 <= k < m ==> !HasPrefix(s[k..], sub)
    ensures Index(s, sub) == m
  {
    InfixAt(sub, s, m);
    var r := Index(s, sub);
    assert s[r..][..|sub|] == s[r..r + |sub|];
  }

  /** Single-character replacement unfolds one character at a time. */
  lemma ReplaceCharCons(s: string, c: char, rep: string)
    requires s != []
    ensures ReplaceAll(s, [c], rep) == (if s[0] == c then rep else [s[0]]) + ReplaceAll(s[1..], [c], rep)
  {
    assert HasPrefix(s, [c]) <==> s[0] == c;
  }

  /** The first occurrence of a character that is absent from `a` is right after `a`. */
  lemma {:induction false} IndexAfter(a: string, b: string, sub: string)
    requires sub != [] && HasPrefix(b, sub)
    requires sub[0] !in a
    ensures Index(a + b, sub) == |a|
    decreases |a|
  {
    if a == [] {
      assert a + b == b;
    } else {
      assert !HasPrefix(a + b, sub) by { assert (a + b)[0] == a[0]; }
      assert (a + b)[1..] == a[1..] + b;
      IndexAfter(a[1..], b, sub);
    }
  }
}
