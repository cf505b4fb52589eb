/** removeDuplicateStr (main.go:1067-1077). */
module Dedup {

  predicate Distinct(s: seq<string>) {
    forall i, j :: 0 <= i < j < |s| ==> s[i] != s[j]
  }

  /** The position of the first occurrence of x in s. */
  function FirstIndex(s: seq<string>, x: string): (k: nat)
    requires x in s
    ensures k < |s| && s[k] == x && x !in s[..k]
  {
    if s[0] == x then 0
    else
      var k := FirstIndex(s[1..], x);
      assert s[..k + 1] == [s[0]] + s[1..][..k];
      k + 1
  }

  /** The list the loop builds from a prefix of its input: the previous list, extended
      by the next item unless that item was seen before. */
  function Unique(s: seq<string>): (r: seq<string>)
    ensures forall x :: x in r <==> x in s
    ensures Distinct(r)
    decreases |s|
  {
    if s == [] then []
    else
      var p := Unique(s[..|s| - 1]);
      var x := s[|s| - 1];
      assert forall y :: y in s <==> y in s[..|s| - 1] || y == x by {
        assert s == s[..|s| - 1] + [x];
      }
      if x in p then p else p + [x]
  }

  /** The Go loop: a map of the keys seen so far and the list of first occurrences. */
  method RemoveDuplicateStr(s: seq<string>) returns (list: seq<string>)
    ensures list == Unique(s)
  {
    var allKeys: map<string, bool> := map[];
    list := [];
    for i := 0 to |s|
      invariant list == Unique(s[..i])
      invariant forall x :: x in allKeys <==> x in s[..i]
    {
      assert s[..i + 1][..i] == s[..i];
      assert s[..i + 1] == s[..i] + [s[i]];
      var item := s[i];
      if item !in allKeys {
        allKeys := allKeys[item := true];
        list := list + [item];
      }
    }
    assert s[..|s|] == s;
  }

  /** Unique keeps the order of first occurrences. */
  lemma {:induction false} UniqueKeepsFirstOccurrenceOrder(s: seq<string>)
    ensures forall i, j :: 0 <= i < j < |Unique(s)| ==>
      FirstIndex(s, Unique(s)[i]) < FirstIndex(s, Unique(s)[j])
    decreases |s|
  {
    if s != [] {
      var init := s[..|s| - 1];
      var x := s[|s| - 1];
      UniqueKeepsFirstOccurrenceOrder(init);
      var p := Unique(init);
      assert s == init + [x];
      forall y | y in init
        ensures FirstIndex(s, y) == FirstIndex(init, y)
      {
        FirstIndexPrefix(init, [x], y);
      }
      if x !in p {
        assert FirstIndex(s, x) == |init| by {
          assert s[|init|] == x && x !in s[..|init|];
          FirstIndexIs(s, x, |init|);
        }
        forall i | 0 <= i < |p|
          ensures FirstIndex(s, p[i]) < |init|
        {
          assert p[i] in init;
        }
      }
    }
  }

  lemma FirstIndexPrefix(a: seq<string>, b: seq<string>, y: string)
    requires y in a
    ensures FirstIndex(a + b, y) == FirstIndex(a, y)
  {
    var k := FirstIndex(a, y);
    assert (a + b)[k] == y;
    assert (a + b)[..k] == a[..k];
    FirstIndexIs(a + b, y, k);
  }

  /** The first occurrence is the position before which the element does not occur. */
  lemma FirstIndexIs(s: seq<string>, x: string, k: nat)
    requires k < |s| && s[k] == x && x !in s[..k]
    ensures FirstIndex(s, x) == k
  {
  }

  /** A list without duplicates is returned unchanged, so de-duplicating twice is the same
      as de-duplicating once. */
  lemma {:induction false} UniqueOfDistinct(s: seq<string>)
    requires Distinct(s)
    ensures Unique(s) == s
    decreases |s|
  {
    if s != [] {
      var init := s[..|s| - 1];
      assert Distinct(init);
      UniqueOfDistinct(init);
      assert s[|s| - 1] !in init;
      assert init + [s[|s| - 1]] == s;
    }
  }

  lemma UniqueIdempotent(s: seq<string>)
    ensures Unique(Unique(s)) == Unique(s)
  {
    UniqueOfDistinct(Unique(s));
  }

  /** One more item: the loop appends it unless it was seen before. */
  lemma UniqueSnoc(s: seq<string>, x: string)
    ensures Unique(s + [x]) == if x in s then Unique(s) else Unique(s) + [x]
  {
    assert (s + [x])[..|s|] == s;
  }

  /** The example of main_test.go:155-160, one step of the loop at a time. */
  lemma UniqueExample1(a: string)
    ensures Unique([a]) == [a]
  {
    UniqueSnoc([], a);
    assert [] + [a] == [a];
  }

  lemma UniqueExample2(a: string, b: string)
    requires a != b
    ensures Unique([a, b]) == [a, b]
  {
    UniqueExample1(a);
    UniqueSnoc([a], b);
  }

  lemma UniqueExample3(a: string, b: string)
    requires a != b
    ensures Unique([a, b, a]) == [a, b]
  {
    UniqueExample2(a, b);
    UniqueSnoc([a, b], a);
    assert [a, b] + [a] == [a, b, a];
  }

  lemma UniqueExample4(a: string, b: string, c: string)
    requires a != b && a != c && b != c
    ensures Unique([a, b, a, c]) == [a, b, c]
  {
    UniqueExample3(a, b);
    UniqueSnoc([a, b, a], c);
    assert [a, b, a] + [c] == [a, b, a, c];
  }

  /** main_test.go:155-160: [a, b, a, c, b] becomes [a, b, c], for any three different strings. */
  lemma UniqueExample(a: string, b: string, c: string)
    requires a != b && a != c && b != c
    ensures Unique([a, b, a, c, b]) == [a, b, c]
  {
    UniqueExample4(a, b, c);
    UniqueSnoc([a, b, a, c], b);
    assert [a, b, a, c] + [b] == [a, b, a, c, b];
  }
}
