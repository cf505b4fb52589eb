/** The post-processing block of main (main.go:474-491): both lists are de-duplicated and
    sorted, and with -iu every unsure entry that is also in scope is removed. */
module PostProcess {
  import opened Dedup
  import opened Sorting

  /** The two global accumulators, inscopeURLs and unsureURLs. */
  datatype Log = Log(inscope: seq<string>, unsure: seq<string>)

  /** The elements of s not in drop, in their order in s. */
  function Without(s: seq<string>, drop: seq<string>): (r: seq<string>)
    ensures forall x :: x in r <==> x in s && x !in drop
    ensures |r| <= |s|
    decreases |s|
  {
    if s == [] then []
    else
      assert forall x :: x in s <==> x == s[0] || x in s[1..] by { assert s == [s[0]] + s[1..]; }
      (if s[0] in drop then [] else [s[0]]) + Without(s[1..], drop)
  }

  /** What main leaves in the two lists. */
  function PostProcessed(log: Log, includeUnsure: bool): Log {
    var ins := SortStrings(Unique(log.inscope));
    if includeUnsure then Log(ins, Without(SortStrings(Unique(log.unsure)), ins))
    else Log(ins, log.unsure)
  }

  lemma {:induction false} WithoutConcat(a: seq<string>, b: seq<string>, drop: seq<string>)
    ensures Without(a + b, drop) == Without(a, drop) + Without(b, drop)
    decreases |a|
  {
    if a == [] {
      assert a + b == b;
    } else {
      assert (a + b)[0] == a[0] && (a + b)[1..] == a[1..] + b;
      WithoutConcat(a[1..], b, drop);
    }
  }

  /** Deleting an element that is to be dropped anyway does not change the result. */
  lemma WithoutDelete(s: seq<string>, i: nat, drop: seq<string>)
    requires i < |s| && s[i] in drop
    ensures Without(s[..i] + s[i + 1..], drop) == Without(s, drop)
  {
    var a, b := s[..i], s[i + 1..];
    assert s == a + ([s[i]] + b);
    assert Without([s[i]] + b, drop) == Without(b, drop) by {
      assert ([s[i]] + b)[0] == s[i] && ([s[i]] + b)[1..] == b;
    }
    WithoutConcat(a, [s[i]] + b, drop);
    WithoutConcat(a, b, drop);
  }

  /** Nothing is dropped from a list that shares no element with drop. */
  lemma {:induction false} WithoutNothing(s: seq<string>, drop: seq<string>)
    requires forall k :: 0 <= k < |s| ==> s[k] !in drop
    ensures Without(s, drop) == s
    decreases |s|
  {
    if s != [] {
      WithoutNothing(s[1..], drop);
      assert s == [s[0]] + s[1..];
    }
  }

  lemma {:induction false} WithoutSorted(s: seq<string>, drop: seq<string>)
    requires Sorted(s)
    ensures Sorted(Without(s, drop))
    decreases |s|
  {
    if s != [] {
      SortedTail(s);
      WithoutSorted(s[1..], drop);
      var rest := Without(s[1..], drop);
      if s[0] !in drop {
        var r := [s[0]] + rest;
        forall i, j | 0 <= i < j < |r| ensures LexLe(r[i], r[j]) {
          if i == 0 {
            assert r[j] == rest[j - 1] && r[j] in s[1..];
            var k :| 0 <= k < |s[1..]| && s[1..][k] == r[j];
            assert s[k + 1] == r[j];
          } else {
            assert r[i] == rest[i - 1] && r[j] == rest[j - 1];
          }
        }
      } else {
        assert Without(s, drop) == rest;
      }
    }
  }

  lemma {:induction false} WithoutDistinct(s: seq<string>, drop: seq<string>)
    requires Distinct(s)
    ensures Distinct(Without(s, drop))
    decreases |s|
  {
    if s != [] {
      var t := s[1..];
      assert Distinct(t) by {
        forall i, j | 0 <= i < j < |t| ensures t[i] != t[j] {
          assert t[i] == s[i + 1] && t[j] == s[j + 1];
        }
      }
      assert s[0] !in t by {
        forall k | 0 <= k < |t| ensures t[k] != s[0] { assert t[k] == s[k + 1]; }
      }
      WithoutDistinct(t, drop);
      var rest := Without(t, drop);
      if s[0] !in drop {
        var r := [s[0]] + rest;
        forall i, j | 0 <= i < j < |r| ensures r[i] != r[j] {
          if i == 0 {
            assert r[j] == rest[j - 1] && r[j] in rest;
          } else {
            assert r[i] == rest[i - 1] && r[j] == rest[j - 1];
          }
        }
      } else {
        assert Without(s, drop) == rest;
      }
    }
  }

  /** After post-processing both lists are sorted and free of duplicates, the in-scope list
      holds exactly the strings logged in scope, and with -iu the unsure list holds exactly
      the strings logged unsure that are not in scope. */
  lemma PostProcessedMeaning(log: Log, includeUnsure: bool)
    ensures var p := PostProcessed(log, includeUnsure);
      Sorted(p.inscope) && Distinct(p.inscope)
      && (forall x :: x in p.inscope <==> x in log.inscope)
    ensures var p := PostProcessed(log, includeUnsure);
      includeUnsure ==>
        Sorted(p.unsure) && Distinct(p.unsure)
        && (forall x :: x in p.unsure <==> x in log.unsure && x !in log.inscope)
    ensures !includeUnsure ==> PostProcessed(log, includeUnsure).unsure == log.unsure
  {
    SortKeepsDistinct(Unique(log.inscope));
    SortKeepsDistinct(Unique(log.unsure));
    SortSameElements(Unique(log.inscope));
    SortSameElements(Unique(log.unsure));
    var ins := SortStrings(Unique(log.inscope));
    var uns := SortStrings(Unique(log.unsure));
    WithoutSorted(uns, ins);
    WithoutDistinct(uns, ins);
  }

  /** With -iu the two lists end up disjoint. */
  lemma PostProcessedDisjoint(log: Log)
    ensures var p := PostProcessed(log, true);
      forall x :: x in p.unsure ==> x !in p.inscope
  {
  }

  /** Post-processing twice is post-processing once. */
  lemma PostProcessedIdempotent(log: Log, includeUnsure: bool)
    ensures PostProcessed(PostProcessed(log, includeUnsure), includeUnsure) == PostProcessed(log, includeUnsure)
  {
    var p := PostProcessed(log, includeUnsure);
    PostProcessedMeaning(log, includeUnsure);
    UniqueOfDistinct(p.inscope);
    SortedPermutationUnique(SortStrings(p.inscope), p.inscope);
    if includeUnsure {
      UniqueOfDistinct(p.unsure);
      SortedPermutationUnique(SortStrings(p.unsure), p.unsure);
      WithoutNothing(p.unsure, p.inscope);
    }
  }

  // ---------------------------------------------------------------------------
  // The shape logUnsure gives the unsure list.

  /** logUnsure sets unsureURLs to inscopeURLs plus the new entry, so the unsure list is
      always empty or a prefix of the in-scope list followed by one entry. */
  ghost predicate UnsureShape(log: Log) {
    log.unsure == [] || exists k :: 0 <= k <= |log.inscope| && log.unsure == log.inscope[..k] + [log.unsure[|log.unsure| - 1]]
  }

  /** A shaped unsure list has at most one entry outside the in-scope list: its last. */
  lemma ShapedUnsureOutsideInScope(log: Log, x: string)
    requires UnsureShape(log) && x in log.unsure && x !in log.inscope
    ensures x == log.unsure[|log.unsure| - 1]
  {
    var k :| 0 <= k <= |log.inscope| && log.unsure == log.inscope[..k] + [log.unsure[|log.unsure| - 1]];
    assert forall i :: 0 <= i < k ==> log.inscope[..k][i] == log.inscope[i];
    assert x in log.inscope[..k] + [log.unsure[|log.unsure| - 1]];
  }

  lemma DistinctAllEqual(s: seq<string>, e: string)
    requires Distinct(s) && forall x :: x in s ==> x == e
    ensures |s| <= 1
  {
    if |s| > 1 {
      FirstTwoDiffer(s);
      assert false;
    }
  }

  lemma FirstTwoDiffer(s: seq<string>)
    requires Distinct(s) && |s| > 1
    ensures s[0] != s[1] && s[0] in s && s[1] in s
  {
  }

  /** Hence at most one unsure entry survives post-processing. */
  lemma AtMostOneUnsure(log: Log)
    requires UnsureShape(log)
    ensures |PostProcessed(log, true).unsure| <= 1
  {
    var p := PostProcessed(log, true);
    PostProcessedMeaning(log, true);
    if log.unsure != [] {
      var e := log.unsure[|log.unsure| - 1];
      forall x | x in p.unsure ensures x == e {
        ShapedUnsureOutsideInScope(log, x);
      }
      DistinctAllEqual(p.unsure, e);
    }
  }
}
