/** Picking firebounty programs: the company search of main (main.go:374-379). The rule
    filter of parseCompany (main.go:1097) is Exclusion.CountedScopes. */
module Company {
  import opened Text
  import opened Exclusion

  /** A firebounty program: its name and its in-scope and out-of-scope entries. */
  datatype Program = Program(name: string, inScopes: seq<ScopeEntry>, outOfScopes: seq<ScopeEntry>)

  /** The program names lowercased, searched for the query as given. */
  predicate NameMatches(p: Program, query: string) {
    IsInfix(query, ToLower(p.name))
  }

  /** The indices of the matching programs, in order. */
  function CompanyMatches(programs: seq<Program>, query: string): (r: seq<nat>)
    ensures forall i :: 0 <= i < |programs| ==> (i in r <==> NameMatches(programs[i], query))
    ensures forall i :: i in r ==> i < |programs|
    ensures forall a, b :: 0 <= a < b < |r| ==> r[a] < r[b]
    decreases |programs|
  {
    if programs == [] then []
    else
      var n := |programs| - 1;
      var init := programs[..n];
      assert forall i :: 0 <= i < n ==> init[i] == programs[i];
      var left := CompanyMatches(init, query);
      assert forall a :: 0 <= a < |left| ==> left[a] in left;
      left + (if NameMatches(programs[n], query) then [n] else [])
  }

  /** The loop of main collecting matchingCompanyList. */
  method MatchingCompanies(programs: seq<Program>, query: string) returns (matching: seq<nat>)
    ensures matching == CompanyMatches(programs, query)
  {
    matching := [];
    for companyCounter := 0 to |programs|
      invariant matching == CompanyMatches(programs[..companyCounter], query)
    {
      assert programs[..companyCounter + 1][..companyCounter] == programs[..companyCounter];
      var fcompany := ToLower(programs[companyCounter].name);
      if IsInfix(query, fcompany) {
        matching := matching + [companyCounter];
      }
    }
    assert programs[..|programs|] == programs;
  }

  /** Every character of a string found inside s occurs in s. */
  lemma {:induction false} InfixChars(sub: string, s: string)
    requires IsInfix(sub, s)
    ensures forall c :: c in sub ==> c in s
    decreases |s|
  {
    if HasPrefix(s, sub) {
      assert forall k :: 0 <= k < |sub| ==> sub[k] == s[k];
    } else {
      InfixChars(sub, s[1..]);
      assert forall c :: c in s[1..] ==> c in s;
    }
  }

  /** Only names are lowercased: a query holding an upper-case letter matches nothing. */
  lemma UppercaseQueryMatchesNothing(programs: seq<Program>, query: string, c: char)
    requires c in query && 'A' <= c <= 'Z'
    ensures CompanyMatches(programs, query) == []
  {
    forall i | 0 <= i < |programs|
      ensures !NameMatches(programs[i], query)
    {
      var lower := ToLower(programs[i].name);
      if IsInfix(query, lower) {
        InfixChars(query, lower);
      }
    }
  }
}
