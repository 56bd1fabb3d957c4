/**
 * The taxon search of the selection box: a case-insensitive substring match
 * of the query against five fields of every taxon of the index, in index
 * order, cut to the first 50 matches.  An empty query gives no result.
 */
module TaxonSearch {
  import opened TextUtil
  import opened Types
  import opened Lists

  const MaxResults: nat := 50

  /** The lower-cased query `q` occurs in one of the five lower-cased searchable fields. */
  predicate Matches(t: Taxon, q: string) {
    Contains(ToLower(t.scientificName), q)
    || Contains(ToLower(t.chineseName), q)
    || Contains(ToLower(t.family), q)
    || Contains(ToLower(t.genus), q)
    || Contains(ToLower(t.rank), q)
  }

  /** `index.filter(...)`: the matching taxa, in index order. */
  function Matching(index: seq<Taxon>, q: string): (r: seq<Taxon>)
    ensures forall k :: 0 <= k < |r| ==> Matches(r[k], q)
    ensures forall t :: t in r ==> t in index
    ensures forall t :: t in index && Matches(t, q) ==> t in r
  {
    if index == [] then []
    else (if Matches(index[0], q) then [index[0]] else []) + Matching(index[1..], q)
  }

  /** The search of the selection box: nothing for an empty query, else at most 50 matches. */
  function Search(index: seq<Taxon>, query: string): (r: seq<Taxon>)
    ensures |query| < 1 ==> r == []
    ensures |r| <= MaxResults
    ensures forall k :: 0 <= k < |r| ==> Matches(r[k], ToLower(query))
    ensures r <= Matching(index, ToLower(query))
    ensures |query| >= 1 ==> |r| == if |Matching(index, ToLower(query))| <= MaxResults
                                   then |Matching(index, ToLower(query))| else MaxResults
  {
    if |query| < 1 then []
    else
      var m := Matching(index, ToLower(query));
      if |m| <= MaxResults then m else m[..MaxResults]
  }

  lemma {:induction false} MatchingIsSubsequence(index: seq<Taxon>, q: string)
    ensures IsSubsequence(Matching(index, q), index)
  {
    if index != [] {
      MatchingIsSubsequence(index[1..], q);
      var m := Matching(index, q);
      if Matches(index[0], q) {
        assert m == [index[0]] + Matching(index[1..], q);
        assert m[0] == index[0] && m[1..] == Matching(index[1..], q);
      } else {
        assert m == Matching(index[1..], q);
      }
    }
  }

  lemma {:induction false} PrefixIsSubsequence<T>(a: seq<T>, b: seq<T>, n: nat)
    requires IsSubsequence(a, b) && n <= |a|
    ensures IsSubsequence(a[..n], b)
  {
    if n > 0 {
      if a[0] == b[0] && IsSubsequence(a[1..], b[1..]) {
        PrefixIsSubsequence(a[1..], b[1..], n - 1);
        assert a[..n][1..] == a[1..][..n - 1];
      } else {
        PrefixIsSubsequence(a, b[1..], n);
      }
    }
  }

  /** The results are taxa of the index, in index order. */
  lemma SearchIsSubsequence(index: seq<Taxon>, query: string)
    ensures IsSubsequence(Search(index, query), index)
  {
    if |query| >= 1 {
      var m := Matching(index, ToLower(query));
      MatchingIsSubsequence(index, ToLower(query));
      if |m| > MaxResults {
        PrefixIsSubsequence(m, index, MaxResults);
      }
    }
  }

  /** When at most 50 taxa match a non-empty query, every one of them is returned. */
  lemma SearchIsComplete(index: seq<Taxon>, query: string, t: Taxon)
    requires |query| >= 1 && |Matching(index, ToLower(query))| <= MaxResults
    requires t in index && Matches(t, ToLower(query))
    ensures t in Search(index, query)
  {
  }

  /** An empty index answers every query with nothing. */
  lemma EmptyIndexFindsNothing(query: string)
    ensures Search([], query) == []
  {
  }

  lemma {:induction false} ToLowerIdempotent(s: string)
    ensures ToLower(ToLower(s)) == ToLower(s)
  {
    assert forall i :: 0 <= i < |s| ==> LowerChar(LowerChar(s[i])) == LowerChar(s[i]);
  }

  /** The search ignores the case of the query. */
  lemma SearchIgnoresQueryCase(index: seq<Taxon>, query: string)
    ensures Search(index, query) == Search(index, ToLower(query))
  {
    ToLowerIdempotent(query);
  }

  /**
   * A taxon whose family contains the query, in any mix of cases, is found
   * as long as no more than 50 taxa match.
   */
  lemma FamilyMatchIsFound(index: seq<Taxon>, query: string, t: Taxon)
    requires |query| >= 1 && t in index
    requires Contains(ToLower(t.family), ToLower(query))
    requires |Matching(index, ToLower(query))| <= MaxResults
    ensures t in Search(index, query)
  {
  }
}
