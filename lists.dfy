/**
 * Operations on lists of records that carry a string id, as the catalog
 * code writes them with `findIndex`, `find` and `filter`.  The id of a record
 * is read through the function `idOf`, so the same definitions serve entries,
 * photo sets, photos and legacy records.
 */
module Lists {
  import opened Types

  /** `s.findIndex(x => idOf(x) === id)`: the first position holding `id`, or -1. */
  function IndexOfId<T>(s: seq<T>, idOf: T -> string, id: string): (i: int)
    ensures -1 <= i < |s|
    ensures i == -1 <==> forall k :: 0 <= k < |s| ==> idOf(s[k]) != id
    ensures i >= 0 ==> idOf(s[i]) == id && forall k :: 0 <= k < i ==> idOf(s[k]) != id
  {
    if s == [] then -1
    else if idOf(s[0]) == id then 0
    else
      var j := IndexOfId(s[1..], idOf, id);
      if j == -1 then -1 else j + 1
  }

  /** `s.find(x => idOf(x) === id)`: the first record with `id`, if any. */
  function FindById<T>(s: seq<T>, idOf: T -> string, id: string): (r: Option<T>)
    ensures r.None? <==> forall k :: 0 <= k < |s| ==> idOf(s[k]) != id
    ensures r.Some? ==> exists k :: 0 <= k < |s| && s[k] == r.value && idOf(r.value) == id
                                    && forall j :: 0 <= j < k ==> idOf(s[j]) != id
  {
    var i := IndexOfId(s, idOf, id);
    if i == -1 then None else Some(s[i])
  }

  /** `a` is `b` with some elements left out, the rest in the same order. */
  predicate IsSubsequence<T(==)>(a: seq<T>, b: seq<T>)
  {
    a == [] || (b != [] && ((a[0] == b[0] && IsSubsequence(a[1..], b[1..])) || IsSubsequence(a, b[1..])))
  }

  /** Every list is a subsequence of itself. */
  lemma {:induction false} SubsequenceOfItself<T>(s: seq<T>)
    ensures IsSubsequence(s, s)
  {
    if s != [] {
      SubsequenceOfItself(s[1..]);
    }
  }

  /** A filter step: keeping or dropping the head of `b` keeps a subsequence a subsequence. */
  lemma FilterStep<T>(keep: bool, b: seq<T>, rest: seq<T>)
    requires b != [] && IsSubsequence(rest, b[1..])
    ensures IsSubsequence((if keep then [b[0]] else []) + rest, b)
  {
    var a := (if keep then [b[0]] else []) + rest;
    if keep {
      assert a[0] == b[0] && a[1..] == rest;
    } else {
      assert a == rest;
    }
  }

  /** The multiset of one filter step: the kept head, if any, and the rest. */
  lemma FilterCounts<T>(s: seq<T>, rest: seq<T>, keep: bool)
    requires s != []
    ensures multiset((if keep then [s[0]] else []) + rest)
         == (if keep then multiset{s[0]} else multiset{}) + multiset(rest)
    ensures multiset(s) == multiset{s[0]} + multiset(s[1..])
  {
    assert s == [s[0]] + s[1..];
  }

  /** `s.filter(x => idOf(x) !== id)`. */
  function RemoveId<T(==,!new)>(s: seq<T>, idOf: T -> string, id: string): (r: seq<T>)
    ensures forall x :: x in r <==> x in s && idOf(x) != id
    ensures IsSubsequence(r, s)
    ensures |r| <= |s|
  {
    if s == [] then []
    else
      var rest := RemoveId(s[1..], idOf, id);
      FilterStep(idOf(s[0]) != id, s, rest);
      (if idOf(s[0]) != id then [s[0]] else []) + rest
  }

  /** The filter keeps every record without the id as often as it occurs, and no record with it. */
  lemma {:induction false} RemoveIdCounts<T(!new)>(s: seq<T>, idOf: T -> string, id: string)
    ensures forall x :: multiset(RemoveId(s, idOf, id))[x] == if idOf(x) != id then multiset(s)[x] else 0
  {
    if s != [] {
      RemoveIdCounts(s[1..], idOf, id);
      FilterCounts(s, RemoveId(s[1..], idOf, id), idOf(s[0]) != id);
    }
  }

  /** Removing an id that no record carries changes nothing. */
  lemma {:induction false} RemoveAbsentId<T(!new)>(s: seq<T>, idOf: T -> string, id: string)
    requires forall k :: 0 <= k < |s| ==> idOf(s[k]) != id
    ensures RemoveId(s, idOf, id) == s
  {
    if s != [] {
      RemoveAbsentId(s[1..], idOf, id);
      assert [s[0]] + s[1..] == s;
    }
  }

  /**
   * Overwriting a record with one of the same id does not touch the others:
   * after filtering that id out, the two lists agree.
   */
  lemma {:induction false} RemoveIdUpdate<T(!new)>(s: seq<T>, idOf: T -> string, i: nat, x: T)
    requires i < |s| && idOf(s[i]) == idOf(x)
    ensures RemoveId(s[i := x], idOf, idOf(x)) == RemoveId(s, idOf, idOf(x))
  {
    var u := s[i := x];
    if i > 0 {
      RemoveIdUpdate(s[1..], idOf, i - 1, x);
      assert u[1..] == s[1..][i - 1 := x];
      assert u[0] == s[0];
    } else {
      assert u[1..] == s[1..];
    }
    assert RemoveId(u, idOf, idOf(x)) == (if idOf(u[0]) != idOf(x) then [u[0]] else []) + RemoveId(u[1..], idOf, idOf(x));
    assert RemoveId(s, idOf, idOf(x)) == (if idOf(s[0]) != idOf(x) then [s[0]] else []) + RemoveId(s[1..], idOf, idOf(x));
  }

  /** No two records share an id. */
  predicate UniqueIds<T>(s: seq<T>, idOf: T -> string) {
    forall j, k :: 0 <= j < k < |s| ==> idOf(s[j]) != idOf(s[k])
  }

  /** `i = s.findIndex(...); if (i !== -1) s[i] = x`: overwrites the first record with the id of `x`, if there is one. */
  function ReplaceId<T(==)>(s: seq<T>, idOf: T -> string, x: T): (r: seq<T>)
    ensures |r| == |s|
    ensures forall k :: 0 <= k < |s| ==>
      r[k] == if idOf(s[k]) == idOf(x) && (forall j :: 0 <= j < k ==> idOf(s[j]) != idOf(x)) then x else s[k]
    ensures (exists k :: 0 <= k < |s| && idOf(s[k]) == idOf(x)) ==> x in r
    ensures (forall k :: 0 <= k < |s| ==> idOf(s[k]) != idOf(x)) ==> r == s
  {
    var i := IndexOfId(s, idOf, idOf(x));
    if i == -1 then s else s[i := x]
  }

  /** Replacing a record leaves every record with another id where it was. */
  lemma ReplaceIdKeepsOthers<T(!new)>(s: seq<T>, idOf: T -> string, x: T)
    ensures RemoveId(ReplaceId(s, idOf, x), idOf, idOf(x)) == RemoveId(s, idOf, idOf(x))
  {
    var i := IndexOfId(s, idOf, idOf(x));
    if i != -1 {
      RemoveIdUpdate(s, idOf, i, x);
    }
  }

  /** Replacing a record by one of the same id keeps the ids unique. */
  lemma ReplaceIdKeepsUnique<T>(s: seq<T>, idOf: T -> string, x: T)
    requires UniqueIds(s, idOf)
    ensures UniqueIds(ReplaceId(s, idOf, x), idOf)
  {
    var r := ReplaceId(s, idOf, x);
    assert forall k :: 0 <= k < |s| ==> idOf(r[k]) == idOf(s[k]);
  }

  /** Filtering out the id of a record appended to a list without that id gives the list back. */
  lemma {:induction false} RemoveLast<T(!new)>(s: seq<T>, idOf: T -> string, x: T)
    requires forall k :: 0 <= k < |s| ==> idOf(s[k]) != idOf(x)
    ensures RemoveId(s + [x], idOf, idOf(x)) == s
  {
    var sx := s + [x];
    if s == [] {
      assert sx == [x] && sx[1..] == [];
      assert RemoveId(sx, idOf, idOf(x)) == [] + RemoveId([], idOf, idOf(x));
    } else {
      RemoveLast(s[1..], idOf, x);
      assert sx[0] == s[0] && sx[1..] == s[1..] + [x];
      assert RemoveId(sx, idOf, idOf(x)) == [s[0]] + RemoveId(sx[1..], idOf, idOf(x));
      assert [s[0]] + s[1..] == s;
    }
  }

  /** `s.map(x => idOf(x) === id ? f(x) : x)`: `f` applied to the records with `id`, the others as they were. */
  function UpdateId<T>(s: seq<T>, idOf: T -> string, id: string, f: T -> T): (r: seq<T>)
    ensures |r| == |s|
    ensures forall k :: 0 <= k < |s| && idOf(s[k]) != id ==> r[k] == s[k]
    ensures forall k :: 0 <= k < |s| && idOf(s[k]) == id ==> r[k] == f(s[k])
  {
    if s == [] then []
    else [if idOf(s[0]) == id then f(s[0]) else s[0]] + UpdateId(s[1..], idOf, id, f)
  }

  /** When `f` keeps ids, removing an id after updating it is the same as removing it straight away. */
  lemma {:induction false} RemoveAfterUpdate<T(!new)>(s: seq<T>, idOf: T -> string, id: string, f: T -> T)
    requires forall x :: idOf(f(x)) == idOf(x)
    ensures RemoveId(UpdateId(s, idOf, id, f), idOf, id) == RemoveId(s, idOf, id)
  {
    if s != [] {
      RemoveAfterUpdate(s[1..], idOf, id, f);
      var u := UpdateId(s, idOf, id, f);
      assert u[1..] == UpdateId(s[1..], idOf, id, f);
      assert idOf(u[0]) == idOf(s[0]);
    }
  }
}
