/**
 * The adult gallery: the entries that have adult photo sets, and the photo
 * shown for an entry — the first adult photo of a given gender, or the
 * first adult photo of any gender.  Sets are scanned in order, and the
 * photos of each set in order.
 */
module Gallery {
  import opened Types
  import opened Lists

  /** `entries.filter(e => e.stages.adult.length > 0)`. */
  function EntriesWithAdults(entries: seq<MothEntry>): (r: seq<MothEntry>)
    ensures forall e :: e in r <==> e in entries && e.stages.adult != []
    ensures IsSubsequence(r, entries)
    ensures |r| <= |entries|
  {
    if entries == [] then []
    else
      var rest := EntriesWithAdults(entries[1..]);
      FilterStep(entries[0].stages.adult != [], entries, rest);
      (if entries[0].stages.adult != [] then [entries[0]] else []) + rest
  }

  /** The filter keeps each entry with adult sets as often as it occurs, and no other entry. */
  lemma {:induction false} EntriesWithAdultsCounts(entries: seq<MothEntry>)
    ensures forall e :: multiset(EntriesWithAdults(entries))[e] == if e.stages.adult != [] then multiset(entries)[e] else 0
  {
    if entries != [] {
      EntriesWithAdultsCounts(entries[1..]);
      FilterCounts(entries, EntriesWithAdults(entries[1..]), entries[0].stages.adult != []);
    }
  }

  /** Filtering an already filtered list changes nothing. */
  lemma {:induction false} EntriesWithAdultsIdempotent(entries: seq<MothEntry>)
    ensures EntriesWithAdults(EntriesWithAdults(entries)) == EntriesWithAdults(entries)
  {
    if entries != [] {
      EntriesWithAdultsIdempotent(entries[1..]);
      var r := EntriesWithAdults(entries);
      var rest := EntriesWithAdults(entries[1..]);
      if entries[0].stages.adult != [] {
        assert r == [entries[0]] + rest;
        assert r[0] == entries[0] && r[1..] == rest;
        assert EntriesWithAdults(r) == [entries[0]] + EntriesWithAdults(rest);
      } else {
        assert r == rest;
      }
    }
  }

  /** The position of the first photo with the gender, or -1. */
  function IndexOfGender(photos: seq<PhotoItem>, g: Gender): (i: int)
    ensures -1 <= i < |photos|
    ensures i == -1 <==> forall k :: 0 <= k < |photos| ==> photos[k].gender != Some(g)
    ensures i >= 0 ==> photos[i].gender == Some(g) && forall k :: 0 <= k < i ==> photos[k].gender != Some(g)
  {
    if photos == [] then -1
    else if photos[0].gender == Some(g) then 0
    else
      var j := IndexOfGender(photos[1..], g);
      if j == -1 then -1 else j + 1
  }

  /** `photos.find(p => p.gender === g)`, the reference the scans are compared with. */
  function FirstWithGender(photos: seq<PhotoItem>, g: Gender): Option<PhotoItem>
  {
    var i := IndexOfGender(photos, g);
    if i == -1 then None else Some(photos[i])
  }

  /**
   * `getSpecificGenderPhoto`: scans the adult sets in order, answering the
   * first photo of a set with the gender.  That is the first adult photo of
   * the gender over all sets; none is shown exactly when no adult photo has it.
   */
  function GetSpecificGenderPhoto(e: MothEntry, g: Gender): (r: Option<PhotoItem>)
    ensures r == FirstWithGender(AllPhotos(e.stages.adult), g)
    ensures r.Some? ==> r.value in AllPhotos(e.stages.adult) && r.value.gender == Some(g)
    ensures r.None? <==> forall p :: p in AllPhotos(e.stages.adult) ==> p.gender != Some(g)
  {
    GenderPhotoIsFirstOfAll(e.stages.adult, g);
    FirstInSets(e.stages.adult, g)
  }

  /** The loop of `getSpecificGenderPhoto` over a list of sets. */
  function FirstInSets(sets: seq<PhotoSet>, g: Gender): Option<PhotoItem> {
    if sets == [] then None
    else
      var found := FirstWithGender(sets[0].photos, g);
      if found.Some? then found else FirstInSets(sets[1..], g)
  }

  /** The first match in a joined list is the first match in its first part, or else in its second. */
  lemma FirstWithGenderAppend(a: seq<PhotoItem>, b: seq<PhotoItem>, g: Gender)
    ensures FirstWithGender(a + b, g) == if FirstWithGender(a, g).Some? then FirstWithGender(a, g) else FirstWithGender(b, g)
  {
    var ab := a + b;
    var ia, ib := IndexOfGender(a, g), IndexOfGender(b, g);
    if ia != -1 {
      IndexIsFirstMatch(ab, g, ia);
      assert ab[ia] == a[ia];
    } else if ib != -1 {
      forall k | 0 <= k < |a| + ib
        ensures ab[k].gender != Some(g)
      {
        if k < |a| {
          assert ab[k] == a[k];
        } else {
          assert ab[k] == b[k - |a|];
        }
      }
      assert ab[|a| + ib] == b[ib];
      IndexIsFirstMatch(ab, g, |a| + ib);
    } else {
      forall k | 0 <= k < |ab|
        ensures ab[k].gender != Some(g)
      {
        if k < |a| {
          assert ab[k] == a[k];
        } else {
          assert ab[k] == b[k - |a|];
        }
      }
    }
  }

  /** A position holding the gender with none before it is the index the scan answers. */
  lemma IndexIsFirstMatch(photos: seq<PhotoItem>, g: Gender, j: nat)
    requires j < |photos| && photos[j].gender == Some(g)
    requires forall k :: 0 <= k < j ==> photos[k].gender != Some(g)
    ensures IndexOfGender(photos, g) == j
  {
    var i := IndexOfGender(photos, g);
    assert i != -1;
    assert !(i < j) && !(j < i);
  }

  /** Scanning set by set finds the same photo as scanning all adult photos in one run. */
  lemma {:induction false} GenderPhotoIsFirstOfAll(sets: seq<PhotoSet>, g: Gender)
    ensures FirstInSets(sets, g) == FirstWithGender(AllPhotos(sets), g)
  {
    if sets != [] {
      GenderPhotoIsFirstOfAll(sets[1..], g);
      FirstWithGenderAppend(sets[0].photos, AllPhotos(sets[1..]), g);
    }
  }

  /**
   * `getFirstAvailablePhoto`: the first photo of the first adult set that has
   * one, which is the first of all adult photos; none exactly when the adult
   * stage has no photo.
   */
  function GetFirstAvailablePhoto(e: MothEntry): (r: Option<PhotoItem>)
    ensures r.None? <==> AllPhotos(e.stages.adult) == []
    ensures r.Some? ==> r.value == AllPhotos(e.stages.adult)[0]
  {
    FirstAvailableIsFirstOfAll(e.stages.adult);
    FirstOfSets(e.stages.adult)
  }

  function FirstOfSets(sets: seq<PhotoSet>): Option<PhotoItem> {
    if sets == [] then None
    else if |sets[0].photos| > 0 then Some(sets[0].photos[0])
    else FirstOfSets(sets[1..])
  }

  /** The first available photo is the first of all adult photos, and there is one exactly when the adult stage has a photo. */
  lemma {:induction false} FirstAvailableIsFirstOfAll(sets: seq<PhotoSet>)
    ensures FirstOfSets(sets) == if AllPhotos(sets) == [] then None else Some(AllPhotos(sets)[0])
  {
    if sets != [] {
      FirstAvailableIsFirstOfAll(sets[1..]);
      var all := AllPhotos(sets);
      assert all == sets[0].photos + AllPhotos(sets[1..]);
      if |sets[0].photos| > 0 {
        assert all != [] && all[0] == sets[0].photos[0];
      } else {
        assert sets[0].photos == [];
        assert all == AllPhotos(sets[1..]);
      }
    }
  }
}
