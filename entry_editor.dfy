/**
 * The entry editor: the entry shown for the selected taxon and the three
 * photo-set operations on one stage of it.  The stage transforms are values
 * (`AddSet`, `ReplaceSet`, `DeleteSet`); the editor object holds the entry
 * being edited and writes through to the store where the page does.
 *
 * The clock (`now`, `clock`), the random id of a new set and the answer of
 * the confirmation dialog are parameters.
 */
module EntryEditor {
  import opened Types
  import opened Lists
  import opened Db

  function SetId(s: PhotoSet): string { s.id }

  /** The entry the editor starts from for a taxon that has none yet. */
  function NewEntry(t: Taxon, now: int): (e: MothEntry)
    ensures e.id == t.taxonId && e.entryCode == "" && e.notes == ""
    ensures forall s :: e.stages.Get(s) == []
    ensures e.taxonName == t.scientificName && e.taxonChinese == t.chineseName && e.taxonRank == t.rank
    ensures e.family == t.family && e.genus == t.genus && e.species == t.species && e.subspecies == t.subspecies
    ensures e.lastUpdated == now
  {
    MothEntry(t.taxonId, "", t.scientificName, t.chineseName, t.rank, t.family, t.genus,
              t.species, t.subspecies, "", EmptyStages, now)
  }

  /** The empty set `addPhotoSet` creates. */
  function EmptySet(id: string): PhotoSet {
    PhotoSet(id, "", [])
  }

  /** `addPhotoSet`'s stage transform: one empty set at the end of `stage`. */
  function AddSet(stages: Stages, stage: MothStage, newId: string): (r: Stages)
    ensures |r.Get(stage)| == |stages.Get(stage)| + 1
    ensures r.Get(stage)[..|stages.Get(stage)|] == stages.Get(stage)
    ensures r.Get(stage)[|stages.Get(stage)|] == EmptySet(newId)
    ensures forall t :: t != stage ==> r.Get(t) == stages.Get(t)
  {
    var sets := stages.Get(stage) + [EmptySet(newId)];
    assert sets[..|stages.Get(stage)|] == stages.Get(stage);
    stages.With(stage, sets)
  }

  /** `updatePhotoSet`'s stage transform: position `index` of `stage` becomes `newSet`. */
  function ReplaceSet(stages: Stages, stage: MothStage, index: nat, newSet: PhotoSet): (r: Stages)
    requires index < |stages.Get(stage)|
    ensures |r.Get(stage)| == |stages.Get(stage)|
    ensures r.Get(stage)[index] == newSet
    ensures forall k :: 0 <= k < |stages.Get(stage)| && k != index ==> r.Get(stage)[k] == stages.Get(stage)[k]
    ensures forall t :: t != stage ==> r.Get(t) == stages.Get(t)
  {
    stages.With(stage, stages.Get(stage)[index := newSet])
  }

  /** `deletePhotoSet`'s stage transform: the sets with `setId` leave `stage`. */
  function DeleteSet(stages: Stages, stage: MothStage, setId: string): (r: Stages)
    ensures forall s :: s in r.Get(stage) <==> s in stages.Get(stage) && s.id != setId
    ensures forall s :: multiset(r.Get(stage))[s] == if s.id != setId then multiset(stages.Get(stage))[s] else 0
    ensures IsSubsequence(r.Get(stage), stages.Get(stage))
    ensures forall t :: t != stage ==> r.Get(t) == stages.Get(t)
  {
    RemoveIdCounts(stages.Get(stage), SetId, setId);
    stages.With(stage, RemoveId(stages.Get(stage), SetId, setId))
  }

  /** Deleting a set id the stage does not hold leaves the stages as they were. */
  lemma DeleteAbsentSet(stages: Stages, stage: MothStage, setId: string)
    requires FindById(stages.Get(stage), SetId, setId).None?
    ensures DeleteSet(stages, stage, setId) == stages
  {
    RemoveAbsentId(stages.Get(stage), SetId, setId);
    WithOwnList(stages, stage);
  }

  /** Writing a stage's own list back changes nothing. */
  lemma WithOwnList(stages: Stages, stage: MothStage)
    ensures stages.With(stage, stages.Get(stage)) == stages
  {
    match stage
    case Egg =>
    case Larva =>
    case Pupa =>
    case Adult =>
  }

  /** Deleting a set that was just added with a fresh id undoes the addition. */
  lemma DeleteUndoesAdd(stages: Stages, stage: MothStage, newId: string)
    requires FindById(stages.Get(stage), SetId, newId).None?
    ensures DeleteSet(AddSet(stages, stage, newId), stage, newId) == stages
  {
    var sets := stages.Get(stage);
    RemoveLast(sets, SetId, EmptySet(newId));
    var added := AddSet(stages, stage, newId);
    assert added.Get(stage) == sets + [EmptySet(newId)];
    var r := DeleteSet(added, stage, newId);
    assert r.Get(stage) == sets;
    assert forall t :: r.Get(t) == stages.Get(t);
    SameLists(r, stages);
  }

  /** Two stage maps with the same four lists are equal. */
  lemma SameLists(a: Stages, b: Stages)
    requires forall t :: a.Get(t) == b.Get(t)
    ensures a == b
  {
    assert a.Get(Egg) == b.Get(Egg) && a.Get(Larva) == b.Get(Larva);
    assert a.Get(Pupa) == b.Get(Pupa) && a.Get(Adult) == b.Get(Adult);
  }

  // ---------------------------------------------------------------------------
  // Entry codes across saves
  //
  // The store stamps a copy of the entry it is given; the code it generates
  // for an entry without one reaches the store only.  As the page is written
  // (EntryEditor.tsx:65-68 and 96-98, and `handleSave` at line 47), the page
  // keeps the unstamped entry, so a new entry stays without a code on the page
  // and every later save stores a freshly generated one.  The editor below
  // adopts the stamped entry instead, which keeps the first code for good.

  /** The codes stored by successive saves when the page keeps the entry it saved (the page as written). */
  function CodesKeepingPage(page: MothEntry, now: int, clocks: seq<Clock>): (codes: seq<string>)
    ensures |codes| == |clocks|
    ensures forall k :: 0 <= k < |clocks| ==> codes[k] == Stamped(page, now, clocks[k]).entryCode
  {
    if clocks == [] then []
    else [Stamped(page, now, clocks[0]).entryCode] + CodesKeepingPage(page, now, clocks[1..])
  }

  /** As written, two saves of a new entry at different times store two different codes. */
  lemma EntryCodeReassigned(t: Taxon, now: int, c1: Clock, c2: Clock)
    requires ValidClock(c1) && ValidClock(c2) && c1 != c2
    ensures CodesKeepingPage(NewEntry(t, now), now, [c1, c2])[0] != CodesKeepingPage(NewEntry(t, now), now, [c1, c2])[1]
  {
    var codes := CodesKeepingPage(NewEntry(t, now), now, [c1, c2]);
    assert codes[0] == GenerateEntryCode(c1) && codes[1] == GenerateEntryCode(c2);
    if codes[0] == codes[1] {
      EntryCodeInjective(c1, c2);
    }
  }

  /** The codes stored by successive saves when the page adopts each stamped entry (the editor below). */
  function CodesAdoptingStamp(page: MothEntry, now: int, clocks: seq<Clock>): (codes: seq<string>)
    ensures |codes| == |clocks|
    decreases |clocks|
  {
    if clocks == [] then []
    else
      var stored := Stamped(page, now, clocks[0]);
      [stored.entryCode] + CodesAdoptingStamp(stored, now, clocks[1..])
  }

  /** Adopting the stamped entry, every save stores the code of the first one, and an existing code is never replaced. */
  lemma AdoptingKeepsCode(page: MothEntry, now: int, clocks: seq<Clock>)
    ensures forall k :: 0 <= k < |clocks| ==> CodesAdoptingStamp(page, now, clocks)[k] != []
    ensures forall k :: 0 <= k < |clocks| ==>
              CodesAdoptingStamp(page, now, clocks)[k] == CodesAdoptingStamp(page, now, clocks)[0]
    ensures page.entryCode != [] ==>
              forall k :: 0 <= k < |clocks| ==> CodesAdoptingStamp(page, now, clocks)[k] == page.entryCode
  {
    if clocks != [] {
      var stored := Stamped(page, now, clocks[0]);
      StampedCodeKept(stored, now, clocks[1..]);
      assert CodesAdoptingStamp(page, now, clocks)[1..] == CodesAdoptingStamp(stored, now, clocks[1..]);
    }
  }

  /** Once the page entry has a code, adopting stamped entries stores that code every time. */
  lemma {:induction false} StampedCodeKept(page: MothEntry, now: int, clocks: seq<Clock>)
    requires page.entryCode != []
    ensures forall k :: 0 <= k < |clocks| ==> CodesAdoptingStamp(page, now, clocks)[k] == page.entryCode
    decreases |clocks|
  {
    if clocks != [] {
      var stored := Stamped(page, now, clocks[0]);
      StampedCodeKept(stored, now, clocks[1..]);
      assert CodesAdoptingStamp(page, now, clocks)[1..] == CodesAdoptingStamp(stored, now, clocks[1..]);
    }
  }

  /** The editor page: the store it writes to and the entry being edited. */
  class Editor {
    const store: CatalogStore
    var entry: Option<MothEntry>

    constructor (store: CatalogStore)
      ensures this.store == store && entry == None
    {
      this.store := store;
      entry := None;
    }

    /**
     * Selecting a taxon shows its stored entry when there is one, and a new
     * entry otherwise; clearing the selection clears the entry.  Nothing is
     * written to the store.
     */
    method SelectTaxon(selected: Option<Taxon>, now: int)
      modifies this`entry
      ensures selected.None? ==> entry.None?
      ensures selected.Some? && store.GetEntryByTaxonId(selected.value.taxonId).Some? ==>
        entry == store.GetEntryByTaxonId(selected.value.taxonId)
      ensures selected.Some? && store.GetEntryByTaxonId(selected.value.taxonId).None? ==>
        entry == Some(NewEntry(selected.value, now))
    {
      if selected.Some? {
        var existing := store.GetEntryByTaxonId(selected.value.taxonId);
        if existing.Some? {
          entry := existing;
        } else {
          entry := Some(NewEntry(selected.value, now));
        }
      } else {
        entry := None;
      }
    }

    /**
     * `handleSave`: saves the entry being edited, and the page then holds the
     * entry as stored, with its code.
     */
    method Save(now: int, clock: Clock)
      modifies this`entry, store`entries
      ensures old(entry).None? ==> entry.None? && store.entries == old(store.entries)
      ensures old(entry).Some? ==>
        entry == Some(Stamped(old(entry).value, now, clock))
        && store.entries == Upsert(old(store.entries), entry.value)
      ensures entry.Some? ==> store.GetEntryByTaxonId(entry.value.id) == entry && entry.value.entryCode != []
      ensures old(entry).Some? && old(entry).value.entryCode != [] ==> entry.value.entryCode == old(entry).value.entryCode
    {
      if entry.None? {
        return;
      }
      var e := entry.value;
      store.SaveEntry(e, now, clock);
      entry := Some(Stamped(e, now, clock));
    }

    /**
     * `addPhotoSet`: appends an empty set to the stage and saves the entry;
     * the page then holds the entry as stored, with its code.
     */
    method AddPhotoSet(stage: MothStage, newId: string, now: int, clock: Clock)
      modifies this`entry, store`entries
      ensures old(entry).None? ==> entry.None? && store.entries == old(store.entries)
      ensures old(entry).Some? ==>
        entry == Some(Stamped(old(entry).value.(stages := AddSet(old(entry).value.stages, stage, newId)), now, clock))
        && store.entries == Upsert(old(store.entries), entry.value)
      ensures entry.Some? ==> store.GetEntryByTaxonId(entry.value.id) == entry && entry.value.entryCode != []
      ensures old(entry).Some? && old(entry).value.entryCode != [] ==> entry.value.entryCode == old(entry).value.entryCode
    {
      if entry.None? {
        return;
      }
      var e := entry.value;
      var updated := e.(stages := e.stages.With(stage, e.stages.Get(stage) + [EmptySet(newId)]), lastUpdated := now);
      store.SaveEntry(updated, now, clock);
      entry := Some(Stamped(updated, now, clock));
    }

    /** `updatePhotoSet`: replaces one set of the stage; the page does not save here. */
    method UpdatePhotoSet(stage: MothStage, index: nat, newSet: PhotoSet, now: int)
      requires entry.Some? ==> index < |entry.value.stages.Get(stage)|
      modifies this`entry
      ensures old(entry).None? ==> entry.None?
      ensures old(entry).Some? ==>
        entry == Some(old(entry).value.(stages := ReplaceSet(old(entry).value.stages, stage, index, newSet), lastUpdated := now))
    {
      if entry.None? {
        return;
      }
      var e := entry.value;
      entry := Some(e.(stages := e.stages.With(stage, e.stages.Get(stage)[index := newSet]), lastUpdated := now));
    }

    /**
     * `deletePhotoSet`: with no such set in the stage, or when the user does
     * not confirm, nothing happens; otherwise the set leaves the stage, the
     * entry is saved and the page holds the entry as stored.
     */
    method DeletePhotoSet(stage: MothStage, setId: string, confirmed: bool, now: int, clock: Clock)
      modifies this`entry, store`entries
      ensures old(entry).None? || FindById(old(entry).value.stages.Get(stage), SetId, setId).None? || !confirmed ==>
        entry == old(entry) && store.entries == old(store.entries)
      ensures old(entry).Some? && FindById(old(entry).value.stages.Get(stage), SetId, setId).Some? && confirmed ==>
        entry == Some(Stamped(old(entry).value.(stages := DeleteSet(old(entry).value.stages, stage, setId)), now, clock))
        && store.entries == Upsert(old(store.entries), entry.value)
        && store.GetEntryByTaxonId(entry.value.id) == entry && entry.value.entryCode != []
      ensures old(entry).Some? && old(entry).value.entryCode != [] ==> entry.value.entryCode == old(entry).value.entryCode
    {
      if entry.None? {
        return;
      }
      var e := entry.value;
      var target := FindById(e.stages.Get(stage), SetId, setId);
      if target.None? {
        return;
      }
      if confirmed {
        var updated := e.(stages := e.stages.With(stage, RemoveId(e.stages.Get(stage), SetId, setId)), lastUpdated := now);
        store.SaveEntry(updated, now, clock);
        entry := Some(Stamped(updated, now, clock));
      }
    }
  }
}
