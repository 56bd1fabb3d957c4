/**
 * The persisted store of the catalog: the taxon index, the entries, the
 * import history and the legacy biodiversity records.
 * Each list is kept under its own storage key; here the key is a field of
 * the store object and a write replaces the field.  Every mutator reads the
 * list, changes it and writes the whole list back.
 *
 * The clock is a parameter: `now` stands for `Date.now()` and a `Clock` for
 * the calendar fields of `new Date()`.
 */
module Db {
  import opened TextUtil
  import opened Types
  import opened Lists

  /** The calendar fields `getFullYear`, `getMonth` (zero-based), `getDate`, `getHours`, `getMinutes`, `getSeconds`. */
  datatype Clock = Clock(year: nat, monthIndex: nat, day: nat, hours: nat, minutes: nat, seconds: nat)

  /** What a `Date` of years 1000 to 9999 answers. */
  predicate ValidClock(c: Clock) {
    1000 <= c.year <= 9999 && c.monthIndex < 12 && 1 <= c.day <= 31
    && c.hours < 24 && c.minutes < 60 && c.seconds < 60
  }

  /** `YYYYMMDD`: the year, then the month and the day zero-padded to two digits. */
  function DatePart(c: Clock): string {
    NatToString(c.year) + Pad2(c.monthIndex + 1) + Pad2(c.day)
  }

  /** `HHMMSS`: hours, minutes and seconds, each zero-padded to two digits. */
  function TimePart(c: Clock): string {
    Pad2(c.hours) + Pad2(c.minutes) + Pad2(c.seconds)
  }

  /** `generateEntryCode`: `YYYYMMDD-HHMMSS`. */
  function GenerateEntryCode(c: Clock): (code: string)
    ensures code != []
  {
    DatePart(c) + "-" + TimePart(c)
  }

  /** The three pieces of a concatenation are its slices at the piece boundaries. */
  lemma ThreeSlices(a: string, b: string, c: string)
    ensures (a + b + c)[..|a|] == a
    ensures (a + b + c)[|a|..|a| + |b|] == b
    ensures (a + b + c)[|a| + |b|..] == c
  {
    var abc := a + b + c;
    assert abc[..|a|] == a;
    assert abc[|a|..|a| + |b|] == b;
    assert abc[|a| + |b|..] == c;
  }

  /** For a four-digit year the date part is eight digits that read back as year, month and day. */
  lemma DatePartGroups(c: Clock)
    requires ValidClock(c)
    ensures |DatePart(c)| == 8 && AllDigits(DatePart(c))
    ensures ParseNat(DatePart(c)[..4]) == c.year
    ensures ParseNat(DatePart(c)[4..6]) == c.monthIndex + 1
    ensures ParseNat(DatePart(c)[6..8]) == c.day
  {
    var y, m, d := NatToString(c.year), Pad2(c.monthIndex + 1), Pad2(c.day);
    NatToStringLength(c.year, 3);
    ParseNatToString(c.year);
    assert DatePart(c) == y + m + d;
    assert |y| == 4 && |m| == 2 && |d| == 2;
    ThreeSlices(y, m, d);
    DigitsOfThree(y, m, d);
    assert DatePart(c)[..4] == y && DatePart(c)[4..6] == m && DatePart(c)[6..8] == d;
  }

  /** The time part is six digits that read back as hours, minutes and seconds. */
  lemma TimePartGroups(c: Clock)
    requires ValidClock(c)
    ensures |TimePart(c)| == 6 && AllDigits(TimePart(c))
    ensures ParseNat(TimePart(c)[..2]) == c.hours
    ensures ParseNat(TimePart(c)[2..4]) == c.minutes
    ensures ParseNat(TimePart(c)[4..6]) == c.seconds
  {
    var h, m, sec := Pad2(c.hours), Pad2(c.minutes), Pad2(c.seconds);
    assert TimePart(c) == h + m + sec;
    assert |h| == 2 && |m| == 2 && |sec| == 2;
    ThreeSlices(h, m, sec);
    DigitsOfThree(h, m, sec);
    assert TimePart(c)[..2] == h && TimePart(c)[2..4] == m && TimePart(c)[4..6] == sec;
  }

  lemma DigitsOfThree(a: string, b: string, c: string)
    requires AllDigits(a) && AllDigits(b) && AllDigits(c)
    ensures AllDigits(a + b + c)
  {
    var abc := a + b + c;
    forall i | 0 <= i < |abc|
      ensures IsDigit(abc[i])
    {
      if i < |a| {
        assert abc[i] == a[i];
      } else if i < |a| + |b| {
        assert abc[i] == b[i - |a|];
      } else {
        assert abc[i] == c[i - |a| - |b|];
      }
    }
  }

  /**
   * For a four-digit year the code is eight digits, a dash and six digits,
   * and reading the digit groups back gives the calendar fields.
   */
  lemma EntryCodeFormat(c: Clock)
    requires ValidClock(c)
    ensures |GenerateEntryCode(c)| == 15
    ensures GenerateEntryCode(c)[8] == '-'
    ensures AllDigits(GenerateEntryCode(c)[..8]) && AllDigits(GenerateEntryCode(c)[9..])
    ensures ParseNat(GenerateEntryCode(c)[..4]) == c.year
    ensures ParseNat(GenerateEntryCode(c)[4..6]) == c.monthIndex + 1
    ensures ParseNat(GenerateEntryCode(c)[6..8]) == c.day
    ensures ParseNat(GenerateEntryCode(c)[9..11]) == c.hours
    ensures ParseNat(GenerateEntryCode(c)[11..13]) == c.minutes
    ensures ParseNat(GenerateEntryCode(c)[13..15]) == c.seconds
  {
    DatePartGroups(c);
    TimePartGroups(c);
    var date, time := DatePart(c), TimePart(c);
    var code := GenerateEntryCode(c);
    ThreeSlices(date, "-", time);
    assert code[..8] == date && code[9..] == time;
    assert code[..4] == date[..4] && code[4..6] == date[4..6] && code[6..8] == date[6..8];
    assert code[9..11] == time[..2] && code[11..13] == time[2..4] && code[13..15] == time[4..6];
  }

  /** Two valid clocks that differ in any field give different entry codes. */
  lemma EntryCodeInjective(c1: Clock, c2: Clock)
    requires ValidClock(c1) && ValidClock(c2)
    requires GenerateEntryCode(c1) == GenerateEntryCode(c2)
    ensures c1 == c2
  {
    EntryCodeFormat(c1);
    EntryCodeFormat(c2);
  }

  function EntryId(e: MothEntry): string { e.id }

  function RecordId(r: BiodiversityRecord): string { r.id }

  /**
   * The entry `saveEntry` writes: a copy of `e` with `lastUpdated` set to the
   * clock, and a generated code when `e` has none.
   */
  function Stamped(e: MothEntry, now: int, clock: Clock): (r: MothEntry)
    ensures r.lastUpdated == now
    ensures r.entryCode != []
    ensures e.entryCode != [] ==> r.entryCode == e.entryCode
    ensures e.entryCode == [] ==> r.entryCode == GenerateEntryCode(clock)
    ensures r == e.(lastUpdated := now, entryCode := r.entryCode)
  {
    var updated := e.(lastUpdated := now);
    if updated.entryCode == "" then updated.(entryCode := GenerateEntryCode(clock)) else updated
  }

  /** Replace the entry with the same id where it stands, or put the entry first. */
  function Upsert(entries: seq<MothEntry>, e: MothEntry): (r: seq<MothEntry>)
    ensures (forall k :: 0 <= k < |entries| ==> entries[k].id != e.id) ==> r == [e] + entries
    ensures (exists k :: 0 <= k < |entries| && entries[k].id == e.id) ==>
              |r| == |entries| &&
              forall k :: 0 <= k < |entries| ==>
                r[k] == if entries[k].id == e.id && (forall j :: 0 <= j < k ==> entries[j].id != e.id) then e else entries[k]
  {
    if IndexOfId(entries, EntryId, e.id) == -1 then [e] + entries else ReplaceId(entries, EntryId, e)
  }

  /** After an upsert the entry is found under its id: at its old position, or first when it is new. */
  lemma UpsertPlacesEntry(entries: seq<MothEntry>, e: MothEntry)
    ensures var i := IndexOfId(entries, EntryId, e.id);
      var r := Upsert(entries, e);
      (i == -1 ==> |r| == |entries| + 1 && r[0] == e && r[1..] == entries)
      && (i != -1 ==> |r| == |entries| && r[i] == e)
    ensures FindById(Upsert(entries, e), EntryId, e.id) == Some(e)
  {
    var i := IndexOfId(entries, EntryId, e.id);
    var r := Upsert(entries, e);
    if i == -1 {
      assert r[0] == e && EntryId(r[0]) == e.id;
    } else {
      assert r == entries[i := e];
      assert IndexOfId(r, EntryId, e.id) == i by {
        assert forall k :: 0 <= k < i ==> r[k] == entries[k];
      }
    }
  }

  /** An upsert leaves every entry with another id as it was, in the same order. */
  lemma UpsertKeepsOthers(entries: seq<MothEntry>, e: MothEntry)
    ensures RemoveId(Upsert(entries, e), EntryId, e.id) == RemoveId(entries, EntryId, e.id)
  {
    if IndexOfId(entries, EntryId, e.id) == -1 {
      var r := [e] + entries;
      assert r[1..] == entries;
    } else {
      ReplaceIdKeepsOthers(entries, EntryId, e);
    }
  }

  /** An upsert keeps entry ids unique. */
  lemma UpsertKeepsUnique(entries: seq<MothEntry>, e: MothEntry)
    requires UniqueIds(entries, EntryId)
    ensures UniqueIds(Upsert(entries, e), EntryId)
  {
    if IndexOfId(entries, EntryId, e.id) == -1 {
      var r := [e] + entries;
      assert forall k :: 1 <= k < |r| ==> r[k] == entries[k - 1];
    } else {
      ReplaceIdKeepsUnique(entries, EntryId, e);
    }
  }

  /** `history.unshift(record); history.slice(0, 10)`. */
  function CappedHistory(history: seq<ImportRecord>, record: ImportRecord): (r: seq<ImportRecord>)
    ensures |r| == if |history| < 10 then |history| + 1 else 10
    ensures r[0] == record
    ensures r[1..] == history[..|r| - 1]
  {
    var all := [record] + history;
    assert all[1..] == history;
    if |all| <= 10 then all else all[..10]
  }

  /** A history of at most ten records stays at most ten records long, however many are added. */
  lemma {:induction false} HistoryStaysCapped(history: seq<ImportRecord>, added: seq<ImportRecord>)
    ensures |AddAll(history, added)| <= 10 || (added == [] && AddAll(history, added) == history)
    ensures added != [] ==> AddAll(history, added)[0] == added[|added| - 1]
  {
    if added != [] {
      HistoryStaysCapped(history, added[..|added| - 1]);
    }
  }

  /** The history after adding `added`, oldest first. */
  function AddAll(history: seq<ImportRecord>, added: seq<ImportRecord>): seq<ImportRecord>
  {
    if added == [] then history else CappedHistory(AddAll(history, added[..|added| - 1]), added[|added| - 1])
  }

  /** The in-memory form of the five storage keys. */
  class CatalogStore {
    var taxonIndex: seq<Taxon>
    var entries: seq<MothEntry>
    var importHistory: seq<ImportRecord>
    var records: seq<BiodiversityRecord>

    /** A store with every key absent: empty lists. */
    constructor ()
      ensures taxonIndex == [] && entries == [] && importHistory == [] && records == []
    {
      taxonIndex := [];
      entries := [];
      importHistory := [];
      records := [];
    }

    /** `saveTaxonIndex`: the index is replaced wholesale. */
    method SaveTaxonIndex(index: seq<Taxon>)
      modifies this`taxonIndex
      ensures taxonIndex == index
    {
      taxonIndex := index;
    }

    /** `getEntryByTaxonId`: the first stored entry with the id, if any. */
    function GetEntryByTaxonId(taxonId: string): (r: Option<MothEntry>)
      reads this
      ensures r.None? <==> forall k :: 0 <= k < |entries| ==> entries[k].id != taxonId
      ensures r.Some? ==> exists k :: 0 <= k < |entries| && entries[k] == r.value && r.value.id == taxonId
                                      && forall j :: 0 <= j < k ==> entries[j].id != taxonId
    {
      FindById(entries, EntryId, taxonId)
    }

    /**
     * `saveEntry`: stamps the entry and writes it over the stored entry with
     * the same id, or in front of all entries when there is none.
     */
    method SaveEntry(entry: MothEntry, now: int, clock: Clock)
      modifies this`entries
      ensures entries == Upsert(old(entries), Stamped(entry, now, clock))
      ensures GetEntryByTaxonId(entry.id) == Some(Stamped(entry, now, clock))
      ensures RemoveId(entries, EntryId, entry.id) == RemoveId(old(entries), EntryId, entry.id)
      ensures UniqueIds(old(entries), EntryId) ==> UniqueIds(entries, EntryId)
    {
      var index := IndexOfId(entries, EntryId, entry.id);
      var updated := entry.(lastUpdated := now);
      if updated.entryCode == "" {
        updated := updated.(entryCode := GenerateEntryCode(clock));
      }
      if index != -1 {
        entries := entries[index := updated];
      } else {
        entries := [updated] + entries;
      }
      UpsertPlacesEntry(old(entries), updated);
      UpsertKeepsOthers(old(entries), updated);
      if UniqueIds(old(entries), EntryId) {
        UpsertKeepsUnique(old(entries), updated);
      }
    }

    /** `deleteEntry`: drops every entry with the id, keeping the rest in order. */
    method DeleteEntry(taxonId: string)
      modifies this`entries
      ensures entries == RemoveId(old(entries), EntryId, taxonId)
      ensures GetEntryByTaxonId(taxonId).None?
      ensures old(GetEntryByTaxonId(taxonId)).None? ==> entries == old(entries)
    {
      if GetEntryByTaxonId(taxonId).None? {
        RemoveAbsentId(entries, EntryId, taxonId);
      }
      entries := RemoveId(entries, EntryId, taxonId);
    }

    /** `addImportRecord`: the new record first, then the previous ones, ten at most. */
    method AddImportRecord(record: ImportRecord)
      modifies this`importHistory
      ensures importHistory == CappedHistory(old(importHistory), record)
    {
      var history := [record] + importHistory;
      importHistory := if |history| <= 10 then history else history[..10];
    }

    /** `saveRecord`: the record goes in front. */
    method SaveRecord(record: BiodiversityRecord)
      modifies this`records
      ensures records == [record] + old(records)
    {
      records := [record] + records;
    }

    /** `updateRecord`: overwrites the first record with the same id; with no such record, nothing is written. */
    method UpdateRecord(record: BiodiversityRecord)
      modifies this`records
      ensures records == ReplaceId(old(records), RecordId, record)
      ensures RemoveId(records, RecordId, record.id) == RemoveId(old(records), RecordId, record.id)
    {
      var index := IndexOfId(records, RecordId, record.id);
      if index != -1 {
        records := records[index := record];
      }
      ReplaceIdKeepsOthers(old(records), RecordId, record);
    }

    /** `deleteRecord`: drops every record with the id, keeping the rest in order. */
    method DeleteRecord(id: string)
      modifies this`records
      ensures records == RemoveId(old(records), RecordId, id)
      ensures forall r :: r in records ==> r.id != id
    {
      records := RemoveId(records, RecordId, id);
    }
  }
}
