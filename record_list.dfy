/**
 * The record list: the search over stored entries and the CSV export.  The
 * export sorts a copy of the entries by family, genus, species and
 * subspecies, lower-cased, and writes one row of seventeen values per entry:
 * the names, the stages seen, the photo count of each stage, whether the
 * adult stage has a male and a female photo, and the iNaturalist links.
 *
 * `localeCompare` is taken as the order of character codes, and the ISO
 * rendering of the last-update time is a parameter.
 */
module RecordList {
  import opened TextUtil
  import opened Types
  import Gallery
  import opened Lists

  // ---------------------------------------------------------------------------
  // The search filter

  /** The list filter: the query, lower-cased, occurs in the lower-cased name, Chinese name or notes, or the raw query occurs in the entry code. */
  predicate Listed(e: MothEntry, query: string) {
    Contains(ToLower(e.taxonName), ToLower(query))
    || Contains(ToLower(e.taxonChinese), ToLower(query))
    || Contains(ToLower(e.notes), ToLower(query))
    || Contains(e.entryCode, query)
  }

  /** `entries.filter(...)`. */
  function Filtered(entries: seq<MothEntry>, query: string): (r: seq<MothEntry>)
    ensures forall e :: e in r <==> e in entries && Listed(e, query)
    ensures IsSubsequence(r, entries)
    ensures |r| <= |entries|
  {
    if entries == [] then []
    else
      var rest := Filtered(entries[1..], query);
      FilterStep(Listed(entries[0], query), entries, rest);
      (if Listed(entries[0], query) then [entries[0]] else []) + rest
  }

  /** The filter keeps each listed entry as often as it occurs, and no other entry. */
  lemma {:induction false} FilteredCounts(entries: seq<MothEntry>, query: string)
    ensures forall e :: multiset(Filtered(entries, query))[e] == if Listed(e, query) then multiset(entries)[e] else 0
  {
    if entries != [] {
      FilteredCounts(entries[1..], query);
      FilterCounts(entries, Filtered(entries[1..], query), Listed(entries[0], query));
    }
  }

  /** An empty query lists every entry, in stored order. */
  lemma {:induction false} EmptyQueryListsAll(entries: seq<MothEntry>)
    ensures Filtered(entries, "") == entries
  {
    if entries != [] {
      EmptyQueryListsAll(entries[1..]);
      assert Contains(entries[0].entryCode, "");
      assert [entries[0]] + entries[1..] == entries;
    }
  }

  // ---------------------------------------------------------------------------
  // The export order

  function OrEmpty(o: Option<string>): string {
    if o.Some? then o.value else ""
  }

  /** The four lower-cased sort fields of an entry; a missing one counts as empty. */
  function SortKey(e: MothEntry): (k: seq<string>)
    ensures |k| == 4
  {
    [ToLower(e.family), ToLower(e.genus), ToLower(OrEmpty(e.species)), ToLower(OrEmpty(e.subspecies))]
  }

  /** The comparator: the first field that differs decides; equal keys compare equal. */
  predicate KeysLe(a: seq<string>, b: seq<string>)
  {
    a == [] || b == [] || (if a[0] != b[0] then StrLe(a[0], b[0]) else KeysLe(a[1..], b[1..]))
  }

  lemma {:induction false} KeysLeTotal(a: seq<string>, b: seq<string>)
    ensures KeysLe(a, b) || KeysLe(b, a)
  {
    if a != [] && b != [] {
      if a[0] != b[0] {
        StrLeTotal(a[0], b[0]);
      } else {
        KeysLeTotal(a[1..], b[1..]);
      }
    }
  }

  lemma {:induction false} KeysLeTransitive(a: seq<string>, b: seq<string>, c: seq<string>)
    requires |a| == |b| == |c|
    requires KeysLe(a, b) && KeysLe(b, c)
    ensures KeysLe(a, c)
  {
    if a != [] {
      if a[0] != b[0] && b[0] != c[0] {
        StrLeTransitive(a[0], b[0], c[0]);
        if a[0] == c[0] {
          StrLeAntisymmetric(b[0], c[0]);
        }
      } else if a[0] == b[0] && b[0] == c[0] {
        KeysLeTransitive(a[1..], b[1..], c[1..]);
      }
    }
  }

  /** `a` may stand before `b` in the export. */
  predicate Before(a: MothEntry, b: MothEntry) {
    KeysLe(SortKey(a), SortKey(b))
  }

  predicate SortedByKey(s: seq<MothEntry>) {
    forall i, j :: 0 <= i < j < |s| ==> Before(s[i], s[j])
  }

  /** Puts `x` in front of the first entry it may precede. */
  function Insert(x: MothEntry, s: seq<MothEntry>): (r: seq<MothEntry>)
    ensures multiset(r) == multiset(s) + multiset{x}
    ensures forall y :: y in r ==> y == x || y in s
  {
    if s == [] then [x]
    else if Before(x, s[0]) then [x] + s
    else
      assert s == [s[0]] + s[1..];
      [s[0]] + Insert(x, s[1..])
  }

  /** `[...entries].sort(comparator)`: a sorted copy, by insertion, stable for equal keys. */
  function SortEntries(entries: seq<MothEntry>): (r: seq<MothEntry>)
    ensures multiset(r) == multiset(entries)
  {
    if entries == [] then []
    else
      assert entries == [entries[0]] + entries[1..];
      Insert(entries[0], SortEntries(entries[1..]))
  }

  lemma {:induction false} InsertSorted(x: MothEntry, s: seq<MothEntry>)
    requires SortedByKey(s)
    ensures SortedByKey(Insert(x, s))
  {
    if s != [] {
      FirstBeforeRest(s);
      if Before(x, s[0]) {
        forall y | y in s ensures Before(x, y) {
          if y != s[0] {
            KeysLeTransitive(SortKey(x), SortKey(s[0]), SortKey(y));
          }
        }
        ConsSorted(x, s);
      } else {
        InsertSorted(x, s[1..]);
        KeysLeTotal(SortKey(x), SortKey(s[0]));
        ConsSorted(s[0], Insert(x, s[1..]));
      }
    }
  }

  /** In a sorted list the first entry may precede every later one. */
  lemma FirstBeforeRest(s: seq<MothEntry>)
    requires SortedByKey(s) && s != []
    ensures forall y :: y in s[1..] ==> Before(s[0], y)
  {
    forall y | y in s[1..] ensures Before(s[0], y) {
      var j :| 0 <= j < |s[1..]| && s[1..][j] == y;
      assert s[j + 1] == y;
    }
  }

  /** An entry that may precede every entry of a sorted list can go in front of it. */
  lemma ConsSorted(h: MothEntry, s: seq<MothEntry>)
    requires SortedByKey(s)
    requires forall y :: y in s ==> Before(h, y)
    ensures SortedByKey([h] + s)
  {
    var r := [h] + s;
    forall i, j | 0 <= i < j < |r| ensures Before(r[i], r[j]) {
      assert r[j] == s[j - 1];
      if i > 0 {
        assert r[i] == s[i - 1];
      }
    }
  }

  /** The export order is sorted by the comparator and holds exactly the stored entries. */
  lemma {:induction false} SortEntriesSorted(entries: seq<MothEntry>)
    ensures SortedByKey(SortEntries(entries))
  {
    if entries != [] {
      SortEntriesSorted(entries[1..]);
      InsertSorted(entries[0], SortEntries(entries[1..]));
    }
  }

  // ---------------------------------------------------------------------------
  // The per-entry values of a row

  /** `sets.reduce((acc, set) => acc + set.photos.length, 0)`. */
  function PhotoCount(sets: seq<PhotoSet>): nat {
    if sets == [] then 0 else |sets[0].photos| + PhotoCount(sets[1..])
  }

  /** A stage's photo count is the number of its photos, set after set. */
  lemma {:induction false} PhotoCountIsAllPhotos(sets: seq<PhotoSet>)
    ensures PhotoCount(sets) == |AllPhotos(sets)|
  {
    if sets != [] {
      PhotoCountIsAllPhotos(sets[1..]);
    }
  }

  /** `s.charAt(0).toUpperCase() + s.slice(1)`. */
  function Capitalize(name: string): string {
    if name == [] then [] else [UpperChar(name[0])] + name[1..]
  }

  /** The stages of `stages` that hold at least one set, in the same order. */
  function SeenStages(e: MothEntry, stages: seq<MothStage>): (r: seq<MothStage>)
    ensures forall s :: s in r <==> s in stages && e.stages.Get(s) != []
    ensures IsSubsequence(r, stages)
  {
    if stages == [] then []
    else
      var rest := SeenStages(e, stages[1..]);
      FilterStep(e.stages.Get(stages[0]) != [], stages, rest);
      (if e.stages.Get(stages[0]) != [] then [stages[0]] else []) + rest
  }

  /** Each stage holding a set is kept as often as it is listed, and no other stage. */
  lemma {:induction false} SeenStagesCounts(e: MothEntry, stages: seq<MothStage>)
    ensures forall s :: multiset(SeenStages(e, stages))[s] == if e.stages.Get(s) != [] then multiset(stages)[s] else 0
  {
    if stages != [] {
      SeenStagesCounts(e, stages[1..]);
      FilterCounts(stages, SeenStages(e, stages[1..]), e.stages.Get(stages[0]) != []);
    }
  }

  function StageLabels(stages: seq<MothStage>): (r: seq<string>)
    ensures |r| == |stages|
    ensures forall k :: 0 <= k < |stages| ==> r[k] == Capitalize(StageName(stages[k]))
  {
    if stages == [] then [] else [Capitalize(StageName(stages[0]))] + StageLabels(stages[1..])
  }

  /** The "Stages Seen" value. */
  function StagesSeen(e: MothEntry): string {
    Join(StageLabels(SeenStages(e, AllStages)), "|")
  }

  /** The stage labels are the capitalised stage keys and hold no `|`. */
  lemma StageLabelValues()
    ensures Capitalize(StageName(Egg)) == "Egg" && Capitalize(StageName(Larva)) == "Larva"
    ensures Capitalize(StageName(Pupa)) == "Pupa" && Capitalize(StageName(Adult)) == "Adult"
  {
    assert "egg"[1..] == "gg" && "larva"[1..] == "arva" && "pupa"[1..] == "upa" && "adult"[1..] == "dult";
  }

  /**
   * Splitting "Stages Seen" on `|` gives back the labels of the stages that
   * hold a set, and it is empty when none does.
   */
  lemma StagesSeenParts(e: MothEntry)
    ensures SeenStages(e, AllStages) == [] ==> StagesSeen(e) == ""
    ensures SeenStages(e, AllStages) != [] ==> Split(StagesSeen(e), '|') == StageLabels(SeenStages(e, AllStages))
  {
    var seen := SeenStages(e, AllStages);
    var labels := StageLabels(seen);
    if seen != [] {
      forall k | 0 <= k < |labels| ensures forall i :: 0 <= i < |labels[k]| ==> labels[k][i] != '|' {
        LabelHasNoBar(seen[k]);
      }
      SplitJoin(labels, '|');
    }
  }

  lemma LabelHasNoBar(s: MothStage)
    ensures forall i :: 0 <= i < |Capitalize(StageName(s))| ==> Capitalize(StageName(s))[i] != '|'
  {
    StageLabelValues();
    match s
    case Egg =>
    case Larva =>
    case Pupa =>
    case Adult =>
  }

  /** An entry with sets in every stage has seen "Egg|Larva|Pupa|Adult". */
  lemma EveryStageSeen(e: MothEntry)
    requires forall s :: e.stages.Get(s) != []
    ensures StagesSeen(e) == "Egg" + "|" + "Larva" + "|" + "Pupa" + "|" + "Adult"
  {
    SeenEveryStage(e);
    LabelsOfAllStages();
    JoinFour("Egg", "Larva", "Pupa", "Adult", "|");
  }

  lemma SeenEveryStage(e: MothEntry)
    requires forall s :: e.stages.Get(s) != []
    ensures SeenStages(e, AllStages) == AllStages
  {
    var all := AllStages;
    assert forall k :: 0 <= k < |all| ==> e.stages.Get(all[k]) != [];
    AllStagesSeen(e, all);
  }

  /** When every listed stage has a set, all of them are seen, in list order. */
  lemma {:induction false} AllStagesSeen(e: MothEntry, stages: seq<MothStage>)
    requires forall k :: 0 <= k < |stages| ==> e.stages.Get(stages[k]) != []
    ensures SeenStages(e, stages) == stages
  {
    if stages != [] {
      AllStagesSeen(e, stages[1..]);
      assert [stages[0]] + stages[1..] == stages;
    }
  }

  lemma LabelsOfAllStages()
    ensures StageLabels(AllStages) == ["Egg", "Larva", "Pupa", "Adult"]
  {
    StageLabelValues();
  }

  /** `photos.some(p => p.gender === g)`. */
  function AnyPhotoHasGender(photos: seq<PhotoItem>, g: Gender): bool {
    photos != [] && (photos[0].gender == Some(g) || AnyPhotoHasGender(photos[1..], g))
  }

  /** `e.stages.adult.some(set => set.photos.some(...))`. */
  function AnySetHasGender(sets: seq<PhotoSet>, g: Gender): bool {
    sets != [] && (AnyPhotoHasGender(sets[0].photos, g) || AnySetHasGender(sets[1..], g))
  }

  lemma {:induction false} AnyPhotoIff(photos: seq<PhotoItem>, g: Gender)
    ensures AnyPhotoHasGender(photos, g) <==> exists p :: p in photos && p.gender == Some(g)
  {
    if photos != [] {
      AnyPhotoIff(photos[1..], g);
      assert forall p :: p in photos <==> p == photos[0] || p in photos[1..];
    }
  }

  /** The adult-gender flag holds exactly when some adult photo has that gender. */
  lemma {:induction false} AnySetIff(sets: seq<PhotoSet>, g: Gender)
    ensures AnySetHasGender(sets, g) <==> exists p :: p in AllPhotos(sets) && p.gender == Some(g)
  {
    if sets != [] {
      AnySetIff(sets[1..], g);
      AnyPhotoIff(sets[0].photos, g);
      assert AllPhotos(sets) == sets[0].photos + AllPhotos(sets[1..]);
    }
  }

  /** The export says an adult of a gender exists exactly when the gallery finds a photo of that gender. */
  lemma GenderFlagMatchesGallery(e: MothEntry, g: Gender)
    ensures AnySetHasGender(e.stages.adult, g) <==> Gallery.GetSpecificGenderPhoto(e, g).Some?
  {
    AnySetIff(e.stages.adult, g);
  }

  function YesNo(b: bool): string {
    if b then "Yes" else "No"
  }

  /** The links of a stage's sets, in set order. */
  function SetLinks(sets: seq<PhotoSet>): (r: seq<string>)
    ensures |r| == |sets|
    ensures forall k :: 0 <= k < |sets| ==> r[k] == sets[k].inatLink
  {
    if sets == [] then [] else [sets[0].inatLink] + SetLinks(sets[1..])
  }

  /** The links of all sets, stage after stage. */
  function EntryLinks(e: MothEntry): seq<string> {
    SetLinks(e.stages.egg) + SetLinks(e.stages.larva) + SetLinks(e.stages.pupa) + SetLinks(e.stages.adult)
  }

  /** A link the export keeps: something other than blanks. */
  predicate IsLink(l: string) {
    !AllWhitespace(l)
  }

  /** `link && link.trim() !== ''` holds exactly for the links `IsLink` keeps. */
  lemma IsLinkIff(l: string)
    ensures IsLink(l) <==> Trim(l) != []
  {
    TrimEmptyIff(l);
  }

  /** `links.filter(link => link && link.trim() !== '')`. */
  function NonBlank(links: seq<string>): (r: seq<string>)
    ensures forall l :: l in r <==> l in links && IsLink(l)
    ensures IsSubsequence(r, links)
  {
    if links == [] then []
    else
      var rest := NonBlank(links[1..]);
      FilterStep(IsLink(links[0]), links, rest);
      (if IsLink(links[0]) then [links[0]] else []) + rest
  }

  /** Each non-blank link is kept as often as it occurs, and no blank one. */
  lemma {:induction false} NonBlankCounts(links: seq<string>)
    ensures forall l :: multiset(NonBlank(links))[l] == if IsLink(l) then multiset(links)[l] else 0
  {
    if links != [] {
      NonBlankCounts(links[1..]);
      FilterCounts(links, NonBlank(links[1..]), IsLink(links[0]));
    }
  }

  /** A link is exported exactly when it is not blank and some set of some stage carries it. */
  lemma ExportedLinks(e: MothEntry, l: string)
    ensures l in NonBlank(EntryLinks(e)) <==>
      Trim(l) != [] && exists s: MothStage, k :: 0 <= k < |e.stages.Get(s)| && e.stages.Get(s)[k].inatLink == l
  {
    IsLinkIff(l);
    InEntryLinks(e, l);
  }

  /** The links of an entry are the links of its sets, whatever the stage. */
  lemma InEntryLinks(e: MothEntry, l: string)
    ensures l in EntryLinks(e) <==>
      exists s: MothStage, k :: 0 <= k < |e.stages.Get(s)| && e.stages.Get(s)[k].inatLink == l
  {
    var links := EntryLinks(e);
    if l in links {
      var s :| s in [Egg, Larva, Pupa, Adult] && l in SetLinks(e.stages.Get(s));
      var k :| 0 <= k < |SetLinks(e.stages.Get(s))| && SetLinks(e.stages.Get(s))[k] == l;
      assert e.stages.Get(s)[k].inatLink == l;
    }
    forall s: MothStage, k | 0 <= k < |e.stages.Get(s)| ensures e.stages.Get(s)[k].inatLink in links {
      assert SetLinks(e.stages.Get(s))[k] == e.stages.Get(s)[k].inatLink;
    }
  }

  const Headers: seq<string> := [
    "Entry Code", "Family", "Genus", "Species", "Subspecies", "Scientific Name", "Chinese Name", "Rank",
    "Stages Seen",
    "egg_photos_count", "larva_photos_count", "pupa_photos_count", "adult_photos_count",
    "has_male_adult", "has_female_adult",
    "iNaturalist Links", "Last Updated"]

  function Quoted(s: string): string {
    "\"" + s + "\""
  }

  /** The first nine values of a row: the code, the taxon columns and the stages seen. */
  function TaxonCells(e: MothEntry): (cells: seq<string>)
    ensures |cells| == 9
  {
    [e.entryCode, e.family, e.genus, OrEmpty(e.species), OrEmpty(e.subspecies),
     Quoted(FormatScientificName(e.genus, e.species, e.subspecies)), Quoted(e.taxonChinese), e.taxonRank,
     StagesSeen(e)]
  }

  /** The four photo counts, egg to adult. */
  function CountCells(e: MothEntry): (cells: seq<string>)
    ensures |cells| == 4
  {
    [NatToString(PhotoCount(e.stages.egg)), NatToString(PhotoCount(e.stages.larva)),
     NatToString(PhotoCount(e.stages.pupa)), NatToString(PhotoCount(e.stages.adult))]
  }

  /** The male and female flags of the adult stage. */
  function GenderCells(e: MothEntry): (cells: seq<string>)
    ensures |cells| == 2
  {
    [YesNo(AnySetHasGender(e.stages.adult, Male)), YesNo(AnySetHasGender(e.stages.adult, Female))]
  }

  /** The seventeen values of an entry's row; `isoDate` renders a clock value. */
  function ExportRow(e: MothEntry, isoDate: int -> string): (row: seq<string>)
    ensures |row| == |Headers| == 17
  {
    TaxonCells(e) + CountCells(e) + GenderCells(e)
    + [Quoted(Join(NonBlank(EntryLinks(e)), " ; ")), isoDate(e.lastUpdated)]
  }

  /** Where the count and flag values sit in a row. */
  lemma RowLayout(e: MothEntry, isoDate: int -> string)
    ensures forall k :: 0 <= k < 4 ==> ExportRow(e, isoDate)[9 + k] == CountCells(e)[k]
    ensures forall k :: 0 <= k < 2 ==> ExportRow(e, isoDate)[13 + k] == GenderCells(e)[k]
  {
    var a, b, c := TaxonCells(e), CountCells(e), GenderCells(e);
    var d := [Quoted(Join(NonBlank(EntryLinks(e)), " ; ")), isoDate(e.lastUpdated)];
    var row := ExportRow(e, isoDate);
    assert row == a + b + c + d;
    forall k | 0 <= k < 4
      ensures row[9 + k] == b[k]
    {
      assert row[9 + k] == (a + b)[9 + k];
    }
    forall k | 0 <= k < 2
      ensures row[13 + k] == c[k]
    {
      assert row[13 + k] == (a + b + c)[13 + k];
    }
  }

  /** The four count columns are the decimal numbers of photos of each stage. */
  lemma ExportRowCounts(e: MothEntry, isoDate: int -> string)
    ensures ExportRow(e, isoDate)[9] == NatToString(|AllPhotos(e.stages.egg)|)
    ensures ExportRow(e, isoDate)[10] == NatToString(|AllPhotos(e.stages.larva)|)
    ensures ExportRow(e, isoDate)[11] == NatToString(|AllPhotos(e.stages.pupa)|)
    ensures ExportRow(e, isoDate)[12] == NatToString(|AllPhotos(e.stages.adult)|)
  {
    RowLayout(e, isoDate);
    var row := ExportRow(e, isoDate);
    assert row[9] == CountCells(e)[0] && row[10] == CountCells(e)[1];
    assert row[11] == CountCells(e)[2] && row[12] == CountCells(e)[3];
    PhotoCountIsAllPhotos(e.stages.egg);
    PhotoCountIsAllPhotos(e.stages.larva);
    PhotoCountIsAllPhotos(e.stages.pupa);
    PhotoCountIsAllPhotos(e.stages.adult);
  }

  /** The two gender columns say "Yes" exactly when an adult photo of that gender exists. */
  lemma ExportRowGenders(e: MothEntry, isoDate: int -> string)
    ensures ExportRow(e, isoDate)[13] == "Yes" <==> exists p :: p in AllPhotos(e.stages.adult) && p.gender == Some(Male)
    ensures ExportRow(e, isoDate)[14] == "Yes" <==> exists p :: p in AllPhotos(e.stages.adult) && p.gender == Some(Female)
  {
    RowLayout(e, isoDate);
    var row := ExportRow(e, isoDate);
    assert row[13] == GenderCells(e)[0] && row[14] == GenderCells(e)[1];
    AnySetIff(e.stages.adult, Male);
    AnySetIff(e.stages.adult, Female);
  }

  /** One line per entry, in the given order: the entry's row joined by commas. */
  function ExportLines(sorted: seq<MothEntry>, isoDate: int -> string): (lines: seq<string>)
    ensures |lines| == |sorted|
    ensures forall k :: 0 <= k < |sorted| ==> lines[k] == Join(ExportRow(sorted[k], isoDate), ",")
  {
    if sorted == [] then [] else [Join(ExportRow(sorted[0], isoDate), ",")] + ExportLines(sorted[1..], isoDate)
  }

  /** No line of `lines` holds a line feed. */
  predicate SingleLines(lines: seq<string>) {
    forall k, i :: 0 <= k < |lines| && 0 <= i < |lines[k]| ==> lines[k][i] != '\n'
  }

  /**
   * The exported text: the header line, then one line per entry in export
   * order.  When no row holds a line feed, cutting the text at line feeds
   * gives back exactly the header line and the rows of the sorted entries.
   */
  function ExportCsv(entries: seq<MothEntry>, isoDate: int -> string): (csv: string)
    ensures Join(Headers, ",") <= csv
    ensures SingleLines(ExportLines(SortEntries(entries), isoDate)) ==>
              Split(csv, '\n') == [Join(Headers, ",")] + ExportLines(SortEntries(entries), isoDate)
  {
    var body := ExportLines(SortEntries(entries), isoDate);
    var lines := [Join(Headers, ",")] + body;
    JoinStartsWithFirst(lines, "\n");
    HeaderLineIsSingle();
    SplitLinesOfText(Join(Headers, ","), body);
    Join(lines, "\n")
  }

  /** A text made of single lines joined by line feeds cuts back into those lines. */
  lemma SplitLinesOfText(header: string, body: seq<string>)
    requires forall i :: 0 <= i < |header| ==> header[i] != '\n'
    ensures SingleLines(body) ==> Split(Join([header] + body, "\n"), '\n') == [header] + body
  {
    var lines := [header] + body;
    if SingleLines(body) {
      forall k, i | 0 <= k < |lines| && 0 <= i < |lines[k]|
        ensures lines[k][i] != '\n'
      {
        if k > 0 {
          assert lines[k] == body[k - 1];
        }
      }
      SplitJoin(lines, '\n');
    }
  }

  /** The header line holds no line feed. */
  lemma HeaderLineIsSingle()
    ensures forall i :: 0 <= i < |Join(Headers, ",")| ==> Join(Headers, ",")[i] != '\n'
  {
    assert SingleLines(Headers);
    JoinAvoids(Headers, ",", '\n');
  }

  /** Joining pieces without `c` by a separator without `c` gives a string without `c`. */
  lemma {:induction false} JoinAvoids(parts: seq<string>, sep: string, c: char)
    requires forall k, i :: 0 <= k < |parts| && 0 <= i < |parts[k]| ==> parts[k][i] != c
    requires forall i :: 0 <= i < |sep| ==> sep[i] != c
    ensures forall i :: 0 <= i < |Join(parts, sep)| ==> Join(parts, sep)[i] != c
  {
    if |parts| > 1 {
      JoinAvoids(parts[1..], sep, c);
      var j := Join(parts, sep);
      assert j == parts[0] + sep + Join(parts[1..], sep);
      forall i | 0 <= i < |j|
        ensures j[i] != c
      {
        if i < |parts[0]| {
          assert j[i] == parts[0][i];
        } else if i < |parts[0]| + |sep| {
          assert j[i] == sep[i - |parts[0]|];
        } else {
          assert j[i] == Join(parts[1..], sep)[i - |parts[0]| - |sep|];
        }
      }
    } else if |parts| == 1 {
      assert Join(parts, sep) == parts[0];
    }
  }

  lemma JoinStartsWithFirst(parts: seq<string>, sep: string)
    requires parts != []
    ensures parts[0] <= Join(parts, sep)
  {
  }
}
