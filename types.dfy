/**
 * The records of the catalog (taxa, entries with their four life stages,
 * photo sets, photos, import history, legacy records) and the display rule
 * for scientific names.  An optional property of the source (`species?`)
 * is an `Option`; a property that may hold `undefined` or `''` is "truthy"
 * only when it is present and non-empty.
 */
module Types {
  import opened TextUtil

  datatype Option<+T> = None | Some(value: T)

  /** JavaScript truthiness of an optional string: present and non-empty. */
  predicate Truthy(o: Option<string>) {
    o.Some? && o.value != ""
  }

  /** A reference record of the taxonomic checklist. */
  datatype Taxon = Taxon(
    taxonId: string,
    scientificName: string,
    chineseName: string,
    rank: string,
    family: string,
    genus: string,
    species: Option<string>,
    subspecies: Option<string>,
    path: Option<string>)

  datatype Gender = Male | Female | Uncertain

  datatype MothStage = Egg | Larva | Pupa | Adult

  /** The stage keys in the order the pages list them. */
  const AllStages: seq<MothStage> := [Egg, Larva, Pupa, Adult]

  /** The key under which a stage is stored, also the name of its Drive folder. */
  function StageName(s: MothStage): (r: string)
    ensures r != []
  {
    match s
    case Egg => "egg"
    case Larva => "larva"
    case Pupa => "pupa"
    case Adult => "adult"
  }

  datatype PhotoItem = PhotoItem(
    id: string,
    url: string,
    name: string,
    size: nat,
    width: Option<nat>,
    height: Option<nat>,
    mimeType: string,
    gender: Option<Gender>,
    driveFolderId: Option<string>,
    drivePathDisplay: Option<string>)

  /** The legacy photo of a biodiversity record: a photo item with two links. */
  datatype Photo = Photo(item: PhotoItem, inatLink: Option<string>, driveLink: Option<string>)

  datatype PhotoSet = PhotoSet(id: string, inatLink: string, photos: seq<PhotoItem>)

  /** The stage map of an entry: exactly the four keys, each with an ordered list of sets. */
  datatype Stages = Stages(egg: seq<PhotoSet>, larva: seq<PhotoSet>, pupa: seq<PhotoSet>, adult: seq<PhotoSet>)
  {
    function Get(s: MothStage): seq<PhotoSet> {
      match s
      case Egg => egg
      case Larva => larva
      case Pupa => pupa
      case Adult => adult
    }

    /** `{ ...stages, [s]: sets }`: replaces one stage's list and keeps the other three. */
    function With(s: MothStage, sets: seq<PhotoSet>): (r: Stages)
      ensures r.Get(s) == sets
      ensures forall t :: t != s ==> r.Get(t) == Get(t)
    {
      match s
      case Egg => this.(egg := sets)
      case Larva => this.(larva := sets)
      case Pupa => this.(pupa := sets)
      case Adult => this.(adult := sets)
    }
  }

  const EmptyStages: Stages := Stages([], [], [], [])

  datatype MothEntry = MothEntry(
    id: string,
    entryCode: string,
    taxonName: string,
    taxonChinese: string,
    taxonRank: string,
    family: string,
    genus: string,
    species: Option<string>,
    subspecies: Option<string>,
    notes: string,
    stages: Stages,
    lastUpdated: int)

  datatype RecordStage = KnownStage(stage: MothStage) | UnknownStage

  datatype BiodiversityRecord = BiodiversityRecord(
    id: string,
    taxonId: string,
    taxonName: string,
    taxonChinese: string,
    taxonRank: string,
    taxonPath: Option<string>,
    inatLink: Option<string>,
    stage: RecordStage,
    notes: Option<string>,
    photos: seq<Photo>,
    createdAt: int)

  datatype ImportKind = TaxonomyCsv

  datatype ImportRecord = ImportRecord(id: string, filename: string, timestamp: int, count: nat, kind: ImportKind)

  predicate NoSpace(s: string) {
    forall i :: 0 <= i < |s| ==> s[i] != ' '
  }

  /**
   * The display rule for scientific names: "Genus sp." without a species,
   * "Genus species" without a subspecies, "Genus species subspecies" with both.
   * Whatever the case, the name opens with the genus and a space.
   */
  function FormatScientificName(genus: string, species: Option<string>, subspecies: Option<string>): (r: string)
    ensures genus + " " <= r
    ensures |r| > |genus| + 1
  {
    if !Truthy(species) then genus + " sp."
    else if Truthy(subspecies) then genus + " " + species.value + " " + subspecies.value
    else genus + " " + species.value
  }

  /**
   * Splitting a formatted name on single spaces gives its words back: the
   * genus, then "sp." or the species, then the words of the subspecies.
   */
  lemma {:induction false} FormatScientificNameWords(genus: string, species: Option<string>, subspecies: Option<string>)
    requires NoSpace(genus)
    requires species.Some? ==> NoSpace(species.value)
    ensures !Truthy(species) ==> Split(FormatScientificName(genus, species, subspecies), ' ') == [genus, "sp."]
    ensures Truthy(species) && Truthy(subspecies) ==>
      Split(FormatScientificName(genus, species, subspecies), ' ') == [genus, species.value] + Split(subspecies.value, ' ')
    ensures Truthy(species) && !Truthy(subspecies) ==>
      Split(FormatScientificName(genus, species, subspecies), ' ') == [genus, species.value]
  {
    if !Truthy(species) {
      GenusSpWords(genus, species, subspecies);
    } else if Truthy(subspecies) {
      TrinomialWords(genus, species.value, subspecies.value);
    } else {
      BinomialWords(genus, species.value, subspecies);
    }
  }

  lemma GenusSpWords(genus: string, species: Option<string>, subspecies: Option<string>)
    requires NoSpace(genus) && !Truthy(species)
    ensures Split(FormatScientificName(genus, species, subspecies), ' ') == [genus, "sp."]
  {
    assert FormatScientificName(genus, species, subspecies) == genus + [' '] + "sp.";
    SplitAfterWord(genus, ' ', "sp.");
    SplitWord("sp.", ' ');
  }

  lemma TrinomialWords(genus: string, species: string, subspecies: string)
    requires NoSpace(genus) && NoSpace(species) && species != "" && subspecies != ""
    ensures Split(FormatScientificName(genus, Some(species), Some(subspecies)), ' ')
         == [genus, species] + Split(subspecies, ' ')
  {
    var rest := species + [' '] + subspecies;
    assert FormatScientificName(genus, Some(species), Some(subspecies)) == genus + " " + species + " " + subspecies;
    assert genus + " " + species + " " + subspecies == genus + [' '] + rest;
    SplitAfterWord(species, ' ', subspecies);
    SplitAfterWord(genus, ' ', rest);
    assert [genus] + ([species] + Split(subspecies, ' ')) == [genus, species] + Split(subspecies, ' ');
  }

  lemma BinomialWords(genus: string, species: string, subspecies: Option<string>)
    requires NoSpace(genus) && NoSpace(species) && species != "" && !Truthy(subspecies)
    ensures Split(FormatScientificName(genus, Some(species), subspecies), ' ') == [genus, species]
  {
    assert FormatScientificName(genus, Some(species), subspecies) == genus + [' '] + species;
    SplitAfterWord(genus, ' ', species);
    SplitWord(species, ' ');
  }

  /**
   * A file the user picked, with what the browser reports about it: its
   * name, size and type, the object URL made for it, the pixel size of the
   * loaded image, and the random id the page draws for its photo.
   */
  datatype PickedFile = PickedFile(name: string, size: nat, mimeType: string, localUrl: string,
                                   width: nat, height: nat, newId: string)

  /** The photos of a list of sets, set after set. */
  function AllPhotos(sets: seq<PhotoSet>): seq<PhotoItem>
  {
    if sets == [] then [] else sets[0].photos + AllPhotos(sets[1..])
  }
}
