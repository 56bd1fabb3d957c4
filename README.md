# Moth catalog core, modelled in Dafny

This project models the core of a single-user web catalog of moths. A user
imports a TaiCOL taxonomic checklist (CSV) as a reference index and searches
it. For each taxon they keep one catalog entry, whose four life stages (egg,
larva, pupa, adult) hold ordered sets of photos. Photos are filed on Google
Drive under Family / Genus / Species / Stage folders. The catalog is
exported as a sorted CSV. A second, legacy flow stores free-form
"biodiversity records" with their own photo list.

The modules follow the source files:

| module | source |
|---|---|
| `TextUtil` | the JavaScript string built-ins the core relies on (`trim`, `toLowerCase`, `includes`, `split`, `join`, `padStart`, `localeCompare`) |
| `Types` | `types.ts`: the records and `formatScientificName` |
| `Lists` | the id-keyed array idioms shared by the store and the pages (`find`, `findIndex`, `filter`, `map`, overwrite at the found index) |
| `Csv` | `services/csv.ts`: the checklist normaliser and its quote-aware line splitter |
| `Db` | `services/db.ts`: the persisted store as a class `CatalogStore` whose fields are the storage keys, plus the entry-code generator |
| `Drive` | `services/drive.ts`: name sanitizing, and the process-wide folder cache as a class `FolderCache` |
| `TaxonSearch` | `components/TaxonSearch.tsx`: the search of the taxon picker |
| `EntryEditor` | `pages/EntryEditor.tsx`: loading an entry and editing its photo sets, as a class `Editor` |
| `PhotoSetManager` | `components/PhotoSetManager.tsx`: batch upload into the stage folder, and photo removal, gender and link editing |
| `ImportPage` | `pages/Import.tsx`: file choice and import, as a class `Import` |
| `Gallery` | `pages/Gallery.tsx`: the adult-photo gallery |
| `RecordList` | `pages/RecordList.tsx`: the entry filter and the CSV export |
| `PhotoUploader` | `components/PhotoUploader.tsx`: the legacy record's photo list |
| `AddRecord` | `pages/AddRecord.tsx`: submitting a legacy record |

The model has these parts:

- Page state that the source keeps in React state and updates in place is a
  class whose methods carry `modifies` clauses. This covers the editor's
  entry, the import page's file, status and message, the store's lists and
  the folder cache.
- Transformations that only compute a value are functions. Every loop of
  the source is a method with loop invariants, proved against a
  specification function. The loops are the CSV line splitter, the row
  loop of the normaliser, the upload batch loop and the legacy file loop.
- What the browser, the clock, the random generator or the remote side
  would answer is a parameter:
  - the clock value `now` and the calendar fields of a `Clock`;
  - the random ids (`newId`, `PickedFile.newId`);
  - the confirmation dialog (`confirmed`);
  - whether each upload succeeds (`uploaded`);
  - whether reading a file succeeds (`ChosenFile.text`);
  - the ISO rendering of a time stamp (`isoDate`).
- The remote "create folder" call is abstract. Its `n`-th answer is the
  fresh id `FreshId(n)`, and the cache counts its calls.

## Model

| member | source | states |
|---|---|---|
| `Csv.SplitLines` | services/csv.ts:5 | splitting on `\r?\n` gives one line per line feed plus one, none holding a line feed; every line but the last is the text before its line feed less one trailing carriage return, and the last is the text after the last line feed |
| `Csv.StripQuotes` | services/csv.ts:8 | one leading and one trailing double quote are removed: a field quoted at both ends loses both, a field quoted at one end loses that quote, a lone quote becomes empty, and a field without a quote at either end is kept |
| `Csv.StripQuotesOfQuoted` | services/csv.ts:8 | quoting a value and stripping the quotes gives the value back |
| `Csv.CleanNames` | services/csv.ts:8 | each header name is its raw name trimmed and then unquoted, one name per raw header, in order |
| `Csv.HeaderNames` | services/csv.ts:8 | the header names are the first line's comma-separated pieces, trimmed and unquoted, one more than the commas |
| `Csv.IndexOf` | services/csv.ts:9 | the header index is -1 exactly when the name is absent; otherwise it is the first position holding the name |
| `Csv.ParseCsvLine` | services/csv.ts:65-76 | the character loop yields exactly the fields of the recursive splitter `CsvFields` |
| `Csv.FieldsQuoteFree` | services/csv.ts:70 | no field of a data line ever contains a double quote |
| `Csv.JoinFields` | services/csv.ts:69-74 | joining the fields with commas gives back the line with only its quote characters removed |
| `Csv.QuotedStretch` | services/csv.ts:70-71 | inside quotes, everything up to the closing quote joins the current field, commas included |
| `Csv.DoubledQuoteVanishes` | services/csv.ts:70 | a doubled quote flips the quote state twice and leaves no character behind |
| `Csv.FieldCount` | services/csv.ts:71-74 | a data line has one field more than it has commas outside quotes |
| `Csv.ColumnText` | services/csv.ts:31-36 | a column the header lacks reads as the empty string |
| `Csv.ChineseName` | services/csv.ts:33 | the Chinese name is the search name when that is non-empty, else the common-name column |
| `Csv.UsageStatus` | services/csv.ts:28 | the status is the field lower-cased, less one leading and one trailing quote; a missing field reads as empty |
| `Csv.UsageStatusAccepted` | services/csv.ts:28-29 | a row passes the status test exactly when its field, lower-cased, is `accepted` with or without a quote at either end |
| `Csv.AcceptedSpelling` | services/csv.ts:28-29 | stripping the quotes gives `accepted` exactly for `accepted`, `"accepted`, `accepted"` and `"accepted"` |
| `Csv.SpeciesParts` | services/csv.ts:39-48 | a species is read exactly when the name holds a space, a subspecies exactly when it holds two; the species has no space, and the first word, the species and the subspecies joined by spaces give the name back |
| `Csv.ParseTaiColCsv` | services/csv.ts:4-63 | the normaliser computes `TaiColTaxa` of the file's text |
| `Csv.CollectAccepted` | services/csv.ts:24-60 | the row loop pushes exactly the taxa of `NormalizeLines` over the data lines |
| `Csv.BuildTaxon` | services/csv.ts:31-59 | the loop body builds the taxon `RowTaxon` of the row |
| `Csv.NormalizeStep` | services/csv.ts:26-29 | one more line adds its taxon when its row is long enough and accepted, and nothing otherwise |
| `Csv.NoDataLinesNoTaxa` | services/csv.ts:6 | text without a line feed yields no taxa |
| `Csv.NormalizeLinesAppend` | services/csv.ts:24-60 | normalising two runs of lines gives the first run's taxa, then the second's |
| `Csv.NormalizeLinesIsFilterMap` | services/csv.ts:24-60 | the output is exactly the taxa of the accepted rows, in row order |
| `Csv.AcceptedRowsAreAccepted` | services/csv.ts:26-29 | every row that yields a taxon has a field per header and usage status `accepted` |
| `Csv.OneWordName` | services/csv.ts:39-48 | a one-word simple name gives neither species nor subspecies |
| `Csv.FormattedNameParts` | services/csv.ts:39-48 | reading the species and subspecies off a formatted name gives back the species, and the subspecies when it is non-empty |
| `Csv.SubspeciesKeepsItsWords` | services/csv.ts:45-47 | every word after the species joins the subspecies, spaces kept |
| `Csv.MissingColumnIsEmpty` | services/csv.ts:9-20 | a recognised column missing from the header gives `''` for its field |
| `Types.StageName` | types.ts:18 | every stage key is non-empty |
| `Types.Stages.With` | pages/EntryEditor.tsx:63-64 | replacing one stage's list keeps the other three lists |
| `Types.FormatScientificName` | types.ts:98-102 | the display name opens with the genus and a space |
| `Types.FormatScientificNameWords` | types.ts:98-102 | split on spaces, the display name is `[genus, "sp."]` without a species, `[genus, species]` without a subspecies, and genus, species and the subspecies words with both |
| `Lists.IndexOfId` | services/db.ts:41 | `findIndex` is -1 exactly when no record has the id; otherwise it is the first such position |
| `Lists.FindById` | services/db.ts:35-37 | `find` answers nothing exactly when no record has the id; otherwise it answers a stored record with the id |
| `Lists.RemoveId` | services/db.ts:59-63 | `filter` keeps exactly the records with another id, in their order |
| `Lists.RemoveIdCounts` | services/db.ts:59-63 | every record with another id is kept as often as it occurs, and no record with the id |
| `Lists.RemoveAbsentId` | services/db.ts:112-116 | removing an id no record carries changes nothing |
| `Lists.ReplaceId` | services/db.ts:103-110 | overwriting at the found index replaces the first record with the same id by the new one, keeps every other position and the length, and with no such record keeps the list |
| `Lists.ReplaceIdKeepsOthers` | services/db.ts:103-110 | overwriting leaves every record with another id as it was, in order |
| `Lists.ReplaceIdKeepsUnique` | services/db.ts:103-110 | overwriting keeps ids unique |
| `Lists.RemoveLast` | pages/EntryEditor.tsx:95 | filtering out the id of a record appended to a list without that id gives the list back |
| `Lists.UpdateId` | components/PhotoSetManager.tsx:84 | the `map` applies the change to the records with the id and keeps the others |
| `Lists.RemoveAfterUpdate` | components/PhotoSetManager.tsx:77-84 | when the change keeps ids, removing an id after updating it equals removing it straight away |
| `Db.GenerateEntryCode` | services/db.ts:8-14 | the entry code is never empty |
| `Db.EntryCodeFormat` | services/db.ts:8-14 | for a four-digit year the code is 15 characters `YYYYMMDD-HHMMSS`, and each digit group reads back as its calendar field |
| `Db.EntryCodeInjective` | services/db.ts:8-14 | two valid clocks that give the same entry code are the same clock |
| `Db.Stamped` | services/db.ts:43-48 | a saved entry gets the new time stamp; it keeps a non-empty code, and an empty code becomes the code generated from the clock; nothing else changes |
| `Db.Upsert` | services/db.ts:50-54 | a new id puts the entry in front of the list; a known id overwrites the first entry with that id and keeps the length and every other position |
| `Db.UpsertPlacesEntry` | services/db.ts:50-54 | after an upsert the entry is found under its id, at its old position or first |
| `Db.UpsertKeepsOthers` | services/db.ts:50-54 | an upsert leaves every entry with another id as it was, in order |
| `Db.UpsertKeepsUnique` | services/db.ts:50-54 | an upsert keeps entry ids unique |
| `Db.CappedHistory` | services/db.ts:72-76 | the new record comes first, followed by the newest previous records, ten at most |
| `Db.HistoryStaysCapped` | services/db.ts:72-76 | after any number of additions the history holds at most ten records, the last added first |
| `Db.CatalogStore.constructor` | services/db.ts:17-22 | an empty store reads empty lists |
| `Db.CatalogStore.SaveTaxonIndex` | services/db.ts:24-26 | the index is replaced wholesale |
| `Db.CatalogStore.GetEntryByTaxonId` | services/db.ts:35-37 | the lookup answers nothing exactly when no entry has the id; otherwise it answers the first entry with the id |
| `Db.CatalogStore.SaveEntry` | services/db.ts:39-57 | the stamped entry is upserted, is found under its id afterwards, other entries are untouched, and unique ids stay unique |
| `Db.CatalogStore.DeleteEntry` | services/db.ts:59-63 | every entry with the id is dropped and it is no longer found; deleting an absent id changes nothing |
| `Db.CatalogStore.AddImportRecord` | services/db.ts:72-76 | the history becomes `CappedHistory` of the old history and the record |
| `Db.CatalogStore.SaveRecord` | services/db.ts:97-101 | the record goes in front of the others |
| `Db.CatalogStore.UpdateRecord` | services/db.ts:103-110 | the first record with the id is overwritten, the others are kept, and an absent id changes nothing |
| `Db.CatalogStore.DeleteRecord` | services/db.ts:112-116 | no record with the id is left; the others keep their order |
| `Drive.ReplaceForbidden` | services/drive.ts:15 | each forbidden character becomes `_`; the others and the length are kept |
| `Drive.SanitizeName` | services/drive.ts:14-16 | a sanitized name is non-empty and free of forbidden characters; it is `__UNNAMED__` when nothing is left after trimming |
| `Drive.SanitizeFixes` | services/drive.ts:14-16 | a clean name with no whitespace at its ends is kept as it is |
| `Drive.SanitizeIdempotent` | services/drive.ts:14-16 | sanitizing twice equals sanitizing once |
| `Drive.SanitizeKeepsSentinels` | services/drive.ts:14-16 | `__UNSORTED__` and `__UNNAMED__` pass through sanitizing unchanged |
| `Drive.CacheKeyInjective` | services/drive.ts:23 | for names without a colon, distinct (parent, name) pairs get distinct cache keys |
| `Drive.SanitizedNoColon` | services/drive.ts:15 | a sanitized name never contains a colon, so sanitized folder names never collide in the cache |
| `Drive.FamilySegment` | services/drive.ts:50 | the family folder name is non-empty and colon-free, and `__UNSORTED__` when the entry has no family |
| `Drive.GenusSegment` | services/drive.ts:54 | the genus folder name is non-empty and colon-free, and `__UNSORTED__` when the entry has no genus |
| `Drive.SpeciesSegment` | services/drive.ts:59-61 | the species folder name is non-empty and colon-free, and `__UNSORTED__` when the entry has no species |
| `Drive.StageIsFolderName` | services/drive.ts:65 | the stage folder name is non-empty and colon-free |
| `Drive.SegmentsAreFolderNames` | services/drive.ts:49-65 | all four folder names of a path are non-empty and colon-free, so each can be cached unambiguously |
| `Drive.FreshIdInjective` | services/drive.ts:32 | distinct provisioning calls answer distinct ids |
| `Drive.DisplayPathShape` | services/drive.ts:69 | the display path is the four folder names joined by `/` |
| `Drive.NoFamilyIsUnsorted` | services/drive.ts:50 | an entry without a family is filed under the top folder `__UNSORTED__` |
| `Drive.FolderCache.constructor` | services/drive.ts:9 | the cache starts empty with no provisioning call made |
| `Drive.FolderCache.FindOrCreateFolder` | services/drive.ts:22-35 | a cached key answers its id with no provisioning call; otherwise exactly one call provisions a fresh id, which is cached under the key; existing cache entries never change |
| `Drive.FolderCache.EnsureFolderPath` | services/drive.ts:42-70 | without a root id it fails before any call; otherwise the answered folder is the end of the cached Family/Genus/Species/Stage chain and the display path is the joined names; the cache only grows, every key it gains lies on that chain, the calls made equal the keys gained, four at most, and a fully cached path costs none and answers the cached id |
| `Drive.FolderCache.ResolveChain` | services/drive.ts:49-65 | the four look-ups in sequence leave the whole chain cached, each folder the child of the one before; the cache only grows, only by keys of the chain, and by exactly one key per call made |
| `Drive.FolderCache.Descend` | services/drive.ts:51 | one look-up under the parent caches the child, adds no other key, makes a call exactly when it adds that key, and keeps an already cached chain below it intact |
| `Drive.ChainUnfold` | services/drive.ts:49-65 | a cached chain is its first link followed by the chain that continues from that link's id |
| `TaxonSearch.Matching` | components/TaxonSearch.tsx:26-31 | the filter keeps exactly the index taxa where the lower-cased query occurs in the lower-cased scientific name, Chinese name, family, genus or rank |
| `TaxonSearch.Search` | components/TaxonSearch.tsx:18-36 | an empty query gives no results; otherwise the result is the first matches, 50 at most, and all of them when fewer match |
| `TaxonSearch.MatchingIsSubsequence` | components/TaxonSearch.tsx:26-31 | the matches keep the index order |
| `TaxonSearch.SearchIsSubsequence` | components/TaxonSearch.tsx:26-32 | the results are taxa of the index, in index order |
| `TaxonSearch.SearchIsComplete` | components/TaxonSearch.tsx:26-32 | when at most 50 taxa match a non-empty query, every match is returned |
| `TaxonSearch.EmptyIndexFindsNothing` | components/TaxonSearch.tsx:19-32 | an empty index answers every query with nothing |
| `TaxonSearch.SearchIgnoresQueryCase` | components/TaxonSearch.tsx:25 | the search does not depend on the case of the query |
| `TaxonSearch.FamilyMatchIsFound` | components/TaxonSearch.tsx:29 | a taxon whose family contains the query is found when at most 50 taxa match |
| `EntryEditor.NewEntry` | pages/EntryEditor.tsx:23-36 | a new entry copies the taxon's fields, has an empty code and notes, four empty stages, and the current time |
| `EntryEditor.AddSet` | pages/EntryEditor.tsx:57-64 | one empty set with the new id is appended to the stage; the other stages are kept |
| `EntryEditor.ReplaceSet` | pages/EntryEditor.tsx:73-75 | the set at the index becomes the new set; every other set and stage is kept |
| `EntryEditor.DeleteSet` | pages/EntryEditor.tsx:94-95 | the sets with the id leave the stage, every other set stays as often as it was there, in its order; the other stages are kept |
| `EntryEditor.DeleteAbsentSet` | pages/EntryEditor.tsx:83-84 | deleting an id the stage does not hold changes nothing |
| `EntryEditor.DeleteUndoesAdd` | pages/EntryEditor.tsx:55-103 | deleting a set just added under a fresh id gives the stages back |
| `EntryEditor.CodesKeepingPage` | pages/EntryEditor.tsx:65-68 | when the page keeps the entry it saved, each save stores the code the store stamps on that same entry |
| `EntryEditor.EntryCodeReassigned` | pages/EntryEditor.tsx:65-68 | as written, a new entry saved twice at different clock values is stored under two different codes |
| `EntryEditor.AdoptingKeepsCode` | services/db.ts:43-48 | when the page adopts the stored entry, every save stores the same non-empty code, and an entry's existing code is never replaced |
| `EntryEditor.StampedCodeKept` | services/db.ts:46-48 | once the entry has a code, every later save stores that code |
| `EntryEditor.Editor.SelectTaxon` | pages/EntryEditor.tsx:17-42 | a selection loads the stored entry, or a new entry when none is stored; clearing it clears the entry |
| `EntryEditor.Editor.Save` | pages/EntryEditor.tsx:44-47 | without an entry nothing changes; otherwise the entry is stamped and upserted, is found in the store, and the page holds it with a non-empty code that an existing code is never replaced by |
| `EntryEditor.Editor.AddPhotoSet` | pages/EntryEditor.tsx:55-69 | the entry gains an empty set in the stage, is saved through the store's upsert and is then found in the store; the page holds the stored entry, whose code is non-empty and never replaced; without an entry nothing changes |
| `EntryEditor.Editor.UpdatePhotoSet` | pages/EntryEditor.tsx:71-78 | the set is replaced in the page's entry; the store is not written |
| `EntryEditor.Editor.DeletePhotoSet` | pages/EntryEditor.tsx:80-103 | with no such set, or without confirmation, nothing changes; otherwise the set leaves the stage, the entry is saved and found in the store, and the page holds the stored entry, whose code is never replaced |
| `PhotoSetManager.NewPhoto` | components/PhotoSetManager.tsx:51-62 | an uploaded photo is `uncertain` exactly in the adult stage and has no gender otherwise; it carries the folder id and the display path |
| `PhotoSetManager.BatchPhotos` | components/PhotoSetManager.tsx:40-63 | one photo per file, in file order |
| `PhotoSetManager.BatchShareFolder` | components/PhotoSetManager.tsx:60-61 | every photo of a batch sits in the same resolved folder |
| `PhotoSetManager.UploadBatch` | components/PhotoSetManager.tsx:40-63 | the upload loop succeeds exactly when every upload does, and then yields `BatchPhotos` |
| `PhotoSetManager.HandleUpload` | components/PhotoSetManager.tsx:22-72 | no files means nothing happens; a missing root id is an error before any folder call; a failed upload drops the batch with an error; otherwise the new photos follow the old ones, filed in the resolved stage folder; the folder cache only grows, by keys of the entry's path, one per call and four at most |
| `PhotoSetManager.RemovePhoto` | components/PhotoSetManager.tsx:74-79 | when confirmed, exactly the photos with the id leave the set, every other photo stays as often as it was there, in its order; unconfirmed, the set is unchanged |
| `PhotoSetManager.UpdatePhotoGender` | components/PhotoSetManager.tsx:81-86 | the photos with the id get the gender, and nothing else changes |
| `PhotoSetManager.RemoveAfterGender` | components/PhotoSetManager.tsx:77-84 | removing a photo discards a gender set on it before |
| `PhotoSetManager.SetInatLink` | components/PhotoSetManager.tsx:161 | the set's link becomes the typed text; the id and photos stay |
| `ImportPage.CsvNameIff` | pages/Import.tsx:18 | a name passes exactly when its last four characters spell `.csv` in any case |
| `ImportPage.Import.constructor` | pages/Import.tsx:9-13 | the page starts with no file, idle, a zero count and no message |
| `ImportPage.Import.HandleFiles` | pages/Import.tsx:16-25 | a first file with a `.csv` name is taken and clears status and message; otherwise the file is kept and an error is shown |
| `ImportPage.Import.HandleImport` | pages/Import.tsx:40-66 | no file does nothing; an unreadable file or one with no accepted taxon is an error that leaves index and history alone; otherwise the taxa become the index and one history record counts them |
| `Gallery.EntriesWithAdults` | pages/Gallery.tsx:10-12 | the gallery lists exactly the entries with an adult set, in stored order |
| `Gallery.EntriesWithAdultsCounts` | pages/Gallery.tsx:10-12 | every entry with an adult set is listed as often as it is stored, and no other entry |
| `Gallery.EntriesWithAdultsIdempotent` | pages/Gallery.tsx:10-12 | filtering twice equals filtering once |
| `Gallery.IndexOfGender` | pages/Gallery.tsx:17 | the scan answers the first photo with the gender, or -1 when none has it |
| `Gallery.GenderPhotoIsFirstOfAll` | pages/Gallery.tsx:15-21 | scanning set by set finds the first photo of that gender among all adult photos |
| `Gallery.GetSpecificGenderPhoto` | pages/Gallery.tsx:15-21 | the photo shown is the first adult photo of that gender over all sets, and none is shown exactly when no adult photo has it |
| `Gallery.FirstAvailableIsFirstOfAll` | pages/Gallery.tsx:24-29 | the first available photo is the first adult photo overall |
| `Gallery.GetFirstAvailablePhoto` | pages/Gallery.tsx:24-29 | the photo shown is the first adult photo over all sets, and none is shown exactly when the adult stage has no photo |
| `RecordList.Filtered` | pages/RecordList.tsx:16-21 | the list keeps exactly the entries matching the query, in stored order |
| `RecordList.FilteredCounts` | pages/RecordList.tsx:16-21 | every matching entry is listed as often as it is stored, and no other entry |
| `RecordList.EmptyQueryListsAll` | pages/RecordList.tsx:16-21 | an empty query lists every entry in stored order |
| `RecordList.KeysLeTotal` | pages/RecordList.tsx:31-47 | any two entries are ordered one way or the other |
| `RecordList.KeysLeTransitive` | pages/RecordList.tsx:31-47 | the comparator is transitive |
| `RecordList.SortEntries` | pages/RecordList.tsx:31 | the sorted copy holds exactly the stored entries, counted with multiplicity |
| `RecordList.SortEntriesSorted` | pages/RecordList.tsx:31-47 | the export order is sorted by family, genus, species and subspecies, lower-cased |
| `RecordList.PhotoCountIsAllPhotos` | pages/RecordList.tsx:67-69 | a stage's count is the number of its photos over all its sets |
| `RecordList.SeenStages` | pages/RecordList.tsx:61-62 | the stages seen are exactly the stages holding a set, in stage order |
| `RecordList.SeenStagesCounts` | pages/RecordList.tsx:61-62 | every stage holding a set is seen as often as it is listed, and no other stage |
| `RecordList.StagesSeenParts` | pages/RecordList.tsx:61-64 | split on the bar character, the value gives back the capitalised labels of the seen stages |
| `RecordList.EveryStageSeen` | pages/RecordList.tsx:61-64 | an entry with sets in every stage has seen Egg, Larva, Pupa and Adult, joined by bars |
| `RecordList.SeenEveryStage` | pages/RecordList.tsx:61-62 | with sets in every stage, all four stages are seen, egg to adult |
| `RecordList.AnySetIff` | pages/RecordList.tsx:73-74 | the gender flag holds exactly when some adult photo has that gender |
| `RecordList.GenderFlagMatchesGallery` | pages/RecordList.tsx:73-74 | the export says an adult of a gender exists exactly when the gallery shows a photo of that gender |
| `RecordList.NonBlank` | pages/RecordList.tsx:78 | the blank links are dropped and every other link is kept, in order |
| `RecordList.NonBlankCounts` | pages/RecordList.tsx:78 | every non-blank link is kept as often as it occurs, and no blank one |
| `RecordList.IsLinkIff` | pages/RecordList.tsx:78 | a link is kept exactly when trimming leaves something |
| `RecordList.InEntryLinks` | pages/RecordList.tsx:77 | the links gathered from an entry are exactly the links of its sets, whatever the stage |
| `RecordList.ExportedLinks` | pages/RecordList.tsx:77-79 | a link is exported exactly when it is not blank and some set of some stage carries it |
| `RecordList.ExportRow` | pages/RecordList.tsx:81-98 | every row has as many values as there are headers, seventeen |
| `RecordList.ExportRowCounts` | pages/RecordList.tsx:67-69 | the four count columns are the decimal numbers of photos of each stage |
| `RecordList.ExportRowGenders` | pages/RecordList.tsx:73-74 | the two gender columns say `Yes` exactly when an adult photo of that gender exists |
| `RecordList.ExportLines` | pages/RecordList.tsx:59-100 | one line per sorted entry, in order, each the entry's seventeen values joined by commas |
| `RecordList.ExportCsv` | pages/RecordList.tsx:102 | the exported text opens with the header line; when no row holds a line feed, cutting it at line feeds gives back exactly the header line and then the rows in export order |
| `RecordList.HeaderLineIsSingle` | pages/RecordList.tsx:102 | the header line holds no line feed |
| `PhotoUploader.UploadedPhoto` | components/PhotoUploader.tsx:30-40 | a picked file's photo has an empty iNaturalist link and the simulated Drive link built from the file name |
| `PhotoUploader.UploadedPhotos` | components/PhotoUploader.tsx:22-41 | one photo per file, in file order |
| `PhotoUploader.HandleFileChange` | components/PhotoUploader.tsx:15-46 | no files means nothing is handed on; otherwise the new photos follow the old ones, in file order |
| `PhotoUploader.AddedPhotosFollow` | components/PhotoUploader.tsx:38-43 | the old photos come first, then one photo per file with the file's name, an empty link and its Drive link |
| `PhotoUploader.RemovePhoto` | components/PhotoUploader.tsx:48-50 | exactly the photos with the id leave the list, every other photo stays as often as it was there, in its order |
| `PhotoUploader.RemoveAbsentPhoto` | components/PhotoUploader.tsx:48-50 | removing an id no photo has leaves the list as it was |
| `PhotoUploader.UpdatePhotoLink` | components/PhotoUploader.tsx:52-54 | the photos with the id get the link, and nothing else changes |
| `PhotoUploader.UpdatePhotoLinkIdempotent` | components/PhotoUploader.tsx:52-54 | setting the same link twice equals setting it once |
| `PhotoUploader.RemoveAfterLinkUpdate` | components/PhotoUploader.tsx:48-54 | removing a photo discards a link set on it before |
| `AddRecord.BuildRecord` | pages/AddRecord.tsx:47-59 | an edit keeps the edited record's id and creation time, while a new record takes the fresh id and the clock; the taxon and form fields are copied |
| `AddRecord.HandleSubmit` | pages/AddRecord.tsx:43-67 | with no taxon nothing is saved; an edit overwrites the record with the same id; a new record goes in front; saved exactly when a taxon is selected |
| `AddRecord.EditKeepsOthers` | pages/AddRecord.tsx:61-62 | re-submitting a stored record keeps every other record and stores the rebuilt one |
| `TextUtil.Trim` | services/csv.ts:8 | `trim` answers the slice left after dropping leading and trailing whitespace, with no whitespace at either end |
| `TextUtil.TrimEmptyIff` | pages/RecordList.tsx:78 | trimming leaves nothing exactly when the text is all whitespace |
| `TextUtil.ToLower` | services/csv.ts:28 | lower-casing keeps the length and folds each character |
| `TextUtil.ContainsIff` | components/TaxonSearch.tsx:27 | `includes` holds exactly when the text occurs at some position |
| `TextUtil.Split` | services/csv.ts:39 | splitting yields at least one piece, and no piece contains the separator |
| `TextUtil.JoinSplit` | services/csv.ts:46 | joining the pieces of a split with the same separator gives the string back |
| `TextUtil.SplitJoin` | pages/RecordList.tsx:64 | splitting pieces joined by a separator they do not contain gives the pieces back |
| `TextUtil.SplitCount` | services/csv.ts:39 | the number of pieces is one more than the number of separators |
| `TextUtil.ParseNatToString` | services/db.ts:10 | printing a number in decimal and reading it back gives the number |
| `TextUtil.Pad2` | services/db.ts:10 | a number below 100 pads to two digits that read back as the number |
| `TextUtil.StrLeTotal` | pages/RecordList.tsx:34 | the string order is total |
| `TextUtil.StrLeAntisymmetric` | pages/RecordList.tsx:34 | the string order is antisymmetric |
| `TextUtil.StrLeTransitive` | pages/RecordList.tsx:34 | the string order is transitive |

## Left out

- Persistence: `localStorage` and JSON (de)serialisation are not modelled.
  The store's lists are class fields. A read that fails to parse, which the
  source answers with `[]`, is not modelled. The deep copy made by
  `JSON.parse(JSON.stringify(...))` is the identity on values.
- `getTaxonIndex`, `getEntries`, `getImportHistory` and `getRecords` are not
  separate members. They read the corresponding field.
- `getSettings`, `saveSettings` and `clearAll` are not modelled. The Drive
  root id is a parameter of `HandleUpload`.
- Asynchrony, the simulated network delays and the console logging of
  `services/drive.ts` are not modelled. Neither is the interleaving of two
  concurrent `findOrCreateFolder` calls for the same key, which the source
  does not guard against. Every method runs to completion before the next
  one starts.
- Drive.FreshId: the remote folder id is `folder_` plus the provisioning
  call count, not the random base-36 suffix of the source. Distinct calls
  therefore answer distinct ids, which a random suffix only makes likely.
- `uploadFileToDrive` is not modelled. Whether each upload succeeds is the
  parameter `uploaded`. The Drive URL it answers is unused by the source.
- Random ids, the clock, the confirmation dialog, image loading (object URL
  and pixel size) and reading a file's text are inputs rather than effects.
- TextUtil.ToLower: `toLowerCase` is modelled as ASCII A–Z folding only. Other
  Unicode case mappings are not modelled.
- TextUtil.StrLe: `localeCompare` is modelled as the lexicographic order of
  character codes, not the host's locale collation.
- RecordList.SortEntries: the sort is an insertion sort, so stable; the source's `Array.prototype.sort` is stable too, but its algorithm is not modelled.
- RecordList.ExportRow: `new Date(...).toISOString()` is the parameter
  `isoDate`. The BOM, the Blob and the download link are left out.
- The UI-only state is not modelled: dragging highlights, `isSaving` and
  `showSuccess` timers, the delete message, the active stage tab, the
  dropdown open/close handling and the file-input reset.
- EntryEditor.Editor.SelectTaxon: the source runs this as an effect on
  selection change; it is modelled as a method called with the selection.
- EntryEditor.Editor: `handleSave`, `addPhotoSet` and `deletePhotoSet`
  keep the stored (stamped) entry on the page, as the corrected behaviour
  under "## Findings" has it. The page as written keeps the unstamped entry;
  that behaviour is modelled by `EntryEditor.CodesKeepingPage` only.
- AddRecord.HandleSubmit: the `useEffect` that fills the form from the
  edited record is not modelled. The form values are parameters.
- `Types.Taxon` leaves out `subfamily` and `species_epithet`. They are only
  written by that prefill and are never read.
- Csv.DoubledQuoteVanishes: a doubled quote `""` inside a quoted field
  vanishes in the code, rather than standing for one literal quote as
  CSV usually has it. The model follows the code.
- Db.EntryCodeFormat: the 15-character format is proved for years 1000 to
  9999 (four digits), as `getFullYear` answers today.
- Db.CatalogStore.SaveEntry: the source reads the clock twice, once for
  `lastUpdated` and once for the entry code. The model passes `now` and the
  calendar fields of the same `Clock` separately.
- ImportPage.Import.HandleImport: the `parsing` status between the start
  and the end of the import is not observable here. The method reports the
  final status only.
- The pages `Settings.tsx`, `Dashboard.tsx` and `App.tsx` are not part of
  this model.

## Findings

| source | as written | input that shows it | evidently intended | confidence | as-written member | corrected member |
|---|---|---|---|---|---|---|
| pages/EntryEditor.tsx:65-68 | `addPhotoSet` (and `deletePhotoSet` at lines 96-98, `handleSave` at line 47) saves the entry and keeps it on the page as it was before saving. `saveEntry` generates the entry code on its own copy (services/db.ts:46-48), so a new entry stays without a code on the page and every later save stores a freshly generated code. | a new entry with an empty code, saved at clock 2024-05-01 10:00:00 and again at 2024-05-01 10:00:01: the stored code goes from `20240501-100000` to `20240501-100001` | an entry keeps the code of its first save for good | not executed | `EntryEditor.EntryCodeReassigned` | `EntryEditor.AdoptingKeepsCode` |
