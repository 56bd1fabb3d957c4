/**
 * The import page: choosing a checklist file and importing it.  A file is
 * taken only when its name ends in `.csv` in any case; importing parses it
 * and, when it holds at least one accepted taxon, replaces the taxon index
 * and records the import in the history.
 *
 * Reading the file is abstract: a chosen file carries its text, or `None`
 * when reading it fails.  The random history id and the clock are parameters.
 */
module ImportPage {
  import opened TextUtil
  import opened Types
  import opened Csv
  import opened Db

  datatype ChosenFile = ChosenFile(name: string, text: Option<string>)

  datatype Status = Idle | Parsing | Success | Failure

  /** The message shown under the drop zone; `NoMessage` is the empty message. */
  datatype Message = NoMessage | NotCsv | NoAcceptedRows | ReadFailed

  /** The name test of `handleFiles`: the lower-cased name ends with `.csv`. */
  predicate IsCsvName(name: string) {
    EndsWith(ToLower(name), ".csv")
  }

  /** A name whose last four characters spell `.csv` in any case passes, and no other does. */
  lemma CsvNameIff(name: string)
    ensures IsCsvName(name) <==>
      |name| >= 4 && name[|name| - 4] == '.' && LowerChar(name[|name| - 3]) == 'c'
      && LowerChar(name[|name| - 2]) == 's' && LowerChar(name[|name| - 1]) == 'v'
  {
    var l := ToLower(name);
    if |name| >= 4 {
      assert l[|l| - 4..] == [l[|l| - 4], l[|l| - 3], l[|l| - 2], l[|l| - 1]];
      assert LowerChar(name[|name| - 4]) == '.' <==> name[|name| - 4] == '.';
    }
  }

  class Import {
    const store: CatalogStore
    var file: Option<ChosenFile>
    var status: Status
    var count: nat
    var message: Message

    constructor (store: CatalogStore)
      ensures this.store == store && file == None && status == Idle && count == 0 && message == NoMessage
    {
      this.store := store;
      file := None;
      status := Idle;
      count := 0;
      message := NoMessage;
    }

    /**
     * `handleFiles`: the first dropped or picked file is taken when its name
     * ends in `.csv`, clearing status and message; otherwise, or with no
     * file at all, the page keeps its file and shows an error.
     */
    method HandleFiles(files: seq<ChosenFile>)
      modifies this`file, this`status, this`message
      ensures files != [] && IsCsvName(files[0].name) ==>
        file == Some(files[0]) && status == Idle && message == NoMessage
      ensures files == [] || !IsCsvName(files[0].name) ==>
        file == old(file) && status == old(status) && message == NotCsv
    {
      if files != [] && IsCsvName(files[0].name) {
        file := Some(files[0]);
        status := Idle;
        message := NoMessage;
      } else {
        message := NotCsv;
      }
    }

    /**
     * `handleImport`: with no file, nothing happens.  A file that cannot be
     * read, or that yields no accepted taxon, ends in an error and leaves the
     * index and the history alone.  Otherwise the parsed taxa become the
     * index and one history record counts them.
     */
    method HandleImport(newId: string, now: int)
      modifies this`status, this`count, this`message, store`taxonIndex, store`importHistory
      ensures old(file).None? ==>
        status == old(status) && count == old(count) && message == old(message)
        && store.taxonIndex == old(store.taxonIndex) && store.importHistory == old(store.importHistory)
      ensures old(file).Some? && old(file).value.text.None? ==>
        status == Failure && message == ReadFailed && count == old(count)
        && store.taxonIndex == old(store.taxonIndex) && store.importHistory == old(store.importHistory)
      ensures old(file).Some? && old(file).value.text.Some? && TaiColTaxa(old(file).value.text.value) == [] ==>
        status == Failure && message == NoAcceptedRows && count == old(count)
        && store.taxonIndex == old(store.taxonIndex) && store.importHistory == old(store.importHistory)
      ensures old(file).Some? && old(file).value.text.Some? && TaiColTaxa(old(file).value.text.value) != [] ==>
        var taxa := TaiColTaxa(old(file).value.text.value);
        status == Success && count == |taxa| && message == old(message)
        && store.taxonIndex == taxa
        && store.importHistory == CappedHistory(old(store.importHistory),
             ImportRecord(newId, old(file).value.name, now, |taxa|, TaxonomyCsv))
    {
      if file.None? {
        return;
      }
      status := Parsing;
      var chosen := file.value;
      if chosen.text.None? {
        message := ReadFailed;
        status := Failure;
        return;
      }
      var taxa := ParseTaiColCsv(chosen.text.value);
      if |taxa| > 0 {
        ghost var msg := message;
        store.SaveTaxonIndex(taxa);
        assert store.taxonIndex == taxa && message == msg;
        store.AddImportRecord(ImportRecord(newId, chosen.name, now, |taxa|, TaxonomyCsv));
        assert store.taxonIndex == taxa && message == msg;
        count := |taxa|;
        status := Success;
      } else {
        message := NoAcceptedRows;
        status := Failure;
      }
    }
  }
}
