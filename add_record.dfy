/**
 * The submit step of the legacy record form: the record is built from the
 * selected taxon and the form fields, then written over the record being
 * edited or put in front of all records.
 *
 * The random id of a new record and the clock are parameters.
 */
module AddRecord {
  import opened Types
  import opened Lists
  import opened Db

  /** The form fields besides the taxon. */
  datatype Form = Form(inatLink: string, stage: RecordStage, notes: string, photos: seq<Photo>)

  /**
   * The record `handleSubmit` builds: the identity and creation time of the
   * record being edited, or the fresh id and the clock for a new one; the
   * taxon fields of the selected taxon; the form fields as entered.
   */
  function BuildRecord(t: Taxon, form: Form, editRecord: Option<BiodiversityRecord>, newId: string, now: int)
    : (r: BiodiversityRecord)
    ensures editRecord.Some? ==> r.id == editRecord.value.id && r.createdAt == editRecord.value.createdAt
    ensures editRecord.None? ==> r.id == newId && r.createdAt == now
    ensures r.taxonId == t.taxonId && r.taxonName == t.scientificName && r.taxonChinese == t.chineseName
    ensures r.taxonRank == t.rank && r.taxonPath == t.path
    ensures r.inatLink == Some(form.inatLink) && r.stage == form.stage
    ensures r.notes == Some(form.notes) && r.photos == form.photos
  {
    BiodiversityRecord(
      if editRecord.Some? then editRecord.value.id else newId,
      t.taxonId, t.scientificName, t.chineseName, t.rank, t.path,
      Some(form.inatLink), form.stage, Some(form.notes), form.photos,
      if editRecord.Some? then editRecord.value.createdAt else now)
  }

  /**
   * `handleSubmit`: with no taxon selected nothing is written and the page
   * is not marked saved.  Otherwise the built record updates the record
   * being edited, or is saved in front of the others, and the page is
   * marked saved.
   */
  method HandleSubmit(store: CatalogStore, selected: Option<Taxon>, form: Form,
                      editRecord: Option<BiodiversityRecord>, newId: string, now: int)
    returns (saved: bool)
    modifies store`records
    ensures saved <==> selected.Some?
    ensures selected.None? ==> store.records == old(store.records)
    ensures selected.Some? && editRecord.Some? ==>
      store.records == ReplaceId(old(store.records), RecordId, BuildRecord(selected.value, form, editRecord, newId, now))
    ensures selected.Some? && editRecord.None? ==>
      store.records == [BuildRecord(selected.value, form, editRecord, newId, now)] + old(store.records)
  {
    if selected.None? {
      return false;
    }
    var record := BuildRecord(selected.value, form, editRecord, newId, now);
    if editRecord.Some? {
      store.UpdateRecord(record);
    } else {
      store.SaveRecord(record);
    }
    saved := true;
  }

  /**
   * Re-submitting a record that is stored under its id leaves every other
   * record as it was and stores the rebuilt record under that id.
   */
  lemma EditKeepsOthers(records: seq<BiodiversityRecord>, t: Taxon, form: Form, edited: BiodiversityRecord,
                        newId: string, now: int)
    requires edited in records
    ensures var r := BuildRecord(t, form, Some(edited), newId, now);
      RemoveId(ReplaceId(records, RecordId, r), RecordId, edited.id) == RemoveId(records, RecordId, edited.id)
      && r in ReplaceId(records, RecordId, r)
  {
    var r := BuildRecord(t, form, Some(edited), newId, now);
    ReplaceIdKeepsOthers(records, RecordId, r);
    var k :| 0 <= k < |records| && records[k] == edited;
    assert RecordId(records[k]) == RecordId(r);
  }
}
