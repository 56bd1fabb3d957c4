/**
 * The photo list of a legacy biodiversity record: adding picked files,
 * removing a photo and editing a photo's iNaturalist link.  Each operation
 * answers the list the component hands to its `setPhotos` callback.
 *
 * The object URL, the loaded image's pixel size and the random photo id of
 * each file are part of the picked file.
 */
module PhotoUploader {
  import opened Types
  import opened Lists

  function LegacyPhotoId(p: Photo): string { p.item.id }

  /** The prefix of the placeholder Drive link every added photo carries. */
  const SimulatedDrivePrefix: string := "https://drive.google.com/simulate/"

  /** The photo made for one picked file: no gender, no Drive folder, an empty iNaturalist link. */
  function UploadedPhoto(f: PickedFile): (p: Photo)
    ensures p.item.id == f.newId && p.item.url == f.localUrl && p.item.name == f.name
    ensures p.item.size == f.size && p.item.mimeType == f.mimeType
    ensures p.item.width == Some(f.width) && p.item.height == Some(f.height)
    ensures p.item.gender.None? && p.item.driveFolderId.None? && p.item.drivePathDisplay.None?
    ensures p.inatLink == Some("")
    ensures p.driveLink == Some(SimulatedDrivePrefix + f.name)
  {
    Photo(PhotoItem(f.newId, f.localUrl, f.name, f.size, Some(f.width), Some(f.height), f.mimeType,
                    None, None, None),
          Some(""), Some(SimulatedDrivePrefix + f.name))
  }

  /** The photos of the picked files, one per file, in file order. */
  function UploadedPhotos(files: seq<PickedFile>): (r: seq<Photo>)
    ensures |r| == |files|
    ensures forall k :: 0 <= k < |files| ==> r[k] == UploadedPhoto(files[k])
  {
    if files == [] then [] else UploadedPhotos(files[..|files| - 1]) + [UploadedPhoto(files[|files| - 1])]
  }

  /**
   * `handleFileChange`: with no picked files nothing is handed on; otherwise
   * the photos of the files follow the existing ones, in file order.
   */
  method HandleFileChange(photos: seq<Photo>, files: seq<PickedFile>) returns (r: Option<seq<Photo>>)
    ensures files == [] ==> r.None?
    ensures files != [] ==> r == Some(photos + UploadedPhotos(files))
  {
    if |files| == 0 {
      return None;
    }
    var newPhotos: seq<Photo> := [];
    var i := 0;
    while i < |files|
      invariant 0 <= i <= |files|
      invariant newPhotos == UploadedPhotos(files[..i])
    {
      assert files[..i + 1][..i] == files[..i];
      newPhotos := newPhotos + [UploadedPhoto(files[i])];
      i := i + 1;
    }
    assert files[..i] == files;
    r := Some(photos + newPhotos);
  }

  /**
   * What the user sees after adding files: the old photos first, then one
   * photo per file with an empty iNaturalist link and the file's simulated
   * Drive link.
   */
  lemma AddedPhotosFollow(photos: seq<Photo>, files: seq<PickedFile>)
    ensures var all := photos + UploadedPhotos(files);
      |all| == |photos| + |files| && all[..|photos|] == photos
      && forall k :: 0 <= k < |files| ==>
           all[|photos| + k].item.name == files[k].name && all[|photos| + k].inatLink == Some("")
           && all[|photos| + k].driveLink == Some(SimulatedDrivePrefix + files[k].name)
  {
    var all := photos + UploadedPhotos(files);
    assert all[..|photos|] == photos;
    forall k | 0 <= k < |files|
      ensures all[|photos| + k] == UploadedPhoto(files[k])
    {
      assert all[|photos| + k] == UploadedPhotos(files)[k];
    }
  }

  /** `removePhoto`: the photos with the id leave the list. */
  function RemovePhoto(photos: seq<Photo>, id: string): (r: seq<Photo>)
    ensures forall p :: p in r <==> p in photos && p.item.id != id
    ensures forall p :: multiset(r)[p] == if p.item.id != id then multiset(photos)[p] else 0
    ensures IsSubsequence(r, photos)
  {
    RemoveIdCounts(photos, LegacyPhotoId, id);
    RemoveId(photos, LegacyPhotoId, id)
  }

  /** Removing an id no photo has leaves the list as it was. */
  lemma RemoveAbsentPhoto(photos: seq<Photo>, id: string)
    requires forall k :: 0 <= k < |photos| ==> photos[k].item.id != id
    ensures RemovePhoto(photos, id) == photos
  {
    RemoveAbsentId(photos, LegacyPhotoId, id);
  }

  /** `updatePhotoLink`: the photos with the id get the link; nothing else changes. */
  function UpdatePhotoLink(photos: seq<Photo>, id: string, link: string): (r: seq<Photo>)
    ensures |r| == |photos|
    ensures forall k :: 0 <= k < |photos| ==>
      if photos[k].item.id == id then r[k] == photos[k].(inatLink := Some(link))
      else r[k] == photos[k]
  {
    UpdateId(photos, LegacyPhotoId, id, (p: Photo) => p.(inatLink := Some(link)))
  }

  /** Setting the same link twice is the same as setting it once. */
  lemma UpdatePhotoLinkIdempotent(photos: seq<Photo>, id: string, link: string)
    ensures UpdatePhotoLink(UpdatePhotoLink(photos, id, link), id, link) == UpdatePhotoLink(photos, id, link)
  {
    var once := UpdatePhotoLink(photos, id, link);
    var twice := UpdatePhotoLink(once, id, link);
    forall k | 0 <= k < |photos|
      ensures twice[k] == once[k]
    {
      assert once[k].item.id == photos[k].item.id;
    }
  }

  /** Removing a photo discards any link set on it before. */
  lemma RemoveAfterLinkUpdate(photos: seq<Photo>, id: string, link: string)
    ensures RemovePhoto(UpdatePhotoLink(photos, id, link), id) == RemovePhoto(photos, id)
  {
    RemoveAfterUpdate(photos, LegacyPhotoId, id, (p: Photo) => p.(inatLink := Some(link)));
  }
}
