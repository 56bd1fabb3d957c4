/**
 * The photo-set panel of one stage: uploading a batch of files into the
 * stage's Drive folder, removing a photo, setting a photo's gender and
 * editing the set's iNaturalist link.  Each operation answers the set the
 * panel hands to its `onUpdate` callback, or says why it hands nothing.
 *
 * What the browser and the remote side answer (the picked files, the image
 * sizes, the random photo ids, whether each upload succeeds, the
 * confirmation dialog) is passed in.
 */
module PhotoSetManager {
  import opened Types
  import opened Lists
  import opened Drive

  datatype UploadError = RootNotSet | UploadRejected

  /** What `handleUpload` ends with: no files picked, an error message, or the set passed to `onUpdate`. */
  datatype UploadOutcome = NoFiles | Failed(error: UploadError) | Updated(newSet: PhotoSet)

  function PhotoId(p: PhotoItem): string { p.id }

  /** The photo record made for one uploaded file, filed under `folder`. */
  function NewPhoto(f: PickedFile, stage: MothStage, folder: FolderPath): (p: PhotoItem)
    ensures p.gender == Some(Uncertain) <==> stage == Adult
    ensures stage != Adult ==> p.gender == None
    ensures p.driveFolderId == Some(folder.folderId) && p.drivePathDisplay == Some(folder.displayPath)
    ensures p.id == f.newId && p.name == f.name && p.size == f.size && p.url == f.localUrl
  {
    PhotoItem(f.newId, f.localUrl, f.name, f.size, Some(f.width), Some(f.height), f.mimeType,
              if stage == Adult then Some(Uncertain) else None,
              Some(folder.folderId), Some(folder.displayPath))
  }

  /** The photos of a batch, one per file, in file order. */
  function BatchPhotos(files: seq<PickedFile>, stage: MothStage, folder: FolderPath): (r: seq<PhotoItem>)
    ensures |r| == |files|
    ensures forall k :: 0 <= k < |files| ==> r[k] == NewPhoto(files[k], stage, folder)
  {
    if files == [] then []
    else BatchPhotos(files[..|files| - 1], stage, folder) + [NewPhoto(files[|files| - 1], stage, folder)]
  }

  /** Every photo of one batch sits in the same folder and follows the gender rule of the stage. */
  lemma BatchShareFolder(files: seq<PickedFile>, stage: MothStage, folder: FolderPath)
    ensures forall p :: p in BatchPhotos(files, stage, folder) ==>
      p.driveFolderId == Some(folder.folderId) && p.drivePathDisplay == Some(folder.displayPath)
      && (p.gender == Some(Uncertain) <==> stage == Adult)
  {
    var r := BatchPhotos(files, stage, folder);
    forall p | p in r
      ensures p.driveFolderId == Some(folder.folderId) && p.drivePathDisplay == Some(folder.displayPath)
      && (p.gender == Some(Uncertain) <==> stage == Adult)
    {
      var k :| 0 <= k < |r| && r[k] == p;
      assert p == NewPhoto(files[k], stage, folder);
    }
  }

  predicate AllUploaded(uploaded: seq<bool>) {
    forall i :: 0 <= i < |uploaded| ==> uploaded[i]
  }

  /**
   * `handleUpload`.  With no files, nothing happens.  Without a root folder
   * id, an error is shown before any folder is resolved.  Otherwise the
   * stage folder is resolved once and each file is uploaded into it; when an
   * upload fails the batch is dropped with an error, and when all succeed
   * the new photos follow the existing ones in file order.
   * `uploaded[i]` is the answer of the upload of `files[i]`.
   */
  method HandleUpload(folders: FolderCache, rootId: string, entry: MothEntry, stage: MothStage,
                      current: PhotoSet, files: seq<PickedFile>, uploaded: seq<bool>)
    returns (outcome: UploadOutcome)
    requires folders.Valid()
    requires |uploaded| == |files|
    modifies folders
    ensures folders.Valid()
    ensures files == [] ==> outcome == NoFiles
    ensures files == [] || rootId == "" ==>
      folders.cache == old(folders.cache) && folders.provisionCalls == old(folders.provisionCalls)
    ensures files != [] && rootId == "" ==> outcome == Failed(RootNotSet)
    ensures files != [] && rootId != "" ==> CachedChain(folders.cache, rootId, Segments(entry, stage)).Some?
    ensures Extends(folders.cache, old(folders.cache))
    ensures forall k :: k in folders.cache && k !in old(folders.cache) ==>
              k in ChainKeys(folders.cache, rootId, Segments(entry, stage))
    ensures folders.provisionCalls - old(folders.provisionCalls) == |folders.cache| - |old(folders.cache)| <= 4
    ensures files != [] && rootId != "" && !AllUploaded(uploaded) ==> outcome == Failed(UploadRejected)
    ensures files != [] && rootId != "" && AllUploaded(uploaded) ==>
      outcome == Updated(current.(photos := current.photos + BatchPhotos(files, stage,
        FolderPath(CachedChain(folders.cache, rootId, Segments(entry, stage)).value, DisplayPath(entry, stage)))))
  {
    if files == [] {
      return NoFiles;
    }
    if rootId == "" {
      return Failed(RootNotSet);
    }
    var resolved := folders.EnsureFolderPath(rootId, entry, stage);
    var ok, newPhotos := UploadBatch(files, uploaded, stage, resolved.path);
    if !ok {
      return Failed(UploadRejected);
    }
    outcome := Updated(current.(photos := current.photos + newPhotos));
  }

  /**
   * The loop of `handleUpload`: uploads the files in order, making a photo
   * for each; the first failed upload ends the batch.
   */
  method UploadBatch(files: seq<PickedFile>, uploaded: seq<bool>, stage: MothStage, folder: FolderPath)
    returns (ok: bool, newPhotos: seq<PhotoItem>)
    requires |uploaded| == |files|
    ensures ok <==> AllUploaded(uploaded)
    ensures ok ==> newPhotos == BatchPhotos(files, stage, folder)
  {
    newPhotos := [];
    var i := 0;
    while i < |files|
      invariant 0 <= i <= |files|
      invariant forall k :: 0 <= k < i ==> uploaded[k]
      invariant newPhotos == BatchPhotos(files[..i], stage, folder)
    {
      if !uploaded[i] {
        return false, newPhotos;
      }
      assert files[..i + 1][..i] == files[..i] && files[..i + 1][i] == files[i];
      assert BatchPhotos(files[..i + 1], stage, folder)
          == BatchPhotos(files[..i], stage, folder) + [NewPhoto(files[i], stage, folder)];
      newPhotos := newPhotos + [NewPhoto(files[i], stage, folder)];
      i := i + 1;
    }
    assert files[..i] == files;
    ok := true;
  }

  /** `removePhoto`: when confirmed, the photos with the id leave the set; otherwise the set is as it was. */
  function RemovePhoto(current: PhotoSet, photoId: string, confirmed: bool): (r: PhotoSet)
    ensures !confirmed ==> r == current
    ensures r.id == current.id && r.inatLink == current.inatLink
    ensures confirmed ==> forall p :: p in r.photos <==> p in current.photos && p.id != photoId
    ensures confirmed ==> forall p :: multiset(r.photos)[p] == if p.id != photoId then multiset(current.photos)[p] else 0
    ensures IsSubsequence(r.photos, current.photos)
  {
    if confirmed then
      RemoveIdCounts(current.photos, PhotoId, photoId);
      current.(photos := RemoveId(current.photos, PhotoId, photoId))
    else
      SubsequenceOfItself(current.photos);
      current
  }

  /** `updatePhotoGender`: the photos with the id get the gender; nothing else changes. */
  function UpdatePhotoGender(current: PhotoSet, photoId: string, gender: Gender): (r: PhotoSet)
    ensures r.id == current.id && r.inatLink == current.inatLink
    ensures |r.photos| == |current.photos|
    ensures forall k :: 0 <= k < |r.photos| ==>
      if current.photos[k].id == photoId then r.photos[k] == current.photos[k].(gender := Some(gender))
      else r.photos[k] == current.photos[k]
  {
    current.(photos := UpdateId(current.photos, PhotoId, photoId, (p: PhotoItem) => p.(gender := Some(gender))))
  }

  /** Removing a photo discards any gender set on it before. */
  lemma RemoveAfterGender(current: PhotoSet, photoId: string, gender: Gender)
    ensures RemovePhoto(UpdatePhotoGender(current, photoId, gender), photoId, true) == RemovePhoto(current, photoId, true)
  {
    RemoveAfterUpdate(current.photos, PhotoId, photoId, (p: PhotoItem) => p.(gender := Some(gender)));
  }

  /** The link field of the panel: the set's iNaturalist link becomes `link`; the photos stay. */
  function SetInatLink(current: PhotoSet, link: string): (r: PhotoSet)
    ensures r.inatLink == link
    ensures r.id == current.id && r.photos == current.photos
  {
    current.(inatLink := link)
  }
}
