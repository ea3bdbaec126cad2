/**
 * Image tools (image-tools/image-tools.js): which dropped or selected files
 * are taken in, the records they become, removing and clearing them, and the
 * file names and selection of the download buttons. Reading the files,
 * decoding the images and the compress/resize pipeline are not modelled.
 */
module ImageTools {
  import opened Common
  import opened JsString
  import Lists

  const MaxFileSize: nat := 10 * 1024 * 1024
  const MaxFiles: nat := 20

  /** A `File` as the page reads it. */
  datatype File = File(name: string, size: nat, mimeType: string)

  datatype Status = Pending | Compressed | Resized

  /** An entry of `uploadedImages`; the data URL and the pixel dimensions,
      which come from the browser's decoders, are left out. */
  datatype ImageRecord = ImageRecord(id: string, name: string, size: nat, mimeType: string,
                                     status: Status, resultSize: nat, compressionRatio: int)

  datatype Mode = Compress | Resize

  /** An entry of `processedResults`, as far as the download code reads it. */
  datatype ProcessedResult = ProcessedResult(name: string, mode: Mode)

  // ---------------------------------------------------------------------------
  // Intake

  predicate IsImage(f: File) {
    StartsWith(f.mimeType, "image/")
  }

  predicate WithinSizeLimit(f: File) {
    f.size <= MaxFileSize
  }

  /** What `handleFiles` takes in: nothing when no file is an image;
      otherwise the first 20 images within the size limit, with the number
      of oversized images and whether the list was cut, which the alerts
      report. */
  datatype Intake = NoImages | Accepted(files: seq<File>, oversized: nat, truncated: bool)

  function ImageFiles(files: seq<File>): seq<File> {
    Lists.Filter(files, IsImage)
  }

  function ValidFiles(files: seq<File>): seq<File> {
    Lists.Filter(ImageFiles(files), WithinSizeLimit)
  }

  function HandleIntake(files: seq<File>): (r: Intake)
    ensures r.NoImages? <==> ImageFiles(files) == []
    ensures r.Accepted? ==> |r.files| <= MaxFiles
    ensures r.Accepted? ==> (r.truncated <==> |ValidFiles(files)| > MaxFiles)
    ensures r.Accepted? ==> r.oversized + |ValidFiles(files)| == |ImageFiles(files)|
  {
    var images := ImageFiles(files);
    if |images| == 0 then NoImages
    else
      var tooLarge := (f: File) => !WithinSizeLimit(f);
      var oversized := Lists.Filter(images, tooLarge);
      var valid := ValidFiles(files);
      Lists.FilterPartition(images, WithinSizeLimit, tooLarge);
      assert |multiset(valid)| + |multiset(oversized)| == |multiset(images)|;
      if |valid| > MaxFiles then Accepted(valid[..MaxFiles], |oversized|, true)
      else Accepted(valid, |oversized|, false)
  }

  /** The accepted files are images within the size limit, they are the
      first of all such files in their original order, and none is left
      out unless 20 were already taken. */
  lemma IntakeSpec(files: seq<File>)
    requires HandleIntake(files).Accepted?
    ensures var acc := HandleIntake(files).files;
            && (forall i :: 0 <= i < |acc| ==> IsImage(acc[i]) && WithinSizeLimit(acc[i]))
            && |acc| == Min(MaxFiles, |ValidFiles(files)|)
            && acc == ValidFiles(files)[..|acc|]
            && ValidFiles(files) == Lists.Filter(files, (f: File) => IsImage(f) && WithinSizeLimit(f))
  {
    var both := (f: File) => IsImage(f) && WithinSizeLimit(f);
    Lists.FilterFilter(files, IsImage, WithinSizeLimit, both);
    Lists.FilterAllPass(files, both);
  }

  /** Up to the limit, a file is taken in exactly when it is an image within
      the size limit. */
  lemma IntakeMembers(files: seq<File>, f: File)
    requires HandleIntake(files).Accepted?
    requires |ValidFiles(files)| <= MaxFiles
    ensures f in HandleIntake(files).files <==> f in files && IsImage(f) && WithinSizeLimit(f)
  {
    Lists.FilterMembers(files, IsImage, f);
    Lists.FilterMembers(ImageFiles(files), WithinSizeLimit, f);
  }

  /** The record a new upload starts as. */
  function NewRecord(f: File, id: string): (r: ImageRecord)
    ensures r.status == Pending && r.resultSize == 0 && r.compressionRatio == 0
    ensures r.id == id && r.name == f.name && r.size == f.size && r.mimeType == f.mimeType
  {
    ImageRecord(id, f.name, f.size, f.mimeType, Pending, 0, 0)
  }

  // ---------------------------------------------------------------------------
  // Downloads

  function PrefixFor(compressed: bool): string {
    if compressed then "compressed_" else "resized_"
  }

  /** `downloadProcessedImage`: the name a processed result is saved as. */
  function ResultFileName(result: ProcessedResult): string {
    PrefixFor(result.mode == Compress) + result.name
  }

  /** The name a processed upload is saved as. */
  function ImageFileName(image: ImageRecord): string {
    PrefixFor(image.status == Compressed) + image.name
  }

  /** The prefix says which operation made the file, and the original name
      follows it unchanged; an upload and a result of the same name and
      operation are saved under the same name. */
  lemma FileNameParts(image: ImageRecord, result: ProcessedResult)
    ensures var n := ImageFileName(image);
            && (image.status == Compressed ==> n[..11] == "compressed_" && n[11..] == image.name)
            && (image.status != Compressed ==> n[..8] == "resized_" && n[8..] == image.name)
    ensures var n := ResultFileName(result);
            && (result.mode == Compress ==> n[..11] == "compressed_" && n[11..] == result.name)
            && (result.mode != Compress ==> n[..8] == "resized_" && n[8..] == result.name)
    ensures image.name == result.name && (image.status == Compressed <==> result.mode == Compress)
            ==> ImageFileName(image) == ResultFileName(result)
  {
  }

  /** The position of the first image with the id, or the number of images
      when there is none. */
  function FirstWithId(images: seq<ImageRecord>, id: string): (k: nat)
    ensures k <= |images|
    ensures forall j :: 0 <= j < k ==> images[j].id != id
    ensures k < |images| ==> images[k].id == id
    decreases |images|
  {
    if images == [] || images[0].id == id then 0 else 1 + FirstWithId(images[1..], id)
  }

  /** `downloadProcessedImageById`: `find` picks the first image with the id;
      the download is refused when there is none or it is still pending, and
      otherwise saved under that image's file name. */
  function DownloadById(images: seq<ImageRecord>, id: string): (r: Option<string>)
    ensures r.None? <==>
              || (forall k :: 0 <= k < |images| ==> images[k].id != id)
              || (exists k :: 0 <= k < |images| && images[k].id == id && images[k].status == Pending
                               && forall j :: 0 <= j < k ==> images[j].id != id)
    ensures r.Some? ==>
              exists k :: 0 <= k < |images| && images[k].id == id && images[k].status != Pending
                          && (forall j :: 0 <= j < k ==> images[j].id != id)
                          && r.value == ImageFileName(images[k])
  {
    var k := FirstWithId(images, id);
    if k == |images| || images[k].status == Pending then None else Some(ImageFileName(images[k]))
  }

  /** What "download all" saves: the processed results when there are any,
      otherwise every upload that is no longer pending, and an error when
      there is none of either. */
  datatype Downloads = FromResults(results: seq<ProcessedResult>)
                     | FromImages(images: seq<ImageRecord>)
                     | NothingProcessed

  /** An upload that has been compressed or resized. */
  predicate IsProcessed(img: ImageRecord) {
    img.status != Pending
  }

  function DownloadAll(images: seq<ImageRecord>, results: seq<ProcessedResult>): (r: Downloads)
    ensures r.FromResults? <==> results != []
    ensures r.FromResults? ==> r.results == results
    ensures r.FromImages? ==> r.images != []
  {
    if results != [] then FromResults(results)
    else
      var done := Lists.Filter(images, IsProcessed);
      if done == [] then NothingProcessed else FromImages(done)
  }

  /** Without results, "download all" takes exactly the uploads that are not
      pending, in order, and fails exactly when every upload is pending. */
  lemma DownloadAllSelection(images: seq<ImageRecord>, img: ImageRecord)
    ensures DownloadAll(images, []).FromImages? ==>
              (img in DownloadAll(images, []).images <==> img in images && img.status != Pending)
    ensures DownloadAll(images, []).NothingProcessed? <==>
              forall k :: 0 <= k < |images| ==> images[k].status == Pending
    ensures DownloadAll(images, []).FromImages? ==>
              DownloadAll(images, []).images == Lists.Filter(images, IsProcessed)
    ensures forall front, back :: images == front + back ==>
              Lists.Filter(images, IsProcessed) == Lists.Filter(front, IsProcessed) + Lists.Filter(back, IsProcessed)
  {
    var done := IsProcessed;
    forall front, back | images == front + back
      ensures Lists.Filter(images, IsProcessed) == Lists.Filter(front, IsProcessed) + Lists.Filter(back, IsProcessed)
    {
      Lists.FilterAppend(front, back, IsProcessed);
    }
    Lists.FilterMembers(images, done, img);
    forall k | 0 <= k < |images| && images[k].status != Pending
      ensures Lists.Filter(images, done) != []
    {
      Lists.FilterMembers(images, done, images[k]);
    }
    if Lists.Filter(images, done) != [] {
      var first := Lists.Filter(images, done)[0];
      Lists.FilterMembers(images, done, first);
    }
  }

  // ---------------------------------------------------------------------------
  // The page state

  class Workspace {
    var uploadedImages: seq<ImageRecord>
    var processedResults: seq<ProcessedResult>

    constructor ()
      ensures uploadedImages == [] && processedResults == []
    {
      uploadedImages := [];
      processedResults := [];
    }

    /** `handleFiles`: one pending record per accepted file, appended in
        order; `ids` stands for the identifiers `generateId` makes. */
    method HandleFiles(files: seq<File>, ids: seq<string>) returns (intake: Intake)
      requires |ids| >= |files|
      modifies this
      ensures intake == HandleIntake(files)
      ensures intake.NoImages? ==> uploadedImages == old(uploadedImages)
      ensures intake.Accepted? ==>
                && |uploadedImages| == |old(uploadedImages)| + |intake.files|
                && uploadedImages[..|old(uploadedImages)|] == old(uploadedImages)
                && forall k :: 0 <= k < |intake.files| ==>
                     uploadedImages[|old(uploadedImages)| + k] == NewRecord(intake.files[k], ids[k])
      ensures processedResults == old(processedResults)
    {
      intake := HandleIntake(files);
      if intake.NoImages? {
        return;
      }
      var accepted := intake.files;
      assert |accepted| <= |files| by {
        assert |ValidFiles(files)| <= |ImageFiles(files)| <= |files|;
      }
      var start := |uploadedImages|;
      var i := 0;
      while i < |accepted|
        invariant 0 <= i <= |accepted|
        invariant |uploadedImages| == start + i
        invariant uploadedImages[..start] == old(uploadedImages)
        invariant forall k :: 0 <= k < i ==> uploadedImages[start + k] == NewRecord(accepted[k], ids[k])
        invariant processedResults == old(processedResults)
      {
        uploadedImages := uploadedImages + [NewRecord(accepted[i], ids[i])];
        i := i + 1;
      }
    }

    /** `removeImage` */
    method RemoveImage(id: string)
      modifies this
      ensures uploadedImages == Lists.Filter(old(uploadedImages), (img: ImageRecord) => img.id != id)
      ensures processedResults == old(processedResults)
    {
      uploadedImages := Lists.Filter(uploadedImages, (img: ImageRecord) => img.id != id);
    }

    /** `clearAllImages`: `confirmed` is the answer to the dialog. */
    method ClearAllImages(confirmed: bool)
      modifies this
      ensures old(uploadedImages) != [] && confirmed ==> uploadedImages == [] && processedResults == []
      ensures !(old(uploadedImages) != [] && confirmed) ==>
                uploadedImages == old(uploadedImages) && processedResults == old(processedResults)
    {
      if |uploadedImages| > 0 {
        if confirmed {
          uploadedImages := [];
          processedResults := [];
        }
      }
    }
  }

  /** Removing drops exactly the records with the id and keeps the others. */
  lemma RemoveImageSpec(images: seq<ImageRecord>, id: string, img: ImageRecord)
    ensures img in Lists.Filter(images, (x: ImageRecord) => x.id != id) <==> img in images && img.id != id
    ensures multiset(Lists.Filter(images, (x: ImageRecord) => x.id != id))
            + multiset(Lists.Filter(images, (x: ImageRecord) => !(x.id != id))) == multiset(images)
  {
    Lists.FilterMembers(images, (x: ImageRecord) => x.id != id, img);
    Lists.FilterPartition(images, (x: ImageRecord) => x.id != id, (x: ImageRecord) => !(x.id != id));
  }
}
