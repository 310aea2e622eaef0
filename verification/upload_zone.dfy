/**
 * The file chooser on the upload page: dropped files are narrowed to images
 * and videos, while files picked through the dialog are passed on as they
 * are (the dialog's `accept` list is only a hint to the browser).
 */
module UploadZone {
  import opened Seqs
  import opened Text
  import opened FileUpload

  predicate IsMedia(f: FileInfo) {
    StartsWith(f.mimeType, "image/") || StartsWith(f.mimeType, "video/")
  }

  function Media(): FileInfo -> bool {
    (f: FileInfo) => IsMedia(f)
  }

  /** `handleDrop`: the dropped files whose type is an image or video type, in order. */
  function Drop(files: seq<FileInfo>): (r: seq<FileInfo>)
    ensures forall f :: f in r <==> f in files && IsMedia(f)
    ensures Subsequence(r, files)
  {
    FilterIsSubsequence(files, Media());
    Filter(files, Media())
  }

  /** `handleFileSelect`: every chosen file. */
  function Select(files: seq<FileInfo>): seq<FileInfo> {
    files
  }

  /** Dropping the same files again changes nothing. */
  lemma DropIdempotent(files: seq<FileInfo>)
    ensures Drop(Drop(files)) == Drop(files)
  {
    FilterIdempotent(files, Media());
  }

  /** Dropping passes on exactly what choosing would when, and only when, every file is an image or video. */
  lemma DropMatchesSelect(files: seq<FileInfo>)
    ensures Drop(files) == Select(files) <==> forall i | 0 <= i < |files| :: IsMedia(files[i])
  {
    if forall i | 0 <= i < |files| :: IsMedia(files[i]) {
      FilterAll(files, Media());
    }
    if Drop(files) == Select(files) {
      forall i | 0 <= i < |files| ensures IsMedia(files[i]) {
        assert files[i] in Drop(files);
      }
    }
  }
}
