/** The image uploader: which selected files are accepted, the resize applied before
    compression, the upload outcome, and removing the current image. */
module ImageUpload {
  import opened Tables

  /** The largest accepted file, 10 MiB. */
  const MaxUploadBytes: int := 10 * 1024 * 1024

  /** The widest image kept as is. */
  const MaxWidth: real := 1200.0

  /** What the browser reports about the chosen file. */
  datatype FileInfo = FileInfo(mimeType: string, size: int)

  /** The checks' verdicts, in the order they are made. */
  datatype Verdict = NoFile | NotAnImage | TooLarge | Accepted

  /** `startsWith`, case-sensitive. */
  predicate StartsWith(s: string, prefix: string)
  {
    |prefix| <= |s| && s[..|prefix|] == prefix
  }

  /** `handleFileSelect`'s checks: a file must be chosen, its MIME type must start with
      "image/", and it must be at most 10 MiB. */
  function Validate(file: Option<FileInfo>): (v: Verdict)
    ensures v == NoFile <==> file.None?
    ensures v == NotAnImage <==> file.Some? && !StartsWith(file.value.mimeType, "image/")
    ensures v == TooLarge <==> file.Some? && StartsWith(file.value.mimeType, "image/") && file.value.size > MaxUploadBytes
    ensures v == Accepted <==> file.Some? && StartsWith(file.value.mimeType, "image/") && file.value.size <= MaxUploadBytes
  {
    if file.None? then NoFile
    else if !StartsWith(file.value.mimeType, "image/") then NotAnImage
    else if file.value.size > MaxUploadBytes then TooLarge
    else Accepted
  }

  /** The size limit is inclusive, and the type check comes first. */
  lemma SizeBoundary(mime: string)
    requires StartsWith(mime, "image/")
    ensures Validate(Some(FileInfo(mime, 10485760))) == Accepted
    ensures Validate(Some(FileInfo(mime, 10485761))) == TooLarge
    ensures Validate(Some(FileInfo("application/pdf", 10485761))) == NotAnImage
    ensures Validate(Some(FileInfo("IMAGE/PNG", 1))) == NotAnImage
  {
    assert "application/pdf"[0] != "image/"[0];
    assert "IMAGE/PNG"[0] != "image/"[0];
  }

  /** Canvas dimensions. */
  datatype Size = Size(width: real, height: real)

  /** `compressImage`'s resize: an image wider than 1200 is scaled to width 1200 with its
      aspect ratio kept; anything else keeps its size. */
  function Resize(s: Size): (r: Size)
    ensures s.width <= MaxWidth ==> r == s
    ensures s.width > MaxWidth ==> r.width == MaxWidth && r.height * s.width == s.height * MaxWidth
  {
    if s.width > MaxWidth then Size(MaxWidth, s.height * MaxWidth / s.width) else s
  }

  /** The result is never wider than 1200 unless it already was narrower, and resizing twice
      changes nothing more. */
  lemma ResizeIdempotent(s: Size)
    ensures Resize(s).width <= MaxWidth || Resize(s).width == s.width
    ensures Resize(Resize(s)) == Resize(s)
  {
  }

  /** The preview and the busy flag. */
  datatype UploadState = UploadState(preview: Option<string>, uploading: bool)

  /** The preview on mount: `currentImage || null`. */
  function InitialState(currentImage: Option<string>): (s: UploadState)
    ensures s.preview.Some? <==> currentImage.Some? && currentImage.value != ""
    ensures s.preview.Some? ==> s.preview == currentImage
    ensures !s.uploading
  {
    UploadState(if currentImage.Some? && currentImage.value != "" then currentImage else None, false)
  }

  /** The state after a selection and the URL handed to `onUpload`, if any. */
  datatype SelectResult = SelectResult(state: UploadState, uploaded: Option<string>)

  /** `handleFileSelect`: a rejected file changes nothing and uploads nothing; an accepted one
      is compressed and uploaded, and on success its public URL becomes the preview and is
      handed to `onUpload`. Every path, the early returns for a rejected file included, runs
      inside the `try` whose `finally` clears the busy flag. */
  function HandleFileSelect(s: UploadState, file: Option<FileInfo>, compressOk: bool, uploadOk: bool, publicUrl: string): (r: SelectResult)
    ensures Validate(file) != Accepted ==> r == SelectResult(s.(uploading := false), None)
    ensures r.uploaded.Some? <==> Validate(file) == Accepted && compressOk && uploadOk
    ensures r.uploaded.Some? ==> r.uploaded.value == publicUrl && r.state.preview == Some(publicUrl)
    ensures r.uploaded.None? ==> r.state.preview == s.preview
    ensures !r.state.uploading
  {
    if Validate(file) != Accepted then SelectResult(s.(uploading := false), None)
    else if compressOk && uploadOk then SelectResult(UploadState(Some(publicUrl), false), Some(publicUrl))
    else SelectResult(s.(uploading := false), None)
  }

  /** `handleRemove`: the preview is cleared, and `onRemove` is called when one was given. */
  datatype RemoveResult = RemoveResult(state: UploadState, removeCalled: bool)

  function HandleRemove(s: UploadState, hasOnRemove: bool): (r: RemoveResult)
    ensures r.state.preview.None? && r.state.uploading == s.uploading
    ensures r.removeCalled <==> hasOnRemove
  {
    RemoveResult(s.(preview := None), hasOnRemove)
  }
}
