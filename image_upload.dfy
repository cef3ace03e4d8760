/** The attachment list of `components/ImageUpload.tsx`: the record built for
    each selected file, the batch that is appended once every file has been
    read, and removal by position. All three are pure updaters of the list. */
module ImageUpload {
  import opened Outcomes

  /** An attached reference image: the file's name, its contents as a data
      URL, and the file's reported MIME type. */
  datatype UploadedImage = UploadedImage(name: string, dataUrl: string, mimeType: string)

  /** What reading a file with `readAsDataURL` gave: the data URL, or an
      error event. */
  datatype ReadOutcome = Loaded(dataUrl: string) | ReadError

  /** One file of a selection: its `name`, its `type`, and the outcome its
      read will have. */
  datatype SelectedFile = SelectedFile(name: string, fileType: string, read: ReadOutcome)

  /** `fileToDataUrl(file)`: resolves with the record when the read succeeds,
      rejects when it fails (`onerror` fires before `onloadend`, so the
      rejection wins). */
  function FileToDataUrl(file: SelectedFile): (r: Option<UploadedImage>)
    ensures r.Some? <==> file.read.Loaded?
    ensures r.Some? ==> r.value.name == file.name && r.value.mimeType == file.fileType
                        && r.value.dataUrl == file.read.dataUrl
  {
    match file.read
    case Loaded(url) => Some(UploadedImage(file.name, url, file.fileType))
    case ReadError => None
  }

  /** `Promise.all(files.map(fileToDataUrl))`: every record, in selection order,
      or nothing at all when any one read fails. */
  function ReadAll(files: seq<SelectedFile>): (r: Option<seq<UploadedImage>>)
    ensures r.Some? <==> forall k :: 0 <= k < |files| ==> files[k].read.Loaded?
    ensures r.Some? ==> |r.value| == |files|
    ensures r.Some? ==> forall k :: 0 <= k < |files| ==> FileToDataUrl(files[k]) == Some(r.value[k])
    decreases |files|
  {
    if files == [] then Some([])
    else
      match (FileToDataUrl(files[0]), ReadAll(files[1..]))
      case (Some(first), Some(rest)) => Some([first] + rest)
      case _ => None
  }

  /** The `change` handler's update: with no file list nothing happens; with
      one, the batch is appended to `prev` when every read succeeds and the
      list is left as it was otherwise (the rejection is only logged). */
  function AddSelectedFiles(prev: seq<UploadedImage>, selection: Option<seq<SelectedFile>>): (next: seq<UploadedImage>)
  {
    match selection
    case None => prev
    case Some(files) =>
      match ReadAll(files)
      case Some(newImages) => prev + newImages
      case None => prev
  }

  /** A successful batch keeps the old list as an unchanged prefix and then
      holds one record per file, in selection order; a batch with a failed
      read adds nothing. */
  lemma AddSelectedFilesSpec(prev: seq<UploadedImage>, files: seq<SelectedFile>)
    ensures var next := AddSelectedFiles(prev, Some(files));
      if forall k :: 0 <= k < |files| ==> files[k].read.Loaded? then
        && |next| == |prev| + |files|
        && next[..|prev|] == prev
        && forall k :: 0 <= k < |files| ==>
             next[|prev| + k] == UploadedImage(files[k].name, files[k].read.dataUrl, files[k].fileType)
      else next == prev
  {
  }

  /** `prev.filter((_, i) => i !== index)`, written as a walk over the list
      in which `index` counts down to the position being visited. */
  function RemoveImage(prev: seq<UploadedImage>, index: int): (next: seq<UploadedImage>)
    decreases |prev|
  {
    if prev == [] then []
    else (if index == 0 then [] else [prev[0]]) + RemoveImage(prev[1..], index - 1)
  }

  /** Removal at a valid position drops exactly that element and keeps the
      others in order; an index outside the list leaves it unchanged. */
  lemma {:induction false} RemoveImageSpec(prev: seq<UploadedImage>, index: int)
    ensures 0 <= index < |prev| ==> RemoveImage(prev, index) == prev[..index] + prev[index + 1..]
    ensures !(0 <= index < |prev|) ==> RemoveImage(prev, index) == prev
    ensures 0 <= index < |prev| ==> |RemoveImage(prev, index)| == |prev| - 1
    decreases |prev|
  {
    if prev != [] {
      RemoveImageSpec(prev[1..], index - 1);
      if index == 0 {
        assert prev[..0] + prev[1..] == prev[1..];
      } else if 0 < index < |prev| {
        assert prev[..index] == [prev[0]] + prev[1..][..index - 1];
        assert prev[index + 1..] == prev[1..][index..];
      } else {
        assert prev == [prev[0]] + prev[1..];
      }
    }
  }
}
