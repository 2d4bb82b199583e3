/**
 * An entry of the single-picture view: its picture, the handle of the
 * thread loading it, its cached display name and the metadata list shown
 * beside it.
 */
module GalleryImage {
  import opened Wrappers
  import opened Paths
  import opened Image
  import Metadata

  /** The configured tags present in the metadata, in configured order, each with its value. */
  function DisplayList(tags: seq<string>, md: Metadata.Tags): (r: seq<(string, string)>)
    ensures |r| <= |tags|
    ensures forall i :: 0 <= i < |r| ==> r[i].0 in tags && r[i].0 in md && r[i].1 == md[r[i].0]
    ensures forall t :: t in tags && t in md ==> (t, md[t]) in r
    decreases |tags|
  {
    if tags == [] then []
    else
      var rest := DisplayList(tags[1..], md);
      assert forall t :: t in tags ==> t == tags[0] || t in tags[1..];
      if tags[0] in md then [(tags[0], md[tags[0]])] + rest else rest
  }

  /** The list keeps the configured order: splitting the tags splits the list. */
  lemma {:induction false} DisplayListOrder(a: seq<string>, b: seq<string>, md: Metadata.Tags)
    ensures DisplayList(a + b, md) == DisplayList(a, md) + DisplayList(b, md)
    decreases |a|
  {
    if a != [] {
      assert (a + b)[1..] == a[1..] + b;
      DisplayListOrder(a[1..], b, md);
    } else {
      assert a + b == b;
    }
  }

  /** The state of an entry: picture, thread handle, cached name and metadata list. */
  datatype Slot = Slot(image: Option<Loaded>, handle: Option<Job>, displayName: Option<string>,
                       displayMetadata: Option<seq<(string, string)>>)

  class GalleryImage {
    const path: Path
    const name: string
    const outputProfile: string
    var displayName: Option<string>
    var image: Option<Loaded>
    var handle: Option<Job>
    var displayMetadata: Option<seq<(string, string)>>

    /** An entry of `from_paths`: named after the path's file name, nothing loaded. */
    constructor (path: Path, outputProfile: string)
      ensures this.path == path && this.outputProfile == outputProfile
      ensures name == FileName(path).UnwrapOr([])
      ensures image.None? && handle.None? && displayName.None? && displayMetadata.None?
    {
      this.path := path;
      this.name := FileName(path).UnwrapOr([]);
      this.outputProfile := outputProfile;
      displayName := None;
      image := None;
      handle := None;
      displayMetadata := None;
    }

    /**
     * `load`: starts a load thread, which will return `spawned`, only when
     * neither a picture nor a thread is there.
     */
    method Load(spawned: Option<Loaded>)
      modifies this
      ensures old(handle.None? && image.None?) ==> handle == Some(Job(false, spawned)) && image == old(image)
      ensures !old(handle.None? && image.None?) ==> handle == old(handle) && image == old(image)
      ensures displayName == old(displayName) && displayMetadata == old(displayMetadata)
    {
      if handle.None? && image.None? {
        handle := Some(Job(false, spawned));
      }
    }

    /** `unload`: drops the picture and the thread handle, even while the thread runs. */
    method Unload()
      modifies this
      ensures image.None? && handle.None?
      ensures displayName == old(displayName) && displayMetadata == old(displayMetadata)
    {
      image := None;
      handle := None;
    }

    /** The load thread finishes; the environment's step, not the program's. */
    method ThreadFinishes()
      requires handle.Some?
      modifies this
      ensures handle == Some(old(handle.value).(finished := true))
      ensures image == old(image) && displayName == old(displayName) && displayMetadata == old(displayMetadata)
    {
      handle := Some(handle.value.(finished := true));
    }

    /**
     * `finish_img_loading`: a finished thread is joined and its result,
     * possibly None, replaces the picture; an unfinished one is kept.
     */
    method FinishImgLoading()
      modifies this
      ensures old(handle).None? ==> handle.None? && image == old(image)
      ensures old(handle).Some? && old(handle.value.finished) ==> handle.None? && image == old(handle.value.result)
      ensures old(handle).Some? && !old(handle.value.finished) ==> handle == old(handle) && image == old(image)
      ensures displayName == old(displayName) && displayMetadata == old(displayMetadata)
    {
      if handle.None? {
        return;
      }
      var job := handle.value;
      handle := None;
      if job.finished {
        image := job.result;
      } else {
        handle := Some(job);
      }
    }

    /** The entry's mutable state as a value. */
    function State(): Slot
      reads this
    {
      Slot(image, handle, displayName, displayMetadata)
    }

    /** `is_loading`: a thread handle is held, whether or not it has finished. */
    function IsLoading(): (r: bool)
      reads this
      ensures r <==> handle.Some?
    {
      handle.Some?
    }

    /**
     * `set_display_name`: the file name for an empty format, the format
     * filled from the picture's metadata when there is a picture (both
     * cached), and "" without caching otherwise.
     */
    method SetDisplayName(format: string) returns (s: string)
      modifies this
      ensures format == [] ==> s == name && displayName == Some(name)
      ensures format != [] && image.Some? ==> s == Metadata.Format(format, image.value.metadata) && displayName == Some(s)
      ensures format != [] && image.None? ==> s == [] && displayName == old(displayName)
      ensures image == old(image) && handle == old(handle) && displayMetadata == old(displayMetadata)
    {
      if format == [] {
        displayName := Some(name);
        return name;
      }
      if image.Some? {
        s := Metadata.FormatStringWithMetadata(format, image.value.metadata);
        displayName := Some(s);
      } else {
        s := [];
      }
    }

    /** `get_display_name`: the cached name, or else a fresh one. */
    method GetDisplayName(format: string) returns (s: string)
      modifies this
      ensures old(displayName).Some? ==> s == old(displayName.value) && displayName == old(displayName)
      ensures old(displayName).None? && format == [] ==> s == name && displayName == Some(name)
      ensures old(displayName).None? && format != [] && image.Some? ==>
        s == Metadata.Format(format, image.value.metadata) && displayName == Some(s)
      ensures old(displayName).None? && format != [] && image.None? ==> s == [] && displayName.None?
      ensures image == old(image) && handle == old(handle) && displayMetadata == old(displayMetadata)
    {
      match displayName {
        case Some(dn) =>
          s := dn;
        case None =>
          s := SetDisplayName(format);
      }
    }

    /** The tag list part of `metadata_ui`: built from the picture's metadata once. */
    method BuildDisplayMetadata(tags: seq<string>)
      modifies this
      ensures image.Some? && old(displayMetadata).None? ==> displayMetadata == Some(DisplayList(tags, image.value.metadata))
      ensures image.None? || old(displayMetadata).Some? ==> displayMetadata == old(displayMetadata)
      ensures image == old(image) && handle == old(handle) && displayName == old(displayName)
    {
      if image.Some? && displayMetadata.None? {
        var md := image.value.metadata;
        var list: seq<(string, string)> := [];
        var i := 0;
        while i < |tags|
          invariant 0 <= i <= |tags|
          invariant list == DisplayList(tags[..i], md)
          modifies {}
        {
          DisplayListOrder(tags[..i], [tags[i]], md);
          assert tags[..i + 1] == tags[..i] + [tags[i]];
          if tags[i] in md {
            list := list + [(tags[i], md[tags[i]])];
          }
          i := i + 1;
        }
        assert tags[..i] == tags;
        displayMetadata := Some(list);
      }
    }
  }

  /** `from_paths`: one fresh entry per path, in order. */
  method FromPaths(paths: seq<Path>, outputProfile: string) returns (r: seq<GalleryImage>)
    ensures |r| == |paths|
    ensures forall i :: 0 <= i < |r| ==>
      fresh(r[i]) && r[i].path == paths[i] && r[i].outputProfile == outputProfile
      && r[i].name == FileName(paths[i]).UnwrapOr([])
      && r[i].image.None? && r[i].handle.None? && r[i].displayName.None? && r[i].displayMetadata.None?
    ensures forall i, j :: 0 <= i < j < |r| ==> r[i] != r[j]
  {
    r := [];
    var i := 0;
    while i < |paths|
      invariant 0 <= i <= |paths| && |r| == i
      invariant forall k :: 0 <= k < i ==>
        fresh(r[k]) && r[k].path == paths[k] && r[k].outputProfile == outputProfile
        && r[k].name == FileName(paths[k]).UnwrapOr([])
        && r[k].image.None? && r[k].handle.None? && r[k].displayName.None? && r[k].displayMetadata.None?
      invariant forall k, l :: 0 <= k < l < i ==> r[k] != r[l]
    {
      var e := new GalleryImage(paths[i], outputProfile);
      r := r + [e];
      i := i + 1;
    }
  }
}
