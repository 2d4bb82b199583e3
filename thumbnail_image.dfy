/**
 * An entry of the grid view. Unloading an entry whose thread still runs is
 * deferred: the entry is marked, and the mark is acted on once the thread
 * has finished, so that a late result never resurrects an unloaded picture.
 */
module ThumbnailImage {
  import opened Wrappers
  import opened Paths
  import opened Image

  /** The state of an entry: the mark, the picture and the thread handle. */
  datatype Thumb = Thumb(shouldUnload: bool, image: Option<Loaded>, handle: Option<Job>)

  class ThumbnailImage {
    const path: Path
    const name: string
    const outputProfile: string
    var shouldUnload: bool
    var image: Option<Loaded>
    var handle: Option<Job>

    /** An entry of `from_paths`: nothing loaded, not marked. */
    constructor (path: Path, outputProfile: string)
      ensures this.path == path && this.outputProfile == outputProfile
      ensures name == FileName(path).UnwrapOr([])
      ensures !shouldUnload && image.None? && handle.None?
    {
      this.path := path;
      this.name := FileName(path).UnwrapOr([]);
      this.outputProfile := outputProfile;
      shouldUnload := false;
      image := None;
      handle := None;
    }

    /**
     * `load`: with neither a picture nor a thread, starts a thread (which
     * will return `spawned`), clears the mark and answers true; otherwise
     * changes nothing and answers false.
     */
    method Load(spawned: Option<Loaded>) returns (started: bool)
      modifies this
      ensures started <==> old(handle.None? && image.None?)
      ensures started ==> handle == Some(Job(false, spawned)) && !shouldUnload && image == old(image)
      ensures !started ==> handle == old(handle) && shouldUnload == old(shouldUnload) && image == old(image)
    {
      if handle.None? && image.None? {
        shouldUnload := false;
        handle := Some(Job(false, spawned));
        return true;
      }
      return false;
    }

    /** The load thread finishes; the environment's step, not the program's. */
    method ThreadFinishes()
      requires handle.Some?
      modifies this
      ensures handle == Some(old(handle.value).(finished := true))
      ensures image == old(image) && shouldUnload == old(shouldUnload)
    {
      handle := Some(handle.value.(finished := true));
    }

    /** `unload_delayed`: a marked entry whose thread has finished drops everything. */
    method UnloadDelayed()
      modifies this
      ensures old(shouldUnload && handle.Some? && handle.value.finished) ==>
        handle.None? && image.None? && !shouldUnload
      ensures !old(shouldUnload && handle.Some? && handle.value.finished) ==>
        handle == old(handle) && image == old(image) && shouldUnload == old(shouldUnload)
    {
      if shouldUnload {
        if handle.Some? {
          if handle.value.finished {
            handle := None;
            image := None;
            shouldUnload := false;
          }
        }
      }
    }

    /** `unload`: marks an entry with a thread; drops the picture of one without. */
    method Unload()
      modifies this
      ensures old(handle).Some? ==> shouldUnload && handle == old(handle) && image == old(image)
      ensures old(handle).None? ==> image.None? && handle.None? && shouldUnload == old(shouldUnload)
    {
      if handle.Some? {
        shouldUnload := true;
      } else {
        image := None;
        handle := None;
      }
    }

    /** `finish_img_loading`: a finished thread is joined and its result replaces the picture. */
    method FinishImgLoading()
      modifies this
      ensures old(handle).None? ==> handle.None? && image == old(image)
      ensures old(handle).Some? && old(handle.value.finished) ==> handle.None? && image == old(handle.value.result)
      ensures old(handle).Some? && !old(handle.value.finished) ==> handle == old(handle) && image == old(image)
      ensures shouldUnload == old(shouldUnload)
    {
      if handle.None? {
        return;
      }
      var job := handle.value;
      handle := None;
      if job.finished {
        image := job.result;
      } else {
        handle := Some(job);
      }
    }

    /** The entry's mutable state as a value. */
    function State(): Thumb
      reads this
    {
      Thumb(shouldUnload, image, handle)
    }

    /** `is_loading`: a thread handle is held and the thread has not finished. */
    function IsLoading(): (r: bool)
      reads this
      ensures r <==> handle.Some? && !handle.value.finished
    {
      match handle
      case Some(job) => !job.finished
      case None => false
    }
  }

  /** `from_paths`: one fresh entry per path, in order. */
  method FromPaths(paths: seq<Path>, outputProfile: string) returns (r: seq<ThumbnailImage>)
    ensures |r| == |paths|
    ensures forall i :: 0 <= i < |r| ==>
      fresh(r[i]) && r[i].path == paths[i] && r[i].outputProfile == outputProfile
      && r[i].name == FileName(paths[i]).UnwrapOr([])
      && !r[i].shouldUnload && r[i].image.None? && r[i].handle.None?
    ensures forall i, j :: 0 <= i < j < |r| ==> r[i] != r[j]
  {
    r := [];
    var i := 0;
    while i < |paths|
      invariant 0 <= i <= |paths| && |r| == i
      invariant forall k :: 0 <= k < i ==>
        fresh(r[k]) && r[k].path == paths[k] && r[k].outputProfile == outputProfile
        && r[k].name == FileName(paths[k]).UnwrapOr([])
        && !r[k].shouldUnload && r[k].image.None? && r[k].handle.None?
      invariant forall k, l :: 0 <= k < l < i ==> r[k] != r[l]
    {
      var e := new ThumbnailImage(paths[i], outputProfile);
      r := r + [e];
      i := i + 1;
    }
  }

  /**
   * The deferred unload of an entry that scrolled out of range: unloaded
   * while its thread runs, it keeps the handle; once the thread has finished
   * the next visit drops handle, picture and mark together, leaving the
   * entry empty and unmarked.
   */
  method DeferredUnload(t: ThumbnailImage, spawned: Option<Loaded>)
    requires t.handle.None? && t.image.None?
    modifies t
    ensures t.image.None? && t.handle.None? && !t.shouldUnload
  {
    var started := t.Load(spawned);
    t.Unload();
    t.ThreadFinishes();
    t.UnloadDelayed();
  }
}
