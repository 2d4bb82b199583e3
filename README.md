# avis-imgv core, modelled in Dafny

avis-imgv is an image viewer. This project models the logic at its core and
proves properties of that model:

- **Single-picture view.** A list of entries and a focused index. With
  preloading active, the entries within `nr_loaded_images` steps of the focus
  (counting around the end of the list) are loaded and every other entry is
  unloaded. Moving the focus unloads one entry and loads another.
- **Grid view.** Each frame visits the rows in three passes (visible, then
  down, then up). It loads thumbnails inside the widened row range under a
  cap on simultaneous loads, and unloads the rest through a deferred-unload
  protocol.
- **Per-entry state machines.** A gallery entry and a thumbnail each hold a
  picture and the handle of the thread that loads it. A thread is an opaque
  job with a `finished` flag and the picture it returns.
- **Metadata text.** The exiftool record parser, the Orientation names, the
  `$(…#Tag#…)` display-name formatter, grouping of RAW and JPEG files by stem,
  and the batching plan and time estimate of metadata caching.
- **Image pipeline decisions.** Decoder choice, resize dimensions, turning a
  picture upright as section 8 of TIFF 6.0 describes, when colour management
  runs and with which ICC profiles, the RGB to RGBA expansion, and the order
  and fallbacks of the load stages.
- **Helpers.**
  - The SQL text of the database queries.
  - Serialisation of the `Callback` value.
  - User-action command lines and the context menu.
  - The directory tree's expand/collapse list.
  - Keyboard shortcuts in the configuration.

Each source file is one module:

| module | file |
|---|---|
| `SingleGallery` | `single_gallery.dfy` |
| `MultiGallery` | `multi_gallery.dfy` |
| `GalleryImage` | `gallery_image.dfy` |
| `ThumbnailImage` | `thumbnail_image.dfy` |
| `Metadata` | `metadata.dfy` |
| `Image` | `image.dfy` |
| `Icc` | `icc.dfy` |
| `Db` | `db.dfy` |
| `Callbacks` | `callback.dfy` |
| `UserAction` | `user_action.dfy` |
| `Tree` | `tree.dfy` |
| `Config` | `config.dfy` |

Shared modules:

- `Wrappers`: `Option`.
- `Text`: strings, `replace`, `split`, `trim`, `parse::<usize>`.
- `Paths`: component paths with Rust's `parent`, `file_name`, `file_stem`
  and `extension`.
- `Seqs`: sequence utilities.
- `Sorting`: insertion sort by a key.
- `Arith`: arithmetic lemmas.

How the model is shaped:

- **Classes for mutable state.** Code that mutates state in place is a class
  whose methods have `modifies` clauses: the two views, both kinds of entry,
  and the tree. Each method is proved against a specification function on
  the entries' states.
- **Functions for pure code.** The metadata parser, the RAW grouping, the
  orientation table and the SQL builders are functions, with lemmas about
  them.
- **Oracles as parameters.** Everything outside the process is a parameter:
  the threads' results, exiftool, SQLite, the decoders, the resampler, lcms2,
  the GPU, directory reads, and the UI's clicks and key presses.

## Model

| member | source | states |
|---|---|---|
| `SingleGallery.SubtractedBy` | src/single_gallery.rs:609-615 | k steps back from a focus inside the list stays inside the list |
| `SingleGallery.SumBy` | src/single_gallery.rs:617-624 | k steps on from a focus inside the list stays inside the list |
| `SingleGallery.StepsAreModular` | src/single_gallery.rs:609-624 | both index helpers are `(cur - k) mod n` and `(cur + k) mod n` |
| `SingleGallery.SumUndoesSubtract` | src/single_gallery.rs:609-624 | stepping back then on (or on then back) by k returns to the start |
| `SingleGallery.ToLoadWindow` | src/single_gallery.rs:97-110 | an index is in `indexes_to_load` exactly when it lies within d steps of the focus, either way round |
| `SingleGallery.IndexesToLoad` | src/single_gallery.rs:97-110 | the loop building `indexes_to_load` yields the focus, then j back and j on for each j in 1..=d |
| `SingleGallery.LoadUnloadOne` | src/gallery_image.rs:322-341 | load leaves an entry present, unload leaves it absent, loading twice is loading once, and unload then load starts a new thread |
| `SingleGallery.LoadPlanWindow` | src/single_gallery.rs:83-119 | after `load`, an entry is present exactly when preloading is off or it lies in the window of the focus |
| `SingleGallery.UnloadThenLoadPresent` | src/single_gallery.rs:140-155 | the preload step makes the loaded entry present and the unloaded one absent, and changes no other entry |
| `SingleGallery.NextEntries` | src/single_gallery.rs:140-155 | the states after a step forward as written: without preloading unchanged; with it, only the entries d back and d on from the old focus change |
| `SingleGallery.NextImageAsWrittenWindow` | src/single_gallery.rs:131-164 | as written, from a loaded window a step forward leaves loaded exactly the old window minus the entry d back |
| `SingleGallery.PreviousEntries` | src/single_gallery.rs:171-186 | the states after a step back as written: without preloading unchanged; with it, only the entries d on and d back from the old focus change |
| `SingleGallery.PreviousImageAsWrittenWindow` | src/single_gallery.rs:166-195 | as written, from a loaded window a step back leaves loaded exactly the old window minus the entry d on |
| `SingleGallery.NextImageLeavesGap` | src/single_gallery.rs:140-155 | as written, a step forward from a loaded window leaves the entry d on from the new focus unloaded |
| `SingleGallery.EnteringNext` | src/single_gallery.rs:146-154 | the corrected entry to load on a step forward lies inside the list |
| `SingleGallery.NextImageCorrectedKeepsWindow` | src/single_gallery.rs:131-164 | with the corrected step, a loaded window of the old focus becomes exactly the window of the new focus |
| `SingleGallery.PreviousImageLeavesGap` | src/single_gallery.rs:171-186 | as written, a step back from a loaded window leaves the entry d back from the new focus unloaded |
| `SingleGallery.EnteringPrevious` | src/single_gallery.rs:177-185 | the corrected entry to load on a step back lies inside the list |
| `SingleGallery.PreviousImageCorrectedKeepsWindow` | src/single_gallery.rs:166-195 | with the corrected step, a loaded window of the old focus becomes exactly the window of the new focus |
| `SingleGallery.PopEmptiesUnderflow` | src/single_gallery.rs:349-351 | as written, popping the only entry moves the focus to `usize::MAX` |
| `SingleGallery.PopSelectionAsWritten` | src/single_gallery.rs:349-351 | the focus after `pop` as written: inside a non-empty list, and equal to the intended focus except `usize::MAX` on an emptied list |
| `SingleGallery.PopSelection` | src/single_gallery.rs:349-351 | a focus on the removed last entry moves back one and stays inside a non-empty list; on an empty list it stays 0 |
| `SingleGallery.SingleGallery.constructor` | src/single_gallery.rs:31-61 | `new`: the entries of the paths, focus on the selected path when found (else 0), then `load` |
| `SingleGallery.SingleGallery.Load` | src/single_gallery.rs:83-119 | the entries' new states are the load plan of the focus: all loaded without preloading, window loaded and the rest unloaded with it |
| `SingleGallery.SingleGallery.SetImages` | src/single_gallery.rs:63-81 | fresh entries, focus on the selected path when found (else 0), preload flag `2·d <= n`, then `load` |
| `SingleGallery.SingleGallery.Reset` | src/single_gallery.rs:63-78 | the part of `set_images` before `load`: one fresh empty entry per path, focus and preload flag set |
| `SingleGallery.SingleGallery.SelectByName` | src/single_gallery.rs:121-129 | focus on the first entry with that name (else 0), then `load` |
| `SingleGallery.SingleGallery.NextImage` | src/single_gallery.rs:131-164 | no change on an empty list or while waiting on a loading focus; otherwise the preload step as written (unload d back, load d on, from the old focus) and focus `(f + 1) mod n` |
| `SingleGallery.SingleGallery.Advance` | src/single_gallery.rs:140-161 | the preload step as written (when active) and the focus one on, around the end |
| `SingleGallery.SingleGallery.PreviousImage` | src/single_gallery.rs:166-195 | no change on an empty list; otherwise the preload step as written (unload d on, load d back, from the old focus) and focus `(f - 1) mod n` |
| `SingleGallery.SingleGallery.Retreat` | src/single_gallery.rs:171-192 | the preload step as written (when active) and the focus one back, around the start |
| `SingleGallery.SingleGallery.Step` | src/single_gallery.rs:153-154 | unload of one entry then load of another, on distinct entry objects |
| `SingleGallery.SingleGallery.JumpToImage` | src/single_gallery.rs:317-331 | focus `i - 1` exactly when the text parses as i with `1 <= i <= n`, else unchanged; `load`; the text is cleared |
| `SingleGallery.SingleGallery.ReloadAt` | src/single_gallery.rs:333-340 | the first entry with the path is unloaded and loaded again; no entry changes when the path is absent |
| `SingleGallery.SingleGallery.Pop` | src/single_gallery.rs:342-355 | the first entry with the path is removed, the preload flag recomputed, the focus moved as written (`usize::MAX` once the list is empty), then `load`; nothing changes when absent |
| `SingleGallery.SingleGallery.PopAt` | src/single_gallery.rs:344-353 | `pop` once the entry is found: removal, flag, focus, `load` |
| `SingleGallery.SingleGallery.RemoveEntry` | src/single_gallery.rs:344-351 | the entry removed from the list, distinct entries kept, preload flag recomputed, focus moved by `PopSelectionAsWritten` |
| `Text.ParseUsizeDecimal` | src/single_gallery.rs:318-326 | the decimal text of any `usize`, with or without '+', parses back to it |
| `Text.ParseUsize` | src/single_gallery.rs:318-326 | an accepted text starts with '+' or a digit and gives a `usize` |
| `Text.ParseUsizeBounds` | src/single_gallery.rs:318-326 | every parsed value fits in a `usize`, and text with a non-digit is refused |
| `GalleryImage.DisplayList` | src/gallery_image.rs:290-300 | the configured tags present in the metadata, each with its value, and every such tag listed |
| `GalleryImage.DisplayListOrder` | src/gallery_image.rs:292-298 | the list follows the configured order: splitting the tags splits the list |
| `GalleryImage.GalleryImage.constructor` | src/gallery_image.rs:46-62 | an entry with the path, its file name, and no picture, handle, name or list |
| `GalleryImage.GalleryImage.Load` | src/gallery_image.rs:331-341 | a thread starts only when there is neither picture nor handle; otherwise nothing changes |
| `GalleryImage.GalleryImage.Unload` | src/gallery_image.rs:322-329 | picture and handle are cleared at once, even while the thread runs |
| `GalleryImage.GalleryImage.ThreadFinishes` | src/gallery_image.rs:275-276 | the environment step that the polling observes: the job is marked finished and nothing else changes |
| `GalleryImage.GalleryImage.FinishImgLoading` | src/gallery_image.rs:268-288 | no handle: no change; finished: the handle is dropped and the picture becomes the result; running: no change |
| `GalleryImage.GalleryImage.IsLoading` | src/gallery_image.rs:384-387 | true exactly when a handle is held, finished or not |
| `GalleryImage.GalleryImage.SetDisplayName` | src/gallery_image.rs:358-375 | empty format: the file name, cached; with a picture: the formatted text, cached; without: "" and nothing cached |
| `GalleryImage.GalleryImage.GetDisplayName` | src/gallery_image.rs:377-382 | the cached name when set, otherwise `set_display_name` |
| `GalleryImage.GalleryImage.BuildDisplayMetadata` | src/gallery_image.rs:290-300 | the tag list is built once, from the picture's metadata, and kept afterwards |
| `GalleryImage.FromPaths` | src/gallery_image.rs:39-65 | one fresh, distinct, empty entry per path, in order |
| `ThumbnailImage.ThumbnailImage.constructor` | src/thumbnail_image.rs:20-31 | an entry with the path, its file name, no mark, picture or handle |
| `ThumbnailImage.ThumbnailImage.Load` | src/thumbnail_image.rs:131-144 | answers true exactly when there is neither handle nor picture, and then starts a thread and clears the mark; otherwise nothing changes |
| `ThumbnailImage.ThumbnailImage.ThreadFinishes` | src/thumbnail_image.rs:121-122 | the environment step that the polling observes: the job is marked finished and nothing else changes |
| `ThumbnailImage.ThumbnailImage.UnloadDelayed` | src/thumbnail_image.rs:147-157 | handle, picture and mark are cleared together only when marked and the thread has finished; otherwise nothing changes |
| `ThumbnailImage.ThumbnailImage.Unload` | src/thumbnail_image.rs:161-172 | with a handle, only the mark is set; without one, the picture is cleared |
| `ThumbnailImage.ThumbnailImage.FinishImgLoading` | src/thumbnail_image.rs:115-129 | only a finished thread is joined and its result becomes the picture; a running one is kept |
| `ThumbnailImage.ThumbnailImage.IsLoading` | src/thumbnail_image.rs:174-179 | true exactly when a handle is held and its thread has not finished |
| `ThumbnailImage.FromPaths` | src/thumbnail_image.rs:17-33 | one fresh, distinct, unmarked empty entry per path, in order |
| `ThumbnailImage.DeferredUnload` | src/thumbnail_image.rs:131-171 | load, unload while running, finish, then the delayed unload leaves the entry empty and unmarked |
| `MultiGallery.PreloadFrom` | src/multi_gallery.rs:109-113 | `start - preloaded_rows`, saturating at 0 |
| `MultiGallery.PreloadTo` | src/multi_gallery.rs:115-120 | `min(end + preloaded_rows, total_rows)` |
| `MultiGallery.VisibleIsPreloaded` | src/multi_gallery.rs:122-146 | every visible index is in range for the visible pass and for the widened range of the other two |
| `MultiGallery.UnloadedDefers` | src/multi_gallery.rs:217-220 | out of range an entry either ends empty or keeps its running thread marked; a running thread is never dropped, so the loading count is unchanged |
| `MultiGallery.VisitsSnoc` | src/multi_gallery.rs:122-159 | one more visit applies `load_unload_image` to the state after the earlier visits |
| `MultiGallery.VisitsConcat` | src/multi_gallery.rs:122-159 | visiting two lists of indices in turn is visiting their concatenation |
| `MultiGallery.LoadingCountUpdate` | src/multi_gallery.rs:66 | replacing one entry changes the number of loading entries by the difference of the two |
| `MultiGallery.ApplyCount` | src/multi_gallery.rs:204-220 | one visit changes the counter exactly as it changes the number of loading entries |
| `MultiGallery.CounterTracksLoading` | src/multi_gallery.rs:196-221 | across any visits, the counter stays equal to its start plus the rise in the number of loading entries |
| `MultiGallery.CounterCapped` | src/multi_gallery.rs:210-215 | the counter never falls, and a counter that starts at or below the cap never exceeds it |
| `MultiGallery.VisitsEntry` | src/multi_gallery.rs:204-220 | in a list that visits each index once, an unvisited entry is unchanged and a visited one gets the effect of its range test |
| `MultiGallery.IndexVisitsStep` | src/multi_gallery.rs:124-134 | the index loop of a pass visits its indices in ascending order |
| `MultiGallery.VisitsOneMore` | src/multi_gallery.rs:124-134 | one more index of a pass applies `load_unload_image` to the state after the earlier ones |
| `MultiGallery.FrameVisitsParts` | src/multi_gallery.rs:122-159 | the frame's visits are the visible rows, then the rows below, then the rows above |
| `MultiGallery.FrameVisitsOnce` | src/multi_gallery.rs:122-159 | a frame visits every index of every row exactly once, with the range test of its pass |
| `MultiGallery.FrameInThreeParts` | src/multi_gallery.rs:122-159 | the frame's result is the three passes run one after the other, with the counter threaded through |
| `MultiGallery.FrameEffect` | src/multi_gallery.rs:122-159 | after a frame the counter equals the number of loading entries and stays within the cap; every entry gets its range test's effect, and an idle entry in range starts loading unless the cap is reached |
| `MultiGallery.NextPerRow` | src/multi_gallery.rs:258-272 | `images_per_row` stays at least 1, never passes 16 from at most 16, and moves by at most one |
| `MultiGallery.MultiGallery.constructor` | src/multi_gallery.rs:27-51 | fresh empty thumbnails of the paths, the configured per-row count, and the row count set |
| `MultiGallery.MultiGallery.SetTotalRows` | src/multi_gallery.rs:280-283 | `total_rows` is the ceiling of `len / images_per_row` |
| `MultiGallery.MultiGallery.SetImages` | src/multi_gallery.rs:53-57 | fresh empty thumbnails of the paths, scroll reset, rows recomputed |
| `MultiGallery.MultiGallery.HandleInput` | src/multi_gallery.rs:253-273 | muted input changes nothing; otherwise one step up from at most 15 and one step down from other than 1, rows recomputed |
| `MultiGallery.MultiGallery.Pop` | src/multi_gallery.rs:285-290 | the first thumbnail with the path is removed and rows recomputed; nothing changes when absent |
| `MultiGallery.MultiGallery.ReloadAt` | src/multi_gallery.rs:296-303 | the first thumbnail with the path gets `unload_delayed` then `unload`; no thumbnail changes when absent |
| `MultiGallery.MultiGallery.LoadUnloadImage` | src/multi_gallery.rs:196-221 | the visit of one index: no-op past the end; in range, a load under the cap that bumps the counter only when started; out of range, the deferred unload |
| `MultiGallery.MultiGallery.VisitRows` | src/multi_gallery.rs:124-134 | the nested row and index loops of one pass are the visits of that pass's indices in order |
| `MultiGallery.MultiGallery.VisitRow` | src/multi_gallery.rs:125-133 | the index loop of one row continues the visits of the pass |
| `MultiGallery.MultiGallery.CountLoading` | src/multi_gallery.rs:66 | the number of loading thumbnails |
| `MultiGallery.MultiGallery.Frame` | src/multi_gallery.rs:105-159 | the frame's loading pass: the counter from the loading entries, then the three passes |
| `Metadata.OrientationRoundTrip` | src/metadata.rs:33-45 | each of the eight names exiftool prints reads back as its own Orientation value |
| `Metadata.OrientationUnknownIsNormal` | src/metadata.rs:43 | any other text means Normal |
| `Metadata.TagPairSplit` | src/metadata.rs:214-223 | the key is the trimmed text before the first ':', the value the trimmed rest with its inner ':' kept |
| `Metadata.ToMap` | src/metadata.rs:210-226 | the map's keys are exactly the keys of the pairs |
| `Metadata.ToMapLastWins` | src/metadata.rs:226 | a later pair with the same key wins |
| `Metadata.ParseRecord` | src/metadata.rs:203-229 | a record is skipped exactly when its first line is empty |
| `Metadata.ParseRecordPath` | src/metadata.rs:203-229 | otherwise the record's path is its first line, trimmed |
| `Metadata.Records` | src/metadata.rs:176-188 | the parsed records are at most the pieces between "========" |
| `Metadata.ParseExiftoolOutput` | src/metadata.rs:169-200 | the records go to the insert in order; a single path overwrites the first record's path, and with no record that indexing fails |
| `Metadata.ExiftoolOutcome` | src/metadata.rs:169-200 | the indexing fails exactly with a single path and no record; otherwise one row per record, the first one's path replaced by the single path |
| `Metadata.TagRunEnd` | src/metadata.rs:301 | the run of tag characters `[\w \s]` ends at the first other character |
| `Metadata.LastTagStart` | src/metadata.rs:301 | the greedy `[^()]*` makes the pattern take the last '#' that opens a tag |
| `Metadata.TagOf` | src/metadata.rs:301-318 | a captured tag appears as `#tag#` in the group and holds only tag characters |
| `Metadata.FirstParen` | src/metadata.rs:301 | the first parenthesis at or after a position |
| `Metadata.MatchAt` | src/metadata.rs:301-318 | a match is `$(` inner `)` with no parenthesis inside, and its tag is the one in its inner text |
| `Metadata.FormatStringWithMetadata` | src/metadata.rs:298-332 | the loop over the captures computes the specified text, one whole-text replacement per capture |
| `Metadata.CapturesNoDollar` | src/metadata.rs:303 | text without '$' holds no match |
| `Metadata.TagOfSimple` | src/metadata.rs:301-318 | in `pre#tag#post` with no other '#' after the tag, the tag is captured |
| `Metadata.CapturesGroupHead` | src/metadata.rs:303 | a group at the front is captured whole and the search resumes after it |
| `Metadata.FillTag` | src/metadata.rs:320-321 | filling `#tag#` inside a group's text puts the value in its place |
| `Metadata.FormatWithoutGroups` | src/metadata.rs:298-332 | text without "$(" comes out as it went in |
| `Metadata.CapturesTemplate` | src/metadata.rs:303 | the scanner finds exactly the groups of a template, in order |
| `Metadata.ReplacementIsFilled` | src/metadata.rs:320-325 | the replacement of a group is its text with the value filled in, or nothing when the tag has no value |
| `Metadata.ReplaceTemplate` | src/metadata.rs:327 | one whole-text replacement turns every copy of that group into its replacement and touches nothing else |
| `Metadata.RenderTemplate` | src/metadata.rs:303-328 | replacing all the groups one after another yields the intended text |
| `Metadata.FormatTemplate` | src/metadata.rs:298-332 | on any template of text and groups, every group is filled or dropped when its tag has no value, and the text outside the groups is kept (when no value holds '$') |
| `Metadata.ExampleWellFormed` | src/metadata.rs:432-443 | the unit test's template and metadata meet the theorem's conditions |
| `Metadata.ExampleExpected` | src/metadata.rs:432-443 | the intended text of the unit test: the group without a value gives nothing |
| `Metadata.FormatExample` | src/metadata.rs:432-443 | the unit test: the template formats to "test.jpg • ƒ5.0 • 500 ISO" |
| `Metadata.FirstNonRaw` | src/metadata.rs:404-416 | the first path of a run that is not RAW, or none when all are |
| `Metadata.StemKey` | src/metadata.rs:386-389 | the stem of the file name, a prefix of it, or "" without a file name |
| `Metadata.IsRaw` | src/metadata.rs:404-411 | a path without an extension counts as RAW exactly when "" is a RAW extension |
| `Metadata.GroupRawJpgPaths` | src/metadata.rs:380-424 | never more paths out than in |
| `Metadata.PickFromRunSpec` | src/metadata.rs:400-421 | a run gives its first non-RAW path, else its first path |
| `Metadata.GroupSorted` | src/metadata.rs:380-394 | the output is in path order |
| `Metadata.GroupOnePerRun` | src/metadata.rs:380-424 | neighbouring outputs have different stems, each output comes from the input, and empty output only for empty input |
| `Metadata.GroupCovers` | src/metadata.rs:380-424 | every input's stem reaches the output, through a non-RAW file whenever the input file is non-RAW |
| `Metadata.GroupPrefersNonRaw` | src/metadata.rs:400-421 | a RAW file and a non-RAW file with one stem give the non-RAW one, in either order |
| `Metadata.GroupDuplicateCollapses` | src/metadata.rs:380-424 | a path given twice comes out once |
| `Metadata.GroupSingle` | src/metadata.rs:398-399 | a single path comes out as it is |
| `Metadata.TwoSameStem` | src/metadata.rs:380-424 | two paths with one stem give one path, the non-RAW one when exactly one is RAW |
| `Metadata.PickPair` | src/metadata.rs:400-421 | from a run of two, the first non-RAW path, else the first |
| `Metadata.Retain` | src/metadata.rs:74 | the paths not cached yet, in their order |
| `Metadata.SinglePath` | src/metadata.rs:79-83 | the single path is passed exactly when one path is left to cache |
| `Metadata.Eta` | src/metadata.rs:148-160 | an estimate only while chunks remain; minutes and seconds of the integer estimate, seconds below 60 |
| `Metadata.OutcomesConcat` | src/metadata.rs:134-136 | the outcomes of two runs of sub-chunks are the outcomes of each in turn |
| `Metadata.CacheStep` | src/metadata.rs:95-136 | one more chunk's sub-chunks and outcomes follow those of the chunks before it |
| `Metadata.CacheChunk` | src/metadata.rs:104-136 | one outcome per exiftool run of a chunk that produced output, in sub-chunk order |
| `Metadata.CacheMetadataForImages` | src/metadata.rs:51-167 | aborts when the cached lookup fails; otherwise the paths to cache, the single path, the batches, the outcomes and the estimates |
| `Metadata.BatchBounds` | src/metadata.rs:85-104 | chunks of at most 500 paths, each in at most four exiftool runs of at most 125, covering the paths once and in order |
| `Metadata.SubChunkedAt` | src/metadata.rs:104 | chunk i is cut into sub-chunks of 125 |
| `Metadata.FlattenSubChunked` | src/metadata.rs:104 | sub-chunking loses and reorders no path |
| `Metadata.CachedPathsSkipped` | src/metadata.rs:74 | nothing is left to cache exactly when every path is already cached |
| `Image.FlipH` | src/image.rs:309 | mirror left to right, same size |
| `Image.FlipV` | src/image.rs:311 | mirror top to bottom, same size |
| `Image.Rotate90` | src/image.rs:313 | a quarter turn clockwise, sides swapped |
| `Image.Rotate180` | src/image.rs:310 | a half turn, same size |
| `Image.Rotate270` | src/image.rs:315 | three quarter turns clockwise, sides swapped |
| `Image.ApplyOrientation` | src/image.rs:307-315 | the values that put row 0 at the top or bottom keep the sizes; the others swap width and height |
| `Image.Orient` | src/image.rs:303-318 | the picture kept without an Orientation tag, else the operations of its value |
| `Image.OrientationFollowsTiff` | src/image.rs:303-318 | every Orientation value puts the 0th row and column on the sides that section 8 of TIFF 6.0 names |
| `Image.KeptAxesFollowTiff` | src/image.rs:307-311 | the four values that keep the axes follow the TIFF table |
| `Image.SwappedAxesFollowTiff` | src/image.rs:312-315 | the four values that swap the axes follow the TIFF table |
| `Image.TransposeFollowsTiff` | src/image.rs:312 | fliph then rotate270 is the transpose, as TIFF value 5 asks |
| `Image.AntiTransposeFollowsTiff` | src/image.rs:314 | fliph then rotate90 is the anti-transpose, as TIFF value 7 asks |
| `Image.Rotate90FollowsTiff` | src/image.rs:313 | rotate90 follows TIFF value 6 |
| `Image.Rotate270FollowsTiff` | src/image.rs:315 | rotate270 follows TIFF value 8 |
| `Image.OrientKeeps` | src/image.rs:305-316 | no tag, or an unknown value, keeps the picture |
| `Image.ProportionalBound` | src/image.rs:248-255 | the side computed from the aspect ratio never exceeds the original |
| `Image.ProportionalSame` | src/image.rs:248-255 | an unchanged side keeps the other side |
| `Image.ResizeDimsAsWrittenShrinks` | src/image.rs:250-255 | as written, a 50×100 picture with target 200 becomes 25×50 |
| `Image.ResizeDimsAsWritten` | src/image.rs:242-256 | as written: both sides at most the original; a landscape picture gets width `min(w, target)`, a portrait one height `target` when taller than it, else its width |
| `Image.ResizeDimsAsWrittenDiffers` | src/image.rs:250-254 | the sizes as written and as intended differ exactly for a portrait picture no taller than the target |
| `Image.ResizeDims` | src/image.rs:242-256 | the longer side (height on a tie) capped at the target, both sides at most the original |
| `Image.ResizeDimsFits` | src/image.rs:242-256 | corrected, a picture within the target keeps its size |
| `Image.Resize` | src/image.rs:237-301 | the picture kept without a target, for a zero side, or when resampling fails; else the picture resampled to the sizes as written, no larger than the original |
| `Image.Decode` | src/image.rs:186-192 | the JPEG XL decoder exactly for the JXL extension, letter case included, the generic one otherwise |
| `Image.CcSkipsSameProfile` | src/image.rs:326-334 | a description that names the output profile leaves the pixels alone |
| `Image.CcPlanResolves` | src/image.rs:326-389 | a transform runs exactly when the description does not name the output, the input profile resolves (built in first, else from the file) and the output profile resolves |
| `Image.ApplyCc` | src/image.rs:320-392 | the pixel buffer converted in place by the planned transform, or untouched |
| `Image.RowBytes` | src/image.rs:152 | three bytes per pixel |
| `Image.Rgba` | src/image.rs:400-403 | `4·⌊len/3⌋` bytes: each whole triple followed by 255 |
| `Image.RgbaRoundTrip` | src/image.rs:400-403 | dropping the alpha bytes gives back the whole triples |
| `Image.ReadStage` | src/image.rs:54-90 | the RAW preview for a RAW extension, else the file's bytes exactly when they could be read |
| `Image.ReadBuffer` | src/image.rs:54-90 | the RAW preview for a RAW extension (lower-cased), else the file's bytes; only a failed open deletes the record |
| `Image.LoadResult` | src/image.rs:39-184 | only a failed open of a non-RAW file asks to forget it, and then the error picture is the result; a picture only with a GPU |
| `Image.Load` | src/image.rs:39-184 | the stages in order: read, decode, resize, metadata, orient, colour management, upload, each failure giving the error picture |
| `Image.LoadRawPreviewFails` | src/image.rs:64-67 | a RAW file without a preview gives the error picture |
| `Image.LoadOpenFails` | src/image.rs:69-80 | a file that cannot be opened gives the error picture and is forgotten by the database |
| `Image.LoadDeletesOnlyOnOpenFailure` | src/image.rs:69-80 | only a failed open of a non-RAW file deletes the record |
| `Image.LoadStages` | src/image.rs:99-182 | a successful load uploads the RGBA expansion of the decoded picture, resized (to the sizes as written) only with a size, upright unless exempt, colour-managed only with a profile description |
| `Icc.FirstMatch` | src/icc.rs:11-19 | the profile of the first table entry whose name occurs, or none exactly when no name occurs |
| `Icc.ProfileDescCaseInsensitive` | src/icc.rs:13 | the lookup ignores the description's letter case |
| `Icc.ProfileDescToIcc` | src/icc.rs:11-19 | a profile exactly when the lower-cased description contains "adobe rgb", "display p3" or "srgb" |
| `Icc.ProfileDescOrder` | src/icc.rs:5-19 | "adobe rgb" before "display p3" before "srgb", else none |
| `Icc.SrgbDescription` | src/icc.rs:8-13 | any casing of "sRGB IEC61966-2.1" gives the sRGB v4 profile |
| `Db.OperatorList` | src/db.rs:326-336 | seven distinct operators, Like first |
| `Db.OperatorListComplete` | src/db.rs:326-336 | every operator is listed |
| `Db.SymbolsMatchDisplay` | src/db.rs:264-350 | each comparison writes its displayed symbol, and Like displays as "In" |
| `Db.WhereClause` | src/db.rs:264-312 | Like gives `like '%v%'`; a number gives `+0 OP v`; anything else `OP 'v'`, OP being the displayed symbol |
| `Db.QuoteAll` | src/db.rs:260-262 | each string in double quotes, in order |
| `Db.JoinQuoted` | src/db.rs:260-262 | quoting the joined text equals joining the quoted strings |
| `Db.ArrParamFrom` | src/db.rs:260-262 | the strings double-quoted and joined by ", "; an empty list gives `""` |
| `Db.ConditionsAppend` | src/db.rs:141-155 | conditions follow the filters' order |
| `Db.ConditionsSkipEmpty` | src/db.rs:146-148 | a filter with an empty value adds no condition |
| `Db.FilteredPathsQuery` | src/db.rs:141-162 | the query is the select, the conditions joined by " AND ", then the order clause |
| `Db.OrderClause` | src/db.rs:156-162 | ORDER BY appears exactly when the order tag is non-empty, and names the tag |
| `Db.InsertRows` | src/db.rs:23-31 | one row per record, in order |
| `Db.InsertStatement` | src/db.rs:18-31 | the insert is its prefix followed by the rows joined by "," |
| `Db.InsertRow` | src/db.rs:23-31 | the row `('path', jsonb('json'))` with the path kept verbatim and the JSON with every single quote removed, unchanged when it has none |
| `Callbacks.FromCallback` | src/callback.rs:20-27 | the same kind, with the given path for Reload and Pop |
| `Callbacks.Serialize` | src/callback.rs:47-59 | one of the four names, "" exactly for NoAction |
| `Callbacks.SerializeThenDeserialize` | src/callback.rs:35-57 | reading back a written callback gives the same kind without a path |
| `Callbacks.DeserializeThenSerialize` | src/callback.rs:35-57 | writing back a read string gives it back for the four known strings, "" for the rest |
| `Callbacks.Deserialize` | src/callback.rs:35-45 | only "ReloadAll", "Reload" and "Pop" read as actions, without a path |
| `UserAction.Execute` | src/user_action.rs:12-74 | empty line: true, nothing started; no parent: false; else the expanded line split into program and arguments, and the spawner's answer |
| `UserAction.Expand` | src/user_action.rs:17-48 | no line without a parent; with a parent and a stem a line always results |
| `UserAction.ExpandPlaceholders` | src/user_action.rs:17-48 | "{}", then "{.}", then "{//}" replaced, each only when present; no parent or no stem for "{.}" gives up |
| `UserAction.Arguments` | src/user_action.rs:54-62 | every piece after the first, in order |
| `UserAction.CommandRoundTrip` | src/user_action.rs:51-62 | program and arguments joined by spaces give the expanded line back, and none holds a space |
| `UserAction.NoPlaceholders` | src/user_action.rs:23-48 | a line without '{' is passed on as it is |
| `UserAction.OnePathPlaceholder` | src/user_action.rs:23-29 | a single "{}" becomes exactly the path text |
| `UserAction.FirstClicked` | src/user_action.rs:81-98 | the first entry whose button reports a click, if any |
| `UserAction.ShowContextMenu` | src/user_action.rs:76-102 | none for no entries; the first clicked entry's callback exactly when its command succeeded |
| `Tree.ParentsUpwardArePrefixes` | src/tree.rs:59-74 | the ancestors found going up are the path's prefixes, longest first |
| `Tree.AllParentsArePrefixes` | src/tree.rs:59-74 | every proper ancestor, root first, the path itself excluded |
| `Tree.GetAllParents` | src/tree.rs:59-74 | the loop pushing parents and the reverse compute the ancestors, root first |
| `Tree.Kept` | src/tree.rs:137-192 | an entry is kept exactly when a readable, shown directory of the listing gives it |
| `Tree.GetEntriesFromPath` | src/tree.rs:137-192 | no children for an unreadable directory; else the shown directories at the given depth, sorted by lower-cased name, expanded exactly when equal to the parent |
| `Tree.RunEnd` | src/tree.rs:99-114 | the end of the run of deeper entries after an entry |
| `Tree.CanClose` | src/tree.rs:99-100 | the close loop stays in the list exactly when the entry is collapsed or a later entry is not deeper |
| `Tree.ClosedSelection` | src/tree.rs:99-114 | the selection after `close_at` as written: unchanged or moved to the collapsed entry, never larger |
| `Tree.ClosedSelectionLands` | src/tree.rs:99-114 | as written: a selection before the entry stays on its entry; one on the entry, the run or the entry after it moves to the collapsed entry; one further on keeps its number, so it shifts onto a later entry |
| `Tree.ClosedEntries` | src/tree.rs:84-115 | unchanged when not expanded; else collapsed and the whole run of deeper entries removed, nothing else changed |
| `Tree.SelectionPastRunAsWritten` | src/tree.rs:104-106 | as written, a selection after the removed run keeps its number and lands past the end |
| `Tree.ClosedSelectionCorrectedKeepsEntry` | src/tree.rs:102-106 | corrected, the selection stays in range and on its entry, or moves to the collapsed entry when its own was removed |
| `Tree.LastSubtreeCannotCloseAsWritten` | src/tree.rs:99-100 | as written, collapsing a directory whose descendants end the list reads past its end |
| `Tree.OpenedEntries` | src/tree.rs:117-135 | unchanged when expanded; else expanded with the children right after it, in order |
| `Tree.CloseAfterOpen` | src/tree.rs:84-135 | collapsing right after expanding gives the list back |
| `Tree.InsertAfterPrefix` | src/tree.rs:131-133 | inserting right after a prefix puts the child between the prefix and the rest |
| `Tree.Tree.CloseAt` | src/tree.rs:84-115 | the close loop as written: the entries become `ClosedEntries`, the selection `ClosedSelection` |
| `Tree.Tree.RemoveRun` | src/tree.rs:99-114 | the removal loop stops exactly at the end of the run of deeper entries, which it removes, moving a selection on a removed entry or on the entry after the run to the collapsed one |
| `Tree.Tree.OpenAt` | src/tree.rs:117-135 | nothing when expanded; else expanded and selected, with the listed children inserted after it |
| `Tree.Tree.InsertChildren` | src/tree.rs:130-134 | the insertion loop puts the children, in order, at the position |
| `Tree.Tree.ToggledAt` | src/tree.rs:76-82 | collapses an expanded entry (as `close_at` is written) and expands a collapsed one |
| `Tree.Tree.ArrowDown` | src/tree.rs:271-276 | down by one only below the last entry, which sets the scroll flag; a selection in range stays in range |
| `Tree.Tree.ArrowUp` | src/tree.rs:278-283 | up by one only above the first entry, which sets the scroll flag; a selection in range stays in range |
| `Config.DefaultShortcut` | src/config.rs:403-416 | alt, ctrl, shift and command on, mac_cmd off, key F20 |
| `Config.BuildKeyboardShortcut` | src/config.rs:428-452 | the modifier loop and the key lookup give the specified shortcut |
| `Config.SetFlag` | src/config.rs:431-439 | each known name sets its own flag and keeps the others; other names change nothing |
| `Config.ModifiersFor` | src/config.rs:429-441 | no names give no flags; each further name is one `SetFlag` on the flags of the names before it |
| `Config.ModifiersOrderFree` | src/config.rs:430-441 | the flags depend only on the set of names, not their order or repetition |
| `Config.UnknownModifierIgnored` | src/config.rs:437-439 | an unknown name sets no flag |
| `Config.EachNameOwnFlag` | src/config.rs:429-436 | each known name sets exactly its own flag, and no name sets none |
| `Config.ShortcutFrom` | src/config.rs:149-158 | the key and modifier names kept verbatim; an unknown key gives the default shortcut |
| `Config.ShortcutFromData` | src/config.rs:418-426 | `From<ShortcutData>` is `Shortcut::from` of its key and modifiers |

## Left out

- Threads, `JoinHandle`s, channels and the worker loop are not modelled. A load thread is a `Job` value whose result is a parameter (`spawned`). Its completion is a separate step, `ThreadFinishes`. The order in which channel outputs arrive is taken to be sub-chunk order.
- SQLite, exiftool, the decoders, fast_image_resize, lcms2 and wgpu are not modelled. Each one is a function parameter (`Env` fields, `exiftool`, `cached`, `transform`, `resample`). Only the SQL text, the control flow and the byte layout are modelled.
- JSON serialisation of the metadata map is not modelled. A record's JSON text is a parameter of the insert.
- The regular expression of `format_string_with_metadata` is replaced by a scanner (`MatchAt`, `Captures`). Its tag characters `\w` and `\s` are ASCII letters, digits, '_' and whitespace only.
- `FormatTemplate` is proved for well-formed templates whose metadata values hold no '$'. A value containing "$(" could create new matches in later whole-text replacements, and that case is not covered.
- `to_lowercase` is modelled as ASCII lower-casing only. This covers the profile table, the RAW extensions and the tree's sort key.
- Path components named "." or ".." are not modelled: `Paths.WellFormed` excludes them, and on such a name `SplitAtDot`, `Stem` and `Extension` do not give Rust's answer (`file_name`, `file_stem` and `extension` are None for a path ending in "..").
- Paths are sequences of components whose text is always valid UTF-8. So `to_str` never fails, and the "non-UTF-8 component" exits of `execute` and `group_raw_jpg_paths` are not represented.
- The f32 arithmetic of `resize` is modelled as integer arithmetic. `dest * num / den` is rounded down, which matches the truncating cast for these non-negative values except for f32 rounding. The zoom, fit, pan and scroll-offset arithmetic is floating point and left out.
- `set_total_rows` computes in f32. It is modelled as integer ceiling division.
- `MultiGallery.MultiGallery.constructor`, `SetTotalRows` and `HandleInput` require `images_per_row` to be at least 1. The configuration does not enforce this: the value is read from the configuration file unchecked and copied as it is. A configured 0 is not modelled. In the source it gives 0 rows for an empty list and `usize::MAX` rows otherwise (an f32 division by zero), and then `handle_input`'s decrement underflows. Only `handle_input` itself keeps the bound once it holds.
- The `u128` timings of `cache_metadata_for_images` are unbounded naturals. The elapsed time of each chunk is a parameter (`chunkMs`).
- `Key::from_name` after capitalising the key name is a lookup parameter of the shortcut builder.
- The default constants of the configuration are Dafny constants: `nr_loaded_images` 4, `images_per_row` 5, `preloaded_rows` 1, `simultaneous_load` 8, output profile "srgb".
- `Tree::from`, the tree's `ui` body apart from the arrow keys, and `get_selected_path` are not modelled. They are presentation and the initial directory read.
- `is_dir_hidden` and the readability of a directory are fields of the directory listing that is passed in (`DirItem`).
- Which context-menu button reports a click is the `clicked` parameter.
- The `ui` bodies of both views are not modelled: drawing, scrolling, key handling, and the callbacks they set.
- `clean_moved_files` and `clear_moved_files` are not modelled: filesystem existence checks.
- `get_image_metadata`, `extract_icc_from_image` and `extract_preview_from_raw_file` are not modelled. They run exiftool, so they are the oracles `metadata`, `embeddedIcc` and `rawPreview`.
- `Tree.Tree.CloseAt`: requires `CanClose`. The source's loop indexes past the end of the list, and panics, when the run of deeper entries reaches the end. `ToggledAt` carries the same requirement.
- `Tree.Tree.CloseAt`, `Tree.Tree.ToggledAt` and `Tree.Tree.OpenAt`: require an index inside the list. The source indexes `entries[i]` and panics otherwise, which can happen after a close leaves the selection past the end (see Findings) and ArrowLeft or Space then acts on it.
- `SingleGallery.SingleGallery.Pop`: the focus of an emptied list is `usize::MAX`, the wrapping that a release build performs; a debug build panics on that subtraction instead.
- `Config.SetFlag`: the message printed for an unknown modifier name is not modelled.
- `Tree.Tree.ArrowDown`: requires at least one entry. The source computes `len - 1` in `usize`, which underflows on an empty list.
- `Metadata.GroupOnePerRun`: states one path per run of adjacent equal stems, as `chunk_by` groups them. After sorting by full path, files with one stem can be separated by another stem ("x.RAF", "x.a.jpg", "x.jpg"), and they then give more than one path.
- `Metadata.ParseExiftoolOutput`: ends in `IndexPanic` where the source indexes an empty record list with a single path. Records whose JSON serialisation fails are not modelled.
- `MultiGallery.MultiGallery.Frame`: covers only the loading passes of a frame. The row range is a parameter, and the drawing pass and scroll bookkeeping are left out.

## Findings

| source | as written | input that shows it | evidently intended | confidence | as-written member | corrected member |
|---|---|---|---|---|---|---|
| src/image.rs:250-254 | a portrait picture no taller than the target takes its width as the new height | 50×100, target 200: resized to 25×50 | keep the height (`img.height()`), so the picture keeps its size | high, not executed | `Image.ResizeDimsAsWrittenShrinks` | `Image.ResizeDimsFits` |
| src/single_gallery.rs:140-155 | a step forward loads the entry d on from the old focus, which the window already holds | 10 entries, d = 1, focus 0 (entries 9, 0, 1 loaded): afterwards focus 1 and entry 2 not loaded | load the entry d + 1 on from the old focus | high, not executed | `SingleGallery.NextImageLeavesGap` | `SingleGallery.NextImageCorrectedKeepsWindow` |
| src/single_gallery.rs:171-186 | a step back loads the entry d back from the old focus, which the window already holds | 10 entries, d = 1, focus 0 (entries 9, 0, 1 loaded): afterwards focus 9 and entry 8 not loaded | load the entry d + 1 back from the old focus | high, not executed | `SingleGallery.PreviousImageLeavesGap` | `SingleGallery.PreviousImageCorrectedKeepsWindow` |
| src/single_gallery.rs:349-351 | when the removed entry was the last one and the focus was on it, the focus becomes `len - 1` even for an empty list | pop the only entry: `0 - 1` underflows | keep the focus at 0 on an empty list | high, not executed | `SingleGallery.PopEmptiesUnderflow` | `SingleGallery.PopSelection` |
| src/tree.rs:104-106 | a selection after the removed run keeps its number; a selection on the first entry after the run moves to the collapsed entry | depths 0, 1, 0, 0 with the first expanded and the last selected: closing it leaves selection 3 in a list of 3 | the selection follows its entry; only a removed entry's selection moves to the collapsed one | high, not executed | `Tree.SelectionPastRunAsWritten` | `Tree.ClosedSelectionCorrectedKeepsEntry` |
| src/tree.rs:99-100 | the loop reads the entry after the run without checking the end of the list | an expanded directory whose descendants are the last entries: the read past the end panics | stop at the end of the list | high, not executed | `Tree.LastSubtreeCannotCloseAsWritten` | `Tree.CloseAfterOpen` |

The operations of the model do what the source does. `Image.Resize` and the load use `ResizeDimsAsWritten`. `NextImage` and `PreviousImage` step by `NextEntries` and `PreviousEntries`. `Pop` moves the focus by `PopSelectionAsWritten`. `Tree.CloseAt` runs the loop as written, moves the selection by `ClosedSelection` and requires `CanClose`. The evidently intended behaviour is kept beside each of them, with its property proved: `ResizeDims`, `NextEntriesCorrected`, `PreviousEntriesCorrected`, `PopSelection`, `ClosedSelectionCorrected`, and `ClosedEntries`, which also covers a run that reaches the end of the list.
