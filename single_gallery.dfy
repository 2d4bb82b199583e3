/**
 * The single-picture view: a list of entries and the index of the focused
 * one. With preloading active, the entries within `nrLoadedImages` steps of
 * the focus (counting around the end of the list) are loaded and every other
 * entry is unloaded; moving the focus unloads one entry and loads another.
 */
module SingleGallery {
  import opened Wrappers
  import opened Paths
  import opened Seqs
  import opened Text
  import opened Image
  import G = GalleryImage
  import Arith

  /** The single-view part of the configuration. */
  datatype Config = Config(nrLoadedImages: nat, shouldWait: bool)

  // ----- Index arithmetic -----

  /** `get_vec_index_subtracted_by`: `k` steps back from `cur`, around the start of a list of `n`. */
  function SubtractedBy(n: nat, cur: nat, k: nat): (r: nat)
    requires k <= n + cur
    ensures cur < n && k <= n ==> r < n
  {
    if cur < k then n - (k - cur) else cur - k
  }

  /** `get_vec_index_sum_by`: `k` steps on from `cur`, around the end of a list of `n`. */
  function SumBy(n: nat, cur: nat, k: nat): (r: nat)
    requires cur <= n
    ensures cur < n && k <= n ==> r < n
  {
    if cur + k >= n then k - (n - cur) else cur + k
  }

  /** The three index steps are arithmetic modulo the list length. */
  lemma StepsAreModular(n: nat, cur: nat, k: nat, i: nat)
    requires cur < n && k <= n && i < n
    ensures SubtractedBy(n, cur, k) == (cur - k) % n
    ensures SumBy(n, cur, k) == (cur + k) % n
    ensures Offset(i, cur, n) == (i - cur) % n
  {
    Arith.ModOneWrap(cur - k, n);
    Arith.ModTwoLengths(cur + k, n);
    Arith.ModOneWrap(i - cur, n);
  }

  /** Stepping back and on by the same count returns to the start, either way round. */
  lemma SumUndoesSubtract(n: nat, cur: nat, k: nat)
    requires cur < n && k <= n
    ensures SumBy(n, SubtractedBy(n, cur, k), k) == cur
    ensures SubtractedBy(n, SumBy(n, cur, k), k) == cur
  {
  }

  /** `is_valid_for_preload`: the preloaded entries on both sides fit in the list. */
  predicate IsValidForPreload(preloadNr: nat, imageCount: nat)
  {
    preloadNr * 2 <= imageCount
  }

  /** How many steps on from `f` the index `i` lies, counting around the end. */
  function Offset(i: nat, f: nat, n: nat): (r: nat)
    requires i < n && f < n
    ensures r < n
  {
    if i >= f then i - f else i + n - f
  }

  /** `i` lies within `d` steps of `f`, one way round or the other. */
  predicate InWindow(i: nat, f: nat, d: nat, n: nat)
    requires i < n && f < n
  {
    Offset(i, f, n) <= d || Offset(i, f, n) + d >= n
  }

  /** `indexes_to_load`: the focus, then for each `j` in `1..=d` the index `j` back and `j` on. */
  function ToLoad(n: nat, f: nat, d: nat): seq<nat>
    requires f < n && d <= n
  {
    if d == 0 then [f] else ToLoad(n, f, d - 1) + [SubtractedBy(n, f, d), SumBy(n, f, d)]
  }

  /** An index is in the load list exactly when it lies within `d` steps of the focus. */
  lemma {:induction false} ToLoadWindow(n: nat, f: nat, d: nat, i: nat)
    requires f < n && i < n && 2 * d <= n
    ensures i in ToLoad(n, f, d) <==> InWindow(i, f, d, n)
    decreases d
  {
    if d > 0 {
      ToLoadWindow(n, f, d - 1, i);
      assert Offset(SumBy(n, f, d), f, n) == d;
      assert Offset(SubtractedBy(n, f, d), f, n) == n - d;
      if Offset(i, f, n) == d {
        assert i == SumBy(n, f, d);
      } else if Offset(i, f, n) == n - d {
        assert i == SubtractedBy(n, f, d);
      }
    }
  }

  // ----- Entries -----

  /** An entry with a picture or a thread: what `load` asks for and `unload` removes. */
  predicate Present(e: G.Slot)
  {
    e.image.Some? || e.handle.Some?
  }

  /** `GalleryImage::load` on a state: a thread only when there is neither picture nor thread. */
  function LoadOne(e: G.Slot, spawned: Option<Loaded>): G.Slot
  {
    if e.handle.None? && e.image.None? then e.(handle := Some(Job(false, spawned))) else e
  }

  /** `GalleryImage::unload` on a state. */
  function UnloadOne(e: G.Slot): G.Slot
  {
    e.(image := None, handle := None)
  }

  /**
   * Loading leaves an entry present and unloading leaves it absent; loading
   * twice is loading once; both keep the cached name and list; unloading
   * then loading always starts a new thread.
   */
  lemma LoadUnloadOne(e: G.Slot, spawned: Option<Loaded>)
    ensures Present(LoadOne(e, spawned)) && !Present(UnloadOne(e))
    ensures LoadOne(LoadOne(e, spawned), spawned) == LoadOne(e, spawned)
    ensures LoadOne(e, spawned).displayName == e.displayName == UnloadOne(e).displayName
    ensures LoadOne(e, spawned).displayMetadata == e.displayMetadata == UnloadOne(e).displayMetadata
    ensures LoadOne(UnloadOne(e), spawned) == e.(image := None, handle := Some(Job(false, spawned)))
    ensures Present(e) ==> LoadOne(e, spawned) == e
  {
  }

  /** `load` on the list of states `s` with focus `f`. */
  function LoadPlan(s: seq<G.Slot>, f: nat, d: nat, preload: bool, spawned: nat -> Option<Loaded>): (r: seq<G.Slot>)
    requires s != [] ==> f < |s|
    requires preload ==> 2 * d <= |s|
    ensures |r| == |s|
  {
    if s == [] then s
    else if !preload then seq(|s|, k requires 0 <= k < |s| => LoadOne(s[k], spawned(k)))
    else
      var load := ToLoad(|s|, f, d);
      seq(|s|, k requires 0 <= k < |s| => if k in load then LoadOne(s[k], spawned(k)) else UnloadOne(s[k]))
  }

  /**
   * After `load`, with preloading off every entry is present; with it on,
   * an entry is present exactly when it lies within `d` steps of the focus.
   */
  lemma LoadPlanWindow(s: seq<G.Slot>, f: nat, d: nat, preload: bool, spawned: nat -> Option<Loaded>)
    requires s != [] ==> f < |s|
    requires preload ==> 2 * d <= |s|
    ensures var r := LoadPlan(s, f, d, preload, spawned);
      forall k :: 0 <= k < |s| ==> (Present(r[k]) <==> !preload || InWindow(k, f, d, |s|))
  {
    var r := LoadPlan(s, f, d, preload, spawned);
    forall k | 0 <= k < |s|
      ensures Present(r[k]) <==> !preload || InWindow(k, f, d, |s|)
    {
      LoadUnloadOne(s[k], spawned(k));
      if preload {
        ToLoadWindow(|s|, f, d, k);
      }
    }
  }

  /** `unload` of entry `c`, then `load` of entry `p`, as `next_image` and `previous_image` do. */
  function UnloadThenLoad(s: seq<G.Slot>, c: nat, p: nat, spawned: Option<Loaded>): (r: seq<G.Slot>)
    requires c < |s| && p < |s|
    ensures |r| == |s|
  {
    var s1 := s[c := UnloadOne(s[c])];
    s1[p := LoadOne(s1[p], spawned)]
  }

  /** After the pair of steps, entry `p` is present, entry `c` is absent unless it is `p`, and no other entry changes. */
  lemma UnloadThenLoadPresent(s: seq<G.Slot>, c: nat, p: nat, spawned: Option<Loaded>)
    requires c < |s| && p < |s|
    ensures var r := UnloadThenLoad(s, c, p, spawned);
      forall k :: 0 <= k < |s| ==> (Present(r[k]) <==> k == p || (k != c && Present(s[k])))
    ensures var r := UnloadThenLoad(s, c, p, spawned);
      forall k :: 0 <= k < |s| && k != c && k != p ==> r[k] == s[k]
  {
    LoadUnloadOne(s[c], spawned);
    LoadUnloadOne(s[c := UnloadOne(s[c])][p], spawned);
  }

  /** `next_image` on the states as written: unload `d` back, load `d` on, both from the old focus. */
  function NextEntries(s: seq<G.Slot>, f: nat, d: nat, preload: bool, spawned: Option<Loaded>): (r: seq<G.Slot>)
    requires f < |s| && (preload ==> 2 * d <= |s|)
    ensures |r| == |s| && (!preload ==> r == s)
    ensures preload ==> forall k :: 0 <= k < |s| && k != SubtractedBy(|s|, f, d) && k != SumBy(|s|, f, d) ==> r[k] == s[k]
  {
    if preload then
      UnloadThenLoadPresent(s, SubtractedBy(|s|, f, d), SumBy(|s|, f, d), spawned);
      UnloadThenLoad(s, SubtractedBy(|s|, f, d), SumBy(|s|, f, d), spawned)
    else s
  }

  /** `previous_image` on the states as written: unload `d` on, load `d` back, both from the old focus. */
  function PreviousEntries(s: seq<G.Slot>, f: nat, d: nat, preload: bool, spawned: Option<Loaded>): (r: seq<G.Slot>)
    requires f < |s| && (preload ==> 2 * d <= |s|)
    ensures |r| == |s| && (!preload ==> r == s)
    ensures preload ==> forall k :: 0 <= k < |s| && k != SumBy(|s|, f, d) && k != SubtractedBy(|s|, f, d) ==> r[k] == s[k]
  {
    if preload then
      UnloadThenLoadPresent(s, SumBy(|s|, f, d), SubtractedBy(|s|, f, d), spawned);
      UnloadThenLoad(s, SumBy(|s|, f, d), SubtractedBy(|s|, f, d), spawned)
    else s
  }

  /**
   * As written, a step forward from a loaded window leaves the old window
   * loaded except the entry `d` back from the old focus: the entry it loads
   * was already loaded, so the window does not move with the focus.
   */
  lemma NextImageAsWrittenWindow(s: seq<G.Slot>, f: nat, d: nat, spawned: Option<Loaded>)
    requires f < |s| && 2 * d <= |s|
    requires forall k :: 0 <= k < |s| ==> (Present(s[k]) <==> InWindow(k, f, d, |s|))
    ensures var n := |s|;
      var r := NextEntries(s, f, d, true, spawned);
      forall k :: 0 <= k < n ==>
        (Present(r[k]) <==> InWindow(k, f, d, n) && (k != SubtractedBy(n, f, d) || k == SumBy(n, f, d)))
  {
    var n := |s|;
    UnloadThenLoadPresent(s, SubtractedBy(n, f, d), SumBy(n, f, d), spawned);
    assert Offset(SumBy(n, f, d), f, n) == d;
  }

  /**
   * As written, one step forward from a loaded window leaves the entry `d`
   * on from the new focus unloaded (for n = 10, d = 1 and focus 0 this is
   * entry 2): `next_image` loads `d` on from the old focus, which the
   * window already held.
   */
  lemma NextImageLeavesGap(s: seq<G.Slot>, f: nat, d: nat, spawned: Option<Loaded>)
    requires f < |s| && 1 <= d && 2 * d < |s|
    requires forall k :: 0 <= k < |s| ==> (Present(s[k]) <==> InWindow(k, f, d, |s|))
    ensures var n := |s|;
      var front := SumBy(n, f, d + 1);
      InWindow(front, SumBy(n, f, 1), d, n) && !Present(NextEntries(s, f, d, true, spawned)[front])
  {
    var n := |s|;
    var front := SumBy(n, f, d + 1);
    UnloadThenLoadPresent(s, SubtractedBy(n, f, d), SumBy(n, f, d), spawned);
    assert Offset(front, f, n) == d + 1;
    assert Offset(SumBy(n, f, d), f, n) == d;
  }

  /** The entry that enters the window on a step forward: `d + 1` on from the old focus, unless the window already holds every entry. */
  function EnteringNext(n: nat, f: nat, d: nat): (r: nat)
    requires f < n && 2 * d <= n
    ensures r < n
  {
    if 2 * d < n then SumBy(n, f, d + 1) else SumBy(n, f, d)
  }

  /** The step forward the window calls for: the entry leaving it is unloaded and the one entering it loaded. */
  function NextEntriesCorrected(s: seq<G.Slot>, f: nat, d: nat, preload: bool, spawned: Option<Loaded>): seq<G.Slot>
    requires f < |s| && (preload ==> 2 * d <= |s|)
  {
    var n := |s|;
    if !preload then s
    else UnloadThenLoad(s, SubtractedBy(n, f, d), EnteringNext(n, f, d), spawned)
  }

  /** Corrected, a step forward from a loaded window leaves exactly the window of the new focus loaded. */
  lemma NextImageCorrectedKeepsWindow(s: seq<G.Slot>, f: nat, d: nat, spawned: Option<Loaded>)
    requires f < |s| && 2 * d <= |s|
    requires forall k :: 0 <= k < |s| ==> (Present(s[k]) <==> InWindow(k, f, d, |s|))
    ensures var r := NextEntriesCorrected(s, f, d, true, spawned);
      forall k :: 0 <= k < |s| ==> (Present(r[k]) <==> InWindow(k, SumBy(|s|, f, 1), d, |s|))
  {
    var n := |s|;
    var c := SubtractedBy(n, f, d);
    var p := EnteringNext(n, f, d);
    UnloadThenLoadPresent(s, c, p, spawned);
    var g := SumBy(n, f, 1);
    forall k | 0 <= k < n
      ensures InWindow(k, g, d, n) <==> k == p || (k != c && InWindow(k, f, d, n))
    {
      assert Offset(k, g, n) == if Offset(k, f, n) == 0 then n - 1 else Offset(k, f, n) - 1;
      if Offset(k, f, n) == n - d && d > 0 {
        assert k == c;
      }
      if 2 * d < n && Offset(k, f, n) == d + 1 {
        assert k == p;
      }
      if 2 * d == n && Offset(k, f, n) == d {
        assert k == p;
      }
    }
  }

  /**
   * As written, a step back from a loaded window leaves the old window
   * loaded except the entry `d` on from the old focus.
   */
  lemma PreviousImageAsWrittenWindow(s: seq<G.Slot>, f: nat, d: nat, spawned: Option<Loaded>)
    requires f < |s| && 2 * d <= |s|
    requires forall k :: 0 <= k < |s| ==> (Present(s[k]) <==> InWindow(k, f, d, |s|))
    ensures var n := |s|;
      var r := PreviousEntries(s, f, d, true, spawned);
      forall k :: 0 <= k < n ==>
        (Present(r[k]) <==> InWindow(k, f, d, n) && (k != SumBy(n, f, d) || k == SubtractedBy(n, f, d)))
  {
    var n := |s|;
    UnloadThenLoadPresent(s, SumBy(n, f, d), SubtractedBy(n, f, d), spawned);
    assert InWindow(SubtractedBy(n, f, d), f, d, n);
  }

  /**
   * As written, one step back from a loaded window leaves the entry `d`
   * back from the new focus unloaded: `previous_image` loads `d` back from
   * the old focus, which the window already held.
   */
  lemma PreviousImageLeavesGap(s: seq<G.Slot>, f: nat, d: nat, spawned: Option<Loaded>)
    requires f < |s| && 1 <= d && 2 * d < |s|
    requires forall k :: 0 <= k < |s| ==> (Present(s[k]) <==> InWindow(k, f, d, |s|))
    ensures var n := |s|;
      var back := SubtractedBy(n, f, d + 1);
      InWindow(back, SubtractedBy(n, f, 1), d, n) && !Present(PreviousEntries(s, f, d, true, spawned)[back])
  {
    var n := |s|;
    var back := SubtractedBy(n, f, d + 1);
    UnloadThenLoadPresent(s, SumBy(n, f, d), SubtractedBy(n, f, d), spawned);
    assert Offset(back, f, n) == n - d - 1;
    assert Offset(SubtractedBy(n, f, d), f, n) == n - d;
  }

  /** The entry that enters the window on a step back: `d + 1` back from the old focus, unless the window already holds every entry. */
  function EnteringPrevious(n: nat, f: nat, d: nat): (r: nat)
    requires f < n && 2 * d <= n
    ensures r < n
  {
    if 2 * d < n then SubtractedBy(n, f, d + 1) else SubtractedBy(n, f, d)
  }

  /** The step back the window calls for: the entry leaving it is unloaded and the one entering it loaded. */
  function PreviousEntriesCorrected(s: seq<G.Slot>, f: nat, d: nat, preload: bool, spawned: Option<Loaded>): seq<G.Slot>
    requires f < |s| && (preload ==> 2 * d <= |s|)
  {
    var n := |s|;
    if !preload then s
    else UnloadThenLoad(s, SumBy(n, f, d), EnteringPrevious(n, f, d), spawned)
  }

  /** Corrected, a step back from a loaded window leaves exactly the window of the new focus loaded. */
  lemma PreviousImageCorrectedKeepsWindow(s: seq<G.Slot>, f: nat, d: nat, spawned: Option<Loaded>)
    requires f < |s| && 2 * d <= |s|
    requires forall k :: 0 <= k < |s| ==> (Present(s[k]) <==> InWindow(k, f, d, |s|))
    ensures var r := PreviousEntriesCorrected(s, f, d, true, spawned);
      forall k :: 0 <= k < |s| ==> (Present(r[k]) <==> InWindow(k, SubtractedBy(|s|, f, 1), d, |s|))
  {
    var n := |s|;
    var c := SumBy(n, f, d);
    var p := EnteringPrevious(n, f, d);
    UnloadThenLoadPresent(s, c, p, spawned);
    var g := SubtractedBy(n, f, 1);
    forall k | 0 <= k < n
      ensures InWindow(k, g, d, n) <==> k == p || (k != c && InWindow(k, f, d, n))
    {
      assert Offset(k, g, n) == if Offset(k, f, n) == n - 1 then 0 else Offset(k, f, n) + 1;
      if Offset(k, f, n) == d && d > 0 {
        assert k == c;
      }
      if 2 * d < n && Offset(k, f, n) == n - d - 1 {
        assert k == p;
      }
      if 2 * d == n && Offset(k, f, n) == n - d {
        assert k == p;
      }
    }
  }

  /** `pop` as written: a focus on the removed last entry moves back one, wrapping to `usize::MAX` on an empty list. */
  function PopSelectionAsWritten(selected: nat, newLen: nat): (r: nat)
    ensures selected <= newLen && newLen > 0 ==> r < newLen
    ensures r == PopSelection(selected, newLen) || (selected == newLen == 0 && r == USIZE_MAX)
  {
    if selected == newLen then (if newLen == 0 then USIZE_MAX else newLen - 1) else selected
  }

  /** As written, popping the only entry leaves the focus far outside the (empty) list. */
  lemma PopEmptiesUnderflow()
    ensures PopSelectionAsWritten(0, 0) == USIZE_MAX
  {
  }

  /** `pop` as evidently intended: a focus past the end moves back one, and stays 0 on an empty list. */
  function PopSelection(selected: nat, newLen: nat): (r: nat)
    ensures selected <= newLen && newLen > 0 ==> r < newLen
    ensures newLen == 0 && selected == 0 ==> r == 0
    ensures selected < newLen ==> r == selected
  {
    if selected == newLen && newLen > 0 then newLen - 1 else selected
  }

  /** The entries' states, in order. */
  ghost function EntriesOf(xs: seq<G.GalleryImage>): (r: seq<G.Slot>)
    reads set x | x in xs
    ensures |r| == |xs| && forall i :: 0 <= i < |xs| ==> r[i] == xs[i].State()
  {
    if xs == [] then [] else EntriesOf(xs[..|xs| - 1]) + [xs[|xs| - 1].State()]
  }

  /** The entries' paths, in order. */
  function PathsOf(xs: seq<G.GalleryImage>): (r: seq<Path>)
    ensures |r| == |xs| && forall i :: 0 <= i < |xs| ==> r[i] == xs[i].path
  {
    if xs == [] then [] else PathsOf(xs[..|xs| - 1]) + [xs[|xs| - 1].path]
  }

  /** The entries' file names, in order. */
  function NamesOf(xs: seq<G.GalleryImage>): (r: seq<string>)
    ensures |r| == |xs| && forall i :: 0 <= i < |xs| ==> r[i] == xs[i].name
  {
    if xs == [] then [] else NamesOf(xs[..|xs| - 1]) + [xs[|xs| - 1].name]
  }

  /** `indexes_to_load` built as `load` builds it. */
  method IndexesToLoad(n: nat, f: nat, d: nat) returns (r: seq<nat>)
    requires f < n && d <= n
    ensures r == ToLoad(n, f, d)
  {
    r := [f];
    var i := 1;
    while i < d + 1
      invariant 1 <= i <= d + 1
      invariant r == ToLoad(n, f, i - 1)
    {
      r := r + [SubtractedBy(n, f, i)];
      r := r + [SumBy(n, f, i)];
      i := i + 1;
    }
  }

  class SingleGallery {
    var imgs: seq<G.GalleryImage>
    var selected: nat
    var preloadActive: bool
    var jumpTo: string
    const config: Config
    const outputProfile: string

    /** Distinct entries, the focus inside a non-empty list, and the preload flag kept up to date. */
    ghost predicate Valid()
      reads this`imgs, this`selected, this`preloadActive
    {
      (forall i, j :: 0 <= i < j < |imgs| ==> imgs[i] != imgs[j])
      && (imgs != [] ==> selected < |imgs|)
      && preloadActive == IsValidForPreload(config.nrLoadedImages, |imgs|)
    }

    ghost function Entries(): seq<G.Slot>
      reads this`imgs, set x | x in imgs
    {
      EntriesOf(imgs)
    }

    /** `new`: the entries of `paths`, focused on `selectedPath` when present, loaded. */
    constructor (paths: seq<Path>, selectedPath: Option<Path>, config: Config, outputProfile: string, spawned: nat -> Option<Loaded>)
      ensures Valid() && this.config == config && this.outputProfile == outputProfile
      ensures PathsOf(imgs) == paths && jumpTo == []
      ensures selected == if selectedPath.Some? then Position(paths, selectedPath.value).UnwrapOr(0) else 0
      ensures Entries() == LoadPlan(seq(|paths|, _ => G.Slot(None, None, None, None)), selected,
        config.nrLoadedImages, preloadActive, spawned)
    {
      imgs := [];
      selected := 0;
      preloadActive := true;
      jumpTo := [];
      this.config := config;
      this.outputProfile := outputProfile;
      new;
      SetImages(paths, selectedPath, spawned);
    }

    /**
     * `load`: nothing on an empty list; with preloading off every entry is
     * loaded; with it on, the entries in the window are loaded and all
     * others unloaded.
     */
    method Load(spawned: nat -> Option<Loaded>)
      requires Valid()
      modifies imgs
      ensures Entries() == LoadPlan(old(Entries()), selected, config.nrLoadedImages, preloadActive, spawned)
    {
      ghost var s0 := Entries();
      if imgs == [] {
        return;
      }
      ghost var plan := LoadPlan(s0, selected, config.nrLoadedImages, preloadActive, spawned);
      var load: seq<nat> := [];
      if preloadActive {
        load := IndexesToLoad(|imgs|, selected, config.nrLoadedImages);
      }
      var i := 0;
      while i < |imgs|
        invariant 0 <= i <= |imgs|
        invariant forall k :: 0 <= k < i ==> imgs[k].State() == plan[k]
        invariant forall k :: i <= k < |imgs| ==> imgs[k].State() == s0[k]
      {
        var img := imgs[i];
        assert img.State() == s0[i];
        if !preloadActive || i in load {
          img.Load(spawned(i));
          assert img.State() == LoadOne(s0[i], spawned(i));
        } else {
          img.Unload();
          assert img.State() == UnloadOne(s0[i]);
        }
        assert img.State() == plan[i];
        forall k | 0 <= k < |imgs| && k != i
          ensures imgs[k] != img
        {
        }
        i := i + 1;
      }
      assert Entries() == plan;
    }

    /** `set_images`: fresh entries, the focus on `selectedPath` if found (else 0), the preload flag, then `load`. */
    method SetImages(paths: seq<Path>, selectedPath: Option<Path>, spawned: nat -> Option<Loaded>)
      modifies this
      ensures Valid() && PathsOf(imgs) == paths && jumpTo == old(jumpTo)
      ensures selected == if selectedPath.Some? then Position(paths, selectedPath.value).UnwrapOr(0) else 0
      ensures Entries() == LoadPlan(seq(|paths|, _ => G.Slot(None, None, None, None)), selected,
        config.nrLoadedImages, preloadActive, spawned)
      ensures forall i :: 0 <= i < |imgs| ==> fresh(imgs[i])
    {
      Reset(paths, selectedPath);
      Load(spawned);
    }

    /** The part of `set_images` before `load`. */
    method Reset(paths: seq<Path>, selectedPath: Option<Path>)
      modifies this
      ensures Valid() && PathsOf(imgs) == paths && jumpTo == old(jumpTo)
      ensures selected == if selectedPath.Some? then Position(paths, selectedPath.value).UnwrapOr(0) else 0
      ensures Entries() == seq(|paths|, _ => G.Slot(None, None, None, None))
      ensures forall i :: 0 <= i < |imgs| ==> fresh(imgs[i])
    {
      var entries := G.FromPaths(paths, outputProfile);
      imgs := entries;
      assert PathsOf(imgs) == paths;
      var found := None;
      if selectedPath.Some? {
        found := Position(PathsOf(imgs), selectedPath.value);
      }
      selected := found.UnwrapOr(0);
      preloadActive := IsValidForPreload(config.nrLoadedImages, |imgs|);
      assert Entries() == seq(|paths|, _ => G.Slot(None, None, None, None));
    }

    /** `select_by_name`: the focus on the first entry named `name` (else 0), then `load`. */
    method SelectByName(name: string, spawned: nat -> Option<Loaded>)
      requires Valid()
      modifies this`selected, imgs
      ensures selected == Position(NamesOf(imgs), name).UnwrapOr(0)
      ensures Valid()
      ensures Entries() == LoadPlan(old(Entries()), selected, config.nrLoadedImages, preloadActive, spawned)
    {
      selected := Position(NamesOf(imgs), name).UnwrapOr(0);
      Load(spawned);
    }

    /**
     * `next_image`: nothing on an empty list, nor while waiting on a focused
     * entry that is loading; otherwise the preload step (when active) and
     * the focus one on, around the end. The preload step unloads the entry
     * `d` back from the old focus and loads the one `d` on from it.
     */
    method NextImage(spawned: Option<Loaded>)
      requires Valid()
      modifies this`selected, imgs
      ensures Valid()
      ensures imgs == [] || (config.shouldWait && old(imgs[selected].handle.Some?)) ==>
        selected == old(selected) && Entries() == old(Entries())
      ensures imgs != [] && !(config.shouldWait && old(imgs[selected].handle.Some?)) ==>
        selected == SumBy(|imgs|, old(selected), 1)
        && Entries() == NextEntries(old(Entries()), old(selected), config.nrLoadedImages, preloadActive, spawned)
    {
      if imgs == [] {
        return;
      }
      if config.shouldWait && imgs[selected].IsLoading() {
        return;
      }
      Advance(spawned);
    }

    /** The part of `next_image` past its guards: the preload step, then the focus one on. */
    method Advance(spawned: Option<Loaded>)
      requires Valid() && imgs != []
      modifies this`selected, imgs
      ensures Valid() && selected == SumBy(|imgs|, old(selected), 1)
      ensures Entries() == NextEntries(old(Entries()), old(selected), config.nrLoadedImages, preloadActive, spawned)
    {
      var n := |imgs|;
      ghost var s0 := Entries();
      if preloadActive {
        var d := config.nrLoadedImages;
        Step(SubtractedBy(n, selected, d), SumBy(n, selected, d), spawned);
      }
      ghost var s1 := Entries();
      assert s1 == NextEntries(s0, selected, config.nrLoadedImages, preloadActive, spawned);
      if selected == n - 1 {
        selected := 0;
      } else {
        selected := selected + 1;
      }
      assert Entries() == s1;
    }

    /** `previous_image`: the mirror of `next_image`, without the wait: unload `d` on, load `d` back. */
    method PreviousImage(spawned: Option<Loaded>)
      requires Valid()
      modifies this`selected, imgs
      ensures Valid()
      ensures imgs == [] ==> selected == old(selected) && Entries() == old(Entries())
      ensures imgs != [] ==>
        selected == SubtractedBy(|imgs|, old(selected), 1)
        && Entries() == PreviousEntries(old(Entries()), old(selected), config.nrLoadedImages, preloadActive, spawned)
    {
      if imgs == [] {
        return;
      }
      Retreat(spawned);
    }

    /** The part of `previous_image` past its guard: the preload step, then the focus one back. */
    method Retreat(spawned: Option<Loaded>)
      requires Valid() && imgs != []
      modifies this`selected, imgs
      ensures Valid() && selected == SubtractedBy(|imgs|, old(selected), 1)
      ensures Entries() == PreviousEntries(old(Entries()), old(selected), config.nrLoadedImages, preloadActive, spawned)
    {
      var n := |imgs|;
      ghost var s0 := Entries();
      if preloadActive {
        var d := config.nrLoadedImages;
        Step(SumBy(n, selected, d), SubtractedBy(n, selected, d), spawned);
      }
      ghost var s1 := Entries();
      assert s1 == PreviousEntries(s0, selected, config.nrLoadedImages, preloadActive, spawned);
      if selected == 0 {
        selected := n - 1;
      } else {
        selected := selected - 1;
      }
      assert Entries() == s1;
    }

    /** Unloads entry `c`, then loads entry `p`. */
    method Step(c: nat, p: nat, spawned: Option<Loaded>)
      requires Valid() && c < |imgs| && p < |imgs|
      modifies imgs
      ensures Entries() == UnloadThenLoad(old(Entries()), c, p, spawned)
    {
      ghost var s0 := Entries();
      imgs[c].Unload();
      ghost var s1 := Entries();
      assert s1 == s0[c := UnloadOne(s0[c])] by {
        forall k | 0 <= k < |imgs| && k != c
          ensures imgs[k] != imgs[c]
        {
        }
      }
      imgs[p].Load(spawned);
      assert Entries() == s1[p := LoadOne(s1[p], spawned)] by {
        forall k | 0 <= k < |imgs| && k != p
          ensures imgs[k] != imgs[p]
        {
        }
      }
    }

    /**
     * `jump_to_image`: the focus on entry `i - 1` when the typed text parses
     * as `i` with `1 <= i <= n`, unchanged otherwise; then `load`, and the
     * text is cleared.
     */
    method JumpToImage(spawned: nat -> Option<Loaded>)
      requires Valid()
      modifies this`selected, this`jumpTo, imgs
      ensures Valid() && jumpTo == []
      ensures selected == match ParseUsize(old(jumpTo))
        case Some(i) => if i > |imgs| || i < 1 then old(selected) else i - 1
        case None => old(selected)
      ensures Entries() == LoadPlan(old(Entries()), selected, config.nrLoadedImages, preloadActive, spawned)
    {
      match ParseUsize(jumpTo) {
        case Some(i) =>
          if !(i > |imgs| || i < 1) {
            selected := i - 1;
          }
        case None =>
      }
      jumpTo := [];
      assert Entries() == old(Entries());
      Load(spawned);
    }

    /** `reload_at`: the first entry with `path` is unloaded and loaded again, which starts a new thread. */
    method ReloadAt(path: Path, spawned: Option<Loaded>)
      requires Valid()
      modifies imgs
      ensures match Position(PathsOf(imgs), path)
        case None => Entries() == old(Entries())
        case Some(pos) => Entries() == old(Entries())[pos := LoadOne(UnloadOne(old(Entries())[pos]), spawned)]
    {
      ghost var s0 := Entries();
      var pos := Position(PathsOf(imgs), path);
      if pos.Some? {
        Step(pos.value, pos.value, spawned);
        assert UnloadThenLoad(s0, pos.value, pos.value, spawned) == s0[pos.value := LoadOne(UnloadOne(s0[pos.value]), spawned)];
      }
    }

    /**
     * `pop`: removes the first entry with `path`, if any, recomputes the
     * preload flag, moves a focus past the end back one (to `usize::MAX`
     * when the list is left empty), then `load`s.
     */
    method Pop(path: Path, spawned: nat -> Option<Loaded>)
      requires Valid()
      modifies this, imgs
      ensures Valid() && jumpTo == old(jumpTo)
      ensures match Position(PathsOf(old(imgs)), path)
        case None => imgs == old(imgs) && selected == old(selected) && Entries() == old(Entries())
        case Some(pos) =>
          imgs == RemoveAt(old(imgs), pos) && selected == PopSelectionAsWritten(old(selected), |imgs|)
          && Entries() == LoadPlan(RemoveAt(old(Entries()), pos), selected, config.nrLoadedImages, preloadActive, spawned)
    {
      var pos := Position(PathsOf(imgs), path);
      if pos.Some? {
        PopAt(pos.value, spawned);
      }
    }

    /** `pop` once the entry is found at `pos`. */
    method PopAt(pos: nat, spawned: nat -> Option<Loaded>)
      requires Valid() && pos < |imgs|
      modifies this, imgs
      ensures Valid() && jumpTo == old(jumpTo)
      ensures imgs == RemoveAt(old(imgs), pos) && selected == PopSelectionAsWritten(old(selected), |imgs|)
      ensures Entries() == LoadPlan(RemoveAt(old(Entries()), pos), selected, config.nrLoadedImages, preloadActive, spawned)
    {
      ghost var s1 := RemoveAt(Entries(), pos);
      RemoveEntry(pos);
      assert Entries() == s1;
      Load(spawned);
      assert Entries() == LoadPlan(s1, selected, config.nrLoadedImages, preloadActive, spawned);
    }

    /** The part of `pop` before `load`: the entry removed, the preload flag and the focus updated. */
    method RemoveEntry(pos: nat)
      requires Valid() && pos < |imgs|
      modifies this
      ensures Valid() && imgs == RemoveAt(old(imgs), pos) && Entries() == RemoveAt(old(Entries()), pos)
      ensures forall i :: 0 <= i < |imgs| ==> imgs[i] in old(imgs)
      ensures selected == PopSelectionAsWritten(old(selected), |imgs|) && jumpTo == old(jumpTo)
    {
      ghost var s0 := Entries();
      ghost var before := imgs;
      imgs := RemoveAt(imgs, pos);
      forall i, j | 0 <= i < j < |imgs|
        ensures imgs[i] != imgs[j]
      {
        var i' := if i < pos then i else i + 1;
        var j' := if j < pos then j else j + 1;
        assert imgs[i] == before[i'] && imgs[j] == before[j'] && i' < j';
      }
      assert Entries() == RemoveAt(s0, pos);
      preloadActive := IsValidForPreload(config.nrLoadedImages, |imgs|);
      selected := PopSelectionAsWritten(selected, |imgs|);
    }
  }
}
