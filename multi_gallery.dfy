/**
 * The grid view. Each frame visits every picture index once: the visible
 * rows first, then the rows below, then the rows above. An index inside the
 * preloaded rows starts loading while fewer than `simultaneousLoad` entries
 * are loading; an index outside them is unloaded (deferred while its thread
 * runs). The view also keeps the row count and the pictures per row, and
 * removes or reloads an entry by path.
 */
module MultiGallery {
  import opened Wrappers
  import opened Paths
  import opened Seqs
  import opened Arith
  import opened Image
  import T = ThumbnailImage

  /** The grid part of the configuration. */
  datatype Config = Config(preloadedRows: nat, simultaneousLoad: nat, imagesPerRow: nat)

  /** The first row to preload: `preloaded` rows above the visible ones, not above row 0. */
  function PreloadFrom(start: nat, preloaded: nat): (r: nat)
    ensures r <= start && r + preloaded >= start
    ensures r > 0 ==> r + preloaded == start
  {
    if start <= preloaded then 0 else start - preloaded
  }

  /** The last row bound to preload: `preloaded` rows below the visible ones, not past the last row. */
  function PreloadTo(end: nat, preloaded: nat, total: nat): (r: nat)
    ensures r <= total && r <= end + preloaded
    ensures r == total || r == end + preloaded
    ensures end <= total ==> end <= r
  {
    if end + preloaded > total then total else end + preloaded
  }

  /** The index of the first picture of row `r`, counted row by row. */
  function FirstOfRow(r: nat, perRow: nat): nat
  {
    if r == 0 then 0 else FirstOfRow(r - 1, perRow) + perRow
  }

  /** Counted row by row, the first picture of row `r` has index `r * perRow`. */
  lemma {:induction false} FirstOfRowIsProduct(r: nat, perRow: nat)
    ensures FirstOfRow(r, perRow) == r * perRow
  {
    if r > 0 {
      FirstOfRowIsProduct(r - 1, perRow);
      MulNext(r - 1, r, perRow);
    }
  }

  /**
   * The in-range test of `load_unload_image`: from the first picture of row
   * `from` up to and including the first picture of row `to`, that is
   * `from * perRow <= i <= to * perRow`.
   */
  predicate InPreload(i: nat, from: nat, to: nat, perRow: nat)
  {
    FirstOfRow(from, perRow) <= i <= FirstOfRow(to, perRow)
  }

  /** Every visible index passes the in-range test of the other two passes as well. */
  lemma VisibleIsPreloaded(i: nat, start: nat, end: nat, total: nat, preloaded: nat, perRow: nat)
    requires start <= end <= total && start * perRow <= i < end * perRow
    ensures InPreload(i, start, end, perRow)
    ensures InPreload(i, PreloadFrom(start, preloaded), PreloadTo(end, preloaded, total), perRow)
  {
    MulLe(PreloadFrom(start, preloaded), start, perRow);
    MulLe(end, PreloadTo(end, preloaded, total), perRow);
    FirstOfRowIsProduct(start, perRow);
    FirstOfRowIsProduct(end, perRow);
    FirstOfRowIsProduct(PreloadFrom(start, preloaded), perRow);
    FirstOfRowIsProduct(PreloadTo(end, preloaded, total), perRow);
  }

  // ----- One entry -----

  /** Neither a picture nor a thread: `load` starts a thread. */
  predicate Idle(t: T.Thumb)
  {
    t.handle.None? && t.image.None?
  }

  /** An entry whose thread has just been started with result `spawned`. */
  function Started(spawned: Option<Loaded>): T.Thumb
  {
    T.Thumb(false, None, Some(Job(false, spawned)))
  }

  /** 1 for an entry whose thread still runs (`is_loading`), else 0. */
  function Busy(t: T.Thumb): nat
  {
    if t.handle.Some? && !t.handle.value.finished then 1 else 0
  }

  /** An entry out of range: `unload_delayed`, then `unload`. */
  function Unloaded(t: T.Thumb): T.Thumb
  {
    if t.shouldUnload && t.handle.Some? && t.handle.value.finished then T.Thumb(false, None, None)
    else if t.handle.Some? then t.(shouldUnload := true)
    else t.(image := None)
  }

  /**
   * Unloading never shows a late result: afterwards an entry either holds
   * nothing, or keeps its thread marked for unloading; a running thread is
   * never dropped, so the loading count does not change.
   */
  lemma UnloadedDefers(t: T.Thumb)
    ensures Unloaded(t).handle.None? ==> Unloaded(t).image.None?
    ensures Unloaded(t).handle.Some? ==> Unloaded(t).shouldUnload && Unloaded(t).handle == t.handle && Unloaded(t).image == t.image
    ensures Busy(t) == 1 ==> Unloaded(t).handle == t.handle
    ensures Busy(Unloaded(t)) == Busy(t)
    ensures Unloaded(Unloaded(t)) == Unloaded(t) || (t.handle.Some? && t.handle.value.finished)
  {
  }

  /** One visit of an index, as `load_unload_image` performs it: the new entries and counter. */
  datatype Visit = Visit(index: nat, inRange: bool)

  function Apply(ts: seq<T.Thumb>, loading: nat, v: Visit, cap: nat, spawned: Option<Loaded>): (seq<T.Thumb>, nat)
  {
    if v.index >= |ts| then (ts, loading)
    else if !v.inRange then (ts[v.index := Unloaded(ts[v.index])], loading)
    else if loading == cap || !Idle(ts[v.index]) then (ts, loading)
    else (ts[v.index := Started(spawned)], loading + 1)
  }

  /** The visits of `order`, one after the other. */
  function Visits(ts: seq<T.Thumb>, loading: nat, order: seq<Visit>, cap: nat, spawned: nat -> Option<Loaded>): (r: (seq<T.Thumb>, nat))
    ensures |r.0| == |ts|
    decreases |order|
  {
    if order == [] then (ts, loading)
    else
      var prev := Visits(ts, loading, order[..|order| - 1], cap, spawned);
      var v := order[|order| - 1];
      Apply(prev.0, prev.1, v, cap, spawned(v.index))
  }

  lemma VisitsSnoc(ts: seq<T.Thumb>, loading: nat, order: seq<Visit>, v: Visit, cap: nat, spawned: nat -> Option<Loaded>)
    ensures Visits(ts, loading, order + [v], cap, spawned)
      == Apply(Visits(ts, loading, order, cap, spawned).0, Visits(ts, loading, order, cap, spawned).1, v, cap, spawned(v.index))
  {
    assert (order + [v])[..|order + [v]| - 1] == order;
  }

  /** Visiting `a + b` is visiting `a`, then `b`. */
  lemma {:induction false} VisitsConcat(ts: seq<T.Thumb>, loading: nat, a: seq<Visit>, b: seq<Visit>, cap: nat, spawned: nat -> Option<Loaded>)
    ensures Visits(ts, loading, a + b, cap, spawned)
      == Visits(Visits(ts, loading, a, cap, spawned).0, Visits(ts, loading, a, cap, spawned).1, b, cap, spawned)
    decreases |b|
  {
    var mid := Visits(ts, loading, a, cap, spawned);
    if b == [] {
      assert a + b == a;
    } else {
      var b' := b[..|b| - 1];
      var v := b[|b| - 1];
      assert b == b' + [v];
      assert a + b == (a + b') + [v];
      VisitsConcat(ts, loading, a, b', cap, spawned);
      VisitsSnoc(ts, loading, a + b', v, cap, spawned);
      VisitsSnoc(mid.0, mid.1, b', v, cap, spawned);
    }
  }

  // ----- The loading counter -----

  /** The number of entries whose thread still runs: the count a frame starts from. */
  function LoadingCount(ts: seq<T.Thumb>): (r: nat)
    ensures r <= |ts|
  {
    if ts == [] then 0 else Busy(ts[0]) + LoadingCount(ts[1..])
  }

  lemma {:induction false} LoadingCountUpdate(ts: seq<T.Thumb>, j: nat, t: T.Thumb)
    requires j < |ts|
    ensures LoadingCount(ts[j := t]) + Busy(ts[j]) == LoadingCount(ts) + Busy(t)
    decreases |ts|
  {
    if j > 0 {
      assert ts[j := t][1..] == ts[1..][j - 1 := t];
      LoadingCountUpdate(ts[1..], j - 1, t);
    } else {
      assert ts[j := t][1..] == ts[1..];
    }
  }

  /** A visit moves the counter exactly as it moves the number of running threads. */
  lemma ApplyCount(ts: seq<T.Thumb>, loading: nat, v: Visit, cap: nat, spawned: Option<Loaded>)
    ensures Apply(ts, loading, v, cap, spawned).1 + LoadingCount(ts)
      == loading + LoadingCount(Apply(ts, loading, v, cap, spawned).0)
  {
    if v.index < |ts| {
      if !v.inRange {
        LoadingCountUpdate(ts, v.index, Unloaded(ts[v.index]));
      } else if loading != cap && Idle(ts[v.index]) {
        LoadingCountUpdate(ts, v.index, Started(spawned));
      }
    }
  }

  /**
   * The counter of a frame that starts from the number of loading entries
   * equals, after every visit, the number of loading entries.
   */
  lemma {:induction false} CounterTracksLoading(ts: seq<T.Thumb>, loading: nat, order: seq<Visit>, cap: nat, spawned: nat -> Option<Loaded>)
    ensures Visits(ts, loading, order, cap, spawned).1 + LoadingCount(ts)
      == loading + LoadingCount(Visits(ts, loading, order, cap, spawned).0)
    decreases |order|
  {
    if order != [] {
      var prev := Visits(ts, loading, order[..|order| - 1], cap, spawned);
      var v := order[|order| - 1];
      CounterTracksLoading(ts, loading, order[..|order| - 1], cap, spawned);
      ApplyCount(prev.0, prev.1, v, cap, spawned(v.index));
    }
  }

  /** A counter at or below the cap stays at or below it, and never decreases. */
  lemma {:induction false} CounterCapped(ts: seq<T.Thumb>, loading: nat, order: seq<Visit>, cap: nat, spawned: nat -> Option<Loaded>)
    ensures loading <= Visits(ts, loading, order, cap, spawned).1
    ensures loading <= cap ==> Visits(ts, loading, order, cap, spawned).1 <= cap
    decreases |order|
  {
    if order != [] {
      CounterCapped(ts, loading, order[..|order| - 1], cap, spawned);
    }
  }

  // ----- Each entry of a frame -----

  /** No index is visited twice. */
  predicate Once(order: seq<Visit>)
  {
    forall p, q :: 0 <= p < q < |order| ==> order[p].index != order[q].index
  }

  /**
   * What one visit does to an entry: out of range it is unloaded; in range
   * it is left alone or, when idle, its thread is started.
   */
  predicate Effect(t0: T.Thumb, t1: T.Thumb, inRange: bool, spawned: Option<Loaded>)
  {
    if !inRange then t1 == Unloaded(t0)
    else t1 == t0 || (Idle(t0) && t1 == Started(spawned))
  }

  /**
   * Over an order that visits each index at most once, an unvisited entry is
   * unchanged and a visited one shows the effect of its visit; and when the
   * counter ends away from the cap, no load was refused, so every idle entry
   * in range was started.
   */
  lemma {:induction false} VisitsEntry(ts: seq<T.Thumb>, loading: nat, order: seq<Visit>, cap: nat, spawned: nat -> Option<Loaded>, j: nat)
    requires Once(order) && j < |ts|
    ensures (forall p :: 0 <= p < |order| ==> order[p].index != j) ==> Visits(ts, loading, order, cap, spawned).0[j] == ts[j]
    ensures forall p :: 0 <= p < |order| && order[p].index == j ==>
      Effect(ts[j], Visits(ts, loading, order, cap, spawned).0[j], order[p].inRange, spawned(j))
    ensures var r := Visits(ts, loading, order, cap, spawned);
      forall p :: 0 <= p < |order| && order[p].index == j && order[p].inRange && Idle(ts[j]) && r.1 != cap ==>
        r.0[j] == Started(spawned(j))
    decreases |order|
  {
    if order != [] {
      var init := order[..|order| - 1];
      var v := order[|order| - 1];
      var prev := Visits(ts, loading, init, cap, spawned);
      assert Once(init);
      VisitsEntry(ts, loading, init, cap, spawned, j);
      if v.index == j {
        assert forall p :: 0 <= p < |init| ==> init[p].index != j;
      }
    }
  }

  // ----- The visiting order of a frame -----

  /** The indices `lo..hi` in order, each with the in-range test for rows `from..=to`. */
  function IndexVisits(lo: nat, hi: nat, from: nat, to: nat, perRow: nat): (r: seq<Visit>)
    requires lo <= hi
    ensures |r| == hi - lo
  {
    seq(hi - lo, k requires 0 <= k < hi - lo => Visit(lo + k, InPreload(lo + k, from, to, perRow)))
  }

  lemma IndexVisitsStep(lo: nat, hi: nat, from: nat, to: nat, perRow: nat)
    requires lo <= hi
    ensures IndexVisits(lo, hi + 1, from, to, perRow)
      == IndexVisits(lo, hi, from, to, perRow) + [Visit(hi, InPreload(hi, from, to, perRow))]
  {
  }

  /** Visiting one more index applies that index's visit to the state reached so far. */
  lemma VisitsOneMore(ts: seq<T.Thumb>, loading: nat, lo: nat, i: nat, from: nat, to: nat, perRow: nat,
                      cap: nat, spawned: nat -> Option<Loaded>, prev: (seq<T.Thumb>, nat))
    requires lo <= i && prev == Visits(ts, loading, IndexVisits(lo, i, from, to, perRow), cap, spawned)
    ensures Visits(ts, loading, IndexVisits(lo, i + 1, from, to, perRow), cap, spawned)
      == Apply(prev.0, prev.1, Visit(i, InPreload(i, from, to, perRow)), cap, spawned(i))
  {
    IndexVisitsStep(lo, i, from, to, perRow);
    VisitsSnoc(ts, loading, IndexVisits(lo, i, from, to, perRow), Visit(i, InPreload(i, from, to, perRow)), cap, spawned);
  }

  /** The three parts of a frame, in order. */
  lemma FrameVisitsParts(start: nat, end: nat, total: nat, perRow: nat, preloaded: nat)
    requires start <= end <= total
    ensures start * perRow <= end * perRow <= total * perRow
    ensures FrameVisits(start, end, total, perRow, preloaded)
      == IndexVisits(start * perRow, end * perRow, start, end, perRow)
      + IndexVisits(end * perRow, total * perRow, PreloadFrom(start, preloaded), PreloadTo(end, preloaded, total), perRow)
      + IndexVisits(0, start * perRow, PreloadFrom(start, preloaded), PreloadTo(end, preloaded, total), perRow)
  {
    MulLe(start, end, perRow);
    MulLe(end, total, perRow);
  }

  /**
   * A frame: rows `start..end` against the visible range, then `end..total`
   * and `0..start` against the preloaded range.
   */
  function FrameVisits(start: nat, end: nat, total: nat, perRow: nat, preloaded: nat): seq<Visit>
    requires start <= end <= total
  {
    MulLe(start, end, perRow);
    MulLe(end, total, perRow);
    var from := PreloadFrom(start, preloaded);
    var to := PreloadTo(end, preloaded, total);
    IndexVisits(start * perRow, end * perRow, start, end, perRow)
    + IndexVisits(end * perRow, total * perRow, from, to, perRow)
    + IndexVisits(0, start * perRow, from, to, perRow)
  }

  /** The position of index `i` in a frame's visiting order. */
  function FramePosition(i: nat, sp: nat, ep: nat, tp: nat): nat
    requires sp <= ep <= tp
  {
    if sp <= i < ep then i - sp
    else if ep <= i then (ep - sp) + (i - ep)
    else (ep - sp) + (tp - ep) + i
  }

  /**
   * A frame visits every index below `total * perRow` exactly once, and
   * each one against the preloaded range (visible indices lie inside it).
   */
  lemma FrameVisitsOnce(start: nat, end: nat, total: nat, perRow: nat, preloaded: nat)
    requires start <= end <= total
    ensures Once(FrameVisits(start, end, total, perRow, preloaded))
    ensures |FrameVisits(start, end, total, perRow, preloaded)| == total * perRow
    ensures forall i :: 0 <= i < total * perRow ==>
      var p := FramePosition(i, start * perRow, end * perRow, total * perRow);
      p < total * perRow && FrameVisits(start, end, total, perRow, preloaded)[p]
        == Visit(i, InPreload(i, PreloadFrom(start, preloaded), PreloadTo(end, preloaded, total), perRow))
  {
    var sp, ep, tp := start * perRow, end * perRow, total * perRow;
    MulLe(start, end, perRow);
    MulLe(end, total, perRow);
    var from := PreloadFrom(start, preloaded);
    var to := PreloadTo(end, preloaded, total);
    var a := IndexVisits(sp, ep, start, end, perRow);
    var b := IndexVisits(ep, tp, from, to, perRow);
    var c := IndexVisits(0, sp, from, to, perRow);
    var f := FrameVisits(start, end, total, perRow, preloaded);
    assert f == a + b + c;
    forall p | 0 <= p < |f|
      ensures f[p].index == (if p < |a| then sp + p else if p < |a| + |b| then ep + (p - |a|) else p - |a| - |b|)
    {
    }
    forall i | 0 <= i < tp
      ensures FramePosition(i, sp, ep, tp) < tp && f[FramePosition(i, sp, ep, tp)] == Visit(i, InPreload(i, from, to, perRow))
    {
      if sp <= i < ep {
        VisibleIsPreloaded(i, start, end, total, preloaded, perRow);
      }
    }
  }

  /** The state a frame leaves: the entries and the counter, started from the number of loading entries. */
  function FrameResult(ts: seq<T.Thumb>, start: nat, end: nat, total: nat, config: Config, perRow: nat, spawned: nat -> Option<Loaded>): (seq<T.Thumb>, nat)
    requires start <= end <= total
  {
    Visits(ts, LoadingCount(ts), FrameVisits(start, end, total, perRow, config.preloadedRows), config.simultaneousLoad, spawned)
  }

  /** A frame is the visible rows, then the rows below them, then the rows above them. */
  lemma FrameInThreeParts(ts: seq<T.Thumb>, start: nat, end: nat, total: nat, config: Config, perRow: nat,
                          spawned: nat -> Option<Loaded>)
    requires start <= end <= total
    ensures start * perRow <= end * perRow <= total * perRow
    ensures var cap := config.simultaneousLoad;
      var from := PreloadFrom(start, config.preloadedRows);
      var to := PreloadTo(end, config.preloadedRows, total);
      var x := Visits(ts, LoadingCount(ts), IndexVisits(start * perRow, end * perRow, start, end, perRow), cap, spawned);
      var y := Visits(x.0, x.1, IndexVisits(end * perRow, total * perRow, from, to, perRow), cap, spawned);
      FrameResult(ts, start, end, total, config, perRow, spawned)
        == Visits(y.0, y.1, IndexVisits(0, start * perRow, from, to, perRow), cap, spawned)
  {
    var cap := config.simultaneousLoad;
    var from := PreloadFrom(start, config.preloadedRows);
    var to := PreloadTo(end, config.preloadedRows, total);
    FrameVisitsParts(start, end, total, perRow, config.preloadedRows);
    var a := IndexVisits(start * perRow, end * perRow, start, end, perRow);
    var b := IndexVisits(end * perRow, total * perRow, from, to, perRow);
    var c := IndexVisits(0, start * perRow, from, to, perRow);
    VisitsConcat(ts, LoadingCount(ts), a, b, cap, spawned);
    VisitsConcat(ts, LoadingCount(ts), a + b, c, cap, spawned);
  }

  /**
   * After a frame over rows that hold every entry: the counter equals the
   * number of loading entries and stays within the cap when it started
   * there; an entry inside the preloaded rows is kept or started, one
   * outside them is unloaded; and unless the cap was reached, every idle
   * entry in range was started.
   */
  lemma FrameEffect(ts: seq<T.Thumb>, start: nat, end: nat, total: nat, config: Config, perRow: nat, spawned: nat -> Option<Loaded>)
    requires start <= end <= total && |ts| <= total * perRow
    ensures var r := FrameResult(ts, start, end, total, config, perRow, spawned);
      r.1 == LoadingCount(r.0)
      && (LoadingCount(ts) <= config.simultaneousLoad ==> r.1 <= config.simultaneousLoad)
    ensures var r := FrameResult(ts, start, end, total, config, perRow, spawned);
      var from := PreloadFrom(start, config.preloadedRows);
      var to := PreloadTo(end, config.preloadedRows, total);
      forall j :: 0 <= j < |ts| ==>
        Effect(ts[j], r.0[j], InPreload(j, from, to, perRow), spawned(j))
        && (InPreload(j, from, to, perRow) && Idle(ts[j]) && r.1 != config.simultaneousLoad ==> r.0[j] == Started(spawned(j)))
  {
    var order := FrameVisits(start, end, total, perRow, config.preloadedRows);
    var cap := config.simultaneousLoad;
    CounterTracksLoading(ts, LoadingCount(ts), order, cap, spawned);
    CounterCapped(ts, LoadingCount(ts), order, cap, spawned);
    FrameVisitsOnce(start, end, total, perRow, config.preloadedRows);
    forall j | 0 <= j < |ts|
      ensures var r := Visits(ts, LoadingCount(ts), order, cap, spawned);
        var inRange := InPreload(j, PreloadFrom(start, config.preloadedRows), PreloadTo(end, config.preloadedRows, total), perRow);
        Effect(ts[j], r.0[j], inRange, spawned(j))
        && (inRange && Idle(ts[j]) && r.1 != cap ==> r.0[j] == Started(spawned(j)))
    {
      VisitsEntry(ts, LoadingCount(ts), order, cap, spawned, j);
      var p := FramePosition(j, start * perRow, end * perRow, total * perRow);
      assert order[p].index == j;
    }
  }

  /** `images_per_row` after one input step: up from at most 15, down from other than 1. */
  function NextPerRow(perRow: nat, more: bool, less: bool): (r: nat)
    requires perRow >= 1
    ensures r >= 1
    ensures perRow <= 16 ==> r <= 16
    ensures r <= perRow + 1 && perRow <= r + 1
  {
    var up := if more && perRow <= 15 then perRow + 1 else perRow;
    if less && up != 1 then up - 1 else up
  }

  /** The entries' states, in order. */
  ghost function StatesOf(xs: seq<T.ThumbnailImage>): (r: seq<T.Thumb>)
    reads set x | x in xs
    ensures |r| == |xs| && forall i :: 0 <= i < |xs| ==> r[i] == xs[i].State()
  {
    if xs == [] then [] else StatesOf(xs[..|xs| - 1]) + [xs[|xs| - 1].State()]
  }

  /** The entries' paths, in order. */
  function PathsOf(xs: seq<T.ThumbnailImage>): (r: seq<Path>)
    ensures |r| == |xs| && forall i :: 0 <= i < |xs| ==> r[i] == xs[i].path
  {
    if xs == [] then [] else PathsOf(xs[..|xs| - 1]) + [xs[|xs| - 1].path]
  }

  class MultiGallery {
    var imgs: seq<T.ThumbnailImage>
    const config: Config
    const outputProfile: string
    var totalRows: nat
    var imagesPerRow: nat
    var resetScroll: bool

    /** Distinct entries, at least one picture per row, and the row count kept up to date. */
    ghost predicate Valid()
      reads this
    {
      (forall i, j :: 0 <= i < j < |imgs| ==> imgs[i] != imgs[j])
      && imagesPerRow >= 1 && totalRows == CeilDiv(|imgs|, imagesPerRow)
    }

    /** `new`: one idle entry per path and the configured pictures per row. */
    constructor (paths: seq<Path>, config: Config, outputProfile: string)
      requires config.imagesPerRow >= 1
      ensures Valid() && imagesPerRow == config.imagesPerRow && !resetScroll
      ensures this.config == config && this.outputProfile == outputProfile
      ensures PathsOf(imgs) == paths && StatesOf(imgs) == seq(|paths|, _ => T.Thumb(false, None, None))
      ensures forall i :: 0 <= i < |imgs| ==> fresh(imgs[i])
    {
      var entries := T.FromPaths(paths, outputProfile);
      imgs := entries;
      this.config := config;
      this.outputProfile := outputProfile;
      imagesPerRow := config.imagesPerRow;
      totalRows := CeilDiv(|entries|, config.imagesPerRow);
      resetScroll := false;
    }

    /** `set_total_rows`: the rows needed for all entries, rounded up. */
    method SetTotalRows()
      requires imagesPerRow >= 1
      modifies this
      ensures imgs == old(imgs) && imagesPerRow == old(imagesPerRow) && resetScroll == old(resetScroll)
      ensures totalRows == CeilDiv(|imgs|, imagesPerRow)
    {
      totalRows := CeilDiv(|imgs|, imagesPerRow);
    }

    /** `set_images`: fresh idle entries for `paths`, the scroll reset, the rows recounted. */
    method SetImages(paths: seq<Path>)
      requires Valid()
      modifies this
      ensures Valid() && resetScroll && imagesPerRow == old(imagesPerRow)
      ensures PathsOf(imgs) == paths && StatesOf(imgs) == seq(|paths|, _ => T.Thumb(false, None, None))
      ensures forall i :: 0 <= i < |imgs| ==> fresh(imgs[i])
    {
      imgs := T.FromPaths(paths, outputProfile);
      resetScroll := true;
      SetTotalRows();
    }

    /** `handle_input`: one more or one fewer picture per row, within 1..16, and the rows recounted. */
    method HandleInput(muted: bool, more: bool, less: bool)
      requires Valid()
      modifies this
      ensures Valid() && imgs == old(imgs) && resetScroll == old(resetScroll)
      ensures imagesPerRow == if muted then old(imagesPerRow) else NextPerRow(old(imagesPerRow), more, less)
    {
      if muted {
        return;
      }
      if more && imagesPerRow <= 15 {
        imagesPerRow := imagesPerRow + 1;
        SetTotalRows();
      }
      if less && imagesPerRow != 1 {
        imagesPerRow := imagesPerRow - 1;
        SetTotalRows();
      }
    }

    /** `pop`: removes the first entry with `path`, if any, and recounts the rows. */
    method Pop(path: Path)
      requires Valid()
      modifies this
      ensures Valid() && imagesPerRow == old(imagesPerRow)
      ensures match Position(PathsOf(old(imgs)), path)
        case None => imgs == old(imgs)
        case Some(pos) => imgs == RemoveAt(old(imgs), pos)
    {
      var pos := Position(PathsOf(imgs), path);
      if pos.Some? {
        imgs := RemoveAt(imgs, pos.value);
        SetTotalRows();
      }
    }

    /** `reload_at`: the first entry with `path` is unloaded (deferred while its thread runs). */
    method ReloadAt(path: Path)
      requires Valid()
      modifies imgs
      ensures match Position(PathsOf(imgs), path)
        case None => StatesOf(imgs) == old(StatesOf(imgs))
        case Some(pos) => StatesOf(imgs) == old(StatesOf(imgs))[pos := Unloaded(old(imgs[pos].State()))]
    {
      var pos := Position(PathsOf(imgs), path);
      if pos.Some? {
        ghost var s0 := StatesOf(imgs);
        var img := imgs[pos.value];
        ghost var t0 := img.State();
        img.UnloadDelayed();
        img.Unload();
        assert img.State() == Unloaded(t0);
        forall k | 0 <= k < |imgs| && k != pos.value
          ensures imgs[k].State() == s0[k]
        {
          assert imgs[k] != img;
        }
        assert StatesOf(imgs) == s0[pos.value := img.State()];
      }
    }

    /** `load_unload_image`: one visit of index `i`, with the counter `loading`. */
    method LoadUnloadImage(i: nat, from: nat, to: nat, loading: nat, spawned: Option<Loaded>) returns (loading': nat)
      requires Valid()
      modifies imgs
      ensures (StatesOf(imgs), loading')
        == Apply(old(StatesOf(imgs)), loading, Visit(i, InPreload(i, from, to, imagesPerRow)), config.simultaneousLoad, spawned)
    {
      ghost var s0 := StatesOf(imgs);
      ghost var inRange := InPreload(i, from, to, imagesPerRow);
      ghost var expected := Apply(s0, loading, Visit(i, inRange), config.simultaneousLoad, spawned);
      loading' := loading;
      if i >= |imgs| {
        return;
      }
      var img := imgs[i];
      ghost var t0 := img.State();
      FirstOfRowIsProduct(from, imagesPerRow);
      FirstOfRowIsProduct(to, imagesPerRow);
      if i >= from * imagesPerRow && i <= to * imagesPerRow {
        if loading != config.simultaneousLoad {
          var started := img.Load(spawned);
          if started {
            loading' := loading + 1;
            assert Idle(t0) && img.State() == Started(spawned);
          } else {
            assert !Idle(t0) && img.State() == t0;
            assert s0[i := img.State()] == s0;
          }
        } else {
          assert img.State() == t0;
          assert s0[i := img.State()] == s0;
        }
        assert inRange;
        assert expected == (s0[i := img.State()], loading');
      } else {
        img.UnloadDelayed();
        img.Unload();
        assert img.State() == Unloaded(t0);
        assert expected == (s0[i := img.State()], loading');
      }
      forall k | 0 <= k < |imgs| && k != i
        ensures imgs[k].State() == s0[k]
      {
        assert imgs[k] != img;
      }
      assert StatesOf(imgs) == s0[i := img.State()];
    }

    /** The rows `r0..r1`, row by row, each against rows `from..=to`. */
    method VisitRows(r0: nat, r1: nat, from: nat, to: nat, loading0: nat, spawned: nat -> Option<Loaded>) returns (loading: nat)
      requires Valid() && r0 <= r1
      modifies imgs
      ensures r0 * imagesPerRow <= r1 * imagesPerRow
      ensures (StatesOf(imgs), loading) == Visits(old(StatesOf(imgs)), loading0,
        IndexVisits(r0 * imagesPerRow, r1 * imagesPerRow, from, to, imagesPerRow), config.simultaneousLoad, spawned)
    {
      ghost var s0 := StatesOf(imgs);
      var per := imagesPerRow;
      MulLe(r0, r1, per);
      loading := loading0;
      ghost var lo: nat := r0 * per;
      var r := r0;
      var rowStart: nat := r0 * per;
      ghost var acc := (s0, loading0);
      while r < r1
        invariant r0 <= r <= r1 && lo <= rowStart && rowStart == r * per
        invariant acc == Visits(s0, loading0, IndexVisits(lo, rowStart, from, to, per), config.simultaneousLoad, spawned)
        invariant StatesOf(imgs) == acc.0 && loading == acc.1
      {
        var rowEnd := rowStart + per;
        loading := VisitRow(s0, loading0, lo, rowStart, rowEnd, from, to, loading, spawned);
        acc := (StatesOf(imgs), loading);
        var next := r + 1;
        MulNext(r, next, per);
        r := next;
        rowStart := rowEnd;
      }
    }

    /**
     * One row: the pictures `rowStart..rowEnd` in order, each against rows
     * `from..=to`, continuing the visits of `lo..rowStart` from `s0`.
     */
    method VisitRow(ghost s0: seq<T.Thumb>, ghost loading0: nat, ghost lo: nat, rowStart: nat, rowEnd: nat,
                    from: nat, to: nat, loading: nat, spawned: nat -> Option<Loaded>) returns (loading': nat)
      requires Valid() && lo <= rowStart <= rowEnd
      requires (StatesOf(imgs), loading)
        == Visits(s0, loading0, IndexVisits(lo, rowStart, from, to, imagesPerRow), config.simultaneousLoad, spawned)
      modifies imgs
      ensures (StatesOf(imgs), loading')
        == Visits(s0, loading0, IndexVisits(lo, rowEnd, from, to, imagesPerRow), config.simultaneousLoad, spawned)
    {
      var cap := config.simultaneousLoad;
      loading' := loading;
      var i := rowStart;
      ghost var acc := (StatesOf(imgs), loading');
      while i < rowEnd
        invariant rowStart <= i <= rowEnd
        invariant acc == Visits(s0, loading0, IndexVisits(lo, i, from, to, imagesPerRow), cap, spawned)
        invariant StatesOf(imgs) == acc.0 && loading' == acc.1
      {
        VisitsOneMore(s0, loading0, lo, i, from, to, imagesPerRow, cap, spawned, acc);
        loading' := LoadUnloadImage(i, from, to, loading', spawned(i));
        acc := Apply(acc.0, acc.1, Visit(i, InPreload(i, from, to, imagesPerRow)), cap, spawned(i));
        i := i + 1;
      }
    }

    /** The loading count at the start of a frame: the entries for which `is_loading` holds. */
    method CountLoading() returns (n: nat)
      ensures n == LoadingCount(StatesOf(imgs))
    {
      n := 0;
      var k := |imgs|;
      ghost var ss := StatesOf(imgs);
      while k > 0
        invariant 0 <= k <= |imgs|
        invariant n == LoadingCount(ss[k..])
      {
        k := k - 1;
        assert ss[k..][1..] == ss[k + 1..];
        if imgs[k].IsLoading() {
          n := n + 1;
        }
      }
    }

    /**
     * The preload part of a frame (`ui`) over the visible rows
     * `start..end`; `spawned` gives the result a started thread will return
     * for each index. The result is `FrameResult`, of which `FrameEffect`
     * proves the counter and per-entry properties.
     */
    method Frame(start: nat, end: nat, spawned: nat -> Option<Loaded>) returns (loading: nat)
      requires Valid() && start <= end <= totalRows
      modifies imgs
      ensures (StatesOf(imgs), loading) == FrameResult(old(StatesOf(imgs)), start, end, totalRows, config, imagesPerRow, spawned)
    {
      ghost var s0 := StatesOf(imgs);
      var cap := config.simultaneousLoad;
      var preloaded := config.preloadedRows;
      var loading0 := CountLoading();
      var from := PreloadFrom(start, preloaded);
      var to := PreloadTo(end, preloaded, totalRows);
      var l1 := VisitRows(start, end, start, end, loading0, spawned);
      var l2 := VisitRows(end, totalRows, from, to, l1, spawned);
      loading := VisitRows(0, start, from, to, l2, spawned);
      FrameInThreeParts(s0, start, end, totalRows, config, imagesPerRow, spawned);
    }
  }
}
