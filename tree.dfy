/**
 * The directory tree, kept flat: a list of entries, each with its depth, in
 * display order, where an expanded directory is followed by its children.
 * Expanding inserts the children read from disk right after the entry;
 * collapsing removes the run of deeper entries that follows it.
 */
module Tree {
  import opened Wrappers
  import opened Text
  import opened Paths
  import Seqs
  import Sorting

  datatype TreeEntry = TreeEntry(depth: nat, path: Path, name: string, expanded: bool, imgCount: nat)

  /**
   * One item of a directory listing as the file system reports it: whether
   * it and its metadata could be read, its name, whether it is a directory,
   * whether it counts as hidden, and how many pictures it holds.
   */
  datatype DirItem = DirItem(readable: bool, name: string, isDir: bool, hidden: bool, imgCount: nat)

  // ---------------------------------------------------------------- parents

  /** The ancestors of a path, nearest first. */
  function ParentsUpward(p: Path): seq<Path>
    decreases |p|
  {
    match Parent(p)
    case None => []
    case Some(q) =>
      assert |q| < |p|;
      [q] + ParentsUpward(q)
  }

  /** The ancestors of a path, root first. */
  function AllParents(p: Path): seq<Path>
  {
    Seqs.Reverse(ParentsUpward(p))
  }

  /** Where the proper ancestors of a well-formed path start: after the root, if any. */
  function FirstAncestorLength(p: Path): nat
  {
    if |p| > 0 && p[0].Root? then 1 else 0
  }

  lemma {:induction false} ParentsUpwardArePrefixes(p: Path)
    requires WellFormed(p)
    ensures |ParentsUpward(p)| == |p| - FirstAncestorLength(p)
    ensures forall k :: 0 <= k < |ParentsUpward(p)| ==> ParentsUpward(p)[k] == p[..|p| - 1 - k]
    decreases |p|
  {
    if |p| > 0 && !p[|p| - 1].Root? {
      var q := p[..|p| - 1];
      assert WellFormed(q) by {
        forall i | 0 <= i < |q| ensures (q[i].Root? ==> i == 0) && (q[i].Name? ==> q[i].name != [] && '/' !in q[i].name) {
          assert q[i] == p[i];
        }
      }
      ParentsUpwardArePrefixes(q);
      assert |q| > 0 ==> q[0] == p[0];
      forall k | 1 <= k < |ParentsUpward(p)| ensures ParentsUpward(p)[k] == p[..|p| - 1 - k] {
        assert ParentsUpward(p)[k] == ParentsUpward(q)[k - 1];
        assert q[..|q| - 1 - (k - 1)] == p[..|p| - 1 - k];
      }
    } else if |p| > 0 {
      assert p[|p| - 1].Root? ==> |p| - 1 == 0;
    }
  }

  /**
   * `get_all_parents` yields every proper ancestor, root first: the
   * prefixes of the path from the root (or the empty path, for a relative
   * one) up to the path without its last component.
   */
  lemma AllParentsArePrefixes(p: Path)
    requires WellFormed(p)
    ensures |AllParents(p)| == |p| - FirstAncestorLength(p)
    ensures forall k :: 0 <= k < |AllParents(p)| ==> AllParents(p)[k] == p[..FirstAncestorLength(p) + k]
    ensures forall k :: 0 <= k < |AllParents(p)| ==> |AllParents(p)[k]| < |p|
  {
    ParentsUpwardArePrefixes(p);
    var up := ParentsUpward(p);
    forall k | 0 <= k < |AllParents(p)| ensures AllParents(p)[k] == p[..FirstAncestorLength(p) + k] {
      assert AllParents(p)[k] == up[|up| - 1 - k];
    }
  }

  /** `get_all_parents`: climbs through the parents, then reverses the list. */
  method GetAllParents(path: Path) returns (parents: seq<Path>)
    ensures parents == AllParents(path)
  {
    parents := [];
    var cur := path;
    while true
      invariant parents + ParentsUpward(cur) == ParentsUpward(path)
      decreases |cur|
    {
      match Parent(cur) {
        case None =>
          assert parents == ParentsUpward(path);
          parents := Seqs.Reverse(parents);
          return;
        case Some(q) =>
          assert ParentsUpward(cur) == [q] + ParentsUpward(q);
          assert parents + ParentsUpward(cur) == (parents + [q]) + ParentsUpward(q);
          parents := parents + [q];
          cur := q;
      }
    }
  }

  // ---------------------------------------------------------------- children

  /** Items that become entries: readable directories that are not hidden. */
  predicate Shown(it: DirItem)
  {
    it.readable && it.isDir && !it.hidden
  }

  /** The entry for a listed directory; it is expanded iff it is the given parent. */
  function EntryOf(dir: Path, depth: nat, parent: Option<Path>, it: DirItem): TreeEntry
  {
    var p := Child(dir, it.name);
    TreeEntry(depth, p, it.name, parent == Some(p), it.imgCount)
  }

  /** The listing filtered to shown items and turned into entries, in listing order. */
  function Kept(dir: Path, depth: nat, parent: Option<Path>, items: seq<DirItem>): (r: seq<TreeEntry>)
    ensures |r| <= |items|
    ensures forall e :: e in r <==> exists it :: it in items && Shown(it) && e == EntryOf(dir, depth, parent, it)
    decreases |items|
  {
    if items == [] then []
    else
      var rest := Kept(dir, depth, parent, items[1..]);
      assert forall it :: it in items <==> it == items[0] || it in items[1..];
      if Shown(items[0]) then [EntryOf(dir, depth, parent, items[0])] + rest else rest
  }

  /** Entries sort by their lowercased name. */
  function NameKey(e: TreeEntry): seq<int>
  {
    Codes(Lower(e.name))
  }

  /**
   * `get_entries_from_path`: nothing for an unreadable directory; otherwise
   * the shown items as entries at `depth`, sorted by lowercased name, the
   * given parent expanded.
   */
  function GetEntriesFromPath(dir: Path, depth: nat, parent: Option<Path>, listing: Option<seq<DirItem>>): (r: seq<TreeEntry>)
    ensures listing.None? ==> r == []
    ensures Sorting.SortedBy(r, NameKey)
    ensures listing.Some? ==> multiset(r) == multiset(Kept(dir, depth, parent, listing.value))
    ensures forall e :: e in r ==> e.depth == depth && Parent(e.path) == Some(dir) && (e.expanded <==> parent == Some(e.path))
  {
    match listing
    case None => []
    case Some(items) =>
      var r := Sorting.InsertionSort(Kept(dir, depth, parent, items), NameKey);
      forall e | e in r ensures e.depth == depth && Parent(e.path) == Some(dir) && (e.expanded <==> parent == Some(e.path)) {
        assert e in multiset(r);
        assert e in Kept(dir, depth, parent, items);
        ChildParts(dir, e.name);
      }
      r
  }

  // ---------------------------------------------------------------- closing

  /** The end of the run of entries deeper than `d` that starts at `j`. */
  function RunEnd(es: seq<TreeEntry>, j: nat, d: nat): (r: nat)
    requires j <= |es|
    ensures j <= r <= |es|
    ensures forall k :: j <= k < r ==> es[k].depth > d
    ensures r < |es| ==> es[r].depth <= d
    decreases |es| - j
  {
    if j == |es| || es[j].depth <= d then j else RunEnd(es, j + 1, d)
  }

  /**
   * The entries after collapsing entry `i`: unchanged if it is not
   * expanded; otherwise it is marked collapsed and the run of deeper
   * entries after it is removed.
   */
  function ClosedEntries(es: seq<TreeEntry>, i: nat): (r: seq<TreeEntry>)
    requires i < |es|
    ensures !es[i].expanded ==> r == es
    ensures es[i].expanded ==>
      (i < |r| <= |es| && r[..i] == es[..i] && r[i] == es[i].(expanded := false)
       && (forall k :: i < k < i + 1 + |es| - |r| ==> es[k].depth > es[i].depth)
       && r[i + 1..] == es[i + 1 + |es| - |r|..]
       && (i + 1 < |r| ==> r[i + 1].depth <= es[i].depth))
  {
    if !es[i].expanded then es
    else es[..i] + [es[i].(expanded := false)] + es[RunEnd(es, i + 1, es[i].depth)..]
  }

  /**
   * The selection after collapsing entry `i`, as the loop of `close_at` is
   * written: it moves to `i` when it was on a removed entry or on the first
   * entry after them, and otherwise keeps its number.
   */
  function ClosedSelection(es: seq<TreeEntry>, i: nat, sel: nat): (r: nat)
    requires i < |es|
    ensures r <= sel && (r == sel || r == i)
  {
    if !es[i].expanded then sel
    else if i < sel <= RunEnd(es, i + 1, es[i].depth) then i
    else sel
  }

  /** The loop of `close_at` as written stops only at an entry that is not deeper, so one must follow the run. */
  predicate CanClose(es: seq<TreeEntry>, i: nat): (r: bool)
    requires i < |es|
    ensures r <==> !es[i].expanded || exists k :: i < k < |es| && es[k].depth <= es[i].depth
  {
    var e := RunEnd(es, i + 1, es[i].depth);
    assert e < |es| ==> es[e].depth <= es[i].depth;
    !es[i].expanded || e < |es|
  }

  /**
   * Where the selection lands after `close_at` as written: before the
   * collapsed entry it stays on its entry; from the collapsed entry to the
   * first entry after the run it lands on the collapsed entry; further on it
   * keeps its number, so it lands `removed` entries later than the one
   * selected, or past the end.
   */
  lemma ClosedSelectionLands(es: seq<TreeEntry>, i: nat, sel: nat)
    requires i < |es| && sel < |es| && es[i].expanded
    ensures var e := RunEnd(es, i + 1, es[i].depth);
      var removed := e - i - 1;
      var r := ClosedSelection(es, i, sel);
      var closed := ClosedEntries(es, i);
      |closed| == |es| - removed
      && (sel < i ==> r == sel && closed[r] == es[sel])
      && (i <= sel <= e ==> r == i && closed[r] == es[i].(expanded := false))
      && (sel > e ==> r == sel && (sel < |closed| ==> closed[r] == es[sel + removed]))
  {
    var e := RunEnd(es, i + 1, es[i].depth);
    var removed := e - i - 1;
    ClosedByRun(es, i, removed);
    ClosedSelectionByRun(es, i, removed, sel);
    var closed := es[..i] + [es[i].(expanded := false)] + es[e..];
    assert ClosedEntries(es, i) == closed;
    assert |closed| == |es| - removed;
    if sel < i {
      assert closed[sel] == es[..i][sel] == es[sel];
    } else if sel <= e {
      assert closed[i] == es[i].(expanded := false);
    } else if sel < |closed| {
      assert closed[sel] == es[e..][sel - i - 1] == es[sel + removed];
    }
  }

  /**
   * A selection past the removed run keeps its number, so it points at a
   * later entry or past the end: here the last of four entries stays
   * selected as number 3 of a list of three.
   */
  lemma SelectionPastRunAsWritten(a: TreeEntry, b: TreeEntry, c: TreeEntry, d: TreeEntry)
    requires a.expanded && a.depth == 0 && b.depth == 1 && c.depth == 0 && d.depth == 0
    ensures ClosedSelection([a, b, c, d], 0, 3) == 3
    ensures |ClosedEntries([a, b, c, d], 0)| == 3
  {
    var es := [a, b, c, d];
    assert RunEnd(es, 1, 0) == 2 by {
      assert RunEnd(es, 2, 0) == 2;
    }
  }

  /**
   * The selection as the comment in `close_at` describes it: a removed
   * entry's selection moves to the collapsed entry, and any other selection
   * follows its entry to its new position.
   */
  function ClosedSelectionCorrected(es: seq<TreeEntry>, i: nat, sel: nat): nat
    requires i < |es|
  {
    if !es[i].expanded then sel
    else
      var e := RunEnd(es, i + 1, es[i].depth);
      if i < sel < e then i
      else if sel >= e then sel - (e - i - 1)
      else sel
  }

  /** Collapsing an expanded entry, in terms of the length of the run it removes. */
  lemma ClosedByRun(es: seq<TreeEntry>, i: nat, removed: nat)
    requires i < |es| && es[i].expanded && i + 1 + removed == RunEnd(es, i + 1, es[i].depth)
    ensures ClosedEntries(es, i) == es[..i] + [es[i].(expanded := false)] + es[i + 1 + removed..]
  {
  }

  /** Both selections after collapsing an expanded entry, in terms of the length of the run. */
  lemma ClosedSelectionByRun(es: seq<TreeEntry>, i: nat, removed: nat, sel: nat)
    requires i < |es| && es[i].expanded && i + 1 + removed == RunEnd(es, i + 1, es[i].depth)
    ensures ClosedSelection(es, i, sel) == if i < sel <= i + 1 + removed then i else sel
    ensures ClosedSelectionCorrected(es, i, sel) ==
      var t := if i < sel < i + 1 + removed then i else sel;
      if t >= i + 1 + removed then t - removed else t
  {
  }

  /** The corrected selection stays in range and stays on the same entry unless that entry was removed. */
  lemma ClosedSelectionCorrectedKeepsEntry(es: seq<TreeEntry>, i: nat, sel: nat)
    requires i < |es| && sel < |es|
    ensures var r := ClosedSelectionCorrected(es, i, sel);
      var closed := ClosedEntries(es, i);
      r < |closed|
      && (sel != i && r != i ==> closed[r] == es[sel])
      && (r == i ==> closed[r].path == es[i].path)
      && (es[i].expanded && r == i ==> i <= sel < RunEnd(es, i + 1, es[i].depth))
  {
    if es[i].expanded {
      var e := RunEnd(es, i + 1, es[i].depth);
      var removed := e - i - 1;
      ClosedByRun(es, i, removed);
      ClosedSelectionByRun(es, i, removed, sel);
      var closed := es[..i] + [es[i].(expanded := false)] + es[e..];
      assert ClosedEntries(es, i) == closed;
      assert |closed| == |es| - removed;
      if sel < i {
        assert ClosedSelectionCorrected(es, i, sel) == sel;
        assert closed[sel] == es[..i][sel] == es[sel];
      } else if sel == i {
        assert ClosedSelectionCorrected(es, i, sel) == i;
        assert closed[i] == es[i].(expanded := false);
      } else if sel < e {
        assert ClosedSelectionCorrected(es, i, sel) == i;
        assert closed[i] == es[i].(expanded := false);
      } else {
        var r := sel - removed;
        assert ClosedSelectionCorrected(es, i, sel) == r;
        assert closed[r] == es[e..][r - i - 1] == es[sel];
      }
    }
  }

  /**
   * The loop of `close_at` reads the entry after the run, so collapsing an
   * expanded entry whose descendants reach the end of the list reads past
   * it: here the last two entries.
   */
  lemma LastSubtreeCannotCloseAsWritten(a: TreeEntry, b: TreeEntry)
    requires a.expanded && b.depth > a.depth
    ensures !CanClose([a, b], 0)
  {
    assert RunEnd([a, b], 1, a.depth) == 2 by {
      assert RunEnd([a, b], 2, a.depth) == 2;
    }
  }

  // ---------------------------------------------------------------- opening

  /** The entries after expanding entry `i` with `children`. */
  function OpenedEntries(es: seq<TreeEntry>, i: nat, children: seq<TreeEntry>): (r: seq<TreeEntry>)
    requires i < |es|
    ensures es[i].expanded ==> r == es
    ensures !es[i].expanded ==>
      (|r| == |es| + |children| && r[..i] == es[..i] && r[i] == es[i].(expanded := true)
       && r[i + 1..i + 1 + |children|] == children && r[i + 1 + |children|..] == es[i + 1..])
  {
    if es[i].expanded then es
    else es[..i] + [es[i].(expanded := true)] + children + es[i + 1..]
  }

  /**
   * Collapsing right after expanding gives the list back, whenever the
   * children are deeper than the entry and the entry was not followed by
   * deeper ones (as a collapsed directory never is).
   */
  lemma CloseAfterOpen(es: seq<TreeEntry>, i: nat, children: seq<TreeEntry>)
    requires i < |es| && !es[i].expanded
    requires forall c :: c in children ==> c.depth > es[i].depth
    requires i + 1 < |es| ==> es[i + 1].depth <= es[i].depth
    ensures ClosedEntries(OpenedEntries(es, i, children), i) == es
  {
    var grown := OpenedEntries(es, i, children);
    var d := es[i].depth;
    var e := RunEnd(grown, i + 1, d);
    assert e == i + 1 + |children| by {
      forall k | i + 1 <= k < i + 1 + |children| ensures grown[k].depth > d {
        assert grown[k] == children[k - i - 1];
      }
      if i + 1 + |children| < |grown| {
        assert grown[i + 1 + |children|] == es[i + 1];
      }
    }
    assert grown[i].(expanded := false) == es[i];
    assert es == es[..i] + [es[i]] + es[i + 1..];
  }

  /** Inserting right after a prefix puts the element between the prefix and the rest. */
  lemma InsertAfterPrefix(a: seq<TreeEntry>, b: seq<TreeEntry>, x: TreeEntry)
    ensures Seqs.InsertAt(a + b, |a|, x) == a + [x] + b
  {
    assert (a + b)[..|a|] == a;
    assert (a + b)[|a|..] == b;
  }

  // ---------------------------------------------------------------- the tree

  class Tree {
    var openedPath: string
    var selectedIndex: nat
    var shouldScroll: bool
    var entries: seq<TreeEntry>

    /**
     * `close_at`: an expanded entry is collapsed and the deeper entries
     * after it are removed one by one. The loop reads the entry after the
     * run, so the run must not reach the end of the list.
     */
    method CloseAt(i: nat)
      requires i < |entries| && CanClose(entries, i)
      modifies this`entries, this`selectedIndex
      ensures entries == ClosedEntries(old(entries), i)
      ensures selectedIndex == ClosedSelection(old(entries), i, old(selectedIndex))
    {
      if !entries[i].expanded {
        return;
      }
      ghost var es := entries;
      ghost var s0 := selectedIndex;
      entries := entries[i := entries[i].(expanded := false)];
      var depth := entries[i].depth;
      assert entries == es[..i] + [es[i].(expanded := false)] + es[i + 1..];
      var removed := RemoveRun(i, depth, es, s0);
      ClosedByRun(es, i, removed);
      ClosedSelectionByRun(es, i, removed, s0);
    }

    /**
     * The loop of `close_at`: at each entry after `i` a selection on it
     * moves to `i`; then the entry is removed if it is deeper than `depth`,
     * and the loop stops at the first entry that is not.
     */
    method RemoveRun(i: nat, depth: nat, ghost es: seq<TreeEntry>, ghost s0: nat) returns (removed: nat)
      requires i < |es| && depth == es[i].depth && RunEnd(es, i + 1, depth) < |es|
      requires entries == es[..i] + [es[i].(expanded := false)] + es[i + 1..]
      requires selectedIndex == s0
      modifies this`entries, this`selectedIndex
      ensures i + 1 + removed == RunEnd(es, i + 1, depth)
      ensures entries == es[..i] + [es[i].(expanded := false)] + es[i + 1 + removed..]
      ensures selectedIndex == if i < s0 <= i + 1 + removed then i else s0
    {
      var j := i + 1;
      ghost var head := es[..i] + [es[i].(expanded := false)];
      ghost var e := RunEnd(es, j, depth);
      removed := 0;
      while true
        invariant |head| == j && j + removed <= e < |es|
        invariant entries == head + es[j + removed..]
        invariant selectedIndex == if j <= s0 < j + removed then i else s0
        decreases |entries|
      {
        var next := entries[j];
        assert next == es[j + removed];
        if selectedIndex == j + removed {
          selectedIndex := i;
        }
        if next.depth > depth {
          Seqs.RemoveAfterPrefix(head, es[j + removed..]);
          assert es[j + removed..][1..] == es[j + removed + 1..];
          entries := Seqs.RemoveAt(entries, j);
          removed := removed + 1;
        } else {
          break;
        }
      }
    }

    /**
     * `open_at`: a collapsed entry is expanded and selected, and its
     * children, read from `listing`, are inserted after it one by one.
     */
    method OpenAt(i: nat, listing: Option<seq<DirItem>>)
      requires i < |entries|
      modifies this`entries, this`selectedIndex
      ensures old(entries[i].expanded) ==> entries == old(entries) && selectedIndex == old(selectedIndex)
      ensures !old(entries[i].expanded) ==>
        (selectedIndex == i && entries == OpenedEntries(old(entries), i,
           GetEntriesFromPath(old(entries[i].path), old(entries[i].depth) + 1, None, listing)))
    {
      if entries[i].expanded {
        return;
      }
      ghost var es := entries;
      var children := GetEntriesFromPath(entries[i].path, entries[i].depth + 1, None, listing);
      entries := entries[i := entries[i].(expanded := true)];
      selectedIndex := i;
      ghost var flagged := entries;
      InsertChildren(i + 1, children);
      assert flagged[..i + 1] == es[..i] + [es[i].(expanded := true)];
      assert flagged[i + 1..] == es[i + 1..];
    }

    /** The insertion loop of `open_at`: the children go in one by one, in order, at `at`. */
    method InsertChildren(at: nat, children: seq<TreeEntry>)
      requires at <= |entries|
      modifies this`entries
      ensures entries == old(entries[..at]) + children + old(entries[at..])
    {
      ghost var head := entries[..at];
      ghost var tail := entries[at..];
      assert entries == head + tail;
      var j := 0;
      while j < |children|
        invariant 0 <= j <= |children|
        invariant entries == head + children[..j] + tail
      {
        InsertAfterPrefix(head + children[..j], tail, children[j]);
        assert children[..j + 1] == children[..j] + [children[j]];
        entries := Seqs.InsertAt(entries, at + j, children[j]);
        j := j + 1;
      }
      assert children[..j] == children;
    }

    /** `toggled_at`: collapses an expanded entry, expands a collapsed one. */
    method ToggledAt(i: nat, listing: Option<seq<DirItem>>)
      requires i < |entries| && CanClose(entries, i)
      modifies this`entries, this`selectedIndex
      ensures old(entries[i].expanded) ==>
        (entries == ClosedEntries(old(entries), i) && selectedIndex == ClosedSelection(old(entries), i, old(selectedIndex)))
      ensures !old(entries[i].expanded) ==>
        (selectedIndex == i && entries == OpenedEntries(old(entries), i,
           GetEntriesFromPath(old(entries[i].path), old(entries[i].depth) + 1, None, listing)))
    {
      if entries[i].expanded {
        CloseAt(i);
      } else {
        OpenAt(i, listing);
      }
    }

    /** Arrow down: the selection moves down unless it is on the last entry. */
    method ArrowDown()
      requires |entries| >= 1
      modifies this`selectedIndex, this`shouldScroll
      ensures old(selectedIndex) < |entries| - 1 ==> selectedIndex == old(selectedIndex) + 1 && shouldScroll
      ensures old(selectedIndex) >= |entries| - 1 ==> selectedIndex == old(selectedIndex) && shouldScroll == old(shouldScroll)
      ensures old(selectedIndex) < |entries| ==> selectedIndex < |entries|
    {
      if selectedIndex < |entries| - 1 {
        selectedIndex := selectedIndex + 1;
        shouldScroll := true;
      }
    }

    /** Arrow up: the selection moves up unless it is on the first entry. */
    method ArrowUp()
      modifies this`selectedIndex, this`shouldScroll
      ensures old(selectedIndex) != 0 ==> selectedIndex == old(selectedIndex) - 1 && shouldScroll
      ensures old(selectedIndex) == 0 ==> selectedIndex == 0 && shouldScroll == old(shouldScroll)
      ensures old(selectedIndex) < |entries| ==> selectedIndex < |entries|
    {
      if selectedIndex != 0 {
        selectedIndex := selectedIndex - 1;
        shouldScroll := true;
      }
    }
  }
}
