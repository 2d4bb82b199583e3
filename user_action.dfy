/**
 * User actions: a configured command line whose placeholders are filled
 * from the current picture's path, split on spaces and started as a
 * process, and the context menu that runs one of them.
 */
module UserAction {
  import opened Wrappers
  import opened Text
  import opened Paths
  import opened Callbacks

  /** A program name and its arguments, as handed to the process spawner. */
  datatype Command = Command(program: string, args: seq<string>)

  /** A context-menu entry of the configuration: label, command line and callback. */
  datatype ContextMenuEntry = ContextMenuEntry(description: string, exec: string, callback: Option<Callback>)

  /**
   * The command line after placeholder expansion, or None where `execute`
   * gives up before starting anything: a path without a parent, or a "{.}"
   * for a path without a stem. "{}" becomes the path, then "{.}" the path
   * without its extension, then "{//}" the parent directory; each is
   * replaced only when the text at that point contains it.
   */
  function Expand(exec: string, path: Path): (r: Option<string>)
    ensures Parent(path).None? ==> r.None?
    ensures Parent(path).Some? && Stem(path).Some? ==> r.Some?
  {
    match Parent(path)
    case None => None
    case Some(parent) =>
      var e1 := if Contains(exec, "{}") then Replace(exec, "{}", Display(path)) else exec;
      if Contains(e1, "{.}") && Stem(path).None? then None
      else
        var e2 := if Contains(e1, "{.}") then Replace(e1, "{.}", Display(Child(parent, Stem(path).value))) else e1;
        var e3 := if Contains(e2, "{//}") then Replace(e2, "{//}", Display(parent)) else e2;
        Some(e3)
  }

  /** The expanded line split on single spaces: the first piece is the program. */
  function CommandOf(line: string): Command
  {
    var pieces := Split(line, " ");
    Command(pieces[0], pieces[1..])
  }

  /** What `execute` answers, given whether the spawner accepts each command. */
  function Executed(exec: string, path: Path, spawn: Command -> bool): bool
  {
    exec == [] || (Expand(exec, path).Some? && spawn(CommandOf(Expand(exec, path).value)))
  }

  /**
   * `execute`: an empty command line succeeds without starting anything;
   * otherwise the placeholders are expanded step by step, the line is split
   * into program and arguments, and the answer is the spawner's.
   */
  method Execute(exec: string, path: Path, spawn: Command -> bool) returns (ok: bool, started: Option<Command>)
    ensures ok == Executed(exec, path, spawn)
    ensures exec == [] ==> ok && started.None?
    ensures exec != [] && Parent(path).None? ==> !ok && started.None?
    ensures exec != [] && Expand(exec, path).Some? ==> started == Some(CommandOf(Expand(exec, path).value))
    ensures exec != [] && Expand(exec, path).None? ==> started.None?
  {
    if exec == [] {
      return true, None;
    }
    var expanded := ExpandPlaceholders(exec, path);
    if expanded.None? {
      return false, None;
    }
    var pieces := Split(expanded.value, " ");
    var args := Arguments(pieces);
    var cmd := Command(pieces[0], args);
    return spawn(cmd), Some(cmd);
  }

  /** The placeholder replacements of `execute`, one after the other. */
  method ExpandPlaceholders(exec: string, path: Path) returns (r: Option<string>)
    ensures r == Expand(exec, path)
  {
    var line := exec;
    var parent;
    match Parent(path) {
      case None =>
        return None;
      case Some(p) =>
        parent := p;
    }
    if Contains(line, "{}") {
      line := Replace(line, "{}", Display(path));
    }
    if Contains(line, "{.}") {
      match Stem(path) {
        case None =>
          return None;
        case Some(stem) =>
          line := Replace(line, "{.}", Display(Child(parent, stem)));
      }
    }
    if Contains(line, "{//}") {
      line := Replace(line, "{//}", Display(parent));
    }
    return Some(line);
  }

  /** The argument loop of `execute`: every piece after the first, in order. */
  method Arguments(pieces: seq<string>) returns (args: seq<string>)
    requires |pieces| >= 1
    ensures args == pieces[1..]
  {
    args := [];
    var k := 1;
    while k < |pieces|
      invariant 1 <= k <= |pieces|
      invariant args == pieces[1..k]
    {
      assert pieces[1..k + 1] == pieces[1..k] + [pieces[k]];
      args := args + [pieces[k]];
      k := k + 1;
    }
  }

  /**
   * The program and arguments put back together with single spaces give the
   * expanded line, and no argument holds a space.
   */
  lemma CommandRoundTrip(line: string)
    ensures Join([CommandOf(line).program] + CommandOf(line).args, " ") == line
    ensures forall k :: 0 <= k < |CommandOf(line).args| ==> ' ' !in CommandOf(line).args[k]
    ensures ' ' !in CommandOf(line).program
  {
    var pieces := Split(line, " ");
    SplitJoin(line, " ");
    SplitPiecesFree(line, ' ');
    assert [pieces[0]] + pieces[1..] == pieces;
    forall k | 0 <= k < |pieces[1..]| ensures ' ' !in pieces[1..][k] {
      assert pieces[1..][k] == pieces[k + 1];
    }
  }

  /** A line without any '{' is passed on as it is, once the path has a parent. */
  lemma NoPlaceholders(exec: string, path: Path)
    requires '{' !in exec && Parent(path).Some?
    ensures Expand(exec, path) == Some(exec)
  {
    NotContainsWithout(exec, "{}");
    NotContainsWithout(exec, "{.}");
    NotContainsWithout(exec, "{//}");
  }

  /**
   * One "{}" between texts without braces, with a path whose text has no
   * braces either, becomes exactly that path text.
   */
  lemma OnePathPlaceholder(before: string, after: string, path: Path)
    requires '{' !in before && '{' !in after && '{' !in Display(path) && Parent(path).Some?
    ensures Expand(before + "{}" + after, path) == Some(before + Display(path) + after)
  {
    var exec := before + "{}" + after;
    var t := Display(path);
    assert exec == before + ("{}" + after);
    assert OccursAt(exec, "{}", |before|) by {
      assert exec[|before|..|before| + 2] == "{}";
    }
    ContainsIff(exec, "{}");
    ReplaceSkipPrefix(before, "{}" + after, "{}", t);
    ReplaceHead("{}", after, t);
    NotContainsWithout(after, "{}");
    ReplaceAbsent(after, "{}", t);
    var e1 := before + t + after;
    assert Replace(exec, "{}", t) == e1;
    assert '{' !in e1;
    NotContainsWithout(e1, "{.}");
    NotContainsWithout(e1, "{//}");
  }

  /** The first entry whose button reports a click, if any. */
  function FirstClicked(n: nat, clicked: nat -> bool): (r: Option<nat>)
    ensures r.Some? ==> r.value < n && clicked(r.value) && forall k :: 0 <= k < r.value ==> !clicked(k)
    ensures r.None? ==> forall k :: 0 <= k < n ==> !clicked(k)
    decreases n
  {
    if n == 0 then None
    else match FirstClicked(n - 1, clicked)
      case Some(k) => Some(k)
      case None => if clicked(n - 1) then Some(n - 1) else None
  }

  /**
   * `show_context_menu`: no menu for no entries; otherwise the first
   * clicked entry's command runs, and its callback is the answer only when
   * `execute` succeeded. Which buttons report a click is the user's input.
   */
  method ShowContextMenu(entries: seq<ContextMenuEntry>, clicked: nat -> bool, path: Path, spawn: Command -> bool)
    returns (result: Option<Callback>)
    ensures entries == [] ==> result.None?
    ensures result.Some? ==>
      exists k :: 0 <= k < |entries| && clicked(k) && entries[k].callback == result && Executed(entries[k].exec, path, spawn)
    ensures result == match FirstClicked(|entries|, clicked)
      case None => None
      case Some(k) => if Executed(entries[k].exec, path, spawn) then entries[k].callback else None
  {
    if entries == [] {
      return None;
    }
    result := None;
    var k := 0;
    while k < |entries|
      invariant 0 <= k <= |entries|
      invariant forall j :: 0 <= j < k ==> !clicked(j)
      invariant result.None?
    {
      if clicked(k) {
        var ok, _ := Execute(entries[k].exec, path, spawn);
        if ok {
          result := entries[k].callback;
        }
        assert FirstClicked(|entries|, clicked) == Some(k);
        return;
      }
      k := k + 1;
    }
  }
}
