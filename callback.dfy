/**
 * Callbacks a context-menu entry can ask the galleries to run after its
 * command succeeded, and their configuration-file text form.
 */
module Callbacks {
  import opened Wrappers
  import opened Paths

  datatype Callback = ReloadAll | Reload(path: Option<Path>) | Pop(path: Option<Path>) | NoAction

  predicate SameKind(a: Callback, b: Callback)
  {
    a.ReloadAll? == b.ReloadAll? && a.Reload? == b.Reload? && a.Pop? == b.Pop? && a.NoAction? == b.NoAction?
  }

  /** `Callback::from_callback`: the same kind of callback; Reload and Pop now carry `path`. */
  function FromCallback(cb: Callback, path: Option<Path>): (r: Callback)
    ensures SameKind(r, cb)
    ensures (r.Reload? || r.Pop?) ==> r.path == path
  {
    match cb
    case ReloadAll => ReloadAll
    case Reload(_) => Reload(path)
    case Pop(_) => Pop(path)
    case NoAction => NoAction
  }

  /** The `Deserialize` implementation: only the three names select a callback, without a path; every other text, "" included, is NoAction. */
  function Deserialize(s: string): (r: Callback)
    ensures r.NoAction? <==> s !in ["ReloadAll", "Reload", "Pop"]
    ensures (r.Reload? || r.Pop?) ==> r.path == None
  {
    if s == "ReloadAll" then ReloadAll
    else if s == "Reload" then Reload(None)
    else if s == "Pop" then Pop(None)
    else NoAction
  }

  /** The `Serialize` implementation: writes a callback's name, never its path. */
  function Serialize(cb: Callback): (r: string)
    ensures r == "" <==> cb.NoAction?
    ensures r in ["", "ReloadAll", "Reload", "Pop"]
  {
    match cb
    case NoAction => ""
    case ReloadAll => "ReloadAll"
    case Pop(_) => "Pop"
    case Reload(_) => "Reload"
  }

  /** Writing then reading a callback keeps its kind and drops its path. */
  lemma SerializeThenDeserialize(cb: Callback)
    ensures Deserialize(Serialize(cb)) == FromCallback(cb, None)
  {
  }

  /** Reading then writing returns the four known names and "" for anything else. */
  lemma DeserializeThenSerialize(s: string)
    ensures Serialize(Deserialize(s)) == (if s in ["ReloadAll", "Reload", "Pop", ""] then s else "")
  {
  }


}
