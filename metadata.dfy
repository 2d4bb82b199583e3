/**
 * Metadata text processing: the Orientation tag, the parser for exiftool's
 * text output, the display-name template formatter, the grouping of RAW and
 * JPG files that share a stem, and the batching plan of the metadata cache.
 */
module Metadata {
  import opened Wrappers
  import opened Text
  import opened Paths
  import Sorting
  import opened Seqs

  const CHUNK_SIZE: nat := 500
  const METADATA_PROFILE_DESCRIPTION := "Profile Description"
  const METADATA_ORIENTATION := "Orientation"

  type Tags = map<string, string>

  // ------------------------------------------------------------ orientation

  /** The eight values of the TIFF 6.0 (section 8) Orientation field. */
  datatype Orientation =
    | Normal
    | MirrorHorizontal
    | Rotate180
    | MirrorVertical
    | MirrorHorizontalRotate270
    | Rotate90CW
    | MirrorHorizontalRotate90CW
    | Rotate270CW

  /** How exiftool prints each Orientation value. */
  function ExiftoolName(o: Orientation): string
  {
    match o
    case Normal => "Horizontal (normal)"
    case MirrorHorizontal => "Mirror horizontal"
    case Rotate180 => "Rotate 180"
    case MirrorVertical => "Mirror vertical"
    case MirrorHorizontalRotate270 => "Mirror horizontal and rotate 270 CW"
    case Rotate90CW => "Rotate 90 CW"
    case MirrorHorizontalRotate90CW => "Mirror horizontal and rotate 90 CW"
    case Rotate270CW => "Rotate 270 CW"
  }

  /** `Orientation::from_orientation_metadata`. */
  function FromOrientationMetadata(s: string): Orientation
  {
    if s == "Horizontal (normal)" then Normal
    else if s == "Mirror horizontal" then MirrorHorizontal
    else if s == "Rotate 180" then Rotate180
    else if s == "Mirror vertical" then MirrorVertical
    else if s == "Mirror horizontal and rotate 270 CW" then MirrorHorizontalRotate270
    else if s == "Rotate 90 CW" then Rotate90CW
    else if s == "Mirror horizontal and rotate 90 CW" then MirrorHorizontalRotate90CW
    else if s == "Rotate 270 CW" then Rotate270CW
    else Normal
  }

  /** Each of the eight printed names reads back as its own value. */
  lemma OrientationRoundTrip(o: Orientation)
    ensures FromOrientationMetadata(ExiftoolName(o)) == o
  {
  }

  /** Any other text means no correction. */
  lemma OrientationUnknownIsNormal(s: string)
    requires forall o: Orientation :: s != ExiftoolName(o)
    ensures FromOrientationMetadata(s) == Normal
  {
    assert s != ExiftoolName(MirrorHorizontal) && s != ExiftoolName(Rotate180);
    assert s != ExiftoolName(MirrorVertical) && s != ExiftoolName(MirrorHorizontalRotate270);
    assert s != ExiftoolName(Rotate90CW) && s != ExiftoolName(MirrorHorizontalRotate90CW);
    assert s != ExiftoolName(Rotate270CW);
  }

  // ------------------------------------------------------- exiftool records

  /** Lines that carry a tag: non-empty and holding a ':'. */
  predicate IsTagLine(x: string)
  {
    x != "" && ':' in x
  }

  /** A tag line's key (before the first ':') and value (all after it), both trimmed. */
  function TagPair(x: string): (string, string)
  {
    var split := Split(x, ":");
    (Trim(split[0]), Trim(Join(split[1..], ":")))
  }

  /** The key is the text before the first ':' and the value keeps every later ':'. */
  lemma TagPairSplit(x: string, k: nat)
    requires k < |x| && x[k] == ':' && ':' !in x[..k]
    ensures TagPair(x) == (Trim(x[..k]), Trim(x[k + 1..]))
  {
    SplitAtFirst(x, ':', k);
    SplitTailJoin(x, ':', k);
  }

  function TagPairs(lines: seq<string>): seq<(string, string)>
    decreases |lines|
  {
    if lines == [] then []
    else (if IsTagLine(lines[0]) then [TagPair(lines[0])] else []) + TagPairs(lines[1..])
  }

  /** Collecting pairs into a map: a later pair with the same key wins. */
  function ToMap(pairs: seq<(string, string)>): (m: Tags)
    ensures forall k :: k in m <==> exists i :: 0 <= i < |pairs| && pairs[i].0 == k
    decreases |pairs|
  {
    if pairs == [] then map[]
    else
      var m := ToMap(pairs[..|pairs| - 1]);
      var last := pairs[|pairs| - 1];
      assert forall i :: 0 <= i < |pairs| - 1 ==> pairs[..|pairs| - 1][i] == pairs[i];
      m[last.0 := last.1]
  }

  /** The value kept for a key is that of its last pair. */
  lemma {:induction false} ToMapLastWins(pairs: seq<(string, string)>, i: nat)
    requires i < |pairs|
    requires forall j :: i < j < |pairs| ==> pairs[j].0 != pairs[i].0
    ensures pairs[i].0 in ToMap(pairs) && ToMap(pairs)[pairs[i].0] == pairs[i].1
    decreases |pairs|
  {
    if i < |pairs| - 1 {
      var front := pairs[..|pairs| - 1];
      ToMapLastWins(front, i);
    }
  }

  /**
   * `parse_exiftool_output_str`: one record of exiftool's output. The line
   * before the first '\n' is the file path; a record whose first line is
   * empty is skipped. Every line, the first included, that holds a ':' is a
   * tag.
   */
  function ParseRecord(output: string): (r: Option<(string, Tags)>)
    ensures r.None? <==> (output == "" || output[0] == '\n')
  {
    if output != "" && output[0] == '\n' then
      SplitAtFirst(output, '\n', 0);
      None
    else
      var first := Split(output, "\n")[0];
      assert |output| >= 1 ==> output[..1] != "\n";
      if first == "" then None
      else Some((Trim(first), ToMap(TagPairs(Lines(output)))))
  }

  /** The path is the first line, trimmed. */
  lemma ParseRecordPath(output: string, k: nat)
    requires k <= |output| && '\n' !in output[..k] && (k == |output| || output[k] == '\n')
    requires k > 0
    ensures ParseRecord(output).Some? && ParseRecord(output).value.0 == Trim(output[..k])
  {
    if k < |output| {
      SplitAtFirst(output, '\n', k);
    } else {
      assert output[..k] == output;
      SplitWithoutSeparator(output, '\n');
    }
    assert output[..k] != "";
  }

  /** What the cache receives for one exiftool run. */
  datatype InsertOutcome =
    | InsertRows(rows: seq<(string, Tags)>)
    /** `metadata_to_insert[0]` on an empty list: a single path was given but no record parsed. */
    | IndexPanic

  /** The records of one exiftool output: the pieces between "========" that parse. */
  function Records(pieces: seq<string>): (r: seq<(string, Tags)>)
    ensures |r| <= |pieces|
    decreases |pieces|
  {
    if pieces == [] then []
    else
      match ParseRecord(pieces[0])
      case None => Records(pieces[1..])
      case Some(rec) => [rec] + Records(pieces[1..])
  }

  function RecordsOf(stdout: string): seq<(string, Tags)>
  {
    Records(Split(stdout, "========"))
  }

  /**
   * `parse_exiftool_output` up to the database insert: the parsed records,
   * the first one renamed to `single` when a single path was given (exiftool
   * prints no file name for a lone file).
   */
  method ParseExiftoolOutput(stdout: string, single: Option<string>) returns (r: InsertOutcome)
    ensures single.None? ==> r == InsertRows(RecordsOf(stdout))
    ensures single.Some? && RecordsOf(stdout) == [] ==> r == IndexPanic
    ensures single.Some? && RecordsOf(stdout) != [] ==>
      r == InsertRows(RecordsOf(stdout)[0 := (single.value, RecordsOf(stdout)[0].1)])
  {
    var pieces := Split(stdout, "========");
    ghost var all := Records(pieces);
    var rows: seq<(string, Tags)> := [];
    var i := 0;
    while i < |pieces|
      invariant 0 <= i <= |pieces|
      invariant rows + Records(pieces[i..]) == all
    {
      assert pieces[i..][1..] == pieces[i + 1..];
      var parsed := ParseRecord(pieces[i]);
      if parsed.Some? {
        assert Records(pieces[i..]) == [parsed.value] + Records(pieces[i + 1..]);
        rows := rows + [parsed.value];
      } else {
        assert Records(pieces[i..]) == Records(pieces[i + 1..]);
      }
      i := i + 1;
    }
    assert pieces[i..] == [];
    assert rows == all;
    if single.Some? {
      if |rows| == 0 {
        return IndexPanic;
      }
      rows := rows[0 := (single.value, rows[0].1)];
    }
    r := InsertRows(rows);
  }

  // -------------------------------------------------- display-name template

  /**
   * Characters allowed in a tag name (`[\w \s]`): letters, digits and '_'
   * (ASCII only in this model) and whitespace.
   */
  predicate IsTagChar(c: char)
  {
    ('a' <= c <= 'z') || ('A' <= c <= 'Z') || ('0' <= c <= '9') || c == '_' || IsWhitespace(c)
  }

  predicate IsParen(c: char)
  {
    c == '(' || c == ')'
  }

  /** One match of the template pattern: the whole `$(...)`, the text inside, the tag. */
  datatype Capture = Capture(expression: string, inner: string, tag: string)

  /** End of the run of tag characters that starts at `j`. */
  function TagRunEnd(body: string, j: nat): (e: nat)
    requires j <= |body|
    ensures j <= e <= |body|
    ensures forall t :: j <= t < e ==> IsTagChar(body[t])
    ensures e < |body| ==> !IsTagChar(body[e])
    decreases |body| - j
  {
    if j < |body| && IsTagChar(body[j]) then TagRunEnd(body, j + 1) else j
  }

  /** A '#' at `p` opens a tag: tag characters follow it up to another '#'. */
  predicate TagAt(body: string, p: nat)
  {
    p < |body| && body[p] == '#' && TagRunEnd(body, p + 1) < |body| && body[TagRunEnd(body, p + 1)] == '#'
  }

  /**
   * The greedy `[^()]*` in front of the tag makes the pattern take the last
   * '#' below `n` that opens a tag.
   */
  function LastTagStart(body: string, n: nat): (r: Option<nat>)
    requires n <= |body|
    ensures r.Some? ==> r.value < n && TagAt(body, r.value) && forall q :: r.value < q < n ==> !TagAt(body, q)
    ensures r.None? ==> forall q :: 0 <= q < n ==> !TagAt(body, q)
    decreases n
  {
    if n == 0 then None else if TagAt(body, n - 1) then Some(n - 1) else LastTagStart(body, n - 1)
  }

  /** The tag the pattern captures in the text between `$(` and `)`, if any. */
  function TagOf(body: string): (r: Option<string>)
    ensures r.Some? ==> Contains(body, "#" + r.value + "#")
    ensures r.Some? ==> forall t :: 0 <= t < |r.value| ==> IsTagChar(r.value[t])
  {
    match LastTagStart(body, |body|)
    case None => None
    case Some(p) =>
      var e := TagRunEnd(body, p + 1);
      var tag := body[p + 1..e];
      assert OccursAt(body, "#" + tag + "#", p) by {
        assert body[p..e + 1] == "#" + tag + "#";
      }
      ContainsIff(body, "#" + tag + "#");
      Some(tag)
  }

  /** Index of the first parenthesis at or after `j`, or the length. */
  function FirstParen(s: string, j: nat): (k: nat)
    requires j <= |s|
    ensures j <= k <= |s|
    ensures forall t :: j <= t < k ==> !IsParen(s[t])
    ensures k < |s| ==> IsParen(s[k])
    decreases |s| - j
  {
    if j == |s| || IsParen(s[j]) then j else FirstParen(s, j + 1)
  }

  /** The match of the pattern that starts at the front of `s`, which begins with "$(". */
  function MatchAt(s: string): (r: Option<Capture>)
    requires |s| >= 2 && s[0] == '$' && s[1] == '('
    ensures r.Some? ==> var c := r.value;
      c.expression == "$(" + c.inner + ")" && StartsWith(s, c.expression)
      && '(' !in c.inner && ')' !in c.inner && TagOf(c.inner) == Some(c.tag)
  {
    var k := FirstParen(s, 2);
    if k == |s| || s[k] == '(' then None
    else
      var body := s[2..k];
      assert forall t :: 0 <= t < |body| ==> body[t] == s[2 + t];
      match TagOf(body)
      case None => None
      case Some(t) =>
        assert s[..k + 1] == "$(" + body + ")";
        Some(Capture(s[..k + 1], body, t))
  }

  /**
   * `captures_iter`: the matches of the template pattern, leftmost first,
   * each search resuming after the previous match.
   */
  function Captures(s: string): seq<Capture>
    decreases |s|
  {
    if |s| < 2 then []
    else if s[0] == '$' && s[1] == '(' then
      match MatchAt(s)
      case Some(c) => [c] + Captures(s[|c.expression|..])
      case None => Captures(s[1..])
    else Captures(s[1..])
  }

  /** The text a capture is replaced with: its inner text with the tag filled in, or nothing. */
  function ReplacementFor(c: Capture, md: Tags): string
  {
    if c.tag in md then Replace(c.inner, "#" + c.tag + "#", md[c.tag]) else ""
  }

  /** The successive whole-text replacements, one per capture, in order. */
  function Render(output: string, caps: seq<Capture>, md: Tags): string
    decreases |caps|
  {
    if caps == [] then output
    else Render(Replace(output, caps[0].expression, ReplacementFor(caps[0], md)), caps[1..], md)
  }

  /** The text a template becomes: every capture replaced in turn. */
  function Format(input: string, md: Tags): string
  {
    Render(input, Captures(input), md)
  }

  /** `format_string_with_metadata`. */
  method FormatStringWithMetadata(input: string, md: Tags) returns (output: string)
    ensures output == Format(input, md)
  {
    output := input;
    var caps := Captures(input);
    var i := 0;
    while i < |caps|
      invariant 0 <= i <= |caps|
      invariant Render(output, caps[i..], md) == Render(input, caps, md)
    {
      assert caps[i..][1..] == caps[i + 1..];
      output := Replace(output, caps[i].expression, ReplacementFor(caps[i], md));
      i := i + 1;
    }
    assert caps[i..] == [];
  }

  // Facts about the scanner used to compute concrete templates.

  lemma {:induction false} CapturesNoDollar(a: string, b: string)
    requires '$' !in a
    ensures Captures(a + b) == Captures(b)
    decreases |a|
  {
    if a != [] {
      assert (a + b)[0] == a[0];
      assert (a + b)[1..] == a[1..] + b;
      CapturesNoDollar(a[1..], b);
      if |a + b| < 2 {
        assert b == [];
        assert Captures(a[1..] + b) == [];
      }
    } else {
      assert a + b == b;
    }
  }

  lemma {:induction false} TagRunEndIs(body: string, j: nat, e: nat)
    requires j <= e <= |body|
    requires forall t :: j <= t < e ==> IsTagChar(body[t])
    requires e == |body| || !IsTagChar(body[e])
    ensures TagRunEnd(body, j) == e
    decreases e - j
  {
    if j < e {
      TagRunEndIs(body, j + 1, e);
    }
  }

  lemma {:induction false} LastTagStartSkip(body: string, m: nat, n: nat)
    requires m <= n <= |body|
    requires forall q :: m <= q < n ==> !TagAt(body, q)
    ensures LastTagStart(body, n) == LastTagStart(body, m)
    decreases n - m
  {
    if m < n {
      LastTagStartSkip(body, m, n - 1);
    }
  }

  /** In `pre#tag#post` with no '#' in the tag or after it, the tag is found. */
  lemma TagOfSimple(pre: string, tag: string, post: string)
    requires '#' !in tag && '#' !in post
    requires forall t :: 0 <= t < |tag| ==> IsTagChar(tag[t])
    ensures TagOf(pre + "#" + tag + "#" + post) == Some(tag)
  {
    var body := pre + "#" + tag + "#" + post;
    var p := |pre|;
    var e := p + 1 + |tag|;
    assert body[p] == '#' && body[e] == '#';
    assert TagRunEnd(body, p + 1) == e by {
      assert forall t :: p + 1 <= t < e ==> body[t] == tag[t - p - 1];
      TagRunEndIs(body, p + 1, e);
    }
    assert TagAt(body, p);
    assert LastTagStart(body, |body|) == Some(p) by {
      forall q | p < q < |body| ensures !TagAt(body, q) {
        if q < e {
          assert body[q] == tag[q - p - 1];
        } else if q > e {
          assert body[q] == post[q - e - 1];
        } else {
          var f := TagRunEnd(body, q + 1);
          if f < |body| {
            assert body[f] == post[f - e - 1];
          }
        }
      }
      LastTagStartSkip(body, p + 1, |body|);
    }
    assert body[p + 1..e] == tag;
  }

  lemma {:induction false} FirstParenIs(s: string, j: nat, k: nat)
    requires j <= k < |s| && IsParen(s[k])
    requires forall t :: j <= t < k ==> !IsParen(s[t])
    ensures FirstParen(s, j) == k
    decreases k - j
  {
    if j < k {
      FirstParenIs(s, j + 1, k);
    }
  }

  /** A complete group at the front is captured whole and the scan resumes after it. */
  lemma CapturesGroupHead(body: string, tag: string, b: string)
    requires '(' !in body && ')' !in body
    requires TagOf(body) == Some(tag)
    ensures Captures("$(" + body + ")" + b) == [Capture("$(" + body + ")", body, tag)] + Captures(b)
  {
    var e := "$(" + body + ")";
    var s := e + b;
    assert s[0] == '$' && s[1] == '(';
    assert FirstParen(s, 2) == |e| - 1 by {
      assert forall t :: 2 <= t < |e| - 1 ==> s[t] == body[t - 2];
      assert s[|e| - 1] == ')';
      FirstParenIs(s, 2, |e| - 1);
    }
    assert s[2..|e| - 1] == body;
    assert MatchAt(s) == Some(Capture(e, body, tag)) by {
      assert s[..|e|] == e;
    }
    assert s[|e|..] == b;
  }

  /** Filling in `#tag#` inside a group's inner text. */
  lemma FillTag(pre: string, tag: string, post: string, v: string)
    requires '#' !in pre && '#' !in post
    ensures Replace(pre + "#" + tag + "#" + post, "#" + tag + "#", v) == pre + v + post
  {
    var pat := "#" + tag + "#";
    var rest := pat + post;
    assert pre + "#" + tag + "#" + post == pre + rest;
    assert Replace(rest, pat, v) == v + post by {
      ReplaceHead(pat, post, v);
      NotContainsWithout(post, pat);
      ReplaceAbsent(post, pat, v);
    }
    assert Replace(pre + rest, pat, v) == pre + Replace(rest, pat, v) by {
      ReplaceSkipPrefix(pre, rest, pat, v);
    }
    assert pre + (v + post) == pre + v + post;
  }

  /** Text without "$(" has no group and comes out as it went in. */
  lemma {:induction false} FormatWithoutGroups(input: string, md: Tags)
    requires !Contains(input, "$(")
    ensures Captures(input) == []
    ensures Format(input, md) == input
    decreases |input|
  {
    if |input| >= 2 {
      assert !(input[0] == '$' && input[1] == '(') by {
        assert input[..2] == [input[0], input[1]];
      }
      FormatWithoutGroups(input[1..], md);
    }
  }

  // Templates made of plain text and groups.

  /** A template as text without '$' and `$(pre#tag#post)` groups. */
  datatype Piece = Plain(text: string) | Group(pre: string, tag: string, post: string)

  function GroupInner(g: Piece): string
    requires g.Group?
  {
    g.pre + "#" + g.tag + "#" + g.post
  }

  function GroupExpr(g: Piece): string
    requires g.Group?
  {
    "$(" + GroupInner(g) + ")"
  }

  function CaptureOf(g: Piece): Capture
    requires g.Group?
  {
    Capture(GroupExpr(g), GroupInner(g), g.tag)
  }

  /** Plain text holds no '$'; a group's parts hold no '$', '#' or parenthesis and its tag only tag characters. */
  predicate WellFormedPiece(pc: Piece)
  {
    match pc
    case Plain(t) => '$' !in t
    case Group(pre, tag, post) =>
      '$' !in pre && '#' !in pre && '(' !in pre && ')' !in pre
      && '$' !in post && '#' !in post && '(' !in post && ')' !in post
      && forall t :: 0 <= t < |tag| ==> IsTagChar(tag[t])
  }

  predicate WellFormedPieces(ps: seq<Piece>)
  {
    forall i :: 0 <= i < |ps| ==> WellFormedPiece(ps[i])
  }

  function PieceText(pc: Piece): string
  {
    if pc.Plain? then pc.text else GroupExpr(pc)
  }

  /** The template text. */
  function Template(ps: seq<Piece>): string
    decreases |ps|
  {
    if ps == [] then [] else PieceText(ps[0]) + Template(ps[1..])
  }

  /** What a group should become: its text with the value in place of `#tag#`, or nothing. */
  function Filled(g: Piece, md: Tags): string
    requires g.Group?
  {
    if g.tag in md then g.pre + md[g.tag] + g.post else ""
  }

  /** The intended result: plain text kept, every group filled or dropped. */
  function Expected(ps: seq<Piece>, md: Tags): string
    decreases |ps|
  {
    if ps == [] then []
    else (if ps[0].Plain? then ps[0].text else Filled(ps[0], md)) + Expected(ps[1..], md)
  }

  /** The groups of a template, in order. */
  function GroupsOf(ps: seq<Piece>): (gs: seq<Piece>)
    ensures forall g :: g in gs ==> g.Group? && g in ps
    ensures forall g :: g in ps && g.Group? ==> g in gs
    ensures WellFormedPieces(ps) ==> WellFormedPieces(gs)
    decreases |ps|
  {
    if ps == [] then []
    else
      var rest := GroupsOf(ps[1..]);
      assert forall g :: g in ps ==> g == ps[0] || g in ps[1..];
      if ps[0].Group? then [ps[0]] + rest else rest
  }

  function CapturesFor(gs: seq<Piece>): (cs: seq<Capture>)
    requires forall g :: g in gs ==> g.Group?
    ensures |cs| == |gs|
    ensures forall i :: 0 <= i < |gs| ==> cs[i] == CaptureOf(gs[i])
  {
    seq(|gs|, i requires 0 <= i < |gs| => CaptureOf(gs[i]))
  }

  /** The pieces with every group spelled like `g` turned into the plain text `r`. */
  function Subst(ps: seq<Piece>, g: Piece, r: string): (qs: seq<Piece>)
    requires g.Group?
    ensures |qs| == |ps|
    ensures forall i :: 0 <= i < |ps| ==>
      qs[i] == (if ps[i].Group? && GroupExpr(ps[i]) == GroupExpr(g) then Plain(r) else ps[i])
  {
    seq(|ps|, i requires 0 <= i < |ps| =>
      if ps[i].Group? && GroupExpr(ps[i]) == GroupExpr(g) then Plain(r) else ps[i])
  }

  lemma TagCharsNoMarks(tag: string)
    requires forall t :: 0 <= t < |tag| ==> IsTagChar(tag[t])
    ensures '#' !in tag && '$' !in tag && '(' !in tag && ')' !in tag
  {
    forall t | 0 <= t < |tag| ensures tag[t] != '#' && tag[t] != '$' && tag[t] != '(' && tag[t] != ')' {
      assert IsTagChar(tag[t]);
    }
  }

  /** A well-formed group is captured with its own tag. */
  lemma GroupCaptured(g: Piece)
    requires g.Group? && WellFormedPiece(g)
    ensures TagOf(GroupInner(g)) == Some(g.tag)
    ensures '(' !in GroupInner(g) && ')' !in GroupInner(g) && '$' !in GroupInner(g)
  {
    TagCharsNoMarks(g.tag);
    TagOfSimple(g.pre, g.tag, g.post);
  }

  /** The scanner finds exactly the groups of a template. */
  lemma {:induction false} CapturesTemplate(ps: seq<Piece>)
    requires WellFormedPieces(ps)
    ensures Captures(Template(ps)) == CapturesFor(GroupsOf(ps))
    decreases |ps|
  {
    if ps == [] {
      assert Captures([]) == [];
    } else {
      var rest := Template(ps[1..]);
      CapturesTemplate(ps[1..]);
      if ps[0].Plain? {
        CapturesNoDollar(ps[0].text, rest);
      } else {
        GroupCaptured(ps[0]);
        CapturesGroupHead(GroupInner(ps[0]), ps[0].tag, rest);
      }
    }
  }

  /** The replacement the formatter computes for a group is the intended one. */
  lemma ReplacementIsFilled(g: Piece, md: Tags)
    requires g.Group? && WellFormedPiece(g)
    ensures ReplacementFor(CaptureOf(g), md) == Filled(g, md)
  {
    if g.tag in md {
      FillTag(g.pre, g.tag, g.post, md[g.tag]);
    }
  }

  /** The characters of a group's text: "$(", the inner text, ")". */
  lemma ExprChars(g: Piece)
    requires g.Group?
    ensures var e, inner := GroupExpr(g), GroupInner(g);
      |e| == |inner| + 3 && e[0] == '$' && e[1] == '(' && e[|e| - 1] == ')'
      && forall t :: 2 <= t < |e| - 1 ==> e[t] == inner[t - 2]
  {
  }

  /** In text that starts with a well-formed group, the first parenthesis after "$(" closes that group. */
  lemma GroupCloses(h: Piece, s: string)
    requires h.Group? && WellFormedPiece(h) && StartsWith(s, GroupExpr(h))
    ensures FirstParen(s, 2) == |GroupExpr(h)| - 1
  {
    var e, inner := GroupExpr(h), GroupInner(h);
    ExprChars(h);
    GroupCaptured(h);
    forall t | 2 <= t < |e| - 1 ensures !IsParen(s[t]) {
      assert s[t] == e[t] == inner[t - 2];
      assert inner[t - 2] in inner;
    }
    assert s[|e| - 1] == e[|e| - 1];
    FirstParenIs(s, 2, |e| - 1);
  }

  /** A group's text starts with another group's text only when the two are the same: each ends at its first ')'. */
  lemma GroupPrefixSame(h: Piece, g: Piece, rest: string)
    requires h.Group? && g.Group? && WellFormedPiece(h) && WellFormedPiece(g)
    ensures StartsWith(GroupExpr(h) + rest, GroupExpr(g)) ==> GroupExpr(h) == GroupExpr(g)
  {
    var eh, eg := GroupExpr(h), GroupExpr(g);
    var s := eh + rest;
    assert s[..|eh|] == eh;
    GroupCloses(h, s);
    if StartsWith(s, eg) {
      GroupCloses(g, s);
    }
  }

  /** A '$'-led pattern that does not start at a group passes over the whole group. */
  lemma SkipGroup(h: Piece, rest: string, p: string, rep: string)
    requires h.Group? && WellFormedPiece(h)
    requires p != [] && p[0] == '$'
    requires !StartsWith(GroupExpr(h) + rest, p)
    ensures Replace(GroupExpr(h) + rest, p, rep) == GroupExpr(h) + Replace(rest, p, rep)
  {
    var e, inner := GroupExpr(h), GroupInner(h);
    var s := e + rest;
    var f := e[1..];
    ReplaceNoMatchHere(s, p, rep);
    assert s[1..] == f + rest;
    assert p[0] !in f by {
      ExprChars(h);
      GroupCaptured(h);
      forall t | 0 <= t < |f| ensures f[t] != '$' {
        if 1 <= t < |f| - 1 {
          assert f[t] == inner[t - 1];
          assert inner[t - 1] in inner;
        }
      }
    }
    ReplaceSkipPrefix(f, rest, p, rep);
    assert [e[0]] + f == e && s[0] == e[0];
    ConcatAssoc([e[0]], f, Replace(rest, p, rep));
  }

  /** One whole-text replacement of a group's text turns every copy of that group into `r` and nothing else. */
  lemma {:induction false} ReplaceTemplate(ps: seq<Piece>, g: Piece, r: string)
    requires WellFormedPieces(ps) && g.Group? && WellFormedPiece(g)
    ensures Replace(Template(ps), GroupExpr(g), r) == Template(Subst(ps, g, r))
    decreases |ps|
  {
    var e := GroupExpr(g);
    if ps != [] {
      var rest := Template(ps[1..]);
      var qs := Subst(ps, g, r);
      ReplaceTemplate(ps[1..], g, r);
      assert Template(qs) == PieceText(qs[0]) + Template(Subst(ps[1..], g, r)) by {
        assert qs == [qs[0]] + Subst(ps[1..], g, r);
      }
      var pc := ps[0];
      assert Replace(PieceText(pc) + rest, e, r) == PieceText(qs[0]) + Replace(rest, e, r) by {
        if pc.Plain? {
          ReplaceSkipPrefix(pc.text, rest, e, r);
        } else if GroupExpr(pc) == e {
          ReplaceHead(e, rest, r);
        } else {
          GroupPrefixSame(pc, g, rest);
          SkipGroup(pc, rest, e, r);
        }
      }
    } else {
      assert Subst(ps, g, r) == [];
    }
  }

  /** Groups spelled alike are filled alike. */
  lemma SameGroupSameFill(h: Piece, g: Piece, md: Tags)
    requires h.Group? && g.Group? && WellFormedPiece(h) && WellFormedPiece(g)
    requires GroupExpr(h) == GroupExpr(g)
    ensures Filled(h, md) == Filled(g, md)
  {
    var eh, eg := GroupExpr(h), GroupExpr(g);
    assert GroupInner(h) == eh[2..|eh| - 1];
    assert GroupInner(g) == eg[2..|eg| - 1];
    GroupCaptured(h);
    GroupCaptured(g);
    ReplacementIsFilled(h, md);
    ReplacementIsFilled(g, md);
  }

  lemma {:induction false} ExpectedSubst(ps: seq<Piece>, g: Piece, md: Tags)
    requires WellFormedPieces(ps) && g.Group? && WellFormedPiece(g)
    ensures Expected(Subst(ps, g, Filled(g, md)), md) == Expected(ps, md)
    decreases |ps|
  {
    if ps != [] {
      var qs := Subst(ps, g, Filled(g, md));
      assert qs[1..] == Subst(ps[1..], g, Filled(g, md));
      ExpectedSubst(ps[1..], g, md);
      if ps[0].Group? && GroupExpr(ps[0]) == GroupExpr(g) {
        SameGroupSameFill(ps[0], g, md);
      }
    }
  }

  lemma {:induction false} AllPlain(ps: seq<Piece>, md: Tags)
    requires forall pc :: pc in ps ==> pc.Plain?
    ensures Template(ps) == Expected(ps, md)
    decreases |ps|
  {
    if ps != [] {
      assert ps[0] in ps;
      assert forall pc :: pc in ps[1..] ==> pc in ps;
      AllPlain(ps[1..], md);
    }
  }

  predicate NoDollarValues(md: Tags)
  {
    forall k :: k in md ==> '$' !in md[k]
  }

  /** Replacing the groups in `gs` one after another yields the intended text. */
  lemma {:induction false} RenderTemplate(ps: seq<Piece>, gs: seq<Piece>, md: Tags)
    requires WellFormedPieces(ps) && WellFormedPieces(gs) && NoDollarValues(md)
    requires forall g :: g in gs ==> g.Group?
    requires forall h :: h in ps && h.Group? ==> h in gs
    ensures Render(Template(ps), CapturesFor(gs), md) == Expected(ps, md)
    decreases |gs|
  {
    if gs == [] {
      AllPlain(ps, md);
    } else {
      var g := gs[0];
      var r := Filled(g, md);
      assert WellFormedPiece(g);
      ReplacementIsFilled(g, md);
      assert '$' !in r;
      ReplaceTemplate(ps, g, r);
      var qs := Subst(ps, g, r);
      assert WellFormedPieces(qs);
      forall h | h in qs && h.Group? ensures h in gs[1..] {
        var i :| 0 <= i < |qs| && qs[i] == h;
        assert ps[i] == h && GroupExpr(h) != GroupExpr(g);
        assert h in gs;
      }
      assert CapturesFor(gs)[1..] == CapturesFor(gs[1..]);
      RenderTemplate(qs, gs[1..], md);
      ExpectedSubst(ps, g, md);
    }
  }

  /**
   * The formatter on any template of plain text and groups: every group is
   * replaced by its text with the value filled in, a group whose tag has no
   * value disappears, and the text outside the groups is kept (as long as no
   * value holds a '$').
   */
  lemma FormatTemplate(ps: seq<Piece>, md: Tags)
    requires WellFormedPieces(ps) && NoDollarValues(md)
    ensures Format(Template(ps), md) == Expected(ps, md)
  {
    CapturesTemplate(ps);
    RenderTemplate(ps, GroupsOf(ps), md);
  }

  /** The template of the formatter's unit test, which is also the default display-name format. */
  const EXAMPLE_PIECES := [
    Group("", "File Name", ""),
    Group(" • ƒ", "Aperture", ""),
    Group(" • ", "Shutter Speed", ""),
    Group(" • ", "ISO", " ISO")]
  const EXAMPLE_TAGS: Tags := map["File Name" := "test.jpg", "Aperture" := "5.0", "ISO" := "500"]

  lemma TemplateCons(pc: Piece, rest: seq<Piece>, md: Tags)
    ensures Template([pc] + rest) == PieceText(pc) + Template(rest)
    ensures Expected([pc] + rest, md) == (if pc.Plain? then pc.text else Filled(pc, md)) + Expected(rest, md)
  {
    assert ([pc] + rest)[1..] == rest;
  }

  lemma TemplateFour(g1: Piece, g2: Piece, g3: Piece, g4: Piece, md: Tags)
    ensures Template([g1, g2, g3, g4]) == PieceText(g1) + (PieceText(g2) + (PieceText(g3) + (PieceText(g4) + [])))
    ensures Expected([g1, g2, g3, g4], md) ==
      (if g1.Plain? then g1.text else Filled(g1, md)) + ((if g2.Plain? then g2.text else Filled(g2, md))
      + ((if g3.Plain? then g3.text else Filled(g3, md)) + ((if g4.Plain? then g4.text else Filled(g4, md)) + [])))
  {
    assert [g1, g2, g3, g4] == [g1] + ([g2] + ([g3] + ([g4] + [])));
    TemplateCons(g4, [], md);
    TemplateCons(g3, [g4] + [], md);
    TemplateCons(g2, [g3] + ([g4] + []), md);
    TemplateCons(g1, [g2] + ([g3] + ([g4] + [])), md);
  }

  /** The pieces spell the four groups of the test's template. */
  lemma ExampleText()
    ensures Template(EXAMPLE_PIECES)
      == "$(#File Name#)" + ("$( • ƒ#Aperture#)" + ("$( • #Shutter Speed#)" + ("$( • #ISO# ISO)" + [])))
  {
    var ps := EXAMPLE_PIECES;
    assert ps == [ps[0], ps[1], ps[2], ps[3]];
    TemplateFour(ps[0], ps[1], ps[2], ps[3], map[]);
    GroupTexts();
  }

  /** The text of each example group, as the concatenation `GroupExpr` spells it. */
  lemma GroupTexts()
    ensures "$(" + ("" + "#" + "File Name" + "#" + "") + ")" == "$(#File Name#)"
    ensures "$(" + (" • ƒ" + "#" + "Aperture" + "#" + "") + ")" == "$( • ƒ#Aperture#)"
    ensures "$(" + (" • " + "#" + "Shutter Speed" + "#" + "") + ")" == "$( • #Shutter Speed#)"
    ensures "$(" + (" • " + "#" + "ISO" + "#" + " ISO") + ")" == "$( • #ISO# ISO)"
  {
  }

  lemma ExampleWellFormed()
    ensures WellFormedPieces(EXAMPLE_PIECES) && NoDollarValues(EXAMPLE_TAGS)
  {
    var ps := EXAMPLE_PIECES;
    assert WellFormedPiece(ps[0]) by { TagName("File Name"); }
    assert WellFormedPiece(ps[1]) by { TagName("Aperture"); }
    assert WellFormedPiece(ps[2]) by { TagName("Shutter Speed"); }
    assert WellFormedPiece(ps[3]) by { TagName("ISO"); }
  }

  /** ASCII letters and spaces are tag characters. */
  lemma TagName(s: string)
    requires forall t :: 0 <= t < |s| ==> 'a' <= s[t] <= 'z' || 'A' <= s[t] <= 'Z' || s[t] == ' '
    ensures forall t :: 0 <= t < |s| ==> IsTagChar(s[t])
  {
  }

  /** The intended text of the example: the Shutter Speed group, whose tag has no value, gives nothing. */
  lemma ExampleExpected()
    ensures Expected(EXAMPLE_PIECES, EXAMPLE_TAGS) == "test.jpg" + (" • ƒ5.0" + ("" + (" • 500 ISO" + [])))
  {
    var ps, md := EXAMPLE_PIECES, EXAMPLE_TAGS;
    assert ps == [ps[0], ps[1], ps[2], ps[3]];
    TemplateFour(ps[0], ps[1], ps[2], ps[3], md);
    assert md["File Name"] == "test.jpg" && md["Aperture"] == "5.0" && md["ISO"] == "500";
    assert "Shutter Speed" !in md;
    assert Filled(ps[0], md) == "test.jpg";
    assert Filled(ps[1], md) == " • ƒ5.0";
    assert Filled(ps[2], md) == "";
    assert Filled(ps[3], md) == " • 500 ISO";
  }

  /** The unit test of the formatter: the group whose tag has no value disappears. */
  lemma FormatExample()
    ensures Format("$(#File Name#)" + "$( • ƒ#Aperture#)" + "$( • #Shutter Speed#)" + "$( • #ISO# ISO)", EXAMPLE_TAGS)
      == "test.jpg • ƒ5.0 • 500 ISO"
  {
    ExampleText();
    ExampleWellFormed();
    FormatTemplate(EXAMPLE_PIECES, EXAMPLE_TAGS);
    ExampleExpected();
    ExpectedLiteral();
    Regroup("$(#File Name#)", "$( • ƒ#Aperture#)", "$( • #Shutter Speed#)", "$( • #ISO# ISO)");
  }

  lemma Regroup(a: string, b: string, c: string, d: string)
    ensures a + b + c + d == a + (b + (c + (d + [])))
  {
    assert d + [] == d;
  }

  lemma ExpectedLiteral()
    ensures "test.jpg" + (" • ƒ5.0" + ("" + (" • 500 ISO" + []))) == "test.jpg • ƒ5.0 • 500 ISO"
  {
  }

  // ------------------------------------------------------ RAW/JPG grouping

  /** `file_stem().unwrap_or_default()`. */
  function StemKey(p: Path): (r: string)
    ensures FileName(p).None? ==> r == []
    ensures FileName(p).Some? ==> r <= FileName(p).value
  {
    if FileName(p).Some? then
      SplitAtDotRejoin(FileName(p).value);
      Stem(p).UnwrapOr([])
    else []
  }

  /** RAW files are recognised by their lower-cased extension. */
  predicate IsRaw(p: Path, raw: set<string>): (r: bool)
    ensures Extension(p).None? ==> (r <==> "" in raw)
  {
    Lower(ExtensionOrEmpty(p)) in raw
  }

  /** The first path of a run that is not RAW, if any. */
  function FirstNonRaw(run: seq<Path>, raw: set<string>): (r: Option<nat>)
    ensures r.Some? ==> r.value < |run| && !IsRaw(run[r.value], raw)
                        && forall j :: 0 <= j < r.value ==> IsRaw(run[j], raw)
    ensures r.None? ==> forall j :: 0 <= j < |run| ==> IsRaw(run[j], raw)
    decreases |run|
  {
    if run == [] then None
    else if !IsRaw(run[0], raw) then Some(0)
    else
      match FirstNonRaw(run[1..], raw)
      case None => None
      case Some(k) => Some(k + 1)
  }

  /** The path kept for a run: a lone path as it is, else the first non-RAW one, else the first. */
  function PickFromRun(run: seq<Path>, raw: set<string>): Path
    requires run != []
  {
    if |run| == 1 then run[0]
    else
      match FirstNonRaw(run, raw)
      case Some(k) => run[k]
      case None => run[0]
  }

  /** `group_raw_jpg_paths`: sort, cut into runs of equal stems, keep one path per run. */
  function GroupRawJpgPaths(paths: seq<Path>, raw: set<string>): (r: seq<Path>)
    ensures |r| <= |paths|
  {
    var sorted := Sorting.InsertionSort(paths, PathKey);
    var runs := ChunkBy(sorted, StemKey);
    FlattenAtLeast(runs);
    assert |sorted| == |multiset(sorted)| == |multiset(paths)| == |paths|;
    seq(|runs|, i requires 0 <= i < |runs| => PickFromRun(runs[i], raw))
  }

  /** Whatever the length of the run, the pick is its first non-RAW path, or its first path. */
  lemma PickFromRunSpec(run: seq<Path>, raw: set<string>)
    requires run != []
    ensures var k := PickFromRun(run, raw);
      k in run
      && ((exists j :: 0 <= j < |run| && !IsRaw(run[j], raw)) ==>
            !IsRaw(k, raw) && exists j :: 0 <= j < |run| && run[j] == k && forall l :: 0 <= l < j ==> IsRaw(run[l], raw))
      && ((forall j :: 0 <= j < |run| ==> IsRaw(run[j], raw)) ==> k == run[0])
  {
    var f := FirstNonRaw(run, raw);
    if |run| == 1 && f.Some? {
      assert f.value == 0;
    }
  }

  /** The output is in path order. */
  lemma GroupSorted(paths: seq<Path>, raw: set<string>)
    ensures Sorting.SortedBy(GroupRawJpgPaths(paths, raw), PathKey)
  {
    var sorted := Sorting.InsertionSort(paths, PathKey);
    var runs := ChunkBy(sorted, StemKey);
    var r := GroupRawJpgPaths(paths, raw);
    assert forall a, b :: 0 <= a < b < |sorted| ==> PathLe(sorted[a], sorted[b]);
    ChunkByOrdered(sorted, StemKey, PathLe);
    forall i, j | 0 <= i < j < |r| ensures Sorting.LexLe(PathKey(r[i]), PathKey(r[j])) {
      PickFromRunSpec(runs[i], raw);
      PickFromRunSpec(runs[j], raw);
      assert PathLe(r[i], r[j]);
    }
  }

  /**
   * One path per run of equal stems: neighbouring outputs have different
   * stems, each output comes from the input, and only empty input gives
   * empty output.
   */
  lemma GroupOnePerRun(paths: seq<Path>, raw: set<string>)
    ensures var r := GroupRawJpgPaths(paths, raw);
      (forall i :: 0 < i < |r| ==> StemKey(r[i]) != StemKey(r[i - 1]))
      && (forall i :: 0 <= i < |r| ==> r[i] in paths)
      && (r == [] <==> paths == [])
  {
    var sorted := Sorting.InsertionSort(paths, PathKey);
    var runs := ChunkBy(sorted, StemKey);
    var r := GroupRawJpgPaths(paths, raw);
    forall i | 0 <= i < |r| ensures r[i] in paths && StemKey(r[i]) == StemKey(runs[i][0]) {
      PickFromRunSpec(runs[i], raw);
      FlattenMember(runs, i, r[i]);
      assert r[i] in multiset(sorted);
    }
    if paths != [] {
      assert paths[0] in multiset(sorted);
    }
  }

  /**
   * Every stem of the input reaches the output, and a stem with a non-RAW
   * file gives a non-RAW file.
   */
  lemma GroupCovers(paths: seq<Path>, raw: set<string>, p: Path)
    requires p in paths
    ensures var r := GroupRawJpgPaths(paths, raw);
      exists i :: 0 <= i < |r| && StemKey(r[i]) == StemKey(p) && (!IsRaw(p, raw) ==> !IsRaw(r[i], raw))
  {
    var sorted := Sorting.InsertionSort(paths, PathKey);
    var runs := ChunkBy(sorted, StemKey);
    var r := GroupRawJpgPaths(paths, raw);
    assert p in multiset(paths);
    assert p in sorted;
    FlattenHas(runs, p);
    var i :| 0 <= i < |runs| && p in runs[i];
    var j :| 0 <= j < |runs[i]| && runs[i][j] == p;
    PickFromRunSpec(runs[i], raw);
    assert r[i] == PickFromRun(runs[i], raw);
    assert StemKey(r[i]) == StemKey(runs[i][0]) == StemKey(p);
  }

  /** A RAW file and a non-RAW file with the same stem give the non-RAW one, in either order. */
  lemma GroupPrefersNonRaw(rawFile: Path, other: Path, raw: set<string>)
    requires StemKey(rawFile) == StemKey(other)
    requires IsRaw(rawFile, raw) && !IsRaw(other, raw)
    ensures GroupRawJpgPaths([rawFile, other], raw) == [other]
    ensures GroupRawJpgPaths([other, rawFile], raw) == [other]
  {
    TwoSameStem(rawFile, other, raw);
    TwoSameStem(other, rawFile, raw);
  }

  /** A path given twice comes out once. */
  lemma GroupDuplicateCollapses(p: Path, raw: set<string>)
    ensures GroupRawJpgPaths([p, p], raw) == [p]
  {
    TwoSameStem(p, p, raw);
  }

  /** A single path comes out as it is. */
  lemma GroupSingle(p: Path, raw: set<string>)
    ensures GroupRawJpgPaths([p], raw) == [p]
  {
    var sorted := Sorting.InsertionSort([p], PathKey);
    assert |sorted| == 1 && sorted[0] in multiset([p]);
    assert sorted == [p];
    assert ChunkBy([p], StemKey) == [[p]];
  }

  /** Two paths with one stem form one run; the pick is made on the sorted pair. */
  lemma TwoSameStem(x: Path, y: Path, raw: set<string>)
    requires StemKey(x) == StemKey(y)
    ensures var r := GroupRawJpgPaths([x, y], raw);
      r == [r[0]] && (r[0] == x || r[0] == y)
      && (IsRaw(x, raw) && !IsRaw(y, raw) ==> r[0] == y)
      && (!IsRaw(x, raw) && IsRaw(y, raw) ==> r[0] == x)
  {
    var sorted := Sorting.InsertionSort([x, y], PathKey);
    assert sorted == [x, y] || sorted == [y, x] by {
      PairPermutation(x, y, sorted);
    }
    var a, b := sorted[0], sorted[1];
    assert ChunkBy(sorted, StemKey) == [[a, b]] by {
      assert sorted == [a, b];
      ChunkByPair(a, b, StemKey);
    }
    assert GroupRawJpgPaths([x, y], raw) == [PickFromRun([a, b], raw)];
    PickPair(a, b, raw);
  }

  /** From a run of two, the first non-RAW path, else the first. */
  lemma PickPair(a: Path, b: Path, raw: set<string>)
    ensures PickFromRun([a, b], raw) == if !IsRaw(a, raw) then a else if !IsRaw(b, raw) then b else a
  {
    assert [a, b][1..] == [b] && [b][1..] == [];
    var f := FirstNonRaw([a, b], raw);
    if !IsRaw(a, raw) {
      assert f == Some(0);
    } else if !IsRaw(b, raw) {
      assert FirstNonRaw([b], raw) == Some(0);
      assert f == Some(1);
    } else {
      assert FirstNonRaw([b], raw) == None;
    }
  }

  // ---------------------------------------------------------- cache batches

  /** Each chunk is split among four exiftool processes. */
  const SUB_CHUNK_SIZE: nat := CHUNK_SIZE / 4

  /** `retain(|x| !cached.contains(x))`: the paths not cached yet, in their order. */
  function Retain(paths: seq<string>, cached: seq<string>): (r: seq<string>)
    ensures forall x :: x in r <==> x in paths && x !in cached
    ensures |r| <= |paths|
    decreases |paths|
  {
    if paths == [] then []
    else
      var rest := Retain(paths[1..], cached);
      assert forall x :: x in paths <==> x == paths[0] || x in paths[1..];
      if paths[0] in cached then rest else [paths[0]] + rest
  }

  /** The path handed to the record parser: only when exactly one path is left to cache. */
  function SinglePath(toCache: seq<string>): (r: Option<string>)
    ensures r.Some? <==> |toCache| == 1
    ensures r.Some? ==> r.value == toCache[0]
  {
    if |toCache| == 1 then Some(toCache[0]) else None
  }

  /** Chunks of `CHUNK_SIZE` paths, each cut into sub-chunks of `SUB_CHUNK_SIZE`. */
  function Batches(toCache: seq<string>): seq<seq<seq<string>>>
  {
    SubChunked(Chunks(toCache, CHUNK_SIZE))
  }

  /** Every chunk cut into sub-chunks of `SUB_CHUNK_SIZE`, in order. */
  function SubChunked(chunks: seq<seq<string>>): seq<seq<seq<string>>>
    decreases |chunks|
  {
    if chunks == [] then []
    else SubChunked(chunks[..|chunks| - 1]) + [Chunks(chunks[|chunks| - 1], SUB_CHUNK_SIZE)]
  }

  /**
   * The remaining-time estimate logged after `processed` of `total` chunks:
   * the average chunk time so far times the chunks left, in whole minutes
   * and seconds, all in integer division.
   */
  function Eta(totalMs: nat, processed: nat, total: nat): (r: Option<(nat, nat)>)
    requires processed > 0
    ensures r.Some? <==> processed < total
    ensures r.Some? ==> r.value.1 < 60 && r.value.0 * 60 + r.value.1 == Scaled(totalMs / processed, total - processed) / 1000
  {
    if processed < total then
      var secs := Scaled(totalMs / processed, total - processed) / 1000;
      Some((secs / 60, secs % 60))
    else None
  }

  /** The product of two naturals, kept apart so that its sign is proved once. */
  function Scaled(avg: nat, left: nat): (r: nat)
    ensures left > 0 ==> r >= avg
  {
    avg * left
  }

  /** The total time after the first `k` chunks. */
  function ElapsedMs(chunkMs: nat -> nat, k: nat): nat
  {
    if k == 0 then 0 else ElapsedMs(chunkMs, k - 1) + chunkMs(k - 1)
  }

  /** The estimates logged after each of `n` chunks. */
  function Etas(chunkMs: nat -> nat, n: nat): seq<Option<(nat, nat)>>
  {
    EtasUpTo(chunkMs, n, n)
  }

  /** The estimates logged after the first `i` of `n` chunks. */
  function EtasUpTo(chunkMs: nat -> nat, i: nat, n: nat): seq<Option<(nat, nat)>>
  {
    if i == 0 then [] else EtasUpTo(chunkMs, i - 1, n) + [Eta(ElapsedMs(chunkMs, i), i, n)]
  }


  /** What the record parser makes of one exiftool output. */
  function ExiftoolOutcome(stdout: string, single: Option<string>): (r: InsertOutcome)
    ensures r.IndexPanic? <==> single.Some? && RecordsOf(stdout) == []
    ensures r.InsertRows? ==>
      (|r.rows| == |RecordsOf(stdout)|
       && (forall i :: 0 <= i < |r.rows| && (single.None? || i > 0) ==> r.rows[i] == RecordsOf(stdout)[i])
       && (single.Some? ==> r.rows[0] == (single.value, RecordsOf(stdout)[0].1)))
  {
    var recs := RecordsOf(stdout);
    if single.None? then InsertRows(recs)
    else if recs == [] then IndexPanic
    else InsertRows(recs[0 := (single.value, recs[0].1)])
  }

  /** One outcome per sub-chunk whose exiftool run produced output. */
  function Outcomes(subs: seq<seq<string>>, exiftool: seq<string> -> Option<string>, single: Option<string>): seq<InsertOutcome>
    decreases |subs|
  {
    if subs == [] then []
    else Outcomes(subs[..|subs| - 1], exiftool, single) + SubChunkOutcome(subs[|subs| - 1], exiftool, single)
  }

  /** One exiftool run: nothing when the process fails, otherwise its parsed output. */
  function SubChunkOutcome(sub: seq<string>, exiftool: seq<string> -> Option<string>, single: Option<string>): seq<InsertOutcome>
  {
    match exiftool(sub)
    case None => []
    case Some(out) => [ExiftoolOutcome(out, single)]
  }

  datatype CacheRun =
    /** The lookup of cached paths failed: nothing is cached. */
    | Aborted
    | Cached(toCache: seq<string>, single: Option<string>, batches: seq<seq<seq<string>>>,
             outcomes: seq<InsertOutcome>, etas: seq<Option<(nat, nat)>>)

  lemma {:induction false} OutcomesConcat(a: seq<seq<string>>, b: seq<seq<string>>,
                                          exiftool: seq<string> -> Option<string>, single: Option<string>)
    ensures Outcomes(a + b, exiftool, single) == Outcomes(a, exiftool, single) + Outcomes(b, exiftool, single)
    decreases |b|
  {
    if b == [] {
      assert a + b == a;
    } else {
      var ab := a + b;
      var init := b[..|b| - 1];
      var last := SubChunkOutcome(b[|b| - 1], exiftool, single);
      ConcatInit(a, b);
      OutcomesConcat(a, init, exiftool, single);
      calc {
        Outcomes(ab, exiftool, single);
        Outcomes(a + init, exiftool, single) + last;
        (Outcomes(a, exiftool, single) + Outcomes(init, exiftool, single)) + last;
        Outcomes(a, exiftool, single) + (Outcomes(init, exiftool, single) + last);
      }
    }
  }

  /** One more chunk sub-chunked: its exiftool runs follow those of the chunks before it. */
  lemma CacheStep(chunks: seq<seq<string>>, i: nat, batches: seq<seq<seq<string>>>,
                  exiftool: seq<string> -> Option<string>, single: Option<string>)
    requires i < |chunks| && batches == SubChunked(chunks[..i])
    ensures batches + [Chunks(chunks[i], SUB_CHUNK_SIZE)] == SubChunked(chunks[..i + 1])
    ensures Outcomes(Flatten(batches + [Chunks(chunks[i], SUB_CHUNK_SIZE)]), exiftool, single)
         == Outcomes(Flatten(batches), exiftool, single) + Outcomes(Chunks(chunks[i], SUB_CHUNK_SIZE), exiftool, single)
  {
    var subs := Chunks(chunks[i], SUB_CHUNK_SIZE);
    PrefixStep(chunks, i);
    FlattenAppend(batches, subs);
    OutcomesConcat(Flatten(batches), subs, exiftool, single);
  }


  /** The exiftool runs of one chunk, each output parsed into records. */
  method CacheChunk(subs: seq<seq<string>>, exiftool: seq<string> -> Option<string>, single: Option<string>)
    returns (outcomes: seq<InsertOutcome>)
    ensures outcomes == Outcomes(subs, exiftool, single)
  {
    outcomes := [];
    var j := 0;
    while j < |subs|
      invariant 0 <= j <= |subs|
      invariant outcomes == Outcomes(subs[..j], exiftool, single)
    {
      assert subs[..j + 1][..j] == subs[..j];
      var out := exiftool(subs[j]);
      if out.Some? {
        var o := ParseExiftoolOutput(out.value, single);
        outcomes := outcomes + [o];
      }
      j := j + 1;
    }
    assert subs[..j] == subs;
  }

  /**
   * `cache_metadata_for_images`: the lookup of cached paths (`cached`), the
   * exiftool runs (`exiftool`, None when the process fails) and the chunk
   * timings (`chunkMs`) are given.
   */
  method CacheMetadataForImages(paths: seq<string>, cached: Option<seq<string>>,
                                exiftool: seq<string> -> Option<string>, chunkMs: nat -> nat)
    returns (r: CacheRun)
    ensures cached.None? ==> r == Aborted
    ensures cached.Some? ==>
      var toCache := Retain(paths, cached.value);
      var single := SinglePath(toCache);
      var batches := Batches(toCache);
      r == Cached(toCache, single, batches, Outcomes(Flatten(batches), exiftool, single),
                  Etas(chunkMs, |batches|))
  {
    if cached.None? {
      return Aborted;
    }
    var toCache := Retain(paths, cached.value);
    var single := SinglePath(toCache);
    var chunks := Chunks(toCache, CHUNK_SIZE);
    var batches: seq<seq<seq<string>>> := [];
    var outcomes: seq<InsertOutcome> := [];
    var etas: seq<Option<(nat, nat)>> := [];
    var totalMs := 0;
    var i := 0;
    while i < |chunks|
      invariant 0 <= i <= |chunks|
      invariant batches == SubChunked(chunks[..i])
      invariant outcomes == Outcomes(Flatten(batches), exiftool, single)
      invariant totalMs == ElapsedMs(chunkMs, i)
      invariant etas == EtasUpTo(chunkMs, i, |chunks|)
    {
      var subs := Chunks(chunks[i], SUB_CHUNK_SIZE);
      var outs := CacheChunk(subs, exiftool, single);
      CacheStep(chunks, i, batches, exiftool, single);
      outcomes := outcomes + outs;
      batches := batches + [subs];
      totalMs := totalMs + chunkMs(i);
      etas := etas + [Eta(totalMs, i + 1, |chunks|)];
      i := i + 1;
    }
    assert chunks[..i] == chunks;
    SubChunkedAt(chunks);
    assert batches == Batches(toCache) && |batches| == |chunks|;
    r := Cached(toCache, single, batches, outcomes, etas);
  }

  /**
   * Every chunk holds at most `CHUNK_SIZE` paths and goes to at most four
   * exiftool runs of at most `SUB_CHUNK_SIZE` paths; together the runs cover
   * the paths to cache, each once, in order.
   */
  lemma BatchBounds(toCache: seq<string>)
    ensures var b := Batches(toCache);
      (forall i :: 0 <= i < |b| ==>
        0 < |Flatten(b[i])| <= CHUNK_SIZE && 0 < |b[i]| <= 4 && forall j :: 0 <= j < |b[i]| ==> 0 < |b[i][j]| <= SUB_CHUNK_SIZE)
      && Flatten(Flatten(b)) == toCache
  {
    var chunks := Chunks(toCache, CHUNK_SIZE);
    var b := Batches(toCache);
    SubChunkedAt(chunks);
    forall i | 0 <= i < |b| ensures 0 < |b[i]| <= 4 {
      ChunksCount(chunks[i], SUB_CHUNK_SIZE, 4);
    }
    FlattenSubChunked(chunks);
  }

  lemma {:induction false} SubChunkedAt(chunks: seq<seq<string>>)
    ensures |SubChunked(chunks)| == |chunks|
    ensures forall i :: 0 <= i < |chunks| ==> SubChunked(chunks)[i] == Chunks(chunks[i], SUB_CHUNK_SIZE)
    decreases |chunks|
  {
    if chunks != [] {
      SubChunkedAt(chunks[..|chunks| - 1]);
    }
  }

  /** Sub-chunking loses and reorders no path. */
  lemma {:induction false} FlattenSubChunked(chunks: seq<seq<string>>)
    ensures Flatten(Flatten(SubChunked(chunks))) == Flatten(chunks)
    decreases |chunks|
  {
    if chunks != [] {
      var init := chunks[..|chunks| - 1];
      var last := chunks[|chunks| - 1];
      var subs := Chunks(last, SUB_CHUNK_SIZE);
      FlattenSubChunked(init);
      FlattenAppend(SubChunked(init), subs);
      FlattenConcat(Flatten(SubChunked(init)), subs);
      assert init + [last] == chunks;
      FlattenAppend(init, last);
    }
  }

  /** Paths already cached are never handed to exiftool again. */
  lemma CachedPathsSkipped(paths: seq<string>, cached: seq<string>)
    ensures Retain(paths, cached) == [] <==> forall x :: x in paths ==> x in cached
  {
    var r := Retain(paths, cached);
    if r != [] {
      assert r[0] in r;
    }
  }
}
