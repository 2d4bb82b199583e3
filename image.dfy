/**
 * The decision logic of the image pipeline: which decoder reads a buffer,
 * the size a picture is resized to, how the Orientation tag turns it
 * upright, when colour management runs and which profiles it uses, the
 * RGB to RGBA expansion of the texture upload, and the order and fallbacks
 * of the stages of a load.
 *
 * Decoders, the resampler, the colour transform, exiftool and the GPU are
 * oracles: fields of an `Env` value.
 */
module Image {
  import opened Wrappers
  import opened Text
  import opened Paths
  import opened Seqs
  import Icc
  import Metadata
  import opened Arith

  type Byte = bv8

  datatype Rgb = Rgb(r: Byte, g: Byte, b: Byte)

  // ---------------------------------------------------------------- pictures

  /** A decoded picture: `h` rows of `w` pixels each. */
  datatype RawGrid<T> = RawGrid(w: nat, h: nat, rows: seq<seq<T>>)
  {
    predicate Valid()
    {
      |rows| == h && forall y :: 0 <= y < h ==> |rows[y]| == w
    }
  }

  type Grid<T> = g: RawGrid<T> | g.Valid() witness RawGrid(0, 0, [])

  function FlipH<T>(g: Grid<T>): (r: Grid<T>)
    ensures r.w == g.w && r.h == g.h
    ensures forall y, x :: 0 <= y < r.h && 0 <= x < r.w ==> r.rows[y][x] == g.rows[y][g.w - 1 - x]
  {
    RawGrid(g.w, g.h, seq(g.h, y requires 0 <= y < g.h => seq(g.w, x requires 0 <= x < g.w => g.rows[y][g.w - 1 - x])))
  }

  function FlipV<T>(g: Grid<T>): (r: Grid<T>)
    ensures r.w == g.w && r.h == g.h
    ensures forall y, x :: 0 <= y < r.h && 0 <= x < r.w ==> r.rows[y][x] == g.rows[g.h - 1 - y][x]
  {
    RawGrid(g.w, g.h, seq(g.h, y requires 0 <= y < g.h => seq(g.w, x requires 0 <= x < g.w => g.rows[g.h - 1 - y][x])))
  }

  /** A quarter turn clockwise. */
  function Rotate90<T>(g: Grid<T>): (r: Grid<T>)
    ensures r.w == g.h && r.h == g.w
    ensures forall y, x :: 0 <= y < r.h && 0 <= x < r.w ==> r.rows[y][x] == g.rows[g.h - 1 - x][y]
  {
    RawGrid(g.h, g.w, seq(g.w, y requires 0 <= y < g.w => seq(g.h, x requires 0 <= x < g.h => g.rows[g.h - 1 - x][y])))
  }

  function Rotate180<T>(g: Grid<T>): (r: Grid<T>)
    ensures r.w == g.w && r.h == g.h
    ensures forall y, x :: 0 <= y < r.h && 0 <= x < r.w ==> r.rows[y][x] == g.rows[g.h - 1 - y][g.w - 1 - x]
  {
    RawGrid(g.w, g.h, seq(g.h, y requires 0 <= y < g.h =>
      seq(g.w, x requires 0 <= x < g.w => g.rows[g.h - 1 - y][g.w - 1 - x])))
  }

  /** Three quarter turns clockwise. */
  function Rotate270<T>(g: Grid<T>): (r: Grid<T>)
    ensures r.w == g.h && r.h == g.w
    ensures forall y, x :: 0 <= y < r.h && 0 <= x < r.w ==> r.rows[y][x] == g.rows[x][g.w - 1 - y]
  {
    RawGrid(g.h, g.w, seq(g.w, y requires 0 <= y < g.w => seq(g.h, x requires 0 <= x < g.h => g.rows[x][g.w - 1 - y])))
  }

  // ------------------------------------------------------------- orientation

  /** The operations `orient` applies for each Orientation value. */
  function ApplyOrientation<T>(g: Grid<T>, o: Metadata.Orientation): (r: Grid<T>)
    ensures ZeroRowSide(o) in {Top, Bottom} ==> r.w == g.w && r.h == g.h
    ensures ZeroRowSide(o) in {LeftSide, RightSide} ==> r.w == g.h && r.h == g.w
  {
    match o
    case Normal => g
    case MirrorHorizontal => FlipH(g)
    case Rotate180 => Rotate180(g)
    case MirrorVertical => FlipV(g)
    case MirrorHorizontalRotate270 => Rotate270(FlipH(g))
    case Rotate90CW => Rotate90(g)
    case MirrorHorizontalRotate90CW => Rotate90(FlipH(g))
    case Rotate270CW => Rotate270(g)
  }

  /** `orient`: the picture unchanged when the metadata has no Orientation tag. */
  function Orient<T>(g: Grid<T>, md: Metadata.Tags): (r: Grid<T>)
    ensures Metadata.METADATA_ORIENTATION !in md ==> r == g
    ensures Metadata.METADATA_ORIENTATION in md ==>
      r == ApplyOrientation(g, Metadata.FromOrientationMetadata(md[Metadata.METADATA_ORIENTATION]))
  {
    if Metadata.METADATA_ORIENTATION in md then
      ApplyOrientation(g, Metadata.FromOrientationMetadata(md[Metadata.METADATA_ORIENTATION]))
    else g
  }

  datatype Side = Top | Bottom | LeftSide | RightSide

  /**
   * The table of the Orientation field in section 8 of TIFF 6.0: the
   * visual side the stored picture's 0th row is on ...
   */
  function ZeroRowSide(o: Metadata.Orientation): Side
  {
    match o
    case Normal => Top
    case MirrorHorizontal => Top
    case Rotate180 => Bottom
    case MirrorVertical => Bottom
    case MirrorHorizontalRotate270 => LeftSide
    case Rotate90CW => RightSide
    case MirrorHorizontalRotate90CW => RightSide
    case Rotate270CW => LeftSide
  }

  /** ... and the visual side its 0th column is on. */
  function ZeroColumnSide(o: Metadata.Orientation): Side
  {
    match o
    case Normal => LeftSide
    case MirrorHorizontal => RightSide
    case Rotate180 => RightSide
    case MirrorVertical => LeftSide
    case MirrorHorizontalRotate270 => Top
    case Rotate90CW => Top
    case MirrorHorizontalRotate90CW => Bottom
    case Rotate270CW => Bottom
  }

  /** How far the upright pixel (x, y) of a `w` by `h` picture is from a side. */
  function FromSide(s: Side, w: nat, h: nat, x: nat, y: nat): int
  {
    match s
    case Top => y
    case Bottom => h - 1 - y
    case LeftSide => x
    case RightSide => w - 1 - x
  }

  /**
   * Turning upright follows the TIFF table: the upright pixel (x, y) is the
   * stored pixel whose row number is its distance from the 0th row's side
   * and whose column number is its distance from the 0th column's side. The
   * picture is transposed exactly when the 0th row lies on the left or right.
   */
  ghost predicate FollowsTiff<T>(g: Grid<T>, o: Metadata.Orientation)
  {
    var r := ApplyOrientation(g, o);
    var transposed := ZeroRowSide(o) == LeftSide || ZeroRowSide(o) == RightSide;
    (if transposed then r.w == g.h && r.h == g.w else r.w == g.w && r.h == g.h)
    && forall y, x :: 0 <= y < r.h && 0 <= x < r.w ==>
      var sy := FromSide(ZeroRowSide(o), r.w, r.h, x, y);
      var sx := FromSide(ZeroColumnSide(o), r.w, r.h, x, y);
      0 <= sy < g.h && 0 <= sx < g.w && r.rows[y][x] == g.rows[sy][sx]
  }

  /** Every Orientation value turns the picture upright as the TIFF table says. */
  lemma OrientationFollowsTiff<T>(g: Grid<T>, o: Metadata.Orientation)
    ensures FollowsTiff(g, o)
  {
    if o.Normal? || o.MirrorHorizontal? || o.Rotate180? || o.MirrorVertical? {
      KeptAxesFollowTiff(g, o);
    } else {
      SwappedAxesFollowTiff(g, o);
    }
  }

  /** The four values whose 0th row is on the top or the bottom. */
  lemma KeptAxesFollowTiff<T>(g: Grid<T>, o: Metadata.Orientation)
    requires o.Normal? || o.MirrorHorizontal? || o.Rotate180? || o.MirrorVertical?
    ensures FollowsTiff(g, o)
  {
  }

  /** The four values whose 0th row is on the left or the right, one at a time. */
  lemma SwappedAxesFollowTiff<T>(g: Grid<T>, o: Metadata.Orientation)
    requires !(o.Normal? || o.MirrorHorizontal? || o.Rotate180? || o.MirrorVertical?)
    ensures FollowsTiff(g, o)
  {
    match o
    case MirrorHorizontalRotate270 => TransposeFollowsTiff(g);
    case MirrorHorizontalRotate90CW => AntiTransposeFollowsTiff(g);
    case Rotate90CW => Rotate90FollowsTiff(g);
    case Rotate270CW => Rotate270FollowsTiff(g);
  }

  lemma TransposeFollowsTiff<T>(g: Grid<T>)
    ensures FollowsTiff(g, Metadata.MirrorHorizontalRotate270)
  {
    var f := FlipH(g);
    var r := Rotate270(f);
    forall y, x | 0 <= y < r.h && 0 <= x < r.w
      ensures r.rows[y][x] == g.rows[x][y]
    {
      assert r.rows[y][x] == f.rows[x][f.w - 1 - y];
    }
  }

  lemma AntiTransposeFollowsTiff<T>(g: Grid<T>)
    ensures FollowsTiff(g, Metadata.MirrorHorizontalRotate90CW)
  {
    var f := FlipH(g);
    var r := Rotate90(f);
    forall y, x | 0 <= y < r.h && 0 <= x < r.w
      ensures r.rows[y][x] == g.rows[g.h - 1 - x][g.w - 1 - y]
    {
      assert r.rows[y][x] == f.rows[f.h - 1 - x][y];
    }
  }

  lemma Rotate90FollowsTiff<T>(g: Grid<T>)
    ensures FollowsTiff(g, Metadata.Rotate90CW)
  {
    var r := Rotate90(g);
    assert forall y, x :: 0 <= y < r.h && 0 <= x < r.w ==> r.rows[y][x] == g.rows[g.h - 1 - x][y];
  }

  lemma Rotate270FollowsTiff<T>(g: Grid<T>)
    ensures FollowsTiff(g, Metadata.Rotate270CW)
  {
    var r := Rotate270(g);
    assert forall y, x :: 0 <= y < r.h && 0 <= x < r.w ==> r.rows[y][x] == g.rows[x][g.w - 1 - y];
  }

  /** Without an Orientation tag, and for an unknown value, the picture is kept. */
  lemma OrientKeeps<T>(g: Grid<T>, md: Metadata.Tags)
    requires Metadata.METADATA_ORIENTATION !in md
      || Metadata.FromOrientationMetadata(md[Metadata.METADATA_ORIENTATION]) == Metadata.Normal
    ensures Orient(g, md) == g
  {
  }

  // ------------------------------------------------------------------ resize

  /**
   * `dest * num / den` rounded down: the side that keeps the aspect ratio
   * once the other side is fixed (the program computes it in `f32`).
   */
  function Proportional(dest: nat, num: nat, den: nat): (r: nat)
    requires den > 0
  {
    Product(dest, num) / den
  }

  function Product(a: nat, b: nat): (r: nat)
  {
    a * b
  }

  lemma ProportionalBound(dest: nat, num: nat, den: nat)
    requires 0 < den && dest <= den
    ensures Proportional(dest, num, den) <= num
  {
    MulLe(dest, den, num);
    DivAtMost(Product(dest, num), den, num);
  }

  lemma ProportionalSame(num: nat, den: nat)
    requires 0 < den
    ensures Proportional(den, num, den) == num
  {
    DivExact(den, num);
  }

  /**
   * The target size of `resize` as written: the longer side (the height on
   * a tie) is capped at `target` and the other keeps the aspect ratio, but
   * a portrait picture that fits takes its width as height.
   */
  function ResizeDimsAsWritten(w: nat, h: nat, target: nat): (r: (nat, nat))
    ensures r.0 <= w && r.1 <= h
    ensures w > h ==> r.0 == (if w > target then target else w)
    ensures w <= h ==> r.1 == (if h > target then target else w)
  {
    if w > h then
      var dw := if w > target then target else w;
      ProportionalBound(dw, h, w);
      (dw, Proportional(dw, h, w))
    else
      var dh := if h > target then target else w;
      if h == 0 then (0, dh)
      else
        ProportionalBound(dh, w, h);
        (Proportional(dh, w, h), dh)
  }

  /** A portrait picture smaller than the target shrinks to its width. */
  lemma ResizeDimsAsWrittenShrinks()
    ensures ResizeDimsAsWritten(50, 100, 200) == (25, 50)
  {
    assert Product(50, 50) == 2500;
  }

  /**
   * The target size of `resize`: the longer side is capped at `target`,
   * the other one keeps the aspect ratio.
   */
  function ResizeDims(w: nat, h: nat, target: nat): (r: (nat, nat))
    ensures r.0 <= w && r.1 <= h
    ensures w > h ==> r.0 == (if w > target then target else w)
    ensures w <= h ==> r.1 == (if h > target then target else h)
  {
    if w > h then
      var dw := if w > target then target else w;
      ProportionalBound(dw, h, w);
      (dw, Proportional(dw, h, w))
    else
      var dh := if h > target then target else h;
      if h == 0 then (0, dh)
      else
        ProportionalBound(dh, w, h);
        (Proportional(dh, w, h), dh)
  }

  /** The sizes as written and as intended differ exactly for a portrait picture that fits the target. */
  lemma ResizeDimsAsWrittenDiffers(w: nat, h: nat, target: nat)
    ensures ResizeDimsAsWritten(w, h, target) != ResizeDims(w, h, target) <==> w < h <= target
  {
    if w < h <= target {
      assert ResizeDimsAsWritten(w, h, target).1 == w;
      assert ResizeDims(w, h, target).1 == h;
    }
  }

  /** A picture within the target on both sides keeps its size. */
  lemma ResizeDimsFits(w: nat, h: nat, target: nat)
    requires w <= target && h <= target
    ensures ResizeDims(w, h, target) == (w, h)
  {
    if w > h {
      ProportionalSame(h, w);
    } else if h > 0 {
      ProportionalSame(w, h);
    }
  }

  /**
   * `resize`, with the target size as written. The resampler `resample`
   * stands for building the source buffer, resampling and rebuilding an RGB
   * picture; it gives None when any of these fails.
   */
  function Resize(g: Grid<Rgb>, target: Option<nat>, resample: (Grid<Rgb>, nat, nat) -> Option<Grid<Rgb>>): (r: Grid<Rgb>)
    ensures target.None? ==> r == g
    ensures r.w <= g.w && r.h <= g.h
    ensures target.Some? ==>
      var (dw, dh) := ResizeDimsAsWritten(g.w, g.h, target.value);
      if dw == 0 || dh == 0 || resample(g, dw, dh).None? || resample(g, dw, dh).value.w != dw
        || resample(g, dw, dh).value.h != dh
      then r == g
      else r == resample(g, dw, dh).value
  {
    match target
    case None => g
    case Some(t) =>
      var (dw, dh) := ResizeDimsAsWritten(g.w, g.h, t);
      if dw == 0 || dh == 0 then g
      else
        match resample(g, dw, dh)
        case None => g
        case Some(out) => if out.w == dw && out.h == dh then out else g
  }

  // ----------------------------------------------------------------- decode

  /** The decoders: JPEG XL and everything the generic decoder recognises. */
  datatype Decoders = Decoders(jxl: seq<Byte> -> Option<Grid<Rgb>>, generic: seq<Byte> -> Option<Grid<Rgb>>)

  /** `decode`: the JPEG XL decoder exactly for the extension `jxlExt`, letter case included. */
  function Decode(buffer: seq<Byte>, path: Path, jxlExt: string, dec: Decoders): (r: Option<Grid<Rgb>>)
    ensures ExtensionOrEmpty(path) == jxlExt ==> r == dec.jxl(buffer)
    ensures ExtensionOrEmpty(path) != jxlExt ==> r == dec.generic(buffer)
  {
    if ExtensionOrEmpty(path) == jxlExt then dec.jxl(buffer) else dec.generic(buffer)
  }

  // -------------------------------------------------------- colour management

  /** An ICC profile: one of the built-in files, or one extracted from the picture file. */
  datatype IccData = BuiltIn(profile: Icc.Profile) | Embedded(bytes: seq<Byte>)

  /**
   * The profiles `apply_cc` transforms between, or None when it leaves the
   * pixels alone: the description already names the output profile, or a
   * profile cannot be resolved. `embedded` is what exiftool extracts from
   * the file; it is consulted only without a built-in match.
   */
  function CcPlan(desc: string, output: string, embedded: Option<seq<Byte>>): Option<(IccData, IccData)>
  {
    if Contains(Lower(desc), Lower(output)) then None
    else
      var input :=
        match Icc.ProfileDescToIcc(desc)
        case Some(p) => Some(BuiltIn(p))
        case None => if embedded.Some? then Some(Embedded(embedded.value)) else None;
      match (input, Icc.ProfileDescToIcc(output))
      case (Some(i), Some(o)) => Some((i, BuiltIn(o)))
      case _ => None
  }

  /** The same profile on both sides: nothing to do, whatever else holds. */
  lemma CcSkipsSameProfile(desc: string, output: string, embedded: Option<seq<Byte>>)
    requires Contains(Lower(desc), Lower(output))
    ensures CcPlan(desc, output, embedded) == None
  {
  }

  /**
   * A plan exists exactly when the description does not name the output
   * profile, the input profile resolves (built in first, else from the
   * file) and the output profile resolves among the built-in ones.
   */
  lemma CcPlanResolves(desc: string, output: string, embedded: Option<seq<Byte>>)
    ensures CcPlan(desc, output, embedded).Some? <==>
      !Contains(Lower(desc), Lower(output))
      && (Icc.ProfileDescToIcc(desc).Some? || embedded.Some?)
      && Icc.ProfileDescToIcc(output).Some?
    ensures CcPlan(desc, output, embedded).Some? ==>
      var (i, o) := CcPlan(desc, output, embedded).value;
      o == BuiltIn(Icc.ProfileDescToIcc(output).value)
      && (Icc.ProfileDescToIcc(desc).Some? ==> i == BuiltIn(Icc.ProfileDescToIcc(desc).value))
      && (Icc.ProfileDescToIcc(desc).None? ==> i == Embedded(embedded.value))
  {
  }

  /**
   * The pixels after `apply_cc`. `transform` stands for building both lcms2
   * profiles and the transform and running it; None when any step fails.
   */
  function CcResult(desc: string, output: string, embedded: Option<seq<Byte>>,
                    transform: (IccData, IccData, seq<Byte>) -> Option<seq<Byte>>, pixels: seq<Byte>): seq<Byte>
  {
    match CcPlan(desc, output, embedded)
    case None => pixels
    case Some((i, o)) =>
      match transform(i, o, pixels)
      case None => pixels
      case Some(t) => t
  }

  /** The transform of lcms2 from RGB_8 to RGB_8 keeps the buffer length. */
  ghost predicate KeepsLength(transform: (IccData, IccData, seq<Byte>) -> Option<seq<Byte>>)
  {
    forall i, o, s :: transform(i, o, s).Some? ==> |transform(i, o, s).value| == |s|
  }

  /** `apply_cc`: converts the pixel buffer in place, or leaves it untouched. */
  method ApplyCc(desc: string, pixels: array<Byte>, output: string, embedded: Option<seq<Byte>>,
                 transform: (IccData, IccData, seq<Byte>) -> Option<seq<Byte>>)
    requires KeepsLength(transform)
    modifies pixels
    ensures pixels[..] == CcResult(desc, output, embedded, transform, old(pixels[..]))
  {
    if Contains(Lower(desc), Lower(output)) {
      return;
    }
    var input: IccData;
    match Icc.ProfileDescToIcc(desc) {
      case Some(p) =>
        input := BuiltIn(p);
      case None =>
        if embedded.None? {
          return;
        }
        input := Embedded(embedded.value);
    }
    var outputProfile := Icc.ProfileDescToIcc(output);
    if outputProfile.None? {
      return;
    }
    var converted := transform(input, BuiltIn(outputProfile.value), pixels[..]);
    if converted.None? {
      return;
    }
    var t := converted.value;
    forall i | 0 <= i < pixels.Length {
      pixels[i] := t[i];
    }
  }

  // ------------------------------------------------------------ RGBA upload

  /** The RGB bytes of a pixel row. */
  function RowBytes(row: seq<Rgb>): (r: seq<Byte>)
    ensures |r| == 3 * |row|
    ensures forall k :: 0 <= k < |row| ==> r[3 * k .. 3 * k + 3] == [row[k].r, row[k].g, row[k].b]
  {
    if row == [] then []
    else
      var rest := RowBytes(row[1..]);
      var r := [row[0].r, row[0].g, row[0].b] + rest;
      forall k | 0 <= k < |row|
        ensures r[3 * k .. 3 * k + 3] == [row[k].r, row[k].g, row[k].b]
      {
        if k > 0 {
          var j := k - 1;
          assert 3 * k == 3 * j + 3;
          assert r[3 * k .. 3 * k + 3] == rest[3 * j .. 3 * j + 3];
          assert row[k] == row[1..][j];
        }
      }
      r
  }

  /** `into_rgb8().into_flat_samples()`: the rows' bytes one after the other. */
  function Samples(g: Grid<Rgb>): seq<Byte>
  {
    Flatten(seq(g.h, y requires 0 <= y < g.h => RowBytes(g.rows[y])))
  }

  /**
   * The texture bytes of `load_wgpu_linear_texture`: every whole RGB triple
   * followed by an opaque alpha byte; a trailing partial triple is dropped.
   */
  function Rgba(p: seq<Byte>): (r: seq<Byte>)
    ensures |r| == 4 * (|p| / 3)
    ensures forall i :: 0 <= i < |p| / 3 ==> r[4 * i .. 4 * i + 4] == p[3 * i .. 3 * i + 3] + [255]
    decreases |p|
  {
    if |p| < 3 then []
    else
      var tail := p[3..];
      var rest := Rgba(tail);
      var r := [p[0], p[1], p[2], 255] + rest;
      assert |p| / 3 == |tail| / 3 + 1;
      forall i | 0 <= i < |p| / 3
        ensures r[4 * i .. 4 * i + 4] == p[3 * i .. 3 * i + 3] + [255]
      {
        if i > 0 {
          var j := i - 1;
          assert j < |tail| / 3 && 4 * i == 4 * j + 4 && 3 * i == 3 * j + 3;
          assert r[4 * i .. 4 * i + 4] == rest[4 * j .. 4 * j + 4];
          assert p[3 * i .. 3 * i + 3] == tail[3 * j .. 3 * j + 3];
        }
      }
      r
  }

  /** Every alpha byte is taken out again. */
  function StripAlpha(q: seq<Byte>): seq<Byte>
    decreases |q|
  {
    if |q| < 4 then [] else q[..3] + StripAlpha(q[4..])
  }

  /** Dropping the alpha bytes gives back the whole triples of the RGB buffer. */
  lemma {:induction false} RgbaRoundTrip(p: seq<Byte>)
    ensures StripAlpha(Rgba(p)) == p[..|p| / 3 * 3]
    decreases |p|
  {
    if |p| >= 3 {
      RgbaRoundTrip(p[3..]);
      var r := Rgba(p);
      assert r[4..] == Rgba(p[3..]);
      assert r[..3] == p[..3];
      assert p[..|p| / 3 * 3] == p[..3] + p[3..][..|p[3..]| / 3 * 3];
    }
  }

  // ------------------------------------------------------------------- load

  /** The outcome of opening and reading a file. */
  datatype FileRead = OpenFailed | ReadFailed | Bytes(bytes: seq<Byte>)

  /** A loaded picture: its size, metadata and the RGBA bytes uploaded as its texture. */
  datatype Loaded = Loaded(width: nat, height: nat, metadata: Metadata.Tags, texture: seq<Byte>)

  /** The extension lists and the outside world a load depends on. */
  datatype Env = Env(
    rawExtensions: set<string>,
    skipOrientExtensions: set<string>,
    jxlExtension: string,
    rawPreview: Path -> Option<seq<Byte>>,
    readFile: Path -> FileRead,
    decoders: Decoders,
    resample: (Grid<Rgb>, nat, nat) -> Option<Grid<Rgb>>,
    metadata: Path -> Option<Metadata.Tags>,
    embeddedIcc: Path -> Option<seq<Byte>>,
    transform: (IccData, IccData, seq<Byte>) -> Option<seq<Byte>>,
    gpu: bool,
    errorPicture: Grid<Rgb>)

  /** `get_error_image`: the bundled failure picture, when the GPU is available. */
  function ErrorImage(env: Env): Option<Loaded>
  {
    Upload(env.errorPicture.w, env.errorPicture.h, map[], Samples(env.errorPicture), env.gpu)
  }

  /** `load_wgpu_linear_texture` and the picture built around it: None without a render state. */
  function Upload(w: nat, h: nat, md: Metadata.Tags, pixels: seq<Byte>, gpu: bool): Option<Loaded>
  {
    if gpu then Some(Loaded(w, h, md, Rgba(pixels))) else None
  }

  /** The bytes a load starts from, or None when reading them failed. */
  function ReadStage(path: Path, env: Env): (r: Option<seq<Byte>>)
    ensures Lower(ExtensionOrEmpty(path)) in env.rawExtensions ==> r == env.rawPreview(path)
    ensures Lower(ExtensionOrEmpty(path)) !in env.rawExtensions ==>
      (r.Some? <==> env.readFile(path).Bytes?) && (r.Some? ==> r.value == env.readFile(path).bytes)
  {
    if Lower(ExtensionOrEmpty(path)) in env.rawExtensions then env.rawPreview(path)
    else
      match env.readFile(path)
      case Bytes(b) => Some(b)
      case _ => None
  }

  /**
   * What a load yields, stage by stage, and whether it asks the database to
   * forget the file.
   */
  function LoadResult(path: Path, imageSize: Option<nat>, output: string, env: Env): (r: (Option<Loaded>, bool))
    requires KeepsLength(env.transform)
    ensures r.1 <==> Lower(ExtensionOrEmpty(path)) !in env.rawExtensions && env.readFile(path).OpenFailed?
    ensures r.1 || ReadStage(path, env).None? ==> r.0 == ErrorImage(env)
    ensures r.0.Some? ==> env.gpu
  {
    var deletes := Lower(ExtensionOrEmpty(path)) !in env.rawExtensions && env.readFile(path).OpenFailed?;
    match ReadStage(path, env)
    case None => (ErrorImage(env), deletes)
    case Some(buffer) =>
      match Decode(buffer, path, env.jxlExtension, env.decoders)
      case None => (ErrorImage(env), false)
      case Some(decoded) =>
        var resized := if imageSize.Some? then Resize(decoded, imageSize, env.resample) else decoded;
        var md := env.metadata(path).UnwrapOr(map[]);
        var oriented := if ExtensionOrEmpty(path) !in env.skipOrientExtensions then Orient(resized, md) else resized;
        var pixels := Samples(oriented);
        var managed :=
          if Metadata.METADATA_PROFILE_DESCRIPTION in md then
            CcResult(md[Metadata.METADATA_PROFILE_DESCRIPTION], output, env.embeddedIcc(path), env.transform, pixels)
          else pixels;
        match Upload(oriented.w, oriented.h, md, managed, env.gpu)
        case None => (ErrorImage(env), false)
        case Some(img) => (Some(img), false)
  }

  /**
   * The first stage of `Image::load`: the embedded preview of a RAW file,
   * or else the whole file; a file that cannot be opened asks the database
   * to forget it.
   */
  method ReadBuffer(path: Path, env: Env) returns (buffer: Option<seq<Byte>>, deleteRecord: bool)
    ensures buffer == ReadStage(path, env)
    ensures deleteRecord <==> Lower(ExtensionOrEmpty(path)) !in env.rawExtensions && env.readFile(path).OpenFailed?
    ensures deleteRecord ==> buffer.None?
  {
    deleteRecord := false;
    if Lower(ExtensionOrEmpty(path)) in env.rawExtensions {
      buffer := env.rawPreview(path);
    } else {
      match env.readFile(path) {
        case OpenFailed =>
          buffer := None;
          deleteRecord := true;
        case ReadFailed =>
          buffer := None;
        case Bytes(b) =>
          buffer := Some(b);
      }
    }
  }

  /** `Image::load`: the body of the loading thread. */
  method Load(path: Path, imageSize: Option<nat>, output: string, env: Env)
    returns (result: Option<Loaded>, deleteRecord: bool)
    requires KeepsLength(env.transform)
    ensures (result, deleteRecord) == LoadResult(path, imageSize, output, env)
  {
    var read, forget := ReadBuffer(path, env);
    if read.None? {
      return ErrorImage(env), forget;
    }
    deleteRecord := false;
    var buffer := read.value;
    var image: Grid<Rgb>;
    match Decode(buffer, path, env.jxlExtension, env.decoders) {
      case None =>
        return ErrorImage(env), false;
      case Some(decoded) =>
        image := decoded;
    }
    if imageSize.Some? {
      image := Resize(image, imageSize, env.resample);
    }
    var md := env.metadata(path).UnwrapOr(map[]);
    if ExtensionOrEmpty(path) !in env.skipOrientExtensions {
      image := Orient(image, md);
    }
    var samples := Samples(image);
    var pixels := new Byte[|samples|](i requires 0 <= i < |samples| => samples[i]);
    assert pixels[..] == samples;
    if Metadata.METADATA_PROFILE_DESCRIPTION in md {
      ApplyCc(md[Metadata.METADATA_PROFILE_DESCRIPTION], pixels, output, env.embeddedIcc(path), env.transform);
    }
    result := Upload(image.w, image.h, md, pixels[..], env.gpu);
    if result.None? {
      result := ErrorImage(env);
    }
  }

  /** A RAW file whose preview cannot be extracted gives the error picture. */
  lemma LoadRawPreviewFails(path: Path, imageSize: Option<nat>, output: string, env: Env)
    requires KeepsLength(env.transform)
    requires Lower(ExtensionOrEmpty(path)) in env.rawExtensions && env.rawPreview(path).None?
    ensures LoadResult(path, imageSize, output, env) == (ErrorImage(env), false)
  {
  }

  /** A file that cannot be opened gives the error picture and is forgotten by the database. */
  lemma LoadOpenFails(path: Path, imageSize: Option<nat>, output: string, env: Env)
    requires KeepsLength(env.transform)
    requires Lower(ExtensionOrEmpty(path)) !in env.rawExtensions && env.readFile(path).OpenFailed?
    ensures LoadResult(path, imageSize, output, env) == (ErrorImage(env), true)
  {
  }

  /** Only a failed open of a non-RAW file deletes the database record. */
  lemma LoadDeletesOnlyOnOpenFailure(path: Path, imageSize: Option<nat>, output: string, env: Env)
    requires KeepsLength(env.transform)
    ensures LoadResult(path, imageSize, output, env).1 <==>
      Lower(ExtensionOrEmpty(path)) !in env.rawExtensions && env.readFile(path).OpenFailed?
  {
  }

  /**
   * A successful load: the texture is the RGBA expansion of the decoded
   * picture, resized only when a size is given, turned upright unless the
   * extension is exempt, and colour-managed only when the metadata carries a
   * profile description.
   */
  lemma LoadStages(path: Path, imageSize: Option<nat>, output: string, env: Env, decoded: Grid<Rgb>)
    requires KeepsLength(env.transform)
    requires ReadStage(path, env).Some? && env.gpu
    requires Decode(ReadStage(path, env).value, path, env.jxlExtension, env.decoders) == Some(decoded)
    ensures var md := env.metadata(path).UnwrapOr(map[]);
      var resized := if imageSize.None? then decoded else Resize(decoded, imageSize, env.resample);
      var oriented := if ExtensionOrEmpty(path) in env.skipOrientExtensions then resized else Orient(resized, md);
      var r := LoadResult(path, imageSize, output, env).0;
      r.Some? && r.value.width == oriented.w && r.value.height == oriented.h && r.value.metadata == md
      && (Metadata.METADATA_PROFILE_DESCRIPTION !in md ==> r.value.texture == Rgba(Samples(oriented)))
      && |r.value.texture| == 4 * (|Samples(oriented)| / 3)
  {
  }

  // -------------------------------------------------------------- load jobs

  /**
   * The handle of a load thread: whether the thread has finished, and the
   * picture it returns when joined.
   */
  datatype Job = Job(finished: bool, result: Option<Loaded>)
}
