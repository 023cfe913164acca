/** The per-light radial compositor run when the canvas image loads: a copy of
    the 512x512 RGBA base buffer is relit light by light, in list order, each
    light brightening or tinting the R, G and B bytes of the pixels of its disc.

    `Math.sqrt` is a foreign call; it is the parameter `sqrt`, applied to
    `dx * dx + dy * dy` exactly as the source does. The arithmetic of a channel
    is over reals, followed by the store conversion of `Uint8ClampedArray`. */
module Compositor {
  import opened Wrappers
  import opened Lights
  import opened HexColor

  const Width: int := 512
  const Height: int := 512
  /** Bytes in an RGBA buffer of the canvas. */
  const BufLen: int := Width * Height * 4

  predicate IsBuffer(buf: seq<int>) { |buf| == BufLen }

  predicate AllBytes(buf: seq<int>) { forall i :: 0 <= i < |buf| ==> IsByte(buf[i]) }

  /** Lights the compositor accepts: the radius slider never goes below 1. */
  predicate Drawable(lights: seq<Light>) { forall k :: 0 <= k < |lights| ==> lights[k].radius >= 1 }

  function Min(a: real, b: real): real { if a <= b then a else b }

  /** The conversion of a stored number by `Uint8ClampedArray` (ToUint8Clamp):
      clamp to [0, 255], then round to nearest, ties to even. */
  function ClampByte(v: real): (r: int)
    ensures IsByte(r)
    ensures v <= 0.0 ==> r == 0
    ensures v >= 255.0 ==> r == 255
    ensures 0.0 <= v <= 255.0 ==> v - 0.5 <= r as real <= v + 0.5
  {
    if v <= 0.0 then 0
    else if v >= 255.0 then 255
    else
      var f := v.Floor;
      if v - f as real < 0.5 then f
      else if v - f as real > 0.5 then f + 1
      else if f % 2 == 0 then f else f + 1
  }

  /** `1 - dist / r`: linear falloff from the centre to the rim. */
  function Weight(dist: real, r: int): real
    requires r >= 1
  {
    1.0 - dist / r as real
  }

  /** `1 + (b - 1) * weight`. */
  function Factor(b: real, weight: real): real {
    1.0 + (b - 1.0) * weight
  }

  /** One channel write: `data[i] = Math.min(255, data[i] * factor * (lc / 255))`. */
  function Shade(c: int, factor: real, lc: int): (r: int)
    ensures IsByte(r)
    ensures lc == 0 ==> r == 0
  {
    ClampByte(Min(255.0, c as real * factor * (lc as real / 255.0)))
  }

  /** The light colour channel that writes byte `ch` (0 red, 1 green, 2 blue) of a pixel. */
  function Channel(c: Rgb, ch: int): int {
    if ch == 0 then c.red else if ch == 1 then c.green else c.blue
  }

  /** The pixel that offset `(dx, dy)` of light `lt` lands on, when it passes
      the canvas bounds check. Its bytes are `4 * p` to `4 * p + 3`. */
  function Target(lt: Light, dx: int, dy: int): (t: Option<int>)
    ensures t.Some? ==> 0 <= 4 * t.value && 4 * t.value + 3 < BufLen
  {
    var x := lt.pos.x + dx as real;
    var y := lt.pos.y + dy as real;
    if x < 0.0 || y < 0.0 || x >= Width as real || y >= Height as real then None
    else Some(y.Floor * Width + x.Floor)
  }

  /** The target of an offset is the pixel at `(floor(lx) + dx, floor(ly) + dy)`,
      and there is one exactly when that pixel lies on the canvas. */
  lemma TargetPixel(lt: Light, dx: int, dy: int)
    ensures var t := Target(lt, dx, dy);
      && (t.Some? ==> t.value % Width == lt.pos.x.Floor + dx && t.value / Width == lt.pos.y.Floor + dy)
      && (t.None? <==> !(0 <= lt.pos.x.Floor + dx < Width && 0 <= lt.pos.y.Floor + dy < Height))
  {
    FloorShift(lt.pos.x, dx);
    FloorShift(lt.pos.y, dy);
  }

  lemma FloorShift(x: real, d: int)
    ensures (x + d as real).Floor == x.Floor + d
  {
  }

  // ---------------------------------------------------------------------
  // The loops, as folds over the offsets in the order the loops visit them

  /** The body of the innermost loop for offset `(dx, dy)`; `c` is the light's
      colour, parsed once per light. */
  function Step(buf: seq<int>, lt: Light, c: Rgb, sqrt: int -> real, dy: int, dx: int): (r: seq<int>)
    requires IsBuffer(buf) && lt.radius >= 1
    ensures IsBuffer(r)
  {
    var dist := sqrt(dx * dx + dy * dy);
    if dist > lt.radius as real then buf
    else match Target(lt, dx, dy)
      case None => buf
      case Some(p) =>
        var idx := p * 4;
        var factor := Factor(lt.brightness, Weight(dist, lt.radius));
        buf[idx := Shade(buf[idx], factor, c.red)]
           [idx + 1 := Shade(buf[idx + 1], factor, c.green)]
           [idx + 2 := Shade(buf[idx + 2], factor, c.blue)]
  }

  /** The `dx` loop of row `dy`, after the offsets `lo <= dx < hi`. */
  function Cols(buf: seq<int>, lt: Light, c: Rgb, sqrt: int -> real, dy: int, lo: int, hi: int): (r: seq<int>)
    requires IsBuffer(buf) && lt.radius >= 1
    ensures IsBuffer(r)
    decreases hi - lo
  {
    if hi <= lo then buf else Step(Cols(buf, lt, c, sqrt, dy, lo, hi - 1), lt, c, sqrt, dy, hi - 1)
  }

  /** The `dy` loop, after the rows `lo <= dy < hi`. */
  function Rows(buf: seq<int>, lt: Light, c: Rgb, sqrt: int -> real, lo: int, hi: int): (r: seq<int>)
    requires IsBuffer(buf) && lt.radius >= 1
    ensures IsBuffer(r)
    decreases hi - lo
  {
    if hi <= lo then buf
    else Cols(Rows(buf, lt, c, sqrt, lo, hi - 1), lt, c, sqrt, hi - 1, -lt.radius, lt.radius + 1)
  }

  /** The whole square of side `2r + 1` for one light. */
  function LightPass(buf: seq<int>, lt: Light, sqrt: int -> real): (r: seq<int>)
    requires IsBuffer(buf) && lt.radius >= 1
    ensures IsBuffer(r)
  {
    Rows(buf, lt, HexToRGB(lt.color), sqrt, -lt.radius, lt.radius + 1)
  }

  /** All lights in list order, each over the result of the ones before it. */
  function Relight(base: seq<int>, lights: seq<Light>, sqrt: int -> real): (r: seq<int>)
    requires IsBuffer(base) && Drawable(lights)
    ensures IsBuffer(r)
  {
    if lights == [] then base
    else LightPass(Relight(base, lights[..|lights| - 1], sqrt), lights[|lights| - 1], sqrt)
  }

  // ---------------------------------------------------------------------
  // The compositor itself

  /** One light's pass over the buffer, in place: read its colour, then run
      the `dy` loop. */
  method ApplyLight(data: array<int>, lt: Light, sqrt: int -> real)
    requires data.Length == BufLen && lt.radius >= 1
    modifies data
    ensures data[..] == LightPass(old(data[..]), lt, sqrt)
  {
    var c := HexToRGB(lt.color);
    ShadeRows(data, lt, c, sqrt);
  }

  /** The `dy` loop over the rows of the light's square. */
  method ShadeRows(data: array<int>, lt: Light, c: Rgb, sqrt: int -> real)
    requires data.Length == BufLen && lt.radius >= 1
    modifies data
    ensures data[..] == Rows(old(data[..]), lt, c, sqrt, -lt.radius, lt.radius + 1)
  {
    var r := lt.radius;
    ghost var start := data[..];
    for dy := -r to r + 1
      invariant data[..] == Rows(start, lt, c, sqrt, -r, dy)
    {
      ghost var done := data[..];
      ShadeRow(data, lt, c, sqrt, dy);
      assert data[..] == Cols(done, lt, c, sqrt, dy, -r, r + 1);
    }
  }

  /** The `dx` loop of row `dy`. */
  method ShadeRow(data: array<int>, lt: Light, c: Rgb, sqrt: int -> real, dy: int)
    requires data.Length == BufLen && lt.radius >= 1
    modifies data
    ensures data[..] == Cols(old(data[..]), lt, c, sqrt, dy, -lt.radius, lt.radius + 1)
  {
    var r := lt.radius;
    ghost var rowStart := data[..];
    for dx := -r to r + 1
      invariant data[..] == Cols(rowStart, lt, c, sqrt, dy, -r, dx)
    {
      ShadeOffset(data, lt, c, sqrt, dy, dx);
    }
  }

  /** The body of the `dx` loop: skip offsets outside the disc or the canvas,
      otherwise rewrite the R, G and B bytes of the target pixel. */
  method ShadeOffset(data: array<int>, lt: Light, c: Rgb, sqrt: int -> real, dy: int, dx: int)
    requires data.Length == BufLen && lt.radius >= 1
    modifies data
    ensures data[..] == Step(old(data[..]), lt, c, sqrt, dy, dx)
  {
    var lx, ly := lt.pos.x, lt.pos.y;
    var b := lt.brightness;
    var r := lt.radius;
    var dist := sqrt(dx * dx + dy * dy);
    if dist > r as real {
      return;
    }
    var x := lx + dx as real;
    var y := ly + dy as real;
    if x < 0.0 || y < 0.0 || x >= Width as real || y >= Height as real {
      return;
    }
    var idx := (y.Floor * Width + x.Floor) * 4;
    assert Target(lt, dx, dy) == Some(idx / 4);
    var weight := 1.0 - dist / r as real;
    var factor := 1.0 + (b - 1.0) * weight;
    assert factor == Factor(lt.brightness, Weight(dist, lt.radius));
    ghost var s0 := data[..];
    data[idx] := Shade(data[idx], factor, c.red);
    ghost var s1 := s0[idx := Shade(s0[idx], factor, c.red)];
    assert data[..] == s1;
    data[idx + 1] := Shade(data[idx + 1], factor, c.green);
    ghost var s2 := s1[idx + 1 := Shade(s0[idx + 1], factor, c.green)];
    assert data[..] == s2;
    data[idx + 2] := Shade(data[idx + 2], factor, c.blue);
    assert data[..] == s2[idx + 2 := Shade(s0[idx + 2], factor, c.blue)];
  }

  /** `img.onload`: copy the base pixels, relight the copy, return it. The base
      buffer is only read. */
  method Composite(base: array<int>, lights: seq<Light>, sqrt: int -> real) returns (data: array<int>)
    requires base.Length == BufLen && Drawable(lights)
    ensures fresh(data)
    ensures data[..] == Relight(base[..], lights, sqrt)
  {
    data := new int[base.Length](i reads base requires 0 <= i < base.Length => base[i]);
    for k := 0 to |lights|
      invariant data[..] == Relight(base[..], lights[..k], sqrt)
    {
      assert lights[..k + 1][..k] == lights[..k];
      ApplyLight(data, lights[k], sqrt);
    }
    assert lights[..|lights|] == lights;
  }

  // ---------------------------------------------------------------------
  // What one light does to each byte

  /** The offset from light `lt` at which pixel `p` can be reached. The floor
      of `lx + dx` is `floor(lx) + dx`, so each pixel has exactly one. */
  function OffX(lt: Light, p: int): int { p % Width - lt.pos.x.Floor }
  function OffY(lt: Light, p: int): int { p / Width - lt.pos.y.Floor }

  /** The squared distance `dx * dx + dy * dy` at which pixel `p` lies from `lt`. */
  function DistSq(lt: Light, p: int): int { OffX(lt, p) * OffX(lt, p) + OffY(lt, p) * OffY(lt, p) }

  /** The source's disc test passes: `dist > r` is false. */
  predicate DiscTest(lt: Light, sqrt: int -> real, dx: int, dy: int) {
    !(sqrt(dx * dx + dy * dy) > lt.radius as real)
  }

  /** Pixel `p` is rewritten by the `dx` loop of row `dy` over `lo <= dx < hi`. */
  predicate HitInRow(lt: Light, sqrt: int -> real, dy: int, lo: int, hi: int, p: int) {
    OffY(lt, p) == dy && lo <= OffX(lt, p) < hi && DiscTest(lt, sqrt, OffX(lt, p), dy)
  }

  /** Pixel `p` is rewritten by the rows `lo <= dy < hi`. */
  predicate HitInRows(lt: Light, sqrt: int -> real, lo: int, hi: int, p: int) {
    lo <= OffY(lt, p) < hi && -lt.radius <= OffX(lt, p) <= lt.radius
    && DiscTest(lt, sqrt, OffX(lt, p), OffY(lt, p))
  }

  /** Pixel `p` is rewritten by light `lt`: its offset lies in the square of
      side `2r + 1` and passes the disc test. */
  predicate Reached(lt: Light, sqrt: int -> real, p: int) {
    HitInRows(lt, sqrt, -lt.radius, lt.radius + 1, p)
  }

  /** The brightness factor light `lt` applies at pixel `p`. */
  function FactorAt(lt: Light, sqrt: int -> real, p: int): real
    requires lt.radius >= 1
  {
    Factor(lt.brightness, Weight(sqrt(DistSq(lt, p)), lt.radius))
  }

  /** Byte `i` after one write by `lt` when `hit`, and left as it is otherwise;
      the alpha byte (`i % 4 == 3`) is never written. */
  function Lighten(buf: seq<int>, lt: Light, c: Rgb, sqrt: int -> real, i: int, hit: bool): int
    requires 0 <= i < |buf| && lt.radius >= 1
  {
    if hit && i % 4 < 3 then Shade(buf[i], FactorAt(lt, sqrt, i / 4), Channel(c, i % 4))
    else buf[i]
  }

  lemma StepAt(buf: seq<int>, lt: Light, c: Rgb, sqrt: int -> real, dy: int, dx: int, i: int)
    requires IsBuffer(buf) && lt.radius >= 1 && 0 <= i < BufLen
    ensures Step(buf, lt, c, sqrt, dy, dx)[i]
         == Lighten(buf, lt, c, sqrt, i, OffX(lt, i / 4) == dx && OffY(lt, i / 4) == dy && DiscTest(lt, sqrt, dx, dy))
  {
    if DiscTest(lt, sqrt, dx, dy) {
      TargetPixel(lt, dx, dy);
      if Target(lt, dx, dy).None? {
        OnCanvas(i / 4);
      } else {
        StepHit(buf, lt, c, sqrt, dy, dx, i);
      }
    }
  }

  lemma OnCanvas(q: int)
    requires 0 <= q < Width * Height
    ensures 0 <= q % Width < Width && 0 <= q / Width < Height
  {
  }

  lemma StepHit(buf: seq<int>, lt: Light, c: Rgb, sqrt: int -> real, dy: int, dx: int, i: int)
    requires IsBuffer(buf) && lt.radius >= 1 && 0 <= i < BufLen
    requires DiscTest(lt, sqrt, dx, dy) && Target(lt, dx, dy).Some?
    ensures Step(buf, lt, c, sqrt, dy, dx)[i]
         == Lighten(buf, lt, c, sqrt, i, OffX(lt, i / 4) == dx && OffY(lt, i / 4) == dy)
  {
    var p := Target(lt, dx, dy).value;
    var q := i / 4;
    TargetPixel(lt, dx, dy);
    SamePixel(p, q);
    if q == p {
      assert i == 4 * p + i % 4;
    }
  }

  /** A pixel is determined by its column and row. */
  lemma SamePixel(p: int, q: int)
    requires 0 <= p && 0 <= q
    ensures p % Width == q % Width && p / Width == q / Width ==> p == q
  {
    assert p == p / Width * Width + p % Width;
    assert q == q / Width * Width + q % Width;
  }

  lemma {:induction false} ColsAt(buf: seq<int>, lt: Light, c: Rgb, sqrt: int -> real, dy: int, lo: int, hi: int, i: int)
    requires IsBuffer(buf) && lt.radius >= 1 && 0 <= i < BufLen
    ensures Cols(buf, lt, c, sqrt, dy, lo, hi)[i] == Lighten(buf, lt, c, sqrt, i, HitInRow(lt, sqrt, dy, lo, hi, i / 4))
    decreases hi - lo
  {
    if lo < hi {
      var prev := Cols(buf, lt, c, sqrt, dy, lo, hi - 1);
      ColsAt(buf, lt, c, sqrt, dy, lo, hi - 1, i);
      StepAt(prev, lt, c, sqrt, dy, hi - 1, i);
    }
  }

  lemma {:induction false} RowsAt(buf: seq<int>, lt: Light, c: Rgb, sqrt: int -> real, lo: int, hi: int, i: int)
    requires IsBuffer(buf) && lt.radius >= 1 && 0 <= i < BufLen
    ensures Rows(buf, lt, c, sqrt, lo, hi)[i] == Lighten(buf, lt, c, sqrt, i, HitInRows(lt, sqrt, lo, hi, i / 4))
    decreases hi - lo
  {
    if lo < hi {
      var prev := Rows(buf, lt, c, sqrt, lo, hi - 1);
      RowsAt(buf, lt, c, sqrt, lo, hi - 1, i);
      ColsAt(prev, lt, c, sqrt, hi - 1, -lt.radius, lt.radius + 1, i);
    }
  }

  /** One light, byte by byte: the R, G and B bytes of a reached pixel are
      shaded once with the factor at that pixel and the matching channel of
      the light's colour; every other byte, and every alpha byte, keeps its value. */
  lemma LightPassAt(buf: seq<int>, lt: Light, sqrt: int -> real, i: int)
    requires IsBuffer(buf) && lt.radius >= 1 && 0 <= i < BufLen
    ensures LightPass(buf, lt, sqrt)[i] == Lighten(buf, lt, HexToRGB(lt.color), sqrt, i, Reached(lt, sqrt, i / 4))
  {
    RowsAt(buf, lt, HexToRGB(lt.color), sqrt, -lt.radius, lt.radius + 1, i);
  }

  // ---------------------------------------------------------------------
  // Properties of the compositor

  /** With the exact root at `d`, the source's test `dist > r` is the integer
      test `d > r * r`. */
  lemma DiscTestExact(s: real, d: int, r: int)
    requires r >= 1 && 0.0 <= s && s * s == d as real
    ensures !(s > r as real) <==> d <= r * r
  {
    var rr := r as real;
    assert (r * r) as real == rr * rr;
    assert s * s - rr * rr == (s - rr) * (s + rr);
    if s > rr {
      ProductSign(s - rr, s + rr);
    } else {
      ProductSign(rr - s, s + rr);
    }
  }

  lemma ProductSign(a: real, b: real)
    requires a >= 0.0 && b > 0.0
    ensures a * b >= 0.0 && (a > 0.0 ==> a * b > 0.0)
  {
  }

  /** With the exact root at the pixel's squared distance, a light reaches a
      pixel exactly when it lies in the disc `dx² + dy² <= r²`. */
  lemma ReachedIffInDisc(lt: Light, sqrt: int -> real, p: int)
    requires lt.radius >= 1
    requires 0.0 <= sqrt(DistSq(lt, p)) && sqrt(DistSq(lt, p)) * sqrt(DistSq(lt, p)) == DistSq(lt, p) as real
    ensures Reached(lt, sqrt, p) <==> DistSq(lt, p) <= lt.radius * lt.radius
  {
    var dx, dy, r := OffX(lt, p), OffY(lt, p), lt.radius;
    DiscTestExact(sqrt(DistSq(lt, p)), DistSq(lt, p), r);
    if DistSq(lt, p) <= r * r {
      SquareBound(dx, dy, r);
      SquareBound(dy, dx, r);
    }
  }

  lemma SquareBound(a: int, b: int, r: int)
    requires r >= 1 && a * a + b * b <= r * r
    ensures -r <= a <= r
  {
  }

  /** Locality: a byte of a pixel outside the disc of a light keeps its value. */
  lemma LightPassLocal(buf: seq<int>, lt: Light, sqrt: int -> real, i: int)
    requires IsBuffer(buf) && lt.radius >= 1 && 0 <= i < BufLen
    requires 0.0 <= sqrt(DistSq(lt, i / 4)) && sqrt(DistSq(lt, i / 4)) * sqrt(DistSq(lt, i / 4)) == DistSq(lt, i / 4) as real
    requires DistSq(lt, i / 4) > lt.radius * lt.radius
    ensures LightPass(buf, lt, sqrt)[i] == buf[i]
  {
    ReachedIffInDisc(lt, sqrt, i / 4);
    assert !Reached(lt, sqrt, i / 4);
    LightPassAt(buf, lt, sqrt, i);
  }

  /** With the disc test and the brightness slider's domain, the weight lies in
      [0, 1] and the factor between 1 and `b`: `b` at the centre, 1 at the rim. */
  lemma FactorBounds(b: real, dist: real, r: int)
    requires r >= 1 && 0.0 <= dist <= r as real
    ensures 0.0 <= Weight(dist, r) <= 1.0
    ensures b >= 1.0 ==> 1.0 <= Factor(b, Weight(dist, r)) <= b
    ensures b <= 1.0 ==> b <= Factor(b, Weight(dist, r)) <= 1.0
    ensures dist == 0.0 ==> Factor(b, Weight(dist, r)) == b
    ensures dist == r as real ==> Factor(b, Weight(dist, r)) == 1.0
  {
    var q := dist / r as real;
    RatioUnit(dist, r as real);
    var w := Weight(dist, r);
    assert w == 1.0 - q;
    if b >= 1.0 {
      ScaleUnit(b - 1.0, w);
    } else {
      ScaleUnit(1.0 - b, w);
    }
  }

  lemma RatioUnit(d: real, r: real)
    requires r >= 1.0 && 0.0 <= d <= r
    ensures 0.0 <= d / r <= 1.0
  {
    var q := d / r;
    assert q * r == d;
  }

  lemma ScaleUnit(k: real, w: real)
    requires k >= 0.0 && 0.0 <= w <= 1.0
    ensures 0.0 <= k * w <= k
  {
  }

  /** A white light at factor 1 leaves a byte as it is. */
  lemma ShadeUnit(c: int)
    requires IsByte(c)
    ensures Shade(c, 1.0, 255) == c
  {
    assert c as real * 1.0 * (255 as real / 255.0) == c as real;
  }

  /** The alpha byte of every pixel keeps the base value, whatever the lights. */
  lemma {:induction false} RelightAlpha(base: seq<int>, lights: seq<Light>, sqrt: int -> real, i: int)
    requires IsBuffer(base) && Drawable(lights) && 0 <= i < BufLen && i % 4 == 3
    ensures Relight(base, lights, sqrt)[i] == base[i]
  {
    if lights != [] {
      var init := lights[..|lights| - 1];
      RelightAlpha(base, init, sqrt, i);
      LightPassAt(Relight(base, init, sqrt), lights[|lights| - 1], sqrt, i);
    }
  }

  /** A pixel that no light reaches keeps all four base bytes. */
  lemma {:induction false} RelightLocal(base: seq<int>, lights: seq<Light>, sqrt: int -> real, i: int)
    requires IsBuffer(base) && Drawable(lights) && 0 <= i < BufLen
    requires forall k :: 0 <= k < |lights| ==> !Reached(lights[k], sqrt, i / 4)
    ensures Relight(base, lights, sqrt)[i] == base[i]
  {
    if lights != [] {
      var init := lights[..|lights| - 1];
      RelightLocal(base, init, sqrt, i);
      LightPassAt(Relight(base, init, sqrt), lights[|lights| - 1], sqrt, i);
    }
  }

  /** With exact roots, a pixel that lies outside the disc `dx² + dy² <= r²`
      of every light keeps all four base bytes. */
  lemma RelightOutside(base: seq<int>, lights: seq<Light>, sqrt: int -> real, i: int)
    requires IsBuffer(base) && Drawable(lights) && 0 <= i < BufLen
    requires forall k :: 0 <= k < |lights| ==>
      && 0.0 <= sqrt(DistSq(lights[k], i / 4))
      && sqrt(DistSq(lights[k], i / 4)) * sqrt(DistSq(lights[k], i / 4)) == DistSq(lights[k], i / 4) as real
      && DistSq(lights[k], i / 4) > lights[k].radius * lights[k].radius
    ensures Relight(base, lights, sqrt)[i] == base[i]
  {
    forall k | 0 <= k < |lights| ensures !Reached(lights[k], sqrt, i / 4) {
      ReachedIffInDisc(lights[k], sqrt, i / 4);
    }
    RelightLocal(base, lights, sqrt, i);
  }

  /** Every byte of the result is in [0, 255] when the base bytes are. */
  lemma {:induction false} RelightBytes(base: seq<int>, lights: seq<Light>, sqrt: int -> real)
    requires IsBuffer(base) && Drawable(lights) && AllBytes(base)
    ensures AllBytes(Relight(base, lights, sqrt))
  {
    if lights != [] {
      var init := lights[..|lights| - 1];
      var before := Relight(base, init, sqrt);
      RelightBytes(base, init, sqrt);
      forall i | 0 <= i < BufLen ensures IsByte(Relight(base, lights, sqrt)[i]) {
        LightPassAt(before, lights[|lights| - 1], sqrt, i);
      }
    }
  }

  /** With no lights the result is the base buffer. */
  lemma RelightEmpty(base: seq<int>, sqrt: int -> real)
    requires IsBuffer(base)
    ensures Relight(base, [], sqrt) == base
  {
  }

  /** A light added at the end of the list is applied over the result of all
      the lights before it, not over the base. */
  lemma RelightSnoc(base: seq<int>, lights: seq<Light>, lt: Light, sqrt: int -> real)
    requires IsBuffer(base) && Drawable(lights) && lt.radius >= 1
    ensures Drawable(lights + [lt])
    ensures Relight(base, lights + [lt], sqrt) == LightPass(Relight(base, lights, sqrt), lt, sqrt)
  {
    assert (lights + [lt])[..|lights|] == lights;
  }

  /** A light whose colour is `#ff0000` never raises the green or blue byte of a pixel. */
  lemma RedLightTints(buf: seq<int>, lt: Light, sqrt: int -> real, i: int)
    requires IsBuffer(buf) && AllBytes(buf) && lt.radius >= 1 && lt.color == "#ff0000" && 0 <= i < BufLen
    requires i % 4 == 1 || i % 4 == 2
    ensures LightPass(buf, lt, sqrt)[i] <= buf[i]
    ensures Reached(lt, sqrt, i / 4) ==> LightPass(buf, lt, sqrt)[i] == 0
  {
    RedColor();
    LightPassAt(buf, lt, sqrt, i);
  }

  lemma RedColor()
    ensures HexToRGB("#ff0000") == Rgb(255, 0, 0)
  {
    assert Hex2(255) == "ff" && Hex2(0) == "00";
    assert ToHex(Rgb(255, 0, 0)) == "#ff0000";
    HexRoundTrip(Rgb(255, 0, 0));
  }

  lemma WhiteAndGrey()
    ensures HexToRGB("#ffffff") == Rgb(255, 255, 255)
    ensures HexToRGB("#808080") == Rgb(128, 128, 128)
  {
    assert Hex2(255) == "ff" && Hex2(128) == "80";
    assert ToHex(Rgb(255, 255, 255)) == "#ffffff";
    assert ToHex(Rgb(128, 128, 128)) == "#808080";
    HexRoundTrip(Rgb(255, 255, 255));
    HexRoundTrip(Rgb(128, 128, 128));
  }

  /** The pixel under a light whose position lies on the canvas. */
  function CentrePixel(lt: Light): int {
    lt.pos.y.Floor * Width + lt.pos.x.Floor
  }

  /** At the pixel under the light (with `sqrt(0) == 0`), the factor is the
      brightness itself: each of the R, G and B bytes is shaded with `b` and
      the matching channel of the light's colour. */
  lemma CentreShade(buf: seq<int>, lt: Light, sqrt: int -> real, ch: int)
    requires IsBuffer(buf) && lt.radius >= 1 && sqrt(0) == 0.0 && 0 <= ch < 3
    requires 0 <= lt.pos.x.Floor < Width && 0 <= lt.pos.y.Floor < Height
    ensures 0 <= 4 * CentrePixel(lt) + ch < BufLen
    ensures LightPass(buf, lt, sqrt)[4 * CentrePixel(lt) + ch]
         == Shade(buf[4 * CentrePixel(lt) + ch], lt.brightness, Channel(HexToRGB(lt.color), ch))
  {
    var p := CentrePixel(lt);
    var i := 4 * p + ch;
    assert p % Width == lt.pos.x.Floor && p / Width == lt.pos.y.Floor;
    assert i / 4 == p && i % 4 == ch;
    assert OffX(lt, p) == 0 && OffY(lt, p) == 0 && DistSq(lt, p) == 0;
    FactorBounds(lt.brightness, 0.0, lt.radius);
    LightPassAt(buf, lt, sqrt, i);
  }

  /** Two lights over the same pixel: each of its R, G and B bytes is shaded by
      the first light and then, from that result, by the second. */
  lemma TwoCentredLights(base: seq<int>, a: Light, b: Light, sqrt: int -> real, ch: int)
    requires IsBuffer(base) && sqrt(0) == 0.0 && 0 <= ch < 3
    requires a.radius >= 1 && b.radius >= 1
    requires 0 <= a.pos.x.Floor < Width && 0 <= a.pos.y.Floor < Height
    requires b.pos.x.Floor == a.pos.x.Floor && b.pos.y.Floor == a.pos.y.Floor
    ensures Drawable([a, b]) && 0 <= 4 * CentrePixel(a) + ch < BufLen
    ensures Relight(base, [a, b], sqrt)[4 * CentrePixel(a) + ch]
         == Shade(Shade(base[4 * CentrePixel(a) + ch], a.brightness, Channel(HexToRGB(a.color), ch)),
                  b.brightness, Channel(HexToRGB(b.color), ch))
  {
    TwoPasses(base, a, b, sqrt);
    CentreTwice(base, a, b, sqrt, ch);
  }

  lemma CentreTwice(base: seq<int>, a: Light, b: Light, sqrt: int -> real, ch: int)
    requires IsBuffer(base) && sqrt(0) == 0.0 && 0 <= ch < 3
    requires a.radius >= 1 && b.radius >= 1
    requires 0 <= a.pos.x.Floor < Width && 0 <= a.pos.y.Floor < Height
    requires b.pos.x.Floor == a.pos.x.Floor && b.pos.y.Floor == a.pos.y.Floor
    ensures 0 <= 4 * CentrePixel(a) + ch < BufLen
    ensures LightPass(LightPass(base, a, sqrt), b, sqrt)[4 * CentrePixel(a) + ch]
         == Shade(Shade(base[4 * CentrePixel(a) + ch], a.brightness, Channel(HexToRGB(a.color), ch)),
                  b.brightness, Channel(HexToRGB(b.color), ch))
  {
    assert CentrePixel(b) == CentrePixel(a);
    CentreShade(base, a, sqrt, ch);
    CentreShade(LightPass(base, a, sqrt), b, sqrt, ch);
  }

  /** Two lights: the second is applied over the result of the first. */
  lemma TwoPasses(base: seq<int>, a: Light, b: Light, sqrt: int -> real)
    requires IsBuffer(base) && a.radius >= 1 && b.radius >= 1
    ensures Drawable([a, b])
    ensures Relight(base, [a, b], sqrt) == LightPass(LightPass(base, a, sqrt), b, sqrt)
  {
    RelightSnoc(base, [], a, sqrt);
    assert [] + [a] == [a];
    RelightSnoc(base, [a], b, sqrt);
    assert [a] + [b] == [a, b];
  }

  /** Lights do not commute: at the centre of two co-located lights, a white
      light of brightness 2 and a grey light of brightness 1, the red byte 200
      ends at 128 in one order (the first clamps at 255) and 200 in the other. */
  lemma OrderMatters(base: seq<int>, sqrt: int -> real)
    requires IsBuffer(base) && base[4 * (256 * Width + 256)] == 200 && sqrt(0) == 0.0
    ensures var white := Light(1, Point(256.0, 256.0), 2.0, 800.0, 10, "#ffffff");
            var grey := Light(2, Point(256.0, 256.0), 1.0, 800.0, 10, "#808080");
            && Relight(base, [white, grey], sqrt)[4 * (256 * Width + 256)] == 128
            && Relight(base, [grey, white], sqrt)[4 * (256 * Width + 256)] == 200
  {
    var white := Light(1, Point(256.0, 256.0), 2.0, 800.0, 10, "#ffffff");
    var grey := Light(2, Point(256.0, 256.0), 1.0, 800.0, 10, "#808080");
    var i := 4 * (256 * Width + 256);
    WhiteAndGrey();
    assert Channel(HexToRGB(white.color), 0) == 255 && Channel(HexToRGB(grey.color), 0) == 128;
    assert white.pos.x.Floor == 256 && white.pos.y.Floor == 256;
    assert CentrePixel(white) == 256 * Width + 256 && CentrePixel(grey) == 256 * Width + 256;
    ShadeValues();
    TwoCentredLights(base, white, grey, sqrt, 0);
    assert Relight(base, [white, grey], sqrt)[i] == Shade(Shade(200, 2.0, 255), 1.0, 128);
    TwoCentredLights(base, grey, white, sqrt, 0);
    assert Relight(base, [grey, white], sqrt)[i] == Shade(Shade(200, 1.0, 128), 2.0, 255);
  }

  lemma ShadeValues()
    ensures Shade(200, 2.0, 255) == 255 && Shade(255, 1.0, 128) == 128
    ensures Shade(200, 1.0, 128) == 100 && Shade(100, 2.0, 255) == 200
  {
    assert 200 as real * 1.0 * (128 as real / 255.0) == 25600.0 / 255.0;
  }
}
