/**
 Colour conversion between interleaved pixels and planar YUV 4:2:0. The loops walk
 pointers; the specification says what each byte of the result is, by its place.
 */
module YuvTools {
  import opened Arith
  import opened Bytes

  datatype Pixel = Pixel(b: byte, g: byte, r: byte)

  // Integer division in C: towards zero.
  function TruncDiv(n: int, d: int): int
    requires 0 < d
  {
    if 0 <= n then n / d else -((-n) / d)
  }

  // A cast to unsigned char.
  function UChar(n: int): byte { n % 256 }

  // The rgbtoyuv macro.
  function LumaSum(p: Pixel): int { 30 * p.r as int + 59 * p.g as int + 11 * p.b as int }
  function USum(p: Pixel): int { -17 * p.r as int - 33 * p.g as int + 50 * p.b as int + 12800 }
  function VSum(p: Pixel): int { 50 * p.r as int - 42 * p.g as int - 8 * p.b as int + 12800 }

  function Luma(p: Pixel): byte { UChar(TruncDiv(LumaSum(p), 100)) }
  function ChromaU(p: Pixel): byte { UChar(TruncDiv(USum(p), 100)) }
  function ChromaV(p: Pixel): byte { UChar(TruncDiv(VSum(p), 100)) }

  predicate IsFloor(q: byte, n: int) { 100 * q as int <= n < 100 * q as int + 100 }

  lemma CastKeepsFloor(n: int)
    requires 0 <= n < 25600
    ensures IsFloor(UChar(TruncDiv(n, 100)), n)
  {
  }

  // No cast wraps and no division rounds up: the three bytes are the floors of the formulas.
  lemma NoCastWraps(p: Pixel)
    ensures var r, g, b := p.r as int, p.g as int, p.b as int;
      && IsFloor(Luma(p), 30 * r + 59 * g + 11 * b)
      && IsFloor(ChromaU(p), -17 * r - 33 * g + 50 * b + 12800)
      && IsFloor(ChromaV(p), 50 * r - 42 * g - 8 * b + 12800)
  {
    CastKeepsFloor(LumaSum(p));
    CastKeepsFloor(USum(p));
    CastKeepsFloor(VSum(p));
  }

  // ---- RGBtoYUV420 ----

  function At(s: seq<byte>, i: nat): byte { if i < |s| then s[i] else 0 }

  // Where pixel k starts: k * ps, as the pointer gets there.
  function Offset(k: nat, ps: nat): nat {
    if k == 0 then 0 else Offset(k - 1, ps) + ps
  }

  lemma {:induction false} OffsetIsProduct(k: nat, ps: nat)
    ensures Offset(k, ps) == k * ps
  {
    if k != 0 { OffsetIsProduct(k - 1, ps); }
  }

  lemma {:induction false} OffsetInFrame(k: nat, n: nat, ps: nat)
    requires k < n
    ensures Offset(k, ps) + ps <= Offset(n, ps)
  {
    if k + 1 < n { OffsetInFrame(k, n - 1, ps); }
  }

  // Pixel k of a frame with ps bytes a pixel.
  function PixelAt(rgb: seq<byte>, ps: nat, k: nat): Pixel {
    var i := Offset(k, ps);
    Pixel(At(rgb, i), At(rgb, i + 1), At(rgb, i + 2))
  }

  // The pixel of chroma cell c: the lower right one of its 2x2 block. A row of w/2 cells
  // belongs to two rows of pixels.
  function BlockPixel(w: nat, c: nat): nat
    requires 2 <= w
  {
    if c < w / 2 then w + 2 * c + 1 else 2 * w + BlockPixel(w, c - w / 2)
  }

  // One value for each of the first n pixels.
  function PerPixel(rgb: seq<byte>, ps: nat, n: nat, f: Pixel -> byte): seq<byte> {
    seq<byte>(n, k requires 0 <= k => f(PixelAt(rgb, ps, k)))
  }

  // The chroma plane of q cells taken from per-pixel values.
  function Cells(values: seq<byte>, w: nat, q: nat): seq<byte>
    requires 2 <= w
  {
    seq<byte>(q, c requires 0 <= c => At(values, BlockPixel(w, c)))
  }

  // The same as a relation; only a mention of the pixel brings a cell up.
  ghost predicate AreCells(cells: seq<byte>, values: seq<byte>, w: nat)
    requires 2 <= w
  {
    forall c {:trigger BlockPixel(w, c)} :: 0 <= c < |cells| && BlockPixel(w, c) < |values| ==>
      cells[c] == values[BlockPixel(w, c)]
  }

  // All values of the first kind pixel by pixel, then the cells of the other two.
  function PlanarWith(
    rgb: seq<byte>, w: nat, h: nat, ps: nat, fy: Pixel -> byte, fu: Pixel -> byte, fv: Pixel -> byte): seq<byte>
    requires 2 <= w
  {
    var n, q := Offset(h, w), Offset(h / 2, w / 2);
    PerPixel(rgb, ps, n, fy) + Cells(PerPixel(rgb, ps, n, fu), w, q) + Cells(PerPixel(rgb, ps, n, fv), w, q)
  }

  // The planar frame: all lumas, then all U cells, then all V cells.
  function Planar(rgb: seq<byte>, w: nat, h: nat, ps: nat): seq<byte>
    requires 2 <= w
  {
    PlanarWith(rgb, w, h, ps, Luma, ChromaU, ChromaV)
  }

  lemma TwiceTwice(a: nat, b: nat)
    ensures (2 * a) * (2 * b) == 4 * (a * b)
  {
  }

  // Rows of w pixels up to row h are w*h pixels; an even frame has a quarter as many cells.
  lemma FrameSizes(w: nat, h: nat)
    requires w % 2 == 0 && h % 2 == 0
    ensures Offset(h, w) == w * h && Offset(h / 2, w / 2) == w * h / 4 && w * h / 2 == 2 * (w * h / 4)
  {
    var a, b := w / 2, h / 2;
    OffsetIsProduct(h, w);
    OffsetIsProduct(b, a);
    TwiceTwice(a, b);
    assert w == 2 * a && h == 2 * b;
  }

  // Cell i of the row of cells j belongs to the second row of pixels of that pair.
  lemma {:induction false} BlockPixelAt(w: nat, j: nat, i: nat)
    requires w % 2 == 0 && i < w / 2
    ensures BlockPixel(w, Offset(j, w / 2) + i) == Offset(2 * j + 1, w) + 2 * i + 1
  {
    if j != 0 { BlockPixelAt(w, j - 1, i); }
  }

  // Per-pixel values of a frame. Only a mention of the pixel brings them up.
  ghost predicate ValuesOf(rgb: seq<byte>, ps: nat, n: nat, ys: seq<byte>, us: seq<byte>, vs: seq<byte>) {
    && |ys| == |us| == |vs| == n
    && forall k {:trigger PixelAt(rgb, ps, k)} :: 0 <= k < n ==>
         var p := PixelAt(rgb, ps, k); ys[k] == Luma(p) && us[k] == ChromaU(p) && vs[k] == ChromaV(p)
  }

  // One expansion of the macro, for pixel k.
  method RgbToYuv(
    rgb: array<byte>, rgbIndex: nat, yuv: array<byte>, yline: nat, uline: nat, vline: nat,
    ghost ps: nat, ghost n: nat, ghost ys: seq<byte>, ghost us: seq<byte>, ghost vs: seq<byte>, ghost k: nat)
    requires rgb != yuv && 3 <= ps && k < n && Offset(n, ps) <= rgb.Length && rgbIndex == Offset(k, ps)
    requires yline < uline < vline < yuv.Length
    requires ValuesOf(rgb[..], ps, n, ys, us, vs)
    modifies yuv
    ensures yuv[..] == old(yuv[..])[yline := ys[k]][uline := us[k]][vline := vs[k]]
  {
    OffsetInFrame(k, n, ps);
    var p := Pixel(rgb[rgbIndex], rgb[rgbIndex + 1], rgb[rgbIndex + 2]);
    assert p == PixelAt(rgb[..], ps, k);
    yuv[yline] := Luma(p);
    yuv[uline] := ChromaU(p);
    yuv[vline] := ChromaV(p);
  }

  // Byte i once the row from pixel k0 on is in the planes, as far as pixel x: three
  // stretches from the line starts on, the chroma taken from every second pixel.
  ghost function RowByte(
    before: seq<byte>, yline: nat, uline: nat, vline: nat, x: nat,
    ys: seq<byte>, us: seq<byte>, vs: seq<byte>, k0: nat, i: nat): byte
    requires k0 + x <= |ys| && |ys| == |us| == |vs| && i < |before|
  {
    if yline <= i < yline + x then ys[k0 + i - yline]
    else if uline <= i < uline + x / 2 then us[k0 + 2 * (i - uline) + 1]
    else if vline <= i < vline + x / 2 then vs[k0 + 2 * (i - vline) + 1]
    else before[i]
  }

  ghost predicate RowDone(
    yuv: seq<byte>, before: seq<byte>, yline: nat, uline: nat, vline: nat, x: nat,
    ys: seq<byte>, us: seq<byte>, vs: seq<byte>, k0: nat)
    requires k0 + x <= |ys| && |ys| == |us| == |vs| && |yuv| == |before|
  {
    forall i :: 0 <= i < |yuv| ==> yuv[i] == RowByte(before, yline, uline, vline, x, ys, us, vs, k0, i)
  }

  // Two more pixels: two lumas, and the second pixel's chroma over the first's.
  lemma RowAdvances(
    after: seq<byte>, yuv: seq<byte>, before: seq<byte>, yline: nat, uline: nat, vline: nat, x: nat,
    ys: seq<byte>, us: seq<byte>, vs: seq<byte>, k0: nat)
    requires x % 2 == 0 && k0 + x + 2 <= |ys| == |us| == |vs| && |yuv| == |before|
    requires yline + x + 2 <= uline && uline + x / 2 + 1 <= vline && vline + x / 2 < |yuv|
    requires RowDone(yuv, before, yline, uline, vline, x, ys, us, vs, k0)
    requires var y, u, v, k := yline + x, uline + x / 2, vline + x / 2, k0 + x;
      after == yuv[y := ys[k]][u := us[k]][v := vs[k]][y + 1 := ys[k + 1]][u := us[k + 1]][v := vs[k + 1]]
    ensures RowDone(after, before, yline, uline, vline, x + 2, ys, us, vs, k0)
  {
  }

  // The body of the inner loop: pixels k and k + 1.
  method ConvertPair(
    rgb: array<byte>, start: nat, yuv: array<byte>, yline: nat, uline: nat, vline: nat, pixelSize: nat,
    ghost n: nat, ghost ys: seq<byte>, ghost us: seq<byte>, ghost vs: seq<byte>, ghost k: nat)
    returns (rgbIndex: nat)
    requires rgb != yuv && 3 <= pixelSize && k + 1 < n && Offset(n, pixelSize) <= rgb.Length && start == Offset(k, pixelSize)
    requires yline + 1 < uline < vline < yuv.Length
    requires ValuesOf(rgb[..], pixelSize, n, ys, us, vs)
    modifies yuv
    ensures rgbIndex == Offset(k + 2, pixelSize)
    ensures yuv[..] == old(yuv[..])[yline := ys[k]][uline := us[k]][vline := vs[k]]
                                   [yline + 1 := ys[k + 1]][uline := us[k + 1]][vline := vs[k + 1]]
  {
    rgbIndex := start;
    RgbToYuv(rgb, rgbIndex, yuv, yline, uline, vline, pixelSize, n, ys, us, vs, k);
    rgbIndex := rgbIndex + pixelSize;
    RgbToYuv(rgb, rgbIndex, yuv, yline + 1, uline, vline, pixelSize, n, ys, us, vs, k + 1);
    rgbIndex := rgbIndex + pixelSize;
  }

  // The inner loop: one row of w pixels from pixel k0 on.
  method ConvertRow(
    rgb: array<byte>, start: nat, yuv: array<byte>, yline0: nat, uline0: nat, vline0: nat, w: nat, pixelSize: nat,
    ghost n: nat, ghost ys: seq<byte>, ghost us: seq<byte>, ghost vs: seq<byte>, ghost k0: nat)
    returns (rgbIndex: nat)
    requires rgb != yuv && 3 <= pixelSize && w % 2 == 0 && k0 + w <= n && Offset(n, pixelSize) <= rgb.Length
    requires start == Offset(k0, pixelSize)
    requires yline0 + w <= uline0 && uline0 + w / 2 <= vline0 && vline0 + w / 2 <= yuv.Length
    requires ValuesOf(rgb[..], pixelSize, n, ys, us, vs)
    modifies yuv
    ensures rgbIndex == Offset(k0 + w, pixelSize)
    ensures RowDone(yuv[..], old(yuv[..]), yline0, uline0, vline0, w, ys, us, vs, k0)
  {
    rgbIndex := start;
    var yline, uline, vline := yline0, uline0, vline0;
    var x := 0;
    while x < w
      invariant 0 <= x <= w && x % 2 == 0 && rgbIndex == Offset(k0 + x, pixelSize)
      invariant yline == yline0 + x && uline == uline0 + x / 2 && vline == vline0 + x / 2
      invariant RowDone(yuv[..], old(yuv[..]), yline0, uline0, vline0, x, ys, us, vs, k0)
    {
      ghost var done := yuv[..];
      rgbIndex := ConvertPair(rgb, rgbIndex, yuv, yline, uline, vline, pixelSize, n, ys, us, vs, k0 + x);
      RowAdvances(yuv[..], done, old(yuv[..]), yline0, uline0, vline0, x, ys, us, vs, k0);
      yline := yline + 2;
      uline := uline + 1;
      vline := vline + 1;
      x := x + 2;
    }
  }

  // After k pixels and c final chroma cells: planes as far as they go, the rest untouched.
  ghost predicate Settled(
    yuv: seq<byte>, before: seq<byte>, ys: seq<byte>, cu: seq<byte>, cv: seq<byte>, k: nat, c: nat)
    requires |yuv| == |before| && k <= |ys| && c <= |cu| == |cv|
  {
    var p, q := |ys|, |cu|;
    && (forall i :: 0 <= i < |yuv| && i < k ==> yuv[i] == ys[i])
    && (forall i :: p <= i < |yuv| && i < p + c ==> yuv[i] == cu[i - p])
    && (forall i :: p + q <= i < |yuv| && i < p + q + c ==> yuv[i] == cv[i - p - q])
    && (forall i :: p + 2 * q <= i < |yuv| ==> yuv[i] == before[i])
  }

  // One more row. Only the second row of a pair settles its chroma cells.
  lemma RowSettles(
    after: seq<byte>, yuv: seq<byte>, before: seq<byte>, ys: seq<byte>, us: seq<byte>, vs: seq<byte>,
    cu: seq<byte>, cv: seq<byte>, k: nat, c: nat, w: nat, second: bool)
    requires |after| == |yuv| == |before| && |ys| == |us| == |vs| && |cu| == |cv|
    requires w % 2 == 0 && k + w <= |ys| && c + w / 2 <= |cu|
    requires Settled(yuv, before, ys, cu, cv, k, c)
    requires RowDone(after, yuv, k, |ys| + c, |ys| + |cu| + c, w, ys, us, vs, k)
    requires second ==> forall i :: 0 <= i < w / 2 ==> cu[c + i] == us[k + 2 * i + 1] && cv[c + i] == vs[k + 2 * i + 1]
    ensures Settled(after, before, ys, cu, cv, k + w, if second then c + w / 2 else c)
  {
    var p, q := |ys|, |cu|;
    forall i | p <= i < |yuv| && i < p + (if second then c + w / 2 else c) ensures after[i] == cu[i - p] {
      assert i >= p + c ==> cu[c + (i - p - c)] == us[k + 2 * (i - p - c) + 1];
    }
    forall i | p + q <= i < |yuv| && i < p + q + (if second then c + w / 2 else c) ensures after[i] == cv[i - p - q] {
      assert i >= p + q + c ==> cv[c + (i - p - q - c)] == vs[k + 2 * (i - p - q - c) + 1];
    }
  }

  // Where row y starts, among the pixels and among the chroma cells.
  lemma RowStarts(w: nat, h: nat, y: nat)
    requires h % 2 == 0 && y < h
    ensures Offset(y + 1, w) == Offset(y, w) + w <= Offset(h, w)
    ensures Offset(y / 2, w / 2) + w / 2 <= Offset(h / 2, w / 2)
    ensures Offset((y + 1) / 2, w / 2) == Offset(y / 2, w / 2) + if y % 2 == 1 then w / 2 else 0
  {
    OffsetInFrame(y, h, w);
    OffsetInFrame(y / 2, h / 2, w / 2);
  }

  // The cells of a row pair come from the second row of the pair.
  lemma CellsOfRow(cells: seq<byte>, values: seq<byte>, w: nat, y: nat)
    requires 2 <= w && w % 2 == 0 && y % 2 == 1 && AreCells(cells, values, w)
    requires Offset(y, w) + w <= |values| && Offset(y / 2, w / 2) + w / 2 <= |cells|
    ensures var k, c := Offset(y, w), Offset(y / 2, w / 2);
      forall i :: 0 <= i < w / 2 ==> cells[c + i] == values[k + 2 * i + 1]
  {
    var k, c := Offset(y, w), Offset(y / 2, w / 2);
    assert y == 2 * (y / 2) + 1;
    forall i | 0 <= i < w / 2 ensures cells[c + i] == values[k + 2 * i + 1] {
      BlockPixelAt(w, y / 2, i);
    }
  }

  // The body of the outer loop: row y, with k pixels and c cells before it.
  method ConvertRowAt(
    rgb: array<byte>, start: nat, yuv: array<byte>, w: nat, planeSize: nat, pixelSize: nat, y: nat,
    ghost before: seq<byte>, ghost ys: seq<byte>, ghost us: seq<byte>, ghost vs: seq<byte>,
    ghost cu: seq<byte>, ghost cv: seq<byte>, ghost k: nat, ghost c: nat)
    returns (rgbIndex: nat)
    requires 2 <= w && w % 2 == 0 && 3 <= pixelSize && rgb != yuv
    requires |ys| == planeSize && |cu| == |cv| == planeSize / 4 && Offset(planeSize, pixelSize) <= rgb.Length
    requires |ys| + 2 * |cu| <= yuv.Length == |before|
    requires k == Offset(y, w) && c == Offset(y / 2, w / 2) && k + w <= |ys| && c + w / 2 <= |cu|
    requires start == Offset(k, pixelSize) && ValuesOf(rgb[..], pixelSize, |ys|, ys, us, vs)
    requires y % 2 == 1 ==>
      forall i :: 0 <= i < w / 2 ==> cu[c + i] == us[k + 2 * i + 1] && cv[c + i] == vs[k + 2 * i + 1]
    requires Settled(yuv[..], before, ys, cu, cv, k, c)
    modifies yuv
    ensures rgbIndex == Offset(k + w, pixelSize)
    ensures Settled(yuv[..], before, ys, cu, cv, k + w, if y % 2 == 1 then c + w / 2 else c)
  {
    OffsetIsProduct(y, w);
    OffsetIsProduct(y / 2, w / 2);
    var halfWidth := w / 2;
    var yline := y * w;
    var uline := planeSize + (y / 2) * halfWidth;
    var vline := planeSize + planeSize / 4 + (y / 2) * halfWidth;
    rgbIndex := ConvertRow(rgb, start, yuv, yline, uline, vline, w, pixelSize, |ys|, ys, us, vs, k);
    RowSettles(yuv[..], old(yuv[..]), before, ys, us, vs, cu, cv, k, c, w, y % 2 == 1);
  }

  // The outer loop.
  method ConvertRows(
    rgb: array<byte>, yuv: array<byte>, w: nat, h: nat, planeSize: nat, pixelSize: nat,
    ghost ys: seq<byte>, ghost us: seq<byte>, ghost vs: seq<byte>, ghost cu: seq<byte>, ghost cv: seq<byte>)
    requires 2 <= w && w % 2 == 0 && h % 2 == 0 && 3 <= pixelSize && rgb != yuv
    requires planeSize == Offset(h, w) && planeSize / 4 == Offset(h / 2, w / 2) == |cu| == |cv|
    requires Offset(planeSize, pixelSize) <= rgb.Length && planeSize + 2 * (planeSize / 4) <= yuv.Length
    requires ValuesOf(rgb[..], pixelSize, planeSize, ys, us, vs) && AreCells(cu, us, w) && AreCells(cv, vs, w)
    modifies yuv
    ensures Settled(yuv[..], old(yuv[..]), ys, cu, cv, planeSize, planeSize / 4)
  {
    ghost var k, c := 0, 0;   // pixels and cells done
    var rgbIndex, y := 0, 0;
    while y < h
      invariant 0 <= y <= h && k == Offset(y, w) <= |ys| && c == Offset(y / 2, w / 2) <= |cu|
      invariant rgbIndex == Offset(k, pixelSize)
      invariant Settled(yuv[..], old(yuv[..]), ys, cu, cv, k, c)
    {
      RowStarts(w, h, y);
      if y % 2 == 1 {
        CellsOfRow(cu, us, w, y);
        CellsOfRow(cv, vs, w, y);
      }
      rgbIndex := ConvertRowAt(rgb, rgbIndex, yuv, w, planeSize, pixelSize, y, old(yuv[..]), ys, us, vs, cu, cv, k, c);
      k, c := k + w, if y % 2 == 1 then c + w / 2 else c;
      y := y + 1;
    }
  }

  method RGBtoYUV420(rgb: array<byte>, yuv: array<byte>, w: nat, h: nat, pixelSize: nat)
    requires 2 <= w && w % 2 == 0 && h % 2 == 0 && 3 <= pixelSize
    requires rgb != yuv && w * h * pixelSize <= rgb.Length && w * h + w * h / 2 <= yuv.Length
    modifies yuv
    ensures yuv[..] == Planar(rgb[..], w, h, pixelSize) + old(yuv[..])[w * h + w * h / 2..]
  {
    var planeSize := w * h;
    FrameSizes(w, h);
    OffsetIsProduct(planeSize, pixelSize);
    ghost var ys := PerPixel(rgb[..], pixelSize, planeSize, Luma);
    ghost var us := PerPixel(rgb[..], pixelSize, planeSize, ChromaU);
    ghost var vs := PerPixel(rgb[..], pixelSize, planeSize, ChromaV);
    ghost var cu, cv := Cells(us, w, planeSize / 4), Cells(vs, w, planeSize / 4);
    ConvertRows(rgb, yuv, w, h, planeSize, pixelSize, ys, us, vs, cu, cv);
    SettledIsFrame(yuv[..], old(yuv[..]), ys, cu, cv);
  }

  lemma SettledIsFrame(yuv: seq<byte>, before: seq<byte>, ys: seq<byte>, cu: seq<byte>, cv: seq<byte>)
    requires |yuv| == |before| && |cu| == |cv| && |ys| + 2 * |cu| <= |yuv|
    requires Settled(yuv, before, ys, cu, cv, |ys|, |cu|)
    ensures yuv == ys + cu + cv + before[|ys| + 2 * |cu|..]
  {
  }

  // Twice as many rows of twice the width are four times as much.
  lemma {:induction false} QuarterCells(a: nat, b: nat)
    ensures Offset(2 * b, 2 * a) == 4 * Offset(b, a)
  {
    if b != 0 {
      QuarterCells(a, b - 1);
      assert Offset(2 * b, 2 * a) == Offset(2 * b - 1, 2 * a) + 2 * a;
    }
  }

  // An even frame takes exactly w*h*3/2 bytes.
  lemma PlanarLength(rgb: seq<byte>, w: nat, h: nat, ps: nat)
    requires 2 <= w && w % 2 == 0 && h % 2 == 0
    ensures 2 * |Planar(rgb, w, h, ps)| == 3 * (w * h)
  {
    QuarterCells(w / 2, h / 2);
    OffsetIsProduct(h, w);
    assert |Planar(rgb, w, h, ps)| == Offset(h, w) + 2 * Offset(h / 2, w / 2);
  }

  // Pixel (x, y) of a frame of width w is pixel k; its chroma is cell c, which is computed
  // from the pixel called corner, the lower right one of its 2x2 block.
  predicate Placed(w: nat, x: nat, y: nat, k: nat, c: nat, corner: nat) {
    && k == y * w + x
    && c == (y / 2) * (w / 2) + x / 2
    && corner == (2 * (y / 2) + 1) * w + 2 * (x / 2) + 1
  }

  lemma PlacedByRows(w: nat, x: nat, y: nat, k: nat, c: nat, corner: nat)
    requires Placed(w, x, y, k, c, corner)
    ensures k == Offset(y, w) + x && c == Offset(y / 2, w / 2) + x / 2
    ensures corner == Offset(2 * (y / 2) + 1, w) + 2 * (x / 2) + 1
  {
    OffsetIsProduct(y, w);
    OffsetIsProduct(y / 2, w / 2);
    OffsetIsProduct(2 * (y / 2) + 1, w);
  }

  // All three are inside the frame.
  lemma PlacedInFrame(w: nat, h: nat, x: nat, y: nat, k: nat, c: nat, corner: nat)
    requires w % 2 == 0 && h % 2 == 0 && x < w && y < h && Placed(w, x, y, k, c, corner)
    ensures k < Offset(h, w) && c < Offset(h / 2, w / 2) && BlockPixel(w, c) == corner < Offset(h, w)
  {
    PlacedByRows(w, x, y, k, c, corner);
    OffsetInFrame(y, h, w);
    OffsetInFrame(y / 2, h / 2, w / 2);
    OffsetInFrame(2 * (y / 2) + 1, h, w);
    BlockPixelAt(w, y / 2, x / 2);
  }

  // The planar frame by place: n lumas, one for every pixel, then two planes of q cells with
  // the chroma of the corner pixel of each block.
  lemma PlanarAt(
    rgb: seq<byte>, w: nat, h: nat, ps: nat, f: seq<byte>, n: nat, q: nat,
    x: nat, y: nat, k: nat, c: nat, corner: nat)
    requires w % 2 == 0 && h % 2 == 0 && x < w && y < h && Placed(w, x, y, k, c, corner)
    requires f == Planar(rgb, w, h, ps) && n == w * h && q == w * h / 4
    ensures |f| == n + 2 * q && k < n && c < q
    ensures f[k] == Luma(PixelAt(rgb, ps, k))
    ensures f[n + c] == ChromaU(PixelAt(rgb, ps, corner)) && f[n + q + c] == ChromaV(PixelAt(rgb, ps, corner))
  {
    assert n == Offset(h, w) && q == Offset(h / 2, w / 2) by { FrameSizes(w, h); }
    assert k < n && c < q && BlockPixel(w, c) == corner < n by { PlacedInFrame(w, h, x, y, k, c, corner); }
    PlanarIndex(rgb, w, h, ps, f, n, q, k, c, corner, Luma, ChromaU, ChromaV);
  }

  lemma PlanarIndex(
    rgb: seq<byte>, w: nat, h: nat, ps: nat, f: seq<byte>, n: nat, q: nat, k: nat, c: nat, corner: nat,
    fy: Pixel -> byte, fu: Pixel -> byte, fv: Pixel -> byte)
    requires 2 <= w && f == PlanarWith(rgb, w, h, ps, fy, fu, fv) && n == Offset(h, w) && q == Offset(h / 2, w / 2)
    requires k < n && c < q && BlockPixel(w, c) == corner < n
    ensures |f| == n + 2 * q
    ensures f[k] == fy(PixelAt(rgb, ps, k))
    ensures f[n + c] == fu(PixelAt(rgb, ps, corner)) && f[n + q + c] == fv(PixelAt(rgb, ps, corner))
  {
    var ys, us, vs := PerPixel(rgb, ps, n, fy), PerPixel(rgb, ps, n, fu), PerPixel(rgb, ps, n, fv);
    CellIndex(us, w, q, c);
    CellIndex(vs, w, q, c);
    Thirds(ys, Cells(us, w, q), Cells(vs, w, q), k, c);
  }

  lemma CellIndex(values: seq<byte>, w: nat, q: nat, c: nat)
    requires 2 <= w && c < q && BlockPixel(w, c) < |values|
    ensures |Cells(values, w, q)| == q && Cells(values, w, q)[c] == values[BlockPixel(w, c)]
  {
  }

  lemma Thirds(a: seq<byte>, b: seq<byte>, c: seq<byte>, k: nat, m: nat)
    requires k < |a| && m < |b| == |c|
    ensures var f := a + b + c; f[k] == a[k] && f[|a| + m] == b[m] && f[|a| + |b| + m] == c[m]
  {
  }

  // ---- I420ToARGB ----

  // The table entries and the sums the decoder clips; >> 8 on int rounds down.
  function Yc(i: byte): int { 298 * (i as int - 16) }
  function Ucg(i: byte): int { -100 * (i as int - 128) }
  function Ucb(i: byte): int { 516 * (i as int - 128) }
  function Vcr(i: byte): int { 409 * (i as int - 128) }
  function Vcg(i: byte): int { -208 * (i as int - 128) }

  function Clip(val: int): byte {
    if val < 0 then 0 else if val > 255 then 255 else val
  }

  function Decode(y: byte, u: byte, v: byte): Pixel {
    Pixel(Clip((Yc(y) + Ucb(u) + 128) / 256),
          Clip((Yc(y) + Ucg(u) + Vcg(v) + 128) / 256),
          Clip((Yc(y) + Vcr(v) + 128) / 256))
  }

  // Three source planes: the bytes, where the plane starts in them, and the distance between
  // its rows.
  datatype Planes = Planes(ys: seq<byte>, oy: nat, sy: nat, us: seq<byte>, ou: nat, su: nat, vs: seq<byte>, ov: nat, sv: nat)

  // Where a row starts in each plane.
  function RowY(f: Planes, y: nat): nat { f.oy + Offset(y, f.sy) }
  function RowU(f: Planes, y: nat): nat { f.ou + Offset(y, f.su) }
  function RowV(f: Planes, y: nat): nat { f.ov + Offset(y, f.sv) }

  // The pixel at column x, row y.
  function DecodedAt(f: Planes, x: nat, y: nat): Pixel {
    Decode(At(f.ys, RowY(f, y) + x), At(f.us, RowU(f, y / 2) + x / 2), At(f.vs, RowV(f, y / 2) + x / 2))
  }

  // All pixels of the frame, row by row.
  ghost predicate IsFrame(pixels: seq<Pixel>, f: Planes, w: nat, h: nat) {
    && |pixels| == Offset(h, w)
    && forall x: nat, y: nat {:trigger DecodedAt(f, x, y)} :: x < w && y < h && Offset(y, w) + x < |pixels| ==>
         pixels[Offset(y, w) + x] == DecodedAt(f, x, y)
  }

  ghost predicate FitsPlanes(f: Planes, w: nat, h: nat) {
    2 <= h ==>
      && RowY(f, h - 1) + w <= |f.ys|
      && RowU(f, h / 2 - 1) + w / 2 <= |f.us| && RowV(f, h / 2 - 1) + w / 2 <= |f.vs|
  }

  function Channel(p: Pixel, i: nat): byte { if i == 0 then p.b else if i == 1 then p.g else p.r }

  // Byte i once the pixels before a, and those from b0 to b, are drawn: every fourth byte
  // stays as it was.
  function DrawnByte(before: seq<byte>, pixels: seq<Pixel>, a: nat, b0: nat, b: nat, i: nat): byte
    requires a <= |pixels| && b <= |pixels| && i < |before|
  {
    var k := i / 4;
    if i % 4 != 3 && (k < a || b0 <= k < b) then Channel(pixels[k], i % 4) else before[i]
  }

  ghost predicate Drawn(dst: seq<byte>, before: seq<byte>, pixels: seq<Pixel>, a: nat, b0: nat, b: nat)
    requires a <= |pixels| && b <= |pixels| && |dst| == |before|
  {
    forall i :: 0 <= i < |dst| ==> dst[i] == DrawnByte(before, pixels, a, b0, b, i)
  }

  // Draws pixel a, or pixel b, over bytes drawn so far.
  method PutPixel(
    dst: array<byte>, out: nat, p: Pixel,
    ghost before: seq<byte>, ghost pixels: seq<Pixel>, ghost a: nat, ghost b0: nat, ghost b: nat, ghost upper: bool)
    requires a <= b0 <= b <= |pixels| && |before| == dst.Length && 4 * |pixels| <= dst.Length
    requires (if upper then a < b0 else b < |pixels|) && pixels[if upper then a else b] == p
    requires out == 4 * if upper then a else b
    requires Drawn(dst[..], before, pixels, a, b0, b)
    modifies dst
    ensures if upper then Drawn(dst[..], before, pixels, a + 1, b0, b) else Drawn(dst[..], before, pixels, a, b0, b + 1)
  {
    dst[out] := p.b;
    dst[out + 1] := p.g;
    dst[out + 2] := p.r;
  }

  // The colour of pixel (x, y) from the bytes the three source pointers are at.
  method Colour(
    ys: array<byte>, y1: nat, us: array<byte>, u: nat, vs: array<byte>, v: nat,
    ghost f: Planes, ghost w: nat, ghost h: nat, ghost pixels: seq<Pixel>, ghost x: nat, ghost y: nat)
    returns (p: Pixel)
    requires y1 < ys.Length && u < us.Length && v < vs.Length && ys[..] == f.ys && us[..] == f.us && vs[..] == f.vs
    requires x < w && y < h && IsFrame(pixels, f, w, h) && Offset(y, w) + x < |pixels|
    requires y1 == RowY(f, y) + x && u == RowU(f, y / 2) + x / 2 && v == RowV(f, y / 2) + x / 2
    ensures p == pixels[Offset(y, w) + x]
  {
    assert DecodedAt(f, x, y) == Decode(f.ys[y1], f.us[u], f.vs[v]);
    p := Decode(ys[y1], us[u], vs[v]);
  }

  lemma {:induction false} OffsetMonotone(a: nat, b: nat, ps: nat)
    requires a <= b
    ensures Offset(a, ps) <= Offset(b, ps)
  {
    if a < b { OffsetMonotone(a, b - 1, ps); }
  }

  // The two pixels of a block in one of its rows: (x, y) and (x + 1, y).
  method DrawPair(
    dst: array<byte>, out: nat, ys: array<byte>, y1: nat, us: array<byte>, u: nat, vs: array<byte>, v: nat,
    ghost f: Planes, ghost width: nat, ghost h: nat, ghost pixels: seq<Pixel>, ghost x: nat, ghost y: nat,
    ghost before: seq<byte>, ghost a: nat, ghost b0: nat, ghost b: nat, ghost upper: bool)
    requires dst != ys && dst != us && dst != vs && ys[..] == f.ys && us[..] == f.us && vs[..] == f.vs
    requires x % 2 == 0 && x + 1 < width && y < h && IsFrame(pixels, f, width, h)
    requires y1 == RowY(f, y) + x && y1 + 1 < ys.Length
    requires u == RowU(f, y / 2) + x / 2 < us.Length && v == RowV(f, y / 2) + x / 2 < vs.Length
    requires a <= b0 <= b && |before| == dst.Length && 4 * |pixels| <= dst.Length
    requires if upper then a + 2 <= b0 && b <= |pixels| else b + 2 <= |pixels|
    requires (if upper then a else b) == Offset(y, width) + x && out == 4 * if upper then a else b
    requires Drawn(dst[..], before, pixels, a, b0, b)
    modifies dst
    ensures if upper then Drawn(dst[..], before, pixels, a + 2, b0, b) else Drawn(dst[..], before, pixels, a, b0, b + 2)
  {
    var p := Colour(ys, y1, us, u, vs, v, f, width, h, pixels, x, y);
    PutPixel(dst, out, p, before, pixels, a, b0, b, upper);
    p := Colour(ys, y1 + 1, us, u, vs, v, f, width, h, pixels, x + 1, y);
    PutPixel(dst, out + 4, p, before, pixels, if upper then a + 1 else a, b0, if upper then b else b + 1, upper);
  }

  // The loop body: one 2x2 block, from two luma rows and one chroma pair.
  method DrawBlock(
    dst: array<byte>, out: nat, out2: nat, ys: array<byte>, y1: nat, y2: nat,
    us: array<byte>, u: nat, vs: array<byte>, v: nat,
    ghost f: Planes, ghost width: nat, ghost h: nat, ghost pixels: seq<Pixel>, ghost row: nat, ghost w: nat,
    ghost before: seq<byte>)
    requires dst != ys && dst != us && dst != vs && ys[..] == f.ys && us[..] == f.us && vs[..] == f.vs
    requires 2 * w + 1 < width && 2 * row + 1 < h && IsFrame(pixels, f, width, h)
    requires |before| == dst.Length && Offset(2 * row, width) + 2 * width <= |pixels| && 4 * |pixels| <= dst.Length
    requires y1 == RowY(f, 2 * row) + 2 * w && y2 == RowY(f, 2 * row + 1) + 2 * w
    requires u == RowU(f, row) + w < us.Length && v == RowV(f, row) + w < vs.Length
    requires y1 + 1 < ys.Length && y2 + 1 < ys.Length
    requires var k := Offset(2 * row, width); out == 4 * (k + 2 * w) && out2 == 4 * (k + width + 2 * w)
    requires var k := Offset(2 * row, width); Drawn(dst[..], before, pixels, k + 2 * w, k + width, k + width + 2 * w)
    modifies dst
    ensures var k := Offset(2 * row, width);
      Drawn(dst[..], before, pixels, k + 2 * w + 2, k + width, k + width + 2 * w + 2)
  {
    ghost var k := Offset(2 * row, width);
    ghost var a, b0, b := k + 2 * w, k + width, k + width + 2 * w;
    assert (2 * w + 1) / 2 == w && (2 * row + 1) / 2 == row && Offset(2 * row + 1, width) == b0;
    DrawPair(dst, out, ys, y1, us, u, vs, v, f, width, h, pixels, 2 * w, 2 * row, before, a, b0, b, true);
    DrawPair(dst, out2, ys, y2, us, u, vs, v, f, width, h, pixels, 2 * w, 2 * row + 1, before, a + 2, b0, b, false);
  }

  // The inner loop: the pair of rows 2*row and 2*row+1. The pointers end after the rows.
  method DrawRows(
    dst: array<byte>, out0: nat, out20: nat, ys: array<byte>, y10: nat, y20: nat,
    us: array<byte>, u0: nat, vs: array<byte>, v0: nat, width: nat,
    ghost f: Planes, ghost h: nat, ghost pixels: seq<Pixel>, ghost row: nat, ghost before: seq<byte>)
    returns (out: nat, out2: nat, y1: nat, y2: nat, u: nat, v: nat)
    requires dst != ys && dst != us && dst != vs && ys[..] == f.ys && us[..] == f.us && vs[..] == f.vs
    requires width % 2 == 0 && 2 * row + 1 < h && |before| == dst.Length
    requires y10 == RowY(f, 2 * row) && y20 == RowY(f, 2 * row + 1)
    requires u0 == RowU(f, row) && u0 + width / 2 <= us.Length
    requires v0 == RowV(f, row) && v0 + width / 2 <= vs.Length
    requires y10 + width <= ys.Length && y20 + width <= ys.Length
    requires out0 == 4 * Offset(2 * row, width) && out20 == out0 + 4 * width
    requires IsFrame(pixels, f, width, h) && Offset(2 * row, width) + 2 * width <= |pixels| && 4 * |pixels| <= dst.Length
    requires var k := Offset(2 * row, width); Drawn(dst[..], before, pixels, k, k + width, k + width)
    modifies dst
    ensures var k := Offset(2 * row, width) + 2 * width; Drawn(dst[..], before, pixels, k, k, k)
    ensures out == out0 + 4 * width && out2 == out20 + 4 * width && y1 == y10 + width && y2 == y20 + width
    ensures u == u0 + width / 2 && v == v0 + width / 2
  {
    ghost var k := Offset(2 * row, width);
    out, out2, y1, y2, u, v := out0, out20, y10, y20, u0, v0;
    var w := 0;
    while w < width / 2
      invariant 0 <= w <= width / 2
      invariant out == 4 * (k + 2 * w) && out2 == 4 * (k + width + 2 * w)
      invariant y1 == y10 + 2 * w && y2 == y20 + 2 * w && u == u0 + w && v == v0 + w
      invariant Drawn(dst[..], before, pixels, k + 2 * w, k + width, k + width + 2 * w)
    {
      DrawBlock(dst, out, out2, ys, y1, y2, us, u, vs, v, f, width, h, pixels, row, w, before);
      out, out2, y1, y2, u, v := out + 8, out2 + 8, y1 + 2, y2 + 2, u + 1, v + 1;
      w := w + 1;
    }
  }

  function DecodeRow(f: Planes, w: nat, y: nat): seq<Pixel> {
    seq(w, x requires 0 <= x => DecodedAt(f, x, y))
  }

  // All pixels, row by row.
  function DecodeFrame(f: Planes, w: nat, h: nat): (pixels: seq<Pixel>)
    ensures |pixels| == Offset(h, w)
  {
    if h == 0 then [] else DecodeFrame(f, w, h - 1) + DecodeRow(f, w, h - 1)
  }

  lemma {:induction false} PixelOfFrame(f: Planes, w: nat, h: nat, x: nat, y: nat)
    requires x < w && y < h
    ensures Offset(y, w) + x < |DecodeFrame(f, w, h)|
    ensures DecodeFrame(f, w, h)[Offset(y, w) + x] == DecodedAt(f, x, y)
  {
    OffsetInFrame(y, h, w);
    if y < h - 1 {
      PixelOfFrame(f, w, h - 1, x, y);
    } else {
      assert DecodeRow(f, w, y)[x] == DecodedAt(f, x, y);
    }
  }

  lemma DecodeFrameIsFrame(f: Planes, w: nat, h: nat)
    ensures IsFrame(DecodeFrame(f, w, h), f, w, h)
  {
    forall x: nat, y: nat {:trigger DecodedAt(f, x, y)} | x < w && y < h
      ensures Offset(y, w) + x < Offset(h, w) && DecodeFrame(f, w, h)[Offset(y, w) + x] == DecodedAt(f, x, y)
    {
      PixelOfFrame(f, w, h, x, y);
    }
  }

  // All pixels are drawn; only they are, and of their bytes every fourth is as before.
  ghost predicate DrawnAll(dst: seq<byte>, before: seq<byte>, pixels: seq<Pixel>) {
    4 * |pixels| <= |dst| == |before| && Drawn(dst, before, pixels, |pixels|, |pixels|, |pixels|)
  }

  predicate PixelDrawn(dst: seq<byte>, before: seq<byte>, k: nat, p: Pixel) {
    4 * k + 4 <= |dst| == |before| && dst[4 * k..4 * k + 4] == [p.b, p.g, p.r, before[4 * k + 3]]
  }

  lemma DrawnPixel(dst: seq<byte>, before: seq<byte>, pixels: seq<Pixel>, k: nat)
    requires k < |pixels| && DrawnAll(dst, before, pixels)
    ensures PixelDrawn(dst, before, k, pixels[k])
  {
    assert (4 * k + 1) / 4 == (4 * k + 2) / 4 == (4 * k + 3) / 4 == k;
  }

  lemma DrawnByRows(
    dst: seq<byte>, before: seq<byte>, f: Planes, w: nat, h: nat, x: nat, y: nat, k: nat, i: nat, iu: nat, iv: nat)
    requires x < w && y < h && DrawnAll(dst, before, DecodeFrame(f, w, h))
    requires k == Offset(y, w) + x && i == RowY(f, y) + x
    requires iu == RowU(f, y / 2) + x / 2 && iv == RowV(f, y / 2) + x / 2
    ensures PixelDrawn(dst, before, k, Decode(At(f.ys, i), At(f.us, iu), At(f.vs, iv)))
  {
    PixelOfFrame(f, w, h, x, y);
    DrawnPixel(dst, before, DecodeFrame(f, w, h), k);
  }

  // The drawn frame by place: blue, green and red of the pixel in column x and row y, from
  // its own luma and the chroma of its block, and a fourth byte that was there before.
  lemma DrawnAt(
    dst: seq<byte>, before: seq<byte>, f: Planes, w: nat, h: nat, x: nat, y: nat, k: nat, i: nat, iu: nat, iv: nat)
    requires x < w && y < h && DrawnAll(dst, before, DecodeFrame(f, w, h))
    requires k == y * w + x && i == f.oy + y * f.sy + x
    requires iu == f.ou + (y / 2) * f.su + x / 2 && iv == f.ov + (y / 2) * f.sv + x / 2
    ensures PixelDrawn(dst, before, k, Decode(At(f.ys, i), At(f.us, iu), At(f.vs, iv)))
  {
    OffsetIsProduct(y, w);
    OffsetIsProduct(y, f.sy);
    OffsetIsProduct(y / 2, f.su);
    OffsetIsProduct(y / 2, f.sv);
    DrawnByRows(dst, before, f, w, h, x, y, k, i, iu, iv);
  }

  lemma RowFits(start: nat, stride: nat, row: nat, last: nat, width: nat, length: nat)
    requires row <= last && start + Offset(last, stride) + width <= length
    ensures start + Offset(row, stride) + width <= length
  {
    OffsetMonotone(row, last, stride);
  }

  // What rows 2*row and 2*row+1 need of the planes.
  lemma RowsFit(f: Planes, w: nat, h: nat, row: nat)
    requires FitsPlanes(f, w, h) && h % 2 == 0 && 2 * row < h
    ensures RowY(f, 2 * row) + w <= |f.ys| && RowY(f, 2 * row + 1) + w <= |f.ys|
    ensures RowU(f, row) + w / 2 <= |f.us| && RowV(f, row) + w / 2 <= |f.vs|
  {
    var last := h / 2 - 1;
    assert RowY(f, 2 * row) + w <= |f.ys| by { RowFits(f.oy, f.sy, 2 * row, h - 1, w, |f.ys|); }
    assert RowY(f, 2 * row + 1) + w <= |f.ys| by { RowFits(f.oy, f.sy, 2 * row + 1, h - 1, w, |f.ys|); }
    assert RowU(f, row) + w / 2 <= |f.us| by { RowFits(f.ou, f.su, row, last, w / 2, |f.us|); }
    assert RowV(f, row) + w / 2 <= |f.vs| by { RowFits(f.ov, f.sv, row, last, w / 2, |f.vs|); }
  }

  // Rows 2*row and 2*row+1 are in the frame.
  lemma RowsInFrame(w: nat, h: nat, row: nat)
    requires 2 * row + 1 < h
    ensures Offset(2 * row, w) + 2 * w <= Offset(h, w)
  {
    OffsetInFrame(2 * row + 1, h, w);
  }

  // Every pixel of an even frame gets the colour of its luma and of its block's chroma, for
  // any source strides; every fourth byte and the bytes after the frame stay. The source
  // pointers are arrays with the index they start at, and may be into one array.
  method I420ToARGB(
    srcY: array?<byte>, offsetY: nat, strideY: nat, srcU: array?<byte>, offsetU: nat, strideU: nat,
    srcV: array?<byte>, offsetV: nat, strideV: nat, dst: array?<byte>, strideFrame: nat, width: nat, height: nat)
    returns (ok: bool)
    requires 0 < width && width % 2 == 0 && height % 2 == 0 && strideFrame == 4 * width
    requires srcY != null && srcU != null && srcV != null && dst != null ==>
      && dst != srcY && dst != srcU && dst != srcV && 4 * (width * height) <= dst.Length
      && FitsPlanes(
           Planes(srcY[..], offsetY, strideY, srcU[..], offsetU, strideU, srcV[..], offsetV, strideV), width, height)
    modifies dst
    ensures ok <==> srcY != null && srcU != null && srcV != null && dst != null
    ensures !ok && dst != null ==> dst[..] == old(dst[..])
    ensures ok ==>
      var f := Planes(srcY[..], offsetY, strideY, srcU[..], offsetU, strideU, srcV[..], offsetV, strideV);
      DrawnAll(dst[..], old(dst[..]), DecodeFrame(f, width, height))
  {
    if srcY == null || srcU == null || srcV == null || dst == null { return false; }
    ghost var f := Planes(srcY[..], offsetY, strideY, srcU[..], offsetU, strideU, srcV[..], offsetV, strideV);
    ghost var pixels := DecodeFrame(f, width, height);
    DecodeFrameIsFrame(f, width, height);
    OffsetIsProduct(height, width);
    DrawFrame(
      srcY, offsetY, strideY, srcU, offsetU, strideU, srcV, offsetV, strideV,
      dst, strideFrame, width, height, f, pixels);
    ok := true;
  }

  // The outer loop over pairs of rows.
  method DrawFrame(
    ys: array<byte>, offsetY: nat, strideY: nat, us: array<byte>, offsetU: nat, strideU: nat,
    vs: array<byte>, offsetV: nat, strideV: nat,
    dst: array<byte>, strideFrame: nat, width: nat, height: nat, ghost f: Planes, ghost pixels: seq<Pixel>)
    requires width % 2 == 0 && height % 2 == 0 && strideFrame == 4 * width
    requires dst != ys && dst != us && dst != vs && 4 * |pixels| <= dst.Length
    requires f == Planes(ys[..], offsetY, strideY, us[..], offsetU, strideU, vs[..], offsetV, strideV)
    requires FitsPlanes(f, width, height) && IsFrame(pixels, f, width, height)
    modifies dst
    ensures Drawn(dst[..], old(dst[..]), pixels, |pixels|, |pixels|, |pixels|)
  {
    var out, out2, y1, y2, u, v := 0, strideFrame, offsetY, offsetY + strideY, offsetU, offsetV;
    var h := height / 2;
    ghost var row := 0;
    while h > 0
      invariant 0 <= h && h + row == height / 2 && Offset(2 * row, width) <= |pixels|
      invariant out == 4 * Offset(2 * row, width) && out2 == out + 4 * width
      invariant y1 == RowY(f, 2 * row) && y2 == RowY(f, 2 * row + 1)
      invariant u == RowU(f, row) && v == RowV(f, row)
      invariant var k := Offset(2 * row, width); Drawn(dst[..], old(dst[..]), pixels, k, k, k)
    {
      RowsFit(f, width, height, row);
      RowsInFrame(width, height, row);
      out, out2, y1, y2, u, v :=
        DrawRows(dst, out, out2, ys, y1, y2, us, u, vs, v, width, f, height, pixels, row, old(dst[..]));
      y1 := y1 + (2 * strideY - width);
      y2 := y2 + (2 * strideY - width);
      u := u + (strideU - width / 2);
      v := v + (strideV - width / 2);
      out := out + strideFrame;
      out2 := out2 + strideFrame;
      h := h - 1;
      row := row + 1;
    }
    assert 2 * row == height;
  }

  // ---- There and back ----

  function Gray(g: byte): Pixel { Pixel(g, g, g) }

  ghost predicate IsGray(rgb: seq<byte>, ps: nat, levels: seq<byte>) {
    forall k {:trigger PixelAt(rgb, ps, k)} :: 0 <= k < |levels| ==> PixelAt(rgb, ps, k) == Gray(levels[k])
  }

  // What becomes of a gray level.
  function GrayOut(g: byte): byte { Clip((298 * (g as int - 16) + 128) / 256) }

  // On gray pixels, the first function gives the level and the others no colour.
  ghost predicate GrayTriple(fy: Pixel -> byte, fu: Pixel -> byte, fv: Pixel -> byte) {
    forall g: byte {:trigger Gray(g)} :: fy(Gray(g)) == g && fu(Gray(g)) == 128 && fv(Gray(g)) == 128
  }

  lemma GrayValues(g: byte)
    ensures Luma(Gray(g)) == g && ChromaU(Gray(g)) == ChromaV(Gray(g)) == 128
  {
    assert LumaSum(Gray(g)) == 100 * g as int;
  }

  lemma GrayDecodes(g: byte)
    ensures Decode(g, 128, 128) == Gray(GrayOut(g))
  {
  }

  lemma AllGrayValues()
    ensures GrayTriple(Luma, ChromaU, ChromaV)
  {
    forall g: byte {:trigger Gray(g)}
      ensures Luma(Gray(g)) == g && ChromaU(Gray(g)) == 128 && ChromaV(Gray(g)) == 128
    {
      GrayValues(g);
    }
  }

  // The planes of a planar frame of n pixels and q cells, tightly packed.
  function PlanesOf(f: seq<byte>, w: nat, n: nat, q: nat): Planes {
    Planes(f, 0, w, f, n, w / 2, f, n + q, w / 2)
  }

  // The planar form of a gray frame: the levels, and chroma 128.
  lemma GrayPlanar(
    rgb: seq<byte>, w: nat, h: nat, ps: nat, levels: seq<byte>, f: seq<byte>, n: nat, q: nat, k: nat, c: nat, corner: nat,
    fy: Pixel -> byte, fu: Pixel -> byte, fv: Pixel -> byte)
    requires 2 <= w && f == PlanarWith(rgb, w, h, ps, fy, fu, fv) && n == Offset(h, w) && q == Offset(h / 2, w / 2)
    requires k < n && c < q && BlockPixel(w, c) == corner < n
    requires |levels| == n && IsGray(rgb, ps, levels) && GrayTriple(fy, fu, fv)
    ensures |f| == n + 2 * q && f[k] == levels[k] && f[n + c] == 128 && f[n + q + c] == 128
  {
    PlanarIndex(rgb, w, h, ps, f, n, q, k, c, corner, fy, fu, fv);
  }

  // Planes with this luma and no colour at a pixel decode to that gray there.
  lemma GrayBack(f: Planes, w: nat, h: nat, x: nat, y: nat, k: nat, c: nat, g: byte)
    requires x < w && y < h && f.oy == 0 && f.sy == w && f.su == f.sv == w / 2
    requires k == Offset(y, w) + x < |f.ys| && c == Offset(y / 2, w / 2) + x / 2
    requires f.ou + c < |f.us| && f.ov + c < |f.vs|
    requires f.ys[k] == g && f.us[f.ou + c] == 128 && f.vs[f.ov + c] == 128
    ensures k < |DecodeFrame(f, w, h)| && DecodeFrame(f, w, h)[k] == Gray(GrayOut(g))
  {
    PixelOfFrame(f, w, h, x, y);
    GrayDecodes(g);
  }

  lemma GrayPixelBack(
    rgb: seq<byte>, w: nat, h: nat, ps: nat, levels: seq<byte>, f: seq<byte>, n: nat, q: nat,
    x: nat, y: nat, k: nat, c: nat, corner: nat)
    requires 2 <= w && x < w && y < h && n == Offset(h, w) && q == Offset(h / 2, w / 2)
    requires k == Offset(y, w) + x < n && c == Offset(y / 2, w / 2) + x / 2 < q && BlockPixel(w, c) == corner < n
    requires |levels| == n && IsGray(rgb, ps, levels) && f == Planar(rgb, w, h, ps)
    ensures |f| == n + 2 * q
    ensures DecodeFrame(PlanesOf(f, w, n, q), w, h)[k] == Gray(GrayOut(levels[k]))
  {
    AllGrayValues();
    GrayPlanar(rgb, w, h, ps, levels, f, n, q, k, c, corner, Luma, ChromaU, ChromaV);
    GrayBack(PlanesOf(f, w, n, q), w, h, x, y, k, c, levels[k]);
  }

  // The cell and the corner of a pixel, by rows.
  lemma PlaceOf(w: nat, h: nat, x: nat, y: nat, k: nat, n: nat, q: nat) returns (c: nat, corner: nat)
    requires w % 2 == 0 && h % 2 == 0 && x < w && y < h && k == y * w + x && n == w * h && q == w * h / 4
    ensures n == Offset(h, w) && q == Offset(h / 2, w / 2) && k == Offset(y, w) + x < n
    ensures c == Offset(y / 2, w / 2) + x / 2 < q && BlockPixel(w, c) == corner < n
    ensures corner == (2 * (y / 2) + 1) * w + 2 * (x / 2) + 1
  {
    c, corner := (y / 2) * (w / 2) + x / 2, (2 * (y / 2) + 1) * w + 2 * (x / 2) + 1;
    FrameSizes(w, h);
    PlacedInFrame(w, h, x, y, k, c, corner);
    PlacedByRows(w, x, y, k, c, corner);
  }

  // Every pixel of an even gray frame comes back gray.
  lemma GrayRoundTrip(
    rgb: seq<byte>, w: nat, h: nat, ps: nat, levels: seq<byte>, f: seq<byte>, n: nat, q: nat, x: nat, y: nat, k: nat)
    requires w % 2 == 0 && h % 2 == 0 && x < w && y < h && k == y * w + x
    requires n == w * h && q == w * h / 4 && |levels| == n && IsGray(rgb, ps, levels)
    requires f == Planar(rgb, w, h, ps)
    ensures |f| == n + 2 * q && k < n == |DecodeFrame(PlanesOf(f, w, n, q), w, h)|
    ensures DecodeFrame(PlanesOf(f, w, n, q), w, h)[k] == Gray(GrayOut(levels[k]))
  {
    var c, corner := PlaceOf(w, h, x, y, k, n, q);
    GrayPixelBack(rgb, w, h, ps, levels, f, n, q, x, y, k, c, corner);
  }

  // Brightness order is kept; two different levels come out the same exactly when both are
  // at most 16 or both are at least 235.
  lemma GrayOrder(g: byte, g': byte)
    requires g < g'
    ensures GrayOut(g) <= GrayOut(g')
    ensures GrayOut(g) == GrayOut(g') <==> g' <= 16 || 235 <= g
  {
  }

  // So between any two pixels of a gray frame: the darker one stays at least as dark, and
  // they only become equal outside the video range.
  lemma FrameOrderKept(
    rgb: seq<byte>, w: nat, h: nat, ps: nat, levels: seq<byte>, f: seq<byte>, n: nat, q: nat,
    x: nat, y: nat, k: nat, x': nat, y': nat, k': nat)
    requires w % 2 == 0 && h % 2 == 0 && x < w && y < h && x' < w && y' < h && k == y * w + x && k' == y' * w + x'
    requires n == w * h && q == w * h / 4 && |levels| == n && IsGray(rgb, ps, levels)
    requires f == Planar(rgb, w, h, ps)
    ensures |f| == n + 2 * q && k < n && k' < n
    ensures var pixels := DecodeFrame(PlanesOf(f, w, n, q), w, h);
      |pixels| == n &&
      (levels[k] < levels[k'] ==>
        && pixels[k].g <= pixels[k'].g
        && (pixels[k] == pixels[k'] <==> levels[k'] <= 16 || 235 <= levels[k]))
  {
    GrayRoundTrip(rgb, w, h, ps, levels, f, n, q, x, y, k);
    GrayRoundTrip(rgb, w, h, ps, levels, f, n, q, x', y', k');
    if levels[k] < levels[k'] { GrayOrder(levels[k], levels[k']); }
  }

  // The column and the row of pixel k.
  lemma RowAndColumn(k: nat, w: nat, h: nat) returns (x: nat, y: nat)
    requires 0 < w && k < w * h
    ensures x < w && y < h && k == y * w + x
  {
    x, y := k % w, k / w;
    if h <= y { MulLe(h, y, w); }
  }

  lemma AllGrayBack(rgb: seq<byte>, w: nat, h: nat, ps: nat, levels: seq<byte>, f: seq<byte>, n: nat, q: nat, k: nat)
    requires 2 <= w && w % 2 == 0 && h % 2 == 0 && n == w * h && q == w * h / 4 && k < n
    requires |levels| == n && IsGray(rgb, ps, levels) && f == Planar(rgb, w, h, ps)
    ensures k < |DecodeFrame(PlanesOf(f, w, n, q), w, h)|
    ensures DecodeFrame(PlanesOf(f, w, n, q), w, h)[k] == Gray(GrayOut(levels[k]))
  {
    var x, y := RowAndColumn(k, w, h);
    GrayRoundTrip(rgb, w, h, ps, levels, f, n, q, x, y, k);
  }

  predicate GrayAt(dst: seq<byte>, k: nat, g: byte) {
    4 * k + 4 <= |dst| && dst[4 * k..4 * k + 3] == [g, g, g]
  }

  lemma GrayDrawn(dst: seq<byte>, before: seq<byte>, pixels: seq<Pixel>, k: nat, g: byte)
    requires k < |pixels| && DrawnAll(dst, before, pixels) && pixels[k] == Gray(g)
    ensures GrayAt(dst, k, g)
  {
    DrawnPixel(dst, before, pixels, k);
    assert dst[4 * k..4 * k + 3] == dst[4 * k..4 * k + 4][..3];
  }

  lemma PackedPlanesFit(f: seq<byte>, w: nat, h: nat, n: nat, q: nat)
    requires 2 <= w && w % 2 == 0 && h % 2 == 0 && n == Offset(h, w) && q == Offset(h / 2, w / 2) && |f| == n + 2 * q
    ensures FitsPlanes(PlanesOf(f, w, n, q), w, h)
  {
    if 2 <= h {
      OffsetInFrame(h - 1, h, w);
      OffsetInFrame(h / 2 - 1, h / 2, w / 2);
    }
  }

  lemma AllGrayDrawn(
    rgb: seq<byte>, w: nat, h: nat, ps: nat, levels: seq<byte>, f: seq<byte>, n: nat, q: nat,
    dst: seq<byte>, before: seq<byte>)
    requires 2 <= w && w % 2 == 0 && h % 2 == 0 && n == w * h && q == w * h / 4
    requires |levels| == n && IsGray(rgb, ps, levels) && f == Planar(rgb, w, h, ps)
    requires DrawnAll(dst, before, DecodeFrame(PlanesOf(f, w, n, q), w, h))
    ensures forall k :: 0 <= k < n ==> GrayAt(dst, k, GrayOut(levels[k]))
  {
    forall k | 0 <= k < n ensures GrayAt(dst, k, GrayOut(levels[k])) {
      AllGrayBack(rgb, w, h, ps, levels, f, n, q, k);
      GrayDrawn(dst, before, DecodeFrame(PlanesOf(f, w, n, q), w, h), k, GrayOut(levels[k]));
    }
  }

  // The planar buffer of the first conversion, allocated at its exact size.
  method Encoded(rgb: array<byte>, w: nat, h: nat, pixelSize: nat) returns (yuv: array<byte>)
    requires 2 <= w && w % 2 == 0 && h % 2 == 0 && 3 <= pixelSize && w * h * pixelSize <= rgb.Length
    ensures fresh(yuv) && yuv.Length == w * h + 2 * (w * h / 4) && yuv[..] == Planar(rgb[..], w, h, pixelSize)
  {
    FrameSizes(w, h);
    yuv := new byte[w * h + w * h / 2];
    RGBtoYUV420(rgb, yuv, w, h, pixelSize);
    assert |Planar(rgb[..], w, h, pixelSize)| == yuv.Length;
  }

  // The second conversion on such a buffer: all three planes point into it.
  method DrawPacked(yuv: array<byte>, w: nat, h: nat, n: nat, q: nat, dst: array<byte>)
    requires 2 <= w && w % 2 == 0 && h % 2 == 0 && dst != yuv && dst.Length == 4 * (w * h)
    requires n == Offset(h, w) && q == Offset(h / 2, w / 2) && yuv.Length == n + 2 * q
    modifies dst
    ensures DrawnAll(dst[..], old(dst[..]), DecodeFrame(PlanesOf(yuv[..], w, n, q), w, h))
  {
    assert FitsPlanes(PlanesOf(yuv[..], w, n, q), w, h) by { PackedPlanesFit(yuv[..], w, h, n, q); }
    var _ := I420ToARGB(yuv, 0, w, yuv, n, w / 2, yuv, n + q, w / 2, dst, 4 * w, w, h);
  }

  // A gray frame through both conversions, on the bytes: all three colours of every pixel are
  // the level that comes back.
  method GrayThereAndBack(rgb: array<byte>, w: nat, h: nat, pixelSize: nat, ghost levels: seq<byte>)
    returns (dst: array<byte>)
    requires 2 <= w && w % 2 == 0 && h % 2 == 0 && 3 <= pixelSize && w * h * pixelSize <= rgb.Length
    requires |levels| == w * h && IsGray(rgb[..], pixelSize, levels)
    ensures forall k :: 0 <= k < |levels| ==> GrayAt(dst[..], k, GrayOut(levels[k]))
  {
    var n, q := w * h, w * h / 4;
    var yuv := Encoded(rgb, w, h, pixelSize);
    assert n == Offset(h, w) && q == Offset(h / 2, w / 2) by { FrameSizes(w, h); }
    dst := new byte[4 * n];
    ghost var before := dst[..];
    DrawPacked(yuv, w, h, n, q, dst);
    AllGrayDrawn(rgb[..], w, h, pixelSize, levels, yuv[..], n, q, dst[..], before);
  }
}
