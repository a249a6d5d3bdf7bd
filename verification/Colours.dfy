/**
 What the two colour conversions do to colours: how each channel goes in and out, and the
 way there and back.
 */
module Colours {
  import opened Arith
  import opened Bytes
  import opened YuvTools

  // ---- In ----

  // A step of 100 in one channel is an exact step in luma and chroma.
  predicate RedRaised(p: Pixel, q: Pixel) { q.r as int == p.r as int + 100 && q.g == p.g && q.b == p.b }

  lemma RedStep(p: Pixel, q: Pixel)
    requires RedRaised(p, q)
    ensures Luma(q) as int == Luma(p) as int + 30
    ensures ChromaU(q) as int == ChromaU(p) as int - 17
    ensures ChromaV(q) as int == ChromaV(p) as int + 50
  {
    NoCastWraps(p);
    NoCastWraps(q);
  }

  predicate GreenRaised(p: Pixel, q: Pixel) { q.g as int == p.g as int + 100 && q.r == p.r && q.b == p.b }

  lemma GreenStep(p: Pixel, q: Pixel)
    requires GreenRaised(p, q)
    ensures Luma(q) as int == Luma(p) as int + 59
    ensures ChromaU(q) as int == ChromaU(p) as int - 33
    ensures ChromaV(q) as int == ChromaV(p) as int - 42
  {
    NoCastWraps(p);
    NoCastWraps(q);
  }

  predicate BlueRaised(p: Pixel, q: Pixel) { q.b as int == p.b as int + 100 && q.r == p.r && q.g == p.g }

  lemma BlueStep(p: Pixel, q: Pixel)
    requires BlueRaised(p, q)
    ensures Luma(q) as int == Luma(p) as int + 11
    ensures ChromaU(q) as int == ChromaU(p) as int + 50
    ensures ChromaV(q) as int == ChromaV(p) as int - 8
  {
    NoCastWraps(p);
    NoCastWraps(q);
  }

  // Two frames of one size in planar form, and a place in them.
  ghost predicate SameFrame(
    rgb: seq<byte>, rgb': seq<byte>, w: nat, h: nat, ps: nat, f: seq<byte>, f': seq<byte>, n: nat, q: nat,
    x: nat, y: nat, k: nat, c: nat, corner: nat)
  {
    && 2 <= w && w % 2 == 0 && h % 2 == 0 && x < w && y < h && Placed(w, x, y, k, c, corner)
    && f == Planar(rgb, w, h, ps) && f' == Planar(rgb', w, h, ps) && n == w * h && q == w * h / 4
  }

  lemma PlanarPair(
    rgb: seq<byte>, rgb': seq<byte>, w: nat, h: nat, ps: nat, f: seq<byte>, f': seq<byte>, n: nat, q: nat,
    x: nat, y: nat, k: nat, c: nat, corner: nat) returns (p: Pixel, p': Pixel, d: Pixel, d': Pixel)
    requires SameFrame(rgb, rgb', w, h, ps, f, f', n, q, x, y, k, c, corner)
    ensures p == PixelAt(rgb, ps, k) && p' == PixelAt(rgb', ps, k)
    ensures d == PixelAt(rgb, ps, corner) && d' == PixelAt(rgb', ps, corner)
    ensures |f| == |f'| == n + 2 * q && k < n && c < q && f[k] == Luma(p) && f'[k] == Luma(p')
    ensures f[n + c] == ChromaU(d) && f[n + q + c] == ChromaV(d) && f'[n + c] == ChromaU(d') && f'[n + q + c] == ChromaV(d')
  {
    p, p', d, d' := PixelAt(rgb, ps, k), PixelAt(rgb', ps, k), PixelAt(rgb, ps, corner), PixelAt(rgb', ps, corner);
    PlanarAt(rgb, w, h, ps, f, n, q, x, y, k, c, corner);
    PlanarAt(rgb', w, h, ps, f', n, q, x, y, k, c, corner);
  }

  // By place in the planar frame: where two frames differ by such a step in one pixel, so does
  // its luma; where they do in the corner pixel of a block, so do the block's chromas.
  lemma PlanarRedStep(
    rgb: seq<byte>, rgb': seq<byte>, w: nat, h: nat, ps: nat, f: seq<byte>, f': seq<byte>, n: nat, q: nat,
    x: nat, y: nat, k: nat, c: nat, corner: nat)
    requires SameFrame(rgb, rgb', w, h, ps, f, f', n, q, x, y, k, c, corner)
    ensures |f| == |f'| == n + 2 * q && k < n && c < q
    ensures RedRaised(PixelAt(rgb, ps, k), PixelAt(rgb', ps, k)) ==> f'[k] as int == f[k] as int + 30
    ensures RedRaised(PixelAt(rgb, ps, corner), PixelAt(rgb', ps, corner)) ==>
      f'[n + c] as int == f[n + c] as int - 17 && f'[n + q + c] as int == f[n + q + c] as int + 50
  {
    var p, p', d, d' := PlanarPair(rgb, rgb', w, h, ps, f, f', n, q, x, y, k, c, corner);
    if RedRaised(p, p') { RedStep(p, p'); }
    if RedRaised(d, d') { RedStep(d, d'); }
  }

  lemma PlanarGreenStep(
    rgb: seq<byte>, rgb': seq<byte>, w: nat, h: nat, ps: nat, f: seq<byte>, f': seq<byte>, n: nat, q: nat,
    x: nat, y: nat, k: nat, c: nat, corner: nat)
    requires SameFrame(rgb, rgb', w, h, ps, f, f', n, q, x, y, k, c, corner)
    ensures |f| == |f'| == n + 2 * q && k < n && c < q
    ensures GreenRaised(PixelAt(rgb, ps, k), PixelAt(rgb', ps, k)) ==> f'[k] as int == f[k] as int + 59
    ensures GreenRaised(PixelAt(rgb, ps, corner), PixelAt(rgb', ps, corner)) ==>
      f'[n + c] as int == f[n + c] as int - 33 && f'[n + q + c] as int == f[n + q + c] as int - 42
  {
    var p, p', d, d' := PlanarPair(rgb, rgb', w, h, ps, f, f', n, q, x, y, k, c, corner);
    if GreenRaised(p, p') { GreenStep(p, p'); }
    if GreenRaised(d, d') { GreenStep(d, d'); }
  }

  lemma PlanarBlueStep(
    rgb: seq<byte>, rgb': seq<byte>, w: nat, h: nat, ps: nat, f: seq<byte>, f': seq<byte>, n: nat, q: nat,
    x: nat, y: nat, k: nat, c: nat, corner: nat)
    requires SameFrame(rgb, rgb', w, h, ps, f, f', n, q, x, y, k, c, corner)
    ensures |f| == |f'| == n + 2 * q && k < n && c < q
    ensures BlueRaised(PixelAt(rgb, ps, k), PixelAt(rgb', ps, k)) ==> f'[k] as int == f[k] as int + 11
    ensures BlueRaised(PixelAt(rgb, ps, corner), PixelAt(rgb', ps, corner)) ==>
      f'[n + c] as int == f[n + c] as int + 50 && f'[n + q + c] as int == f[n + q + c] as int - 8
  {
    var p, p', d, d' := PlanarPair(rgb, rgb', w, h, ps, f, f', n, q, x, y, k, c, corner);
    if BlueRaised(p, p') { BlueStep(p, p'); }
    if BlueRaised(d, d') { BlueStep(d, d'); }
  }

  // ---- Out ----

  // Added to a channel; the top end clips.
  function Plus(c: byte, n: nat): byte { if c as int + n < 255 then c + n else 255 }

  // Without their chroma, red and blue are the gray level of the luma, and green is without
  // either.
  lemma DecodeWithoutChroma(y: byte, u: byte, v: byte)
    ensures Decode(y, u, 128).r == GrayOut(y) && Decode(y, 128, v).b == GrayOut(y) && Decode(y, 128, 128).g == GrayOut(y)
  {
  }

  // Red comes from luma and V only, and grows with both; blue likewise with U; green falls
  // with both chroma bytes.
  lemma DecodeMonotone(y: byte, u: byte, v: byte, y': byte, u': byte, v': byte)
    ensures Decode(y, u, v).r == Decode(y, u', v).r && Decode(y, u, v).b == Decode(y, u, v').b
    ensures y <= y' && v <= v' ==> Decode(y, u, v).r <= Decode(y', u, v').r
    ensures y <= y' && u <= u' ==> Decode(y, u, v).b <= Decode(y', u', v).b
    ensures y <= y' && u' <= u && v' <= v ==> Decode(y, u, v).g <= Decode(y', u', v').g
  {
  }

  // Exact steps above the lower clip: V against luma in red, U in blue, and both in green.
  lemma RedSteps(y: byte, u: byte, v: byte)
    requires y <= 244 && v <= 253
    ensures 0 < Decode(y, u, v).r ==> Decode(y + 11, u, v + 2).r == Plus(Decode(y, u, v).r, 16)
  {
  }

  lemma BlueSteps(y: byte, u: byte, v: byte)
    requires y <= 249 && u <= 254
    ensures 0 < Decode(y, u, v).b ==> Decode(y + 6, u + 1, v).b == Plus(Decode(y, u, v).b, 9)
  {
  }

  lemma GreenSteps(y: byte, u: byte, v: byte)
    ensures 0 < Decode(y, u, v).g && y <= 233 && 1 <= u ==> Decode(y + 22, u - 1, v).g == Plus(Decode(y, u, v).g, 26)
    ensures 0 < Decode(y, u, v).g && y <= 239 && v <= 253 ==> Decode(y + 16, u, v + 2).g == Plus(Decode(y, u, v).g, 17)
  {
  }

  // ---- There and back ----

  // What becomes of a colour that fills its block.
  function Back(p: Pixel): Pixel { Decode(Luma(p), ChromaU(p), ChromaV(p)) }

  lemma RedAgainstBlue(y: byte, u: byte, v: byte)
    ensures 409 * (v as int - 128) >= 516 * (u as int - 128) ==> Decode(y, u, v).r >= Decode(y, u, v).b
    ensures 409 * (v as int - 128) <= 516 * (u as int - 128) ==> Decode(y, u, v).r <= Decode(y, u, v).b
  {
  }

  // What the floors leave of the difference between red and blue.
  lemma ChromaDifference(r: int, g: int, b: int, u: int, v: int)
    requires 0 <= g <= 255 && 0 <= r <= 255 && 0 <= b <= 255
    requires 100 * u <= -17 * r - 33 * g + 50 * b + 12800 < 100 * u + 100
    requires 100 * v <= 50 * r - 42 * g - 8 * b + 12800 < 100 * v + 100
    ensures r >= b + 3 ==> 409 * (v - 128) >= 516 * (u - 128)
    ensures b >= r + 3 ==> 409 * (v - 128) <= 516 * (u - 128)
  {
  }

  // Red is not taken for blue, nor blue for red.
  lemma RedStaysRed(p: Pixel)
    ensures p.r >= p.b + 3 ==> Back(p).r >= Back(p).b
    ensures p.b >= p.r + 3 ==> Back(p).b >= Back(p).r
  {
    var u, v := ChromaU(p), ChromaV(p);
    assert p.r >= p.b + 3 ==> 409 * (v as int - 128) >= 516 * (u as int - 128) by {
      NoCastWraps(p);
      ChromaDifference(p.r, p.g, p.b, u, v);
    }
    assert p.b >= p.r + 3 ==> 409 * (v as int - 128) <= 516 * (u as int - 128) by {
      NoCastWraps(p);
      ChromaDifference(p.r, p.g, p.b, u, v);
    }
    RedAgainstBlue(Luma(p), u, v);
  }

  // The pixel whose chroma pixel k gets: the lower right one of its 2x2 block.
  function CornerOf(w: nat, k: nat): nat
    requires 0 < w
  {
    (2 * (k / w / 2) + 1) * w + 2 * (k % w / 2) + 1
  }

  // Pixel k of a frame after both conversions: its own luma, the chroma of its block's corner.
  function BackAt(rgb: seq<byte>, ps: nat, k: nat, corner: nat): Pixel {
    var p, q := PixelAt(rgb, ps, k), PixelAt(rgb, ps, corner);
    Decode(Luma(p), ChromaU(q), ChromaV(q))
  }

  lemma DecodedFrom(f: Planes, x: nat, y: nat, i: nat, iu: nat, iv: nat)
    requires i == RowY(f, y) + x < |f.ys|
    requires iu == RowU(f, y / 2) + x / 2 < |f.us| && iv == RowV(f, y / 2) + x / 2 < |f.vs|
    ensures DecodedAt(f, x, y) == Decode(f.ys[i], f.us[iu], f.vs[iv])
  {
    assert At(f.ys, i) == f.ys[i] && At(f.us, iu) == f.us[iu] && At(f.vs, iv) == f.vs[iv];
  }

  // The bytes a pixel of a packed planar frame is decoded from.
  lemma PackedBytes(f: seq<byte>, w: nat, n: nat, q: nat, x: nat, y: nat, k: nat, c: nat)
    requires k == Offset(y, w) + x < n && c == Offset(y / 2, w / 2) + x / 2 < q && |f| == n + 2 * q
    ensures DecodedAt(PlanesOf(f, w, n, q), x, y) == Decode(f[k], f[n + c], f[n + q + c])
  {
    DecodedFrom(PlanesOf(f, w, n, q), x, y, k, n + c, n + q + c);
  }

  lemma PackedPixel(
    f: seq<byte>, w: nat, h: nat, n: nat, q: nat, x: nat, y: nat, k: nat, c: nat, p: Pixel)
    requires x < w && y < h && k == Offset(y, w) + x && DecodedAt(PlanesOf(f, w, n, q), x, y) == p
    ensures k < |DecodeFrame(PlanesOf(f, w, n, q), w, h)| && DecodeFrame(PlanesOf(f, w, n, q), w, h)[k] == p
  {
    PixelOfFrame(PlanesOf(f, w, n, q), w, h, x, y);
  }

  lemma DecodedBack(
    rgb: seq<byte>, w: nat, h: nat, ps: nat, f: seq<byte>, n: nat, q: nat,
    x: nat, y: nat, k: nat, c: nat, corner: nat, fy: Pixel -> byte, fu: Pixel -> byte, fv: Pixel -> byte)
    requires 2 <= w && x < w && y < h && n == Offset(h, w) && q == Offset(h / 2, w / 2)
    requires f == PlanarWith(rgb, w, h, ps, fy, fu, fv)
    requires k == Offset(y, w) + x < n && c == Offset(y / 2, w / 2) + x / 2 < q && BlockPixel(w, c) == corner < n
    ensures k < |DecodeFrame(PlanesOf(f, w, n, q), w, h)|
    ensures var p, p' := PixelAt(rgb, ps, k), PixelAt(rgb, ps, corner);
      DecodeFrame(PlanesOf(f, w, n, q), w, h)[k] == Decode(fy(p), fu(p'), fv(p'))
  {
    PlanarIndex(rgb, w, h, ps, f, n, q, k, c, corner, fy, fu, fv);
    var p, p' := PixelAt(rgb, ps, k), PixelAt(rgb, ps, corner);
    assert DecodedAt(PlanesOf(f, w, n, q), x, y) == Decode(fy(p), fu(p'), fv(p')) by {
      PackedBytes(f, w, n, q, x, y, k, c);
    }
    PackedPixel(f, w, h, n, q, x, y, k, c, Decode(fy(p), fu(p'), fv(p')));
  }

  lemma CornerAt(w: nat, k: nat, x: nat, y: nat)
    requires x < w && k == y * w + x
    ensures CornerOf(w, k) == (2 * (y / 2) + 1) * w + 2 * (x / 2) + 1
  {
    QuotientUnique(k, w, y);
  }

  lemma FrameBack(rgb: seq<byte>, w: nat, h: nat, ps: nat, f: seq<byte>, n: nat, q: nat, k: nat, corner: nat)
    requires 2 <= w && w % 2 == 0 && h % 2 == 0 && n == w * h && q == w * h / 4 && k < n
    requires f == Planar(rgb, w, h, ps) && corner == CornerOf(w, k)
    ensures k < |DecodeFrame(PlanesOf(f, w, n, q), w, h)|
    ensures DecodeFrame(PlanesOf(f, w, n, q), w, h)[k] == BackAt(rgb, ps, k, corner)
  {
    var x, y, c := PlaceByCorner(w, h, k, n, q, corner);
    DecodedBack(rgb, w, h, ps, f, n, q, x, y, k, c, corner, Luma, ChromaU, ChromaV);
  }

  lemma PlaceByCorner(w: nat, h: nat, k: nat, n: nat, q: nat, corner: nat) returns (x: nat, y: nat, c: nat)
    requires 2 <= w && w % 2 == 0 && h % 2 == 0 && n == w * h && q == w * h / 4 && k < n && corner == CornerOf(w, k)
    ensures x < w && y < h && n == Offset(h, w) && q == Offset(h / 2, w / 2) && k == Offset(y, w) + x
    ensures c == Offset(y / 2, w / 2) + x / 2 < q && BlockPixel(w, c) == corner < n
  {
    x, y := RowAndColumn(k, w, h);
    var corner';
    c, corner' := PlaceOf(w, h, x, y, k, n, q);
    CornerAt(w, k, x, y);
  }

  // The bytes of pixel k.
  predicate ColourAt(dst: seq<byte>, k: nat, p: Pixel) {
    4 * k + 4 <= |dst| && dst[4 * k..4 * k + 3] == [p.b, p.g, p.r]
  }

  lemma ColourDrawn(dst: seq<byte>, before: seq<byte>, pixels: seq<Pixel>, k: nat)
    requires k < |pixels| && DrawnAll(dst, before, pixels)
    ensures ColourAt(dst, k, pixels[k])
  {
    DrawnPixel(dst, before, pixels, k);
    assert dst[4 * k..4 * k + 3] == dst[4 * k..4 * k + 4][..3];
  }

  ghost predicate CameBack(dst: seq<byte>, rgb: seq<byte>, ps: nat, w: nat, n: nat)
    requires 0 < w
  {
    forall k :: 0 <= k < n ==> ColourAt(dst, k, BackAt(rgb, ps, k, CornerOf(w, k)))
  }

  lemma AllCameBack(
    rgb: seq<byte>, w: nat, h: nat, ps: nat, f: seq<byte>, n: nat, q: nat, dst: seq<byte>, before: seq<byte>)
    requires 2 <= w && w % 2 == 0 && h % 2 == 0 && n == w * h && q == w * h / 4 && f == Planar(rgb, w, h, ps)
    requires DrawnAll(dst, before, DecodeFrame(PlanesOf(f, w, n, q), w, h))
    ensures CameBack(dst, rgb, ps, w, n)
  {
    forall k | 0 <= k < n ensures ColourAt(dst, k, BackAt(rgb, ps, k, CornerOf(w, k))) {
      FrameBack(rgb, w, h, ps, f, n, q, k, CornerOf(w, k));
      ColourDrawn(dst, before, DecodeFrame(PlanesOf(f, w, n, q), w, h), k);
    }
  }

  // Any frame through both conversions, on the bytes.
  method ThereAndBack(rgb: array<byte>, w: nat, h: nat, pixelSize: nat) returns (dst: array<byte>)
    requires 2 <= w && w % 2 == 0 && h % 2 == 0 && 3 <= pixelSize && w * h * pixelSize <= rgb.Length
    ensures CameBack(dst[..], rgb[..], pixelSize, w, w * h)
  {
    var n, q := w * h, w * h / 4;
    var yuv := Encoded(rgb, w, h, pixelSize);
    assert n == Offset(h, w) && q == Offset(h / 2, w / 2) by { FrameSizes(w, h); }
    dst := new byte[4 * n];
    ghost var before := dst[..];
    DrawPacked(yuv, w, h, n, q, dst);
    AllCameBack(rgb[..], w, h, pixelSize, yuv[..], n, q, dst[..], before);
  }

  // On the bytes of a pixel whose block has one colour: blue, green and red are those of the
  // colour's way there and back, and red and blue are not mistaken for each other.
  lemma BlockCameBack(dst: seq<byte>, rgb: seq<byte>, ps: nat, w: nat, n: nat, k: nat)
    requires 0 < w && k < n
    ensures CameBack(dst, rgb, ps, w, n) && PixelAt(rgb, ps, CornerOf(w, k)) == PixelAt(rgb, ps, k) ==>
      var p := PixelAt(rgb, ps, k);
      && ColourAt(dst, k, Back(p))
      && (p.r >= p.b + 3 ==> dst[4 * k] <= dst[4 * k + 2])
      && (p.b >= p.r + 3 ==> dst[4 * k + 2] <= dst[4 * k])
  {
    if CameBack(dst, rgb, ps, w, n) && PixelAt(rgb, ps, CornerOf(w, k)) == PixelAt(rgb, ps, k) {
      var p := PixelAt(rgb, ps, k);
      assert ColourAt(dst, k, BackAt(rgb, ps, k, CornerOf(w, k)));
      RedStaysRed(p);
      var bytes := dst[4 * k..4 * k + 3];
      assert dst[4 * k] == bytes[0] && dst[4 * k + 2] == bytes[2];
    }
  }
}
