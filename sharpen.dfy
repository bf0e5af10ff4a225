/**
 * `applySharpenFilter` of src/services/ocr.js:10-57: a 3x3 convolution over
 * the RGBA pixel buffer of a canvas. The buffer is read with `getImageData`
 * and written back with `putImageData`; here the buffer is an array handed in
 * and the filtered buffer a new array handed back.
 */
module Sharpen {

  /** One channel byte of a `Uint8ClampedArray`. */
  newtype byte = x: int | 0 <= x < 256

  /**
   * The kernel, row by row: centre 5, the four direct neighbours -1, the
   * corners 0. It is 3 taps wide (`side`), centred on the pixel (`halfSide` 1),
   * and its divisor (`weight`) is 1.
   */
  const Kernel: seq<int> := [0, -1, 0, -1, 5, -1, 0, -1, 0]

  /** Assignment into a `Uint8ClampedArray`: the byte nearest to `v`. */
  function Clamp(v: int): (b: byte)
    ensures 0 <= v <= 255 ==> b as int == v
    ensures v < 0 ==> b == 0
    ensures v > 255 ==> b == 255
  {
    if v < 0 then 0 else if v > 255 then 255 else v as byte
  }

  /** The offset of pixel (x, y) in a buffer `w` pixels wide, four bytes per pixel. */
  function Offset(w: nat, x: nat, y: nat): nat {
    (y * w + x) * 4
  }

  lemma OffsetInBounds(w: nat, h: nat, x: nat, y: nat, ch: nat)
    requires x < w && y < h && ch < 4
    ensures Offset(w, x, y) + ch < w * h * 4
  {
    assert y * w + x < (y + 1) * w;
    assert (y + 1) * w <= h * w by {
      MulMonotone(y + 1, h, w);
    }
  }

  lemma MulMonotone(a: nat, b: nat, c: nat)
    requires a <= b
    ensures a * c <= b * c
  {
  }

  /**
   * What the tap in kernel row `cy`, column `cx` adds for pixel (x, y),
   * channel `ch`: its weight times the neighbour at offset (cx - 1, cy - 1),
   * nothing for a neighbour outside the image.
   */
  function Tap(src: seq<byte>, w: nat, h: nat, x: nat, y: nat, ch: nat, cy: nat, cx: nat): int
    requires |src| == w * h * 4 && ch < 4 && cy < 3 && cx < 3
  {
    Kernel[cy * 3 + cx] * Neighbour(src, w, h, x + cx - 1, y + cy - 1, ch)
  }

  /** The accumulator after the first `n` taps of kernel row `cy`. */
  function RowSum(src: seq<byte>, w: nat, h: nat, x: nat, y: nat, ch: nat, cy: nat, n: nat): int
    requires |src| == w * h * 4 && ch < 4 && cy < 3 && n <= 3
  {
    if n == 0 then 0 else RowSum(src, w, h, x, y, ch, cy, n - 1) + Tap(src, w, h, x, y, ch, cy, n - 1)
  }

  /** The accumulator after the first `m` kernel rows. */
  function KernelSum(src: seq<byte>, w: nat, h: nat, x: nat, y: nat, ch: nat, m: nat): int
    requires |src| == w * h * 4 && ch < 4 && m <= 3
  {
    if m == 0 then 0 else KernelSum(src, w, h, x, y, ch, m - 1) + RowSum(src, w, h, x, y, ch, m - 1, 3)
  }

  /**
   * A tap whose neighbour lies inside the image adds the neighbour's red,
   * green and blue bytes times the tap's weight to the three accumulators.
   */
  lemma TapInside(src: seq<byte>, w: nat, h: nat, x: nat, y: nat, cy: nat, cx: nat, sx: nat, sy: nat,
                  red: int, green: int, blue: int, weight: int)
    requires |src| == w * h * 4 && cy < 3 && cx < 3
    requires sx == x + cx - 1 && sy == y + cy - 1 && sx < w && sy < h
    requires Offset(w, sx, sy) + 2 < |src|
    requires red == src[Offset(w, sx, sy)] as int
    requires green == src[Offset(w, sx, sy) + 1] as int
    requires blue == src[Offset(w, sx, sy) + 2] as int
    requires weight == Kernel[cy * 3 + cx]
    ensures RowSum(src, w, h, x, y, 0, cy, cx + 1) == RowSum(src, w, h, x, y, 0, cy, cx) + red * weight
    ensures RowSum(src, w, h, x, y, 1, cy, cx + 1) == RowSum(src, w, h, x, y, 1, cy, cx) + green * weight
    ensures RowSum(src, w, h, x, y, 2, cy, cx + 1) == RowSum(src, w, h, x, y, 2, cy, cx) + blue * weight
  {
  }

  /** A tap whose neighbour lies outside the image adds nothing. */
  lemma TapOutside(src: seq<byte>, w: nat, h: nat, x: nat, y: nat, cy: nat, cx: nat)
    requires |src| == w * h * 4 && cy < 3 && cx < 3
    requires !(0 <= x + cx - 1 < w && 0 <= y + cy - 1 < h)
    ensures forall ch :: 0 <= ch < 3 ==>
              RowSum(src, w, h, x, y, ch, cy, cx + 1) == RowSum(src, w, h, x, y, ch, cy, cx)
  {
  }

  /** Channel `ch` of pixel (x, y) of the input. */
  function At(src: seq<byte>, w: nat, h: nat, x: nat, y: nat, ch: nat): int
    requires |src| == w * h * 4 && x < w && y < h && ch < 4
  {
    OffsetInBounds(w, h, x, y, ch);
    src[Offset(w, x, y) + ch] as int
  }

  /** A neighbour's channel value, or nothing when the neighbour lies outside the image. */
  function Neighbour(src: seq<byte>, w: nat, h: nat, x: int, y: int, ch: nat): int
    requires |src| == w * h * 4 && ch < 4
  {
    if 0 <= x < w && 0 <= y < h then At(src, w, h, x, y, ch) else 0
  }

  /** Locates byte `i` of the buffer: pixel (i / 4 % w, i / 4 / w), channel i % 4. */
  lemma Locate(w: nat, h: nat, i: nat)
    requires i < w * h * 4
    ensures w > 0 && (i / 4) % w < w && (i / 4) / w < h
  {
    assert w * (h * 4) > 0;
    var p := i / 4;
    assert p < w * h;
    if p / w >= h {
      MulMonotone(h, p / w, w);
      assert false;
    }
  }

  /** The four bytes the filter writes for pixel (x, y): the clamped kernel sums and an opaque alpha. */
  function PixelOut(src: seq<byte>, w: nat, h: nat, x: nat, y: nat): (r: seq<byte>)
    requires |src| == w * h * 4
    ensures |r| == 4
  {
    [Clamp(KernelSum(src, w, h, x, y, 0, 3)), Clamp(KernelSum(src, w, h, x, y, 1, 3)),
     Clamp(KernelSum(src, w, h, x, y, 2, 3)), 255]
  }

  /** The filtered bytes of the first `n` pixels of row `y`. */
  function RowOut(src: seq<byte>, w: nat, h: nat, y: nat, n: nat): (r: seq<byte>)
    requires |src| == w * h * 4
    ensures |r| == 4 * n
  {
    if n == 0 then [] else RowOut(src, w, h, y, n - 1) + PixelOut(src, w, h, n - 1, y)
  }

  /** The filtered bytes of the first `m` rows, in buffer order. */
  function RowsOut(src: seq<byte>, w: nat, h: nat, m: nat): (r: seq<byte>)
    requires |src| == w * h * 4
    ensures |r| == Offset(w, 0, m)
  {
    if m == 0 then [] else RowsOut(src, w, h, m - 1) + RowOut(src, w, h, m - 1, w)
  }

  /** The filtered buffer: every row of the image, top to bottom. */
  function Sharpened(src: seq<byte>, w: nat, h: nat): (r: seq<byte>)
    requires |src| == w * h * 4
    ensures |r| == |src|
  {
    RowsOut(src, w, h, h)
  }

  /** Byte `4 * x + ch` of a row prefix belongs to pixel x. */
  lemma {:induction false} RowOutAt(src: seq<byte>, w: nat, h: nat, y: nat, n: nat, x: nat, ch: nat)
    requires |src| == w * h * 4 && x < n && ch < 4
    ensures RowOut(src, w, h, y, n)[4 * x + ch] == PixelOut(src, w, h, x, y)[ch]
  {
    if x < n - 1 {
      RowOutAt(src, w, h, y, n - 1, x, ch);
    }
  }

  /** Byte `Offset(w, x, y) + ch` of the first `m` rows belongs to pixel (x, y). */
  lemma {:induction false} RowsOutAt(src: seq<byte>, w: nat, h: nat, m: nat, x: nat, y: nat, ch: nat)
    requires |src| == w * h * 4 && x < w && y < m && ch < 4
    ensures Offset(w, x, y) + ch < Offset(w, 0, m)
    ensures RowsOut(src, w, h, m)[Offset(w, x, y) + ch] == PixelOut(src, w, h, x, y)[ch]
  {
    assert y * w + x < (y + 1) * w;
    MulMonotone(y + 1, m, w);
    if y < m - 1 {
      MulMonotone(y + 1, m - 1, w);
      RowsOutAt(src, w, h, m - 1, x, y, ch);
    } else {
      RowOutAt(src, w, h, y, w, x, ch);
    }
  }

  /** The byte at pixel (x, y), channel `ch`, is the kernel sum, clamped; alpha is 255. */
  lemma SharpenedAtPixel(src: seq<byte>, w: nat, h: nat, x: nat, y: nat, ch: nat)
    requires |src| == w * h * 4 && x < w && y < h && ch < 4
    ensures Offset(w, x, y) + ch < |src|
    ensures Sharpened(src, w, h)[Offset(w, x, y) + ch]
            == if ch == 3 then 255 else Clamp(KernelSum(src, w, h, x, y, ch, 3))
  {
    RowsOutAt(src, w, h, h, x, y, ch);
  }

  /** The top kernel row reads only the pixel above. */
  lemma TopRow(src: seq<byte>, w: nat, h: nat, x: nat, y: nat, ch: nat)
    requires |src| == w * h * 4 && ch < 4
    ensures RowSum(src, w, h, x, y, ch, 0, 3) == -Neighbour(src, w, h, x, y - 1, ch)
  {
    assert RowSum(src, w, h, x, y, ch, 0, 1) == 0;
  }

  /** The middle kernel row reads the pixel itself and its left and right neighbours. */
  lemma MiddleRow(src: seq<byte>, w: nat, h: nat, x: nat, y: nat, ch: nat)
    requires |src| == w * h * 4 && x < w && y < h && ch < 4
    ensures RowSum(src, w, h, x, y, ch, 1, 3)
            == -Neighbour(src, w, h, x - 1, y, ch) + 5 * At(src, w, h, x, y, ch) - Neighbour(src, w, h, x + 1, y, ch)
  {
    assert RowSum(src, w, h, x, y, ch, 1, 1) == -Neighbour(src, w, h, x - 1, y, ch);
  }

  /** The bottom kernel row reads only the pixel below. */
  lemma BottomRow(src: seq<byte>, w: nat, h: nat, x: nat, y: nat, ch: nat)
    requires |src| == w * h * 4 && ch < 4
    ensures RowSum(src, w, h, x, y, ch, 2, 3) == -Neighbour(src, w, h, x, y + 1, ch)
  {
    assert RowSum(src, w, h, x, y, ch, 2, 1) == 0;
  }

  /**
   * The nine taps add up to five times the centre minus those of the four
   * direct neighbours that lie inside the image.
   */
  lemma ConvolutionFormula(src: seq<byte>, w: nat, h: nat, x: nat, y: nat, ch: nat)
    requires |src| == w * h * 4 && x < w && y < h && ch < 4
    ensures KernelSum(src, w, h, x, y, ch, 3)
            == 5 * At(src, w, h, x, y, ch)
               - Neighbour(src, w, h, x, y - 1, ch) - Neighbour(src, w, h, x - 1, y, ch)
               - Neighbour(src, w, h, x + 1, y, ch) - Neighbour(src, w, h, x, y + 1, ch)
  {
    TopRow(src, w, h, x, y, ch);
    MiddleRow(src, w, h, x, y, ch);
    BottomRow(src, w, h, x, y, ch);
    assert KernelSum(src, w, h, x, y, ch, 1) == RowSum(src, w, h, x, y, ch, 0, 3);
    assert KernelSum(src, w, h, x, y, ch, 2) == RowSum(src, w, h, x, y, ch, 0, 3) + RowSum(src, w, h, x, y, ch, 1, 3);
  }

  /**
   * The filtered buffer has the input's length; every alpha byte is 255 and
   * every colour byte is clamp(5 * centre - the neighbours that exist), taken
   * from the same channel only.
   */
  lemma SharpenedSpec(src: seq<byte>, w: nat, h: nat, x: nat, y: nat, ch: nat)
    requires |src| == w * h * 4 && x < w && y < h && ch < 4
    ensures |Sharpened(src, w, h)| == |src|
    ensures Offset(w, x, y) + ch < |src|
    ensures Sharpened(src, w, h)[Offset(w, x, y) + ch]
            == if ch == 3 then 255
               else Clamp(5 * At(src, w, h, x, y, ch)
                          - Neighbour(src, w, h, x, y - 1, ch) - Neighbour(src, w, h, x - 1, y, ch)
                          - Neighbour(src, w, h, x + 1, y, ch) - Neighbour(src, w, h, x, y + 1, ch))
  {
    SharpenedAtPixel(src, w, h, x, y, ch);
    ConvolutionFormula(src, w, h, x, y, ch);
  }

  /** Every alpha byte of the filtered buffer is 255. */
  lemma SharpenedAlpha(src: seq<byte>, w: nat, h: nat, i: nat)
    requires |src| == w * h * 4 && i < |src| && i % 4 == 3
    ensures Sharpened(src, w, h)[i] == 255
  {
    Locate(w, h, i);
    var p := i / 4;
    assert i == Offset(w, p % w, p / w) + 3;
    SharpenedAtPixel(src, w, h, p % w, p / w, 3);
  }

  /**
   * An interior pixel whose four direct neighbours share its value `v` in a
   * colour channel keeps `v` there: 5v - 4v = v.
   */
  lemma FlatRegionUnchanged(src: seq<byte>, w: nat, h: nat, x: nat, y: nat, ch: nat)
    requires |src| == w * h * 4 && 0 < x < w - 1 && 0 < y < h - 1 && ch < 3
    requires At(src, w, h, x, y - 1, ch) == At(src, w, h, x, y, ch)
    requires At(src, w, h, x - 1, y, ch) == At(src, w, h, x, y, ch)
    requires At(src, w, h, x + 1, y, ch) == At(src, w, h, x, y, ch)
    requires At(src, w, h, x, y + 1, ch) == At(src, w, h, x, y, ch)
    ensures Offset(w, x, y) + ch < |src|
    ensures Sharpened(src, w, h)[Offset(w, x, y) + ch] as int == At(src, w, h, x, y, ch)
  {
    SharpenedSpec(src, w, h, x, y, ch);
    var v := At(src, w, h, x, y, ch);
    assert Neighbour(src, w, h, x, y - 1, ch) == v;
    assert Neighbour(src, w, h, x - 1, y, ch) == v;
    assert Neighbour(src, w, h, x + 1, y, ch) == v;
    assert Neighbour(src, w, h, x, y + 1, ch) == v;
    assert Clamp(5 * v - v - v - v - v) as int == v;
  }

  /**
   * The two inner loops of the filter (src/services/ocr.js:34-46): the
   * kernel sums of pixel (x, y) in the red, green and blue channels.
   */
  method ConvolvePixel(src: array<byte>, width: nat, height: nat, x: nat, y: nat) returns (r: int, g: int, b: int)
    requires src.Length == width * height * 4 && x < width && y < height
    ensures r == KernelSum(src[..], width, height, x, y, 0, 3)
    ensures g == KernelSum(src[..], width, height, x, y, 1, 3)
    ensures b == KernelSum(src[..], width, height, x, y, 2, 3)
  {
    ghost var data := src[..];
    r, g, b := 0, 0, 0;
    var cy := 0;
    while cy < 3
      invariant 0 <= cy <= 3
      invariant r == KernelSum(data, width, height, x, y, 0, cy)
      invariant g == KernelSum(data, width, height, x, y, 1, cy)
      invariant b == KernelSum(data, width, height, x, y, 2, cy)
    {
      var cx := 0;
      while cx < 3
        invariant 0 <= cx <= 3
        invariant r == KernelSum(data, width, height, x, y, 0, cy) + RowSum(data, width, height, x, y, 0, cy, cx)
        invariant g == KernelSum(data, width, height, x, y, 1, cy) + RowSum(data, width, height, x, y, 1, cy, cx)
        invariant b == KernelSum(data, width, height, x, y, 2, cy) + RowSum(data, width, height, x, y, 2, cy, cx)
      {
        var scy := y + cy - 1;
        var scx := x + cx - 1;
        if scy >= 0 && scy < height && scx >= 0 && scx < width {
          var srcOff := Offset(width, scx, scy);
          OffsetInBounds(width, height, scx, scy, 2);
          var wt := Kernel[cy * 3 + cx];
          var red, green, blue := src[srcOff] as int, src[srcOff + 1] as int, src[srcOff + 2] as int;
          TapInside(data, width, height, x, y, cy, cx, scx, scy, red, green, blue, wt);
          r := r + red * wt;
          g := g + green * wt;
          b := b + blue * wt;
        } else {
          TapOutside(data, width, height, x, y, cy, cx);
        }
        cx := cx + 1;
      }
      cy := cy + 1;
    }
  }

  /** The four bytes at `k` of `s` are `pixel`, so the prefix up to them is the shorter prefix and `pixel`. */
  lemma AppendPixel(s: seq<byte>, k: nat, pixel: seq<byte>)
    requires k + 4 <= |s| && |pixel| == 4
    requires s[k] == pixel[0] && s[k + 1] == pixel[1] && s[k + 2] == pixel[2] && s[k + 3] == pixel[3]
    ensures s[..k + 4] == s[..k] + pixel
  {
  }

  /** The end of row `y` is the start of row `y + 1`. */
  lemma NextRow(w: nat, y: nat)
    ensures Offset(w, w, y) == Offset(w, 0, y + 1)
  {
    assert (y + 1) * w == y * w + w;
  }

  /**
   * The body of the `x` loop (src/services/ocr.js:27-50): writes the four
   * filtered bytes of pixel (x, y) right after the pixels already done.
   */
  method SharpenPixel(src: array<byte>, output: array<byte>, width: nat, height: nat, x: nat, y: nat)
    requires src.Length == width * height * 4 && output.Length == src.Length && src != output
    requires x < width && y < height && Offset(width, x, y) + 4 <= output.Length
    requires output[..Offset(width, x, y)] == RowsOut(src[..], width, height, y) + RowOut(src[..], width, height, y, x)
    modifies output
    ensures Offset(width, x + 1, y) <= output.Length
    ensures output[..Offset(width, x + 1, y)] == RowsOut(src[..], width, height, y) + RowOut(src[..], width, height, y, x + 1)
  {
    ghost var data := src[..];
    var dstOff := Offset(width, x, y);
    var r, g, b := ConvolvePixel(src, width, height, x, y);
    ghost var before := output[..dstOff];
    ghost var pixel := PixelOut(data, width, height, x, y);
    output[dstOff] := Clamp(r);
    output[dstOff + 1] := Clamp(g);
    output[dstOff + 2] := Clamp(b);
    output[dstOff + 3] := 255;
    assert output[..dstOff] == before;
    AppendPixel(output[..], dstOff, pixel);
  }

  /**
   * The `x` loop for one row `y` (src/services/ocr.js:26-52): writes the
   * filtered bytes of row `y` right after the rows already done.
   */
  method SharpenRow(src: array<byte>, output: array<byte>, width: nat, height: nat, y: nat)
    requires src.Length == width * height * 4 && output.Length == src.Length && src != output
    requires y < height
    requires output[..Offset(width, 0, y)] == RowsOut(src[..], width, height, y)
    modifies output
    ensures Offset(width, 0, y + 1) <= output.Length
    ensures output[..Offset(width, 0, y + 1)] == RowsOut(src[..], width, height, y + 1)
  {
    MulMonotone(y + 1, height, width);
    var x := 0;
    while x < width
      invariant 0 <= x <= width
      invariant Offset(width, x, y) <= output.Length
      invariant output[..Offset(width, x, y)] == RowsOut(src[..], width, height, y) + RowOut(src[..], width, height, y, x)
    {
      OffsetInBounds(width, height, x, y, 3);
      SharpenPixel(src, output, width, height, x, y);
      x := x + 1;
    }
    NextRow(width, y);
  }

  /**
   * Applies the kernel to every pixel of a `width` x `height` RGBA buffer and
   * returns the filtered buffer, a fresh array: the input is only read.
   */
  method ApplySharpenFilter(src: array<byte>, width: nat, height: nat) returns (output: array<byte>)
    requires src.Length == width * height * 4
    ensures fresh(output)
    ensures output.Length == src.Length
    ensures output[..] == Sharpened(src[..], width, height)
  {
    output := new byte[src.Length];
    var y := 0;
    while y < height
      invariant 0 <= y <= height
      invariant output[..Offset(width, 0, y)] == RowsOut(src[..], width, height, y)
    {
      SharpenRow(src, output, width, height, y);
      y := y + 1;
    }
    assert output[..] == output[..Offset(width, 0, height)];
  }
}
