/** RGBA rasters as the image libraries hand them over: four bytes per pixel
    (red, green, blue, alpha), pixels stored row after row, and the fixed
    2-pixel inset cut off a CAPTCHA screenshot before it is cleaned. */
module Raster {
  import opened Outcomes

  datatype Bitmap = Bitmap(width: nat, height: nat, data: seq<int>)

  /** A bitmap whose buffer holds exactly `width * height` RGBA pixels. */
  type Image = b: Bitmap | |b.data| == 4 * (b.width * b.height) witness Bitmap(0, 0, [])

  /** Index of the red byte of pixel (x, y) in a buffer of row width `w`. */
  function Offset(w: nat, x: nat, y: nat): nat
  {
    4 * (y * w + x)
  }

  /** The four bytes of pixel (x, y). */
  function Pixel(data: seq<int>, w: nat, h: nat, x: nat, y: nat): (px: seq<int>)
    requires |data| == 4 * (w * h) && x < w && y < h
    ensures |px| == 4
  {
    PixelInside(w, h, x, y);
    data[Offset(w, x, y)..Offset(w, x, y) + 4]
  }

  lemma MulLe(a: nat, b: nat, c: nat)
    requires a <= b
    ensures a * c <= b * c
  {}

  lemma MulNext(a: nat, b: nat)
    ensures (a + 1) * b == a * b + b && a * b == b * a
  {}

  /** Quotient and remainder are the unique pair with n == q * d + r and 0 <= r < d. */
  lemma DivModOf(n: int, d: int, q: int, r: int)
    requires d > 0 && 0 <= r < d && n == q * d + r
    ensures n / d == q && n % d == r
  {
    var q', r' := n / d, n % d;
    assert q' * d + r' == n;
    if q > q' {
      assert (q - q') * d == q * d - q' * d;
      MulLe(1, q - q', d);
    } else if q < q' {
      assert (q' - q) * d == q' * d - q * d;
      MulLe(1, q' - q, d);
    }
  }

  /** The bytes of pixel (x, y) lie inside the buffer. */
  lemma PixelInside(w: nat, h: nat, x: nat, y: nat)
    requires x < w && y < h
    ensures y * w + x < w * h
    ensures Offset(w, x, y) + 4 <= 4 * (w * h)
  {
    MulLe(y + 1, h, w);
  }

  /** Pixel (x, y) is pixel number y * w + x. */
  lemma PixelNumber(w: nat, h: nat, x: nat, y: nat)
    requires x < w && y < h
    ensures y * w + x < w * h
    ensures (y * w + x) % w == x && (y * w + x) / w == y
    ensures Offset(w, x, y) + 4 <= 4 * (w * h)
  {
    PixelInside(w, h, x, y);
    DivModOf(y * w + x, w, y, x);
  }

  /** Pixel number p sits at column p % w of row p / w. */
  lemma PixelPlace(w: nat, h: nat, p: nat)
    requires p < w * h
    ensures w > 0 && p % w < w && p / w < h && Offset(w, p % w, p / w) == 4 * p
  {
    if p / w >= h {
      MulLe(h, p / w, w);
    }
  }

  /** Width and height lost on each side of a CAPTCHA screenshot. */
  const Inset: nat := 2

  const InvalidCropError := Error("切割后的图像尺寸无效！")

  /** Buffer index in `b` of byte i of the crop of size cw x ch taken at (Inset, Inset). */
  function CropSource(b: Image, cw: nat, ch: nat, i: nat): (j: nat)
    requires cw == b.width - 2 * Inset && ch == b.height - 2 * Inset && i < 4 * (cw * ch)
    ensures j < |b.data|
  {
    var p := i / 4;
    PixelPlace(cw, ch, p);
    PixelInside(b.width, b.height, p % cw + Inset, p / cw + Inset);
    Offset(b.width, p % cw + Inset, p / cw + Inset) + i % 4
  }

  /** Byte k of pixel (x, y) of the crop comes from byte k of pixel
      (x + Inset, y + Inset) of the source. */
  lemma CropByte(b: Image, cw: nat, ch: nat, x: nat, y: nat, j: nat)
    requires cw == b.width - 2 * Inset && ch == b.height - 2 * Inset && x < cw && y < ch
    requires Offset(cw, x, y) <= j < Offset(cw, x, y) + 4
    ensures j < 4 * (cw * ch)
    ensures CropSource(b, cw, ch, j) == Offset(b.width, x + Inset, y + Inset) + (j - Offset(cw, x, y))
  {
    PixelNumber(cw, ch, x, y);
    DivModOf(j, 4, y * cw + x, j - Offset(cw, x, y));
  }

  lemma CropPixels(b: Image, cw: nat, ch: nat, data: seq<int>)
    requires cw == b.width - 2 * Inset && ch == b.height - 2 * Inset
    requires |data| == 4 * (cw * ch)
    requires forall i :: 0 <= i < |data| ==> data[i] == b.data[CropSource(b, cw, ch, i)]
    ensures forall x: nat, y: nat :: x < cw && y < ch ==>
      Pixel(data, cw, ch, x, y) == Pixel(b.data, b.width, b.height, x + Inset, y + Inset)
  {
    forall x: nat, y: nat | x < cw && y < ch
      ensures Pixel(data, cw, ch, x, y) == Pixel(b.data, b.width, b.height, x + Inset, y + Inset)
    {
      PixelInside(cw, ch, x, y);
      PixelInside(b.width, b.height, x + Inset, y + Inset);
      var o := Offset(cw, x, y);
      var src := Offset(b.width, x + Inset, y + Inset);
      forall j | o <= j < o + 4
        ensures data[j] == b.data[src + (j - o)]
      {
        CropByte(b, cw, ch, x, y, j);
      }
      assert data[o..o + 4] == b.data[src..src + 4];
    }
  }

  /** sharp's extract of the region inside the 2-pixel inset: refused when
      the width or the height left over is not positive. */
  function Crop(b: Image): (r: Result<Image>)
    ensures r.Success? <==> b.width > 2 * Inset && b.height > 2 * Inset
    ensures r.Failure? ==> r.error == InvalidCropError
    ensures r.Success? ==> r.value.width == b.width - 2 * Inset && r.value.height == b.height - 2 * Inset
    ensures r.Success? ==> forall x: nat, y: nat :: x < r.value.width && y < r.value.height ==>
      Pixel(r.value.data, r.value.width, r.value.height, x, y)
        == Pixel(b.data, b.width, b.height, x + Inset, y + Inset)
  {
    var croppedWidth := b.width - 2 * Inset;
    var croppedHeight := b.height - 2 * Inset;
    if croppedWidth <= 0 || croppedHeight <= 0 then Failure(InvalidCropError)
    else
      var data := seq(4 * (croppedWidth * croppedHeight),
                      i requires 0 <= i < 4 * (croppedWidth * croppedHeight) =>
                        b.data[CropSource(b, croppedWidth, croppedHeight, i)]);
      CropPixels(b, croppedWidth, croppedHeight, data);
      Success(Bitmap(croppedWidth, croppedHeight, data))
  }
}
