/** The CAPTCHA cleaning pass: one scan over the RGBA buffer, row by row and
    left to right, that whitens the light grey background, brightens the
    glyph pixels by half and boosts the glyph pixels on a horizontal edge.
    The scan writes into the buffer it reads, so the edge test of a pixel
    sees that pixel already brightened, its left neighbour already final and
    only its right neighbour untouched. */
module CaptchaScan {
  import opened Raster

  function Min(a: int, b: int): int { if a < b then a else b }
  function Max3(a: int, b: int, c: int): int { if a >= b && a >= c then a else if b >= c then b else c }
  function Min3(a: int, b: int, c: int): int { if a <= b && a <= c then a else if b <= c then b else c }
  function Abs(a: int): int { if a < 0 then -a else a }

  predicate IsByte(c: int) { 0 <= c <= 255 }

  predicate AllBytes(s: seq<int>) { forall j :: 0 <= j < |s| ==> IsByte(s[j]) }

  /** Sum of the red, green and blue bytes of the pixel whose red byte is at i. */
  function RgbSum(data: seq<int>, i: nat): int
    requires i + 3 <= |data|
  {
    data[i] + data[i + 1] + data[i + 2]
  }

  /** Background: brightness (r + g + b) / 3 above 180 and chroma
      max(r, g, b) - min(r, g, b) below 30, decided on integers. */
  predicate IsBackground(r: int, g: int, b: int)
  {
    r + g + b > 540 && Max3(r, g, b) - Min3(r, g, b) < 30
  }

  /** Math.min(255, c * 1.5) stored into a byte (the store truncates). */
  function Enhance(c: int): (e: int)
    ensures IsByte(c) ==> IsByte(e)
  {
    Min(255, 3 * c / 2)
  }

  /** Math.min(255, c * 1.8) stored into a byte (the store truncates). */
  function Boost(c: int): (e: int)
    ensures IsByte(c) ==> IsByte(e)
  {
    Min(255, 9 * c / 5)
  }

  /** The integer forms above are the floating-point formulas of the
      callback: the brightness test compares the mean with 180, and each
      enhanced byte is the product truncated to an integer and capped at 255. */
  lemma IntegerForms(r: int, g: int, b: int, c: int)
    ensures IsBackground(r, g, b) <==>
      (r + g + b) as real / 3.0 > 180.0 && Max3(r, g, b) - Min3(r, g, b) < 30
    ensures Enhance(c) as real <= 1.5 * c as real
    ensures Enhance(c) == 255 || 1.5 * c as real < (Enhance(c) + 1) as real
    ensures Boost(c) as real <= 1.8 * c as real
    ensures Boost(c) == 255 || 1.8 * c as real < (Boost(c) + 1) as real
  {}

  /** The gradient test of pixel (x, y) of `data`, for a pixel whose RGB
      sum is `centre`: never true within two pixels of the border;
      otherwise `centre` differs from the RGB sum of the left or of the
      right neighbour by more than 50. */
  predicate EdgeAgainst(data: seq<int>, w: nat, h: nat, x: nat, y: nat, centre: int)
    requires |data| == 4 * (w * h) && x < w && y < h
  {
    !(x <= 1 || y <= 1 || x >= w - 2 || y >= h - 2) &&
    (PixelInside(w, h, x + 1, y);
     var idx := Offset(w, x, y);
     Abs(centre - RgbSum(data, idx - 4)) > 50 || Abs(centre - RgbSum(data, idx + 4)) > 50)
  }

  /** The gradient test on the buffer as it currently is. */
  function IsEdgePixel(data: seq<int>, w: nat, h: nat, x: nat, y: nat): (edge: bool)
    requires |data| == 4 * (w * h) && x < w && y < h
    ensures edge ==> 2 <= x && x + 2 < w && 2 <= y && y + 2 < h
  {
    PixelInside(w, h, x, y);
    EdgeAgainst(data, w, h, x, y, RgbSum(data, Offset(w, x, y)))
  }

  /** The colour the callback leaves on a pixel read as (r, g, b): white
      for background, otherwise brightened by 1.5, or, when the edge test
      fired, the original bytes boosted by 1.8. */
  function Repaint(r: int, g: int, b: int, edge: bool): (rgb: (int, int, int))
    ensures IsBackground(r, g, b) ==> rgb == (255, 255, 255)
    ensures !IsBackground(r, g, b) && !edge ==> rgb == (Enhance(r), Enhance(g), Enhance(b))
    ensures !IsBackground(r, g, b) && edge ==> rgb == (Boost(r), Boost(g), Boost(b))
  {
    if IsBackground(r, g, b) then (255, 255, 255)
    else if edge then (Boost(r), Boost(g), Boost(b))
    else (Enhance(r), Enhance(g), Enhance(b))
  }

  /** The scan callback at pixel (x, y), applied to the buffer `buf`. Its
      edge test sees the pixel already brightened by 1.5 and its neighbours
      as `buf` holds them. It writes only the red, green and blue bytes of
      that pixel. */
  function ScanStep(buf: seq<int>, w: nat, h: nat, x: nat, y: nat): (out: seq<int>)
    requires |buf| == 4 * (w * h) && x < w && y < h
    ensures |out| == |buf|
    ensures forall j :: 0 <= j < |buf| && !(Offset(w, x, y) <= j < Offset(w, x, y) + 3) ==> out[j] == buf[j]
  {
    PixelInside(w, h, x, y);
    var idx := Offset(w, x, y);
    var r, g, b := buf[idx], buf[idx + 1], buf[idx + 2];
    var edge := EdgeAgainst(buf, w, h, x, y, Enhance(r) + Enhance(g) + Enhance(b));
    var rgb := Repaint(r, g, b, edge);
    buf[idx := rgb.0][idx + 1 := rgb.1][idx + 2 := rgb.2]
  }

  /** The callback writes bytes only. */
  lemma StepStaysBytes(buf: seq<int>, w: nat, h: nat, x: nat, y: nat)
    requires |buf| == 4 * (w * h) && x < w && y < h && AllBytes(buf)
    ensures AllBytes(ScanStep(buf, w, h, x, y))
  {
    PixelInside(w, h, x, y);
  }

  /** The positions of the scan: before the first x pixels of row y have
      been visited (row h, column 0 is the end of the scan). */
  predicate InScan(w: nat, h: nat, y: nat, x: nat)
  {
    x <= w && y <= h && (y == h ==> x == 0)
  }

  /** The buffer once the scan has visited every pixel of the rows above
      row y and the first x pixels of row y. */
  function Scanned(s: seq<int>, w: nat, h: nat, y: nat, x: nat): (out: seq<int>)
    requires |s| == 4 * (w * h) && InScan(w, h, y, x)
    ensures |out| == |s|
    decreases y, x
  {
    if x == 0 then
      if y == 0 then s else Scanned(s, w, h, y - 1, w)
    else
      ScanStep(Scanned(s, w, h, y, x - 1), w, h, x - 1, y)
  }

  /** The buffer after the whole scan. */
  function Cleaned(s: seq<int>, w: nat, h: nat): (out: seq<int>)
    requires |s| == 4 * (w * h)
    ensures |out| == |s|
  {
    Scanned(s, w, h, h, 0)
  }

  /** Offsets grow along the scan order. */
  lemma OffsetOrder(w: nat, x: nat, y: nat, x': nat, y': nat)
    requires x <= w && (y < y' || (y == y' && x <= x'))
    ensures Offset(w, x, y) <= Offset(w, x', y')
  {
    if y < y' {
      MulNext(y, w);
      MulLe(y + 1, y', w);
    }
  }

  /** The alpha byte of a pixel is not one the callback writes. */
  lemma AlphaNotRgb(w: nat, x: nat, y: nat, j: nat)
    requires j % 4 == 3
    ensures !(Offset(w, x, y) <= j < Offset(w, x, y) + 3)
  {
    var p := y * w + x;
    if 4 * p <= j < 4 * p + 3 {
      DivModOf(j, 4, p, j - 4 * p);
    }
  }

  /** Bytes the scan has not reached yet, and every alpha byte, are still
      the original. */
  lemma {:induction false} ScannedFrame(s: seq<int>, w: nat, h: nat, y: nat, x: nat, j: nat)
    requires |s| == 4 * (w * h) && InScan(w, h, y, x) && j < |s|
    requires Offset(w, x, y) <= j || j % 4 == 3
    ensures Scanned(s, w, h, y, x)[j] == s[j]
    decreases y, x
  {
    if x > 0 {
      if j % 4 == 3 {
        AlphaNotRgb(w, x - 1, y, j);
      } else {
        OffsetOrder(w, x - 1, y, x, y);
      }
      ScannedFrame(s, w, h, y, x - 1, j);
    } else if y > 0 {
      if j % 4 != 3 {
        MulNext(y - 1, w);
      }
      ScannedFrame(s, w, h, y - 1, w, j);
    }
  }

  /** One callback leaves every byte before its pixel alone. */
  lemma StepSettles(s: seq<int>, w: nat, h: nat, y: nat, x: nat, j: nat)
    requires |s| == 4 * (w * h) && InScan(w, h, y, x) && 0 < x
    requires j < Offset(w, x - 1, y) && j < |s|
    ensures Scanned(s, w, h, y, x)[j] == Scanned(s, w, h, y, x - 1)[j]
  {
    var previous := Scanned(s, w, h, y, x - 1);
    assert Scanned(s, w, h, y, x)[j] == ScanStep(previous, w, h, x - 1, y)[j];
  }

  /** Within a row, once the scan has passed a byte, later callbacks leave
      it alone. */
  lemma {:induction false} RowSettles(s: seq<int>, w: nat, h: nat, y: nat, x: nat, x': nat, j: nat)
    requires |s| == 4 * (w * h) && InScan(w, h, y, x') && x <= x'
    requires j < Offset(w, x, y) && j < |s|
    ensures Scanned(s, w, h, y, x')[j] == Scanned(s, w, h, y, x)[j]
    decreases x'
  {
    if x < x' {
      RowSettles(s, w, h, y, x, x' - 1, j);
      OffsetOrder(w, x, y, x' - 1, y);
      StepSettles(s, w, h, y, x', j);
    }
  }

  /** A byte passed before row y' starts is untouched by the callbacks of
      row y'. */
  lemma RowToNext(s: seq<int>, w: nat, h: nat, y: nat, x: nat, y': nat, x': nat, j: nat)
    requires |s| == 4 * (w * h) && InScan(w, h, y, x) && InScan(w, h, y', x') && y < y'
    requires j < Offset(w, x, y) && j < |s|
    ensures Scanned(s, w, h, y', x')[j] == Scanned(s, w, h, y' - 1, w)[j]
  {
    OffsetOrder(w, x, y, 0, y');
    RowSettles(s, w, h, y', 0, x', j);
    assert Scanned(s, w, h, y', 0)[j] == Scanned(s, w, h, y' - 1, w)[j];
  }

  /** Once the scan has passed a byte, later steps leave it alone. */
  lemma {:induction false} ScannedSettles(s: seq<int>, w: nat, h: nat, y: nat, x: nat, y': nat, x': nat, j: nat)
    requires |s| == 4 * (w * h) && InScan(w, h, y, x) && InScan(w, h, y', x')
    requires y < y' || (y == y' && x <= x')
    requires j < Offset(w, x, y) && j < |s|
    ensures Scanned(s, w, h, y', x')[j] == Scanned(s, w, h, y, x)[j]
    decreases y'
  {
    if y == y' {
      RowSettles(s, w, h, y, x, x', j);
    } else {
      RowToNext(s, w, h, y, x, y', x', j);
      ScannedSettles(s, w, h, y, x, y' - 1, w, j);
    }
  }

  /** The edge test as the scan meets it at (x, y), from the original
      buffer s and the finished buffer f: the pixel brightened by 1.5
      against its left neighbour as finally written and its right
      neighbour as originally read. */
  predicate EdgeSeen(s: seq<int>, f: seq<int>, w: nat, h: nat, x: nat, y: nat)
    requires |s| == 4 * (w * h) && |f| == |s| && x < w && y < h
  {
    2 <= x && x + 2 < w && 2 <= y && y + 2 < h &&
    (PixelInside(w, h, x + 1, y);
     var i := Offset(w, x, y);
     var centre := Enhance(s[i]) + Enhance(s[i + 1]) + Enhance(s[i + 2]);
     Abs(centre - RgbSum(f, i - 4)) > 50 || Abs(centre - RgbSum(s, i + 4)) > 50)
  }

  /** The per-pixel rule of the cleaning pass at (x, y), from the original
      buffer s to the finished buffer f: alpha untouched; background made
      white; other pixels brightened by 1.5, or, when the scan saw an edge
      there, by 1.8 of the original bytes instead. */
  predicate PixelRule(s: seq<int>, f: seq<int>, w: nat, h: nat, x: nat, y: nat)
    requires |s| == 4 * (w * h) && |f| == |s| && x < w && y < h
  {
    PixelInside(w, h, x, y);
    var i := Offset(w, x, y);
    && f[i + 3] == s[i + 3]
    && (f[i], f[i + 1], f[i + 2]) == Repaint(s[i], s[i + 1], s[i + 2], EdgeSeen(s, f, w, h, x, y))
  }

  /** The finished bytes of pixel (x, y) are those its callback wrote. */
  lemma FinalAt(s: seq<int>, w: nat, h: nat, x: nat, y: nat)
    requires |s| == 4 * (w * h) && x < w && y < h
    ensures Offset(w, x, y) + 4 <= |s|
    ensures forall j :: Offset(w, x, y) <= j < Offset(w, x, y) + 4 ==>
      Cleaned(s, w, h)[j] == ScanStep(Scanned(s, w, h, y, x), w, h, x, y)[j]
  {
    PixelInside(w, h, x, y);
    OffsetOrder(w, x, y, x + 1, y);
    forall j | Offset(w, x, y) <= j < Offset(w, x, y) + 4
      ensures Cleaned(s, w, h)[j] == ScanStep(Scanned(s, w, h, y, x), w, h, x, y)[j]
    {
      ScannedSettles(s, w, h, y, x + 1, h, 0, j);
      assert Scanned(s, w, h, y, x + 1)[j] == ScanStep(Scanned(s, w, h, y, x), w, h, x, y)[j];
    }
  }

  /** When the scan reaches pixel (x, y), the bytes before it are final. */
  lemma FinalBefore(s: seq<int>, w: nat, h: nat, x: nat, y: nat)
    requires |s| == 4 * (w * h) && x < w && y < h
    ensures forall j :: 0 <= j < Offset(w, x, y) && j < |s| ==>
      Scanned(s, w, h, y, x)[j] == Cleaned(s, w, h)[j]
  {
    forall j | 0 <= j < Offset(w, x, y) && j < |s|
      ensures Scanned(s, w, h, y, x)[j] == Cleaned(s, w, h)[j]
    {
      ScannedSettles(s, w, h, y, x, h, 0, j);
    }
  }

  /** When the scan reaches pixel (x, y), the bytes from it on are original. */
  lemma OriginalFrom(s: seq<int>, w: nat, h: nat, x: nat, y: nat)
    requires |s| == 4 * (w * h) && x < w && y < h
    ensures forall j :: Offset(w, x, y) <= j < |s| ==> Scanned(s, w, h, y, x)[j] == s[j]
  {
    forall j | Offset(w, x, y) <= j < |s|
      ensures Scanned(s, w, h, y, x)[j] == s[j]
    {
      ScannedFrame(s, w, h, y, x, j);
    }
  }

  /** One callback obeys the rule when the pixels before it are already
      final and the pixels from it on are still original. */
  lemma StepRule(s: seq<int>, f: seq<int>, before: seq<int>, w: nat, h: nat, x: nat, y: nat)
    requires |s| == 4 * (w * h) && |f| == |s| && |before| == |s| && x < w && y < h
    requires Offset(w, x, y) + 4 <= |s|
    requires forall j :: 0 <= j < Offset(w, x, y) ==> before[j] == f[j]
    requires forall j :: Offset(w, x, y) <= j < |s| ==> before[j] == s[j]
    requires forall j :: Offset(w, x, y) <= j < Offset(w, x, y) + 4 ==>
      f[j] == ScanStep(before, w, h, x, y)[j]
    ensures PixelRule(s, f, w, h, x, y)
  {
    var i := Offset(w, x, y);
    if 2 <= x && x + 2 < w && 2 <= y && y + 2 < h {
      PixelInside(w, h, x + 1, y);
      assert RgbSum(before, i - 4) == RgbSum(f, i - 4);
      assert RgbSum(before, i + 4) == RgbSum(s, i + 4);
    }
  }

  /** Every pixel of the cleaned buffer obeys the per-pixel rule. */
  lemma CleanedPixel(s: seq<int>, w: nat, h: nat, x: nat, y: nat)
    requires |s| == 4 * (w * h) && x < w && y < h
    ensures PixelRule(s, Cleaned(s, w, h), w, h, x, y)
  {
    FinalAt(s, w, h, x, y);
    FinalBefore(s, w, h, x, y);
    OriginalFrom(s, w, h, x, y);
    StepRule(s, Cleaned(s, w, h), Scanned(s, w, h, y, x), w, h, x, y);
  }

  /** The callback passed to the scan, run on the live buffer: it writes
      the brightened bytes first and runs the edge test on the buffer as
      it then is. */
  method VisitPixel(data: array<int>, w: nat, h: nat, x: nat, y: nat)
    requires data.Length == 4 * (w * h) && x < w && y < h
    modifies data
    ensures data[..] == ScanStep(old(data[..]), w, h, x, y)
  {
    PixelInside(w, h, x, y);
    var idx := Offset(w, x, y);
    var r, g, b := data[idx], data[idx + 1], data[idx + 2];
    if IsBackground(r, g, b) {
      data[idx] := 255;
      data[idx + 1] := 255;
      data[idx + 2] := 255;
    } else {
      ghost var before := data[..];
      data[idx] := Enhance(r);
      data[idx + 1] := Enhance(g);
      data[idx + 2] := Enhance(b);
      ghost var centre := Enhance(r) + Enhance(g) + Enhance(b);
      assert IsEdgePixel(data[..], w, h, x, y) == EdgeAgainst(before, w, h, x, y, centre) by {
        assert RgbSum(data[..], idx) == centre;
        if !(x <= 1 || y <= 1 || x >= w - 2 || y >= h - 2) {
          PixelInside(w, h, x + 1, y);
          assert RgbSum(data[..], idx - 4) == RgbSum(before, idx - 4);
          assert RgbSum(data[..], idx + 4) == RgbSum(before, idx + 4);
        }
      }
      if IsEdgePixel(data[..], w, h, x, y) {
        data[idx] := Boost(r);
        data[idx + 1] := Boost(g);
        data[idx + 2] := Boost(b);
      }
    }
  }

  /** One row of the scan, left to right. */
  method ScanRow(data: array<int>, w: nat, h: nat, y: nat, ghost s: seq<int>)
    requires data.Length == 4 * (w * h) && |s| == data.Length && y < h
    requires data[..] == Scanned(s, w, h, y, 0)
    modifies data
    ensures data[..] == Scanned(s, w, h, y + 1, 0)
  {
    var x: nat := 0;
    while x < w
      invariant x <= w
      invariant data[..] == Scanned(s, w, h, y, x)
    {
      VisitPixel(data, w, h, x, y);
      x := x + 1;
    }
  }

  /** The scan, in place, as Jimp runs the callback: rows top to bottom,
      each row left to right. */
  method CleanInPlace(data: array<int>, w: nat, h: nat)
    requires data.Length == 4 * (w * h)
    modifies data
    ensures data[..] == Cleaned(old(data[..]), w, h)
  {
    ghost var s := data[..];
    var y: nat := 0;
    while y < h
      invariant y <= h
      invariant data[..] == Scanned(s, w, h, y, 0)
    {
      ScanRow(data, w, h, y, s);
      y := y + 1;
    }
  }

  /** Within a row, a buffer of bytes stays a buffer of bytes. */
  lemma {:induction false} RowStaysBytes(s: seq<int>, w: nat, h: nat, y: nat, x: nat)
    requires |s| == 4 * (w * h) && InScan(w, h, y, x) && AllBytes(Scanned(s, w, h, y, 0))
    ensures AllBytes(Scanned(s, w, h, y, x))
    decreases x
  {
    if x > 0 {
      RowStaysBytes(s, w, h, y, x - 1);
      StepStaysBytes(Scanned(s, w, h, y, x - 1), w, h, x - 1, y);
    }
  }

  /** A buffer of bytes stays a buffer of bytes. */
  lemma {:induction false} ScannedStaysBytes(s: seq<int>, w: nat, h: nat, y: nat, x: nat)
    requires |s| == 4 * (w * h) && InScan(w, h, y, x) && AllBytes(s)
    ensures AllBytes(Scanned(s, w, h, y, x))
    decreases y
  {
    if y > 0 {
      ScannedStaysBytes(s, w, h, y - 1, w);
      assert Scanned(s, w, h, y, 0) == Scanned(s, w, h, y - 1, w);
    }
    RowStaysBytes(s, w, h, y, x);
  }

  /** A background pixel comes out white; its alpha is kept. */
  lemma WhiteByte(s: seq<int>, w: nat, h: nat, j: nat)
    requires |s| == 4 * (w * h) && j < |s|
    requires var i := j / 4 * 4; i + 3 <= |s| && IsBackground(s[i], s[i + 1], s[i + 2])
    ensures Cleaned(s, w, h)[j] == if j % 4 == 3 then s[j] else 255
  {
    var p := j / 4;
    PixelPlace(w, h, p);
    CleanedPixel(s, w, h, p % w, p / w);
  }

  /** A CAPTCHA made only of background comes out white; alpha is kept. */
  lemma AllBackgroundTurnsWhite(s: seq<int>, w: nat, h: nat)
    requires |s| == 4 * (w * h)
    requires forall i :: 0 <= i < |s| && i % 4 == 0 ==> IsBackground(s[i], s[i + 1], s[i + 2])
    ensures forall j :: 0 <= j < |s| ==> Cleaned(s, w, h)[j] == if j % 4 == 3 then s[j] else 255
  {
    forall j | 0 <= j < |s|
      ensures Cleaned(s, w, h)[j] == if j % 4 == 3 then s[j] else 255
    {
      var i := j / 4 * 4;
      assert i % 4 == 0 && i + 3 < |s|;
      WhiteByte(s, w, h, j);
    }
  }

  /** Glyph pixels within two pixels of the border are brightened by 1.5
      and never edge-boosted. */
  lemma BorderPixelsOnlyEnhanced(s: seq<int>, w: nat, h: nat, x: nat, y: nat)
    requires |s| == 4 * (w * h) && x < w && y < h
    requires x <= 1 || y <= 1 || x + 2 >= w || y + 2 >= h
    requires var i := Offset(w, x, y); i + 3 <= |s| && !IsBackground(s[i], s[i + 1], s[i + 2])
    ensures var i := Offset(w, x, y); var f := Cleaned(s, w, h);
      f[i] == Enhance(s[i]) && f[i + 1] == Enhance(s[i + 1]) && f[i + 2] == Enhance(s[i + 2])
  {
    CleanedPixel(s, w, h, x, y);
  }
}
