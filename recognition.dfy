/** Reading the CAPTCHA of the login form: the element's screenshot is cut
    down by the 2-pixel inset, cleaned by the scan, handed to the OCR
    engine, and the recognised text loses every whitespace character. */
module Recognition {
  import opened Outcomes
  import opened Raster
  import opened CaptchaScan

  const ElementNotFound := Error("Captcha element not found")

  /** The characters of the JavaScript regular-expression class `\s`: the
      ASCII blanks, the no-break space, the Unicode space separators, the
      line and paragraph separators and the byte-order mark. */
  predicate IsWhitespace(c: char)
  {
    || c == '\t' || c == '\n' || c == '\U{000B}' || c == '\U{000C}' || c == '\r' || c == ' '
    || c == '\U{00A0}' || c == '\U{1680}' || ('\U{2000}' <= c <= '\U{200A}')
    || c == '\U{2028}' || c == '\U{2029}' || c == '\U{202F}' || c == '\U{205F}'
    || c == '\U{3000}' || c == '\U{FEFF}'
  }

  /** `text.replace(/\s+/g, '')`: every run of whitespace removed, the other
      characters kept in order. */
  function StripWhitespace(text: string): (t: string)
    ensures forall i :: 0 <= i < |t| ==> !IsWhitespace(t[i])
    ensures |t| <= |text|
  {
    if text == [] then []
    else if IsWhitespace(text[0]) then StripWhitespace(text[1..])
    else [text[0]] + StripWhitespace(text[1..])
  }

  /** Every character that is not whitespace survives, as often as it
      occurs in the text; no whitespace does. */
  lemma {:induction false} StripKeeps(text: string)
    ensures forall c :: multiset(StripWhitespace(text))[c] == if IsWhitespace(c) then 0 else multiset(text)[c]
  {
    if text != [] {
      StripKeeps(text[1..]);
      assert text == [text[0]] + text[1..];
    }
  }

  /** Removing whitespace from two pieces and joining them is removing it
      from the joined text. */
  lemma {:induction false} StripAppend(a: string, b: string)
    ensures StripWhitespace(a + b) == StripWhitespace(a) + StripWhitespace(b)
  {
    if a == [] {
      assert a + b == b;
    } else {
      assert (a + b)[0] == a[0];
      assert (a + b)[1..] == a[1..] + b;
      StripAppend(a[1..], b);
      if !IsWhitespace(a[0]) {
        assert [a[0]] + StripWhitespace(a[1..]) + StripWhitespace(b)
            == [a[0]] + (StripWhitespace(a[1..]) + StripWhitespace(b));
      }
    }
  }

  /** Text without whitespace is returned unchanged. */
  lemma {:induction false} StripClean(text: string)
    requires forall i :: 0 <= i < |text| ==> !IsWhitespace(text[i])
    ensures StripWhitespace(text) == text
  {
    if text != [] {
      StripClean(text[1..]);
    }
  }

  /** Removing whitespace twice is removing it once. */
  lemma StripIdempotent(text: string)
    ensures StripWhitespace(StripWhitespace(text)) == StripWhitespace(text)
  {
    StripClean(StripWhitespace(text));
  }

  /** What the page hands over for the CAPTCHA: no element for the
      selector, a screenshot that could not be taken or decoded, or the
      decoded screenshot. */
  datatype Capture = NoElement | ShotFailed(error: Error) | Shot(image: Image)

  /** The cleaned crop the OCR engine is given, or the error that stops
      the pipeline before it. */
  function OcrInput(capture: Capture): (r: Result<Image>)
    ensures capture.NoElement? ==> r == Failure(ElementNotFound)
    ensures capture.ShotFailed? ==> r == Failure(capture.error)
    ensures capture.Shot? ==> (r.Success? <==> capture.image.width > 4 && capture.image.height > 4)
    ensures r.Success? ==> (capture.Shot? &&
      r.value.width == capture.image.width - 2 * Inset && r.value.height == capture.image.height - 2 * Inset)
  {
    match capture
    case NoElement => Failure(ElementNotFound)
    case ShotFailed(e) => Failure(e)
    case Shot(image) =>
      match Crop(image)
      case Failure(e) => Failure(e)
      case Success(cropped) =>
        Success(Bitmap(cropped.width, cropped.height, Cleaned(cropped.data, cropped.width, cropped.height)))
  }

  /** The text recognised for a capture: the OCR engine's text with the
      whitespace removed, or the first error met on the way. */
  function Recognize(capture: Capture, ocr: Image -> Result<string>): (r: Result<string>)
    ensures r.Success? ==> forall i :: 0 <= i < |r.value| ==> !IsWhitespace(r.value[i])
  {
    match OcrInput(capture)
    case Failure(e) => Failure(e)
    case Success(input) =>
      match ocr(input)
      case Failure(e) => Failure(e)
      case Success(text) => Success(StripWhitespace(text))
  }

  /** Recognition succeeds exactly when the element is there, its
      screenshot decodes, it is more than 4 pixels wide and high, and the
      OCR engine reads the cleaned crop; the text is then the engine's
      text without whitespace. */
  lemma RecognizeSucceeds(capture: Capture, ocr: Image -> Result<string>)
    ensures Recognize(capture, ocr).Success? <==>
      capture.Shot? && capture.image.width > 2 * Inset && capture.image.height > 2 * Inset
      && ocr(OcrInput(capture).value).Success?
    ensures Recognize(capture, ocr).Success? ==>
      Recognize(capture, ocr).value == StripWhitespace(ocr(OcrInput(capture).value).value)
  {
  }

  /** A missing element and an undersized screenshot fail with the errors
      the pipeline raises for them, before the OCR engine is reached. */
  lemma RecognizeFailures(capture: Capture, ocr: Image -> Result<string>)
    ensures capture.NoElement? ==> Recognize(capture, ocr) == Failure(ElementNotFound)
    ensures capture.Shot? && (capture.image.width <= 2 * Inset || capture.image.height <= 2 * Inset) ==>
      Recognize(capture, ocr) == Failure(InvalidCropError)
  {
  }

  /** The pipeline as it runs: the crop is copied into a buffer, the scan
      cleans that buffer in place, and the OCR engine reads the result. */
  method RecognizeCaptcha(capture: Capture, ocr: Image -> Result<string>) returns (r: Result<string>)
    ensures r == Recognize(capture, ocr)
  {
    if capture.NoElement? {
      return Failure(ElementNotFound);
    }
    if capture.ShotFailed? {
      return Failure(capture.error);
    }
    var cut := Crop(capture.image);
    if cut.Failure? {
      return Failure(cut.error);
    }
    var cropped := cut.value;
    var data := new int[|cropped.data|](i requires 0 <= i < |cropped.data| => cropped.data[i]);
    assert data[..] == cropped.data;
    CleanInPlace(data, cropped.width, cropped.height);
    var input := Bitmap(cropped.width, cropped.height, data[..]);
    var text := ocr(input);
    if text.Failure? {
      return Failure(text.error);
    }
    return Success(StripWhitespace(text.value));
  }
}
