# html2pdf convert-to-pdf endpoint, modelled in Dafny

The endpoint `POST /api/convert-to-pdf` of the html2pdf front end takes a web
address and a CSS selector. It opens the page in a headless browser. On the
ICBC careers site it first logs in, which needs a CAPTCHA read by OCR. It then
finds the element, screenshots it and writes a one-page PDF around the
screenshot. It answers with a download link, or with an HTTP error status.

The model covers the logic of that endpoint in
`front-pc/pages/api/convert-to-pdf.js`:

- `outcomes.dfy` (module `Outcomes`): shared `Option`/`Result`/`Error` types
  and the substring test behind `includes` and `indexOf(...) !== -1`.
- `raster.dfy` (module `Raster`): RGBA buffers and the 2-pixel crop of the
  CAPTCHA screenshot.
- `scan.dfy` (module `CaptchaScan`): the cleaning scan. It runs in place over
  an `array<int>`, row by row and left to right. It is proved equal to a
  specification (`Cleaned`), and that specification obeys a per-pixel rule.
  That rule says exactly which bytes the edge test sees: the pixel already
  brightened, its left neighbour already final, its right neighbour original.
- `recognition.dfy` (module `Recognition`): the CAPTCHA pipeline. It crops,
  cleans, asks the OCR engine, and removes all whitespace from the text.
- `login.dfy` (module `Login`): one login attempt as a sequence of browser
  actions that may each raise, and the `tryLogin` retry loop with its trace of
  actions.
- `assembly.dfy` (module `Assembly`): the page layout, and the PDF export with
  its temporary screenshot file over a `Disk` of files.
- `handler.dfy` (module `Handler`): the request handler. It covers the
  timestamp token, the refusals, the ICBC branch, the element lookup, the
  mapping of caught errors to 408/500, and the browser closed in `finally`.

The browser, the OCR engine, the clock and the file contents are parameters.
The browser is a `LoginPage` and a `Site` that say which step raises which
error and what each query returns. The OCR engine is a function from image to
text or error. The clock is the ISO timestamp string. The files are a map from
path to content.

## Model

| member | source | states |
|---|---|---|
| Outcomes.Contains | front-pc/pages/api/convert-to-pdf.js:327 | true exactly when the part occurs at some position of the text (`indexOf !== -1`, `includes`) |
| Outcomes.Truthy | front-pc/pages/api/convert-to-pdf.js:200 | `if (token)` on the TOKEN read from local storage, and `!value` on the request fields at :224: a missing string and the empty string are false; Login.AttemptFindsToken and Login.AttemptMissesToken split on it, and Handler.RefusedBeforeLaunch answers 400 on its negation |
| Raster.Crop | front-pc/pages/api/convert-to-pdf.js:32-45 | succeeds exactly when width and height both exceed 4; fails with the invalid-size error otherwise; the crop is (width-4) x (height-4) and its pixel (x, y) is the source pixel (x+2, y+2) |
| CaptchaScan.IntegerForms | front-pc/pages/api/convert-to-pdf.js:55-59 | the integer background test equals "mean brightness above 180 and chroma below 30"; the integer 1.5x and 1.8x values are the real products truncated and capped at 255 |
| CaptchaScan.IsBackground | front-pc/pages/api/convert-to-pdf.js:55-59 | the background test on integers; CaptchaScan.IntegerForms shows it equals the mean-above-180 and chroma-below-30 test, and CaptchaScan.WhiteByte that such pixels come out white |
| CaptchaScan.Enhance | front-pc/pages/api/convert-to-pdf.js:68-71 | a byte brightened by 1.5 (capped at 255) is still a byte |
| CaptchaScan.Boost | front-pc/pages/api/convert-to-pdf.js:75-78 | a byte boosted by 1.8 (capped at 255) is still a byte |
| CaptchaScan.IsEdgePixel | front-pc/pages/api/convert-to-pdf.js:103-110 | the edge test is false within two pixels of any border (the comparison of RGB sums it makes inside that band is stated, as the scan meets it, by CaptchaScan.CleanedPixel) |
| CaptchaScan.Repaint | front-pc/pages/api/convert-to-pdf.js:61-80 | background becomes white; other pixels are brightened by 1.5; edge pixels get the pre-scan bytes boosted by 1.8 instead |
| CaptchaScan.ScanStep | front-pc/pages/api/convert-to-pdf.js:49-81 | the callback at one pixel keeps the buffer length and changes no byte outside that pixel's red, green and blue |
| CaptchaScan.Scanned | front-pc/pages/api/convert-to-pdf.js:49-81 | the buffer after the callback has run on every pixel before (x, y) in row-major order keeps its length; its other properties are CaptchaScan.ScannedFrame, CaptchaScan.ScannedSettles and CaptchaScan.ScannedStaysBytes |
| CaptchaScan.Cleaned | front-pc/pages/api/convert-to-pdf.js:49-81 | the buffer after the whole scan; CaptchaScan.CleanedPixel states the rule each of its pixels obeys and CaptchaScan.CleanInPlace that the in-place scan produces it |
| CaptchaScan.ScannedFrame | front-pc/pages/api/convert-to-pdf.js:49-81 | bytes of pixels the scan has not reached yet, and every alpha byte, are still the original ones |
| CaptchaScan.ScannedSettles | front-pc/pages/api/convert-to-pdf.js:49-81 | once the scan has passed a pixel, later steps never change that pixel's bytes |
| CaptchaScan.CleanedPixel | front-pc/pages/api/convert-to-pdf.js:49-81 | every pixel of the cleaned buffer obeys the per-pixel rule: alpha kept, background white, else 1.5x, or 1.8x of the original when the edge test fired on (pixel at 1.5x, left neighbour final, right neighbour original) |
| CaptchaScan.VisitPixel | front-pc/pages/api/convert-to-pdf.js:49-80 | the callback run on the live array leaves exactly the buffer of one scan step |
| CaptchaScan.ScanRow | front-pc/pages/api/convert-to-pdf.js:49-81 | one row of the in-place scan, left to right, takes the buffer from "rows above done" to "this row done" |
| CaptchaScan.CleanInPlace | front-pc/pages/api/convert-to-pdf.js:49-81 | the in-place scan over the whole array leaves exactly the cleaned buffer |
| CaptchaScan.ScannedStaysBytes | front-pc/pages/api/convert-to-pdf.js:49-81 | a buffer of bytes stays a buffer of bytes through the scan |
| CaptchaScan.WhiteByte | front-pc/pages/api/convert-to-pdf.js:55-66 | a background pixel's red, green and blue bytes come out 255 and its alpha byte is kept |
| CaptchaScan.AllBackgroundTurnsWhite | front-pc/pages/api/convert-to-pdf.js:55-66 | an image made only of background comes out all white, with alpha kept |
| CaptchaScan.BorderPixelsOnlyEnhanced | front-pc/pages/api/convert-to-pdf.js:104-110 | non-background pixels within two pixels of the border are brightened by 1.5 and never edge-boosted |
| Recognition.IsWhitespace | front-pc/pages/api/convert-to-pdf.js:93 | the characters of the JavaScript `\s` class (ASCII blanks, no-break space, Unicode space separators, line and paragraph separators, byte-order mark); Recognition.StripWhitespace and Recognition.StripKeeps remove exactly these |
| Recognition.StripWhitespace | front-pc/pages/api/convert-to-pdf.js:93 | the result holds no whitespace character of the JavaScript `\s` class and is no longer than the text |
| Recognition.StripKeeps | front-pc/pages/api/convert-to-pdf.js:93 | every non-whitespace character survives as often as it occurs; no whitespace does |
| Recognition.StripAppend | front-pc/pages/api/convert-to-pdf.js:93 | stripping distributes over concatenation, so the kept characters stay in their order |
| Recognition.StripClean | front-pc/pages/api/convert-to-pdf.js:93 | text without whitespace is returned unchanged |
| Recognition.StripIdempotent | front-pc/pages/api/convert-to-pdf.js:93 | stripping twice equals stripping once |
| Recognition.OcrInput | front-pc/pages/api/convert-to-pdf.js:11-84 | a missing element fails with "Captcha element not found"; a failed screenshot fails with its error; the OCR input exists exactly when the screenshot exceeds 4 pixels each way, and is the crop's size |
| Recognition.Recognize | front-pc/pages/api/convert-to-pdf.js:9-100 | recognised text holds no whitespace |
| Recognition.RecognizeSucceeds | front-pc/pages/api/convert-to-pdf.js:9-100 | recognition succeeds exactly when the element is there, its screenshot exceeds 4 pixels each way and the OCR engine reads the cleaned crop; the text is the engine's text without whitespace |
| Recognition.RecognizeFailures | front-pc/pages/api/convert-to-pdf.js:13-40 | a missing element and an undersized screenshot fail with their own errors, before the OCR engine |
| Recognition.RecognizeCaptcha | front-pc/pages/api/convert-to-pdf.js:9-100 | the pipeline run on a copied array cleaned in place gives exactly the recognition result |
| Login.Perform | front-pc/pages/api/convert-to-pdf.js:173-198 | actions run in order until the first that raises; the run completes exactly when none raises, and on a raise its error is the first raising action's |
| Login.Attempt | front-pc/pages/api/convert-to-pdf.js:170-210 | one pass of the loop body: clear, type account and password, wait, read the CAPTCHA afresh, type the code, click, read the TOKEN, clear again when it is missing; characterised by Login.AttemptFollowsPlan, Login.AttemptFindsToken, Login.AttemptMissesToken, Login.AttemptRaises and Login.AttemptReadsFreshCaptcha |
| Login.AttemptFollowsPlan | front-pc/pages/api/convert-to-pdf.js:173-206 | an attempt's actions are a prefix of clear, account, password, wait, read CAPTCHA, type code, click, read TOKEN, clear |
| Login.AttemptFindsToken | front-pc/pages/api/convert-to-pdf.js:173-203 | an attempt finds the TOKEN exactly when the CAPTCHA is read, no action up to the TOKEN read raises and the TOKEN is non-empty; it then performed the first eight planned actions |
| Login.AttemptMissesToken | front-pc/pages/api/convert-to-pdf.js:173-206 | an attempt ends without a TOKEN exactly when nothing raises and the TOKEN is missing or empty; it then performed the whole plan, clearing the form again |
| Login.AttemptRaises | front-pc/pages/api/convert-to-pdf.js:173-210 | an attempt raises the error of the first browser action that raises, every earlier action having passed (and the CAPTCHA having been read when that action comes after the reading), or the CAPTCHA recognition error after the first four actions passed |
| Login.AttemptReadsFreshCaptcha | front-pc/pages/api/convert-to-pdf.js:183-190 | a code is typed only as action 5, right after the CAPTCHA read, and it is that CAPTCHA's recognised text |
| Login.Retry | front-pc/pages/api/convert-to-pdf.js:169-212 | the loop makes at most maxAttempts attempts (none when maxAttempts <= 0) and records each attempt's actions, in order |
| Login.Login | front-pc/pages/api/convert-to-pdf.js:142-213 | `tryLogin` on a login page: the retry loop over that page's attempts, characterised by Login.LoggedInWhenTokenFound, Login.ThrowsOnlyAtLastAttempt, Login.NotLoggedInWhenLastMisses, Login.SingleAttempt and Login.LoginReadsFreshCaptchas, and run by Login.TryLogin |
| Login.LoggedInWhenTokenFound | front-pc/pages/api/convert-to-pdf.js:200-202 | the loop returns true exactly when some attempt finds a TOKEN, and stops at the first such attempt |
| Login.ThrowsOnlyAtLastAttempt | front-pc/pages/api/convert-to-pdf.js:207-210 | the loop rethrows only the error raised by attempt number maxAttempts |
| Login.NotLoggedInWhenLastMisses | front-pc/pages/api/convert-to-pdf.js:169-212 | the loop returns false exactly when it makes no attempt, or no attempt finds a TOKEN and the last one ends without raising; it returns false only after the whole budget of maxAttempts attempts is spent |
| Login.SingleAttempt | front-pc/pages/api/convert-to-pdf.js:341-350 | with maxAttempts = 1 the result is the single attempt's outcome: true, false, or its error rethrown |
| Login.LoginReadsFreshCaptchas | front-pc/pages/api/convert-to-pdf.js:183-190 | every code typed in a run is the recognised text of its own attempt's CAPTCHA, read right before it |
| Login.TryLogin | front-pc/pages/api/convert-to-pdf.js:142-213 | the counter loop with three exits gives exactly the result, attempt count and trace of the retry loop |
| Assembly.PageLayout | front-pc/pages/api/convert-to-pdf.js:430-442 | the page is the box plus 20 on the left and 20 on the right, as high as the box; the image is drawn at the box's size with no space above or below |
| Assembly.LayoutFits | front-pc/pages/api/convert-to-pdf.js:430-442 | for a box of non-negative size the image lies on the page, centred horizontally, and the page area is the box area plus the two margin strips |
| Assembly.PathsDiffer | front-pc/pages/api/convert-to-pdf.js:389-412 | the PDF path and the temporary screenshot path of one request differ |
| Assembly.AfterShotFault | front-pc/pages/api/convert-to-pdf.js:421-446 | the error of the first of read, embed, save and write that fails, and none exactly when all pass |
| Assembly.Export | front-pc/pages/api/convert-to-pdf.js:414-457 | the assembly block with its catch on the files before it; characterised by Assembly.ExportCleansUp, Assembly.ExportRethrows, Assembly.ExportWritesPdf and Assembly.ExportLeavesOthers, and run by Assembly.ExportElement |
| Assembly.ExportCleansUp | front-pc/pages/api/convert-to-pdf.js:414-457 | after the assembly, completed or failed, the temporary screenshot does not exist |
| Assembly.ExportRethrows | front-pc/pages/api/convert-to-pdf.js:414-457 | the assembly succeeds exactly when every step does; otherwise it rethrows the error of the first step that failed, in the order screenshot, read, embed, save, write |
| Assembly.ExportWritesPdf | front-pc/pages/api/convert-to-pdf.js:435-446 | on success the PDF holds the screenshot on the laid-out page; on failure the PDF path is as it was |
| Assembly.ExportLeavesOthers | front-pc/pages/api/convert-to-pdf.js:414-457 | no file other than the PDF and the temporary screenshot changes |
| Assembly.ExportElement | front-pc/pages/api/convert-to-pdf.js:414-457 | the imperative block with its catch gives exactly the export result and files, and leaves no temporary screenshot |
| Handler.TimestampToken | front-pc/pages/api/convert-to-pdf.js:325 | the token has the timestamp's length; each colon and full stop becomes a hyphen and every other character is kept in place |
| Handler.TokenIsFileSafe | front-pc/pages/api/convert-to-pdf.js:325 | the token holds no colon and no full stop |
| Handler.TokenIdempotent | front-pc/pages/api/convert-to-pdf.js:325 | making a token of a token changes nothing |
| Handler.IsIcbc | front-pc/pages/api/convert-to-pdf.js:327 | the address contains `job.icbc.com.cn`, through Outcomes.Contains; Handler.IcbcLogsInOnce and Handler.ReachesElement use it |
| Handler.ErrorStatus | front-pc/pages/api/convert-to-pdf.js:472-482 | a caught error answers 408 exactly when its message contains "Timeout", and 500 otherwise |
| Handler.Reply | front-pc/pages/api/convert-to-pdf.js:393-482 | 404 exactly for a missing element, 200 exactly for a written PDF with a link naming it, and 408/500 exactly for a caught error |
| Handler.Locate | front-pc/pages/api/convert-to-pdf.js:393-406 | the element is ready, with the box the browser reported, exactly when the wait passes, `page.$` finds the element and `boundingBox` returns a box; the lookup ends in 404 exactly when the wait passes and `page.$` finds nothing; otherwise it throws the error of the first of the wait, `page.$` and `boundingBox` that raises, or the invisible-element error for a `null` box |
| Handler.Prepare | front-pc/pages/api/convert-to-pdf.js:244-406 | the work from the new page to the assembly, with the ICBC login (budget 1, false throws) and the element lookup; characterised by Handler.NotFoundOnlyForMissingElement, Handler.CaughtErrors and Handler.IcbcLogsInOnce |
| Handler.Job | front-pc/pages/api/convert-to-pdf.js:244-471 | the body of the handler's try once the browser is up, ending in 404, a thrown error or a written PDF; run by Handler.RunJob |
| Handler.Handled | front-pc/pages/api/convert-to-pdf.js:216-487 | the whole handler: answer, whether a browser was launched, and the files afterwards; characterised by the Handler lemmas below and run by Handler.Handle |
| Handler.RefusedBeforeLaunch | front-pc/pages/api/convert-to-pdf.js:216-228 | a non-POST request answers 405 and a POST without address or selector answers 400; both launch no browser and touch no file |
| Handler.StatusesKnown | front-pc/pages/api/convert-to-pdf.js:216-487 | the handler answers 200, 400, 404, 405, 408 or 500 |
| Handler.NotFoundOnlyForMissingElement | front-pc/pages/api/convert-to-pdf.js:393-399 | the answer is 404 exactly when every step up to the element passes and the selector matches nothing |
| Handler.SucceedsOnlyWhenAllStepsPass | front-pc/pages/api/convert-to-pdf.js:229-471 | the answer is 200 exactly when every step passes, the ICBC login included, the element has a box and the export succeeds |
| Handler.SuccessLinksPdf | front-pc/pages/api/convert-to-pdf.js:467-471 | on success the link is /api/download?file=<token>.pdf and that PDF holds the screenshot on the laid-out page |
| Handler.CaughtErrors | front-pc/pages/api/convert-to-pdf.js:472-482 | a failed launch, and any error raised before the assembly, answer with that error's status |
| Handler.NoTimeoutWithoutT | front-pc/pages/api/convert-to-pdf.js:349 | a message without a capital T does not contain "Timeout" |
| Handler.IcbcLogsInOnce | front-pc/pages/api/convert-to-pdf.js:327-350 | on the ICBC site the login makes exactly one attempt; an attempt without a TOKEN answers 500, an attempt that raises answers for its error, and neither writes a file |
| Handler.NoTemporaryLeft | front-pc/pages/api/convert-to-pdf.js:412-457 | among the files of the model (the CAPTCHA images are not among them), the handler leaves no temporary element screenshot that was not there before, and changes no file other than the PDF and that screenshot |
| Handler.PdfOnlyOnSuccess | front-pc/pages/api/convert-to-pdf.js:224-482 | on every answer other than 200 (a refusal, a 404, a failed login, a failed assembly) the request's PDF path is as it was: no PDF is written or changed |
| Handler.RunJob | front-pc/pages/api/convert-to-pdf.js:244-471 | the body of the handler's try, run step by step, ends and leaves the files exactly as the job specification says |
| Handler.Handle | front-pc/pages/api/convert-to-pdf.js:216-487 | the handler gives exactly the specified answer, launch flag and files, and a launched browser is closed on every path |

## Left out

- Outcomes.Truthy: the request fields are taken to be strings or absent. A JSON body whose `websiteUrl` is a non-string truthy value, such as a number, passes the `!websiteUrl` test and then makes `websiteUrl.indexOf` (front-pc/pages/api/convert-to-pdf.js:327) throw, which the catch answers with 500; the model has no such request.
- Puppeteer: launching, navigation, typing, clicking, the waits and their timeouts, screenshots and `boundingBox`. Each step is an abstract outcome, either an error or a returned value. There is no timing, no concurrency, and no `slowMo` or viewport size; a rejection of `page.setViewport` (front-pc/pages/api/convert-to-pdf.js:246) is folded into the outcome of `browser.newPage()`, the step before it, and is answered by the catch like any other error.
- The OCR engine (tesseract.js) is an uninterpreted function from the cleaned image to text or an error. Creating and terminating its worker is not modelled.
- The PNG decoding and encoding of sharp and Jimp, `image.write` of the cleaned CAPTCHA, and the PDF encoding of pdf-lib are foreign binary formats. The model keeps the decoded RGBA buffer, the crop region, the scan, and the page size and position. A PDF file is modelled as its layout and the embedded PNG bytes.
- `fs.mkdirSync` and `fs.existsSync` for the directories, and `process.cwd()`, are not modelled. Paths are relative to the working directory.
- `res.status().json()` plumbing and console logging are not modelled.
- The commented-out header and token code is dead, and is not modelled.
- `front-pc/pages/api/download.js`, `front-pc/pages/index.js`, `front-pc/pages/_app.js` and `front-pc/next.config.mjs` are not part of this model.
- The pixel arithmetic is on integers. The background test and the 1.5x/1.8x products are their exact integer forms for bytes (`CaptchaScan.IntegerForms`); other floating-point behaviour is not modelled.
- The bounding box is real-valued, and JavaScript floating-point rounding of `box.width + 40` is not modelled.
- `clickButton` and `clearInputs` are single actions that may raise. Their internal waits are not modelled separately.
- The scan order, rows top to bottom and each row left to right, is Jimp's `scan` order. It is an assumption about a library outside the source.
- Assembly.ExportElement: `unlinkSync` and `existsSync` never fail. A failing unlink after a successful write, which the catch would then retry, is not modelled. A failing write leaves the PDF path as it was: a PDF already there is kept unchanged, and none is created; a partly written PDF is not modelled.
- pdf-lib calls: `PDFDocument.create`, `addPage`, `embedPng` and `drawImage` share one outcome, `embed`; whichever of them raises first, the assembly rethrows that error after the read, and nothing else differs between them.
- Handler.Handle: an unhandled rejection of the navigation wait after a failed `goto` is not modelled. `page.type` with an absent username or password is modelled as typing the given text.
- Handler.Handle: a thrown value without a `message` is not modelled; every caught error carries a message.
- Handler.NoTemporaryLeft: on the ICBC path every attempt's CAPTCHA reading writes `temp/captchas/captcha<token>.png` and `temp/captchas/out-captcha<token>.png`, and nothing removes them; these two files are not in the model, so the lemma speaks only of the element's screenshot, the PDF and the files already there.
- Login.Login: the default budget `maxAttempts = 2` of `tryLogin` is not modelled; the budget is always passed, and the only caller passes 1.
- Recognition.RecognizeCaptcha: the default `imagePath` argument of `recognizeCaptcha` only names the CAPTCHA files, which are not modelled.
- Login.Retry: the `timestamp` argument of `tryLogin` only names the CAPTCHA image files, and is not modelled.

Two behaviours of the code worth noting:

- The handler rejects only a missing bounding box (`null`), although its error message `元素不可见或尺寸为0` (front-pc/pages/api/convert-to-pdf.js:405, "element invisible or of size 0") also speaks of a zero size. A box of zero width or height goes on to the assembly.
- The edge test of a pixel reads the buffer the scan is rewriting. It sees the pixel already brightened by 1.5 and its left neighbour already final; only the right neighbour is as originally read. The boost itself uses the pixel's pre-scan bytes.
