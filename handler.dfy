/** The convert-to-pdf endpoint: it checks the request, launches a headless
    browser, opens the page (logging in first on the ICBC careers site),
    finds the element, turns its screenshot into a PDF and answers with a
    download link, mapping every failure on the way to an HTTP status and
    closing the browser on every path once it was launched. */
module Handler {
  import opened Outcomes
  import Login
  import opened Assembly

  /** `toISOString().replace(/[:.]/g, '-')`: the timestamp with every colon
      and every full stop turned into a hyphen, so that it can name files. */
  function TimestampToken(iso: string): (token: string)
    ensures |token| == |iso|
    ensures forall i :: 0 <= i < |iso| ==>
      token[i] == if iso[i] == ':' || iso[i] == '.' then '-' else iso[i]
  {
    if iso == [] then []
    else [if iso[0] == ':' || iso[0] == '.' then '-' else iso[0]] + TimestampToken(iso[1..])
  }

  /** The token holds no colon and no full stop; every other character of
      the timestamp stays where it was. */
  lemma TokenIsFileSafe(iso: string)
    ensures var token := TimestampToken(iso);
            forall i :: 0 <= i < |token| ==> token[i] != ':' && token[i] != '.'
                                             && (iso[i] != ':' && iso[i] != '.' ==> token[i] == iso[i])
  {
  }

  /** Making a token of a token changes nothing. */
  lemma {:induction false} TokenIdempotent(iso: string)
    ensures TimestampToken(TimestampToken(iso)) == TimestampToken(iso)
  {
    if iso != [] {
      TokenIdempotent(iso[1..]);
      assert TimestampToken(iso)[1..] == TimestampToken(iso[1..]);
    }
  }

  /** The body of the POST request; a field the client left out is `None`. */
  datatype Request = Request(
    httpMethod: string,
    username: string,
    password: string,
    websiteUrl: Option<string>,
    selector: Option<string>)

  /** Addresses containing this text get the ICBC login and resume steps. */
  const IcbcHost := "job.icbc.com.cn"

  predicate IsIcbc(url: string)
  {
    Contains(url, IcbcHost)
  }

  /** What the browser meets on its way, step by step: an error for a step
      that raises, or what a step hands back. `openPage` stands for
      `browser.newPage()` and the `setViewport` call after it, the error
      being that of the first to raise, `navigate` for the
      page load (and, off the ICBC site, the navigation wait), `openLogin`
      for the click on the home page's login button, `toResume` for the two
      clicks to the resume preview and the wait for its photo, and
      `awaitElement` for the 3-second wait for the selector, `element` for
      `page.$(selector)` (false when nothing matches) and `box` for
      `boundingBox()` (`None` for `null`). */
  datatype Site = Site(
    launch: Option<Error>,
    openPage: Option<Error>,
    navigate: Option<Error>,
    openLogin: Option<Error>,
    login: Login.LoginPage,
    toResume: Option<Error>,
    awaitElement: Option<Error>,
    element: Result<bool>,
    box: Result<Option<Box>>,
    assembly: ExportSteps)

  const LoginFailed := Error("登录失败，已达最大重试次数")
  const InvisibleElement := Error("元素不可见或尺寸为0")

  /** How the body of the handler's `try` ends: returning 404 for a missing
      element, throwing, or having written the PDF of the given name. */
  datatype JobEnd = NotFound | Aborted(error: Error) | Saved(pdfName: string)

  /** The JSON answer: a refusal before any work, a failure, or the link
      to the PDF. */
  datatype Body = Refusal(error: string) | Failed(message: string) | Created(pdfUrl: string, message: string)

  datatype Response = Response(status: int, body: Body)

  const MethodNotAllowed := Response(405, Refusal("Method not allowed"))
  const MissingParameters := Response(400, Refusal("Missing required parameters: websiteUrl and selector"))

  /** The status for an error the handler catches. */
  function ErrorStatus(e: Error): (status: int)
    ensures status == 408 <==> Contains(e.message, "Timeout")
    ensures status == 408 || status == 500
  {
    if Contains(e.message, "Timeout") then 408 else 500
  }

  /** The answer for the way the work ended. */
  function Reply(end: JobEnd, selector: string): (response: Response)
    ensures end.NotFound? <==> response.status == 404
    ensures end.Saved? <==> response.status == 200
    ensures end.Aborted? <==> response.status in {408, 500}
    ensures end.Aborted? ==> response.status == ErrorStatus(end.error)
    ensures end.Saved? ==> response.body.Created? && response.body.pdfUrl == "/api/download?file=" + end.pdfName
  {
    match end
    case NotFound => Response(404, Failed("未找到元素: " + selector))
    case Aborted(e) =>
      if ErrorStatus(e) == 408 then Response(408, Failed("Timeout waiting for element"))
      else Response(500, Failed("Failed to generate PDF"))
    case Saved(name) => Response(200, Created("/api/download?file=" + name, "PDF生成成功，请通过链接下载"))
  }

  /** Where the work stands when the assembly is about to start: stopped
      with the way it ended, or ready with the element's bounding box. */
  datatype Reached = Stopped(end: JobEnd) | Ready(box: Box)

  /** Finding the element once the page is open. */
  function Locate(site: Site): (r: Reached)
    ensures r.Ready? <==> site.awaitElement.None? && site.element == Success(true) && Measured(site)
    ensures r.Ready? ==> r.box == site.box.value.value
    ensures r == Stopped(NotFound) <==> site.awaitElement.None? && site.element == Success(false)
    ensures site.awaitElement.Some? ==> r == Stopped(Aborted(site.awaitElement.value))
    ensures site.awaitElement.None? && site.element.Failure? ==> r == Stopped(Aborted(site.element.error))
    ensures site.awaitElement.None? && site.element == Success(true) && site.box.Failure? ==>
              r == Stopped(Aborted(site.box.error))
    ensures site.awaitElement.None? && site.element == Success(true) && site.box == Success(None) ==>
              r == Stopped(Aborted(InvisibleElement))
  {
    if site.awaitElement.Some? then Stopped(Aborted(site.awaitElement.value))
    else if site.element.Failure? then Stopped(Aborted(site.element.error))
    else if !site.element.value then Stopped(NotFound)
    else if site.box.Failure? then Stopped(Aborted(site.box.error))
    else if site.box.value.None? then Stopped(Aborted(InvisibleElement))
    else Ready(site.box.value.value)
  }

  /** The element's bounding box was read and is not `null`. */
  predicate Measured(site: Site)
  {
    site.box.Success? && site.box.value.Some?
  }

  /** The work from the new page up to the assembly, on the ICBC site with
      the login that may fail after its single attempt. */
  function Prepare(request: Request, site: Site): Reached
    requires request.websiteUrl.Some?
  {
    if site.openPage.Some? then Stopped(Aborted(site.openPage.value))
    else if site.navigate.Some? then Stopped(Aborted(site.navigate.value))
    else if IsIcbc(request.websiteUrl.value) then
      if site.openLogin.Some? then Stopped(Aborted(site.openLogin.value))
      else match Login.Login(site.login, request.username, request.password, 1).result
        case Threw(e) => Stopped(Aborted(e))
        case NotLoggedIn => Stopped(Aborted(LoginFailed))
        case LoggedIn =>
          if site.toResume.Some? then Stopped(Aborted(site.toResume.value))
          else Locate(site)
    else Locate(site)
  }

  /** How the work ends and the files afterwards. */
  datatype JobRun = JobRun(end: JobEnd, files: map<string, FileContent>)

  /** The body of the handler's `try` once the browser is up. */
  function Job(request: Request, site: Site, token: string, files: map<string, FileContent>): JobRun
    requires request.websiteUrl.Some?
  {
    match Prepare(request, site)
    case Stopped(end) => JobRun(end, files)
    case Ready(box) =>
      var exported := Export(files, site.assembly, box, token);
      if exported.error.Some? then JobRun(Aborted(exported.error.value), exported.files)
      else JobRun(Saved(PdfName(token)), exported.files)
  }

  /** The answer, whether a browser was launched, and the files afterwards. */
  datatype Handling = Handling(response: Response, launched: bool, files: map<string, FileContent>)

  /** The handler on a request, the site, the clock's ISO timestamp and
      the files before it. */
  function Handled(request: Request, site: Site, now: string, files: map<string, FileContent>): Handling
  {
    if request.httpMethod != "POST" then Handling(MethodNotAllowed, false, files)
    else if !Truthy(request.websiteUrl) || !Truthy(request.selector) then Handling(MissingParameters, false, files)
    else if site.launch.Some? then Handling(Reply(Aborted(site.launch.value), request.selector.value), false, files)
    else
      var job := Job(request, site, TimestampToken(now), files);
      Handling(Reply(job.end, request.selector.value), true, job.files)
  }

  /** A request that is not a POST, or lacks the address or the selector,
      is refused before any browser is launched and leaves the files alone. */
  lemma RefusedBeforeLaunch(request: Request, site: Site, now: string, files: map<string, FileContent>)
    ensures var h := Handled(request, site, now, files);
            && (request.httpMethod != "POST" ==> h.response.status == 405)
            && ((request.httpMethod == "POST" && (!Truthy(request.websiteUrl) || !Truthy(request.selector)))
                  ==> h.response.status == 400)
            && (h.response.status in {400, 405} ==> !h.launched && h.files == files)
  {
  }

  /** The handler answers with one of six statuses. */
  lemma StatusesKnown(request: Request, site: Site, now: string, files: map<string, FileContent>)
    ensures Handled(request, site, now, files).response.status in {200, 400, 404, 405, 408, 500}
  {
  }

  /** The steps a request goes through without raising on its way to the
      element, the ICBC login included. */
  predicate ReachesElement(request: Request, site: Site)
  {
    && request.httpMethod == "POST" && Truthy(request.websiteUrl) && Truthy(request.selector)
    && site.launch.None? && site.openPage.None? && site.navigate.None?
    && (IsIcbc(request.websiteUrl.value) ==>
          && site.openLogin.None?
          && Login.Login(site.login, request.username, request.password, 1).result.LoggedIn?
          && site.toResume.None?)
    && site.awaitElement.None?
  }

  /** The answer is 404 exactly when every step up to the element passes
      and the selector matches nothing. */
  lemma NotFoundOnlyForMissingElement(request: Request, site: Site, now: string, files: map<string, FileContent>)
    ensures Handled(request, site, now, files).response.status == 404 <==>
              ReachesElement(request, site) && site.element == Success(false)
  {
  }

  /** The answer is 200 exactly when every step passes. */
  lemma SucceedsOnlyWhenAllStepsPass(request: Request, site: Site, now: string, files: map<string, FileContent>)
    ensures Handled(request, site, now, files).response.status == 200 <==>
              && ReachesElement(request, site) && site.element == Success(true) && Measured(site)
              && Export(files, site.assembly, site.box.value.value, TimestampToken(now)).error.None?
  {
  }

  /** On success the PDF holds the screenshot on the laid-out page, and
      the answer links to it by the request's timestamp token. */
  lemma SuccessLinksPdf(request: Request, site: Site, now: string, files: map<string, FileContent>)
    requires Handled(request, site, now, files).response.status == 200
    ensures var h := Handled(request, site, now, files);
            var token := TimestampToken(now);
            && h.response.body == Created("/api/download?file=" + token + ".pdf", "PDF生成成功，请通过链接下载")
            && Measured(site)
            && PdfPath(token) in h.files
            && h.files[PdfPath(token)] == Pdf(PageLayout(site.box.value.value), site.assembly.shot)
  {
    var token := TimestampToken(now);
    SucceedsOnlyWhenAllStepsPass(request, site, now, files);
    ExportWritesPdf(files, site.assembly, site.box.value.value, token);
  }

  /** An error caught by the handler answers 408 when its message mentions
      a timeout and 500 otherwise. */
  lemma CaughtErrors(request: Request, site: Site, now: string, files: map<string, FileContent>)
    requires request.httpMethod == "POST" && Truthy(request.websiteUrl) && Truthy(request.selector)
    ensures var h := Handled(request, site, now, files);
            && (site.launch.Some? ==> h.response.status == ErrorStatus(site.launch.value))
            && ((site.launch.None? && Prepare(request, site).Stopped? && Prepare(request, site).end.Aborted?)
                  ==> h.response.status == ErrorStatus(Prepare(request, site).end.error))
  {
  }

  /** A message without a capital T cannot mention "Timeout". */
  lemma NoTimeoutWithoutT(message: string)
    requires forall i :: 0 <= i < |message| ==> message[i] != 'T'
    ensures !Contains(message, "Timeout")
  {
    forall i
      ensures !OccursAt(message, "Timeout", i)
    {
      if 0 <= i <= |message| - 7 {
        assert message[i..i + 7][0] == message[i];
      }
    }
  }

  /** On the ICBC site the login makes exactly one attempt: an attempt that
      ends without a TOKEN makes the handler answer 500, and an attempt that
      raises makes it answer for that error. */
  lemma IcbcLogsInOnce(request: Request, site: Site, now: string, files: map<string, FileContent>)
    requires request.httpMethod == "POST" && Truthy(request.websiteUrl) && Truthy(request.selector)
    requires IsIcbc(request.websiteUrl.value)
    requires site.launch.None? && site.openPage.None? && site.navigate.None? && site.openLogin.None?
    ensures var attempt := Login.Attempt(site.login, request.username, request.password, 1);
            var h := Handled(request, site, now, files);
            && Login.Login(site.login, request.username, request.password, 1).attempts == 1
            && (attempt.outcome.TokenMissing? ==> h.response.status == 500)
            && (attempt.outcome.Raised? ==> h.response.status == ErrorStatus(attempt.outcome.error))
            && (!attempt.outcome.TokenFound? ==> h.files == files)
  {
    Login.SingleAttempt(site.login, request.username, request.password);
    NoTimeoutWithoutT(LoginFailed.message);
  }

  /** Of the files this model keeps (the element's screenshot and the
      PDF, not the CAPTCHA images of the login), the handler leaves no
      temporary screenshot behind that was not there before, and changes
      none other than the PDF and the screenshot of this request. */
  lemma NoTemporaryLeft(request: Request, site: Site, now: string, files: map<string, FileContent>, path: string)
    ensures var h := Handled(request, site, now, files);
            TempImagePath(TimestampToken(now)) in h.files ==> TempImagePath(TimestampToken(now)) in files
    ensures var h := Handled(request, site, now, files);
            var token := TimestampToken(now);
            path != PdfPath(token) && path != TempImagePath(token) ==>
              (path in h.files <==> path in files) && (path in files ==> h.files[path] == files[path])
  {
    var token := TimestampToken(now);
    if request.httpMethod == "POST" && Truthy(request.websiteUrl) && Truthy(request.selector)
       && site.launch.None? && Prepare(request, site).Ready?
    {
      var box := Prepare(request, site).box;
      ExportCleansUp(files, site.assembly, box, token);
      if path != PdfPath(token) && path != TempImagePath(token) {
        ExportLeavesOthers(files, site.assembly, box, token, path);
      }
    }
  }

  /** Only a 200 answer writes the PDF: on every other answer, a refusal,
      a 404, a failed login or a failed assembly, the PDF path of the
      request's token is as it was. */
  lemma PdfOnlyOnSuccess(request: Request, site: Site, now: string, files: map<string, FileContent>)
    ensures var h := Handled(request, site, now, files);
            var pdf := PdfPath(TimestampToken(now));
            h.response.status != 200 ==>
              (pdf in h.files <==> pdf in files) && (pdf in files ==> h.files[pdf] == files[pdf])
  {
    if request.httpMethod == "POST" && Truthy(request.websiteUrl) && Truthy(request.selector)
       && site.launch.None? && Prepare(request, site).Ready?
    {
      ExportWritesPdf(files, site.assembly, Prepare(request, site).box, TimestampToken(now));
    }
  }

  /** The headless browser, open from its launch until it is closed. */
  class Browser {
    var open: bool

    constructor ()
      ensures open
    {
      open := true;
    }

    method Close()
      modifies this
      ensures !open
    {
      open := false;
    }
  }

  /** The body of the handler's `try` as it runs, once the browser is up. */
  method RunJob(request: Request, site: Site, token: string, disk: Disk) returns (end: JobEnd)
    requires request.websiteUrl.Some?
    modifies disk
    ensures JobRun(end, disk.files) == Job(request, site, token, old(disk.files))
  {
    if site.openPage.Some? {
      return Aborted(site.openPage.value);
    }
    if site.navigate.Some? {
      return Aborted(site.navigate.value);
    }
    if IsIcbc(request.websiteUrl.value) {
      if site.openLogin.Some? {
        return Aborted(site.openLogin.value);
      }
      var loginSuccess, attempts, trace := Login.TryLogin(site.login, request.username, request.password, 1);
      match loginSuccess {
        case Threw(e) =>
          return Aborted(e);
        case NotLoggedIn =>
          return Aborted(LoginFailed);
        case LoggedIn =>
      }
      if site.toResume.Some? {
        return Aborted(site.toResume.value);
      }
    }
    if site.awaitElement.Some? {
      return Aborted(site.awaitElement.value);
    }
    if site.element.Failure? {
      return Aborted(site.element.error);
    }
    if !site.element.value {
      return NotFound;
    }
    if site.box.Failure? {
      return Aborted(site.box.error);
    }
    if site.box.value.None? {
      return Aborted(InvisibleElement);
    }
    var error := ExportElement(disk, site.assembly, site.box.value.value, token);
    if error.Some? {
      return Aborted(error.value);
    }
    return Saved(PdfName(token));
  }

  /** The handler as it runs: the refusals, then `try` with the browser
      launch and the work, `catch` with the status mapping, and `finally`
      closing the browser when there is one. */
  method Handle(request: Request, site: Site, now: string, disk: Disk) returns (response: Response, browser: Browser?)
    modifies disk
    ensures Handling(response, browser != null, disk.files) == Handled(request, site, now, old(disk.files))
    ensures browser != null ==> fresh(browser) && !browser.open
  {
    if request.httpMethod != "POST" {
      return MethodNotAllowed, null;
    }
    if !Truthy(request.websiteUrl) || !Truthy(request.selector) {
      return MissingParameters, null;
    }
    browser := null;
    var end: JobEnd;
    if site.launch.Some? {
      end := Aborted(site.launch.value);
    } else {
      browser := new Browser();
      var token := TimestampToken(now);
      end := RunJob(request, site, token, disk);
    }
    response := Reply(end, request.selector.value);
    if browser != null {
      browser.Close();
    }
  }
}
