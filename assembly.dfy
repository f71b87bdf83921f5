/** Turning the captured element into a one-page PDF: the element's
    screenshot goes to a temporary PNG file, the PNG is drawn on a page 20
    units wider on each side than the element, the PDF is written next to
    it, and the temporary PNG is removed whether or not that succeeded. */
module Assembly {
  import opened Outcomes

  /** The element's bounding box as the browser reports it. */
  datatype Box = Box(x: real, y: real, width: real, height: real)

  /** A rectangle on the PDF page, origin at the bottom left corner. */
  datatype Rect = Rect(x: real, y: real, width: real, height: real)

  /** The page size and where the screenshot is drawn on it. */
  datatype Layout = Layout(pageWidth: real, pageHeight: real, image: Rect)

  /** Blank space left and right of the screenshot. */
  const Margin: real := 20.0

  /** The page is the box widened by the margin on both sides, as high as
      the box, with the screenshot drawn at the box's size between the
      margins and flush with the top and the bottom. */
  function PageLayout(box: Box): (l: Layout)
    ensures l.image.width == box.width && l.image.height == box.height
    ensures l.image.x == Margin && l.pageWidth - (l.image.x + l.image.width) == Margin
    ensures l.image.y == 0.0 && l.pageHeight - (l.image.y + l.image.height) == 0.0
  {
    var pageWidth := box.width + Margin * 2.0;
    var pageHeight := box.height;
    Layout(pageWidth, pageHeight, Rect(Margin, 0.0, box.width, box.height))
  }

  /** For a box of non-negative size the screenshot lies on the page,
      centred horizontally, and the page's area exceeds the box's by the
      two margin strips exactly. */
  lemma LayoutFits(box: Box)
    requires box.width >= 0.0 && box.height >= 0.0
    ensures var l := PageLayout(box);
            && 0.0 <= l.image.x && l.image.x + l.image.width <= l.pageWidth
            && 0.0 <= l.image.y && l.image.y + l.image.height <= l.pageHeight
            && l.image.x == l.pageWidth - (l.image.x + l.image.width)
            && l.pageWidth * l.pageHeight == box.width * box.height + 2.0 * Margin * box.height
  {
    var l := PageLayout(box);
    assert l.pageWidth * l.pageHeight == (box.width + 2.0 * Margin) * box.height;
  }

  /** What a file on the server's disk holds: PNG bytes, or a PDF of one
      page with a PNG drawn on it. */
  datatype FileContent = Png(bytes: seq<int>) | Pdf(layout: Layout, image: seq<int>)

  /** The PDF written for a request with timestamp token `token`. */
  function PdfName(token: string): string
  {
    token + ".pdf"
  }

  function PdfPath(token: string): string
  {
    "temp/" + PdfName(token)
  }

  /** The temporary screenshot for a request with timestamp token `token`. */
  function TempImagePath(token: string): string
  {
    "temp/images/" + token + "-temp.png"
  }

  /** The PDF and the temporary screenshot of one request never share a
      path, so removing one never touches the other. */
  lemma PathsDiffer(token: string)
    ensures PdfPath(token) != TempImagePath(token)
  {
    assert |PdfPath(token)| + 12 == |TempImagePath(token)|;
  }

  /** The directory of files the handler writes, keyed by path. */
  class Disk {
    var files: map<string, FileContent>

    constructor (files: map<string, FileContent>)
      ensures this.files == files
    {
      this.files := files;
    }

    predicate Exists(path: string)
      reads this
    {
      path in files
    }

    /** Creates the file or replaces its content. */
    method Write(path: string, content: FileContent)
      modifies this
      ensures files == old(files)[path := content]
    {
      files := files[path := content];
    }

    /** Removes a file that exists. */
    method Unlink(path: string)
      requires path in files
      modifies this
      ensures files == old(files) - {path}
    {
      files := files - {path};
    }
  }

  /** How the steps of the assembly go: the screenshot, which may leave a
      partial file behind when it fails, its bytes, the reading of the file
      back, the building of the document (`embed`: creating it, adding the
      page, embedding the PNG and drawing it, the first of these to raise),
      the serialisation of the document and the writing of the PDF. */
  datatype ExportSteps = ExportSteps(
    screenshot: Option<Error>,
    partialShot: bool,
    shot: seq<int>,
    read: Option<Error>,
    embed: Option<Error>,
    save: Option<Error>,
    write: Option<Error>)

  /** The first error raised after the screenshot is on disk, in the order
      read, embed, save, write. */
  function AfterShotFault(steps: ExportSteps): (e: Option<Error>)
    ensures e.None? <==> steps.read.None? && steps.embed.None? && steps.save.None? && steps.write.None?
    ensures steps.read.Some? ==> e == steps.read
    ensures steps.read.None? && steps.embed.Some? ==> e == steps.embed
    ensures steps.read.None? && steps.embed.None? && steps.save.Some? ==> e == steps.save
    ensures steps.read.None? && steps.embed.None? && steps.save.None? ==> e == steps.write
  {
    if steps.read.Some? then steps.read
    else if steps.embed.Some? then steps.embed
    else if steps.save.Some? then steps.save
    else steps.write
  }

  /** The error the assembly rethrows, if any, and the files afterwards. */
  datatype Exported = Exported(error: Option<Error>, files: map<string, FileContent>)

  /** The assembly block with its cleanup, on the files before it. */
  function Export(files: map<string, FileContent>, steps: ExportSteps, box: Box, token: string): Exported
  {
    var temp := TempImagePath(token);
    if steps.screenshot.Some? then
      var left := if steps.partialShot then files[temp := Png(steps.shot)] else files;
      Exported(steps.screenshot, left - {temp})
    else
      var shot := files[temp := Png(steps.shot)];
      var fault := AfterShotFault(steps);
      if fault.Some? then Exported(fault, shot - {temp})
      else Exported(None, shot[PdfPath(token) := Pdf(PageLayout(box), steps.shot)] - {temp})
  }

  /** Whatever happens, no temporary screenshot is left behind. */
  lemma ExportCleansUp(files: map<string, FileContent>, steps: ExportSteps, box: Box, token: string)
    ensures TempImagePath(token) !in Export(files, steps, box, token).files
  {
    PathsDiffer(token);
  }

  /** The assembly succeeds exactly when every step does; otherwise it
      rethrows the error of the first step that failed. */
  lemma ExportRethrows(files: map<string, FileContent>, steps: ExportSteps, box: Box, token: string)
    ensures var r := Export(files, steps, box, token);
            && (r.error.None? <==> steps.screenshot.None? && AfterShotFault(steps).None?)
            && (steps.screenshot.Some? ==> r.error == steps.screenshot)
            && (r.error.Some? ==> r.error in {steps.screenshot, steps.read, steps.embed, steps.save, steps.write})
            && (steps.screenshot.None? ==>
                  && (steps.read.Some? ==> r.error == steps.read)
                  && (steps.read.None? && steps.embed.Some? ==> r.error == steps.embed)
                  && (steps.read.None? && steps.embed.None? && steps.save.Some? ==> r.error == steps.save)
                  && (steps.read.None? && steps.embed.None? && steps.save.None? ==> r.error == steps.write))
  {
  }

  /** On success the PDF holds the screenshot on the laid-out page; on
      failure the PDF path is as it was. */
  lemma ExportWritesPdf(files: map<string, FileContent>, steps: ExportSteps, box: Box, token: string)
    ensures var r := Export(files, steps, box, token);
            var pdf := PdfPath(token);
            && (r.error.None? ==> pdf in r.files && r.files[pdf] == Pdf(PageLayout(box), steps.shot))
            && (r.error.Some? ==> (pdf in r.files <==> pdf in files))
            && (r.error.Some? && pdf in files ==> r.files[pdf] == files[pdf])
  {
    PathsDiffer(token);
  }

  /** No file other than the PDF and the temporary screenshot changes. */
  lemma ExportLeavesOthers(files: map<string, FileContent>, steps: ExportSteps, box: Box, token: string, path: string)
    requires path != PdfPath(token) && path != TempImagePath(token)
    ensures var r := Export(files, steps, box, token);
            && (path in r.files <==> path in files)
            && (path in files ==> r.files[path] == files[path])
  {
  }

  /** The assembly as it runs: the screenshot is written, read back and
      turned into a PDF that is written out, and the temporary file is
      removed on the way out of both the normal and the error path. */
  method ExportElement(disk: Disk, steps: ExportSteps, box: Box, token: string) returns (error: Option<Error>)
    modifies disk
    ensures Exported(error, disk.files) == Export(old(disk.files), steps, box, token)
    ensures !disk.Exists(TempImagePath(token))
  {
    var temp := TempImagePath(token);
    var pdf := PdfPath(token);
    PathsDiffer(token);
    error := None;
    if steps.screenshot.Some? {
      if steps.partialShot {
        disk.Write(temp, Png(steps.shot));
      }
      error := steps.screenshot;
    } else {
      disk.Write(temp, Png(steps.shot));
      var imageBytes := disk.files[temp].bytes;
      if steps.read.Some? {
        error := steps.read;
      } else if steps.embed.Some? {
        error := steps.embed;
      } else if steps.save.Some? {
        error := steps.save;
      } else if steps.write.Some? {
        error := steps.write;
      } else {
        var layout := PageLayout(box);
        disk.Write(pdf, Pdf(layout, imageBytes));
        disk.Unlink(temp);
      }
    }
    if error.Some? && disk.Exists(temp) {
      disk.Unlink(temp);
    }
  }
}
