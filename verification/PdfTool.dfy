/** The validate -> resolve name -> dispatch layer of the conversion tool:
    typed precondition errors are raised, and once validation has passed
    every engine failure is reported as `False`. */
module PdfTool {
  import opened Wrappers
  import opened Text
  import opened Paths
  import opened Files
  import opened Formats
  import opened DocumentEngine

  /** The exceptions a caller sees when a precondition is violated. A missing
      input raises `FileExistsError` and a missing output folder raises
      `NotADirectoryError`, whatever those names suggest. */
  datatype PreconditionError =
    | FileExistsError(path: string)
    | InvalidPercentageError(percentage: int)
    | NotADirectoryError(path: string)
    | InvalidDocTypeError(docType: string)
    | InvalidImgTypeError(imgType: string)

  /** What a call does: raise a precondition error, or return a flag. */
  datatype Outcome = Raised(error: PreconditionError) | Returned(success: bool)

  /** A compression percentage is accepted exactly in [0, 100]. */
  function IsValidCompressionPercentage(percentage: int): (r: bool)
    ensures r <==> 0 <= percentage <= 100
  {
    0 <= percentage <= 100
  }

  /** The shared first check: the input must be an existing regular file. */
  function CheckInputFile(fs: FsState, input: string): (r: Option<PreconditionError>)
    ensures r.None? <==> fs.IsFile(input)
    ensures r.Some? ==> r.value == FileExistsError(input)
  {
    if fs.IsFile(input) then None else Some(FileExistsError(input))
  }

  /** `compress_pdf`: the input file is checked before the quality. */
  function CompressPdf(fs: FsState, input: string, output: string, quality: int, engine: Engine): (r: Outcome)
    ensures !fs.IsFile(input) ==> r == Raised(FileExistsError(input))
    ensures fs.IsFile(input) && !(0 <= quality <= 100) ==> r == Raised(InvalidPercentageError(quality))
    ensures r.Returned? <==> fs.IsFile(input) && 0 <= quality <= 100
    ensures r.Returned? ==> (r.success <==> engine.Runs(CompressJob(input, output, quality)))
  {
    match CheckInputFile(fs, input)
    case Some(e) => Raised(e)
    case None =>
      if !IsValidCompressionPercentage(quality) then Raised(InvalidPercentageError(quality))
      else Returned(engine.Runs(CompressJob(input, output, quality)))
  }

  /** `html_to_pdf`: only the input file is checked. */
  function HtmlToPdf(fs: FsState, input: string, output: string, engine: Engine): (r: Outcome)
    ensures r.Raised? <==> !fs.IsFile(input)
    ensures r.Raised? ==> r.error == FileExistsError(input)
    ensures r.Returned? ==> (r.success <==> engine.Runs(HtmlToPdfJob(input, output)))
  {
    match CheckInputFile(fs, input)
    case Some(e) => Raised(e)
    case None => Returned(engine.Runs(HtmlToPdfJob(input, output)))
  }

  /** `pdf_to_svg`: only the input file is checked. */
  function PdfToSvg(fs: FsState, input: string, output: string, engine: Engine): (r: Outcome)
    ensures r.Raised? <==> !fs.IsFile(input)
    ensures r.Raised? ==> r.error == FileExistsError(input)
    ensures r.Returned? ==> (r.success <==> engine.Runs(SvgJob(input, output)))
  {
    match CheckInputFile(fs, input)
    case Some(e) => Raised(e)
    case None => Returned(engine.Runs(SvgJob(input, output)))
  }

  /** The checks of `pdf_to_documents`, in order: input file, output path,
      normalised document type. */
  function ValidateDocumentRequest(fs: FsState, input: string, outDir: string, docType: string)
    : (r: Result<DocFormat, PreconditionError>)
    ensures !fs.IsFile(input) ==> r == Failure(FileExistsError(input))
    ensures fs.IsFile(input) && !fs.PathExists(outDir) ==> r == Failure(NotADirectoryError(outDir))
    ensures fs.IsFile(input) && fs.PathExists(outDir) && Normalise(docType) !in ValidDocTypes
      ==> r == Failure(InvalidDocTypeError(Normalise(docType)))
    ensures r.Success? <==> fs.IsFile(input) && fs.PathExists(outDir) && Normalise(docType) in ValidDocTypes
    ensures r.Success? ==> DocTypeName(r.value) == Normalise(docType)
  {
    match CheckInputFile(fs, input)
    case Some(e) => Failure(e)
    case None =>
      if !fs.PathExists(outDir) then Failure(NotADirectoryError(outDir))
      else
        var t := Normalise(docType);
        match DocFormatOf(t)
        case None => Failure(InvalidDocTypeError(t))
        case Some(f) => Success(f)
  }

  /** The name of the file `pdf_to_documents` writes: the input's base name
      without its extension, followed by "." and the normalised type. */
  function DocumentFileName(input: string, docType: string): string {
    Stem(Basename(input)) + "." + docType
  }

  /** The file `pdf_to_documents` writes: that name, in `outDir`. */
  function DocumentOutputPath(input: string, outDir: string, docType: string): (p: string)
    ensures |p| >= |outDir| && p[..|outDir|] == outDir
    ensures outDir != [] && outDir[|outDir| - 1] != '/' ==>
      p == outDir + "/" + DocumentFileName(input, docType)
    ensures outDir != [] && outDir[|outDir| - 1] == '/' ==>
      p == outDir + DocumentFileName(input, docType)
    ensures outDir == [] ==> p == DocumentFileName(input, docType)
  {
    Join(outDir, DocumentFileName(input, docType))
  }

  /** The document is written under the name "<stem>.<type>", the stem being
      the input's base name without its extension. */
  lemma DocumentOutputName(input: string, outDir: string, f: DocFormat)
    ensures Basename(DocumentOutputPath(input, outDir, DocTypeName(f)))
      == Stem(Basename(input)) + "." + DocTypeName(f)
  {
    var stem := Stem(Basename(input));
    var t := DocTypeName(f);
    StemKeepsNoSeparator(Basename(input));
    assert '/' !in t;
    NoSeparatorConcat(stem, ".");
    NoSeparatorConcat(stem + ".", t);
    BasenameOfJoin(outDir, stem + "." + t);
  }

  /** `pdf_to_documents`: validate, then dispatch the one converter for the
      normalised type on the derived output path; any engine failure is
      returned as `False`. */
  function PdfToDocuments(fs: FsState, input: string, outDir: string, docType: string, engine: Engine)
    : (r: Outcome)
    ensures r.Raised? <==> ValidateDocumentRequest(fs, input, outDir, docType).Failure?
    ensures r.Raised? ==> r.error == ValidateDocumentRequest(fs, input, outDir, docType).error
    ensures r.Returned? ==> DocFormatOf(Normalise(docType)).Some?
    ensures r.Returned? ==>
      (r.success <==> engine.Runs(DocumentJob(DocFormatOf(Normalise(docType)).value, input,
                                              DocumentOutputPath(input, outDir, Normalise(docType)))))
  {
    match ValidateDocumentRequest(fs, input, outDir, docType)
    case Failure(e) => Raised(e)
    case Success(f) =>
      Returned(engine.Runs(DocumentJob(f, input, DocumentOutputPath(input, outDir, DocTypeName(f)))))
  }

  /** The checks of `pdf_to_images`, in order: input file, output path,
      normalised image type. */
  function ValidateImageRequest(fs: FsState, input: string, outDir: string, imgType: string)
    : (r: Result<ImageFormat, PreconditionError>)
    ensures !fs.IsFile(input) ==> r == Failure(FileExistsError(input))
    ensures fs.IsFile(input) && !fs.PathExists(outDir) ==> r == Failure(NotADirectoryError(outDir))
    ensures fs.IsFile(input) && fs.PathExists(outDir) && Normalise(imgType) !in ValidImgTypes
      ==> r == Failure(InvalidImgTypeError(Normalise(imgType)))
    ensures r.Success? <==> fs.IsFile(input) && fs.PathExists(outDir) && Normalise(imgType) in ValidImgTypes
    ensures r.Success? ==> ImgTypeName(r.value) == Normalise(imgType)
  {
    match CheckInputFile(fs, input)
    case Some(e) => Failure(e)
    case None =>
      if !fs.PathExists(outDir) then Failure(NotADirectoryError(outDir))
      else
        var t := Normalise(imgType);
        match ImageFormatOf(t)
        case None => Failure(InvalidImgTypeError(t))
        case Some(f) => Success(f)
  }

  /** The prefix of every page file `pdf_to_images` writes: the input's base
      name without its extension, in `outDir`. */
  function ImagePrefix(input: string, outDir: string): (p: string)
    ensures Basename(p) == Stem(Basename(input))
    ensures |p| >= |outDir| && p[..|outDir|] == outDir
    ensures outDir != [] && outDir[|outDir| - 1] != '/' ==> p == outDir + "/" + Basename(p)
    ensures outDir != [] && outDir[|outDir| - 1] == '/' ==> p == outDir + Basename(p)
    ensures outDir == [] ==> p == Basename(p)
  {
    var stem := Stem(Basename(input));
    StemKeepsNoSeparator(Basename(input));
    BasenameOfJoin(outDir, stem);
    Join(outDir, stem)
  }

  // ------------------------------------------------------------ properties

  /** A missing input is reported before anything else is looked at, by
      every operation and whatever its other arguments. */
  lemma MissingInputReportedFirst(fs: FsState, input: string, output: string, quality: int,
                                  docType: string, imgType: string, engine: Engine)
    requires !fs.IsFile(input)
    ensures CompressPdf(fs, input, output, quality, engine) == Raised(FileExistsError(input))
    ensures HtmlToPdf(fs, input, output, engine) == Raised(FileExistsError(input))
    ensures PdfToSvg(fs, input, output, engine) == Raised(FileExistsError(input))
    ensures PdfToDocuments(fs, input, output, docType, engine) == Raised(FileExistsError(input))
    ensures ValidateImageRequest(fs, input, output, imgType) == Failure(FileExistsError(input))
  {
  }

  /** The output check is an existence test only: an existing regular file
      passes it just as a directory does. */
  lemma OutputCheckAcceptsAnyExistingPath(fs: FsState, input: string, outDir: string,
                                          docType: string, imgType: string, engine: Engine)
    requires fs.IsFile(input) && fs.IsFile(outDir)
    ensures PdfToDocuments(fs, input, outDir, docType, engine) != Raised(NotADirectoryError(outDir))
    ensures ValidateImageRequest(fs, input, outDir, imgType) != Failure(NotADirectoryError(outDir))
  {
  }

  /** The two-tier error policy: whether a call raises, and what it raises,
      never depends on the engine; the engine decides only the flag. */
  lemma PreconditionsIgnoreEngine(fs: FsState, input: string, output: string, quality: int,
                                  docType: string, e1: Engine, e2: Engine)
    ensures CompressPdf(fs, input, output, quality, e1).Raised?
      <==> CompressPdf(fs, input, output, quality, e2).Raised?
    ensures CompressPdf(fs, input, output, quality, e1).Raised?
      ==> CompressPdf(fs, input, output, quality, e1) == CompressPdf(fs, input, output, quality, e2)
    ensures HtmlToPdf(fs, input, output, e1).Raised? ==> HtmlToPdf(fs, input, output, e1) == HtmlToPdf(fs, input, output, e2)
    ensures PdfToSvg(fs, input, output, e1).Raised? ==> PdfToSvg(fs, input, output, e1) == PdfToSvg(fs, input, output, e2)
    ensures PdfToDocuments(fs, input, output, docType, e1).Raised?
      <==> PdfToDocuments(fs, input, output, docType, e2).Raised?
    ensures PdfToDocuments(fs, input, output, docType, e1).Raised?
      ==> PdfToDocuments(fs, input, output, docType, e1) == PdfToDocuments(fs, input, output, docType, e2)
  {
  }

  /** A document type is accepted in any casing and with any whitespace
      padding around it, and dispatches to the converter of its lower-case
      spelling. */
  lemma DocTypeCaseAndPaddingInsensitive(fs: FsState, input: string, outDir: string,
                                         lead: string, word: string, trail: string)
    requires fs.IsFile(input) && fs.PathExists(outDir)
    requires AllSpace(lead) && AllSpace(trail) && ToLower(word) in ValidDocTypes
    ensures ValidateDocumentRequest(fs, input, outDir, lead + word + trail)
      == Success(DocFormatOf(ToLower(word)).value)
  {
    NormalisePadded(lead, word, trail);
    var t := lead + word + trail;
    assert Normalise(t) == ToLower(word);
    assert CheckInputFile(fs, input) == None;
  }

  /** The same for image types. */
  lemma ImgTypeCaseAndPaddingInsensitive(fs: FsState, input: string, outDir: string,
                                         lead: string, word: string, trail: string)
    requires fs.IsFile(input) && fs.PathExists(outDir)
    requires AllSpace(lead) && AllSpace(trail) && ToLower(word) in ValidImgTypes
    ensures ValidateImageRequest(fs, input, outDir, lead + word + trail)
      == Success(ImageFormatOf(ToLower(word)).value)
  {
    NormalisePadded(lead, word, trail);
    var t := lead + word + trail;
    assert Normalise(t) == ToLower(word);
    assert CheckInputFile(fs, input) == None;
  }

}
