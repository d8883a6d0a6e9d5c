# PDF tool: validation, output naming and dispatch

This project models the logic that `pdf_tool.py` owns around its calls into the
Aspose PDF engine: the layer that validates, resolves output names and
dispatches.

- **Validators.** `is_valid_compression_percentage`, `is_file` and `path_exists`, plus the
  document-type and image-type checks. Each type check lower-cases and strips the requested
  type, then tests it against a closed list.
- **Operations.** `compress_pdf`, `html_to_pdf`, `pdf_to_svg`, `pdf_to_documents` and
  `pdf_to_images`. Each checks its preconditions in a fixed order and raises a typed
  error when one fails. After that, any engine failure is caught and becomes `False`.
- **Output names.** A document goes to `<dir>/<stem>.<type>`. Image pages go to
  `<dir>/<stem>_page_<k>_out.<ext>` for k = 1..n, and `jpg` pages use the extension `jpeg`.
- **Page writer.** The loop shared by the five `convert_pdf_*` functions creates each page
  file exclusively. It stops at the first file it cannot create or the first page the
  engine fails to render. Files written before that stay.

The engine is an oracle, `DocumentEngine.Engine`. It holds a page count for every input it
can open and the set of jobs that fail. The file system, `Files.FsState` and the class
`Files.FileSystem`, is a set of regular-file paths and a set of directory paths. A
precondition violation is `PdfTool.Outcome.Raised(error)`. A call that got past validation
ends in `Returned(flag)`.

Modules, one per concern:

| file | module | models |
|---|---|---|
| Text.dfy | Text | `str.lower`, `str.strip`, `str(int)` |
| Paths.dfy | Paths | `os.path.basename`, `os.path.splitext(...)[0]`, `Path(dir) / name` |
| Files.dfy | Files | `os.path.isfile`, `os.path.exists`, `io.FileIO(name, 'x')` |
| Formats.dfy | Formats | the closed lists of document and image types, the type dispatch, the page extension |
| DocumentEngine.dfy | DocumentEngine | the engine as an oracle |
| PdfTool.dfy | PdfTool | the validators, `compress_pdf`, `html_to_pdf`, `pdf_to_svg`, `pdf_to_documents`, the check order of `pdf_to_images` |
| PdfImages.dfy | PdfImages | the `convert_pdf_*` page loop and `pdf_to_images` |

The error names and checks are the code's own:

- A missing input raises `FileExistsError`, not a dedicated missing-file error.
- A missing output folder raises `NotADirectoryError`.
- The type errors carry the normalised type string and not the raw one.
- The output check is `os.path.exists`, so an existing regular file passes it. When the engine
  opens the document and it has at least one page, creating the first page file inside such a
  path then fails: nothing is written and the call returns `False`
  (`PdfImages.OutputNotAFolderWritesNothing`). A document with no pages writes nothing and
  returns `True`.

## Model

| member | source | states |
|---|---|---|
| Text.ToLower | pdf_tool.py:139 | `lower()` keeps the length and lower-cases each character in place |
| Text.Strip | pdf_tool.py:139 | `strip()` returns a contiguous slice of its input with whitespace at neither end, and everything cut away on either side is whitespace |
| Text.Normalise | pdf_tool.py:239 | the normalised type has no upper-case letter and no whitespace at either end |
| Text.StripPadding | pdf_tool.py:139 | stripping removes exactly the whitespace padding around a core that neither starts nor ends with whitespace |
| Text.NormalisePadded | pdf_tool.py:239 | any casing of a word, padded with any whitespace, normalises to the lower-case word |
| Text.NormaliseIdempotent | pdf_tool.py:139-142 | normalising is idempotent, so the value an invalid-type error carries is already in normal form |
| Text.NatToString | pdf_tool.py:173 | `str(k)` is a non-empty string of decimal digits that starts with '0' only for 0 |
| Text.DecimalValueOfNatToString | pdf_tool.py:172-174 | reading the digits of `str(k)` back gives `k` (round trip) |
| Text.NatToStringInjective | pdf_tool.py:185-187 | different page numbers give different digit strings |
| Paths.Basename | pdf_tool.py:144 | the base name is the longest suffix of the path that contains no '/' |
| Paths.Stem | pdf_tool.py:244 | `splitext(...)[0]` is a prefix of the name, cut exactly at the dot that starts the extension (the last dot with a non-dot before it), or the whole name when there is no such dot |
| Paths.Join | pdf_tool.py:146 | the joined path is the folder, one '/' and the name (no extra '/' when the folder already ends in one, the bare name for an empty folder) |
| Paths.BasenameOfJoin | pdf_tool.py:245 | the base name of a joined path is the name that was joined |
| Files.FsState.IsFile | pdf_tool.py:31-32 | an existing regular file is an existing path |
| Files.FsState.PathExists | pdf_tool.py:23-24 | in a valid state an existing path is exactly one of a regular file and a directory |
| Files.FsState.CanCreate | pdf_tool.py:172-174 | exclusive creation can succeed only when the folder exists (and, in a valid state, is not a regular file) and the name does not exist, so the two are different paths |
| Files.FileSystem.CreateExclusive | pdf_tool.py:172-174 | exclusive creation succeeds exactly when the folder is a directory and nothing of that name exists; only then is the name added to the files, and directories never change |
| Formats.DocFormatOf | pdf_tool.py:140-142 | a normalised type is accepted exactly when it is one of doc, docx, xls, xlsx, pptx, and it then selects the format of that name |
| Formats.DocDispatchRoundTrip | pdf_tool.py:149-158 | each document format is reached by exactly one type name, and the name of a format dispatches back to it |
| Formats.ImageFormatOf | pdf_tool.py:240-242 | a normalised type is accepted exactly when it is one of bmp, emf, jpg, png, gif, and it then selects the format of that name |
| Formats.ImageDispatchRoundTrip | pdf_tool.py:248-257 | each image format is reached by exactly one type name, and the name of a format dispatches back to it |
| Formats.Extension | pdf_tool.py:197-200 | page files carry the type name as extension, except that jpg pages carry "jpeg" |
| Formats.ExtensionInjective | pdf_tool.py:172-226 | the five `convert_pdf_*` page-file names (bmp, emf, jpeg, png, gif) use pairwise different extensions |
| PdfTool.IsValidCompressionPercentage | pdf_tool.py:27-28 | a percentage is valid exactly in [0, 100], both bounds included |
| PdfTool.CheckInputFile | pdf_tool.py:36-37 | the input check passes exactly for an existing regular file and otherwise raises `FileExistsError` with the input path |
| PdfTool.CompressPdf | pdf_tool.py:35-55 | a missing input raises `FileExistsError` whatever the quality; an out-of-range quality on an existing file raises `InvalidPercentageError`; otherwise the result is whether the engine's compress job runs |
| PdfTool.HtmlToPdf | pdf_tool.py:58-70 | raises only for a missing input; otherwise the result is whether the engine's conversion runs |
| PdfTool.PdfToSvg | pdf_tool.py:73-88 | raises only for a missing input; otherwise the result is whether the engine's SVG export runs |
| PdfTool.ValidateDocumentRequest | pdf_tool.py:132-142 | the checks run in the order input file, output path, normalised type, and each raises its own error; success picks the format named by the normalised type |
| PdfTool.DocumentOutputPath | pdf_tool.py:144-146 | the document path is the output folder, one '/' (none when the folder ends in '/') and "<stem>.<type>", so the file lies directly in the output folder; for an empty folder it is the bare "<stem>.<type>" |
| PdfTool.DocumentOutputName | pdf_tool.py:144-146 | the document's file name is the input's base name without its extension, then "." and the type |
| PdfTool.PdfToDocuments | pdf_tool.py:148-162 | raises exactly when validation fails, with validation's error; otherwise returns whether the one converter for the normalised type runs on the derived output path |
| PdfTool.ValidateImageRequest | pdf_tool.py:232-242 | the checks run in the order input file, output path, normalised type, and each raises its own error; success picks the format named by the normalised type |
| PdfTool.ImagePrefix | pdf_tool.py:244-245 | the page prefix is the output folder, one '/' (none when the folder ends in '/') and the input's base name without its extension, so every page file lies directly in the output folder; for an empty folder it is the bare stem |
| PdfTool.MissingInputReportedFirst | pdf_tool.py:133-134 | a missing input is reported before any other check by all five operations, whatever their other arguments |
| PdfTool.OutputCheckAcceptsAnyExistingPath | pdf_tool.py:23-24 | the output check tests existence only: an existing regular file as output folder does not raise `NotADirectoryError` |
| PdfTool.PreconditionsIgnoreEngine | pdf_tool.py:42-55 | whether a call raises, and what it raises, never depends on the engine; the engine decides only the returned flag |
| PdfTool.DocTypeCaseAndPaddingInsensitive | pdf_tool.py:139-142 | a document type in any casing, with any whitespace padding, passes validation and selects the format of its lower-case spelling |
| PdfTool.ImgTypeCaseAndPaddingInsensitive | pdf_tool.py:239-242 | an image type in any casing, with any whitespace padding, passes validation and selects the format of its lower-case spelling |
| PdfImages.PageLoop | pdf_tool.py:171-176 | the loop from page i + 1 to n writes at most n - i files, and exactly n - i when it completes; only a loop with pages left can fail |
| PdfImages.ConvertRun | pdf_tool.py:166-176 | a document the engine cannot open writes nothing and fails; otherwise at most one file per page is written, and a completed run writes one per page |
| PdfImages.PageNameShape | pdf_tool.py:172-174 | a page file name is the prefix, "_page_", the decimal page number, "_out." and the extension, each at its own position |
| PdfImages.PageNameInjective | pdf_tool.py:171-176 | two pages of one conversion never share a file name |
| PdfImages.PageLoopNames | pdf_tool.py:171-176 | the loop writes the page files in page order, named "<prefix>_page_<k>_out.<ext>", and writes every remaining page when it completes |
| PdfImages.PageLoopFresh | pdf_tool.py:172-174 | the loop never writes a path that already existed |
| PdfImages.PageLoopDistinct | pdf_tool.py:210-215 | the loop never writes the same name twice |
| PdfImages.PageLoopCompletes | pdf_tool.py:184-189 | the loop completes exactly when every remaining page file can be created and every remaining page renders |
| PdfImages.PageLoopRendersBeforeLast | pdf_tool.py:197-202 | every page the loop wrote before its last one rendered |
| PdfImages.PageLoopStops | pdf_tool.py:197-202 | a loop that does not complete stops either at a page file it could not create or right after the page the engine failed on |
| PdfImages.OutputNotAFolderWritesNothing | pdf_tool.py:236-237 | when the output path is not a directory, a document with pages writes nothing and the conversion fails |
| PdfImages.ConvertCompletesExactlyWhen | pdf_tool.py:218-229 | a conversion returns normally exactly when the document opens and every page's file can be created and every page renders |
| PdfImages.ConvertCreatesOneFilePerPage | pdf_tool.py:205-215 | a completed conversion of an n-page document adds exactly n new files, named for pages 1 to n in order |
| PdfImages.WritePages | pdf_tool.py:171-176 | the `for` loop returns whether it completed, adds exactly the files the page loop writes to the file system, and leaves them there when it stops early |
| PdfImages.ConvertPdfToImages | pdf_tool.py:166-229 | a `convert_pdf_*` call returns whether the whole conversion completed and adds exactly the files it wrote, none when the document does not open |
| PdfImages.PdfToImages | pdf_tool.py:232-261 | a failed validation raises its error and writes nothing; otherwise the call returns whether the page loop completed, and the files it wrote remain |

## Left out

- The Aspose engine is represented only by the oracle `DocumentEngine.Engine`: `ap.Document`, `optimize_resources`, the `*SaveOptions` settings and the `*Device` renderers are not modelled. This covers the FLOW recognition mode, the 2.5 horizontal proximity, bullet recognition, slides as images and the 300 DPI resolution.
- Real file-system I/O is abstract. A path is a string, and the model does no normalisation: `a/` and `a` are different paths.
- The files that `compress_pdf`, `html_to_pdf`, `pdf_to_svg` and `pdf_to_documents` write or overwrite are not added to the file system. These functions return only their outcome, because each writes through a single engine call.
- Files.FileSystem.CreateExclusive: models two failures only. Creation fails when the name already exists or when the folder it is created in is not a directory. Permission errors and other OS failures are not modelled.
- The `print` diagnostics and the text of the exception messages are not modelled.
- Text.ToLower: lower-cases ASCII letters only, not Unicode case mappings. The whitespace set of `Text.Strip` is the full set of code points for which `str.isspace()` holds.
- Paths.Join: models `pathlib` only as joining with one separator, with an empty folder meaning the current one. It does not collapse repeated separators or `.` components, drop a trailing separator, or handle an absolute name. It also returns the folder followed by '/' for an empty name, where `pathlib` returns the folder alone. The stem is empty only for an input path that is empty or ends in '/'. A real file system never has such a regular file, but the model's `FsState` does not exclude one: for such an input the page prefix gains a trailing '/' (`o/` rather than `o`).
- Paths.Basename: models POSIX paths only; Windows separators and drive letters are not modelled.
- The image stream left unclosed when a render fails is not modelled. The model keeps only the fact that the page's file exists.
