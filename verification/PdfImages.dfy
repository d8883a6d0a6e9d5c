/** `pdf_to_images` and the per-page writer loop shared by the five
    `convert_pdf_*` functions: one file per page, each created exclusively,
    stopping at the first name that already exists or the first page the
    engine fails to render, and leaving what was written in place. */
module PdfImages {
  import opened Wrappers
  import opened Text
  import opened Files
  import opened Formats
  import opened DocumentEngine
  import opened PdfTool

  /** The file for page `page`: "<prefix>_page_<page>_out.<ext>". */
  function PageName(prefix: string, page: nat, ext: string): (r: string)
  {
    prefix + "_page_" + NatToString(page) + "_out." + ext
  }

  /** A page file name extends the prefix and ends in "_out." and the
      extension, with the page number's digits in between. */
  lemma PageNameShape(prefix: string, page: nat, ext: string)
    ensures var r := PageName(prefix, page, ext);
      && |r| > |prefix| + 6 + |ext| + 5
      && r[..|prefix|] == prefix
      && r[|prefix|..|prefix| + 6] == "_page_"
      && r[|prefix| + 6..|r| - |ext| - 5] == NatToString(page)
      && r[|r| - |ext| - 5..] == "_out." + ext
  {
    var r := PageName(prefix, page, ext);
    var d := NatToString(page);
    assert r == prefix + ("_page_" + (d + ("_out." + ext)));
  }

  /** Different pages of one conversion never share a file name. */
  lemma PageNameInjective(prefix: string, j: nat, k: nat, ext: string)
    requires PageName(prefix, j, ext) == PageName(prefix, k, ext)
    ensures j == k
  {
    var a, b := NatToString(j), NatToString(k);
    var s := PageName(prefix, j, ext);
    var t := PageName(prefix, k, ext);
    var m := |prefix| + 6;
    assert s == prefix + "_page_" + (a + ("_out." + ext));
    assert t == prefix + "_page_" + (b + ("_out." + ext));
    assert s[m..] == a + ("_out." + ext);
    assert t[m..] == b + ("_out." + ext);
    assert |a| == |b|;
    assert a == s[m..][..|a|];
    assert b == t[m..][..|b|];
    NatToStringInjective(j, k);
  }

  /** Creating the file of one page leaves whether the file of any other
      page can be created unchanged. */
  lemma CanCreateOtherPage(fs: FsState, folder: string, prefix: string, ext: string, j: nat, k: nat)
    requires j != k
    ensures var created := FsState(fs.files + {PageName(prefix, j, ext)}, fs.dirs);
      created.CanCreate(folder, PageName(prefix, k, ext)) == fs.CanCreate(folder, PageName(prefix, k, ext))
  {
    if PageName(prefix, j, ext) == PageName(prefix, k, ext) {
      PageNameInjective(prefix, j, k, ext);
    }
  }

  /** What the page loop did: the files it created, in order, and whether it
      ran to the end without an exception. */
  datatype PageRun = PageRun(written: seq<string>, completed: bool)

  /** The loop from index `i` (page i + 1) up to `n`, writing into `folder`,
      over the file system `fs` as it is when page i + 1 is reached. */
  function PageLoop(fs: FsState, folder: string, prefix: string, format: ImageFormat, input: string,
                    engine: Engine, i: nat, n: nat): (r: PageRun)
    ensures i <= n ==> |r.written| <= n - i
    ensures i <= n && r.completed ==> |r.written| == n - i
    ensures !r.completed ==> i < n
    decreases n - i
  {
    if i >= n then PageRun([], true)
    else
      var name := PageName(prefix, i + 1, Extension(format));
      if !fs.CanCreate(folder, name) then PageRun([], false)
      else if !engine.Runs(RenderPageJob(format, input, i + 1)) then PageRun([name], false)
      else
        var rest := PageLoop(FsState(fs.files + {name}, fs.dirs), folder, prefix, format, input, engine, i + 1, n);
        PageRun([name] + rest.written, rest.completed)
  }

  /** One step of the loop: what it does with page i + 1. */
  lemma PageLoopStep(fs: FsState, folder: string, prefix: string, format: ImageFormat, input: string,
                     engine: Engine, i: nat, n: nat)
    requires i < n
    ensures var name := PageName(prefix, i + 1, Extension(format));
      var run := PageLoop(fs, folder, prefix, format, input, engine, i, n);
      var rest := PageLoop(FsState(fs.files + {name}, fs.dirs), folder, prefix, format, input, engine, i + 1, n);
      && (!fs.CanCreate(folder, name) ==> run == PageRun([], false))
      && (fs.CanCreate(folder, name) && !engine.Runs(RenderPageJob(format, input, i + 1)) ==>
            run == PageRun([name], false))
      && (fs.CanCreate(folder, name) && engine.Runs(RenderPageJob(format, input, i + 1)) ==>
            run == PageRun([name] + rest.written, rest.completed))
  {
  }

  /** A whole `convert_pdf_*` call: open the document (no file is written if
      the engine cannot), then run the loop over all its pages. */
  function ConvertRun(fs: FsState, input: string, folder: string, prefix: string, format: ImageFormat,
                      engine: Engine): (r: PageRun)
    ensures !engine.Opens(input) ==> r == PageRun([], false)
    ensures engine.Opens(input) ==> |r.written| <= engine.pageCount[input]
    ensures r.completed ==> engine.Opens(input) && |r.written| == engine.pageCount[input]
  {
    if !engine.Opens(input) then PageRun([], false)
    else PageLoop(fs, folder, prefix, format, input, engine, 0, engine.pageCount[input])
  }

  /** The loop writes the pages in order, one name per page, and writes all
      remaining pages when it completes. */
  lemma {:induction false} PageLoopNames(fs: FsState, folder: string, prefix: string, format: ImageFormat,
                                         input: string, engine: Engine, i: nat, n: nat)
    requires i <= n
    ensures var run := PageLoop(fs, folder, prefix, format, input, engine, i, n);
      && |run.written| <= n - i
      && (run.completed ==> |run.written| == n - i)
      && forall j :: 0 <= j < |run.written| ==> run.written[j] == PageName(prefix, i + j + 1, Extension(format))
    decreases n - i
  {
    if i < n {
      var name := PageName(prefix, i + 1, Extension(format));
      if fs.CanCreate(folder, name) && engine.Runs(RenderPageJob(format, input, i + 1)) {
        PageLoopNames(FsState(fs.files + {name}, fs.dirs), folder, prefix, format, input, engine, i + 1, n);
      }
    }
  }

  /** Exclusive creation: the loop never writes a path that already existed. */
  lemma {:induction false} PageLoopFresh(fs: FsState, folder: string, prefix: string, format: ImageFormat,
                                         input: string, engine: Engine, i: nat, n: nat)
    ensures forall p :: p in PageLoop(fs, folder, prefix, format, input, engine, i, n).written ==>
                          !fs.PathExists(p)
    decreases n - i
  {
    if i < n {
      var name := PageName(prefix, i + 1, Extension(format));
      if fs.CanCreate(folder, name) && engine.Runs(RenderPageJob(format, input, i + 1)) {
        var next := FsState(fs.files + {name}, fs.dirs);
        var rest := PageLoop(next, folder, prefix, format, input, engine, i + 1, n);
        PageLoopFresh(next, folder, prefix, format, input, engine, i + 1, n);
        assert PageLoop(fs, folder, prefix, format, input, engine, i, n).written == [name] + rest.written;
      }
    }
  }

  /** The page file for page `k` can be created and the engine renders page
      `k` into it. */
  predicate PageSucceeds(fs: FsState, folder: string, prefix: string, format: ImageFormat, input: string,
                         engine: Engine, k: nat)
  {
    fs.CanCreate(folder, PageName(prefix, k, Extension(format))) && engine.Runs(RenderPageJob(format, input, k))
  }

  /** The loop completes exactly when every remaining page's file can be
      created in the state before the loop and every remaining page renders. */
  lemma {:induction false} PageLoopCompletes(fs: FsState, folder: string, prefix: string, format: ImageFormat,
                                             input: string, engine: Engine, i: nat, n: nat)
    ensures PageLoop(fs, folder, prefix, format, input, engine, i, n).completed
      <==> forall k :: i < k <= n ==> PageSucceeds(fs, folder, prefix, format, input, engine, k)
    decreases n - i
  {
    if i < n {
      var ext := Extension(format);
      var name := PageName(prefix, i + 1, ext);
      if PageSucceeds(fs, folder, prefix, format, input, engine, i + 1) {
        var next := FsState(fs.files + {name}, fs.dirs);
        PageLoopCompletes(next, folder, prefix, format, input, engine, i + 1, n);
        forall k | i + 1 < k <= n
          ensures PageSucceeds(next, folder, prefix, format, input, engine, k)
              <==> PageSucceeds(fs, folder, prefix, format, input, engine, k)
        {
          CanCreateOtherPage(fs, folder, prefix, ext, i + 1, k);
        }
      }
    }
  }

  /** Every page the loop wrote before its last one rendered. */
  lemma {:induction false} PageLoopRendersBeforeLast(fs: FsState, folder: string, prefix: string,
                                                     format: ImageFormat, input: string, engine: Engine,
                                                     i: nat, n: nat)
    requires i <= n
    ensures var m := |PageLoop(fs, folder, prefix, format, input, engine, i, n).written|;
      forall k :: i < k < i + m ==> engine.Runs(RenderPageJob(format, input, k))
    decreases n - i
  {
    if i < n {
      var name := PageName(prefix, i + 1, Extension(format));
      PageLoopStep(fs, folder, prefix, format, input, engine, i, n);
      if fs.CanCreate(folder, name) && engine.Runs(RenderPageJob(format, input, i + 1)) {
        PageLoopRendersBeforeLast(FsState(fs.files + {name}, fs.dirs), folder, prefix, format, input, engine, i + 1, n);
      }
    }
  }

  /** Where the loop stops when it does not complete: either the engine
      failed on the last page written, or the file of the page after it
      could not be created in the state before the loop. */
  lemma {:induction false} PageLoopStops(fs: FsState, folder: string, prefix: string, format: ImageFormat,
                                         input: string, engine: Engine, i: nat, n: nat)
    requires i <= n
    ensures var run := PageLoop(fs, folder, prefix, format, input, engine, i, n);
      var m := |run.written|;
      !run.completed ==>
        || (m > 0 && !engine.Runs(RenderPageJob(format, input, i + m)))
        || (i + m < n && !fs.CanCreate(folder, PageName(prefix, i + m + 1, Extension(format))))
    decreases n - i
  {
    if i < n {
      var ext := Extension(format);
      var name := PageName(prefix, i + 1, ext);
      PageLoopStep(fs, folder, prefix, format, input, engine, i, n);
      if fs.CanCreate(folder, name) && engine.Runs(RenderPageJob(format, input, i + 1)) {
        var next := FsState(fs.files + {name}, fs.dirs);
        var rest := PageLoop(next, folder, prefix, format, input, engine, i + 1, n);
        PageLoopStops(next, folder, prefix, format, input, engine, i + 1, n);
        var run := PageLoop(fs, folder, prefix, format, input, engine, i, n);
        var m := |rest.written|;
        assert i + |run.written| == (i + 1) + m;
        CanCreateOtherPage(fs, folder, prefix, ext, i + 1, (i + 1) + m + 1);
      }
    }
  }

  /** When the output path is not a directory (the output check accepts any
      existing path), a document with pages writes nothing and fails. */
  lemma OutputNotAFolderWritesNothing(fs: FsState, input: string, folder: string, prefix: string,
                                      format: ImageFormat, engine: Engine)
    requires folder !in fs.dirs
    requires engine.Opens(input) && engine.pageCount[input] > 0
    ensures ConvertRun(fs, input, folder, prefix, format, engine) == PageRun([], false)
  {
  }

  /** The loop never writes the same name twice. */
  lemma PageLoopDistinct(fs: FsState, folder: string, prefix: string, format: ImageFormat,
                         input: string, engine: Engine, i: nat, n: nat)
    requires i <= n
    ensures var run := PageLoop(fs, folder, prefix, format, input, engine, i, n);
      forall j, k :: 0 <= j < k < |run.written| ==> run.written[j] != run.written[k]
  {
    var run := PageLoop(fs, folder, prefix, format, input, engine, i, n);
    PageLoopNames(fs, folder, prefix, format, input, engine, i, n);
    forall j, k | 0 <= j < k < |run.written| ensures run.written[j] != run.written[k] {
      if run.written[j] == run.written[k] {
        PageNameInjective(prefix, i + j + 1, i + k + 1, Extension(format));
      }
    }
  }

  /** A sequence without repetitions, disjoint from `s`, adds its length to
      the size of `s`. */
  lemma {:induction false} AddDistinct(s: set<string>, xs: seq<string>)
    requires forall j, k :: 0 <= j < k < |xs| ==> xs[j] != xs[k]
    requires forall j :: 0 <= j < |xs| ==> xs[j] !in s
    ensures |s + (set x | x in xs)| == |s| + |xs|
    decreases |xs|
  {
    if xs != [] {
      var t := s + {xs[0]};
      AddDistinct(t, xs[1..]);
      assert s + (set x | x in xs) == t + (set x | x in xs[1..]);
    }
  }

  /** A conversion returns normally exactly when the engine opens the
      document and, for every page, the page file can be created and the
      page renders. */
  lemma ConvertCompletesExactlyWhen(fs: FsState, input: string, folder: string, prefix: string,
                                    format: ImageFormat, engine: Engine)
    ensures ConvertRun(fs, input, folder, prefix, format, engine).completed
      <==> engine.Opens(input)
           && forall k :: 0 < k <= engine.pageCount[input]
                ==> PageSucceeds(fs, folder, prefix, format, input, engine, k)
  {
    if engine.Opens(input) {
      PageLoopCompletes(fs, folder, prefix, format, input, engine, 0, engine.pageCount[input]);
    }
  }

  /** Converting an n-page document that completes creates exactly n new
      files, "_page_1_out" up to "_page_n_out", none of which existed. */
  lemma ConvertCreatesOneFilePerPage(fs: FsState, input: string, folder: string, prefix: string,
                                     format: ImageFormat, engine: Engine)
    requires ConvertRun(fs, input, folder, prefix, format, engine).completed
    ensures engine.Opens(input)
    ensures var run := ConvertRun(fs, input, folder, prefix, format, engine);
      var n := engine.pageCount[input];
      && |run.written| == n
      && (forall k :: 1 <= k <= n ==> run.written[k - 1] == PageName(prefix, k, Extension(format)))
      && |fs.files + (set x | x in run.written)| == |fs.files| + n
  {
    var n := engine.pageCount[input];
    var run := PageLoop(fs, folder, prefix, format, input, engine, 0, n);
    PageLoopNames(fs, folder, prefix, format, input, engine, 0, n);
    PageLoopFresh(fs, folder, prefix, format, input, engine, 0, n);
    PageLoopDistinct(fs, folder, prefix, format, input, engine, 0, n);
    assert forall j :: 0 <= j < |run.written| ==> run.written[j] !in fs.files by {
      forall j | 0 <= j < |run.written| ensures run.written[j] !in fs.files {
        assert run.written[j] in run.written;
      }
    }
    AddDistinct(fs.files, run.written);
    forall k | 1 <= k <= n ensures run.written[k - 1] == PageName(prefix, k, Extension(format)) {
      assert run.written[k - 1] == PageName(prefix, 0 + (k - 1) + 1, Extension(format));
    }
  }

  lemma AppendAssoc(a: seq<string>, b: seq<string>, c: seq<string>)
    ensures a + b + c == a + (b + c)
  {
  }

  /** The loop's bookkeeping when page i + 1's file cannot be created: the
      run ends with the pages written so far. */
  lemma PageLoopBlocked(before: FsState, folder: string, prefix: string, format: ImageFormat, input: string,
                        engine: Engine, i: nat, n: nat, done: seq<string>, full: PageRun)
    requires i < n && !before.CanCreate(folder, PageName(prefix, i + 1, Extension(format)))
    requires full.written == done + PageLoop(before, folder, prefix, format, input, engine, i, n).written
    requires full.completed == PageLoop(before, folder, prefix, format, input, engine, i, n).completed
    ensures full == PageRun(done, false)
  {
    PageLoopStep(before, folder, prefix, format, input, engine, i, n);
    assert done + [] == done;
  }

  /** The loop's bookkeeping after page i + 1's file was created: the pages
      written so far, this page's file and what the loop still writes are
      the whole run. */
  lemma PageLoopAdvance(before: FsState, folder: string, prefix: string, format: ImageFormat, input: string,
                        engine: Engine, i: nat, n: nat, done: seq<string>, full: PageRun)
    requires i < n && before.CanCreate(folder, PageName(prefix, i + 1, Extension(format)))
    requires full.written == done + PageLoop(before, folder, prefix, format, input, engine, i, n).written
    requires full.completed == PageLoop(before, folder, prefix, format, input, engine, i, n).completed
    ensures var name := PageName(prefix, i + 1, Extension(format));
      var rest := PageLoop(FsState(before.files + {name}, before.dirs), folder, prefix, format, input, engine, i + 1, n);
      && (set x | x in done + [name]) == (set x | x in done) + {name}
      && (engine.Runs(RenderPageJob(format, input, i + 1)) ==>
            full.written == (done + [name]) + rest.written && full.completed == rest.completed)
      && (!engine.Runs(RenderPageJob(format, input, i + 1)) ==> full == PageRun(done + [name], false))
  {
    var name := PageName(prefix, i + 1, Extension(format));
    var rest := PageLoop(FsState(before.files + {name}, before.dirs), folder, prefix, format, input, engine, i + 1, n);
    PageLoopStep(before, folder, prefix, format, input, engine, i, n);
    AppendAssoc(done, [name], rest.written);
  }

  /** The `for` loop of `convert_pdf_bmp`, `_emf`, `_jpg`, `_png` and
      `_gif` over the `n` pages of an opened document: for each page create
      its file exclusively in `folder` and render the page into it. Returns
      whether it ran without an exception. */
  method WritePages(fs: FileSystem, input: string, folder: string, prefix: string,
                    format: ImageFormat, engine: Engine, n: nat)
    returns (ok: bool)
    requires fs.Valid()
    modifies fs
    ensures fs.Valid() && fs.dirs == old(fs.dirs)
    ensures var run := PageLoop(old(fs.State()), folder, prefix, format, input, engine, 0, n);
      ok == run.completed && fs.files == old(fs.files) + (set x | x in run.written)
  {
    ghost var full := PageLoop(fs.State(), folder, prefix, format, input, engine, 0, n);
    ghost var done: seq<string> := [];
    ghost var cur := fs.State();
    var i := 0;
    while i < n
      invariant 0 <= i <= n
      invariant fs.Valid() && fs.dirs == old(fs.dirs) && cur == fs.State()
      invariant fs.files == old(fs.files) + (set x | x in done)
      invariant full.written == done + PageLoop(cur, folder, prefix, format, input, engine, i, n).written
      invariant full.completed == PageLoop(cur, folder, prefix, format, input, engine, i, n).completed
    {
      var name := PageName(prefix, i + 1, Extension(format));
      var created := fs.CreateExclusive(folder, name);
      if !created {
        PageLoopBlocked(cur, folder, prefix, format, input, engine, i, n, done, full);
        return false;
      }
      PageLoopAdvance(cur, folder, prefix, format, input, engine, i, n, done, full);
      cur := FsState(cur.files + {name}, cur.dirs);
      done := done + [name];
      if !engine.Runs(RenderPageJob(format, input, i + 1)) {
        return false;
      }
      i := i + 1;
    }
    return true;
  }

  /** A whole `convert_pdf_*` call: open the document, writing nothing when
      the engine cannot, then run the page loop over all its pages. */
  method ConvertPdfToImages(fs: FileSystem, input: string, folder: string, prefix: string,
                            format: ImageFormat, engine: Engine)
    returns (ok: bool)
    requires fs.Valid()
    modifies fs
    ensures fs.Valid() && fs.dirs == old(fs.dirs)
    ensures var run := ConvertRun(old(fs.State()), input, folder, prefix, format, engine);
      ok == run.completed && fs.files == old(fs.files) + (set x | x in run.written)
  {
    if !engine.Opens(input) {
      return false;
    }
    ok := WritePages(fs, input, folder, prefix, format, engine, engine.pageCount[input]);
  }

  /** `pdf_to_images`: validate, derive the page-file prefix, dispatch the
      one converter for the normalised type; any exception after validation,
      including an existing page file, is returned as `False`, and the files
      already written stay. */
  method PdfToImages(fs: FileSystem, input: string, outDir: string, imgType: string, engine: Engine)
    returns (r: Outcome)
    requires fs.Valid()
    modifies fs
    ensures fs.Valid() && fs.dirs == old(fs.dirs)
    ensures match ValidateImageRequest(old(fs.State()), input, outDir, imgType)
      case Failure(e) => r == Raised(e) && fs.files == old(fs.files)
      case Success(format) =>
        var run := ConvertRun(old(fs.State()), input, outDir, ImagePrefix(input, outDir), format, engine);
        r == Returned(run.completed) && fs.files == old(fs.files) + (set x | x in run.written)
  {
    match ValidateImageRequest(fs.State(), input, outDir, imgType)
    case Failure(e) =>
      r := Raised(e);
    case Success(format) =>
      var ok := ConvertPdfToImages(fs, input, outDir, ImagePrefix(input, outDir), format, engine);
      r := Returned(ok);
  }
}
