/** One uploaded resume through the pipeline of `main` (app.py:84-95): choose
    the extractor by file name, extract, score, and produce a results row; and
    the rows and progress values a whole batch yields, as functions of the
    uploaded files. */
module Screening {

  import opened Outcomes
  import opened PyStrings
  import opened Extraction
  import opened Scoring

  /** An uploaded file: its name, and what each document library would yield
      for its bytes (the units it produced or the exception it raised). Only
      the one the name selects is ever consulted. */
  datatype UploadedFile = UploadedFile(name: string, asPdf: LibraryOutput, asDocx: LibraryOutput)

  datatype Reader = PdfReader | DocxReader

  /** The dispatch of app.py:88: a case-sensitive `.pdf` suffix selects the PDF
      extractor, and every other name, whatever its extension, the DOCX one. */
  function ReaderFor(name: string): Reader
  {
    if EndsWith(name, ".pdf") then PdfReader else DocxReader
  }

  /** The PDF extractor is chosen exactly for the names that are some stem
      followed by `.pdf`. */
  lemma ReaderForIffPdfStem(name: string)
    ensures ReaderFor(name) == PdfReader <==> exists stem :: name == stem + ".pdf"
  {
    EndsWithIffStem(name, ".pdf");
  }

  /** The suffix test is literal: upper case, a trailing extension after `.pdf`
      or an unknown extension all go to the DOCX extractor. */
  lemma ReaderForExamples()
    ensures ReaderFor("cv.pdf") == PdfReader
    ensures ReaderFor("cv.PDF") == DocxReader
    ensures ReaderFor("cv.pdf.docx") == DocxReader
    ensures ReaderFor("notes.txt") == DocxReader
    ensures ReaderFor(".pdf") == PdfReader
  {
  }

  /** The extraction step of app.py:88 for one file. */
  function ExtractFile(f: UploadedFile): Result<string>
  {
    match ReaderFor(f.name)
    case PdfReader => ExtractText(f.asPdf)
    case DocxReader => ExtractText(f.asDocx)
  }

  /** The dict appended to `results` (app.py:91). */
  datatype Row = Row(fileName: string, score: int, recommendation: Recommendation)

  /** The body of the `try` of app.py:85-91: no row when extraction raises,
      otherwise the file's name with the analysis of its text. */
  function ProcessFile(f: UploadedFile, jobDesc: string, similarity: SimilarityOracle): (r: Option<Row>)
    ensures r.Some? <==> ExtractFile(f).Success?
    ensures r.Some? ==> r.value.fileName == f.name
    ensures r.Some? ==> Consistent(Analysis(r.value.score, r.value.recommendation))
    ensures r.Some? ==> Analysis(r.value.score, r.value.recommendation)
                        == AnalyzeResume(ExtractFile(f).value, jobDesc, similarity)
  {
    match ExtractFile(f)
    case Failure(_) => None
    case Success(text) =>
      var a := AnalyzeResume(text, jobDesc, similarity);
      Some(Row(f.name, a.score, a.recommendation))
  }

  /** A progress value `num / den`. */
  datatype Fraction = Fraction(num: nat, den: nat)

  /** The rows a batch appends, file by file. */
  function Rows(files: seq<UploadedFile>, jobDesc: string, similarity: SimilarityOracle): seq<Row>
  {
    if files == [] then []
    else
      var last := ProcessFile(files[|files| - 1], jobDesc, similarity);
      Rows(files[..|files| - 1], jobDesc, similarity) + (if last.Some? then [last.value] else [])
  }

  /** The values the progress bar is set to while the first `|files|` of
      `total` uploaded files are processed: `(i+1)/total` after each file `i`
      that produced a row, and nothing for a file that raised. */
  function Progress(files: seq<UploadedFile>, total: nat, jobDesc: string, similarity: SimilarityOracle): seq<Fraction>
  {
    if files == [] then []
    else
      var last := ProcessFile(files[|files| - 1], jobDesc, similarity);
      Progress(files[..|files| - 1], total, jobDesc, similarity)
        + (if last.Some? then [Fraction(|files|, total)] else [])
  }

  /** Processing one more file extends the rows and the progress values by
      that file's row and `(i+1)/total`, or by nothing if it raised. */
  lemma RowsStep(files: seq<UploadedFile>, i: nat, total: nat, jobDesc: string, similarity: SimilarityOracle)
    requires i < |files|
    ensures var r := ProcessFile(files[i], jobDesc, similarity);
      Rows(files[..i + 1], jobDesc, similarity)
        == Rows(files[..i], jobDesc, similarity) + (if r.Some? then [r.value] else [])
      && Progress(files[..i + 1], total, jobDesc, similarity)
        == Progress(files[..i], total, jobDesc, similarity) + (if r.Some? then [Fraction(i + 1, total)] else [])
  {
    var done := files[..i + 1];
    assert done[..|done| - 1] == files[..i] && done[|done| - 1] == files[i];
  }

  /** The positions, in upload order, of the files that produce a row. */
  function Succeeded(files: seq<UploadedFile>, jobDesc: string, similarity: SimilarityOracle): (idx: seq<nat>)
    ensures forall k :: 0 <= k < |idx| ==> idx[k] < |files|
  {
    if files == [] then []
    else
      var n := |files| - 1;
      Succeeded(files[..n], jobDesc, similarity)
        + (if ProcessFile(files[n], jobDesc, similarity).Some? then [n] else [])
  }

  /** The positions of the succeeding files are increasing, and a file is among
      them exactly when processing it produces a row. */
  lemma {:induction false} SucceededExactly(files: seq<UploadedFile>, jobDesc: string, similarity: SimilarityOracle)
    ensures var idx := Succeeded(files, jobDesc, similarity);
      (forall k, l :: 0 <= k < l < |idx| ==> idx[k] < idx[l])
      && (forall i :: 0 <= i < |files| ==> (i in idx <==> ProcessFile(files[i], jobDesc, similarity).Some?))
  {
    if files != [] {
      var n := |files| - 1;
      SucceededExactly(files[..n], jobDesc, similarity);
      forall i | 0 <= i < n ensures files[..n][i] == files[i] { }
    }
  }

  /** Row `k` and progress value `k` both belong to the `k`-th succeeding file:
      the row carries that file's name and analysis, the progress value is its
      position plus one over the number of uploaded files. */
  lemma {:induction false} RowsFollowSucceeded(
    files: seq<UploadedFile>, total: nat, jobDesc: string, similarity: SimilarityOracle)
    ensures var idx := Succeeded(files, jobDesc, similarity);
      var rows := Rows(files, jobDesc, similarity);
      var progress := Progress(files, total, jobDesc, similarity);
      |rows| == |idx| && |progress| == |idx|
      && (forall k :: 0 <= k < |idx| ==>
            ProcessFile(files[idx[k]], jobDesc, similarity) == Some(rows[k])
            && rows[k].fileName == files[idx[k]].name
            && progress[k] == Fraction(idx[k] + 1, total))
  {
    if files != [] {
      var n := |files| - 1;
      RowsFollowSucceeded(files[..n], total, jobDesc, similarity);
      forall i | 0 <= i < n ensures files[..n][i] == files[i] { }
    }
  }

  /** At most one row per file; exactly one per file when no extraction raised. */
  lemma {:induction false} RowCount(files: seq<UploadedFile>, jobDesc: string, similarity: SimilarityOracle)
    ensures |Rows(files, jobDesc, similarity)| <= |files|
    ensures |Rows(files, jobDesc, similarity)| == |files|
            <==> forall i :: 0 <= i < |files| ==> ExtractFile(files[i]).Success?
  {
    if files != [] {
      var n := |files| - 1;
      RowCount(files[..n], jobDesc, similarity);
      forall i | 0 <= i < n ensures files[..n][i] == files[i] { }
    }
  }

  /** The progress bar only moves forward and never passes 1. */
  lemma ProgressIncreasing(files: seq<UploadedFile>, jobDesc: string, similarity: SimilarityOracle)
    ensures var progress := Progress(files, |files|, jobDesc, similarity);
      (forall k :: 0 <= k < |progress| ==>
         progress[k].den == |files| && 1 <= progress[k].num <= progress[k].den)
      && (forall k, l :: 0 <= k < l < |progress| ==> progress[k].num < progress[l].num)
  {
    RowsFollowSucceeded(files, |files|, jobDesc, similarity);
    SucceededExactly(files, jobDesc, similarity);
  }

  /** The bar ends full exactly when the last uploaded file produced a row; a
      failure of the last file leaves it short of 1. */
  lemma ProgressEndsFullIff(files: seq<UploadedFile>, jobDesc: string, similarity: SimilarityOracle)
    requires files != []
    ensures var progress := Progress(files, |files|, jobDesc, similarity);
      (progress != [] && progress[|progress| - 1] == Fraction(|files|, |files|))
      <==> ExtractFile(files[|files| - 1]).Success?
  {
    var n := |files| - 1;
    var progress := Progress(files, |files|, jobDesc, similarity);
    if ExtractFile(files[n]).Failure? {
      var before := Progress(files[..n], |files|, jobDesc, similarity);
      assert progress == before;
      RowsFollowSucceeded(files[..n], |files|, jobDesc, similarity);
      if before != [] {
        assert Succeeded(files[..n], jobDesc, similarity)[|before| - 1] < n;
      }
    }
  }

  /** Rows of a batch split at any point are the rows of the two parts. */
  lemma {:induction false} RowsAppend(a: seq<UploadedFile>, b: seq<UploadedFile>, jobDesc: string, similarity: SimilarityOracle)
    ensures Rows(a + b, jobDesc, similarity) == Rows(a, jobDesc, similarity) + Rows(b, jobDesc, similarity)
    decreases |b|
  {
    if b == [] {
      assert a + b == a;
    } else {
      var n := |b| - 1;
      assert (a + b)[..|a + b| - 1] == a + b[..n];
      RowsAppend(a, b[..n], jobDesc, similarity);
    }
  }

  /** Failure isolation: a file whose extraction raises adds no row and leaves
      the rows of the files before and after it as they would be without it. */
  lemma FailedFileSkipped(
    a: seq<UploadedFile>, f: UploadedFile, b: seq<UploadedFile>, jobDesc: string, similarity: SimilarityOracle)
    ensures ExtractFile(f).Failure? ==>
      Rows(a + [f] + b, jobDesc, similarity) == Rows(a + b, jobDesc, similarity)
    ensures ExtractFile(f).Success? ==>
      Rows(a + [f] + b, jobDesc, similarity)
        == Rows(a, jobDesc, similarity) + [ProcessFile(f, jobDesc, similarity).value] + Rows(b, jobDesc, similarity)
  {
    RowsAppend(a + [f], b, jobDesc, similarity);
    RowsAppend(a, [f], jobDesc, similarity);
    RowsAppend(a, b, jobDesc, similarity);
    assert [f][..0] == [];
  }
}
