/** What `main` does when "Analyze Resumes" is pressed (app.py:75-99): reject
    an empty upload or a blank job description, otherwise process the files in
    upload order, skipping any whose processing raises, while the progress bar
    is advanced after each file that produced a row; then build the summary
    table if there is any row. */
module App {

  import opened Outcomes
  import opened PyStrings
  import opened Scoring
  import opened Screening
  import opened Summary

  datatype Screen =
    | NoResumeUploaded        // "Upload at least 1 resume"
    | NoJobDescription        // "Enter a job description"
    | Screened(results: seq<Row>, progress: seq<Fraction>, summary: Option<Table>)

  method AnalyzeResumes(files: seq<UploadedFile>, jobDesc: string, similarity: SimilarityOracle)
    returns (screen: Screen)
    ensures files == [] ==> screen == NoResumeUploaded
    ensures files != [] && IsBlank(jobDesc) ==> screen == NoJobDescription
    ensures files != [] && !IsBlank(jobDesc) ==>
      screen.Screened?
      && screen.results == Rows(files, jobDesc, similarity)
      && screen.progress == Progress(files, |files|, jobDesc, similarity)
      && screen.summary == SummaryTable(screen.results)
  {
    if files == [] {
      return NoResumeUploaded;
    } else if Strip(jobDesc) == "" {
      StripEmptyIffBlank(jobDesc);
      return NoJobDescription;
    }
    StripEmptyIffBlank(jobDesc);
    var results: seq<Row> := [];
    var progress: seq<Fraction> := [];
    for i := 0 to |files|
      invariant results == Rows(files[..i], jobDesc, similarity)
      invariant progress == Progress(files[..i], |files|, jobDesc, similarity)
    {
      RowsStep(files, i, |files|, jobDesc, similarity);
      var file := files[i];
      match ExtractFile(file)
      case Failure(_) =>
        // the exception is reported and the file gets no row
      case Success(text) =>
        var analysis := AnalyzeResume(text, jobDesc, similarity);
        results := results + [Row(file.name, analysis.score, analysis.recommendation)];
        progress := progress + [Fraction(i + 1, |files|)];
    }
    assert files[..|files|] == files;
    screen := Screened(results, progress, SummaryTable(results));
  }
}
