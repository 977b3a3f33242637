# AI Resume Screener — verified model of the scoring pipeline

The screener takes a batch of uploaded resumes (PDF or Word files) and a job
description. For each resume it extracts the text, scores it against the job
description with a sentence-embedding model, and assigns a recommendation
band. It then shows a summary table of all rows.

This project models the deterministic pipeline inside `app.py`, one module per
stage:

- `PyStrings` (py_strings.dfy): the Python string operations the pipeline
  relies on. These are `str.endswith`, `str.strip()` and `" ".join`, with
  Python's white-space set.
- `Extraction` (extraction.dfy): the text assembly shared by
  `extract_text_from_pdf` and `extract_text_from_docx`. It keeps the non-empty
  page or paragraph texts, in document order, and joins them with single
  spaces. The document library is given as what it yields for one file: the
  sequence of units it produced, or the exception it raised.
- `Scoring` (scoring.dfy): `analyze_resume`. Scores are whole numbers of
  hundredths of a percent, so the cut points 75 and 50 are 7500 and 5000. The
  embedding model and cosine similarity form an oracle. The oracle is a
  function parameter that yields such a score or the exception it raised.
- `Screening` (screening.dfy): the work of one loop iteration of `main`. It
  picks the extractor by the `.pdf` suffix, extracts and scores, and builds the
  row. It also defines the rows and progress values of a whole batch as
  functions of the uploaded files, with lemmas on order, failure isolation and
  progress.
- `Summary` (summary.dfy): the summary table built from `results`.
- `App` (app.dfy): the button handler of `main`. It runs the two input guards,
  then the `for` loop that appends rows and progress values, then builds the
  table. It is a method with loop invariants, proved against the `Screening`
  functions.

Behaviour of the code that the model keeps as it is:

- A file whose extraction raises gets no row at all and does not advance the
  progress bar (app.py:94-95). It is not an "Error" row. Only a failure of the
  scoring step gives an "Error" row, with score 0 (app.py:60-61).
- A document whose units are all empty yields the empty string, which is
  then scored like any text. It is not an error.
- Any name that does not end in `.pdf` goes to the Word extractor. There is no
  "unsupported format" outcome. The test is case-sensitive, so `cv.PDF` is read
  as a Word file.
- An "Error" row carries score 0, not a missing score.
- Progress values are recorded only after files that produced a row. If the
  last file fails, the bar does not end at 1 (`Screening.ProgressEndsFullIff`).
- Negative similarity scores are kept as they are. They fall in the "No" band.

## Model

| member | source | states |
|---|---|---|
| PyStrings.EndsWithIffStem | app.py:88 | `name.endswith(".pdf")` holds exactly when the name is some stem followed by `.pdf` |
| PyStrings.LStrip | app.py:78 | the result is a suffix of the input, everything dropped is white space, and it does not start with white space |
| PyStrings.RStrip | app.py:78 | the result is a prefix of the input, everything dropped is white space, and it does not end with white space |
| PyStrings.StripEmptyIffBlank | app.py:78 | `not job_desc.strip()` holds exactly when every character of the job description is Python white space |
| PyStrings.JoinSplitRoundTrip | app.py:39 | `" ".join` loses nothing: given the parts' lengths, splitting at single spaces gives back the parts in order |
| Extraction.NonEmpty | app.py:39 | the comprehension filter keeps at most as many units as it is given, keeps only non-empty ones, and keeps all units when none is empty |
| Extraction.ExtractText | app.py:36-44 | an extractor fails exactly when the library raises, with the same message; otherwise it returns the assembled text of the library's units |
| Extraction.NonEmptyAppend | app.py:39 | filtering distributes over concatenation, so kept units stay in document order |
| Extraction.NonEmptyMembers | app.py:44 | a unit is kept exactly when it occurs in the document and is non-empty |
| Extraction.AssembleTextEmptyIff | app.py:39 | the extracted text is empty exactly when every page or paragraph is empty, including a document with none; this is not an error |
| Extraction.AssembleTextAppend | app.py:44 | the text of two runs of units is the two texts with one space between them, and with no space when either text is empty |
| Extraction.EmptyUnitIgnored | app.py:39 | an empty page or paragraph anywhere in the document contributes nothing |
| Extraction.AssembleTextRecoversUnits | app.py:39 | the kept units come back, in order, from the extracted text, so neighbouring units are separated by exactly one space |
| Scoring.ParseLabel | app.py:54 | a label read back as a recommendation is that recommendation's label |
| Scoring.Recommend | app.py:54 | the band is never "Error"; it is "Strong Hire" iff the score is at least 75, "Maybe" iff it is at least 50 and below 75, "No" iff it is below 50 |
| Scoring.RecommendMonotone | app.py:54 | a higher score never gets a worse band |
| Scoring.RecommendBoundaries | app.py:54 | 75.00 is "Strong Hire", 74.99 and 50.00 are "Maybe", 49.99 is "No" |
| Scoring.AnalyzeResume | app.py:47-61 | the result is "Error" with score 0 exactly when the scoring step raises; otherwise it is the oracle's score with the band of that score |
| Scoring.RecommendationDependsOnScoreOnly | app.py:54 | two successful analyses with equal scores get the same band, whatever the texts |
| Screening.ReaderForIffPdfStem | app.py:88 | the PDF extractor is chosen exactly for names of the form stem + `.pdf` |
| Screening.ReaderForExamples | app.py:88 | `cv.pdf` and `.pdf` go to the PDF extractor; `cv.PDF`, `cv.pdf.docx` and `notes.txt` go to the Word extractor |
| Screening.ProcessFile | app.py:85-91 | a file yields a row exactly when its extraction succeeds; the row carries the file's name and the analysis of its extracted text |
| Screening.RowsStep | app.py:84-92 | one loop iteration extends the rows by the file's row and the progress values by (i+1)/number of files, or extends neither when the file raised |
| Screening.SucceededExactly | app.py:84-95 | the positions of the files that produce rows are increasing, and a file is among them exactly when it produces a row |
| Screening.RowsFollowSucceeded | app.py:84-92 | row k and progress value k belong to the k-th succeeding file: its name and analysis, and (position+1)/number of files |
| Screening.RowCount | app.py:84-95 | there is at most one row per file, and exactly one per file iff no extraction raised |
| Screening.ProgressIncreasing | app.py:92 | every progress value has the file count as denominator and lies in (0, 1], and the values strictly increase |
| Screening.ProgressEndsFullIff | app.py:92 | the last progress value is 1 exactly when the last uploaded file produced a row |
| Screening.RowsAppend | app.py:84-95 | the rows of a batch split anywhere are the rows of the first part followed by those of the second |
| Screening.FailedFileSkipped | app.py:94-95 | a file whose extraction raises adds no row and leaves the other files' rows unchanged; a succeeding file adds its own row in place |
| Summary.SummaryTable | app.py:98-99 | there is a table exactly when there are results; it has exactly the three columns, and record k is row k |
| Summary.SummaryTableRoundTrip | app.py:98-99 | reading the table back gives exactly the results, in the same order |
| App.AnalyzeResumes | app.py:75-99 | no upload gives the upload error; a blank job description gives the job-description error; otherwise the loop's rows, progress values and table are those the `Screening` and `Summary` functions define |

## Left out

- The Streamlit interface is not modelled: page setup, CSS, header, expanders, spinners, the result cards, `st.error`, `st.dataframe` and the download button (app.py:13-33, 65-73, 86-87, 90, 95, 100-103). An exception raised by these widgets inside the `try` would also drop the file's row; the model assumes they do not raise.
- The markdown summary text that `analyze_resume` returns first is presentation only (app.py:55-58, 61). The model keeps only the score and the recommendation.
- Loading the SentenceTransformer model, `encode` and `pytorch_cos_sim` are a foreign library with floating-point arithmetic (app.py:10, 49-51). They are the similarity oracle parameter.
- The float rounding `round(score * 100, 2)` is not modelled (app.py:52). The oracle already yields whole hundredths.
- PyPDF2 and python-docx parsing, `file.read()` and `BytesIO` are not modelled (app.py:37-38, 42-43). Their output is the units or the exception given per file. The PDF extractor calls `page.extract_text()` twice per page; the model assumes both calls return the same text.
- pandas `DataFrame` construction is modelled only as the ordered table of records. `to_csv` and its UTF-8 encoding are not modelled (app.py:99, 102).
- `time.sleep(1)` is pacing with no functional role (app.py:93).
- The initial `st.progress(0)` is not recorded (app.py:82). The progress sequence holds only the updates made in the loop.
- The Python types of the score column are not modelled: 0 is an int on error rows and a float elsewhere.
