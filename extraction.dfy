/** Text assembly shared by `extract_text_from_pdf` and
    `extract_text_from_docx` (app.py:36-44). The document library (PyPDF2 for
    PDFs, python-docx for Word files) is outside the model: what it yields for
    one file is given either as the sequence of text units it produced (page
    texts or paragraph texts, in document order) or as the exception it raised. */
module Extraction {

  import opened Outcomes
  import opened PyStrings

  /** What the document library produced for one file. */
  type LibraryOutput = Result<seq<string>>

  /** The units kept by the comprehension's `if` filter: the non-empty ones,
      in document order. */
  function NonEmpty(units: seq<string>): (kept: seq<string>)
    ensures |kept| <= |units|
    ensures forall i :: 0 <= i < |kept| ==> kept[i] != ""
    ensures (forall i :: 0 <= i < |units| ==> units[i] != "") ==> kept == units
  {
    if units == [] then []
    else if units[0] == "" then NonEmpty(units[1..])
    else [units[0]] + NonEmpty(units[1..])
  }

  /** The string both extractors return once the library has produced its units. */
  function AssembleText(units: seq<string>): string
  {
    Join(" ", NonEmpty(units))
  }

  /** Either extractor: the library's exception propagates unchanged,
      otherwise the non-empty units are joined with single spaces. */
  function ExtractText(output: LibraryOutput): (r: Result<string>)
    ensures r.Failure? <==> output.Failure?
    ensures output.Failure? ==> r.message == output.message
    ensures output.Success? ==> r.value == AssembleText(output.value)
  {
    match output
    case Failure(message) => Failure(message)
    case Success(units) => Success(AssembleText(units))
  }

  /** Filtering distributes over concatenation, so the kept units keep their order. */
  lemma {:induction false} NonEmptyAppend(a: seq<string>, b: seq<string>)
    ensures NonEmpty(a + b) == NonEmpty(a) + NonEmpty(b)
  {
    if a != [] {
      assert (a + b)[1..] == a[1..] + b;
      NonEmptyAppend(a[1..], b);
    } else {
      assert a + b == b;
    }
  }

  /** The kept units are exactly the non-empty units: every non-empty unit is
      kept, and everything kept was a unit. */
  lemma {:induction false} NonEmptyMembers(units: seq<string>, u: string)
    ensures u in NonEmpty(units) <==> u in units && u != ""
  {
    if units != [] {
      NonEmptyMembers(units[1..], u);
      assert units == [units[0]] + units[1..];
    }
  }

  /** The assembled text is empty exactly when every unit is empty (including
      the document with no units at all); this is not an error. */
  lemma {:induction false} AssembleTextEmptyIff(units: seq<string>)
    ensures AssembleText(units) == "" <==> forall i :: 0 <= i < |units| ==> units[i] == ""
  {
    var kept := NonEmpty(units);
    if |kept| > 0 {
      JoinLength(" ", kept);
      assert kept[0] in kept;
      NonEmptyMembers(units, kept[0]);
    } else {
      forall i | 0 <= i < |units| ensures units[i] == "" {
        if units[i] != "" {
          NonEmptyMembers(units, units[i]);
        }
      }
    }
  }

  /** Assembling two runs of units: the texts of the two runs, with a single
      space between them only when both are non-empty. */
  lemma {:induction false} AssembleTextAppend(a: seq<string>, b: seq<string>)
    ensures AssembleText(a + b) ==
      if AssembleText(a) == "" then AssembleText(b)
      else if AssembleText(b) == "" then AssembleText(a)
      else AssembleText(a) + " " + AssembleText(b)
  {
    NonEmptyAppend(a, b);
    AssembleTextEmptyIff(a);
    AssembleTextEmptyIff(b);
    var ka, kb := NonEmpty(a), NonEmpty(b);
    if ka == [] {
      assert ka + kb == kb;
    } else if kb == [] {
      assert ka + kb == ka;
    } else {
      JoinAppend(" ", ka, kb);
    }
  }

  /** An empty page or paragraph contributes nothing, wherever it occurs. */
  lemma EmptyUnitIgnored(a: seq<string>, b: seq<string>)
    ensures AssembleText(a + [""] + b) == AssembleText(a + b)
  {
    NonEmptyAppend(a + [""], b);
    NonEmptyAppend(a, [""]);
    NonEmptyAppend(a, b);
    assert NonEmpty([""]) == [];
    assert NonEmpty(a) + [] == NonEmpty(a);
  }

  /** Nothing is lost or reordered: the kept units, in document order, come
      back from the assembled text given their lengths, so consecutive kept
      units are separated by exactly one space. */
  lemma AssembleTextRecoversUnits(units: seq<string>)
    ensures SplitBySpaces(AssembleText(units), Lengths(NonEmpty(units))) == Some(NonEmpty(units))
  {
    JoinSplitRoundTrip(NonEmpty(units));
  }
}
