/** `analyze_resume` (app.py:47-61): a similarity score turned into a
    recommendation band, with any exception of the scoring step caught and
    turned into an "Error" result.

    Scores are whole numbers of hundredths of a percent: `analyze_resume` rounds
    `score * 100` to two decimals, so 75 percent is 7500 here. The embedding
    model and the cosine similarity are an oracle that yields such a number or
    the text of the exception it raised. */
module Scoring {

  import opened Outcomes

  datatype Recommendation = StrongHire | Maybe | No | Error

  /** The recommendation as app.py:54 and app.py:61 spell it in the results table. */
  function Label(r: Recommendation): string
  {
    match r
    case StrongHire => "Strong Hire"
    case Maybe => "Maybe"
    case No => "No"
    case Error => "Error"
  }

  /** Reads a label back; the four labels are distinct. */
  function ParseLabel(s: string): (r: Option<Recommendation>)
    ensures r.Some? ==> Label(r.value) == s
  {
    if s == "Strong Hire" then Some(StrongHire)
    else if s == "Maybe" then Some(Maybe)
    else if s == "No" then Some(No)
    else if s == "Error" then Some(Error)
    else None
  }

  lemma LabelRoundTrip(r: Recommendation)
    ensures ParseLabel(Label(r)) == Some(r)
  {
  }

  /** Inclusive lower bounds of the two upper bands, in hundredths. */
  const StrongHireCutoff: int := 7500
  const MaybeCutoff: int := 5000

  /** The banding expression of app.py:54. */
  function Recommend(score: int): (r: Recommendation)
    ensures r != Error
    ensures r == StrongHire <==> score >= StrongHireCutoff
    ensures r == Maybe <==> MaybeCutoff <= score < StrongHireCutoff
    ensures r == No <==> score < MaybeCutoff
  {
    if score >= StrongHireCutoff then StrongHire
    else if score >= MaybeCutoff then Maybe
    else No
  }

  /** Bands ordered from worst to best. */
  function Rank(r: Recommendation): int
  {
    match r
    case Error => 0
    case No => 1
    case Maybe => 2
    case StrongHire => 3
  }

  /** A higher score never gets a worse band. */
  lemma RecommendMonotone(a: int, b: int)
    requires a <= b
    ensures Rank(Recommend(a)) <= Rank(Recommend(b))
  {
  }

  /** The cut points belong to the higher band; one hundredth below them does not. */
  lemma RecommendBoundaries()
    ensures Recommend(7500) == StrongHire && Recommend(7499) == Maybe
    ensures Recommend(5000) == Maybe && Recommend(4999) == No
    ensures Recommend(10000) == StrongHire && Recommend(-1) == No
  {
  }

  /** What the encoder and `pytorch_cos_sim` yield for a resume text and a job
      description: the rounded score, or the exception they raised. */
  datatype Similarity = Scored(hundredths: int) | Raised(message: string)

  type SimilarityOracle = (string, string) -> Similarity

  /** The score and recommendation `analyze_resume` returns. */
  datatype Analysis = Analysis(score: int, recommendation: Recommendation)

  /** An analysis is an error carrying score 0, or a band that its score determines. */
  predicate Consistent(a: Analysis)
  {
    if a.recommendation == Error then a.score == 0
    else a.recommendation == Recommend(a.score)
  }

  /** `analyze_resume`: never raises; an exception of the scoring step becomes
      score 0 with "Error". */
  function AnalyzeResume(resumeText: string, jobDesc: string, similarity: SimilarityOracle): (a: Analysis)
    ensures Consistent(a)
    ensures a.recommendation == Error <==> similarity(resumeText, jobDesc).Raised?
    ensures similarity(resumeText, jobDesc).Scored? ==> a.score == similarity(resumeText, jobDesc).hundredths
  {
    match similarity(resumeText, jobDesc)
    case Raised(_) => Analysis(0, Error)
    case Scored(score) => Analysis(score, Recommend(score))
  }

  /** The recommendation depends on the score alone: two successful analyses
      with the same score, of any texts, get the same band. */
  lemma RecommendationDependsOnScoreOnly(
    r1: string, j1: string, r2: string, j2: string, similarity: SimilarityOracle)
    requires similarity(r1, j1).Scored? && similarity(r2, j2).Scored?
    requires AnalyzeResume(r1, j1, similarity).score == AnalyzeResume(r2, j2, similarity).score
    ensures AnalyzeResume(r1, j1, similarity).recommendation == AnalyzeResume(r2, j2, similarity).recommendation
  {
  }
}
