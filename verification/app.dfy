/** The parts of the Streamlit front end (app.py) that decide something:
    the colour band of a score, the guard in front of the screening run,
    the state the run starts from, and the summary computed from its
    result.  Saving an upload to disk is a collaborator that maps an
    uploaded file's name to the path it was written to.
 */
module App {
  import opened Wrappers
  import opened Records
  import Workflow
  import Text
  import DocumentProcessor

  // ---------------------------------------------------------------- score band

  const HighClass: string := "score-high"
  const MediumClass: string := "score-medium"
  const LowClass: string := "score-low"

  /** `get_score_class`: the CSS class for a match score. */
  function GetScoreClass(score: real): (r: string)
    ensures r == HighClass <==> score >= 75.0
    ensures r == MediumClass <==> 60.0 <= score < 75.0
    ensures r == LowClass <==> score < 60.0
  {
    if score >= 75.0 then HighClass
    else if score >= 60.0 then MediumClass
    else LowClass
  }

  /** The order of the bands, low to high. */
  function BandRank(c: string): nat {
    if c == HighClass then 2 else if c == MediumClass then 1 else 0
  }

  /** Every score gets exactly one of the three classes, and a higher
      score never gets a lower band. */
  lemma ScoreClassTotalAndMonotone(a: real, b: real)
    ensures GetScoreClass(a) in [LowClass, MediumClass, HighClass]
    ensures a <= b ==> BandRank(GetScoreClass(a)) <= BandRank(GetScoreClass(b))
  {
  }

  /** The medium band starts at the shortlist threshold: a score gets a
      band above "low" exactly when the matcher would shortlist it. */
  lemma ScoreClassAgreesWithShortlist(score: real)
    ensures GetScoreClass(score) != LowClass <==> score >= 60.0
  {
  }

  // ---------------------------------------------------------------- form guard

  /** What the form holds when the start button is pressed.  The job
      description upload is absent or present; the CV uploader yields a
      list of file names. */
  datatype Form = Form(jobTitle: string, companyName: string, jdFile: Option<string>, cvFiles: seq<string>)

  const MissingFieldsMessage: string := "\U{274C} Please fill all required fields"

  /** `not x` on each form field: an empty string, a missing upload and an
      empty list are falsy. */
  predicate Complete(f: Form) {
    f.jobTitle != "" && f.companyName != "" && f.jdFile.Some? && |f.cvFiles| > 0
  }

  /** The state literal the start button builds once the files are saved. */
  function InitialState(f: Form, save: string -> string): (r: Workflow.State)
    requires f.jdFile.Some?
    ensures r.jobId == 0 && r.status == Workflow.Initialized && r.status.Tag() == "initialized" && r.error == ""
    ensures r.jobTitle == f.jobTitle && r.company == f.companyName && r.jdFilePath == save(f.jdFile.value)
    ensures r.jdText == "" && r.jdSummary == "" && r.jdChunks == []
    ensures r.candidates == [] && r.matchResults == [] && r.shortlisted == [] && r.invitesSent == []
    ensures |r.cvFilePaths| == |f.cvFiles| && forall i :: 0 <= i < |f.cvFiles| ==> r.cvFilePaths[i] == save(f.cvFiles[i])
  {
    Workflow.State(0, f.jobTitle, f.companyName, save(f.jdFile.value), "", "", [], SavedPaths(f.cvFiles, save),
                   [], [], [], [], Workflow.Initialized, "")
  }

  /** The paths of the saved CVs, in upload order. */
  function SavedPaths(files: seq<string>, save: string -> string): (r: seq<string>)
    ensures |r| == |files| && forall i :: 0 <= i < |files| ==> r[i] == save(files[i])
  {
    if |files| == 0 then [] else [save(files[0])] + SavedPaths(files[1..], save)
  }

  /** The start button: an incomplete form is refused with a message;
      otherwise the run gets the initial state. */
  function StartScreening(f: Form, save: string -> string): (r: Result<Workflow.State>)
    ensures r.Ok? <==> Complete(f)
    ensures r.Err? ==> r.msg == MissingFieldsMessage
    ensures r.Ok? ==> r.value.status == Workflow.Initialized && r.value.error == "" && r.value.jobId == 0
                      && |r.value.cvFilePaths| == |f.cvFiles| > 0
    ensures r.Ok? ==> r.value == InitialState(f, save)
  {
    if !Complete(f) then Err(MissingFieldsMessage)
    else Ok(InitialState(f, save))
  }

  /** A run started from the form, with the guard on every edge, that
      reports "completed" carries no error message. */
  lemma StartedRunCompletesClean(env: Workflow.Env, w: Workflow.World, f: Form, save: string -> string)
    requires Workflow.ValidWorld(w)
    requires StartScreening(f, save).Ok?
    ensures var r := Workflow.RunGuarded(env, w, StartScreening(f, save).value).1;
      r.status == Workflow.Completed ==> r.error == ""
  {
    Workflow.GuardedCompletionIsClean(env, w, StartScreening(f, save).value);
  }

  /** The graph as the page invokes it has no guard: a run whose job
      description cannot be processed, and none of whose CVs can, is shown
      as "completed" with an indexing error in place. */
  lemma StartedRunCompletesDespiteError(env: Workflow.Env, w: Workflow.World, f: Form, save: string -> string)
    requires Workflow.ValidWorld(w)
    requires StartScreening(f, save).Ok?
    requires DocumentProcessor.ProcessJobDescription(env.docs, save(f.jdFile.value)).Err?
    requires Workflow.Processed(Workflow.CvProcessor(env.docs), SavedPaths(f.cvFiles, save)) == []
    ensures var r := Workflow.Run(env, w, StartScreening(f, save).value).1;
      r.status == Workflow.Completed && Text.StartsWith(r.error, "JD Indexing: ")
  {
    Workflow.CompletedDespiteError(env, w, StartScreening(f, save).value);
  }

  // ---------------------------------------------------------------- summary

  /** `sum(c['match_score'] for c in results)`. */
  function SumScores(results: seq<Scored>): real {
    if |results| == 0 then 0.0 else Score(results[0]) + SumScores(results[1..])
  }

  const DivisionByZero: string := "division by zero"

  /** The "Avg Score" metric: the mean match score; with no match results
      the division raises. */
  function AverageScore(results: seq<Scored>): (r: Result<real>)
    ensures r.Err? <==> |results| == 0
    ensures r.Err? ==> r.msg == DivisionByZero
    ensures r.Ok? ==> r.value * (|results| as real) == SumScores(results)
  {
    if |results| == 0 then Err(DivisionByZero)
    else Ok(SumScores(results) / (|results| as real))
  }

  /** Scores between `lo` and `hi` sum to between n*lo and n*hi. */
  lemma {:induction false} SumScoresBounds(results: seq<Scored>, lo: real, hi: real)
    requires forall i :: 0 <= i < |results| ==> lo <= Score(results[i]) <= hi
    ensures (|results| as real) * lo <= SumScores(results) <= (|results| as real) * hi
  {
    if |results| > 0 {
      assert forall i :: 1 <= i < |results| ==> results[1..][i - 1] == results[i];
      SumScoresBounds(results[1..], lo, hi);
      var m := (|results| - 1) as real;
      assert (|results| as real) * lo == m * lo + lo;
      assert (|results| as real) * hi == m * hi + hi;
    }
  }

  /** The average lies between the lowest and the highest score. */
  lemma AverageWithinBounds(results: seq<Scored>, lo: real, hi: real)
    requires |results| > 0
    requires forall i :: 0 <= i < |results| ==> lo <= Score(results[i]) <= hi
    ensures lo <= AverageScore(results).value <= hi
  {
    SumScoresBounds(results, lo, hi);
    var n := |results| as real;
    var avg := AverageScore(results).value;
    assert avg * n == SumScores(results);
    assert n * lo <= avg * n <= n * hi;
  }

  /** The four metric cards shown after a run. */
  datatype Summary = Summary(cvsProcessed: nat, shortlisted: nat, avgScore: real, invitesSent: nat)

  /** The metrics of a finished run; computing them raises, and the page
      shows "Error: division by zero", when there are no match results —
      which is the case for every run that failed before matching. */
  function Summarize(s: Workflow.State): (r: Result<Summary>)
    ensures r.Err? <==> |s.matchResults| == 0
    ensures r.Err? ==> r.msg == DivisionByZero
    ensures r.Ok? ==> && r.value.cvsProcessed == |s.candidates| && r.value.shortlisted == |s.shortlisted|
                      && r.value.invitesSent == |s.invitesSent|
                      && r.value.avgScore * (|s.matchResults| as real) == SumScores(s.matchResults)
  {
    var avg :- AverageScore(s.matchResults);
    Ok(Summary(|s.candidates|, |s.shortlisted|, avg, |s.invitesSent|))
  }
}
