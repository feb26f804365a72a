/** Candidate-to-job matching (agents/matcher_agent.py).

    The language model is a collaborator returning the reply text, and
    `json.loads` is a collaborator returning a decoded reply.  Only the
    fields the matcher reads are kept: `match_score` as whatever `float()`
    makes of it, and the other four as present or absent.
 */
module Matcher {
  import opened Wrappers
  import opened Text
  import Config
  import Sorting
  import Embedding
  import opened Records

  /** `result.get("match_score", 0)` seen through `float()`. */
  datatype ScoreField = Missing | Number(value: real) | Unconvertible(reason: string)

  datatype Reply = Reply(
    score: ScoreField,
    strengths: Option<seq<string>>,
    gaps: Option<seq<string>>,
    reasoning: Option<string>,
    recommendation: Option<string>)

  /** What `json.loads` makes of the reply: a decode error, a JSON value
      that is not an object (which has no `.get`), or an object. */
  datatype Decoded = DecodeError | NotAnObject(typeName: string) | Object(reply: Reply)

  /** The inputs of the matching prompt. */
  datatype MatchPrompt = MatchPrompt(jdSummary: string, jdContext: string, candidateName: string, cvContext: string)

  datatype Services = Services(
    chat: MatchPrompt -> Result<string>,
    decode: string -> Decoded)

  const QueryLength: nat := 500
  const JdResults: nat := 3
  const FallbackScore: real := 50.0
  const FallbackStrengths: seq<string> := ["Unable to parse detailed analysis"]
  const FallbackGaps: seq<string> := ["Requires manual review"]
  const FallbackRecommendation: string := "potential_match"
  const DefaultRecommendation: string := "poor_match"
  const ReasoningLength: nat := 200

  /** The threshold test applied on the success path. */
  predicate OverThreshold(score: real) {
    score >= Config.MinMatchScore
  }

  /** The record used when the reply is not valid JSON. */
  function Fallback(raw: string): (r: MatchData)
    ensures !r.isShortlisted && r.matchScore == FallbackScore
    ensures |r.reasoning| <= ReasoningLength && |r.reasoning| <= |raw| && r.reasoning == raw[..|r.reasoning|]
    ensures |raw| <= ReasoningLength ==> r.reasoning == raw
  {
    MatchData(FallbackScore, FallbackStrengths, FallbackGaps, Prefix(raw, ReasoningLength), FallbackRecommendation, false)
  }

  /** The parse step of `calculate_match_score`.  Only a decode error falls
      back; a non-object reply or an unconvertible score raises. */
  function MatchFromReply(decoded: Decoded, raw: string): (r: Result<MatchData>)
    ensures decoded.DecodeError? ==> r == Ok(Fallback(raw))
    ensures decoded.NotAnObject? ==> r == Err("'" + decoded.typeName + "' object has no attribute 'get'")
    ensures decoded.Object? ==> (r.Err? <==> decoded.reply.score.Unconvertible?)
    ensures decoded.Object? && r.Err? ==> r.msg == decoded.reply.score.reason
    ensures decoded.Object? && r.Ok? ==>
      var reply := decoded.reply;
      && r.value.matchScore == (if reply.score.Missing? then 0.0 else reply.score.value)
      && r.value.strengths == reply.strengths.GetOr([])
      && r.value.gaps == reply.gaps.GetOr([])
      && r.value.reasoning == reply.reasoning.GetOr("")
      && r.value.recommendation == reply.recommendation.GetOr(DefaultRecommendation)
  {
    match decoded
    case DecodeError => Ok(Fallback(raw))
    case NotAnObject(t) => Err("'" + t + "' object has no attribute 'get'")
    case Object(reply) =>
      match reply.score
      case Unconvertible(e) => Err(e)
      case Missing => Ok(WithDefaults(reply, 0.0))
      case Number(v) => Ok(WithDefaults(reply, v))
  }

  /** The success-path record for a reply whose score converts to `score`. */
  function WithDefaults(reply: Reply, score: real): MatchData {
    MatchData(score, reply.strengths.GetOr([]), reply.gaps.GetOr([]), reply.reasoning.GetOr(""),
              reply.recommendation.GetOr(DefaultRecommendation), OverThreshold(score))
  }

  /** On the success path a record is shortlisted exactly when its score
      reaches the threshold. */
  lemma ShortlistedIffOverThreshold(decoded: Decoded, raw: string)
    requires decoded.Object?
    requires MatchFromReply(decoded, raw).Ok?
    ensures MatchFromReply(decoded, raw).value.isShortlisted <==> MatchFromReply(decoded, raw).value.matchScore >= 60.0
  {
  }

  /** The fallback is never shortlisted, whatever its score. */
  lemma FallbackNeverShortlisted(raw: string)
    ensures MatchFromReply(DecodeError, raw).Ok?
    ensures !MatchFromReply(DecodeError, raw).value.isShortlisted
    ensures OverThreshold(FallbackScore) == false
  {
  }

  /** The recommendation is passed through unchecked: any string the model
      returns, in or out of the four documented categories, is kept. */
  lemma RecommendationUnchecked(s: string, score: real)
    ensures var r := MatchFromReply(Object(Reply(Number(score), None, None, None, Some(s))), "");
      r.Ok? && r.value.recommendation == s
  {
  }

  /** The prompt inputs: the candidate's stored CV context, and the
      documents of the three JD chunks nearest its first 500 characters,
      joined by blank lines in the order returned. */
  function PromptFor(esv: Embedding.Services, idx: Embedding.Index, candidateId: nat, candidateName: string,
                     jdSummary: string, jobId: nat): (r: Result<MatchPrompt>)
    ensures var cv := Embedding.GetCvContext(idx, candidateId);
      var hits := Embedding.SearchSimilarJdChunks(esv, idx, Prefix(cv, QueryLength), jobId, JdResults);
      && (r.Ok? <==> hits.Ok?)
      && (r.Err? ==> r.msg == hits.msg)
      && (r.Ok? ==> r.value == MatchPrompt(jdSummary, Join(Sorting.Map(hits.value, (h: Embedding.Hit) => h.document), "\n\n"),
                                          candidateName, cv))
  {
    var cvContext := Embedding.GetCvContext(idx, candidateId);
    var hits :- Embedding.SearchSimilarJdChunks(esv, idx, Prefix(cvContext, QueryLength), jobId, JdResults);
    var jdContext := Join(Sorting.Map(hits, (h: Embedding.Hit) => h.document), "\n\n");
    Ok(MatchPrompt(jdSummary, jdContext, candidateName, cvContext))
  }

  /** A candidate indexed once, with the metadata the pipeline gives it, is
      matched on exactly its own chunks. */
  lemma PromptSeesIndexedChunks(esv: Embedding.Services, idx: Embedding.Index, candidateId: nat, candidateName: string,
                                jdSummary: string, jobId: nat, chunks: seq<string>, metadata: Embedding.Metadata)
    requires Embedding.IndexCv(esv, idx, candidateId, chunks, metadata).Ok?
    requires Embedding.DocumentsWhere(idx.cv.entries, Embedding.CandidateFilter(candidateId)) == []
    requires "candidate_id" in metadata && metadata["candidate_id"] == Embedding.IntValue(candidateId)
    requires PromptFor(esv, Embedding.IndexCv(esv, idx, candidateId, chunks, metadata).value.0, candidateId,
                       candidateName, jdSummary, jobId).Ok?
    ensures PromptFor(esv, Embedding.IndexCv(esv, idx, candidateId, chunks, metadata).value.0, candidateId,
                      candidateName, jdSummary, jobId).value.cvContext == Join(chunks, "\n\n")
  {
    Embedding.IndexThenContext(esv, idx, candidateId, chunks, metadata);
  }

  /** `calculate_match_score`: retrieval and model errors propagate; the
      reply is then parsed. */
  function CalculateMatchScore(sv: Services, esv: Embedding.Services, idx: Embedding.Index, candidateId: nat,
                               candidateName: string, jdSummary: string, jobId: nat): (r: Result<MatchData>)
    ensures PromptFor(esv, idx, candidateId, candidateName, jdSummary, jobId).Err? ==>
      r == Err(PromptFor(esv, idx, candidateId, candidateName, jdSummary, jobId).msg)
    ensures r.Ok? ==>
      var p := PromptFor(esv, idx, candidateId, candidateName, jdSummary, jobId);
      && p.Ok? && sv.chat(p.value).Ok?
      && MatchFromReply(sv.decode(sv.chat(p.value).value), sv.chat(p.value).value) == r
      && (r.value.isShortlisted ==> r.value.matchScore >= Config.MinMatchScore)
    ensures var p := PromptFor(esv, idx, candidateId, candidateName, jdSummary, jobId);
      p.Ok? && sv.chat(p.value).Ok? ==> r == MatchFromReply(sv.decode(sv.chat(p.value).value), sv.chat(p.value).value)
    ensures var p := PromptFor(esv, idx, candidateId, candidateName, jdSummary, jobId);
      p.Ok? && sv.chat(p.value).Err? ==> r == Err(sv.chat(p.value).msg)
  {
    var prompt :- PromptFor(esv, idx, candidateId, candidateName, jdSummary, jobId);
    var content :- sv.chat(prompt);
    MatchFromReply(sv.decode(content), content)
  }

  /** `calculate_match_score` for one candidate record, with the job fixed. */
  function Scorer(sv: Services, esv: Embedding.Services, idx: Embedding.Index, jdSummary: string, jobId: nat)
    : CandidateRec -> Result<MatchData>
  {
    (c: CandidateRec) => CalculateMatchScore(sv, esv, idx, c.id, c.name, jdSummary, jobId)
  }

  /** The records of `candidates` in input order; the first error raised
      propagates. */
  function MatchAll(score: CandidateRec -> Result<MatchData>, candidates: seq<CandidateRec>): (r: Result<seq<Scored>>)
    ensures r.Ok? <==> forall i :: 0 <= i < |candidates| ==> score(candidates[i]).Ok?
    ensures r.Ok? ==> |r.value| == |candidates| && forall i :: 0 <= i < |candidates| ==>
      r.value[i] == Scored(candidates[i], score(candidates[i]).value)
  {
    if |candidates| == 0 then Ok([])
    else
      var c := candidates[0];
      var m :- score(c);
      var rest :- MatchAll(score, candidates[1..]);
      assert forall i :: 1 <= i < |candidates| ==> candidates[i] == candidates[1..][i - 1];
      Ok([Scored(c, m)] + rest)
  }

  /** `batch_match_candidates`: one record per candidate, best score first. */
  function BatchMatchCandidates(sv: Services, esv: Embedding.Services, idx: Embedding.Index, candidates: seq<CandidateRec>,
                                jdSummary: string, jobId: nat): (r: Result<seq<Scored>>)
    ensures var all := MatchAll(Scorer(sv, esv, idx, jdSummary, jobId), candidates);
      && (r.Ok? <==> all.Ok?)
      && (r.Ok? ==>
            && Sorting.SortedDesc(r.value, Score)
            && multiset(r.value) == multiset(all.value)
            && |r.value| == |candidates|)
  {
    var results :- MatchAll(Scorer(sv, esv, idx, jdSummary, jobId), candidates);
    Ok(Sorting.SortDesc(results, Score))
  }

  /** Python's sort is stable: candidates with equal scores keep their
      input order. */
  lemma BatchMatchStable(sv: Services, esv: Embedding.Services, idx: Embedding.Index, candidates: seq<CandidateRec>,
                         jdSummary: string, jobId: nat, k: real)
    requires BatchMatchCandidates(sv, esv, idx, candidates, jdSummary, jobId).Ok?
    ensures Sorting.WithKey(BatchMatchCandidates(sv, esv, idx, candidates, jdSummary, jobId).value, Score, k)
         == Sorting.WithKey(MatchAll(Scorer(sv, esv, idx, jdSummary, jobId), candidates).value, Score, k)
  {
    Sorting.SortDescStable(MatchAll(Scorer(sv, esv, idx, jdSummary, jobId), candidates).value, Score, k);
  }

  /** Every input candidate appears exactly once in the batch result. */
  lemma BatchMatchKeepsCandidates(sv: Services, esv: Embedding.Services, idx: Embedding.Index, candidates: seq<CandidateRec>,
                                  jdSummary: string, jobId: nat)
    requires BatchMatchCandidates(sv, esv, idx, candidates, jdSummary, jobId).Ok?
    ensures multiset(Sorting.Map(BatchMatchCandidates(sv, esv, idx, candidates, jdSummary, jobId).value,
                                 (s: Scored) => s.candidate)) == multiset(candidates)
  {
    var all := MatchAll(Scorer(sv, esv, idx, jdSummary, jobId), candidates).value;
    var f := (s: Scored) => s.candidate;
    Sorting.SortDescPermutesImage(all, Score, f);
    assert Sorting.Map(all, f) == candidates;
  }
}
