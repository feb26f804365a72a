/** The dictionaries the pipeline passes from node to node, as records.

    A candidate record is what process_cvs builds; a scored record is a
    candidate record overlaid with the matcher's fields (`{**candidate,
    **match_data}` — the two key sets are disjoint, so the overlay is a
    pair); an invite result adds the invitation fields to a scored record.
 */
module Records {
  import opened Wrappers

  datatype CandidateRec = CandidateRec(
    id: nat,
    name: string,
    email: string,
    phone: string,
    cvText: string,
    chunks: seq<string>,
    analysis: string)

  /** The matcher's record for one candidate. */
  datatype MatchData = MatchData(
    matchScore: real,
    strengths: seq<string>,
    gaps: seq<string>,
    reasoning: string,
    recommendation: string,
    isShortlisted: bool)

  datatype Scored = Scored(candidate: CandidateRec, result: MatchData)

  /** One entry of `schedule_interviews`' result. */
  datatype InviteResult = InviteResult(
    scored: Scored,
    inviteSent: bool,
    inviteSubject: string,
    inviteBody: string,
    sentAt: Option<string>)

  /** The sort key `x['match_score']`. */
  function Score(s: Scored): real {
    s.result.matchScore
  }

  function IsShortlisted(s: Scored): bool {
    s.result.isShortlisted
  }
}
