/** The relational schema (database/models.py) as immutable rows kept in
    per-table maps from primary key to row.

    Columns declared `nullable=False` are plain fields; nullable columns are
    `Option`s.  `created_at` timestamps are not modelled.  Foreign keys are
    stored as ids and, as with SQLite's default settings, not checked on
    insert; the UNIQUE columns are checked (see DbManager).
 */
module Models {
  import opened Wrappers

  datatype JobDescription = JobDescription(
    id: nat,
    title: string,
    company: Option<string>,
    description: string,
    requirements: Option<string>,
    summary: Option<string>,
    filePath: Option<string>)

  datatype Candidate = Candidate(
    id: nat,
    name: string,
    email: string,
    phone: Option<string>,
    cvText: string,
    filePath: Option<string>,
    jobId: Option<nat>)

  datatype MatchResult = MatchResult(
    id: nat,
    candidateId: Option<nat>,
    matchScore: real,
    strengths: Option<string>,
    gaps: Option<string>,
    reasoning: Option<string>,
    isShortlisted: bool)

  datatype Interview = Interview(
    id: nat,
    matchResultId: Option<nat>,
    scheduledDate: Option<string>,
    status: string,
    inviteSent: bool,
    inviteMessage: Option<string>)

  /** Column defaults. */
  const DefaultShortlisted: bool := false
  const DefaultInterviewStatus: string := "pending"
  const DefaultInviteSent: bool := false

  /** A match-result row; `is_shortlisted` falls back to its column default. */
  function NewMatchResult(id: nat, candidateId: Option<nat>, matchScore: real, strengths: Option<string>,
                          gaps: Option<string>, reasoning: Option<string>, isShortlisted: Option<bool>): (r: MatchResult)
    ensures isShortlisted.None? ==> !r.isShortlisted
    ensures isShortlisted.Some? ==> r.isShortlisted == isShortlisted.value
    ensures r.id == id && r.candidateId == candidateId && r.matchScore == matchScore
  {
    MatchResult(id, candidateId, matchScore, strengths, gaps, reasoning, isShortlisted.GetOr(DefaultShortlisted))
  }

  /** An interview row; `status` and `invite_sent` fall back to their defaults. */
  function NewInterview(id: nat, matchResultId: Option<nat>, status: Option<string>, inviteSent: Option<bool>,
                        inviteMessage: Option<string>): (r: Interview)
    ensures status.None? ==> r.status == "pending"
    ensures inviteSent.None? ==> !r.inviteSent
    ensures status.Some? ==> r.status == status.value
    ensures inviteSent.Some? ==> r.inviteSent == inviteSent.value
    ensures r.id == id && r.matchResultId == matchResultId && r.scheduledDate.None?
  {
    Interview(id, matchResultId, None, status.GetOr(DefaultInterviewStatus), inviteSent.GetOr(DefaultInviteSent), inviteMessage)
  }

  /** The four tables and the next primary key of each. */
  datatype Store = Store(
    jobs: map<nat, JobDescription>,
    candidates: map<nat, Candidate>,
    matches: map<nat, MatchResult>,
    interviews: map<nat, Interview>,
    nextJob: nat,
    nextCandidate: nat,
    nextMatch: nat,
    nextInterview: nat)

  const EmptyStore: Store := Store(map[], map[], map[], map[], 1, 1, 1, 1)

  /** At most one match result per candidate. */
  ghost predicate UniqueCandidatePerMatch(matches: map<nat, MatchResult>) {
    forall a, b :: a in matches && b in matches && a != b && matches[a].candidateId.Some? ==>
      matches[a].candidateId != matches[b].candidateId
  }

  /** At most one interview per match result. */
  ghost predicate UniqueMatchPerInterview(interviews: map<nat, Interview>) {
    forall a, b :: a in interviews && b in interviews && a != b && interviews[a].matchResultId.Some? ==>
      interviews[a].matchResultId != interviews[b].matchResultId
  }

  /** Every row is filed under its own id, every id is below the table's
      next id, and the UNIQUE columns hold. */
  ghost predicate Valid(st: Store) {
    && st.nextJob >= 1 && st.nextCandidate >= 1 && st.nextMatch >= 1 && st.nextInterview >= 1
    && (forall k :: k in st.jobs ==> st.jobs[k].id == k && 1 <= k < st.nextJob)
    && (forall k :: k in st.candidates ==> st.candidates[k].id == k && 1 <= k < st.nextCandidate)
    && (forall k :: k in st.matches ==> st.matches[k].id == k && 1 <= k < st.nextMatch)
    && (forall k :: k in st.interviews ==> st.interviews[k].id == k && 1 <= k < st.nextInterview)
    && UniqueCandidatePerMatch(st.matches)
    && UniqueMatchPerInterview(st.interviews)
  }

  lemma EmptyStoreValid()
    ensures Valid(EmptyStore)
  {
  }
}
