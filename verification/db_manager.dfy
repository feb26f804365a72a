/** Database operations (database/db_manager.py) over the in-memory store.

    Every operation runs inside a session: when the body raises, the
    session rolls back, so the store is left as it was, and the error is
    re-raised.  Inserts take the table's next id.
 */
module DbManager {
  import opened Wrappers
  import opened Models
  import Sorting

  /** `get_session`: commit the body's store on success; on failure keep
      the store as it was and pass the error on. */
  function Session<T>(st: Store, body: Store -> Result<(Store, T)>): (r: (Store, Result<T>))
    ensures body(st).Err? ==> r.0 == st && r.1 == Err(body(st).msg)
    ensures body(st).Ok? ==> r.0 == body(st).value.0 && r.1 == Ok(body(st).value.1)
  {
    match body(st)
    case Ok((st', v)) => (st', Ok(v))
    case Err(e) => (st, Err(e))
  }

  /** `create_job_description`: a fresh id, exactly the given fields. */
  function CreateJobDescription(st: Store, title: string, company: string, description: string,
                                requirements: string, summary: string, filePath: string): (r: (Store, JobDescription))
    requires Valid(st)
    ensures Valid(r.0)
    ensures r.1.id !in st.jobs && r.0.jobs == st.jobs[r.1.id := r.1]
    ensures r.1 == JobDescription(r.1.id, title, Some(company), description, Some(requirements), Some(summary), Some(filePath))
    ensures r.0.candidates == st.candidates && r.0.matches == st.matches && r.0.interviews == st.interviews
  {
    var id := st.nextJob;
    var row := JobDescription(id, title, Some(company), description, Some(requirements), Some(summary), Some(filePath));
    (st.(jobs := st.jobs[id := row], nextJob := id + 1), row)
  }

  /** `create_candidate`: a fresh id, exactly the given fields.  The job id
      is stored whether or not such a job exists. */
  function CreateCandidate(st: Store, name: string, email: string, phone: string, cvText: string,
                           filePath: string, jobId: nat): (r: (Store, Candidate))
    requires Valid(st)
    ensures Valid(r.0)
    ensures r.1.id !in st.candidates && r.0.candidates == st.candidates[r.1.id := r.1]
    ensures r.1 == Candidate(r.1.id, name, email, Some(phone), cvText, Some(filePath), Some(jobId))
    ensures r.0.jobs == st.jobs && r.0.matches == st.matches && r.0.interviews == st.interviews
  {
    var id := st.nextCandidate;
    var row := Candidate(id, name, email, Some(phone), cvText, Some(filePath), Some(jobId));
    (st.(candidates := st.candidates[id := row], nextCandidate := id + 1), row)
  }

  const DuplicateMatchMessage: string := "UNIQUE constraint failed: match_results.candidate_id"
  const DuplicateInterviewMessage: string := "UNIQUE constraint failed: interviews.match_result_id"

  predicate HasMatchFor(st: Store, candidateId: nat) {
    exists k :: k in st.matches && st.matches[k].candidateId == Some(candidateId)
  }

  predicate HasInterviewFor(st: Store, matchResultId: nat) {
    exists k :: k in st.interviews && st.interviews[k].matchResultId == Some(matchResultId)
  }

  /** `create_match_result`: strengths and gaps are stored JSON-encoded by
      `dumps`; a second result for the same candidate violates the UNIQUE
      column, and the session rolls back. */
  function CreateMatchResult(st: Store, dumps: seq<string> -> string, candidateId: nat, matchScore: real,
                             strengths: seq<string>, gaps: seq<string>, reasoning: string, isShortlisted: bool)
    : (r: (Store, Result<MatchResult>))
    requires Valid(st)
    ensures Valid(r.0)
    ensures r.1.Err? <==> HasMatchFor(st, candidateId)
    ensures r.1.Err? ==> r.0 == st && r.1.msg == DuplicateMatchMessage
    ensures r.1.Ok? ==>
      && r.1.value.id !in st.matches && r.0.matches == st.matches[r.1.value.id := r.1.value]
      && r.1.value == MatchResult(r.1.value.id, Some(candidateId), matchScore, Some(dumps(strengths)),
                                  Some(dumps(gaps)), Some(reasoning), isShortlisted)
      && r.0.jobs == st.jobs && r.0.candidates == st.candidates && r.0.interviews == st.interviews
  {
    Session(st, (s: Store) =>
      if HasMatchFor(s, candidateId) then Err(DuplicateMatchMessage)
      else
        var id := s.nextMatch;
        var row := NewMatchResult(id, Some(candidateId), matchScore, Some(dumps(strengths)), Some(dumps(gaps)),
                                  Some(reasoning), Some(isShortlisted));
        Ok((s.(matches := s.matches[id := row], nextMatch := id + 1), row)))
  }

  /** `create_interview`: always recorded as sent with status "invited";
      a second interview for the same match result is rolled back. */
  function CreateInterview(st: Store, matchResultId: nat, inviteMessage: string): (r: (Store, Result<Interview>))
    requires Valid(st)
    ensures Valid(r.0)
    ensures r.1.Err? <==> HasInterviewFor(st, matchResultId)
    ensures r.1.Err? ==> r.0 == st && r.1.msg == DuplicateInterviewMessage
    ensures r.1.Ok? ==>
      && r.1.value.id !in st.interviews && r.0.interviews == st.interviews[r.1.value.id := r.1.value]
      && r.1.value.inviteSent && r.1.value.status == "invited"
      && r.1.value.matchResultId == Some(matchResultId) && r.1.value.inviteMessage == Some(inviteMessage)
      && r.0.jobs == st.jobs && r.0.candidates == st.candidates && r.0.matches == st.matches
  {
    Session(st, (s: Store) =>
      if HasInterviewFor(s, matchResultId) then Err(DuplicateInterviewMessage)
      else
        var id := s.nextInterview;
        var row := NewInterview(id, Some(matchResultId), Some("invited"), Some(true), Some(inviteMessage));
        Ok((s.(interviews := s.interviews[id := row], nextInterview := id + 1), row)))
  }

  /** A failed create changes nothing; a successful one cannot be repeated. */
  lemma MatchResultOncePerCandidate(st: Store, dumps: seq<string> -> string, candidateId: nat, s1: real, s2: real,
                                    g: seq<string>, reasoning: string, b: bool)
    requires Valid(st)
    requires CreateMatchResult(st, dumps, candidateId, s1, g, g, reasoning, b).1.Ok?
    ensures var st' := CreateMatchResult(st, dumps, candidateId, s1, g, g, reasoning, b).0;
      CreateMatchResult(st', dumps, candidateId, s2, g, g, reasoning, b) == (st', Err(DuplicateMatchMessage))
  {
    var (st', m) := CreateMatchResult(st, dumps, candidateId, s1, g, g, reasoning, b);
    assert st'.matches[m.value.id].candidateId == Some(candidateId);
  }

  /** The rows of a table whose keys are below `n`, in key order. */
  function Rows<R(==)>(m: map<nat, R>, n: nat): (r: seq<R>)
    ensures forall i :: 0 <= i < |r| ==> r[i] in m.Values
    ensures forall k :: k in m && k < n ==> m[k] in r
  {
    if n == 0 then []
    else Rows(m, n - 1) + (if n - 1 in m then [m[n - 1]] else [])
  }

  /** Every row `Rows` returns is filed under a key below `n`. */
  lemma {:induction false} RowsFiled<R>(m: map<nat, R>, n: nat, i: nat)
    requires i < |Rows(m, n)|
    ensures exists k :: k in m && k < n && Rows(m, n)[i] == m[k]
  {
    var prev := Rows(m, n - 1);
    if i < |prev| {
      RowsFiled(m, n - 1, i);
    } else {
      assert Rows(m, n)[i] == m[n - 1];
    }
  }

  /** A table whose rows all differ yields each row once. */
  lemma {:induction false} RowsDistinct<R>(m: map<nat, R>, n: nat)
    requires forall a, b :: a in m && b in m && a != b ==> m[a] != m[b]
    ensures Sorting.Distinct(Rows(m, n))
  {
    if n > 0 {
      var prev := Rows(m, n - 1);
      RowsDistinct(m, n - 1);
      if n - 1 in m {
        assert m[n - 1] !in prev by {
          forall i | 0 <= i < |prev| ensures prev[i] != m[n - 1] {
            RowsFiled(m, n - 1, i);
          }
        }
        Sorting.ConsDistinct(m[n - 1], []);
        AppendDistinct(prev, m[n - 1]);
      } else {
        assert Rows(m, n) == prev;
      }
    }
  }

  lemma AppendDistinct<T>(s: seq<T>, x: T)
    requires Sorting.Distinct(s) && x !in s
    ensures Sorting.Distinct(s + [x])
  {
  }

  function AllJobs(st: Store): (r: seq<JobDescription>)
    requires Valid(st)
    ensures forall j :: j in r <==> j in st.jobs.Values
    ensures Sorting.Distinct(r)
  {
    RowsDistinct(st.jobs, st.nextJob);
    Rows(st.jobs, st.nextJob)
  }

  function AllCandidates(st: Store): (r: seq<Candidate>)
    requires Valid(st)
    ensures forall c :: c in r <==> c in st.candidates.Values
    ensures Sorting.Distinct(r)
  {
    RowsDistinct(st.candidates, st.nextCandidate);
    Rows(st.candidates, st.nextCandidate)
  }

  function AllMatches(st: Store): (r: seq<MatchResult>)
    requires Valid(st)
    ensures forall m :: m in r <==> m in st.matches.Values
    ensures Sorting.Distinct(r)
  {
    RowsDistinct(st.matches, st.nextMatch);
    Rows(st.matches, st.nextMatch)
  }

  function AllInterviews(st: Store): (r: seq<Interview>)
    requires Valid(st)
    ensures forall iv :: iv in r <==> iv in st.interviews.Values
    ensures Sorting.Distinct(r)
  {
    RowsDistinct(st.interviews, st.nextInterview);
    Rows(st.interviews, st.nextInterview)
  }

  /** `get_job_description`. */
  function GetJobDescription(st: Store, jobId: nat): (r: Option<JobDescription>)
    ensures r.Some? <==> jobId in st.jobs
    ensures r.Some? ==> r.value == st.jobs[jobId]
  {
    if jobId in st.jobs then Some(st.jobs[jobId]) else None
  }

  /** `get_all_job_descriptions`, in id order: every stored job, once. */
  function GetAllJobDescriptions(st: Store): (r: seq<JobDescription>)
    requires Valid(st)
    ensures forall j :: j in r <==> j in st.jobs.Values
    ensures Sorting.Distinct(r)
  {
    AllJobs(st)
  }

  /** `get_candidates_for_job`: exactly the candidates filed under the
      job, each once. */
  function GetCandidatesForJob(st: Store, jobId: nat): (r: seq<Candidate>)
    requires Valid(st)
    ensures forall c :: c in r <==> c in st.candidates.Values && c.jobId == Some(jobId)
    ensures Sorting.Distinct(r)
  {
    var all := AllCandidates(st);
    var r := Sorting.Filter(all, (c: Candidate) => c.jobId == Some(jobId));
    Sorting.FilterDistinct(all, (c: Candidate) => c.jobId == Some(jobId));
    assert forall c :: c in all && c.jobId == Some(jobId) ==> c in r by {
      forall c | c in all && c.jobId == Some(jobId) ensures c in r {
        var i :| 0 <= i < |all| && all[i] == c;
      }
    }
    r
  }

  /** The candidate's match result (`candidate.match_result`). */
  function MatchOf(st: Store, candidateId: nat): (r: Option<MatchResult>)
    requires Valid(st)
    ensures r.Some? ==> r.value in st.matches.Values && r.value.candidateId == Some(candidateId)
    ensures r.None? <==> !HasMatchFor(st, candidateId)
  {
    var all := AllMatches(st);
    var hits := Sorting.Filter(all, (m: MatchResult) => m.candidateId == Some(candidateId));
    assert forall k :: k in st.matches && st.matches[k].candidateId == Some(candidateId) ==> st.matches[k] in hits by {
      forall k | k in st.matches && st.matches[k].candidateId == Some(candidateId) ensures st.matches[k] in hits {
        var i :| 0 <= i < |all| && all[i] == st.matches[k];
      }
    }
    if |hits| == 0 then None else Some(hits[0])
  }

  /** One row of the shortlist query. */
  datatype ShortlistRow = ShortlistRow(candidate: Candidate, matchResult: MatchResult)

  predicate ShortlistedFor(st: Store, jobId: nat, row: ShortlistRow) {
    && row.matchResult in st.matches.Values
    && row.candidate in st.candidates.Values
    && row.matchResult.candidateId == Some(row.candidate.id)
    && row.candidate.jobId == Some(jobId)
    && row.matchResult.isShortlisted
  }

  function JoinCandidate(st: Store, m: MatchResult): Option<ShortlistRow> {
    if m.candidateId.Some? && m.candidateId.value in st.candidates then
      Some(ShortlistRow(st.candidates[m.candidateId.value], m))
    else None
  }

  /** The join rows for the matches in `ms` that pass the filter. */
  function ShortlistRows(st: Store, jobId: nat, ms: seq<MatchResult>): (r: seq<ShortlistRow>)
    requires forall i :: 0 <= i < |ms| ==> ms[i] in st.matches.Values
    ensures forall row :: row in r ==> ShortlistedFor(st, jobId, row) && row.matchResult in ms
    ensures forall i :: 0 <= i < |ms| && JoinCandidate(st, ms[i]).Some? && ShortlistedFor(st, jobId, JoinCandidate(st, ms[i]).value)
                    ==> JoinCandidate(st, ms[i]).value in r
  {
    if |ms| == 0 then []
    else
      var j := JoinCandidate(st, ms[0]);
      (if j.Some? && ShortlistedFor(st, jobId, j.value) then [j.value] else []) + ShortlistRows(st, jobId, ms[1..])
  }

  /** Distinct match results give distinct join rows. */
  lemma {:induction false} ShortlistRowsDistinct(st: Store, jobId: nat, ms: seq<MatchResult>)
    requires forall i :: 0 <= i < |ms| ==> ms[i] in st.matches.Values
    requires Sorting.Distinct(ms)
    ensures Sorting.Distinct(ShortlistRows(st, jobId, ms))
  {
    if |ms| > 0 {
      var rest := ShortlistRows(st, jobId, ms[1..]);
      assert Sorting.Distinct(ms[1..]) by {
        forall i, j | 0 <= i < j < |ms| - 1 ensures ms[1..][i] != ms[1..][j] {
          assert ms[1..][i] == ms[i + 1] && ms[1..][j] == ms[j + 1];
        }
      }
      ShortlistRowsDistinct(st, jobId, ms[1..]);
      var j := JoinCandidate(st, ms[0]);
      if j.Some? && ShortlistedFor(st, jobId, j.value) {
        assert j.value !in rest by {
          forall k | 0 <= k < |ms| - 1 ensures ms[1..][k] != ms[0] {
            assert ms[1..][k] == ms[k + 1];
          }
        }
        Sorting.ConsDistinct(j.value, rest);
      }
    }
  }

  /** Every qualifying (candidate, match) pair is produced by the join. */
  lemma ShortlistRowsComplete(st: Store, jobId: nat, row: ShortlistRow)
    requires Valid(st)
    requires ShortlistedFor(st, jobId, row)
    ensures row in ShortlistRows(st, jobId, AllMatches(st))
  {
    var ms := AllMatches(st);
    var i :| 0 <= i < |ms| && ms[i] == row.matchResult;
    var k :| k in st.candidates && st.candidates[k] == row.candidate;
    assert JoinCandidate(st, ms[i]) == Some(row);
  }

  function RowScore(row: ShortlistRow): real {
    row.matchResult.matchScore
  }

  /** `get_shortlisted_candidates`: the (candidate, match) pairs of the job
      whose match is shortlisted, best score first.  Ties, which the query
      leaves to the database, come out in match-id order here. */
  function GetShortlistedCandidates(st: Store, jobId: nat): (r: seq<ShortlistRow>)
    requires Valid(st)
    ensures Sorting.SortedDesc(r, RowScore)
    ensures forall row :: row in r <==> ShortlistedFor(st, jobId, row)
    ensures Sorting.Distinct(r)
  {
    var rows := ShortlistRows(st, jobId, AllMatches(st));
    var r := Sorting.SortDesc(rows, RowScore);
    ShortlistRowsDistinct(st, jobId, AllMatches(st));
    Sorting.PermutationDistinct(rows, r);
    Sorting.SortDescSameElements(rows, RowScore);
    assert forall row :: ShortlistedFor(st, jobId, row) ==> row in rows by {
      forall row | ShortlistedFor(st, jobId, row) ensures row in rows {
        ShortlistRowsComplete(st, jobId, row);
      }
    }
    r
  }

  /** One row of the pending-interview query. */
  datatype PendingRow = PendingRow(candidate: Candidate, interview: Interview)

  predicate PendingFor(st: Store, jobId: nat, row: PendingRow) {
    && row.interview in st.interviews.Values
    && row.candidate in st.candidates.Values
    && row.interview.status == "invited"
    && row.candidate.jobId == Some(jobId)
    && row.interview.matchResultId.Some?
    && row.interview.matchResultId.value in st.matches
    && st.matches[row.interview.matchResultId.value].candidateId == Some(row.candidate.id)
  }

  function JoinInterview(st: Store, iv: Interview): Option<PendingRow> {
    if iv.matchResultId.Some? && iv.matchResultId.value in st.matches then
      var m := st.matches[iv.matchResultId.value];
      if m.candidateId.Some? && m.candidateId.value in st.candidates then
        Some(PendingRow(st.candidates[m.candidateId.value], iv))
      else None
    else None
  }

  function PendingRows(st: Store, jobId: nat, ivs: seq<Interview>): (r: seq<PendingRow>)
    requires forall i :: 0 <= i < |ivs| ==> ivs[i] in st.interviews.Values
    ensures forall row :: row in r ==> PendingFor(st, jobId, row) && row.interview in ivs
    ensures forall i :: 0 <= i < |ivs| && JoinInterview(st, ivs[i]).Some? && PendingFor(st, jobId, JoinInterview(st, ivs[i]).value)
                    ==> JoinInterview(st, ivs[i]).value in r
  {
    if |ivs| == 0 then []
    else
      var j := JoinInterview(st, ivs[0]);
      (if j.Some? && PendingFor(st, jobId, j.value) then [j.value] else []) + PendingRows(st, jobId, ivs[1..])
  }

  /** Distinct interviews give distinct join rows. */
  lemma {:induction false} PendingRowsDistinct(st: Store, jobId: nat, ivs: seq<Interview>)
    requires forall i :: 0 <= i < |ivs| ==> ivs[i] in st.interviews.Values
    requires Sorting.Distinct(ivs)
    ensures Sorting.Distinct(PendingRows(st, jobId, ivs))
  {
    if |ivs| > 0 {
      var rest := PendingRows(st, jobId, ivs[1..]);
      assert Sorting.Distinct(ivs[1..]) by {
        forall i, j | 0 <= i < j < |ivs| - 1 ensures ivs[1..][i] != ivs[1..][j] {
          assert ivs[1..][i] == ivs[i + 1] && ivs[1..][j] == ivs[j + 1];
        }
      }
      PendingRowsDistinct(st, jobId, ivs[1..]);
      var j := JoinInterview(st, ivs[0]);
      if j.Some? && PendingFor(st, jobId, j.value) {
        assert j.value !in rest by {
          forall k | 0 <= k < |ivs| - 1 ensures ivs[1..][k] != ivs[0] {
            assert ivs[1..][k] == ivs[k + 1];
          }
        }
        Sorting.ConsDistinct(j.value, rest);
      }
    }
  }

  lemma PendingRowsComplete(st: Store, jobId: nat, row: PendingRow)
    requires Valid(st)
    requires PendingFor(st, jobId, row)
    ensures row in PendingRows(st, jobId, AllInterviews(st))
  {
    var ivs := AllInterviews(st);
    var i :| 0 <= i < |ivs| && ivs[i] == row.interview;
    var k :| k in st.candidates && st.candidates[k] == row.candidate;
    assert JoinInterview(st, ivs[i]) == Some(row);
  }

  /** `get_pending_interviews`: the (candidate, interview) pairs of the job
      whose interview status is "invited", in interview-id order. */
  function GetPendingInterviews(st: Store, jobId: nat): (r: seq<PendingRow>)
    requires Valid(st)
    ensures forall row :: row in r <==> PendingFor(st, jobId, row)
    ensures Sorting.Distinct(r)
  {
    var r := PendingRows(st, jobId, AllInterviews(st));
    PendingRowsDistinct(st, jobId, AllInterviews(st));
    assert forall row :: PendingFor(st, jobId, row) ==> row in r by {
      forall row | PendingFor(st, jobId, row) ensures row in r {
        PendingRowsComplete(st, jobId, row);
      }
    }
    r
  }
}
