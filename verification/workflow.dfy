/** The screening pipeline (graph/workflow.py).

    A state record is threaded through seven nodes in a fixed order.  Each
    node either sets its own status tag and the fields it owns, or, when an
    exception escapes its body, returns its input with status "error" and a
    stage-prefixed message.  The persistent side of a run — the database
    and the vector index — is the `World` every node may change; changes
    made before an exception are kept, as each database call commits its
    own session and each index call writes through.
 */
module Workflow {
  import opened Wrappers
  import opened Text
  import Sorting
  import Config
  import opened Models
  import DbManager
  import Embedding
  import opened DocumentParser
  import opened DocumentProcessor
  import Matcher
  import Scheduler
  import opened Records

  datatype Status = Initialized | JdProcessed | JdIndexed | CvsProcessed | CvsIndexed | Matched | Shortlisted | Completed | Error
  {
    /** The string stored in the state's `status` field. */
    function Tag(): string {
      match this
      case Initialized => "initialized"
      case JdProcessed => "jd_processed"
      case JdIndexed => "jd_indexed"
      case CvsProcessed => "cvs_processed"
      case CvsIndexed => "cvs_indexed"
      case Matched => "matched"
      case Shortlisted => "shortlisted"
      case Completed => "completed"
      case Error => "error"
    }
  }

  /** `WorkflowState`. */
  datatype State = State(
    jobId: nat,
    jobTitle: string,
    company: string,
    jdFilePath: string,
    jdText: string,
    jdSummary: string,
    jdChunks: seq<string>,
    cvFilePaths: seq<string>,
    candidates: seq<CandidateRec>,
    matchResults: seq<Scored>,
    shortlisted: seq<Scored>,
    invitesSent: seq<InviteResult>,
    status: Status,
    error: string)

  /** The stores the agents write to. */
  datatype World = World(db: Store, index: Embedding.Index)

  /** The collaborators of all agents, and `json.dumps` for the database. */
  datatype Env = Env(
    docs: DocumentProcessor.Services,
    embed: Embedding.Services,
    matcher: Matcher.Services,
    scheduler: Scheduler.Services,
    dumps: seq<string> -> string)

  /** The seven nodes, in graph order. */
  datatype Stage = ProcessJd | IndexJd | ProcessCvs | IndexCvs | MatchCandidates | Shortlist | SendInvites
  {
    /** The prefix of the error message a failing node records. */
    function ErrorPrefix(): string {
      match this
      case ProcessJd => "JD Processing: "
      case IndexJd => "JD Indexing: "
      case ProcessCvs => "CV Processing: "
      case IndexCvs => "CV Indexing: "
      case MatchCandidates => "Matching: "
      case Shortlist => "Shortlisting: "
      case SendInvites => "Sending Invites: "
    }

    /** The status a succeeding node records. */
    function Done(): Status {
      match this
      case ProcessJd => JdProcessed
      case IndexJd => JdIndexed
      case ProcessCvs => CvsProcessed
      case IndexCvs => CvsIndexed
      case MatchCandidates => Matched
      case Shortlist => Shortlisted
      case SendInvites => Completed
    }
  }

  /** The edges of `create_screening_workflow`: a straight line. */
  const Pipeline: seq<Stage> := [ProcessJd, IndexJd, ProcessCvs, IndexCvs, MatchCandidates, Shortlist, SendInvites]

  /** The state a node returns when an exception escapes it. */
  function Failed(s: State, stage: Stage, msg: string): (r: State)
    ensures r.status == Error && StartsWith(r.error, stage.ErrorPrefix())
    ensures r == s.(status := Error, error := r.error)
  {
    s.(status := Error, error := stage.ErrorPrefix() + msg)
  }

  /** What every node promises: fail as above, or record its own tag and
      leave the error field alone. */
  ghost predicate NodeOutcome(stage: Stage, s: State, r: State) {
    || (r.status == Error && StartsWith(r.error, stage.ErrorPrefix()) && r == s.(status := Error, error := r.error))
    || (r.status == stage.Done() && r.error == s.error)
  }

  ghost predicate ValidWorld(w: World) {
    Valid(w.db)
  }

  // ---------------------------------------------------------------- node 1

  /** `process_job_description_node`: the job is stored with its text as
      both description and requirements, and its analysis as summary. */
  function ProcessJdNode(env: Env, w: World, s: State): (r: (World, State))
    requires ValidWorld(w)
    ensures ValidWorld(r.0) && NodeOutcome(ProcessJd, s, r.1) && r.0.index == w.index
    ensures var jd := ProcessJobDescription(env.docs, s.jdFilePath);
      && (jd.Err? ==> r.0 == w && r.1 == Failed(s, ProcessJd, jd.msg))
      && (jd.Ok? ==>
            && r.1 == s.(jobId := r.1.jobId, jdText := jd.value.text, jdSummary := jd.value.analysis,
                         jdChunks := jd.value.chunks, status := JdProcessed)
            && r.1.jobId !in w.db.jobs
            && r.0.db.jobs == w.db.jobs[r.1.jobId := JobDescription(r.1.jobId, s.jobTitle, Some(s.company), jd.value.text,
                                                                    Some(jd.value.text), Some(jd.value.analysis),
                                                                    Some(s.jdFilePath))]
            && r.0.db.candidates == w.db.candidates && r.0.db.matches == w.db.matches)
  {
    match ProcessJobDescription(env.docs, s.jdFilePath)
    case Err(e) => (w, Failed(s, ProcessJd, e))
    case Ok(jd) =>
      var (db, job) := DbManager.CreateJobDescription(w.db, s.jobTitle, s.company, jd.text, jd.text, jd.analysis, s.jdFilePath);
      (w.(db := db), s.(jobId := job.id, jdText := jd.text, jdSummary := jd.analysis, jdChunks := jd.chunks, status := JdProcessed))
  }

  // ---------------------------------------------------------------- node 2

  function JdMetadata(s: State): Embedding.Metadata {
    map["job_id" := Embedding.IntValue(s.jobId), "job_title" := Embedding.StrValue(s.jobTitle),
        "company" := Embedding.StrValue(s.company)]
  }

  /** `index_job_description_node`: only the status changes in the state. */
  function IndexJdNode(env: Env, w: World, s: State): (r: (World, State))
    requires ValidWorld(w)
    ensures ValidWorld(r.0) && NodeOutcome(IndexJd, s, r.1) && r.0.db == w.db
    ensures var out := Embedding.IndexJobDescription(env.embed, w.index, s.jobId, s.jdChunks, JdMetadata(s));
      && (out.Err? ==> r.0 == w && r.1 == Failed(s, IndexJd, out.msg))
      && (out.Ok? ==> r.1 == s.(status := JdIndexed) && r.0.index.cv == w.index.cv
                      && r.0.index.jd.entries == w.index.jd.entries + Embedding.ChunkEntries("jd", s.jobId, s.jdChunks, JdMetadata(s)))
  {
    match Embedding.IndexJobDescription(env.embed, w.index, s.jobId, s.jdChunks, JdMetadata(s))
    case Err(e) => (w, Failed(s, IndexJd, e))
    case Ok((idx, _)) => (w.(index := idx), s.(status := JdIndexed))
  }

  // ---------------------------------------------------------------- node 3

  /** Python's `x or default` on an optional string: `None` and "" are
      both falsy. */
  function OrDefault(o: Option<string>, default: string): (r: string)
    ensures o.Some? && o.value != "" ==> r == o.value
    ensures (o.None? || o.value == "") ==> r == default
  {
    if o.Some? && o.value != "" then o.value else default
  }

  function DefaultName(k: nat): string {
    "Candidate_" + NatToString(k)
  }

  function DefaultEmail(k: nat): string {
    "candidate" + NatToString(k) + "@example.com"
  }

  /** The name, e-mail and phone stored for the CV that is the `k`-th
      success (counting from 0): defaults are numbered from 1. */
  function NameFor(d: CvData, k: nat): string {
    OrDefault(d.info.name, DefaultName(k + 1))
  }

  function EmailFor(d: CvData, k: nat): string {
    OrDefault(d.info.email, DefaultEmail(k + 1))
  }

  function PhoneFor(d: CvData): string {
    OrDefault(d.info.phone, "")
  }

  function RecordFor(d: CvData, k: nat, id: nat): CandidateRec {
    CandidateRec(id, NameFor(d, k), EmailFor(d, k), PhoneFor(d), d.text, d.chunks, d.analysis)
  }

  function RowFor(d: CvData, k: nat, id: nat, path: string, jobId: nat): Candidate {
    Candidate(id, NameFor(d, k), EmailFor(d, k), Some(PhoneFor(d)), d.text, Some(path), Some(jobId))
  }

  /** `doc_processor.process_cv` as the node calls it. */
  function CvProcessor(docs: DocumentProcessor.Services): string -> Result<CvData> {
    (path: string) => ProcessCv(docs, path)
  }

  /** The CVs among `paths` that `process` handles without an exception,
      with their paths, in path order. */
  function Processed(process: string -> Result<CvData>, paths: seq<string>): (r: seq<(string, CvData)>)
    ensures |r| <= |paths|
    ensures forall i :: 0 <= i < |r| ==> process(r[i].0) == Ok(r[i].1)
  {
    if |paths| == 0 then []
    else
      var here := process(paths[0]);
      (if here.Ok? then [(paths[0], here.value)] else []) + Processed(process, paths[1..])
  }

  /** When every CV processes, every CV yields a candidate, in order. */
  lemma {:induction false} ProcessedAll(process: string -> Result<CvData>, paths: seq<string>)
    requires forall i :: 0 <= i < |paths| ==> process(paths[i]).Ok?
    ensures |Processed(process, paths)| == |paths|
    ensures forall i :: 0 <= i < |paths| ==> Processed(process, paths)[i].0 == paths[i]
  {
    if |paths| > 0 {
      ProcessedAll(process, paths[1..]);
      assert forall i :: 1 <= i < |paths| ==> paths[i] == paths[1..][i - 1];
    }
  }

  /** `rec` is the candidate process_cvs builds from the CV `e` as its
      `j`-th success (counting from 0), stored under a fresh id. */
  ghost predicate BuiltAt(e: (string, CvData), j: nat, rec: CandidateRec, before: Store, after: Store, jobId: nat) {
    && rec == RecordFor(e.1, j, rec.id)
    && rec.id !in before.candidates && rec.id in after.candidates
    && after.candidates[rec.id] == RowFor(e.1, j, rec.id, e.0, jobId)
  }

  ghost predicate Built(p: seq<(string, CvData)>, base: nat, recs: seq<CandidateRec>, before: Store, after: Store, jobId: nat) {
    && |recs| == base + |p|
    && forall j :: base <= j < |recs| ==> BuiltAt(p[j - base], j, recs[j], before, after, jobId)
  }

  /** The loop of `process_cvs_node` over `paths`, after the records `acc`
      of the CVs already done. */
  function ProcessCvsFrom(process: string -> Result<CvData>, db: Store, jobId: nat, paths: seq<string>, acc: seq<CandidateRec>)
    : (r: (Store, seq<CandidateRec>))
    requires Valid(db)
    ensures Valid(r.0)
    ensures |r.1| >= |acc| && r.1[..|acc|] == acc
    ensures Built(Processed(process, paths), |acc|, r.1, db, r.0, jobId)
    ensures forall k :: k in db.candidates ==> k in r.0.candidates && r.0.candidates[k] == db.candidates[k]
    ensures r.0.jobs == db.jobs && r.0.matches == db.matches && r.0.interviews == db.interviews
    decreases |paths|
  {
    if |paths| == 0 then (db, acc)
    else
      match process(paths[0])
      case Err(_) =>
        assert Processed(process, paths) == Processed(process, paths[1..]) by {
          assert Processed(process, paths) == [] + Processed(process, paths[1..]);
        }
        ProcessCvsFrom(process, db, jobId, paths[1..], acc)
      case Ok(d) =>
        var k := |acc|;
        var (db1, row) := DbManager.CreateCandidate(db, NameFor(d, k), EmailFor(d, k), PhoneFor(d), d.text, paths[0], jobId);
        var rec := RecordFor(d, k, row.id);
        var acc1 := acc + [rec];
        var r := ProcessCvsFrom(process, db1, jobId, paths[1..], acc1);
        assert r.1[..|acc|] == acc1[..|acc|] == acc by {
          assert r.1[..|acc|] == r.1[..|acc1|][..|acc|];
        }
        assert r.1[|acc|] == rec by {
          assert r.1[|acc|] == r.1[..|acc1|][|acc|];
        }
        assert Processed(process, paths) == [(paths[0], d)] + Processed(process, paths[1..]);
        assert BuiltAt((paths[0], d), |acc|, rec, db, r.0, jobId);
        BuiltExtend(Processed(process, paths[1..]), (paths[0], d), |acc|, r.1, db, db1, r.0, jobId);
        r
  }

  /** One more success in front of the CVs already built. */
  lemma BuiltExtend(p: seq<(string, CvData)>, e: (string, CvData), base: nat, recs: seq<CandidateRec>,
                    before: Store, mid: Store, after: Store, jobId: nat)
    requires Built(p, base + 1, recs, mid, after, jobId)
    requires BuiltAt(e, base, recs[base], before, after, jobId)
    requires forall k :: k in before.candidates ==> k in mid.candidates
    ensures Built([e] + p, base, recs, before, after, jobId)
  {
    var q := [e] + p;
    forall j | base <= j < |recs|
      ensures BuiltAt(q[j - base], j, recs[j], before, after, jobId)
    {
      if j > base {
        assert q[j - base] == p[j - (base + 1)];
      }
    }
  }

  /** `process_cvs_node`: a CV whose processing raises is skipped; the
      others become candidates, in path order, with default names and
      e-mails numbered by the successes so far. */
  function ProcessCvsNode(env: Env, w: World, s: State): (r: (World, State))
    requires ValidWorld(w)
    ensures ValidWorld(r.0) && NodeOutcome(ProcessCvs, s, r.1) && r.0.index == w.index
    ensures r.1 == s.(candidates := r.1.candidates, status := CvsProcessed)
    ensures |r.1.candidates| == |Processed(CvProcessor(env.docs), s.cvFilePaths)| <= |s.cvFilePaths|
    ensures Built(Processed(CvProcessor(env.docs), s.cvFilePaths), 0, r.1.candidates, w.db, r.0.db, s.jobId)
  {
    var (db, cands) := ProcessCvsFrom(CvProcessor(env.docs), w.db, s.jobId, s.cvFilePaths, []);
    (w.(db := db), CvsProcessedState(s, cands))
  }

  function CvsProcessedState(s: State, cands: seq<CandidateRec>): (r: State)
    ensures NodeOutcome(ProcessCvs, s, r)
    ensures r == s.(candidates := cands, status := CvsProcessed)
  {
    s.(candidates := cands, status := CvsProcessed)
  }

  // ---------------------------------------------------------------- node 4

  function CvMetadata(c: CandidateRec, jobId: nat): Embedding.Metadata {
    map["candidate_id" := Embedding.IntValue(c.id), "candidate_name" := Embedding.StrValue(c.name),
        "job_id" := Embedding.IntValue(jobId)]
  }

  /** The entries `index_cvs_node` adds for `cands`, in order. */
  function CvEntries(cands: seq<CandidateRec>, jobId: nat): seq<Embedding.Entry> {
    if |cands| == 0 then []
    else Embedding.ChunkEntries("cv", cands[0].id, cands[0].chunks, CvMetadata(cands[0], jobId)) + CvEntries(cands[1..], jobId)
  }

  /** The loop of `index_cvs_node`; the candidates indexed before a failure
      stay indexed. */
  function IndexCvsFrom(esv: Embedding.Services, idx: Embedding.Index, cands: seq<CandidateRec>, jobId: nat)
    : (r: (Embedding.Index, Outcome))
    ensures r.0.jd == idx.jd
    ensures r.1.Pass? <==> forall i :: 0 <= i < |cands| ==> esv.embedDocuments(cands[i].chunks).Pass? && |cands[i].chunks| > 0
    ensures r.1.Pass? ==> r.0.cv.entries == idx.cv.entries + CvEntries(cands, jobId)
    decreases |cands|
  {
    if |cands| == 0 then (idx, Pass)
    else
      match Embedding.IndexCv(esv, idx, cands[0].id, cands[0].chunks, CvMetadata(cands[0], jobId))
      case Err(e) => (idx, Fail(e))
      case Ok((idx1, _)) =>
        var r := IndexCvsFrom(esv, idx1, cands[1..], jobId);
        assert forall i :: 1 <= i < |cands| ==> cands[i] == cands[1..][i - 1];
        r
  }

  /** `index_cvs_node`: only the status changes in the state. */
  function IndexCvsNode(env: Env, w: World, s: State): (r: (World, State))
    requires ValidWorld(w)
    ensures ValidWorld(r.0) && NodeOutcome(IndexCvs, s, r.1) && r.0.db == w.db && r.0.index.jd == w.index.jd
    ensures var out := IndexCvsFrom(env.embed, w.index, s.candidates, s.jobId);
      && (out.1.Fail? ==> r.1 == Failed(s, IndexCvs, out.1.msg))
      && (out.1.Pass? ==> r.1 == s.(status := CvsIndexed)
                          && r.0.index.cv.entries == w.index.cv.entries + CvEntries(s.candidates, s.jobId))
  {
    var (idx, out) := IndexCvsFrom(env.embed, w.index, s.candidates, s.jobId);
    match out
    case Fail(e) => (w.(index := idx), Failed(s, IndexCvs, e))
    case Pass => (w.(index := idx), s.(status := CvsIndexed))
  }

  // ---------------------------------------------------------------- node 5

  /** The loop of `match_candidates_node`: score, then store, each
      candidate in turn; the first exception ends the loop, and the rows
      already stored stay. */
  function MatchFrom(score: CandidateRec -> Result<MatchData>, dumps: seq<string> -> string, db: Store,
                     cands: seq<CandidateRec>): (r: (Store, Result<seq<Scored>>))
    requires Valid(db)
    ensures Valid(r.0)
    ensures r.0.jobs == db.jobs && r.0.candidates == db.candidates && r.0.interviews == db.interviews
    ensures forall k :: k in db.matches ==> k in r.0.matches && r.0.matches[k] == db.matches[k]
    ensures Matcher.MatchAll(score, cands).Err? ==> r.1.Err?
    ensures r.1.Ok? ==> r.1 == Matcher.MatchAll(score, cands)
    ensures r.1.Ok? ==> forall i :: 0 <= i < |cands| ==> DbManager.HasMatchFor(r.0, cands[i].id)
    decreases |cands|
  {
    if |cands| == 0 then (db, Ok([]))
    else
      var c := cands[0];
      assert forall i :: 1 <= i < |cands| ==> cands[i] == cands[1..][i - 1];
      match score(c)
      case Err(e) => (db, Err(e))
      case Ok(m) =>
        var (db1, created) := DbManager.CreateMatchResult(db, dumps, c.id, m.matchScore, m.strengths, m.gaps,
                                                          m.reasoning, m.isShortlisted);
        if created.Err? then (db1, Err(created.msg))
        else
          var (db2, rest) := MatchFrom(score, dumps, db1, cands[1..]);
          if rest.Err? then (db2, rest)
          else
            assert DbManager.HasMatchFor(db2, c.id) by {
              assert db1.matches[created.value.id].candidateId == Some(c.id);
            }
            (db2, Ok([Scored(c, m)] + rest.value))
  }

  /** No candidate id occurs twice. */
  ghost predicate DistinctIds(cands: seq<CandidateRec>) {
    forall i, j :: 0 <= i < j < |cands| ==> cands[i].id != cands[j].id
  }

  /** The loop cannot store a match result for every candidate when one
      of them already has one or when an id occurs twice. */
  ghost predicate Blocked(db: Store, cands: seq<CandidateRec>) {
    || (exists j :: 0 <= j < |cands| && DbManager.HasMatchFor(db, cands[j].id))
    || !DistinctIds(cands)
  }

  /** A blocked candidate list makes the loop raise: the insert for the
      repeated or already matched candidate violates the UNIQUE column, if
      scoring has not raised before. */
  lemma {:induction false} MatchFromBlocked(score: CandidateRec -> Result<MatchData>, dumps: seq<string> -> string,
                                            db: Store, cands: seq<CandidateRec>)
    requires Valid(db)
    requires Blocked(db, cands)
    ensures MatchFrom(score, dumps, db, cands).1.Err?
    decreases |cands|
  {
    var c := cands[0];
    if score(c).Ok? {
      var m := score(c).value;
      var (db1, created) := DbManager.CreateMatchResult(db, dumps, c.id, m.matchScore, m.strengths, m.gaps,
                                                        m.reasoning, m.isShortlisted);
      if created.Ok? {
        var tail := cands[1..];
        assert DbManager.HasMatchFor(db1, c.id) by {
          assert db1.matches[created.value.id].candidateId == Some(c.id);
        }
        assert Blocked(db1, tail) by {
          if j :| 0 <= j < |cands| && DbManager.HasMatchFor(db, cands[j].id) {
            var k :| k in db.matches && db.matches[k].candidateId == Some(cands[j].id);
            assert db1.matches[k] == db.matches[k];
            assert j != 0;
            assert tail[j - 1] == cands[j];
          } else {
            var i, j :| 0 <= i < j < |cands| && cands[i].id == cands[j].id;
            assert tail[j - 1] == cands[j];
            if i > 0 {
              assert tail[i - 1] == cands[i];
            }
          }
        }
        MatchFromBlocked(score, dumps, db1, tail);
      }
    }
  }

  /** Candidates new to the database, each once, are all stored and
      matched when each of them can be scored. */
  lemma {:induction false} MatchFromFresh(score: CandidateRec -> Result<MatchData>, dumps: seq<string> -> string,
                                          db: Store, cands: seq<CandidateRec>)
    requires Valid(db)
    requires DistinctIds(cands)
    requires forall i :: 0 <= i < |cands| ==> !DbManager.HasMatchFor(db, cands[i].id)
    requires forall i :: 0 <= i < |cands| ==> score(cands[i]).Ok?
    ensures MatchFrom(score, dumps, db, cands).1.Ok?
    decreases |cands|
  {
    if |cands| > 0 {
      var c := cands[0];
      var m := score(c).value;
      var (db1, created) := DbManager.CreateMatchResult(db, dumps, c.id, m.matchScore, m.strengths, m.gaps,
                                                        m.reasoning, m.isShortlisted);
      var tail := cands[1..];
      forall j | 0 <= j < |tail| ensures !DbManager.HasMatchFor(db1, tail[j].id) && score(tail[j]).Ok? {
        assert tail[j] == cands[j + 1];
      }
      assert DistinctIds(tail) by {
        forall i, j | 0 <= i < j < |tail| ensures tail[i].id != tail[j].id {
          assert tail[i] == cands[i + 1] && tail[j] == cands[j + 1];
        }
      }
      MatchFromFresh(score, dumps, db1, tail);
    }
  }

  /** The state `match_candidates_node` returns for the loop's outcome. */
  function MatchedState(s: State, out: Result<seq<Scored>>): (r: State)
    ensures NodeOutcome(MatchCandidates, s, r)
    ensures out.Err? ==> r == Failed(s, MatchCandidates, out.msg)
    ensures out.Ok? ==> r == s.(matchResults := r.matchResults, status := Matched)
                        && Sorting.SortedDesc(r.matchResults, Score)
                        && multiset(r.matchResults) == multiset(out.value)
  {
    match out
    case Err(e) => Failed(s, MatchCandidates, e)
    case Ok(results) => s.(matchResults := Sorting.SortDesc(results, Score), status := Matched)
  }

  /** `match_candidates_node`: one entry per candidate, best score first —
      the result of `batch_match_candidates` — each also stored. */
  function MatchCandidatesNode(env: Env, w: World, s: State): (r: (World, State))
    requires ValidWorld(w)
    ensures ValidWorld(r.0) && NodeOutcome(MatchCandidates, s, r.1) && r.0.index == w.index
    ensures r.1.status == Matched ==>
      && r.1 == s.(matchResults := r.1.matchResults, status := Matched)
      && forall i :: 0 <= i < |s.candidates| ==> DbManager.HasMatchFor(r.0.db, s.candidates[i].id)
  {
    var score := Matcher.Scorer(env.matcher, env.embed, w.index, s.jdSummary, s.jobId);
    var (db, out) := MatchFrom(score, env.dumps, w.db, s.candidates);
    (w.(db := db), MatchedState(s, out))
  }

  /** The node's result list is exactly what `batch_match_candidates`
      returns for the same candidates. */
  lemma MatchNodeIsBatchMatch(env: Env, w: World, s: State)
    requires ValidWorld(w)
    requires MatchCandidatesNode(env, w, s).1.status == Matched
    ensures Matcher.BatchMatchCandidates(env.matcher, env.embed, w.index, s.candidates, s.jdSummary, s.jobId)
         == Ok(MatchCandidatesNode(env, w, s).1.matchResults)
  {
    var score := Matcher.Scorer(env.matcher, env.embed, w.index, s.jdSummary, s.jobId);
    var out := MatchFrom(score, env.dumps, w.db, s.candidates).1;
    assert out.Ok?;
    assert out == Matcher.MatchAll(score, s.candidates);
  }

  // ---------------------------------------------------------------- node 6

  /** The literal cap of the shortlist. */
  const ShortlistCap: nat := 10

  /** `shortlist_candidates_node`: the shortlisted entries, in order, at
      most ten of them. */
  function ShortlistNode(s: State): (r: State)
    ensures r == s.(shortlisted := r.shortlisted, status := Shortlisted)
    ensures |r.shortlisted| <= ShortlistCap
    ensures forall i :: 0 <= i < |r.shortlisted| ==> r.shortlisted[i].result.isShortlisted && r.shortlisted[i] in s.matchResults
    ensures var all := Sorting.Filter(s.matchResults, IsShortlisted);
      && |r.shortlisted| == (if |all| <= ShortlistCap then |all| else ShortlistCap)
      && r.shortlisted == all[..|r.shortlisted|]
  {
    s.(shortlisted := Prefix(Sorting.Filter(s.matchResults, IsShortlisted), ShortlistCap), status := Shortlisted)
  }

  /** The shortlist is a subsequence of the match results, is sorted when
      they are, and keeps every shortlisted entry while there are at most
      ten of them.  On sorted results it is the top ten: no shortlisted
      entry it leaves out scores above one it keeps. */
  lemma ShortlistOrder(s: State)
    ensures Sorting.IsSubsequence(ShortlistNode(s).shortlisted, s.matchResults)
    ensures Sorting.SortedDesc(s.matchResults, Score) ==> Sorting.SortedDesc(ShortlistNode(s).shortlisted, Score)
    ensures |Sorting.Filter(s.matchResults, IsShortlisted)| <= ShortlistCap ==>
      ShortlistNode(s).shortlisted == Sorting.Filter(s.matchResults, IsShortlisted)
    ensures var all := Sorting.Filter(s.matchResults, IsShortlisted);
      var kept := ShortlistNode(s).shortlisted;
      Sorting.SortedDesc(s.matchResults, Score) ==>
        forall i, j :: 0 <= i < |kept| <= j < |all| ==> Score(all[j]) <= Score(kept[i])
  {
    var all := Sorting.Filter(s.matchResults, IsShortlisted);
    var n := |ShortlistNode(s).shortlisted|;
    Sorting.FilterIsSubsequence(s.matchResults, IsShortlisted);
    Sorting.PrefixOfSubsequence(all, s.matchResults, n);
    if Sorting.SortedDesc(s.matchResults, Score) {
      Sorting.FilterSorted(s.matchResults, IsShortlisted, Score);
    }
  }

  /** The cap equals the configured `TOP_N_CANDIDATES`, which the node
      does not read. */
  lemma ShortlistCapIsTopN()
    ensures ShortlistCap == Config.TopNCandidates
  {
  }

  // ---------------------------------------------------------------- node 7

  /** The match result the node finds for an invite: that of the candidate
      with this id among the job's candidates, if it has one. */
  function FindMatch(db: Store, jobId: nat, candidateId: nat): (r: Option<MatchResult>)
    requires Valid(db)
    ensures r.Some? <==> candidateId in db.candidates && db.candidates[candidateId].jobId == Some(jobId)
                         && DbManager.HasMatchFor(db, candidateId)
    ensures r.Some? ==> r.value in db.matches.Values && r.value.candidateId == Some(candidateId)
  {
    var cands := DbManager.GetCandidatesForJob(db, jobId);
    var found := Sorting.Filter(cands, (c: Candidate) => c.id == candidateId && DbManager.MatchOf(db, c.id).Some?);
    if |found| == 0 then
      None
    else
      assert found[0] in db.candidates.Values;
      DbManager.MatchOf(db, found[0].id)
  }

  /** The match found for a candidate depends only on the candidate and
      match tables. */
  lemma FindMatchFrame(a: Store, b: Store, jobId: nat, candidateId: nat)
    requires Valid(a) && Valid(b)
    requires a.candidates == b.candidates && a.matches == b.matches
    ensures FindMatch(a, jobId, candidateId) == FindMatch(b, jobId, candidateId)
  {
    var ma := FindMatch(a, jobId, candidateId);
    var mb := FindMatch(b, jobId, candidateId);
    if ma.Some? {
      var ka :| ka in a.matches && a.matches[ka] == ma.value;
      var kb :| kb in b.matches && b.matches[kb] == mb.value;
      assert ka == kb;
    }
  }

  /** The match result an invite is recorded against: none unless it was
      sent and its candidate has a match result under the job. */
  function Target(db: Store, jobId: nat, iv: InviteResult): (r: Option<MatchResult>)
    requires Valid(db)
    ensures r.Some? ==> iv.inviteSent && r == FindMatch(db, jobId, iv.scored.candidate.id)
    ensures r.None? ==> !iv.inviteSent || FindMatch(db, jobId, iv.scored.candidate.id).None?
  {
    if iv.inviteSent then FindMatch(db, jobId, iv.scored.candidate.id) else None
  }

  /** An invite that leads to an interview row. */
  predicate Recordable(db: Store, jobId: nat, iv: InviteResult)
    requires Valid(db)
  {
    Target(db, jobId, iv).Some?
  }

  /** The interview row that the invite at `i` produces. */
  ghost predicate RowOf(db: Store, jobId: nat, invites: seq<InviteResult>, i: nat, row: Interview)
    requires Valid(db)
  {
    && i < |invites| && Recordable(db, jobId, invites[i])
    && row.matchResultId == Some(Target(db, jobId, invites[i]).value.id)
    && row.inviteMessage == Some(invites[i].inviteBody)
    && row.status == "invited" && row.inviteSent
  }

  /** A row some invite of the list produces. */
  ghost predicate FromInvites(db: Store, jobId: nat, invites: seq<InviteResult>, row: Interview)
    requires Valid(db)
  {
    exists i: nat :: RowOf(db, jobId, invites, i, row)
  }

  lemma FromInvitesTail(db: Store, db1: Store, jobId: nat, invites: seq<InviteResult>, row: Interview)
    requires Valid(db) && Valid(db1) && |invites| > 0
    requires forall c :: FindMatch(db, jobId, c) == FindMatch(db1, jobId, c)
    requires FromInvites(db1, jobId, invites[1..], row)
    ensures FromInvites(db, jobId, invites, row)
  {
    var i: nat :| RowOf(db1, jobId, invites[1..], i, row);
    assert invites[1..][i] == invites[i + 1];
    assert RowOf(db, jobId, invites, i + 1, row);
  }

  /** The storing loop of `send_invites_node`: an interview per recordable
      invite, with the invitation body as message.  A second interview for
      the same match result raises and ends the loop. */
  function RecordInterviews(db: Store, jobId: nat, invites: seq<InviteResult>): (r: (Store, Outcome))
    requires Valid(db)
    ensures Valid(r.0)
    ensures r.0.jobs == db.jobs && r.0.candidates == db.candidates && r.0.matches == db.matches
    ensures forall k :: k in db.interviews ==> k in r.0.interviews && r.0.interviews[k] == db.interviews[k]
    decreases |invites|
  {
    if |invites| == 0 then (db, Pass)
    else
      var iv := invites[0];
      var found := Target(db, jobId, iv);
      if found.None? then
        RecordInterviews(db, jobId, invites[1..])
      else
        var (db1, created) := DbManager.CreateInterview(db, found.value.id, iv.inviteBody);
        if created.Err? then (db1, Fail(created.msg))
        else
          RecordInterviews(db1, jobId, invites[1..])
  }

  /** When the loop runs to the end, every recordable invite has an
      interview for its match result. */
  lemma {:induction false} RecordInterviewsCovers(db: Store, jobId: nat, invites: seq<InviteResult>)
    requires Valid(db)
    requires RecordInterviews(db, jobId, invites).1.Pass?
    ensures forall i :: 0 <= i < |invites| && Recordable(db, jobId, invites[i]) ==>
      DbManager.HasInterviewFor(RecordInterviews(db, jobId, invites).0, Target(db, jobId, invites[i]).value.id)
  {
    forall i | 0 <= i < |invites| && Recordable(db, jobId, invites[i])
      ensures DbManager.HasInterviewFor(RecordInterviews(db, jobId, invites).0, Target(db, jobId, invites[i]).value.id)
    {
      RecordInterviewsCoversAt(db, jobId, invites, i);
    }
  }

  lemma {:induction false} RecordInterviewsCoversAt(db: Store, jobId: nat, invites: seq<InviteResult>, i: nat)
    requires Valid(db)
    requires RecordInterviews(db, jobId, invites).1.Pass?
    requires i < |invites| && Recordable(db, jobId, invites[i])
    ensures DbManager.HasInterviewFor(RecordInterviews(db, jobId, invites).0, Target(db, jobId, invites[i]).value.id)
    decreases i
  {
    var r := RecordInterviews(db, jobId, invites).0;
    var found := Target(db, jobId, invites[0]);
    if found.None? {
      RecordInterviewsCoversAt(db, jobId, invites[1..], i - 1);
      assert invites[1..][i - 1] == invites[i];
    } else {
      var (db1, created) := DbManager.CreateInterview(db, found.value.id, invites[0].inviteBody);
      assert r == RecordInterviews(db1, jobId, invites[1..]).0;
      if i == 0 {
        assert r.interviews[created.value.id] == db1.interviews[created.value.id];
      } else {
        FindMatchFrame(db, db1, jobId, invites[i].scored.candidate.id);
        RecordInterviewsCoversAt(db1, jobId, invites[1..], i - 1);
        assert invites[1..][i - 1] == invites[i];
      }
    }
  }

  /** Every interview the loop adds comes from one of the invites. */
  lemma {:induction false} RecordInterviewsOnlyInvites(db: Store, jobId: nat, invites: seq<InviteResult>)
    requires Valid(db)
    ensures var r := RecordInterviews(db, jobId, invites).0;
      forall k :: k in r.interviews && k !in db.interviews ==> FromInvites(db, jobId, invites, r.interviews[k])
    decreases |invites|
  {
    if |invites| > 0 {
      var r := RecordInterviews(db, jobId, invites);
      var found := Target(db, jobId, invites[0]);
      if found.None? {
        RecordInterviewsOnlyInvites(db, jobId, invites[1..]);
        forall k | k in r.0.interviews && k !in db.interviews
          ensures FromInvites(db, jobId, invites, r.0.interviews[k])
        {
          FromInvitesTail(db, db, jobId, invites, r.0.interviews[k]);
        }
      } else {
        var (db1, created) := DbManager.CreateInterview(db, found.value.id, invites[0].inviteBody);
        if created.Ok? {
          FindMatchFrameAll(db, db1, jobId);
          RecordInterviewsOnlyInvites(db1, jobId, invites[1..]);
          forall k | k in r.0.interviews && k !in db.interviews
            ensures FromInvites(db, jobId, invites, r.0.interviews[k])
          {
            if k in db1.interviews {
              assert RowOf(db, jobId, invites, 0, r.0.interviews[k]);
            } else {
              FromInvitesTail(db, db1, jobId, invites, r.0.interviews[k]);
            }
          }
        }
      }
    }
  }

  lemma FindMatchFrameAll(a: Store, b: Store, jobId: nat)
    requires Valid(a) && Valid(b)
    requires a.candidates == b.candidates && a.matches == b.matches
    ensures forall c :: FindMatch(a, jobId, c) == FindMatch(b, jobId, c)
  {
    forall c ensures FindMatch(a, jobId, c) == FindMatch(b, jobId, c) {
      FindMatchFrame(a, b, jobId, c);
    }
  }

  /** The state `send_invites_node` returns once the invites exist. */
  function InvitedState(s: State, invites: seq<InviteResult>, out: Outcome): (r: State)
    ensures NodeOutcome(SendInvites, s, r)
    ensures out.Fail? ==> r == Failed(s, SendInvites, out.msg)
    ensures out.Pass? ==> r == s.(invitesSent := invites, status := Completed)
  {
    match out
    case Fail(e) => Failed(s, SendInvites, e)
    case Pass => s.(invitesSent := invites, status := Completed)
  }

  /** `send_invites_node`: nothing is sent for an empty shortlist;
      otherwise every shortlisted candidate gets an invitation, and the
      node completes with the scheduler's entries once every recordable
      invite has been stored. */
  function SendInvitesNode(env: Env, w: World, s: State): (r: (World, State))
    requires ValidWorld(w)
    ensures ValidWorld(r.0) && NodeOutcome(SendInvites, s, r.1) && r.0.index == w.index
    ensures |s.shortlisted| == 0 ==> r.0 == w && r.1 == s.(invitesSent := [], status := Completed)
    ensures var invites := Scheduler.ScheduleInterviews(env.scheduler, s.shortlisted, s.jobTitle, s.company);
      && (|s.shortlisted| > 0 && invites.Err? ==> r.0 == w && r.1 == Failed(s, SendInvites, invites.msg))
      && (|s.shortlisted| > 0 && invites.Ok? ==>
            var out := RecordInterviews(w.db, s.jobId, invites.value);
            r == (w.(db := out.0), InvitedState(s, invites.value, out.1)))
  {
    if |s.shortlisted| == 0 then (w, s.(invitesSent := [], status := Completed))
    else
      match Scheduler.ScheduleInterviews(env.scheduler, s.shortlisted, s.jobTitle, s.company)
      case Err(e) => (w, Failed(s, SendInvites, e))
      case Ok(invites) =>
        var (db, out) := RecordInterviews(w.db, s.jobId, invites);
        (w.(db := db), InvitedState(s, invites, out))
  }

  /** A completed run of node 7 has stored an interview for every
      recordable invite, and no interview that no invite produced. */
  lemma SendInvitesRecordsInterviews(env: Env, w: World, s: State)
    requires ValidWorld(w)
    requires |s.shortlisted| > 0
    requires SendInvitesNode(env, w, s).1.status == Completed
    ensures var invites := Scheduler.ScheduleInterviews(env.scheduler, s.shortlisted, s.jobTitle, s.company);
      var db := SendInvitesNode(env, w, s).0.db;
      && invites.Ok? && SendInvitesNode(env, w, s).1.invitesSent == invites.value
      && (forall i :: 0 <= i < |invites.value| && Recordable(w.db, s.jobId, invites.value[i]) ==>
            DbManager.HasInterviewFor(db, Target(w.db, s.jobId, invites.value[i]).value.id))
      && (forall k :: k in db.interviews && k !in w.db.interviews ==>
            FromInvites(w.db, s.jobId, invites.value, db.interviews[k]))
  {
    var invites := Scheduler.ScheduleInterviews(env.scheduler, s.shortlisted, s.jobTitle, s.company).value;
    RecordInterviewsCovers(w.db, s.jobId, invites);
    RecordInterviewsOnlyInvites(w.db, s.jobId, invites);
  }

  // ---------------------------------------------------------------- graph

  function Step(env: Env, stage: Stage, w: World, s: State): (r: (World, State))
    requires ValidWorld(w)
    ensures ValidWorld(r.0) && NodeOutcome(stage, s, r.1)
  {
    match stage
    case ProcessJd => ProcessJdNode(env, w, s)
    case IndexJd => IndexJdNode(env, w, s)
    case ProcessCvs => ProcessCvsNode(env, w, s)
    case IndexCvs => IndexCvsNode(env, w, s)
    case MatchCandidates => MatchCandidatesNode(env, w, s)
    case Shortlist => (w, ShortlistNode(s))
    case SendInvites => SendInvitesNode(env, w, s)
  }

  datatype Next = Continue | End

  /** `should_continue`. */
  function ShouldContinue(s: State): (r: Next)
    ensures r == End <==> s.status.Tag() == "error"
  {
    if s.status == Error then End else Continue
  }

  /** How the graph folds a node's return value into the state.  The
      `candidates` and `match_results` keys carry the `operator.add`
      reducer, so the list a node returns is appended to the current one;
      every other key is overwritten. */
  function Apply(s: State, update: State): (r: State)
    ensures r.candidates == s.candidates + update.candidates
    ensures r.matchResults == s.matchResults + update.matchResults
    ensures r == update.(candidates := r.candidates, matchResults := r.matchResults)
  {
    update.(candidates := s.candidates + update.candidates, matchResults := s.matchResults + update.matchResults)
  }

  /** One node of the compiled graph: the node runs on the state, and what
      it returns goes through the reducers. */
  function GraphStep(env: Env, stage: Stage, w: World, s: State): (r: (World, State))
    requires ValidWorld(w)
    ensures ValidWorld(r.0)
    ensures r.1.status == Step(env, stage, w, s).1.status && r.1.error == Step(env, stage, w, s).1.error
  {
    var (w1, s1) := Step(env, stage, w, s);
    (w1, Apply(s, s1))
  }

  /** Every node returns the whole state (`{**state, ...}`), so a node that
      does not build a candidate list of its own hands back the list it was
      given, and the reducer appends that list to itself. */
  lemma UntouchedCandidatesDouble(env: Env, stage: Stage, w: World, s: State)
    requires ValidWorld(w)
    requires stage != ProcessCvs
    ensures GraphStep(env, stage, w, s).1.candidates == s.candidates + s.candidates
  {
    var r := Step(env, stage, w, s).1;
    match stage
    case ProcessJd => assert r.candidates == s.candidates;
    case IndexJd => assert r.candidates == s.candidates;
    case IndexCvs => assert r.candidates == s.candidates;
    case MatchCandidates => assert r.candidates == s.candidates;
    case Shortlist => assert r.candidates == s.candidates;
    case SendInvites => assert r.candidates == s.candidates;
  }

  /** The compiled graph as written: every node runs, whatever the status
      the one before it recorded, and the two list keys accumulate. */
  function RunStages(env: Env, stages: seq<Stage>, w: World, s: State): (r: (World, State))
    requires ValidWorld(w)
    ensures ValidWorld(r.0)
    decreases |stages|
  {
    if |stages| == 0 then (w, s)
    else
      var (w1, s1) := GraphStep(env, stages[0], w, s);
      RunStages(env, stages[1..], w1, s1)
  }

  /** Without the guard, the status a run ends with is the last node's:
      its own tag or "error". */
  lemma {:induction false} LastStageDecides(env: Env, stages: seq<Stage>, w: World, s: State)
    requires ValidWorld(w)
    requires |stages| > 0
    ensures var r := RunStages(env, stages, w, s).1;
      r.status == Error || r.status == stages[|stages| - 1].Done()
    decreases |stages|
  {
    var (w1, s1) := GraphStep(env, stages[0], w, s);
    if |stages| == 1 {
      assert RunStages(env, stages[1..], w1, s1) == (w1, s1);
    } else {
      LastStageDecides(env, stages[1..], w1, s1);
      assert stages[1..][|stages| - 2] == stages[|stages| - 1];
    }
  }

  /** `screening_workflow.invoke` as the edges are written. */
  function Run(env: Env, w: World, s: State): (r: (World, State))
    requires ValidWorld(w)
    ensures ValidWorld(r.0)
  {
    RunStages(env, Pipeline, w, s)
  }

  /** Without the guard, a run ends "completed" or "error", as the last
      node decides. */
  lemma RunEndsCompletedOrError(env: Env, w: World, s: State)
    requires ValidWorld(w)
    ensures Run(env, w, s).1.status == Completed || Run(env, w, s).1.status == Error
  {
    assert |Pipeline| == 7 && Pipeline[6] == SendInvites && SendInvites.Done() == Completed;
    LastStageDecides(env, Pipeline, w, s);
  }

  /** The graph as evidently meant: `should_continue` on every edge, so the
      run ends at the first node that records an error, and each node's
      lists replace the old ones. */
  function RunStagesGuarded(env: Env, stages: seq<Stage>, w: World, s: State): (r: (World, State))
    requires ValidWorld(w)
    ensures ValidWorld(r.0)
    decreases |stages|
  {
    if |stages| == 0 then (w, s)
    else
      var (w1, s1) := Step(env, stages[0], w, s);
      if ShouldContinue(s1) == End then (w1, s1)
      else RunStagesGuarded(env, stages[1..], w1, s1)
  }

  function RunGuarded(env: Env, w: World, s: State): (r: (World, State))
    requires ValidWorld(w)
    ensures ValidWorld(r.0)
  {
    RunStagesGuarded(env, Pipeline, w, s)
  }

  /** Under the guard, a run that ends in any status but "error" has left
      the error field as it was; one that ends in "error" carries the
      message of the node that failed. */
  lemma {:induction false} GuardedErrorIsFinal(env: Env, stages: seq<Stage>, w: World, s: State)
    requires ValidWorld(w)
    requires s.status != Error
    ensures var r := RunStagesGuarded(env, stages, w, s).1;
      && (r.status != Error ==> r.error == s.error)
      && (r.status == Error ==> exists i :: 0 <= i < |stages| && StartsWith(r.error, stages[i].ErrorPrefix()))
    decreases |stages|
  {
    if |stages| > 0 {
      var (w1, s1) := Step(env, stages[0], w, s);
      if s1.status != Error {
        GuardedErrorIsFinal(env, stages[1..], w1, s1);
        var r := RunStagesGuarded(env, stages[1..], w1, s1).1;
        if r.status == Error {
          var i :| 0 <= i < |stages[1..]| && StartsWith(r.error, stages[1..][i].ErrorPrefix());
          assert stages[i + 1] == stages[1..][i];
        }
      }
    }
  }

  /** Under the guard, a completed run has no error. */
  lemma GuardedCompletionIsClean(env: Env, w: World, s: State)
    requires ValidWorld(w)
    requires s.status != Error && s.error == ""
    ensures RunGuarded(env, w, s).1.status == Completed ==> RunGuarded(env, w, s).1.error == ""
  {
    GuardedErrorIsFinal(env, Pipeline, w, s);
  }

  /* How the nodes after the first treat a state that carries no CV
     paths, candidates or results: each records its own tag and nothing
     else. */

  /** A job description without chunks cannot be indexed: the store
      rejects the empty batch, so the node fails whatever the embedder
      does. */
  lemma EmptyJdNotIndexed(env: Env, w: World, s: State)
    requires ValidWorld(w)
    requires s.jdChunks == []
    ensures var r := Step(env, IndexJd, w, s);
      && r.0 == w && r.1.status == Error && StartsWith(r.1.error, IndexJd.ErrorPrefix())
      && r.1 == s.(status := Error, error := r.1.error)
  {
  }

  lemma QuietProcessCvs(env: Env, w: World, s: State)
    requires ValidWorld(w)
    requires Processed(CvProcessor(env.docs), s.cvFilePaths) == []
    ensures Step(env, ProcessCvs, w, s).1 == s.(candidates := [], status := CvsProcessed)
  {
  }

  lemma QuietIndexCvs(env: Env, w: World, s: State)
    requires ValidWorld(w)
    requires s.candidates == []
    ensures Step(env, IndexCvs, w, s).1 == s.(status := CvsIndexed)
  {
  }

  lemma QuietMatch(env: Env, w: World, s: State)
    requires ValidWorld(w)
    requires s.candidates == []
    ensures Step(env, MatchCandidates, w, s).1 == s.(matchResults := [], status := Matched)
  {
    var score := Matcher.Scorer(env.matcher, env.embed, w.index, s.jdSummary, s.jobId);
    assert MatchFrom(score, env.dumps, w.db, []).1 == Ok([]);
  }

  lemma QuietShortlist(env: Env, w: World, s: State)
    requires ValidWorld(w)
    requires s.matchResults == []
    ensures Step(env, Shortlist, w, s).1 == s.(shortlisted := [], status := Shortlisted)
  {
  }

  lemma QuietSend(env: Env, w: World, s: State)
    requires ValidWorld(w)
    requires s.shortlisted == []
    ensures Step(env, SendInvites, w, s).1 == s.(invitesSent := [], status := Completed)
  {
  }

  /** With both lists empty the reducers change nothing. */
  lemma QuietGraphStep(env: Env, stage: Stage, w: World, s: State)
    requires ValidWorld(w)
    requires s.candidates == [] && s.matchResults == []
    ensures GraphStep(env, stage, w, s) == Step(env, stage, w, s)
  {
    var r := Step(env, stage, w, s).1;
    assert [] + r.candidates == r.candidates && [] + r.matchResults == r.matchResults;
  }

  /* The tails of the unguarded chain on a state that carries no CV that
     can be processed: each node records its tag, and the last one
     "completed". */

  /** One step of the unguarded chain. */
  lemma RunStagesCons(env: Env, stages: seq<Stage>, w: World, s: State)
    requires ValidWorld(w) && |stages| > 0
    ensures var (w1, s1) := GraphStep(env, stages[0], w, s);
      RunStages(env, stages, w, s) == RunStages(env, stages[1..], w1, s1)
  {
  }

  lemma TailSend(env: Env, w: World, s: State)
    requires ValidWorld(w)
    requires s.shortlisted == [] && s.candidates == [] && s.matchResults == []
    ensures RunStages(env, Pipeline[6..], w, s).1 == s.(invitesSent := [], status := Completed)
  {
    assert Pipeline[6..][0] == SendInvites && Pipeline[6..][1..] == [];
    RunStagesCons(env, Pipeline[6..], w, s);
    QuietGraphStep(env, SendInvites, w, s);
    QuietSend(env, w, s);
  }

  lemma TailShortlist(env: Env, w: World, s: State)
    requires ValidWorld(w)
    requires s.candidates == [] && s.matchResults == []
    ensures RunStages(env, Pipeline[5..], w, s).1 == s.(shortlisted := [], invitesSent := [], status := Completed)
  {
    assert Pipeline[5..][0] == Shortlist && Pipeline[5..][1..] == Pipeline[6..];
    RunStagesCons(env, Pipeline[5..], w, s);
    QuietGraphStep(env, Shortlist, w, s);
    QuietShortlist(env, w, s);
    var (w1, s1) := Step(env, Shortlist, w, s);
    TailSend(env, w1, s1);
  }

  lemma TailMatch(env: Env, w: World, s: State)
    requires ValidWorld(w)
    requires s.candidates == [] && s.matchResults == []
    ensures RunStages(env, Pipeline[4..], w, s).1
         == s.(shortlisted := [], invitesSent := [], status := Completed)
  {
    assert Pipeline[4..][0] == MatchCandidates && Pipeline[4..][1..] == Pipeline[5..];
    RunStagesCons(env, Pipeline[4..], w, s);
    QuietGraphStep(env, MatchCandidates, w, s);
    QuietMatch(env, w, s);
    var (w1, s1) := Step(env, MatchCandidates, w, s);
    TailShortlist(env, w1, s1);
  }

  lemma TailIndexCvs(env: Env, w: World, s: State)
    requires ValidWorld(w)
    requires s.candidates == [] && s.matchResults == []
    ensures RunStages(env, Pipeline[3..], w, s).1
         == s.(shortlisted := [], invitesSent := [], status := Completed)
  {
    assert Pipeline[3..][0] == IndexCvs && Pipeline[3..][1..] == Pipeline[4..];
    RunStagesCons(env, Pipeline[3..], w, s);
    QuietGraphStep(env, IndexCvs, w, s);
    QuietIndexCvs(env, w, s);
    var (w1, s1) := Step(env, IndexCvs, w, s);
    TailMatch(env, w1, s1);
  }

  lemma TailProcessCvs(env: Env, w: World, s: State)
    requires ValidWorld(w)
    requires Processed(CvProcessor(env.docs), s.cvFilePaths) == []
    requires s.candidates == [] && s.matchResults == []
    ensures RunStages(env, Pipeline[2..], w, s).1
         == s.(shortlisted := [], invitesSent := [], status := Completed)
  {
    assert Pipeline[2..][0] == ProcessCvs && Pipeline[2..][1..] == Pipeline[3..];
    RunStagesCons(env, Pipeline[2..], w, s);
    QuietGraphStep(env, ProcessCvs, w, s);
    QuietProcessCvs(env, w, s);
    var (w1, s1) := Step(env, ProcessCvs, w, s);
    TailIndexCvs(env, w1, s1);
  }

  lemma TailIndexJd(env: Env, w: World, s: State)
    requires ValidWorld(w)
    requires s.jdChunks == [] && s.candidates == [] && s.matchResults == []
    requires Processed(CvProcessor(env.docs), s.cvFilePaths) == []
    ensures var r := RunStages(env, Pipeline[1..], w, s).1;
      r.status == Completed && StartsWith(r.error, IndexJd.ErrorPrefix())
  {
    assert Pipeline[1..][0] == IndexJd && Pipeline[1..][1..] == Pipeline[2..];
    RunStagesCons(env, Pipeline[1..], w, s);
    QuietGraphStep(env, IndexJd, w, s);
    EmptyJdNotIndexed(env, w, s);
    var (w1, s1) := Step(env, IndexJd, w, s);
    TailProcessCvs(env, w1, s1);
  }

  /** The inputs of the finding below: a job description that cannot be
      processed, on a state with no chunks, candidates or results yet (as
      the application starts every run), and no CV that can be processed. */
  ghost predicate BrokenJd(env: Env, w: World, s: State) {
    && ValidWorld(w)
    && ProcessJobDescription(env.docs, s.jdFilePath).Err?
    && s.jdChunks == [] && s.candidates == [] && s.matchResults == []
    && Processed(CvProcessor(env.docs), s.cvFilePaths) == []
  }

  /** The unguarded chain ends with the last node's outcome even when an
      earlier node failed: here the job description cannot be processed,
      the indexing node then fails on the missing chunks and overwrites
      the message, and the run still reports "completed". */
  lemma CompletedDespiteError(env: Env, w: World, s: State)
    requires BrokenJd(env, w, s)
    ensures Run(env, w, s).1.status == Completed
    ensures StartsWith(Run(env, w, s).1.error, "JD Indexing: ")
  {
    var s1 := Failed(s, ProcessJd, ProcessJobDescription(env.docs, s.jdFilePath).msg);
    assert Step(env, ProcessJd, w, s) == (w, s1);
    QuietGraphStep(env, ProcessJd, w, s);
    assert Pipeline[0] == ProcessJd;
    TailIndexJd(env, w, s1);
  }

  /** On the same inputs the guarded graph stops at the first node, with
      that node's error. */
  lemma GuardedStopsAtError(env: Env, w: World, s: State)
    requires BrokenJd(env, w, s)
    ensures RunGuarded(env, w, s).1.status == Error
    ensures RunGuarded(env, w, s).1.error == "JD Processing: " + ProcessJobDescription(env.docs, s.jdFilePath).msg
  {
    var s1 := Failed(s, ProcessJd, ProcessJobDescription(env.docs, s.jdFilePath).msg);
    assert Step(env, Pipeline[0], w, s) == (w, s1);
  }

  /** As written, `index_cvs` doubles the candidate list through the
      reducer, and the matching node then stores a second match result for
      the first candidate, which the UNIQUE column on `candidate_id`
      rejects: whenever there is a candidate, matching fails. */
  lemma RepeatedCandidatesFailMatching(env: Env, w: World, s: State)
    requires ValidWorld(w)
    requires |s.candidates| > 0
    ensures var (w1, s1) := GraphStep(env, IndexCvs, w, s);
      && s1.candidates == s.candidates + s.candidates
      && GraphStep(env, MatchCandidates, w1, s1).1.status == Error
  {
    UntouchedCandidatesDouble(env, IndexCvs, w, s);
    var (w1, s1) := GraphStep(env, IndexCvs, w, s);
    var n := |s.candidates|;
    assert s1.candidates[0] == s1.candidates[n];
    assert !DistinctIds(s1.candidates);
    MatchNodeFailsWhenBlocked(env, w1, s1);
  }

  /** The matching node records an error on a blocked candidate list. */
  lemma MatchNodeFailsWhenBlocked(env: Env, w: World, s: State)
    requires ValidWorld(w)
    requires Blocked(w.db, s.candidates)
    ensures Step(env, MatchCandidates, w, s).1.status == Error
  {
    var score := Matcher.Scorer(env.matcher, env.embed, w.index, s.jdSummary, s.jobId);
    MatchFromBlocked(score, env.dumps, w.db, s.candidates);
    MatchNodeOutcome(env, w, s);
  }

  /** The matching node's status follows the loop's outcome. */
  lemma MatchNodeOutcome(env: Env, w: World, s: State)
    requires ValidWorld(w)
    ensures var score := Matcher.Scorer(env.matcher, env.embed, w.index, s.jdSummary, s.jobId);
      var out := MatchFrom(score, env.dumps, w.db, s.candidates).1;
      Step(env, MatchCandidates, w, s).1.status == (if out.Ok? then Matched else Error)
  {
    assert Step(env, MatchCandidates, w, s) == MatchCandidatesNode(env, w, s);
    MatchNodeStatus(env, w, s);
  }

  lemma MatchNodeStatus(env: Env, w: World, s: State)
    requires ValidWorld(w)
    ensures var score := Matcher.Scorer(env.matcher, env.embed, w.index, s.jdSummary, s.jobId);
      var out := MatchFrom(score, env.dumps, w.db, s.candidates).1;
      MatchCandidatesNode(env, w, s).1.status == (if out.Ok? then Matched else Error)
  {
    var score := Matcher.Scorer(env.matcher, env.embed, w.index, s.jdSummary, s.jobId);
    var out := MatchFrom(score, env.dumps, w.db, s.candidates).1;
    assert MatchCandidatesNode(env, w, s).1 == MatchedState(s, out);
  }

  /** With each node's list replacing the old one, `index_cvs` hands the
      candidates on unchanged, and matching candidates that are new to the
      database, each once, succeeds whenever each of them can be scored. */
  lemma FreshCandidatesMatch(env: Env, w: World, s: State)
    requires ValidWorld(w)
    requires DistinctIds(s.candidates)
    requires forall i :: 0 <= i < |s.candidates| ==> !DbManager.HasMatchFor(w.db, s.candidates[i].id)
    requires forall i :: 0 <= i < |s.candidates| ==>
      Matcher.Scorer(env.matcher, env.embed, w.index, s.jdSummary, s.jobId)(s.candidates[i]).Ok?
    ensures Step(env, IndexCvs, w, s).1.candidates == s.candidates
    ensures Step(env, MatchCandidates, w, s).1.status == Matched
  {
    var score := Matcher.Scorer(env.matcher, env.embed, w.index, s.jdSummary, s.jobId);
    MatchFromFresh(score, env.dumps, w.db, s.candidates);
    MatchNodeOutcome(env, w, s);
  }
}
