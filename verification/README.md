# Multi-agent job screening, modelled in Dafny

This project models the core of a job-screening system. A recruiter uploads
a job description and a batch of CVs. A fixed seven-node pipeline then does
the following:

1. extracts and analyses the job description and stores it in the database;
2. indexes the job description's chunks in a vector store;
3. extracts each CV and stores a candidate for every CV that can be read;
4. indexes the CV chunks;
5. asks a language model for a match score for every candidate, stores it,
   and sorts the results best first;
6. keeps at most ten of the shortlisted results;
7. writes an invitation for each shortlisted candidate, mails it, and
   records an interview row for each invitation that went out.

The Streamlit page around the pipeline has four parts in the model: the
start-button guard, the initial state, the average-score metric and the
score colour bands.

Each source file has one Dafny module:

| module | file | models |
|---|---|---|
| `Config` | `config.dfy` | `utils/config.py`: constants, environment defaults, the start-up key check |
| `DocumentParser` | `pdf_parser.dfy` | `utils/pdf_parser.py`: suffix dispatch, PDF/DOCX text, the contact-info heuristics |
| `DocumentProcessor` | `document_processor.dfy` | `agents/document_processor.py` |
| `Embedding` | `embedding_agent.dfy` | `agents/embedding_agent.py`: chunk ids and metadata, `get`/`delete` filters, result formatting |
| `Models` | `models.dfy` | `database/models.py`: rows, column defaults, the UNIQUE columns |
| `DbManager` | `db_manager.dfy` | `database/db_manager.py` |
| `Matcher` | `matcher_agent.dfy` | `agents/matcher_agent.py` |
| `Scheduler` | `scheduler_agent.dfy` | `agents/scheduler_agent.py` |
| `Workflow` | `workflow.dfy` | `graph/workflow.py`: the seven nodes, the graph as written, the guarded graph |
| `App` | `app.dfy` | `app.py`: score class, form guard, initial state, summary metrics |

Four helper modules carry no source file of their own:

- `Wrappers`: `Option`, `Result` and `Outcome`.
- `Records`: the dictionaries passed between nodes.
- `Text`: Python's `str.strip`, `split`, `join` and `lower`.
- `Sorting`: the stable descending sort, filtering and subsequences.

## How the model is built

- **Exceptions.** An exception becomes `Err(msg)`. `msg` is what the
  node's `str(e)` would print, as far as the model can know it. For a
  violated UNIQUE column the model keeps only the constraint fragment of
  SQLAlchemy's `IntegrityError` text. The SQL statement and parameters
  that follow it are not modelled.
- **Collaborators.** These are arrow-typed fields of each module's
  `Services` datatype:
  - the language models, the embedder and the Chroma similarity query;
  - the file readers and the regular expressions;
  - SMTP and the clock;
  - `json.dumps` and `json.loads`.

  The configuration's `os.getenv`, `int()` and the upload-directory
  `mkdir` are fields of `Config.Host`.
- **The database.** It is one map per table plus an id counter per table.
  An insert that would break a UNIQUE column fails and leaves the store
  unchanged. The UNIQUE columns are `match_results.candidate_id` and
  `interviews.match_result_id`.
- **The vector store.** Each collection is a sequence of entries, each with
  an id, a document and metadata. `get` and `delete` filter this sequence in
  insertion order. An `add` with an empty batch is rejected.
- **Scores.** Scores are `real`.

The pipeline is modelled as the code wires it. `Workflow.Run` chains the
seven nodes unconditionally, like the edges in `create_screening_workflow`
(`graph/workflow.py:271-295`). It passes every node's return value through
the state's reducers: `candidates` and `match_results` are declared with
`operator.add` (`graph/workflow.py:23-24`), so the list a node returns is
appended to the current one.

`Workflow.RunGuarded` is the graph the code evidently meant:
- `should_continue` on every edge, so the run ends at the first node that
  records "error" (`graph/workflow.py:263-267`);
- each node's lists replace the old ones, as every node's
  `{**state, ...}` return assumes.

`should_continue` is defined next to the graph, with the docstring
"Determine next step based on status", and is never attached to an edge.

Where the code's own comments and the code disagree, the model follows the
code:

- **The pipeline does not halt on an error.** See the findings below.
- **A badly shaped match reply fails the whole matching node.** The
  `except json.JSONDecodeError` branch is commented as the fallback for an
  unparseable reply (`agents/matcher_agent.py:92-101`). But only a JSON
  decode error reaches it. Two other replies raise, and the exception
  escapes `match_candidates_node`:
  - a JSON value that is not an object (`.get` raises);
  - a `match_score` that `float()` cannot convert.

  The model has `Matcher.MatchFromReply` for this, and `Workflow.MatchFrom`
  propagates the error.
- **The start button runs the unguarded pipeline.** `app.py` invokes the
  graph as compiled, so its run is `Workflow.Run`.
  - `App.StartedRunCompletesDespiteError` states what that run shows for a
    broken job description.
  - `App.StartedRunCompletesClean` states the property of the corrected
    graph.

## Model

| member | source | states |
|---|---|---|
| Config.Load | utils/config.py:11-44 | Creating the upload directory comes first. Its failure is the result. Otherwise the body succeeds iff `int()` accepts the `SMTP_PORT` text, or "587" when it is unset, and a port error passes through. On success the API key is read as given and the port is the converted text. A missing `EMAIL_PASSWORD` gives "", and a missing `DATABASE_URL` gives the SQLite default. |
| Config.Validate | utils/config.py:46-51 | Succeeds, returning true, exactly when a non-empty API key is set. Otherwise it fails with the fixed message. |
| Config.Import | utils/config.py:36-54 | The import succeeds iff the directory is made, the port converts, and a non-empty API key is set. Errors come in source order: the directory error, then the port error, then the missing-key message. |
| Config.ImportedSettingsValidate | utils/config.py:46-54 | A successful import yields exactly what the class body loaded, and those settings pass `validate()` again. |
| Config.PortErrorComesBeforeKeyCheck | utils/config.py:42-54 | With an unusable port and no key, the import reports the port's error: the class body raises before `validate()` runs. |
| Config.DefaultsSelectDemoMode | utils/config.py:28-44 | When the body loads and `EMAIL_PASSWORD` is unset, the password is empty, which selects demo mode. The overlap (50) is below the chunk size (500), and the top-N constant is 10. |
| DocumentParser.FileName | utils/pdf_parser.py:37 | `Path(p).name`: the name has no '/' and is not ".". It is "" iff no '/'-separated component is a real one, that is, non-empty and not ".". Otherwise it is a real component, and no later component is real. |
| DocumentParser.Suffix | utils/pdf_parser.py:37-38 | `Path(p).suffix`: a non-empty suffix is a dot and at least one more character, with no further dot, and is a proper tail of the file name. The suffix is empty iff the name has no dot, ends in a dot, or has its only dot in front. |
| DocumentParser.KindOf | utils/pdf_parser.py:40-48 | The reader chosen for each lower-cased extension, one iff per reader: .pdf, then .docx or .doc, then .txt. |
| DocumentParser.PdfText | utils/pdf_parser.py:17-20 | The text of a PDF is the page texts, each followed by a newline, with the all-whitespace ends cut off. It has no leading or trailing whitespace. |
| DocumentParser.DocxText | utils/pdf_parser.py:29-30 | The text of a DOCX is the paragraphs joined by newlines, with the all-whitespace ends cut off. It has no leading or trailing whitespace. |
| DocumentParser.PdfTextIsDocxText | utils/pdf_parser.py:17-30 | Pages read as a PDF and the same strings read as DOCX paragraphs give the same text. The newline after the last page is stripped away. |
| DocumentParser.ExtractText | utils/pdf_parser.py:34-48 | Covers every branch. An unsupported suffix fails with "Unsupported file type: " and the suffix. A .txt file is the raw read. A PDF or DOCX reader error is re-raised with its reader's prefix. A successful read is the stripped text. |
| DocumentParser.SuffixCaseIgnored | utils/pdf_parser.py:38-48 | Paths whose suffixes differ only in case are extracted the same way. |
| DocumentParser.FirstWhere | utils/pdf_parser.py:73-77 | The index found is the first that satisfies the test, and none before it does. No index means that no element satisfies the test. |
| DocumentParser.ExtractCvInfo | utils/pdf_parser.py:50-79 | The e-mail and phone are the first pattern matches. The name is the stripped text of the first of the first five lines that is non-empty, has at most four words and has no digit. There is no name iff none of those lines qualifies. |
| DocumentParser.NameIsClean | utils/pdf_parser.py:73-77 | A returned name is non-empty, already stripped, digit-free and at most four words long. |
| DocumentProcessor.ProcessJobDescription | agents/document_processor.py:25-53 | Succeeds iff extraction and analysis succeed. An extraction error propagates unchanged, and so does the model's error on the analysis. The result holds the extracted text, the splitter's chunks of that text, their count and the analysis. |
| DocumentProcessor.ProcessCv | agents/document_processor.py:55-87 | The same as ProcessJobDescription, with the CV prompt, plus the contact info extracted from the same text. Extraction and analysis errors propagate unchanged. |
| DocumentProcessor.SameSplitterEverywhere | agents/document_processor.py:18-23 | A job description and a CV with equal text get equal chunks. The configured overlap is below the chunk size. |
| DocumentProcessor.SameFileReadAlike | agents/document_processor.py:25-87 | A job description and a CV read from the same file share their text, chunks and chunk count, and fail alike on extraction. Once the job description processes, the CV processes iff its own analysis succeeds. |
| Embedding.ChunkIds | agents/embedding_agent.py:35 | One id per chunk, the i-th being `{kind}_{owner}_chunk_{i}`. |
| Embedding.ChunkIdInjective | agents/embedding_agent.py:35 | Equal chunk ids of one owner have equal chunk positions. |
| Embedding.ChunkIdsDistinct | agents/embedding_agent.py:35 | The ids of one owner's chunks are pairwise distinct. |
| Embedding.ChunkMetadatas | agents/embedding_agent.py:36 | Each chunk's metadata is the given metadata with `chunk_id` set to the chunk's position, and no other key changed. |
| Embedding.IndexChunks | agents/embedding_agent.py:31-45 | Succeeds iff embedding succeeds and there is at least one chunk. An embedding error carries the embedder's message. An empty batch fails with the store's empty-ids message. On success it appends one entry per chunk and returns the chunk count. |
| Embedding.IndexJobDescription | agents/embedding_agent.py:31-45 | Succeeds iff embedding succeeds and there is a chunk. It then appends the job's entries to the JD collection only and returns the chunk count. A failure carries the embedder's message or the empty-batch message. |
| Embedding.IndexCv | agents/embedding_agent.py:47-61 | Succeeds iff embedding succeeds and there is a chunk. It then appends the candidate's entries to the CV collection only and returns the chunk count. A failure carries the embedder's message or the empty-batch message. |
| Embedding.GetCvContext | agents/embedding_agent.py:92-100 | With no stored chunk for the candidate, the context is "". |
| Embedding.IndexThenContext | agents/embedding_agent.py:47-100 | Index a candidate's chunks, then read its context back. Provided nothing was stored for that candidate before, the result is exactly the chunks joined by blank lines, in order. |
| Embedding.FormatResults | agents/embedding_agent.py:102-112 | Absent or empty documents give []. Otherwise there is one hit per document of the first row, with `{}` for absent metadata and `None` for absent distances. It fails iff a present metadata or distance row is shorter than the document row. |
| Embedding.SearchSimilarJdChunks | agents/embedding_agent.py:63-73 | An embedding error propagates. Otherwise it queries the JD collection filtered on the job id: a query error propagates, and a query result is returned as `FormatResults` formats it. |
| Embedding.CvFilter | agents/embedding_agent.py:80-87 | There is a filter iff a non-empty id list is given. The filter matches exactly the metadata whose `candidate_id` is one of the ids. |
| Embedding.SearchSimilarCvChunks | agents/embedding_agent.py:75-90 | An embedding error propagates. Otherwise it queries the CV collection with `CvFilter` of the ids: a query error propagates, and a query result is returned as `FormatResults` formats it. |
| Embedding.DeleteWhere | agents/embedding_agent.py:114-126 | A failing delete changes nothing and is swallowed. Otherwise exactly the matching entries are removed. |
| Embedding.ClearJobData | agents/embedding_agent.py:114-119 | Never touches the CV collection. After a delete that does not fail, no remaining JD entry belongs to the job, every remaining entry was there before, and every entry of another job remains. A failing delete leaves the index as it was. |
| Embedding.ClearCandidateData | agents/embedding_agent.py:121-126 | The same as ClearJobData, for the candidate's CV entries. The JD collection is never touched. |
| Embedding.ClearedJobHasNoChunks | agents/embedding_agent.py:114-119 | After a clear whose delete did not fail, `get` on the job's filter finds no document. |
| Embedding.ClearUndoesIndexJob | agents/embedding_agent.py:31-119 | Indexing a job description and then clearing the job gives back the index as it was. This needs the collection to hold nothing of the job before, the metadata to carry the job id, and the delete not to fail. |
| Embedding.ClearedCandidateHasNoContext | agents/embedding_agent.py:121-126 | After a clear whose delete did not fail, the candidate's context is "". |
| Models.NewMatchResult | database/models.py:51-62 | `is_shortlisted` defaults to false. Given columns are kept. |
| Models.NewInterview | database/models.py:72-82 | `status` defaults to "pending", `invite_sent` to false, and the scheduled date is unset. |
| Models.EmptyStoreValid | database/models.py:56-77 | The empty database satisfies the UNIQUE and id invariants. |
| DbManager.Session | database/db_manager.py:19-30 | A failing body leaves the store as it was and re-raises its error. A successful body commits its store. |
| DbManager.CreateJobDescription | database/db_manager.py:33-48 | Adds exactly one row, under a fresh id, holding the given columns. Other tables are unchanged and the invariants hold. |
| DbManager.CreateCandidate | database/db_manager.py:61-76 | Adds exactly one row, under a fresh id, holding the given columns and job id. Other tables are unchanged. |
| DbManager.CreateMatchResult | database/db_manager.py:84-100 | Fails, leaving the store unchanged, iff the candidate already has a match result. Otherwise it adds one row whose strengths and gaps are the JSON dumps. |
| DbManager.MatchResultOncePerCandidate | database/db_manager.py:84-100 | A second match result for the same candidate is refused. |
| DbManager.CreateInterview | database/db_manager.py:115-127 | Fails iff the match result already has an interview. Otherwise it adds one row with `invite_sent` true and status "invited". |
| DbManager.GetJobDescription | database/db_manager.py:50-53 | Present iff the id is stored, and then it is that row. |
| DbManager.GetAllJobDescriptions | database/db_manager.py:55-58 | Exactly the stored job rows, each once. |
| DbManager.GetCandidatesForJob | database/db_manager.py:78-81 | Exactly the stored candidates whose job id is the given one, each once. |
| DbManager.MatchOf | database/models.py:45 | A candidate's `match_result` is a stored row naming that candidate, and it is absent iff there is none. |
| DbManager.ShortlistRowsComplete | database/db_manager.py:102-112 | Every shortlisted (candidate, match) pair of the job appears in the joined rows. |
| DbManager.GetShortlistedCandidates | database/db_manager.py:102-112 | Exactly the job's shortlisted (candidate, match) pairs, each once, highest score first. |
| DbManager.PendingRowsComplete | database/db_manager.py:129-141 | Every invited (candidate, interview) pair of the job appears in the joined rows. |
| DbManager.GetPendingInterviews | database/db_manager.py:129-141 | Exactly the job's (candidate, interview) pairs whose interview status is "invited", each once. |
| Matcher.Fallback | agents/matcher_agent.py:92-101 | The fallback is never shortlisted and scores 50. Its reasoning is the reply's first 200 characters, or the whole reply when it is shorter. |
| Matcher.MatchFromReply | agents/matcher_agent.py:77-101 | A decode error gives the fallback. A non-object fails with Python's `.get` message. An unconvertible score fails. Otherwise every missing field takes its default. |
| Matcher.ShortlistedIffOverThreshold | agents/matcher_agent.py:87 | On the success path, shortlisted iff score >= 60. |
| Matcher.FallbackNeverShortlisted | agents/matcher_agent.py:94-101 | A reply that fails to decode is never shortlisted, and the fallback score is below the threshold. |
| Matcher.RecommendationUnchecked | agents/matcher_agent.py:86 | Any recommendation string the model returns is kept, in or out of the four the prompt lists (line 53). |
| Matcher.PromptFor | agents/matcher_agent.py:23-28 | The prompt carries the candidate's stored CV context. It also carries the documents of the JD hits for the first 500 characters of that context, joined by blank lines. A search error propagates. |
| Matcher.PromptSeesIndexedChunks | agents/matcher_agent.py:24-28 | After a candidate's chunks are indexed, the prompt's CV context is exactly those chunks joined by blank lines. |
| Matcher.CalculateMatchScore | agents/matcher_agent.py:19-101 | A retrieval error and a chat error propagate with their messages. When the prompt is built and the model replies, the result is exactly the parse of that reply, and a shortlisted result scores at least the threshold. |
| Matcher.MatchAll | agents/matcher_agent.py:106-119 | Succeeds iff every candidate scores. It then holds one record per candidate, in input order, each pairing the candidate with its score. |
| Matcher.BatchMatchCandidates | agents/matcher_agent.py:103-124 | Succeeds iff every candidate scores. It returns a permutation of the per-candidate records, sorted by descending score. |
| Matcher.BatchMatchStable | agents/matcher_agent.py:122 | Records with equal scores keep their input order. |
| Matcher.BatchMatchKeepsCandidates | agents/matcher_agent.py:108-122 | Every input candidate appears in the result exactly as often as in the input. |
| Scheduler.Subject | agents/scheduler_agent.py:61 | The subject is "Interview Invitation - ", then the title, " at ", and the company, each at its place. |
| Scheduler.SubjectDeterminesTitle | agents/scheduler_agent.py:61 | For one company, equal subjects mean equal job titles. |
| Scheduler.StrengthsLine | agents/scheduler_agent.py:54 | No strengths give "". One strength gives itself. |
| Scheduler.StrengthsLineIgnoresRest | agents/scheduler_agent.py:54 | Only the first two strengths reach the prompt, joined by ", ". |
| Scheduler.GenerateInterviewInvite | agents/scheduler_agent.py:21-64 | Fails iff the model fails. The invite goes to the candidate's e-mail with the template subject, the model's body and status "generated". |
| Scheduler.SendEmail | agents/scheduler_agent.py:66-99 | Never raises. In demo mode, with an empty password, the result is true. Otherwise it is true iff the transport succeeds. |
| Scheduler.DemoModeIgnoresTransport | agents/scheduler_agent.py:73-80 | In demo mode the transport is never consulted. |
| Scheduler.InviteEntry | agents/scheduler_agent.py:117-125 | The entry keeps the candidate, subject and body. It has a timestamp exactly when the mail was sent. |
| Scheduler.ScheduleFrom | agents/scheduler_agent.py:106-125 | Succeeds iff every remaining invite is generated. It then holds one entry per candidate, in order. A failure carries the message of the first invite that could not be generated. |
| Scheduler.ScheduleInterviews | agents/scheduler_agent.py:101-127 | Succeeds iff every invite is generated. It then holds one entry per shortlisted candidate, in order. Each entry has the job's subject and the generated body, is sent iff `send_email` returns true, and has a timestamp iff sent. In demo mode every invite counts as sent. A failure carries the message of the first invite that could not be generated. |
| Workflow.Failed | graph/workflow.py:59-60 | A failing node keeps its input state except for status "error" and a message starting with the node's prefix. |
| Workflow.ProcessJdNode | graph/workflow.py:31-60 | On an extraction or analysis error the state fails with "JD Processing: " and the database is untouched. Otherwise the job is stored with its text as description and requirements. The state then takes the new id, the text, the analysis as summary and the chunks. |
| Workflow.IndexJdNode | graph/workflow.py:63-83 | Only the status changes, and the database is untouched. An embedding error, or a job description without chunks, fails with "JD Indexing: ". |
| Workflow.OrDefault | graph/workflow.py:100-102 | Python's `x or default`: a missing or empty value takes the default. |
| Workflow.Processed | graph/workflow.py:93-128 | The CVs kept are those whose processing succeeds, with their data. |
| Workflow.ProcessedAll | graph/workflow.py:93-128 | When every CV processes, every CV is kept, in order. |
| Workflow.ProcessCvsFrom | graph/workflow.py:93-128 | One candidate record and one stored row per successfully processed CV, in order. The k-th gets `Candidate_k` and `candidatek@example.com` when its name or e-mail is missing. Earlier rows are kept. |
| Workflow.ProcessCvsNode | graph/workflow.py:86-134 | A failing CV is skipped. The node never fails, sets only candidates and status, and stores exactly the candidates it reports. |
| Workflow.CvsProcessedState | graph/workflow.py:132 | The node's result state satisfies the node contract. |
| Workflow.IndexCvsFrom | graph/workflow.py:142-151 | Succeeds iff every candidate has chunks and they embed. It then appends every candidate's entries, in order, and never touches the JD collection. |
| Workflow.IndexCvsNode | graph/workflow.py:137-157 | Only the status changes. An embedding error fails with "CV Indexing: ". |
| Workflow.MatchFrom | graph/workflow.py:167-190 | A scoring error fails the loop. A successful loop returns the per-candidate records in order and has stored a match result for every candidate. Earlier match rows are kept. |
| Workflow.MatchFromBlocked | graph/workflow.py:167-190 | If a candidate already has a match result, or an id occurs twice, the loop raises. |
| Workflow.MatchFromFresh | graph/workflow.py:167-190 | Candidates new to the database, each once, are all matched when each can be scored. |
| Workflow.MatchedState | graph/workflow.py:195-201 | The results are sorted best first and are a permutation of the loop's records. Otherwise the state fails with "Matching: ". |
| Workflow.MatchCandidatesNode | graph/workflow.py:160-201 | On success only the match results and status change, and every candidate has a stored match result. |
| Workflow.MatchNodeIsBatchMatch | graph/workflow.py:165-195 | A successful node's result list is exactly what `batch_match_candidates` returns for the same candidates. |
| Workflow.ShortlistNode | graph/workflow.py:204-219 | Only the shortlist and status change. The shortlist is the first min(n, 10) of the n shortlisted match results, in their order. |
| Workflow.ShortlistOrder | graph/workflow.py:210-213 | The shortlist is a subsequence of the match results and sorted when they are. With at most 10 shortlisted results it is all of them. On sorted results no shortlisted result left out scores above one kept. |
| Workflow.ShortlistCapIsTopN | graph/workflow.py:213 | The literal cap equals the configured `TOP_N_CANDIDATES`. |
| Workflow.FindMatch | graph/workflow.py:242-248 | Found iff the candidate belongs to the job and has a stored match result. A found row is a stored match result of that candidate. |
| Workflow.FindMatchFrame | graph/workflow.py:242-248 | The lookup depends only on the candidate and match tables. |
| Workflow.Target | graph/workflow.py:240-250 | An invite is recorded against a match only if it was sent and its candidate's match is found. |
| Workflow.RecordInterviews | graph/workflow.py:239-254 | Only the interview table grows, earlier interviews are kept, and the invariants hold. |
| Workflow.RecordInterviewsCovers | graph/workflow.py:239-254 | When the loop finishes, every sent invite whose match is found has an interview row. |
| Workflow.RecordInterviewsOnlyInvites | graph/workflow.py:239-254 | Every interview row the loop adds belongs to one of the sent invites. |
| Workflow.InvitedState | graph/workflow.py:258-260 | The node's result state satisfies the node contract, with the invites on success. |
| Workflow.SendInvitesNode | graph/workflow.py:222-260 | An empty shortlist completes with no invites and changes nothing stored. A scheduling error fails with "Sending Invites: " and changes nothing stored. Otherwise the storing loop runs, and the node completes with the invites unless that loop fails. |
| Workflow.SendInvitesRecordsInterviews | graph/workflow.py:238-258 | A completed node has an interview row for every sent invite whose match is found, and no other new rows. |
| Workflow.Step | graph/workflow.py:277-283 | Every node either fails with its own prefix, keeping the rest of the state, or records its own status and leaves the error field alone. |
| Workflow.ShouldContinue | graph/workflow.py:263-267 | Ends iff the status is "error". |
| Workflow.Apply | graph/workflow.py:23-24 | The reducer: `candidates` and `match_results` become the old list followed by the returned one, and every other key takes the returned value. |
| Workflow.GraphStep | graph/workflow.py:23-24 | A node of the compiled graph keeps the invariants and records the same status and error as the node itself. |
| Workflow.UntouchedCandidatesDouble | graph/workflow.py:23-260 | Every node but `process_cvs` hands back the candidate list it was given, so the graph doubles that list. |
| Workflow.RunStages | graph/workflow.py:286-293 | The unconditional chain of graph steps keeps the database invariants. |
| Workflow.Run | graph/workflow.py:271-295 | The compiled graph as written keeps the database invariants. |
| Workflow.RunStagesGuarded | graph/workflow.py:263-267 | The chain with the guard on every edge keeps the database invariants. |
| Workflow.RunGuarded | graph/workflow.py:263-295 | The corrected graph keeps the database invariants. |
| Workflow.LastStageDecides | graph/workflow.py:286-293 | Without the guard, the final status is "error" or the last node's status. |
| Workflow.RunEndsCompletedOrError | graph/workflow.py:286-293 | The graph as written ends "completed" or "error". |
| Workflow.CompletedDespiteError | graph/workflow.py:263-295 | As written: a job description that fails to process, on a state with no chunks, candidates or results, and with no CV readable, ends "completed". The indexing node fails on the missing chunks, and its "JD Indexing: " error stays in the final state. |
| Workflow.GuardedErrorIsFinal | graph/workflow.py:263-267 | With the guard, a run that ends in any status but "error" has left the error field as it was. |
| Workflow.GuardedCompletionIsClean | graph/workflow.py:263-267 | With the guard, a run from a clean state that completes has no error. |
| Workflow.GuardedStopsAtError | graph/workflow.py:263-267 | With the guard, the same inputs end in "error" with "JD Processing: " and the processor's message. |
| Workflow.EmptyJdNotIndexed | graph/workflow.py:63-83 | A job description without chunks fails the indexing node with "JD Indexing: ", whatever the embedder does, and changes nothing else. |
| Workflow.RepeatedCandidatesFailMatching | graph/workflow.py:137-201 | As written, with the `operator.add` reducer of lines 23-24: with any candidate, `index_cvs` doubles the candidate list and the matching node then ends in "error". |
| Workflow.MatchNodeFailsWhenBlocked | graph/workflow.py:160-201 | The matching node ends in "error" when a candidate already has a match result or an id repeats. |
| Workflow.FreshCandidatesMatch | graph/workflow.py:137-201 | With replacement in place of the reducer, `index_cvs` hands the candidates on unchanged. Distinct candidates with no match result, each scorable, then reach "matched". |
| App.GetScoreClass | app.py:69-76 | "score-high" iff score >= 75, "score-medium" iff 60 <= score < 75, and "score-low" iff score < 60. |
| App.ScoreClassTotalAndMonotone | app.py:69-76 | Every score gets one of the three classes, and a higher score never gets a lower band. |
| App.ScoreClassAgreesWithShortlist | app.py:73-74 | A score is banded above "low" iff it reaches the shortlist threshold. |
| App.SavedPaths | app.py:141 | One saved path per uploaded CV, in upload order. |
| App.InitialState | app.py:148-163 | The initial state holds the form's title and company and the saved paths, with every other field empty, job id 0 and status "initialized". |
| App.StartScreening | app.py:133-163 | The run starts iff title, company, job description and at least one CV are given, and then its state is exactly `App.InitialState` of the form and the saved paths. Otherwise the fixed "Please fill all required fields" message is shown. |
| App.StartedRunCompletesClean | app.py:169 | For the corrected graph, a run started from the form that completes carries no error. |
| App.StartedRunCompletesDespiteError | app.py:169 | The run the page starts, for a job description that cannot be processed and no processable CV, ends "completed" with a "JD Indexing: " error. |
| App.AverageScore | app.py:201 | With no match results the division raises. Otherwise the average times the count is the score sum. |
| App.SumScoresBounds | app.py:201 | Scores between lo and hi sum to between n*lo and n*hi. |
| App.AverageWithinBounds | app.py:201 | The average lies between any lower and upper bound of the scores. |
| App.Summarize | app.py:182-215 | The four metrics are the counts of candidates, shortlisted and invites, and the average score. With no match results the summary raises "division by zero". |
| Text.Strip | utils/pdf_parser.py:20 | `str.strip`: the result is the slice of the input left once all-whitespace ends are cut off. It has no surrounding whitespace, and it is empty iff the input is all whitespace. |
| Text.StripIdempotent | utils/pdf_parser.py:74 | Stripping twice is stripping once. |
| Text.JoinSplit | utils/pdf_parser.py:72 | Joining the pieces of `split(c)` with `c` gives back the text. |
| Text.SplitJoin | utils/pdf_parser.py:72 | Splitting a join of separator-free pieces gives back the pieces. |
| Text.Words | utils/pdf_parser.py:75 | `str.split()` yields non-empty words with no whitespace, and none iff the text is all whitespace. A text that starts with a non-space starts the first word. |
| Text.WordsAreNonEmptyPieces | utils/pdf_parser.py:75 | `str.split()` equals the non-empty pieces between single whitespace characters, an independent definition. |
| Text.NatToStringInjective | agents/embedding_agent.py:35 | Distinct numbers print differently. |
| Text.Lower | utils/pdf_parser.py:38 | The lower-cased suffix has the same length and no upper-case ASCII letter. |
| Sorting.SortDesc | agents/matcher_agent.py:122 | The result is sorted descending by the key and is a permutation of the input. |
| Sorting.SortDescStable | agents/matcher_agent.py:122 | Elements with equal keys keep their relative order. |
| Sorting.SortDescPermutesImage | agents/matcher_agent.py:122 | Sorting permutes any projection of the elements. |
| Sorting.FilterSorted | graph/workflow.py:210-213 | Filtering a sorted list keeps it sorted. |
| Sorting.FilterIsSubsequence | graph/workflow.py:210-213 | Filtering yields a subsequence. |

## Left out

- **I/O and libraries.** Printing, logging, the Streamlit widgets, the CSS
  and the metric-card HTML are not modelled. Neither is the "Clear All
  Data" button, which shells out to `rm`. None of them affects the state.
- **Saving uploads.** `save_uploaded_file` writes a file and is not
  modelled. It becomes a function from an upload's name to its path.
- **Text extraction.** The PDF and DOCX libraries, file reading, the
  language models and the embedder are collaborators. The regular
  expressions for e-mail and phone are oracles that return the first match.
- **The text splitter.** `RecursiveCharacterTextSplitter` is a function of
  its configuration and the text. Nothing is claimed about chunk sizes or
  overlap.
- **Similarity search.** Chroma's ranking is a collaborator that returns the
  raw query result. Only the `where` filters of `get` and `delete`, and the
  formatting of results, are modelled exactly.
- **SQLAlchemy internals.** Sessions, `flush`/`refresh` and the
  `created_at` timestamps are not modelled. Foreign keys are stored but not
  enforced, as SQLite does by default. `String(n)` length limits are not
  checked.
- **Detached rows.** Every `db_manager` method returns its rows after the
  session has closed. Reading a lazy relationship such as
  `candidate.match_result` on such a row can then raise
  `DetachedInstanceError`, and so can reading a column that the commit
  expired. The model assumes every returned row stays readable, with its
  columns and relationships as stored.
- **Integrity error text.** `DbManager.CreateMatchResult` and
  `DbManager.CreateInterview` fail with the constraint fragment of the
  `IntegrityError` text only. The statement and parameters that SQLAlchemy
  appends are not modelled.
- **LangGraph's execution engine.** Checkpointing, recursion limits and
  the channel machinery are not modelled. Only the node order and the
  reducers of `candidates` and `match_results` (`Workflow.Apply`) are.
- **Configuration side effects.** `load_dotenv()` is not modelled: the
  environment it fills is the `getenv` collaborator. The upload directory's
  `mkdir` is only its outcome, and `int()` on the port text is a
  collaborator that returns the number or Python's error message.
- **Vector-store failures.** The only `add` failure modelled is the empty
  batch. Other store errors, such as a lost connection, are not modelled.
- Embedding.IndexChunks: re-adding an id that is already stored appends a
  second entry in the model. Chroma instead skips such an id with a
  warning. Within one run the pipeline adds each id once, because every
  chunk id carries the fresh database id of its job or candidate.
- Embedding.IndexChunks: the empty-batch message is the one Chroma's id
  validation gives. Its exact wording depends on the Chroma version, so
  only the failure is the source's promise, not the text.
- **Mail transport.** The SMTP server, port and sender address are folded
  into one transport collaborator.
- **Concrete values.** The clock is a collaborator indexed by invite
  position. JSON values other than numbers, strings and lists of strings are
  not represented.
- **The shortlist log line.** It prints the matcher's temperature where the
  threshold was evidently meant. It is output only and is not modelled.
- **Candidate inserts.** `create_candidate` cannot fail in the model,
  because the candidates table has no UNIQUE column. So the outer `except`
  of `process_cvs_node` is unreachable here, as is the per-CV skip on a
  database error.
- **Path syntax.** `DocumentParser.FileName` splits on '/' only, as
  `PosixPath` does. On Windows, `pathlib` also splits on '\\' and knows
  drive letters, which the model does not.
- **Character classes.** `Text.Lower` and the digit test in
  `DocumentParser.LooksLikeName` cover ASCII only, where Python's
  `str.lower` and `str.isdigit` are Unicode-aware. The whitespace set of
  `strip` and `split` is Python's full set.
- Workflow.Run: its contract states only that the database invariants are
  kept. The properties about the final status are the lemmas
  `Workflow.LastStageDecides`, `Workflow.RunEndsCompletedOrError` and
  `Workflow.CompletedDespiteError`.
- Workflow.RunStages: like `Workflow.Run`, it states only the invariant.
  `Workflow.LastStageDecides` carries the status property.
- Workflow.RunGuarded: it states only the invariant.
  `Workflow.GuardedErrorIsFinal`, `Workflow.GuardedCompletionIsClean` and
  `Workflow.GuardedStopsAtError` carry its properties.
- Workflow.RunStagesGuarded: it states only the invariant, for the same
  reason as `Workflow.RunGuarded`.
- Workflow.RecordInterviews: its contract is the frame and invariant only.
  Coverage and provenance of the new rows are `Workflow.RecordInterviewsCovers`
  and `Workflow.RecordInterviewsOnlyInvites`.
- Embedding.GetCvContext: its contract covers only the empty case.
  `Embedding.IndexThenContext` states the joined-chunks case.

## Findings

| source | as written | input that shows it | evidently intended | confidence | as-written member | corrected member |
|---|---|---|---|---|---|---|
| graph/workflow.py:263-295 | `should_continue` is defined but never attached to an edge. Every node runs whatever the status, so a later node overwrites "error" with its own status. | A job description whose extraction fails, on the fresh state the page builds, and no readable CV. The first node records "JD Processing: ...". The indexing node then fails on the empty chunk list with "JD Indexing: ...". Every later node succeeds on empty lists, and the run ends "completed" with that error still set. | Stop at the first node that records "error", which is what `should_continue` ("Determine next step based on status") decides. | not executed | Workflow.CompletedDespiteError | Workflow.GuardedStopsAtError |
| graph/workflow.py:23-24 | `candidates` and `match_results` carry the `operator.add` reducer, yet every node returns `{**state, ...}`. So a node that does not build the list hands the current list back, and the graph appends it to itself. | Any run with at least one processed CV. `index_cvs` doubles the candidate list, so the matching loop reaches the first candidate a second time. Its second `create_match_result` violates the UNIQUE `candidate_id`, and the matching node ends in "error". | Each node's lists replace the old ones, with no reducer, so each candidate is matched once. | not executed | Workflow.RepeatedCandidatesFailMatching | Workflow.FreshCandidatesMatch |
