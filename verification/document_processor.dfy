/** Document processing (agents/document_processor.py): extract the text of
    a job description or CV, ask the language model for an analysis, and
    split the text into chunks.

    The language model and the recursive character splitter are
    collaborators.  The splitter is a function of its configuration and the
    text; nothing is assumed about chunk sizes or overlap.
 */
module DocumentProcessor {
  import opened Wrappers
  import Config
  import opened DocumentParser

  /** The constructor arguments of the one splitter the agent owns. */
  datatype SplitterConfig = SplitterConfig(chunkSize: nat, chunkOverlap: nat, separators: seq<string>)

  const Splitter: SplitterConfig :=
    SplitterConfig(Config.ChunkSize, Config.ChunkOverlap, ["\n\n", "\n", ". ", " ", ""])

  /** The two analysis prompts (job description, CV). */
  datatype Prompt = JdAnalysis | CvAnalysis

  datatype Services = Services(
    readers: Readers,
    finders: Finders,
    analyse: (Prompt, string) -> Result<string>,
    split: (SplitterConfig, string) -> seq<string>)

  datatype JdData = JdData(text: string, chunks: seq<string>, analysis: string, numChunks: nat)

  datatype CvData = CvData(text: string, chunks: seq<string>, info: CvInfo, analysis: string, numChunks: nat)

  /** `chunk_text`. */
  function ChunkText(sv: Services, text: string): seq<string> {
    sv.split(Splitter, text)
  }

  /** `process_job_description`: extraction, then analysis, then chunking;
      an extraction or model error propagates. */
  function ProcessJobDescription(sv: Services, path: string): (r: Result<JdData>)
    ensures r.Ok? <==> ExtractText(sv.readers, path).Ok? && sv.analyse(JdAnalysis, ExtractText(sv.readers, path).value).Ok?
    ensures r.Ok? ==>
      && r.value.text == ExtractText(sv.readers, path).value
      && r.value.chunks == ChunkText(sv, r.value.text)
      && r.value.numChunks == |r.value.chunks|
      && r.value.analysis == sv.analyse(JdAnalysis, r.value.text).value
    ensures ExtractText(sv.readers, path).Err? ==> r == Err(ExtractText(sv.readers, path).msg)
    ensures var t := ExtractText(sv.readers, path);
      t.Ok? && sv.analyse(JdAnalysis, t.value).Err? ==> r == Err(sv.analyse(JdAnalysis, t.value).msg)
  {
    var text :- ExtractText(sv.readers, path);
    var analysis :- sv.analyse(JdAnalysis, text);
    var chunks := sv.split(Splitter, text);
    Ok(JdData(text, chunks, analysis, |chunks|))
  }

  /** `process_cv`: as for a job description, plus the contact info read
      from the same extracted text. */
  function ProcessCv(sv: Services, path: string): (r: Result<CvData>)
    ensures r.Ok? <==> ExtractText(sv.readers, path).Ok? && sv.analyse(CvAnalysis, ExtractText(sv.readers, path).value).Ok?
    ensures r.Ok? ==>
      && r.value.text == ExtractText(sv.readers, path).value
      && r.value.info == ExtractCvInfo(sv.finders, r.value.text)
      && r.value.chunks == ChunkText(sv, r.value.text)
      && r.value.numChunks == |r.value.chunks|
      && r.value.analysis == sv.analyse(CvAnalysis, r.value.text).value
    ensures ExtractText(sv.readers, path).Err? ==> r == Err(ExtractText(sv.readers, path).msg)
    ensures var t := ExtractText(sv.readers, path);
      t.Ok? && sv.analyse(CvAnalysis, t.value).Err? ==> r == Err(sv.analyse(CvAnalysis, t.value).msg)
  {
    var text :- ExtractText(sv.readers, path);
    var info := ExtractCvInfo(sv.finders, text);
    var analysis :- sv.analyse(CvAnalysis, text);
    var chunks := sv.split(Splitter, text);
    Ok(CvData(text, chunks, info, analysis, |chunks|))
  }

  /** A job description and a CV read from the same file share their
      text, their chunks and their extraction error: the two operations
      differ only in the prompt and in the contact info. */
  lemma SameFileReadAlike(sv: Services, path: string)
    ensures ProcessJobDescription(sv, path).Ok? && ProcessCv(sv, path).Ok? ==>
      && ProcessJobDescription(sv, path).value.text == ProcessCv(sv, path).value.text
      && ProcessJobDescription(sv, path).value.chunks == ProcessCv(sv, path).value.chunks
      && ProcessJobDescription(sv, path).value.numChunks == ProcessCv(sv, path).value.numChunks
    ensures ExtractText(sv.readers, path).Err? ==>
      && ProcessJobDescription(sv, path).Err? && ProcessCv(sv, path).Err?
      && ProcessJobDescription(sv, path).msg == ProcessCv(sv, path).msg
    ensures ProcessJobDescription(sv, path).Ok? ==>
      (ProcessCv(sv, path).Ok? <==> sv.analyse(CvAnalysis, ProcessJobDescription(sv, path).value.text).Ok?)
  {
  }

  /** One splitter serves all three entry points: a job description and a
      CV read from files with the same text are chunked alike. */
  lemma SameSplitterEverywhere(sv: Services, jdPath: string, cvPath: string)
    requires ProcessJobDescription(sv, jdPath).Ok? && ProcessCv(sv, cvPath).Ok?
    requires ProcessJobDescription(sv, jdPath).value.text == ProcessCv(sv, cvPath).value.text
    ensures ProcessJobDescription(sv, jdPath).value.chunks == ProcessCv(sv, cvPath).value.chunks
    ensures Splitter.chunkOverlap < Splitter.chunkSize
  {
  }
}
