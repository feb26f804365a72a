/** Vector-index bookkeeping (agents/embedding_agent.py).

    The two Chroma collections are modelled as sequences of stored entries
    in insertion order.  Computing embeddings and ranking by similarity are
    collaborators: the embedder either succeeds or raises, and a query
    returns Chroma's raw result (parallel arrays, one row per query).
 */
module Embedding {
  import opened Wrappers
  import opened Text
  import Config

  /** A metadata value as stored by the agent. */
  datatype MetaValue = IntValue(i: int) | StrValue(s: string)

  type Metadata = map<string, MetaValue>

  datatype Entry = Entry(id: string, document: string, metadata: Metadata)

  datatype Collection = Collection(name: string, entries: seq<Entry>)

  /** The JD and CV collections. */
  datatype Index = Index(jd: Collection, cv: Collection)

  /** A Chroma `where` clause: `{key: value}` or `{key: {"$in": values}}`. */
  datatype Where = Equals(key: string, value: MetaValue) | OneOf(key: string, values: seq<MetaValue>)

  /** The raw result of `collection.query`: each array may be absent. */
  datatype RawQuery = RawQuery(
    documents: Option<seq<seq<string>>>,
    metadatas: Option<seq<seq<Metadata>>>,
    distances: Option<seq<seq<real>>>)

  /** One formatted search hit. */
  datatype Hit = Hit(document: string, metadata: Metadata, distance: Option<real>)

  datatype Services = Services(
    embedDocuments: seq<string> -> Outcome,
    embedQuery: string -> Outcome,
    query: (Collection, string, Option<Where>, nat) -> Result<RawQuery>,
    deleteFails: (Collection, Where) -> bool)

  predicate Matches(m: Metadata, w: Where) {
    match w
    case Equals(k, v) => k in m && m[k] == v
    case OneOf(k, vs) => k in m && m[k] in vs
  }

  const Empty: Index := Index(Collection(Config.ChromaCollectionJd, []), Collection(Config.ChromaCollectionCv, []))

  /** `f"{kind}_{owner}_chunk_{i}"`. */
  function ChunkId(kind: string, owner: nat, i: nat): string {
    kind + "_" + NatToString(owner) + "_chunk_" + NatToString(i)
  }

  /** The ids of `n` chunks: one per chunk, all different. */
  function ChunkIds(kind: string, owner: nat, n: nat): (r: seq<string>)
    ensures |r| == n
    ensures forall i :: 0 <= i < n ==> r[i] == ChunkId(kind, owner, i)
  {
    seq(n, i requires 0 <= i => ChunkId(kind, owner, i))
  }

  lemma ChunkIdInjective(kind: string, owner: nat, i: nat, j: nat)
    requires ChunkId(kind, owner, i) == ChunkId(kind, owner, j)
    ensures i == j
  {
    var p := kind + "_" + NatToString(owner) + "_chunk_";
    assert ChunkId(kind, owner, i)[|p|..] == NatToString(i);
    assert ChunkId(kind, owner, j)[|p|..] == NatToString(j);
    NatToStringInjective(i, j);
  }

  /** Chunk ids of one owner are pairwise distinct. */
  lemma ChunkIdsDistinct(kind: string, owner: nat, n: nat)
    ensures forall i, j :: 0 <= i < j < n ==> ChunkIds(kind, owner, n)[i] != ChunkIds(kind, owner, n)[j]
  {
    forall i, j | 0 <= i < j < n
      ensures ChunkIds(kind, owner, n)[i] != ChunkIds(kind, owner, n)[j]
    {
      if ChunkIds(kind, owner, n)[i] == ChunkIds(kind, owner, n)[j] {
        ChunkIdInjective(kind, owner, i, j);
      }
    }
  }

  /** `[{**metadata, "chunk_id": i} for i in range(n)]`. */
  function ChunkMetadatas(metadata: Metadata, n: nat): (r: seq<Metadata>)
    ensures |r| == n
    ensures forall i :: 0 <= i < n ==> r[i].Keys == metadata.Keys + {"chunk_id"}
    ensures forall i :: 0 <= i < n ==> r[i]["chunk_id"] == IntValue(i)
    ensures forall i, k :: 0 <= i < n && k in metadata && k != "chunk_id" ==> r[i][k] == metadata[k]
  {
    seq(n, i requires 0 <= i => metadata["chunk_id" := IntValue(i)])
  }

  /** The entries `add` stores for the given chunks. */
  function ChunkEntries(kind: string, owner: nat, chunks: seq<string>, metadata: Metadata): (r: seq<Entry>)
    ensures |r| == |chunks|
    ensures forall i :: 0 <= i < |chunks| ==>
      r[i] == Entry(ChunkId(kind, owner, i), chunks[i], metadata["chunk_id" := IntValue(i)])
  {
    var ids := ChunkIds(kind, owner, |chunks|);
    var metas := ChunkMetadatas(metadata, |chunks|);
    seq(|chunks|, i requires 0 <= i < |chunks| => Entry(ids[i], chunks[i], metas[i]))
  }

  /** What Chroma's id validation raises for an `add` with no ids. */
  const EmptyBatchMessage: string := "Expected IDs to be a non-empty list, got []"

  /** Embeds the chunks, then stores them; returns the chunk count.  The
      store rejects an empty batch, so a document without chunks cannot be
      indexed. */
  function IndexChunks(sv: Services, c: Collection, kind: string, owner: nat, chunks: seq<string>, metadata: Metadata)
    : (r: Result<(Collection, nat)>)
    ensures r.Ok? <==> sv.embedDocuments(chunks).Pass? && |chunks| > 0
    ensures r.Ok? ==> r.value.1 == |chunks| && r.value.0 == Collection(c.name, c.entries + ChunkEntries(kind, owner, chunks, metadata))
    ensures sv.embedDocuments(chunks).Fail? ==> r == Err(sv.embedDocuments(chunks).msg)
    ensures sv.embedDocuments(chunks).Pass? && |chunks| == 0 ==> r == Err(EmptyBatchMessage)
  {
    match sv.embedDocuments(chunks)
    case Fail(e) => Err(e)
    case Pass =>
      if |chunks| == 0 then Err(EmptyBatchMessage)
      else Ok((Collection(c.name, c.entries + ChunkEntries(kind, owner, chunks, metadata)), |chunks|))
  }

  /** `index_job_description`. */
  function IndexJobDescription(sv: Services, idx: Index, jobId: nat, chunks: seq<string>, metadata: Metadata)
    : (r: Result<(Index, nat)>)
    ensures r.Ok? <==> sv.embedDocuments(chunks).Pass? && |chunks| > 0
    ensures r.Ok? ==> r.value.1 == |chunks| && r.value.0.cv == idx.cv
    ensures r.Ok? ==> r.value.0.jd.entries == idx.jd.entries + ChunkEntries("jd", jobId, chunks, metadata)
    ensures r.Err? ==> r.msg == if sv.embedDocuments(chunks).Fail? then sv.embedDocuments(chunks).msg else EmptyBatchMessage
  {
    var (jd, n) :- IndexChunks(sv, idx.jd, "jd", jobId, chunks, metadata);
    Ok((idx.(jd := jd), n))
  }

  /** `index_cv`. */
  function IndexCv(sv: Services, idx: Index, candidateId: nat, chunks: seq<string>, metadata: Metadata)
    : (r: Result<(Index, nat)>)
    ensures r.Ok? <==> sv.embedDocuments(chunks).Pass? && |chunks| > 0
    ensures r.Ok? ==> r.value.1 == |chunks| && r.value.0.jd == idx.jd
    ensures r.Ok? ==> r.value.0.cv.entries == idx.cv.entries + ChunkEntries("cv", candidateId, chunks, metadata)
    ensures r.Err? ==> r.msg == if sv.embedDocuments(chunks).Fail? then sv.embedDocuments(chunks).msg else EmptyBatchMessage
  {
    var (cv, n) :- IndexChunks(sv, idx.cv, "cv", candidateId, chunks, metadata);
    Ok((idx.(cv := cv), n))
  }

  /** The documents of the entries matching `w`, in stored order
      (`collection.get(where=w)["documents"]`). */
  function DocumentsWhere(entries: seq<Entry>, w: Where): (r: seq<string>)
    ensures |r| <= |entries|
  {
    if |entries| == 0 then []
    else (if Matches(entries[0].metadata, w) then [entries[0].document] else []) + DocumentsWhere(entries[1..], w)
  }

  lemma {:induction false} DocumentsWhereAppend(a: seq<Entry>, b: seq<Entry>, w: Where)
    ensures DocumentsWhere(a + b, w) == DocumentsWhere(a, w) + DocumentsWhere(b, w)
  {
    if |a| > 0 {
      assert (a + b)[1..] == a[1..] + b;
      DocumentsWhereAppend(a[1..], b, w);
    } else {
      assert a + b == b;
    }
  }

  lemma {:induction false} DocumentsWhereAll(entries: seq<Entry>, w: Where)
    requires forall i :: 0 <= i < |entries| ==> Matches(entries[i].metadata, w)
    ensures DocumentsWhere(entries, w) == seq(|entries|, i requires 0 <= i < |entries| => entries[i].document)
  {
    if |entries| > 0 {
      DocumentsWhereAll(entries[1..], w);
    }
  }

  function CandidateFilter(candidateId: nat): Where {
    Equals("candidate_id", IntValue(candidateId))
  }

  /** `get_cv_context`: every stored chunk of the candidate, joined by blank
      lines; empty when there is none. */
  function GetCvContext(idx: Index, candidateId: nat): (r: string)
    ensures DocumentsWhere(idx.cv.entries, CandidateFilter(candidateId)) == [] ==> r == ""
  {
    var docs := DocumentsWhere(idx.cv.entries, CandidateFilter(candidateId));
    if docs != [] then Join(docs, "\n\n") else ""
  }

  /** Indexing a candidate's chunks and reading the context back yields the
      chunks joined by blank lines, provided nothing was stored for that
      candidate before and the metadata names the candidate. */
  lemma {:induction false} IndexThenContext(sv: Services, idx: Index, candidateId: nat, chunks: seq<string>, metadata: Metadata)
    requires IndexCv(sv, idx, candidateId, chunks, metadata).Ok?
    requires DocumentsWhere(idx.cv.entries, CandidateFilter(candidateId)) == []
    requires "candidate_id" in metadata && metadata["candidate_id"] == IntValue(candidateId)
    ensures GetCvContext(IndexCv(sv, idx, candidateId, chunks, metadata).value.0, candidateId) == Join(chunks, "\n\n")
  {
    var added := ChunkEntries("cv", candidateId, chunks, metadata);
    var w := CandidateFilter(candidateId);
    forall i | 0 <= i < |added|
      ensures Matches(added[i].metadata, w) && added[i].document == chunks[i]
    {
      assert added[i].metadata == metadata["chunk_id" := IntValue(i)];
    }
    DocumentsWhereAppend(idx.cv.entries, added, w);
    DocumentsWhereAll(added, w);
    assert DocumentsWhere(added, w) == chunks;
    var after := IndexCv(sv, idx, candidateId, chunks, metadata).value.0;
    assert after.cv.entries == idx.cv.entries + added;
    assert DocumentsWhere(after.cv.entries, w) == chunks;
  }

  /** `_format_results`: one hit per document of the first result row, with
      `{}` for absent metadata and `None` for absent distances.  Indexing a
      present but too-short metadata or distance row raises. */
  function FormatResults(raw: RawQuery): (r: Result<seq<Hit>>)
    ensures (raw.documents.None? || |raw.documents.value| == 0) ==> r == Ok([])
    ensures r.Ok? && raw.documents.Some? && |raw.documents.value| > 0 ==>
      var docs := raw.documents.value[0];
      && |r.value| == |docs|
      && (forall i :: 0 <= i < |docs| ==> r.value[i].document == docs[i])
      && (forall i :: 0 <= i < |docs| ==>
            r.value[i].metadata == if raw.metadatas.Some? && |raw.metadatas.value| > 0 && i < |raw.metadatas.value[0]|
                                   then raw.metadatas.value[0][i] else map[])
      && (forall i :: 0 <= i < |docs| ==>
            r.value[i].distance == if raw.distances.Some? && |raw.distances.value| > 0 && i < |raw.distances.value[0]|
                                   then Some(raw.distances.value[0][i]) else None)
    ensures r.Err? <==>
      (&& raw.documents.Some? && |raw.documents.value| > 0
       && ((raw.metadatas.Some? && |raw.metadatas.value| > 0 && |raw.metadatas.value[0]| < |raw.documents.value[0]|) ||
           (raw.distances.Some? && |raw.distances.value| > 0 && |raw.distances.value[0]| < |raw.documents.value[0]|)))
  {
    if raw.documents.None? || |raw.documents.value| == 0 then Ok([])
    else
      var docs := raw.documents.value[0];
      var metasPresent := raw.metadatas.Some? && |raw.metadatas.value| > 0;
      var distsPresent := raw.distances.Some? && |raw.distances.value| > 0;
      if metasPresent && |raw.metadatas.value[0]| < |docs| then Err("list index out of range")
      else if distsPresent && |raw.distances.value[0]| < |docs| then Err("list index out of range")
      else
        Ok(seq(|docs|, i requires 0 <= i < |docs| =>
          Hit(docs[i],
              if metasPresent then raw.metadatas.value[0][i] else map[],
              if distsPresent then Some(raw.distances.value[0][i]) else None)))
  }

  /** `search_similar_jd_chunks`: restricted to the job's chunks. */
  function SearchSimilarJdChunks(sv: Services, idx: Index, query: string, jobId: nat, n: nat): (r: Result<seq<Hit>>)
    ensures sv.embedQuery(query).Fail? ==> r == Err(sv.embedQuery(query).msg)
    ensures r.Ok? ==> sv.query(idx.jd, query, Some(Equals("job_id", IntValue(jobId))), n).Ok?
    ensures var q := sv.query(idx.jd, query, Some(Equals("job_id", IntValue(jobId))), n);
      sv.embedQuery(query).Pass? ==> r == (if q.Ok? then FormatResults(q.value) else Err(q.msg))
  {
    if sv.embedQuery(query).Fail? then Err(sv.embedQuery(query).msg)
    else
      var raw :- sv.query(idx.jd, query, Some(Equals("job_id", IntValue(jobId))), n);
      FormatResults(raw)
  }

  /** The filter of `search_similar_cv_chunks`: `$in` over the ids when the
      list is given and non-empty, no filter otherwise. */
  function CvFilter(candidateIds: Option<seq<int>>): (r: Option<Where>)
    ensures r.Some? <==> candidateIds.Some? && |candidateIds.value| > 0
    ensures r.Some? ==> r.value.OneOf? && r.value.key == "candidate_id" && |r.value.values| == |candidateIds.value|
    ensures r.Some? ==> forall m: Metadata :: Matches(m, r.value) <==>
      "candidate_id" in m && m["candidate_id"].IntValue? && m["candidate_id"].i in candidateIds.value
  {
    if candidateIds.Some? && |candidateIds.value| > 0 then
      var values := seq(|candidateIds.value|, i requires 0 <= i < |candidateIds.value| => IntValue(candidateIds.value[i]));
      assert forall v :: v in values <==> v.IntValue? && v.i in candidateIds.value by {
        forall v ensures v in values <==> v.IntValue? && v.i in candidateIds.value {
          if v.IntValue? && v.i in candidateIds.value {
            var k :| 0 <= k < |candidateIds.value| && candidateIds.value[k] == v.i;
            assert values[k] == v;
          }
        }
      }
      Some(OneOf("candidate_id", values))
    else None
  }

  /** `search_similar_cv_chunks`. */
  function SearchSimilarCvChunks(sv: Services, idx: Index, query: string, candidateIds: Option<seq<int>>, n: nat)
    : (r: Result<seq<Hit>>)
    ensures sv.embedQuery(query).Fail? ==> r == Err(sv.embedQuery(query).msg)
    ensures r.Ok? ==> sv.query(idx.cv, query, CvFilter(candidateIds), n).Ok?
    ensures var q := sv.query(idx.cv, query, CvFilter(candidateIds), n);
      sv.embedQuery(query).Pass? ==> r == (if q.Ok? then FormatResults(q.value) else Err(q.msg))
  {
    if sv.embedQuery(query).Fail? then Err(sv.embedQuery(query).msg)
    else
      var raw :- sv.query(idx.cv, query, CvFilter(candidateIds), n);
      FormatResults(raw)
  }

  /** Removes the entries matching `w`, or nothing at all if the deletion
      raises; an error never reaches the caller. */
  function DeleteWhere(sv: Services, c: Collection, w: Where): (r: Collection)
    ensures r.name == c.name
    ensures !sv.deleteFails(c, w) ==>
      forall i :: 0 <= i < |r.entries| ==> !Matches(r.entries[i].metadata, w) && r.entries[i] in c.entries
    ensures !sv.deleteFails(c, w) ==>
      forall i :: 0 <= i < |c.entries| && !Matches(c.entries[i].metadata, w) ==> c.entries[i] in r.entries
    ensures sv.deleteFails(c, w) ==> r == c
  {
    if sv.deleteFails(c, w) then c
    else Collection(c.name, Keep(c.entries, w))
  }

  function Keep(entries: seq<Entry>, w: Where): (r: seq<Entry>)
    ensures forall i :: 0 <= i < |r| ==> !Matches(r[i].metadata, w) && r[i] in entries
    ensures forall i :: 0 <= i < |entries| && !Matches(entries[i].metadata, w) ==> entries[i] in r
  {
    if |entries| == 0 then []
    else (if Matches(entries[0].metadata, w) then [] else [entries[0]]) + Keep(entries[1..], w)
  }

  function JobFilter(jobId: nat): Where {
    Equals("job_id", IntValue(jobId))
  }

  /** `clear_job_data`: the job's chunks go, every other chunk stays; a
      failing delete is swallowed and leaves the index as it was. */
  function ClearJobData(sv: Services, idx: Index, jobId: nat): (r: Index)
    ensures r.cv == idx.cv && r.jd.name == idx.jd.name
    ensures !sv.deleteFails(idx.jd, JobFilter(jobId)) ==>
      forall i :: 0 <= i < |r.jd.entries| ==> !Matches(r.jd.entries[i].metadata, JobFilter(jobId)) && r.jd.entries[i] in idx.jd.entries
    ensures !sv.deleteFails(idx.jd, JobFilter(jobId)) ==>
      forall i :: 0 <= i < |idx.jd.entries| && !Matches(idx.jd.entries[i].metadata, JobFilter(jobId)) ==> idx.jd.entries[i] in r.jd.entries
    ensures sv.deleteFails(idx.jd, JobFilter(jobId)) ==> r == idx
  {
    idx.(jd := DeleteWhere(sv, idx.jd, JobFilter(jobId)))
  }

  /** `clear_candidate_data`: the candidate's chunks go, every other chunk
      stays; a failing delete is swallowed and leaves the index as it was. */
  function ClearCandidateData(sv: Services, idx: Index, candidateId: nat): (r: Index)
    ensures r.jd == idx.jd && r.cv.name == idx.cv.name
    ensures !sv.deleteFails(idx.cv, CandidateFilter(candidateId)) ==>
      forall i :: 0 <= i < |r.cv.entries| ==> !Matches(r.cv.entries[i].metadata, CandidateFilter(candidateId)) && r.cv.entries[i] in idx.cv.entries
    ensures !sv.deleteFails(idx.cv, CandidateFilter(candidateId)) ==>
      forall i :: 0 <= i < |idx.cv.entries| && !Matches(idx.cv.entries[i].metadata, CandidateFilter(candidateId)) ==> idx.cv.entries[i] in r.cv.entries
    ensures sv.deleteFails(idx.cv, CandidateFilter(candidateId)) ==> r == idx
  {
    idx.(cv := DeleteWhere(sv, idx.cv, CandidateFilter(candidateId)))
  }

  /** After a clear that did not fail, the job has no chunk left. */
  lemma ClearedJobHasNoChunks(sv: Services, idx: Index, jobId: nat)
    requires !sv.deleteFails(idx.jd, JobFilter(jobId))
    ensures DocumentsWhere(ClearJobData(sv, idx, jobId).jd.entries, JobFilter(jobId)) == []
  {
    NoneMatch(ClearJobData(sv, idx, jobId).jd.entries, JobFilter(jobId));
  }

  lemma {:induction false} KeepAppend(a: seq<Entry>, b: seq<Entry>, w: Where)
    ensures Keep(a + b, w) == Keep(a, w) + Keep(b, w)
  {
    if |a| > 0 {
      assert (a + b)[1..] == a[1..] + b;
      KeepAppend(a[1..], b, w);
    } else {
      assert a + b == b;
    }
  }

  lemma {:induction false} KeepUntouched(entries: seq<Entry>, w: Where)
    requires forall i :: 0 <= i < |entries| ==> !Matches(entries[i].metadata, w)
    ensures Keep(entries, w) == entries
  {
    if |entries| > 0 {
      KeepUntouched(entries[1..], w);
    }
  }

  lemma {:induction false} KeepNone(entries: seq<Entry>, w: Where)
    requires forall i :: 0 <= i < |entries| ==> Matches(entries[i].metadata, w)
    ensures Keep(entries, w) == []
  {
    if |entries| > 0 {
      KeepNone(entries[1..], w);
    }
  }

  /** Clearing a job undoes indexing its description: when the collection
      held nothing of the job before, it is back as it was. */
  lemma ClearUndoesIndexJob(sv: Services, idx: Index, jobId: nat, chunks: seq<string>, metadata: Metadata)
    requires IndexJobDescription(sv, idx, jobId, chunks, metadata).Ok?
    requires forall i :: 0 <= i < |idx.jd.entries| ==> !Matches(idx.jd.entries[i].metadata, JobFilter(jobId))
    requires "job_id" in metadata && metadata["job_id"] == IntValue(jobId)
    requires !sv.deleteFails(IndexJobDescription(sv, idx, jobId, chunks, metadata).value.0.jd, JobFilter(jobId))
    ensures ClearJobData(sv, IndexJobDescription(sv, idx, jobId, chunks, metadata).value.0, jobId) == idx
  {
    var added := ChunkEntries("jd", jobId, chunks, metadata);
    var w := JobFilter(jobId);
    forall i | 0 <= i < |added| ensures Matches(added[i].metadata, w) {
      assert added[i].metadata == metadata["chunk_id" := IntValue(i)];
    }
    KeepAppend(idx.jd.entries, added, w);
    KeepUntouched(idx.jd.entries, w);
    KeepNone(added, w);
    assert idx.jd.entries + [] == idx.jd.entries;
  }

  /** After a clear that did not fail, the candidate has no context left. */
  lemma {:induction false} ClearedCandidateHasNoContext(sv: Services, idx: Index, candidateId: nat)
    requires !sv.deleteFails(idx.cv, CandidateFilter(candidateId))
    ensures GetCvContext(ClearCandidateData(sv, idx, candidateId), candidateId) == ""
  {
    var rest := ClearCandidateData(sv, idx, candidateId).cv.entries;
    NoneMatch(rest, CandidateFilter(candidateId));
  }

  lemma {:induction false} NoneMatch(entries: seq<Entry>, w: Where)
    requires forall i :: 0 <= i < |entries| ==> !Matches(entries[i].metadata, w)
    ensures DocumentsWhere(entries, w) == []
  {
    if |entries| > 0 {
      NoneMatch(entries[1..], w);
    }
  }
}
