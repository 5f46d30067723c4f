/**
 The vector index against the chunk table (backend/app/indexing.py, documents.py, vectors.py):
 workers select a document's unflagged chunks, write their points to the vector store, and only
 then flag them. Any worker may fail at any point, and several may index one document at once.
 */
module Indexing {
  const PREVIEW_CHARS := 400

  datatype Vector = Vector(values: seq<real>)
  datatype Sha = Sha(hex: string)

  /** `Empty` means no text was extracted; `Extracted` that embedding is still owed. */
  datatype DocStatus = Empty | Extracted | Embedded

  datatype Document = Document(filename: string, version: nat, sha: Sha, status: DocStatus)

  datatype Chunk = Chunk(doc: nat, ordinal: nat, text: string, embedded: bool)

  datatype Point = Point(vector: Vector, doc: nat, ordinal: nat, filename: string, sha: Sha, preview: string)

  type Docs = map<nat, Document>
  type Chunks = map<nat, Chunk>
  type Points = map<nat, Point>

  /** The embedder, deterministic in the text. */
  type Embedder = string -> Vector

  function Preview(text: string): string {
    if |text| <= PREVIEW_CHARS then text else text[..PREVIEW_CHARS]
  }

  /** A chunk's own point: its embedding, and enough to trace it back to its document. */
  function PointFor(embed: Embedder, d: Document, c: Chunk): Point {
    Point(embed(c.text), c.doc, c.ordinal, d.filename, d.sha, Preview(c.text))
  }

  predicate Pending(chunks: Chunks, doc: nat, id: nat) {
    id in chunks && chunks[id].doc == doc && !chunks[id].embedded
  }

  function PendingOf(chunks: Chunks, doc: nat): set<nat> { set id | id in chunks && Pending(chunks, doc, id) }

  // ------------------------------------------------------------ steps

  /** A worker between reading its chunks and flagging them. */
  datatype Stage = Selected(doc: nat, ids: set<nat>) | Upserted(doc: nat, ids: set<nat>)

  datatype State = State(docs: Docs, chunks: Chunks, points: Points, workers: map<nat, Stage>)

  datatype Step =
    | Upload(doc: nat, filename: string, sha: Sha, texts: seq<string>, firstChunk: nat)
    | Select(worker: nat, doc: nat)
    // Part of an upsert takes effect, whether or not the call later succeeds.
    | PartialUpsert(worker: nat, some: set<nat>)
    | ConfirmUpsert(worker: nat)
    | Commit(worker: nat)
    | Fail(worker: nat)

  predicate ShaTaken(docs: Docs, sha: Sha) { exists d :: d in docs && docs[d].sha == sha }

  function NewChunks(doc: nat, texts: seq<string>, first: nat): (r: Chunks)
    ensures forall id :: id in r <==> first <= id < first + |texts|
    ensures forall id :: id in r ==> r[id] == Chunk(doc, id - first, texts[id - first], false)
  {
    if texts == [] then map[]
    else
      var n := |texts| - 1;
      NewChunks(doc, texts[..n], first)[first + n := Chunk(doc, n, texts[n], false)]
  }

  /** The versions stored under a file name. */
  function Versions(docs: Docs, filename: string): set<nat> {
    set d | d in docs && docs[d].filename == filename :: docs[d].version
  }

  ghost function Highest(vs: set<nat>): nat {
    if vs == {} then 0
    else
      var v :| v in vs;
      var rest := Highest(vs - {v});
      if v > rest then v else rest
  }

  lemma {:induction false} HighestIs(vs: set<nat>)
    ensures (vs == {} && Highest(vs) == 0) || Highest(vs) in vs
    ensures forall v :: v in vs ==> v <= Highest(vs)
    decreases |vs|
  {
    if vs != {} {
      var v :| v in vs && Highest(vs) == (var rest := Highest(vs - {v}); if v > rest then v else rest);
      HighestIs(vs - {v});
      assert vs == (vs - {v}) + {v};
    }
  }

  ghost function NextVersion(docs: Docs, filename: string): nat { Highest(Versions(docs, filename)) + 1 }

  ghost function NewDocument(docs: Docs, filename: string, sha: Sha, texts: seq<string>): Document {
    Document(filename, NextVersion(docs, filename), sha, if texts == [] then Empty else Extracted)
  }

  /** Identical content is not stored twice; ids come from fresh sequence values. */
  ghost function TakeUpload(s: State, doc: nat, filename: string, sha: Sha, texts: seq<string>, first: nat): State {
    if ShaTaken(s.docs, sha) || doc in s.docs || (exists id :: first <= id < first + |texts| && id in s.chunks) then s
    else s.(docs := s.docs[doc := NewDocument(s.docs, filename, sha, texts)],
            chunks := s.chunks + NewChunks(doc, texts, first))
  }

  function TakeSelect(s: State, w: nat, doc: nat): State {
    var ids := PendingOf(s.chunks, doc);
    if w in s.workers || doc !in s.docs || ids == {} then s
    else s.(workers := s.workers[w := Selected(doc, ids)])
  }

  /** The points of the chunks `ids` of document `doc`. */
  function Written(embed: Embedder, docs: Docs, chunks: Chunks, doc: nat, ids: set<nat>): Points
    requires doc in docs
  {
    map id | id in ids && id in chunks :: PointFor(embed, docs[doc], chunks[id])
  }

  function TakePartial(embed: Embedder, s: State, w: nat, some: set<nat>): State {
    if w in s.workers && s.workers[w].Selected? && s.workers[w].doc in s.docs then
      s.(points := s.points + Written(embed, s.docs, s.chunks, s.workers[w].doc, s.workers[w].ids * some))
    else s
  }

  function TakeConfirm(embed: Embedder, s: State, w: nat): State {
    if w in s.workers && s.workers[w].Selected? && s.workers[w].doc in s.docs then
      var Selected(doc, ids) := s.workers[w];
      s.(points := s.points + Written(embed, s.docs, s.chunks, doc, ids), workers := s.workers[w := Upserted(doc, ids)])
    else s
  }

  function Flag(chunks: Chunks, ids: set<nat>): Chunks {
    map id | id in chunks :: if id in ids then chunks[id].(embedded := true) else chunks[id]
  }

  function TakeCommit(s: State, w: nat): State {
    if w in s.workers && s.workers[w].Upserted? && s.workers[w].doc in s.docs then
      var Upserted(doc, ids) := s.workers[w];
      State(s.docs[doc := s.docs[doc].(status := Embedded)], Flag(s.chunks, ids), s.points, s.workers - {w})
    else s
  }

  ghost function Take(embed: Embedder, s: State, step: Step): State {
    match step
    case Upload(doc, filename, sha, texts, first) => TakeUpload(s, doc, filename, sha, texts, first)
    case Select(w, doc) => TakeSelect(s, w, doc)
    case PartialUpsert(w, some) => TakePartial(embed, s, w, some)
    case ConfirmUpsert(w) => TakeConfirm(embed, s, w)
    case Commit(w) => TakeCommit(s, w)
    case Fail(w) => s.(workers := s.workers - {w})
  }

  ghost function Run(embed: Embedder, s: State, steps: seq<Step>): State {
    if steps == [] then s else Take(embed, Run(embed, s, steps[..|steps| - 1]), steps[|steps| - 1])
  }

  // ------------------------------------------------------------ what every run keeps

  /** Every stored point belongs to a chunk and is that chunk's own. */
  ghost predicate PointsOk(embed: Embedder, docs: Docs, chunks: Chunks, points: Points) {
    forall id :: id in points ==>
      id in chunks && chunks[id].doc in docs && Shows(points[id], embed, docs[chunks[id].doc], chunks[id])
  }

  /** The point carries the embedding of the chunk's whole text, and says where that text is. */
  ghost predicate Shows(p: Point, embed: Embedder, d: Document, c: Chunk) {
    && p.vector == embed(c.text)
    && p.doc == c.doc && p.ordinal == c.ordinal
    && p.filename == d.filename && p.sha == d.sha
    && p.preview <= c.text && |p.preview| == (if |c.text| < 400 then |c.text| else 400)
  }

  lemma PointShows(embed: Embedder, d: Document, c: Chunk)
    ensures Shows(PointFor(embed, d, c), embed, d, c)
  {
  }

  /** Marking a chunk or a document embedded leaves its points right. */
  lemma StillShows(p: Point, embed: Embedder, d: Document, c: Chunk, status: DocStatus, embedded: bool)
    ensures Shows(p, embed, d.(status := status), c.(embedded := embedded)) <==> Shows(p, embed, d, c)
  {
  }

  /** A flagged chunk has its point. */
  ghost predicate FlagsOk(chunks: Chunks, points: Points) {
    forall id :: id in chunks && chunks[id].embedded ==> id in points
  }

  ghost predicate HasChunks(chunks: Chunks, doc: nat) { exists id :: id in chunks && chunks[id].doc == doc }

  ghost predicate AllFlagged(chunks: Chunks, doc: nat) {
    forall id :: id in chunks && chunks[id].doc == doc ==> chunks[id].embedded
  }

  /** A document's status says whether it has chunks, and whether all of them are flagged. */
  ghost predicate StatusOk(d: Document, doc: nat, chunks: Chunks) {
    && (d.status == Empty <==> !HasChunks(chunks, doc))
    && (d.status == Embedded <==> HasChunks(chunks, doc) && AllFlagged(chunks, doc))
  }

  ghost predicate TablesOk(docs: Docs, chunks: Chunks) {
    && (forall id :: id in chunks ==> chunks[id].doc in docs)
    && (forall doc :: doc in docs ==> StatusOk(docs[doc], doc, chunks))
    && DistinctShas(docs)
  }

  /** No content is stored twice. */
  ghost predicate DistinctShas(docs: Docs) {
    forall c, d :: c in docs && d in docs && c != d ==> docs[c].sha != docs[d].sha
  }

  /** The worker's chunks are of its document, and every other chunk of it is flagged already. */
  ghost predicate StageOk(stage: Stage, docs: Docs, chunks: Chunks, points: Points) {
    && stage.doc in docs && stage.ids != {}
    && (forall id :: id in stage.ids ==> id in chunks && chunks[id].doc == stage.doc)
    && (forall id :: id in chunks && chunks[id].doc == stage.doc && id !in stage.ids ==> chunks[id].embedded)
    && (stage.Upserted? ==> forall id :: id in stage.ids ==> id in points)
  }

  ghost predicate WorkersOk(s: State) {
    forall w :: w in s.workers ==> StageOk(s.workers[w], s.docs, s.chunks, s.points)
  }

  ghost predicate Inv(embed: Embedder, s: State) {
    && TablesOk(s.docs, s.chunks)
    && PointsOk(embed, s.docs, s.chunks, s.points)
    && FlagsOk(s.chunks, s.points)
    && WorkersOk(s)
  }

  const NOTHING := State(map[], map[], map[], map[])

  lemma NothingIsOk(embed: Embedder)
    ensures Inv(embed, NOTHING)
  {
  }

  lemma UploadKeeps(embed: Embedder, s: State, doc: nat, filename: string, sha: Sha, texts: seq<string>, first: nat)
    requires Inv(embed, s)
    ensures Inv(embed, TakeUpload(s, doc, filename, sha, texts, first))
  {
    var s' := TakeUpload(s, doc, filename, sha, texts, first);
    if s' != s {
      UploadTables(s, doc, filename, sha, texts, first);
      var d := NewDocument(s.docs, filename, sha, texts);
      var added := NewChunks(doc, texts, first);
      assert forall id :: id in added ==> id !in s.chunks;
      MoreDocuments(embed, s, doc, d, added);
      hide TablesOk, PointsOk, FlagsOk, WorkersOk;
    }
  }

  /** A new document with new, unflagged chunks disturbs no point, flag or worker. */
  lemma MoreDocuments(embed: Embedder, s: State, doc: nat, d: Document, added: Chunks)
    requires PointsOk(embed, s.docs, s.chunks, s.points) && FlagsOk(s.chunks, s.points) && WorkersOk(s)
    requires doc !in s.docs && forall id :: id in added ==> id !in s.chunks && added[id].doc == doc && !added[id].embedded
    ensures var s' := s.(docs := s.docs[doc := d], chunks := s.chunks + added);
            PointsOk(embed, s'.docs, s'.chunks, s'.points) && FlagsOk(s'.chunks, s'.points) && WorkersOk(s')
  {
    var s' := s.(docs := s.docs[doc := d], chunks := s.chunks + added);
    MorePoints(embed, s, doc, d, added);
    hide PointsOk, FlagsOk;
    forall w | w in s.workers
      ensures StageOk(s.workers[w], s'.docs, s'.chunks, s'.points)
    {
      assert StageOk(s.workers[w], s.docs, s.chunks, s.points);
    }
  }

  lemma MorePoints(embed: Embedder, s: State, doc: nat, d: Document, added: Chunks)
    requires PointsOk(embed, s.docs, s.chunks, s.points) && FlagsOk(s.chunks, s.points)
    requires doc !in s.docs && forall id :: id in added ==> id !in s.chunks && !added[id].embedded
    ensures PointsOk(embed, s.docs[doc := d], s.chunks + added, s.points) && FlagsOk(s.chunks + added, s.points)
  {
    hide Shows;
    assert forall id :: id in s.chunks ==> (s.chunks + added)[id] == s.chunks[id];
  }

  lemma UploadTables(s: State, doc: nat, filename: string, sha: Sha, texts: seq<string>, first: nat)
    requires TablesOk(s.docs, s.chunks)
    ensures var s' := TakeUpload(s, doc, filename, sha, texts, first); TablesOk(s'.docs, s'.chunks)
  {
    var s' := TakeUpload(s, doc, filename, sha, texts, first);
    if s' != s {
      forall d | d in s'.docs
        ensures StatusOk(s'.docs[d], d, s'.chunks)
      {
        if d == doc {
          if texts != [] {
            assert first in s'.chunks && s'.chunks[first].doc == doc && !s'.chunks[first].embedded;
          }
        } else {
          OtherDocStatus(s.docs[d], d, s.chunks, s'.chunks);
        }
      }
    }
  }

  /** A document's status depends only on its own chunks. */
  lemma OtherDocStatus(d: Document, doc: nat, before: Chunks, after: Chunks)
    requires StatusOk(d, doc, before)
    requires forall id :: id in before && before[id].doc == doc ==> id in after && after[id] == before[id]
    requires forall id :: id in after && after[id].doc == doc ==> id in before && before[id] == after[id]
    ensures StatusOk(d, doc, after)
  {
    if HasChunks(before, doc) {
      var id :| id in before && before[id].doc == doc;
      assert id in after;
    }
    if HasChunks(after, doc) {
      var id :| id in after && after[id].doc == doc;
      assert id in before;
    }
    assert AllFlagged(before, doc) <==> AllFlagged(after, doc);
  }

  /** What an upload stores, row by row; nothing else changes. */
  ghost predicate IsStored(before: State, after: State, doc: nat, filename: string, sha: Sha, texts: seq<string>, first: nat) {
    && after.points == before.points && after.workers == before.workers
    && after.docs.Keys == before.docs.Keys + {doc} && (forall d :: d in before.docs ==> after.docs[d] == before.docs[d])
    && after.docs[doc].filename == filename && after.docs[doc].sha == sha
    && after.docs[doc].status == (if texts == [] then Empty else Extracted)
    && IsNext(before.docs, filename, after.docs[doc].version)
    && (forall id :: id in after.chunks <==> id in before.chunks || first <= id < first + |texts|)
    && (forall id :: id in before.chunks ==> after.chunks[id] == before.chunks[id])
    && forall k :: 0 <= k < |texts| ==> IsChunk(after.chunks, first + k, doc, k, texts[k])
  }

  ghost predicate IsChunk(chunks: Chunks, id: nat, doc: nat, ordinal: nat, text: string) {
    id in chunks && chunks[id].doc == doc && chunks[id].ordinal == ordinal && chunks[id].text == text && !chunks[id].embedded
  }

  /** One past the versions stored under the name, or the first. */
  ghost predicate IsNext(docs: Docs, filename: string, version: nat) {
    && (forall d :: d in docs && docs[d].filename == filename ==> docs[d].version < version)
    && (version == 1 || exists d :: d in docs && docs[d].filename == filename && docs[d].version + 1 == version)
  }

  lemma NextIs(docs: Docs, filename: string)
    ensures IsNext(docs, filename, NextVersion(docs, filename))
  {
    var vs := Versions(docs, filename);
    HighestIs(vs);
    hide Highest;
    forall d | d in docs && docs[d].filename == filename
      ensures docs[d].version < NextVersion(docs, filename)
    {
      assert docs[d].version in vs;
    }
  }

  /** A new content under fresh ids is stored as it is. */
  lemma UploadStores(s: State, doc: nat, filename: string, sha: Sha, texts: seq<string>, first: nat)
    requires !ShaTaken(s.docs, sha) && doc !in s.docs && forall id :: first <= id ==> id !in s.chunks
    ensures IsStored(s, TakeUpload(s, doc, filename, sha, texts, first), doc, filename, sha, texts, first)
  {
    NextIs(s.docs, filename);
    hide NextVersion, IsNext;
    var added := NewChunks(doc, texts, first);
    forall k | 0 <= k < |texts|
      ensures IsChunk(s.chunks + added, first + k, doc, k, texts[k])
    {
      assert first + k in added;
    }
  }

  lemma SelectKeeps(embed: Embedder, s: State, w: nat, doc: nat)
    requires Inv(embed, s)
    ensures Inv(embed, TakeSelect(s, w, doc))
  {
    hide TablesOk, PointsOk, FlagsOk;
    var ids := PendingOf(s.chunks, doc);
    if doc in s.docs && ids != {} {
      assert StageOk(Selected(doc, ids), s.docs, s.chunks, s.points);
    }
  }

  lemma WriteKeeps(embed: Embedder, s: State, stage: Stage, ids: set<nat>)
    requires PointsOk(embed, s.docs, s.chunks, s.points) && FlagsOk(s.chunks, s.points) && WorkersOk(s)
    requires StageOk(stage, s.docs, s.chunks, s.points) && ids <= stage.ids
    ensures var points := s.points + Written(embed, s.docs, s.chunks, stage.doc, ids);
            && PointsOk(embed, s.docs, s.chunks, points) && FlagsOk(s.chunks, points)
            && WorkersOk(s.(points := points))
            && forall id :: id in ids ==> id in points
  {
    var points := s.points + Written(embed, s.docs, s.chunks, stage.doc, ids);
    forall id | id in ids
      ensures Shows(points[id], embed, s.docs[stage.doc], s.chunks[id])
    {
      PointShows(embed, s.docs[stage.doc], s.chunks[id]);
    }
    hide PointFor, Shows;
    forall w | w in s.workers
      ensures StageOk(s.workers[w], s.docs, s.chunks, points)
    {
      assert StageOk(s.workers[w], s.docs, s.chunks, s.points);
    }
  }

  lemma UpsertKeeps(embed: Embedder, s: State, w: nat, some: set<nat>)
    requires Inv(embed, s)
    ensures Inv(embed, TakePartial(embed, s, w, some)) && Inv(embed, TakeConfirm(embed, s, w))
  {
    if w in s.workers && s.workers[w].Selected? {
      var stage := s.workers[w];
      assert StageOk(stage, s.docs, s.chunks, s.points);
      WriteKeeps(embed, s, stage, stage.ids * some);
      WriteKeeps(embed, s, stage, stage.ids);
      hide TablesOk, PointsOk, FlagsOk, Written;
    }
  }

  lemma CommitKeeps(embed: Embedder, s: State, w: nat)
    requires Inv(embed, s)
    ensures Inv(embed, TakeCommit(s, w))
  {
    if w in s.workers && s.workers[w].Upserted? {
      var stage := s.workers[w];
      assert StageOk(stage, s.docs, s.chunks, s.points);
      CommitTables(s.docs, s.chunks, s.points, stage);
      CommitPoints(embed, s.docs, s.chunks, s.points, stage);
      CommitWorkers(s, w, stage);
      hide TablesOk, PointsOk, FlagsOk, StageOk, WorkersOk;
    }
  }

  lemma CommitWorkers(s: State, w: nat, stage: Stage)
    requires WorkersOk(s) && stage.doc in s.docs
    ensures WorkersOk(State(s.docs[stage.doc := s.docs[stage.doc].(status := Embedded)], Flag(s.chunks, stage.ids), s.points, s.workers - {w}))
  {
    forall v | v in s.workers && v != w
      ensures StageOk(s.workers[v], s.docs[stage.doc := s.docs[stage.doc].(status := Embedded)], Flag(s.chunks, stage.ids), s.points)
    {
      assert StageOk(s.workers[v], s.docs, s.chunks, s.points);
    }
  }

  lemma CommitTables(docs: Docs, chunks: Chunks, points: Points, stage: Stage)
    requires TablesOk(docs, chunks) && StageOk(stage, docs, chunks, points)
    ensures TablesOk(docs[stage.doc := docs[stage.doc].(status := Embedded)], Flag(chunks, stage.ids))
  {
    var docs', chunks' := docs[stage.doc := docs[stage.doc].(status := Embedded)], Flag(chunks, stage.ids);
    DocFlagged(docs, chunks, points, stage);
    SameShas(docs, stage.doc, Embedded);
    hide DistinctShas;
    forall d | d in docs && d != stage.doc
      ensures StatusOk(docs[d], d, chunks')
    {
      OtherDocStatus(docs[d], d, chunks, chunks');
    }
  }

  lemma SameShas(docs: Docs, doc: nat, status: DocStatus)
    requires DistinctShas(docs) && doc in docs
    ensures DistinctShas(docs[doc := docs[doc].(status := status)])
  {
  }

  lemma DocFlagged(docs: Docs, chunks: Chunks, points: Points, stage: Stage)
    requires StageOk(stage, docs, chunks, points)
    ensures StatusOk(docs[stage.doc].(status := Embedded), stage.doc, Flag(chunks, stage.ids))
  {
    var id :| id in stage.ids;
    assert id in Flag(chunks, stage.ids);
  }

  lemma CommitPoints(embed: Embedder, docs: Docs, chunks: Chunks, points: Points, stage: Stage)
    requires PointsOk(embed, docs, chunks, points) && FlagsOk(chunks, points) && StageOk(stage, docs, chunks, points) && stage.Upserted?
    ensures PointsOk(embed, docs[stage.doc := docs[stage.doc].(status := Embedded)], Flag(chunks, stage.ids), points)
    ensures FlagsOk(Flag(chunks, stage.ids), points)
  {
    hide Shows;
    var docs', chunks' := docs[stage.doc := docs[stage.doc].(status := Embedded)], Flag(chunks, stage.ids);
    forall id | id in points
      ensures Shows(points[id], embed, docs'[chunks'[id].doc], chunks'[id])
    {
      var d, c := docs[chunks[id].doc], chunks[id];
      StillShows(points[id], embed, d, c, docs'[c.doc].status, chunks'[id].embedded);
      assert docs'[c.doc] == d.(status := docs'[c.doc].status) && chunks'[id] == c.(embedded := chunks'[id].embedded);
    }
  }

  lemma StepKeeps(embed: Embedder, s: State, step: Step)
    requires Inv(embed, s)
    ensures Inv(embed, Take(embed, s, step))
  {
    hide Inv, TakeUpload, TakeSelect, TakePartial, TakeConfirm, TakeCommit;
    match step
    case Upload(doc, filename, sha, texts, first) => UploadKeeps(embed, s, doc, filename, sha, texts, first);
    case Select(w, doc) => SelectKeeps(embed, s, w, doc);
    case PartialUpsert(w, some) => UpsertKeeps(embed, s, w, some);
    case ConfirmUpsert(w) => UpsertKeeps(embed, s, w, {});
    case Commit(w) => CommitKeeps(embed, s, w);
    case Fail(w) => FailKeeps(embed, s, w);
  }

  lemma FailKeeps(embed: Embedder, s: State, w: nat)
    requires Inv(embed, s)
    ensures Inv(embed, s.(workers := s.workers - {w}))
  {
    hide TablesOk, PointsOk, FlagsOk, StageOk;
  }

  /** In every run, with failures anywhere and workers interleaved: every point is its chunk's own,
      every flagged chunk has one, and a document is `embedded` exactly when it has chunks and all
      of them are flagged. */
  lemma {:induction false} IndexAgreesWithFlags(embed: Embedder, steps: seq<Step>)
    ensures Inv(embed, Run(embed, NOTHING, steps))
  {
    hide Inv, Take;
    if steps == [] {
      NothingIsOk(embed);
    } else {
      IndexAgreesWithFlags(embed, steps[..|steps| - 1]);
      StepKeeps(embed, Run(embed, NOTHING, steps[..|steps| - 1]), steps[|steps| - 1]);
    }
  }

  // ------------------------------------------------------------ flags only advance

  /** Nothing stored is lost; a chunk changes only by being flagged, a document only in its status. */
  ghost predicate Advances(s: State, later: State) {
    && (forall id :: id in s.chunks ==> id in later.chunks && ChunkAdvances(s.chunks[id], later.chunks[id]))
    && (forall d :: d in s.docs ==> d in later.docs && later.docs[d].(status := s.docs[d].status) == s.docs[d])
    && (forall id :: id in s.points ==> id in later.points)
  }

  ghost predicate ChunkAdvances(before: Chunk, after: Chunk) {
    after.(embedded := before.embedded) == before && (before.embedded ==> after.embedded)
  }

  lemma StepAdvances(embed: Embedder, s: State, step: Step)
    ensures Advances(s, Take(embed, s, step))
  {
    hide PointFor, ShaTaken, PendingOf;
    forall id | id in s.chunks
      ensures s.chunks[id].(embedded := s.chunks[id].embedded) == s.chunks[id]
    {
    }
  }

  lemma AdvancesChain(a: State, b: State, c: State)
    requires Advances(a, b) && Advances(b, c)
    ensures Advances(a, c)
  {
    forall id | id in a.chunks
      ensures id in c.chunks && ChunkAdvances(a.chunks[id], c.chunks[id])
    {
      assert ChunkAdvances(a.chunks[id], b.chunks[id]) && ChunkAdvances(b.chunks[id], c.chunks[id]);
    }
  }

  lemma {:induction false} RunAdvances(embed: Embedder, s: State, steps: seq<Step>)
    ensures Advances(s, Run(embed, s, steps))
  {
    hide Take, Advances;
    if steps == [] {
      StaysSelf(s);
    } else {
      var init := steps[..|steps| - 1];
      RunAdvances(embed, s, init);
      StepAdvances(embed, Run(embed, s, init), steps[|steps| - 1]);
      AdvancesChain(s, Run(embed, s, init), Run(embed, s, steps));
    }
  }

  lemma StaysSelf(s: State)
    ensures Advances(s, s)
  {
    forall id | id in s.chunks
      ensures ChunkAdvances(s.chunks[id], s.chunks[id])
    {
    }
  }

  // ------------------------------------------------------------ versions

  /** The versions of each file name are 1, 2, 3 and so on, each once. */
  ghost predicate VersionsOk(docs: Docs) {
    && (forall c, d :: c in docs && d in docs && c != d ==> Distinguished(docs[c], docs[d]))
    && forall d :: d in docs ==> docs[d].version >= 1 && NoGaps(docs, docs[d])
  }

  ghost predicate Distinguished(c: Document, d: Document) { c.filename == d.filename ==> c.version != d.version }

  ghost predicate NoGaps(docs: Docs, d: Document) {
    forall v :: 1 <= v < d.version ==> v in Versions(docs, d.filename)
  }

  lemma UploadVersions(docs: Docs, doc: nat, filename: string, sha: Sha, texts: seq<string>)
    requires VersionsOk(docs) && doc !in docs
    ensures VersionsOk(docs[doc := NewDocument(docs, filename, sha, texts)])
  {
    var d := NewDocument(docs, filename, sha, texts);
    var after := docs[doc := d];
    var vs := Versions(docs, filename);
    HighestIs(vs);
    hide Highest;
    forall c | c in docs
      ensures Distinguished(docs[c], d) && Distinguished(d, docs[c])
    {
      assert docs[c].filename == filename ==> docs[c].version in vs;
    }
    MoreVersions(docs, doc, d);
    forall c | c in docs
      ensures NoGaps(after, docs[c])
    {
      assert NoGaps(docs, docs[c]);
      hide Versions;
      forall v | 1 <= v < docs[c].version
        ensures v in Versions(after, docs[c].filename)
      {
        assert v in Versions(docs, docs[c].filename);
      }
    }
    forall v | 1 <= v < d.version
      ensures v in Versions(after, filename)
    {
      var top :| top in docs && docs[top].filename == filename && docs[top].version == Highest(vs);
      assert NoGaps(docs, docs[top]);
    }
  }

  lemma MoreVersions(docs: Docs, doc: nat, d: Document)
    requires doc !in docs
    ensures forall filename, v :: v in Versions(docs, filename) ==> v in Versions(docs[doc := d], filename)
  {
    var after := docs[doc := d];
    forall filename, v | v in Versions(docs, filename)
      ensures v in Versions(after, filename)
    {
      var c :| c in docs && docs[c].filename == filename && docs[c].version == v;
      assert c in after && after[c] == docs[c];
    }
  }

  lemma CommitVersions(docs: Docs, doc: nat)
    requires VersionsOk(docs) && doc in docs
    ensures VersionsOk(docs[doc := docs[doc].(status := Embedded)])
  {
    var after := docs[doc := docs[doc].(status := Embedded)];
    forall filename
      ensures Versions(after, filename) == Versions(docs, filename)
    {
      SameVersions(docs, doc, filename);
    }
    hide Versions;
    forall c, d | c in after && d in after && c != d
      ensures Distinguished(after[c], after[d])
    {
      assert Distinguished(docs[c], docs[d]);
    }
    forall d | d in after
      ensures after[d].version >= 1 && NoGaps(after, after[d])
    {
      assert NoGaps(docs, docs[d]);
    }
  }

  lemma SameVersions(docs: Docs, doc: nat, filename: string)
    requires doc in docs
    ensures Versions(docs[doc := docs[doc].(status := Embedded)], filename) == Versions(docs, filename)
  {
    var after := docs[doc := docs[doc].(status := Embedded)];
    forall v
      ensures v in Versions(after, filename) <==> v in Versions(docs, filename)
    {
      if v in Versions(docs, filename) {
        var c :| c in docs && docs[c].filename == filename && docs[c].version == v;
        assert c in after;
      }
    }
  }

  /** In every run, the documents uploaded under one name are numbered 1, 2, 3 and so on. */
  lemma {:induction false} VersionsCount(embed: Embedder, steps: seq<Step>)
    ensures VersionsOk(Run(embed, NOTHING, steps).docs)
  {
    if steps != [] {
      VersionsCount(embed, steps[..|steps| - 1]);
      StepVersions(embed, Run(embed, NOTHING, steps[..|steps| - 1]), steps[|steps| - 1]);
      hide VersionsOk, Take;
    }
  }

  lemma StepVersions(embed: Embedder, s: State, step: Step)
    requires VersionsOk(s.docs)
    ensures VersionsOk(Take(embed, s, step).docs)
  {
    hide VersionsOk, NewDocument, Written, ShaTaken;
    match step
    case Upload(doc, filename, sha, texts, first) =>
      if doc !in s.docs {
        UploadVersions(s.docs, doc, filename, sha, texts);
      }
    case Commit(w) =>
      if w in s.workers && s.workers[w].doc in s.docs {
        CommitVersions(s.docs, s.workers[w].doc);
      }
    case _ =>
  }
}
