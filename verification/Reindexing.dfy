/** Uploading a document (backend/app/documents.py), indexing one, and the reindex pass over all
    of them (backend/app/indexing.py), as uninterrupted calls. */
module Reindexing {
  import opened Wrappers
  import opened Indexing
  import opened Chunk

  /** Where a call to the embedder, the vector store or the database fails. */
  datatype Fault = AtEmbed | AtUpsert(written: set<nat>) | AtCommit

  /** The machine's steps that one call to `index_document` amounts to. */
  function StepsFor(doc: nat, fault: Option<Fault>): seq<Step> {
    match fault
    case None => [Select(0, doc), ConfirmUpsert(0), Commit(0)]
    case Some(AtEmbed) => [Select(0, doc), Fail(0)]
    case Some(AtUpsert(written)) => [Select(0, doc), PartialUpsert(0, written), Fail(0)]
    case Some(AtCommit) => [Select(0, doc), ConfirmUpsert(0), Fail(0)]
  }

  ghost predicate SameTables(docs: Docs, chunks: Chunks, points: Points, s: State) {
    docs == s.docs && chunks == s.chunks && points == s.points
  }

  /** Documents with something left to embed. */
  function PendingDocs(chunks: Chunks): set<nat> {
    set id | id in chunks && !chunks[id].embedded :: chunks[id].doc
  }

  /** The chunks a reindex gets to: pending, in a document of `done` that does not fail. */
  function Reached(chunks: Chunks, done: set<nat>, faults: map<nat, Fault>): set<nat> {
    set id | id in chunks && !chunks[id].embedded && chunks[id].doc in done && chunks[id].doc !in faults
  }

  /** What a reindex leaves of the chunk table. */
  ghost predicate Reindexed(before: Chunks, after: Chunks, faults: map<nat, Fault>, indexed: nat, failures: set<nat>) {
    && after == Flag(before, Reached(before, PendingDocs(before), faults))
    && indexed == |Reached(before, PendingDocs(before), faults)|
    && failures == PendingDocs(before) * faults.Keys
  }

  class VectorIndex {
    var docs: Docs
    var chunks: Chunks
    var points: Points

    function Tables(): State reads this { State(docs, chunks, points, map[]) }

    /**
     Upload a file: content already stored is left alone; otherwise the document is stored with its
     chunks, and then indexed, which may fail without undoing the upload. `extracted` is None when no
     text can be read from the file, and `stored` false when the object store fails.
     */
    method Upload(embed: Embedder, doc: nat, filename: string, sha: Sha, extracted: Option<string>, stored: bool,
                  size: int, overlap: int, first: nat, fault: Option<Fault>)
      returns (r: UploadReply, ghost texts: seq<string>)
      requires Inv(embed, Tables()) && doc !in docs && forall id :: first <= id ==> id !in chunks
      modifies this
      ensures Inv(embed, Tables())
      ensures r.Duplicate? <==> ShaTaken(old(docs), sha)
      ensures r.Duplicate? ==> r.original in old(docs) && old(docs)[r.original].sha == sha
      ensures r.Uploaded? <==> !ShaTaken(old(docs), sha) && extracted.Some? && stored && size > 0 && 0 <= overlap < size
      ensures r.Uploaded? ==>
                && AreChunksOf(extracted.value, size, overlap, texts)
                && SameTables(docs, chunks, points, AfterUpload(embed, old(Tables()), doc, filename, sha, texts, first, fault))
                && r.indexError == (fault.Some? && texts != []) && r.indexed == (if fault.Some? then 0 else |texts|)
      ensures !r.Uploaded? ==> SameTables(docs, chunks, points, old(Tables()))
      ensures r.Uploaded? ==>
                exists mid :: IsStored(old(Tables()), mid, doc, filename, sha, texts, first)
                              && (texts == [] ==> Tables() == mid) && (fault == None ==> IsIndexed(embed, doc, mid, Tables()))
                              && docs.Keys == mid.docs.Keys && (fault.Some? ==> docs == mid.docs && chunks == mid.chunks)
    {
      hide Inv, Run, AreChunksOf, TakeUpload, PendingOf, StepsFor, Chunk.IsGreedy, Chunk.IsGrouping, Chunk.AreBlocks;
      texts := [];
      if exists d :: d in docs && docs[d].sha == sha {
        var d :| d in docs && docs[d].sha == sha;
        return Duplicate(d), [];
      }
      if extracted == None {
        return Unreadable, [];
      }
      if !stored {
        return StoreFailed, [];
      }
      var cut, _, _ := ChunkText(extracted.value, size, overlap);
      if cut.Err? {
        return BadSettings, [];
      }
      texts := cut.value;
      UploadStores(Tables(), doc, filename, sha, texts, first);
      StoreDocument(embed, doc, filename, sha, cut.value, first);
      ghost var mid := Tables();
      hide IsStored, IsIndexed;
      assert IsStored(old(Tables()), mid, doc, filename, sha, texts, first);
      r := IndexNew(embed, doc, cut.value, fault);
    }

    /** Commit the document and its chunks, owing every chunk an embedding. */
    method StoreDocument(embed: Embedder, doc: nat, filename: string, sha: Sha, texts: seq<string>, first: nat)
      requires Inv(embed, Tables()) && !ShaTaken(docs, sha) && doc !in docs && forall id :: first <= id ==> id !in chunks
      modifies this
      ensures Inv(embed, Tables()) && Tables() == TakeUpload(old(Tables()), doc, filename, sha, texts, first)
      ensures doc in docs && |PendingOf(chunks, doc)| == |texts|
    {
      hide Inv, NewDocument, NewChunks, PendingOf, TakeUpload;
      ghost var before := Tables();
      var version := VersionAfter(docs, filename);
      DocumentIs(docs, filename, version, sha, texts);
      docs := docs[doc := Document(filename, version, sha, if texts == [] then Empty else Extracted)];
      AddChunks(doc, texts, first);
      UploadCommits(embed, before, Tables(), doc, filename, sha, texts, first);
    }

    /** Index a document just stored, if there is anything to index; a failure is only reported. */
    method IndexNew(embed: Embedder, doc: nat, texts: seq<string>, fault: Option<Fault>) returns (r: UploadReply)
      requires Inv(embed, Tables()) && doc in docs && |PendingOf(chunks, doc)| == |texts|
      modifies this
      ensures Inv(embed, Tables()) && r == Uploaded(if fault.Some? then 0 else |texts|, fault.Some? && texts != [])
      ensures SameTables(docs, chunks, points, if texts == [] then old(Tables()) else Run(embed, old(Tables()), StepsFor(doc, fault)))
      ensures fault == None ==> IsIndexed(embed, doc, old(Tables()), Tables())
      ensures fault.Some? || texts == [] ==> docs == old(docs) && chunks == old(chunks)
      ensures texts == [] ==> points == old(points)
    {
      hide Inv, Run, PendingOf, StepsFor, IsIndexed;
      if texts == [] {
        NothingOwed(embed, doc, Tables());
        return Uploaded(0, false);
      }
      ghost var before := Tables();
      var outcome := IndexDocument(embed, doc, fault);
      CallKeeps(embed, before, Tables(), doc, fault);
      match outcome {
        case Ok(n) => return Uploaded(n, false);
        case Err(_) => return Uploaded(0, true);
      }
    }

    method AddChunks(doc: nat, texts: seq<string>, first: nat)
      modifies this`chunks
      ensures chunks == old(chunks) + NewChunks(doc, texts, first)
    {
      hide NewChunks;
      NoChunks(doc, first);
      assert texts[..0] == [];
      for i := 0 to |texts|
        modifies this`chunks
        invariant chunks == old(chunks) + NewChunks(doc, texts[..i], first)
      {
        OneMoreChunk(old(chunks), doc, texts, first, i);
        chunks := chunks[first + i := Chunk(doc, i, texts[i], false)];
      }
      assert texts[..|texts|] == texts;
    }

    /** Embed a document's unflagged chunks; the result counts them. */
    method IndexDocument(embed: Embedder, doc: nat, fault: Option<Fault>) returns (r: Result<nat, string>)
      requires doc in docs
      modifies this
      ensures SameTables(docs, chunks, points, Run(embed, old(Tables()), StepsFor(doc, fault)))
      ensures fault == None ==> IsIndexed(embed, doc, old(Tables()), Tables())
      ensures fault == None ==> r == Ok(|set id | id in old(chunks) && old(chunks)[id].doc == doc && !old(chunks)[id].embedded|)
      ensures fault.Some? ==> docs == old(docs) && chunks == old(chunks)
      ensures PendingOf(old(chunks), doc) == {} ==> r == Ok(0) && SameTables(docs, chunks, points, old(Tables()))
      ensures PendingOf(old(chunks), doc) != {} ==>
                if fault == None then r == Ok(|PendingOf(old(chunks), doc)|) && chunks == Flag(old(chunks), PendingOf(old(chunks), doc))
                else r.Err? && chunks == old(chunks)
    {
      hide Run, Written, Flag, PendingOf, StepsFor;
      var ids := PendingOf(chunks, doc);
      CallIsRun(embed, Tables(), doc, fault);
      FlagsAndPoints(embed, doc, Tables());
      hide IsIndexed;
      if ids == {} {
        return Ok(0);
      }
      if fault == Some(AtEmbed) {
        return Err("embedding failed");
      }
      if fault.Some? && fault.value.AtUpsert? {
        points := points + Written(embed, docs, chunks, doc, ids * fault.value.written);
        return Err("upsert failed");
      }
      points := points + Written(embed, docs, chunks, doc, ids);
      if fault.Some? {
        return Err("commit failed");
      }
      // The flags follow the write, never the other way round.
      chunks := Flag(chunks, ids);
      docs := docs[doc := docs[doc].(status := Embedded)];
      return Ok(|ids|);
    }

    /** The body of the pass's loop: count what was indexed, or note the failure. */
    method TryDocument(embed: Embedder, doc: nat, faults: map<nat, Fault>, indexed0: nat, failures0: set<nat>,
                       ghost before: Chunks, ghost done: set<nat>)
      returns (indexed: nat, failures: set<nat>)
      requires Inv(embed, Tables()) && Partway(before, chunks, done, faults, indexed0, failures0)
      requires doc in PendingDocs(before) && doc !in done
      modifies this
      ensures Inv(embed, Tables()) && Partway(before, chunks, done + {doc}, faults, indexed, failures)
    {
      hide Inv, Partway, PendingOf, PendingDocs, Run, StepsFor, Flag;
      ghost var was := Tables();
      StillPending(embed, was, before, done, faults, indexed0, failures0, doc);
      var fault := if doc in faults then Some(faults[doc]) else None;
      var r := IndexDocument(embed, doc, fault);
      CallKeeps(embed, was, Tables(), doc, fault);
      OneMoreDocument(before, was.chunks, chunks, done, faults, indexed0, failures0, doc);
      match r {
        case Ok(n) => return indexed0 + n, failures0;
        case Err(_) => return indexed0, failures0 + {doc};
      }
    }

    /** One attempt at each document with pending chunks, whatever becomes of the others. */
    method Reindex(embed: Embedder, faults: map<nat, Fault>) returns (seen: set<nat>, indexed: nat, failures: set<nat>)
      requires Inv(embed, Tables())
      modifies this
      ensures Inv(embed, Tables()) && seen == PendingDocs(old(chunks))
      ensures Reindexed(old(chunks), chunks, faults, indexed, failures)
      ensures seen == {} ==> SameTables(docs, chunks, points, old(Tables()))
      ensures seen == set id | id in old(chunks) && !old(chunks)[id].embedded :: old(chunks)[id].doc
      ensures chunks.Keys == old(chunks).Keys && forall id :: id in chunks ==>
                chunks[id] == old(chunks)[id].(embedded := old(chunks)[id].embedded || old(chunks)[id].doc !in faults)
      ensures indexed == |set id | id in old(chunks) && !old(chunks)[id].embedded && old(chunks)[id].doc !in faults|
      ensures failures == seen * faults.Keys
    {
      hide Inv, Partway, PendingOf, PendingDocs, Run, StepsFor;
      seen := PendingDocs(chunks);
      indexed, failures := 0, {};
      var todo := seen;
      ghost var done: set<nat> := {};
      PassStarts(chunks, faults);
      while todo != {}
        invariant todo !! done && todo + done == seen && Inv(embed, Tables())
        invariant Partway(old(chunks), chunks, done, faults, indexed, failures)
        invariant done == {} ==> SameTables(docs, chunks, points, old(Tables()))
        decreases |todo|
      {
        var doc :| doc in todo;
        indexed, failures := TryDocument(embed, doc, faults, indexed, failures, old(chunks), done);
        todo, done := todo - {doc}, done + {doc};
      }
      assert done == seen;
      PassEnds(old(chunks), chunks, faults, indexed, failures);
      PassMeans(old(chunks), chunks, faults, indexed, failures);
      hide Reindexed;
    }
  }

  /** What indexing a document leaves, row by row: each chunk still owed an embedding has its point,
      every chunk of the document is flagged, and nothing else changes. */
  ghost predicate IsIndexed(embed: Embedder, doc: nat, before: State, after: State) {
    && doc in before.docs && after.docs.Keys == before.docs.Keys && after.chunks.Keys == before.chunks.Keys
    && (forall d :: d in before.docs && d != doc ==> after.docs[d] == before.docs[d])
    && after.docs[doc].(status := before.docs[doc].status) == before.docs[doc]
    && (forall id :: id in before.chunks ==> after.chunks[id] == WhenIndexed(before.chunks[id], doc))
    && (forall id :: id in after.points <==> id in before.points || Owed(before.chunks, doc, id))
    && (forall id :: id in before.points && !Owed(before.chunks, doc, id) ==> after.points[id] == before.points[id])
    && (forall id :: Owed(before.chunks, doc, id) ==> Shows(after.points[id], embed, before.docs[doc], before.chunks[id]))
  }

  ghost predicate Owed(chunks: Chunks, doc: nat, id: nat) {
    id in chunks && chunks[id].doc == doc && !chunks[id].embedded
  }

  ghost function WhenIndexed(c: Indexing.Chunk, doc: nat): Indexing.Chunk { if c.doc == doc then c.(embedded := true) else c }

  lemma FlagsAndPoints(embed: Embedder, doc: nat, s: State)
    requires doc in s.docs && s.workers == map[]
    ensures var ids := PendingOf(s.chunks, doc);
            && ids == (set id | id in s.chunks && s.chunks[id].doc == doc && !s.chunks[id].embedded)
            && (ids == {} ==> IsIndexed(embed, doc, s, s))
            && IsIndexed(embed, doc, s, State(s.docs[doc := s.docs[doc].(status := Embedded)], Flag(s.chunks, ids),
                                              s.points + Written(embed, s.docs, s.chunks, doc, ids), map[]))
  {
    var ids := PendingOf(s.chunks, doc);
    forall id
      ensures id in ids <==> Owed(s.chunks, doc, id)
    {
    }
    WrittenShows(embed, doc, s, ids);
    FlaggedChunks(s.chunks, doc, ids);
    if ids == {} {
      NoneOwed(embed, doc, s);
    }
    hide Flag, Written, Shows, Owed, WhenIndexed, PendingOf;
  }

  lemma NoneOwed(embed: Embedder, doc: nat, s: State)
    requires doc in s.docs && forall id :: !Owed(s.chunks, doc, id)
    ensures IsIndexed(embed, doc, s, s)
  {
    forall id | id in s.chunks
      ensures s.chunks[id] == WhenIndexed(s.chunks[id], doc)
    {
      assert !Owed(s.chunks, doc, id);
    }
    hide Owed, WhenIndexed;
  }

  lemma WrittenShows(embed: Embedder, doc: nat, s: State, ids: set<nat>)
    requires doc in s.docs && forall id :: id in ids <==> Owed(s.chunks, doc, id)
    ensures var written := Written(embed, s.docs, s.chunks, doc, ids);
            written.Keys == ids && forall id :: id in ids ==> Shows(written[id], embed, s.docs[doc], s.chunks[id])
  {
    forall id | id in ids
      ensures id in s.chunks && Shows(PointFor(embed, s.docs[doc], s.chunks[id]), embed, s.docs[doc], s.chunks[id])
    {
      assert Owed(s.chunks, doc, id);
      PointShows(embed, s.docs[doc], s.chunks[id]);
    }
    hide PointFor, Shows;
  }

  lemma FlaggedChunks(chunks: Chunks, doc: nat, ids: set<nat>)
    requires forall id :: id in ids <==> Owed(chunks, doc, id)
    ensures Flag(chunks, ids).Keys == chunks.Keys
    ensures forall id :: id in chunks ==> Flag(chunks, ids)[id] == WhenIndexed(chunks[id], doc)
  {
    forall id | id in chunks
      ensures Flag(chunks, ids)[id] == WhenIndexed(chunks[id], doc)
    {
      assert id in ids <==> Owed(chunks, doc, id);
    }
  }

  lemma NothingOwed(embed: Embedder, doc: nat, s: State)
    requires doc in s.docs && s.workers == map[] && |PendingOf(s.chunks, doc)| == 0
    ensures IsIndexed(embed, doc, s, s)
  {
    FlagsAndPoints(embed, doc, s);
    hide IsIndexed;
  }

  datatype UploadReply =
    | Duplicate(original: nat)
    | Unreadable
    | StoreFailed
    | BadSettings
    | Uploaded(indexed: nat, indexError: bool)

  /** The upload's step of the machine, then, if there is anything to embed, those of indexing. */
  ghost function AfterUpload(embed: Embedder, s: State, doc: nat, filename: string, sha: Sha, texts: seq<string>,
                             first: nat, fault: Option<Fault>): State {
    var committed := TakeUpload(s, doc, filename, sha, texts, first);
    if texts == [] then committed else Run(embed, committed, StepsFor(doc, fault))
  }

  /** One more than the highest version stored under the name. */
  method VersionAfter(docs: Docs, filename: string) returns (version: nat)
    ensures version == NextVersion(docs, filename)
  {
    var vs := Versions(docs, filename);
    var highest := 0;
    var todo := vs;
    while todo != {}
      invariant todo <= vs && (highest == 0 || highest in vs)
      invariant forall v :: v in vs && v !in todo ==> v <= highest
      decreases |todo|
    {
      var v :| v in todo;
      todo := todo - {v};
      if v > highest {
        highest := v;
      }
    }
    HighestIs(vs);
    return highest + 1;
  }

  lemma DocumentIs(docs: Docs, filename: string, version: nat, sha: Sha, texts: seq<string>)
    requires version == NextVersion(docs, filename)
    ensures Document(filename, version, sha, if texts == [] then Empty else Extracted) == NewDocument(docs, filename, sha, texts)
  {
  }

  /** The committed upload is the machine's step, keeps the invariant, and owes every chunk an embedding. */
  lemma UploadCommits(embed: Embedder, before: State, committed: State, doc: nat, filename: string, sha: Sha,
                      texts: seq<string>, first: nat)
    requires Inv(embed, before) && before.workers == map[] == committed.workers && !ShaTaken(before.docs, sha)
    requires doc !in before.docs && forall id :: first <= id ==> id !in before.chunks
    requires committed.docs == before.docs[doc := NewDocument(before.docs, filename, sha, texts)]
    requires committed.chunks == before.chunks + NewChunks(doc, texts, first) && committed.points == before.points
    ensures committed == TakeUpload(before, doc, filename, sha, texts, first) && Inv(embed, committed)
    ensures |PendingOf(committed.chunks, doc)| == |texts|
  {
    UploadKeeps(embed, before, doc, filename, sha, texts, first);
    AllPending(before.chunks, doc, texts, first) by {
      OldChunksElsewhere(embed, before, doc);
    }
    hide Inv, NewDocument;
  }

  lemma OldChunksElsewhere(embed: Embedder, s: State, doc: nat)
    requires Inv(embed, s) && doc !in s.docs
    ensures forall id :: id in s.chunks ==> s.chunks[id].doc != doc
  {
  }

  lemma AllPending(chunks: Chunks, doc: nat, texts: seq<string>, first: nat)
    requires forall id :: id in chunks ==> chunks[id].doc != doc && id < first
    ensures |PendingOf(chunks + NewChunks(doc, texts, first), doc)| == |texts|
  {
    assert PendingOf(chunks + NewChunks(doc, texts, first), doc) == NewChunks(doc, texts, first).Keys;
    NewChunkCount(doc, texts, first);
  }

  lemma {:induction false} NewChunkCount(doc: nat, texts: seq<string>, first: nat)
    ensures |NewChunks(doc, texts, first).Keys| == |texts|
  {
    if texts != [] {
      var n := |texts| - 1;
      NewChunkCount(doc, texts[..n], first);
      assert NewChunks(doc, texts, first).Keys == NewChunks(doc, texts[..n], first).Keys + {first + n};
    } else {
      assert NewChunks(doc, texts, first).Keys == {};
    }
  }

  /** A pass that has been through the documents `done`. */
  ghost predicate Partway(before: Chunks, after: Chunks, done: set<nat>, faults: map<nat, Fault>, indexed: nat, failures: set<nat>) {
    && after == Flag(before, Reached(before, done, faults))
    && indexed == |Reached(before, done, faults)|
    && failures == done * faults.Keys
  }

  lemma PassStarts(chunks: Chunks, faults: map<nat, Fault>)
    ensures Partway(chunks, chunks, {}, faults, 0, {})
  {
    assert Reached(chunks, {}, faults) == {};
    assert Flag(chunks, {}) == chunks;
  }

  lemma PassEnds(before: Chunks, after: Chunks, faults: map<nat, Fault>, indexed: nat, failures: set<nat>)
    requires Partway(before, after, PendingDocs(before), faults, indexed, failures)
    ensures Reindexed(before, after, faults, indexed, failures)
  {
  }

  /** A pass flags exactly the chunks of documents that do not fail, and counts those it flagged. */
  lemma PassMeans(before: Chunks, after: Chunks, faults: map<nat, Fault>, indexed: nat, failures: set<nat>)
    requires Reindexed(before, after, faults, indexed, failures)
    ensures PendingDocs(before) == set id | id in before && !before[id].embedded :: before[id].doc
    ensures after.Keys == before.Keys
    ensures forall id :: id in after ==> after[id] == before[id].(embedded := before[id].embedded || before[id].doc !in faults)
    ensures indexed == |set id | id in before && !before[id].embedded && before[id].doc !in faults|
    ensures failures == PendingDocs(before) * faults.Keys
  {
    assert Reached(before, PendingDocs(before), faults) == set id | id in before && !before[id].embedded && before[id].doc !in faults;
  }

  lemma NoChunks(doc: nat, first: nat)
    ensures NewChunks(doc, [], first) == map[]
  {
  }

  lemma OneMoreChunk(chunks: Chunks, doc: nat, texts: seq<string>, first: nat, i: nat)
    requires i < |texts|
    ensures chunks + NewChunks(doc, texts[..i + 1], first)
            == (chunks + NewChunks(doc, texts[..i], first))[first + i := Chunk(doc, i, texts[i], false)]
  {
    assert texts[..i + 1][..i] == texts[..i];
  }

  lemma RunOne(embed: Embedder, s: State, steps: seq<Step>, last: Step)
    ensures Run(embed, s, []) == s && Run(embed, s, steps + [last]) == Take(embed, Run(embed, s, steps), last)
  {
    assert (steps + [last])[..|steps|] == steps;
  }

  lemma ThreeSteps(embed: Embedder, s: State, a: Step, b: Step, c: Step)
    ensures Run(embed, s, [a, b]) == Take(embed, Take(embed, s, a), b)
    ensures Run(embed, s, [a, b, c]) == Take(embed, Take(embed, Take(embed, s, a), b), c)
  {
    RunOne(embed, s, [], a);
    RunOne(embed, s, [a], b);
    RunOne(embed, s, [a, b], c);
    assert [] + [a] == [a] && [a] + [b] == [a, b] && [a, b] + [c] == [a, b, c];
    hide Take, Run;
  }

  /** What the steps of one call do to the tables. */
  lemma CallIsRun(embed: Embedder, s: State, doc: nat, fault: Option<Fault>)
    requires s.workers == map[] && doc in s.docs
    ensures var ids := PendingOf(s.chunks, doc);
            var s' := Run(embed, s, StepsFor(doc, fault));
            && s'.workers == map[]
            && if ids == {} || fault == Some(AtEmbed) then SameTables(s'.docs, s'.chunks, s'.points, s)
               else if fault == None then
                 SameTables(s.docs[doc := s.docs[doc].(status := Embedded)], Flag(s.chunks, ids),
                            s.points + Written(embed, s.docs, s.chunks, doc, ids), s')
               else
                 SameTables(s.docs, s.chunks, s.points + Written(embed, s.docs, s.chunks, doc,
                            if fault == Some(AtCommit) then ids else ids * fault.value.written), s')
  {
    hide PendingOf, Written, Flag, Take, Run;
    match fault
    case None =>
      ThreeSteps(embed, s, Select(0, doc), ConfirmUpsert(0), Commit(0));
      SelectThen(embed, s, doc, {});
    case Some(AtEmbed) =>
      ThreeSteps(embed, s, Select(0, doc), Fail(0), Fail(0));
      SelectThen(embed, s, doc, {});
    case Some(AtUpsert(written)) =>
      ThreeSteps(embed, s, Select(0, doc), PartialUpsert(0, written), Fail(0));
      SelectThen(embed, s, doc, written);
    case Some(AtCommit) =>
      ThreeSteps(embed, s, Select(0, doc), ConfirmUpsert(0), Fail(0));
      SelectThen(embed, s, doc, {});
  }

  /** One worker alone, from selecting to each way a call can end. */
  lemma SelectThen(embed: Embedder, s: State, doc: nat, some: set<nat>)
    requires s.workers == map[] && doc in s.docs
    ensures var ids := PendingOf(s.chunks, doc);
            var selected := Take(embed, s, Select(0, doc));
            var upserted := Take(embed, selected, ConfirmUpsert(0));
            if ids == {} then
              selected == s && upserted == s && Take(embed, s, PartialUpsert(0, some)) == s
              && Take(embed, s, Commit(0)) == s && Take(embed, s, Fail(0)) == s
            else
              && Take(embed, selected, Fail(0)) == s
              && Take(embed, upserted, Fail(0)) == s.(points := s.points + Written(embed, s.docs, s.chunks, doc, ids))
              && Take(embed, Take(embed, selected, PartialUpsert(0, some)), Fail(0))
                 == s.(points := s.points + Written(embed, s.docs, s.chunks, doc, ids * some))
              && Take(embed, upserted, Commit(0))
                 == State(s.docs[doc := s.docs[doc].(status := Embedded)], Flag(s.chunks, ids),
                          s.points + Written(embed, s.docs, s.chunks, doc, ids), map[])
  {
    hide PendingOf, Written, Flag;
    assert map[0 := Selected(doc, PendingOf(s.chunks, doc))] - {0} == map[];
    assert s.workers - {0} == map[];
  }

  lemma CallKeeps(embed: Embedder, s: State, s': State, doc: nat, fault: Option<Fault>)
    requires Inv(embed, s) && s.workers == map[] && doc in s.docs && s'.workers == map[]
    requires SameTables(s'.docs, s'.chunks, s'.points, Run(embed, s, StepsFor(doc, fault)))
    ensures Inv(embed, s')
  {
    CallIsRun(embed, s, doc, fault);
    hide Inv;
    RunKeeps(embed, s, StepsFor(doc, fault));
    assert s' == Run(embed, s, StepsFor(doc, fault));
  }

  lemma {:induction false} RunKeeps(embed: Embedder, s: State, steps: seq<Step>)
    requires Inv(embed, s)
    ensures Inv(embed, Run(embed, s, steps))
  {
    hide Inv, Take;
    if steps != [] {
      RunKeeps(embed, s, steps[..|steps| - 1]);
      StepKeeps(embed, Run(embed, s, steps[..|steps| - 1]), steps[|steps| - 1]);
    }
  }

  /** A document whose turn has not come is as it was. */
  lemma StillPending(embed: Embedder, now: State, before: Chunks, done: set<nat>, faults: map<nat, Fault>,
                     indexed: nat, failures: set<nat>, doc: nat)
    requires Inv(embed, now) && Partway(before, now.chunks, done, faults, indexed, failures)
    requires doc in PendingDocs(before) && doc !in done
    ensures doc in now.docs && PendingOf(now.chunks, doc) == PendingOf(before, doc) && PendingOf(before, doc) != {}
  {
    var id :| id in before && !before[id].embedded && before[id].doc == doc;
    assert id in now.chunks && now.chunks[id].doc == doc;
    assert id in PendingOf(before, doc);
    assert PendingOf(now.chunks, doc) == PendingOf(before, doc);
  }

  lemma OneMoreDocument(before: Chunks, now: Chunks, next: Chunks, done: set<nat>, faults: map<nat, Fault>,
                        indexed: nat, failures: set<nat>, doc: nat)
    requires Partway(before, now, done, faults, indexed, failures) && doc !in done
    requires PendingOf(now, doc) == PendingOf(before, doc)
    requires next == if doc in faults then now else Flag(now, PendingOf(now, doc))
    ensures doc in faults ==> Partway(before, next, done + {doc}, faults, indexed, failures + {doc})
    ensures doc !in faults ==> Partway(before, next, done + {doc}, faults, indexed + |PendingOf(now, doc)|, failures)
  {
    hide Flag, PendingOf;
    ReachOneMore(before, done, faults, doc);
    if doc !in faults {
      FlagBoth(before, Reached(before, done, faults), PendingOf(before, doc));
    }
    hide Reached;
  }

  lemma ReachOneMore(before: Chunks, done: set<nat>, faults: map<nat, Fault>, doc: nat)
    requires doc !in done
    ensures Reached(before, done + {doc}, faults) == Reached(before, done, faults) + (if doc in faults then {} else PendingOf(before, doc))
    ensures Reached(before, done, faults) !! PendingOf(before, doc)
  {
  }

  lemma FlagBoth(chunks: Chunks, a: set<nat>, b: set<nat>)
    ensures Flag(Flag(chunks, a), b) == Flag(chunks, a + b)
  {
  }

  /** A pass in which nothing fails flags every chunk, counts each of them once, and leaves
      every document with text `embedded`. */
  lemma FaultFreeFlagsAll(embed: Embedder, before: Chunks, after: State, indexed: nat, failures: set<nat>)
    requires Inv(embed, after) && Reindexed(before, after.chunks, map[], indexed, failures)
    ensures forall id :: id in after.chunks ==> after.chunks[id].embedded
    ensures indexed == |set id | id in before && !before[id].embedded| && failures == {}
    ensures forall d :: d in after.docs ==> after.docs[d].status != Extracted
  {
    hide Inv;
    AllReached(before);
    assert forall id :: id in after.chunks ==> after.chunks[id].embedded;
    FlaggedIsEmbedded(embed, after);
  }

  lemma AllReached(before: Chunks)
    ensures Reached(before, PendingDocs(before), map[]) == set id | id in before && !before[id].embedded
  {
  }

  lemma FlaggedIsEmbedded(embed: Embedder, s: State)
    requires Inv(embed, s) && forall id :: id in s.chunks ==> s.chunks[id].embedded
    ensures forall d :: d in s.docs ==> s.docs[d].status != Extracted
  {
    hide PointsOk, FlagsOk, WorkersOk, DistinctShas;
    forall d | d in s.docs
      ensures s.docs[d].status != Extracted
    {
      assert StatusOk(s.docs[d], d, s.chunks);
    }
  }

  /** After a fault-free pass a second one has nothing to do, whatever would have failed in it. */
  lemma SecondPassIsIdle(before: Chunks, after: Chunks, indexed: nat, failures: set<nat>,
                         again: Chunks, faults: map<nat, Fault>, indexed2: nat, failures2: set<nat>)
    requires Reindexed(before, after, map[], indexed, failures) && Reindexed(after, again, faults, indexed2, failures2)
    ensures PendingDocs(after) == {} && again == after && indexed2 == 0 && failures2 == {}
  {
    forall id | id in after
      ensures after[id].embedded
    {
      assert !before[id].embedded ==> id in Reached(before, PendingDocs(before), map[]);
    }
    assert PendingDocs(after) == {};
    assert Reached(after, PendingDocs(after), faults) == {};
  }

  /** A failed document stays retryable: exactly its own pending chunks are still unflagged. */
  lemma FailuresStayPending(before: Chunks, after: Chunks, faults: map<nat, Fault>, indexed: nat, failures: set<nat>)
    requires Reindexed(before, after, faults, indexed, failures)
    ensures PendingDocs(after) == failures
    ensures forall d :: PendingOf(after, d) == if d in failures then PendingOf(before, d) else {}
  {
    forall d
      ensures PendingOf(after, d) == if d in failures then PendingOf(before, d) else {}
    {
    }
    forall d
      ensures d in PendingDocs(after) <==> d in failures
    {
      if d in failures {
        var id :| id in before && !before[id].embedded && before[id].doc == d;
        assert id in after && !after[id].embedded;
      }
    }
  }
}
