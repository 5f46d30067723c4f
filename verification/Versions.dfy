/**
 Overlapping uploads of one file name (backend/app/documents.py): the next version number is read
 first, and the document carrying it is inserted later, so another upload may come in between.
 */
module Versions {
  import opened Indexing

  /** An upload between its two steps. `overtaken` is history: has a document of this name been
      stored since the version was read? */
  datatype Reader = Reader(filename: string, version: nat, overtaken: bool)

  datatype Uploads = Uploads(docs: Docs, readers: map<nat, Reader>)

  datatype Move =
    | Look(worker: nat, filename: string)
    | Store(worker: nat, doc: nat, sha: Sha, texts: seq<string>)
    | Leave(worker: nat)

  /** Inserts the document with the version read, unless the same content has come in meanwhile. */
  function TakeStore(s: Uploads, w: nat, doc: nat, sha: Sha, texts: seq<string>): Uploads {
    if w !in s.readers || doc in s.docs then s
    else if ShaTaken(s.docs, sha) then s.(readers := s.readers - {w})
    else
      var r := s.readers[w];
      Uploads(s.docs[doc := Document(r.filename, r.version, sha, if texts == [] then Empty else Extracted)],
              map v | v in s.readers && v != w ::
                if s.readers[v].filename == r.filename then s.readers[v].(overtaken := true) else s.readers[v])
  }

  ghost function TakeMove(s: Uploads, m: Move): Uploads {
    match m
    case Look(w, filename) =>
      if w in s.readers then s else s.(readers := s.readers[w := Reader(filename, NextVersion(s.docs, filename), false)])
    case Store(w, doc, sha, texts) => TakeStore(s, w, doc, sha, texts)
    case Leave(w) => s.(readers := s.readers - {w})
  }

  const NO_UPLOADS := Uploads(map[], map[])

  ghost function Overlap(moves: seq<Move>): Uploads {
    if moves == [] then NO_UPLOADS else TakeMove(Overlap(moves[..|moves| - 1]), moves[|moves| - 1])
  }

  /** The move stores a document whose version was read before the last one of that name was stored. */
  predicate IsRace(s: Uploads, m: Move) {
    && m.Store? && m.worker in s.readers && s.readers[m.worker].overtaken
    && m.doc !in s.docs && !ShaTaken(s.docs, m.sha)
  }

  ghost predicate Raced(moves: seq<Move>) {
    moves != [] && (Raced(moves[..|moves| - 1]) || IsRace(Overlap(moves[..|moves| - 1]), moves[|moves| - 1]))
  }

  // ------------------------------------------------------------ without a race

  /** A reader holds the next version, or one already used if it has been overtaken. */
  ghost predicate ReaderOk(docs: Docs, r: Reader) {
    r.version >= 1 && if r.overtaken then r.version < NextVersion(docs, r.filename) else r.version == NextVersion(docs, r.filename)
  }

  ghost predicate InStep(s: Uploads) {
    VersionsOk(s.docs) && forall w :: w in s.readers ==> ReaderOk(s.docs, s.readers[w])
  }

  lemma HighestOf(vs: set<nat>, v: nat)
    requires v in vs && forall u :: u in vs ==> u <= v
    ensures Highest(vs) == v
  {
    HighestIs(vs);
  }

  /** Storing the next version makes the one after it next, for that name only. */
  lemma NextMoves(docs: Docs, doc: nat, d: Document, filename: string)
    requires doc !in docs && d.version == NextVersion(docs, d.filename)
    ensures NextVersion(docs[doc := d], filename) == NextVersion(docs, filename) + (if filename == d.filename then 1 else 0)
  {
    var after := docs[doc := d];
    var before := Indexing.Versions(docs, filename);
    VersionAdded(docs, doc, d, filename);
    if filename == d.filename {
      HighestIs(before);
      HighestOf(before + {d.version}, d.version);
    } else {
      assert before + {} == before;
    }
    hide Highest;
  }

  lemma VersionAdded(docs: Docs, doc: nat, d: Document, filename: string)
    requires doc !in docs
    ensures Indexing.Versions(docs[doc := d], filename)
            == Indexing.Versions(docs, filename) + (if filename == d.filename then {d.version} else {})
  {
    var after := docs[doc := d];
    MoreVersions(docs, doc, d);
    assert after[doc] == d;
    forall v | v in Indexing.Versions(after, filename)
      ensures v in Indexing.Versions(docs, filename) || (filename == d.filename && v == d.version)
    {
      var c :| c in after && after[c].filename == filename && after[c].version == v;
      assert c != doc ==> c in docs && docs[c] == after[c];
    }
  }

  lemma StoreInStep(s: Uploads, w: nat, doc: nat, sha: Sha, texts: seq<string>)
    requires InStep(s) && !IsRace(s, Store(w, doc, sha, texts))
    ensures InStep(TakeStore(s, w, doc, sha, texts))
  {
    hide VersionsOk, Indexing.Versions, Highest, NextVersion;
    if w in s.readers && doc !in s.docs && !ShaTaken(s.docs, sha) {
      var r, after := s.readers[w], TakeStore(s, w, doc, sha, texts);
      assert ReaderOk(s.docs, r) && !r.overtaken;
      var d := NewDocument(s.docs, r.filename, sha, texts);
      assert after.docs == s.docs[doc := d];
      UploadVersions(s.docs, doc, r.filename, sha, texts);
      forall v | v in after.readers
        ensures ReaderOk(after.docs, after.readers[v])
      {
        assert ReaderOk(s.docs, s.readers[v]);
        NextMoves(s.docs, doc, d, s.readers[v].filename);
      }
    }
  }

  lemma MoveInStep(s: Uploads, m: Move)
    requires InStep(s) && !IsRace(s, m)
    ensures InStep(TakeMove(s, m))
  {
    hide VersionsOk, Indexing.Versions, Highest;
    if m.Store? {
      StoreInStep(s, m.worker, m.doc, m.sha, m.texts);
    }
  }

  // ------------------------------------------------------------ with a race

  /** Two documents of one name carry the same version. */
  ghost predicate Shared(docs: Docs) {
    exists c, d :: c in docs && d in docs && c != d && docs[c].filename == docs[d].filename && docs[c].version == docs[d].version
  }

  lemma RaceShares(s: Uploads, m: Move)
    requires InStep(s) && IsRace(s, m)
    ensures Shared(TakeMove(s, m).docs)
  {
    var r, after := s.readers[m.worker], TakeMove(s, m).docs;
    assert ReaderOk(s.docs, r);
    HighestIs(Indexing.Versions(s.docs, r.filename));
    hide Highest;
    var top :| top in s.docs && s.docs[top].filename == r.filename && s.docs[top].version + 1 == NextVersion(s.docs, r.filename);
    assert NoGaps(s.docs, s.docs[top]);
    assert r.version in Indexing.Versions(s.docs, r.filename);
    var c :| c in s.docs && s.docs[c].filename == r.filename && s.docs[c].version == r.version;
    assert c in after && m.doc in after && after[c] == s.docs[c] && after[m.doc].version == r.version;
  }

  lemma SharedStays(s: Uploads, m: Move)
    requires Shared(s.docs)
    ensures Shared(TakeMove(s, m).docs)
  {
    var c, d :| c in s.docs && d in s.docs && c != d
                && s.docs[c].filename == s.docs[d].filename && s.docs[c].version == s.docs[d].version;
    var after := TakeMove(s, m).docs;
    assert after[c] == s.docs[c] && after[d] == s.docs[d];
  }

  lemma {:induction false} RacedShares(moves: seq<Move>)
    ensures if Raced(moves) then Shared(Overlap(moves).docs) else InStep(Overlap(moves))
  {
    hide Shared, InStep, TakeMove, IsRace;
    if moves == [] {
      NothingStored();
    } else {
      var init, last := moves[..|moves| - 1], moves[|moves| - 1];
      RacedShares(init);
      if Raced(init) {
        SharedStays(Overlap(init), last);
      } else if IsRace(Overlap(init), last) {
        RaceShares(Overlap(init), last);
      } else {
        MoveInStep(Overlap(init), last);
      }
    }
  }

  lemma NothingStored()
    ensures InStep(NO_UPLOADS)
  {
  }

  /** The exact condition: the versions of every name are 1, 2, 3 and so on, each once, if and only if no
      document was stored whose version had been read before the last one of its name was stored. */
  lemma VersionsIff(moves: seq<Move>)
    ensures VersionsOk(Overlap(moves).docs) <==> !Raced(moves)
  {
    RacedShares(moves);
    hide Overlap, Raced, NoGaps;
  }

  /** The race happens: two uploads of a new name that both read before either stores share version 1. */
  lemma OverlapSharesVersion(filename: string, sha1: Sha, sha2: Sha, texts1: seq<string>, texts2: seq<string>)
    requires sha1 != sha2
    ensures var docs := Overlap([Look(0, filename), Look(1, filename), Store(0, 0, sha1, texts1), Store(1, 1, sha2, texts2)]).docs;
            0 in docs && 1 in docs && docs[0].version == docs[1].version == 1
  {
    var a, b, c, d := Look(0, filename), Look(1, filename), Store(0, 0, sha1, texts1), Store(1, 1, sha2, texts2);
    assert [a, b, c, d][..3] == [a, b, c] && [a, b, c][..2] == [a, b] && [a, b][..1] == [a] && [a][..0] == [];
    FirstVersion(filename);
    hide NextVersion;
    assert Overlap([a]).readers == map[0 := Reader(filename, 1, false)] && Overlap([a]).docs == map[];
    assert Overlap([a, b]).readers == map[0 := Reader(filename, 1, false), 1 := Reader(filename, 1, false)];
    assert Overlap([a, b, c]).docs.Keys == {0} && Overlap([a, b, c]).readers == map[1 := Reader(filename, 1, true)];
  }

  lemma FirstVersion(filename: string)
    ensures NextVersion(map[], filename) == 1
  {
    assert Indexing.Versions(map[], filename) == {};
  }
}
