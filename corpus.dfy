/**
 * The corpus service: uploading a document (text extraction, chapter
 * detection, chunking, vector payloads) and deleting one with a manual
 * cascade. The relational database is a class holding one sequence per
 * table and a counter handing out fresh ids; the extractors, the embedding
 * provider and the vector store are parameters.
 */
module Corpus {
  import opened Wrappers
  import opened Text
  import opened Records
  import Chunking
  import Utf8
  import Vector

  const SummaryChars: nat := 200
  const ChunkMaxChars: nat := 3000
  const ChunkOverlap: nat := 500

  // ---------------------------------------------------------------------------
  // Text extraction

  /** The bytes "%PDF". */
  const PdfMagic: seq<Utf8.byte> := [0x25, 0x50, 0x44, 0x46]

  /** An extractor either yields the text or raises (`None`). */
  type Extractor = seq<Utf8.byte> -> Option<string>

  predicate LooksLikePdf(content: seq<Utf8.byte>) {
    |content| >= 4 && content[..4] == PdfMagic
  }

  /**
   * A "%PDF" header selects the PDF extractor, anything else the DOCX one;
   * when the chosen extractor raises, the bytes are decoded as UTF-8 with
   * invalid bytes dropped.
   */
  function ExtractText(content: seq<Utf8.byte>, pdf: Extractor, docx: Extractor): string {
    var parsed := if LooksLikePdf(content) then pdf(content) else docx(content);
    if parsed.Some? then parsed.value else Utf8.Decode(content)
  }

  lemma PdfHeaderRoutes(rest: seq<Utf8.byte>, pdf: Extractor, docx: Extractor)
    ensures var content := PdfMagic + rest;
      ExtractText(content, pdf, docx) == (if pdf(content).Some? then pdf(content).value else Utf8.Decode(content))
  {
    assert (PdfMagic + rest)[..4] == PdfMagic;
  }

  /** Plain UTF-8 text that no extractor accepts comes through the fallback unchanged. */
  lemma FallbackKeepsText(s: string, pdf: Extractor, docx: Extractor)
    requires !LooksLikePdf(Utf8.Encode(s)) && docx(Utf8.Encode(s)).None?
    ensures ExtractText(Utf8.Encode(s), pdf, docx) == s
  {
    Utf8.DecodeEncode(s);
  }

  // ---------------------------------------------------------------------------
  // What an upload writes

  /** `file_path=f'/storage/docs/{file_hash}.pdf'`, the hash being an input. */
  function FilePath(digest: string): string {
    "/storage/docs/" + digest + ".pdf"
  }

  /** The field limits the document-creation model checks before anything is written. */
  predicate ValidMetadata(title: string, digest: string, source: Option<string>) {
    |title| <= TitleMax && |FilePath(digest)| <= FilePathMax && (source.None? || |source.value| <= SourceMax)
  }

  /** Python's `s[:n]`. */
  function Take(s: string, n: nat): (r: string)
    ensures |r| == if |s| <= n then |s| else n
    ensures r == s[..|r|]
  {
    if |s| <= n then s else s[..n]
  }

  /** `title_c[:255] or f'Chương {idx}'`. */
  function ChapterTitle(ordering: nat, segmentTitle: string): string {
    var t := Take(segmentTitle, TitleMax);
    if t != "" then t else "Chương " + NatToString(ordering)
  }

  /** The body itself up to 200 characters, else its first 200 characters and "...". */
  function Summary(body: string): string {
    if |body| > SummaryChars then body[..SummaryChars] + "..." else body
  }

  function ChapterRow(documentId: nat, id: nat, ordering: nat, seg: Chunking.Segment): Chapter {
    Chapter(id, documentId, ChapterTitle(ordering, seg.title), ordering, Some(Summary(seg.body)))
  }

  /** The chapter rows for the detected segments, numbered from 1, ids from `firstId`. */
  function ChapterRows(documentId: nat, segs: seq<Chunking.Segment>, firstId: nat): (rs: seq<Chapter>)
    ensures |rs| == |segs|
  {
    if segs == [] then []
    else
      ChapterRows(documentId, segs[..|segs| - 1], firstId)
        + [ChapterRow(documentId, firstId + |segs| - 1, |segs|, segs[|segs| - 1])]
  }

  /** `chunk_by_chars(content_c, max_chars=3000, overlap=500)`. */
  function Pieces(body: string): seq<string> {
    Chunking.ChunksOf(body, ChunkMaxChars, ChunkOverlap)
  }

  /** The chunk texts of every chapter body, chapter by chapter. */
  function BodyPieces(bodies: seq<string>): (ps: seq<seq<string>>)
    ensures |ps| == |bodies|
  {
    seq(|bodies|, i requires 0 <= i < |bodies| => Pieces(bodies[i]))
  }

  function Bodies(segs: seq<Chunking.Segment>): (bs: seq<string>)
    ensures |bs| == |segs|
    ensures forall i :: 0 <= i < |segs| ==> bs[i] == segs[i].body
  {
    seq(|segs|, i requires 0 <= i < |segs| => segs[i].body)
  }

  /** The chunk rows of one chapter: indices from 0, ids from `firstId`, no point id yet. */
  function ChunkRows(chapterId: nat, pieces: seq<string>, firstId: nat): (rs: seq<Chunk>)
    ensures |rs| == |pieces|
  {
    if pieces == [] then []
    else
      ChunkRows(chapterId, pieces[..|pieces| - 1], firstId)
        + [Chunk(firstId + |pieces| - 1, chapterId, |pieces| - 1, None, pieces[|pieces| - 1])]
  }

  /** Total number of chunks over the chapters. */
  function ChunkTotal(pieces: seq<seq<string>>): nat {
    if pieces == [] then 0 else ChunkTotal(pieces[..|pieces| - 1]) + |pieces[|pieces| - 1]|
  }

  /** The chunk rows of all chapters, chapter after chapter, ids from `firstId`. */
  function DocumentChunkRows(chapters: seq<Chapter>, pieces: seq<seq<string>>, firstId: nat): (rs: seq<Chunk>)
    requires |chapters| == |pieces|
    ensures |rs| == ChunkTotal(pieces)
  {
    if chapters == [] then []
    else
      var n := |chapters| - 1;
      var init := DocumentChunkRows(chapters[..n], pieces[..n], firstId);
      init + ChunkRows(chapters[n].id, pieces[n], firstId + |init|)
  }

  /** `c.qdrant_point_id = str(c.id)`. */
  function WithPointId(c: Chunk): Chunk {
    c.(pointId := Some(NatToString(c.id)))
  }

  function Synced(cs: seq<Chunk>): (rs: seq<Chunk>)
    ensures |rs| == |cs|
  {
    seq(|cs|, i requires 0 <= i < |cs| => WithPointId(cs[i]))
  }

  /** The payload stored with each vector. */
  datatype Payload = Payload(documentId: nat, chapterId: nat, chunkId: nat, chunkIndex: int)

  function PayloadOf(documentId: nat, c: Chunk): Payload {
    Payload(documentId, c.chapterId, c.id, c.chunkIndex)
  }

  // ---------------------------------------------------------------------------
  // Properties of the upload plan

  /** Row i of the chapter plan is segment i's chapter, with ordering i + 1 and id firstId + i. */
  lemma {:induction false} ChapterRowsSpec(documentId: nat, segs: seq<Chunking.Segment>, firstId: nat)
    ensures forall i :: 0 <= i < |segs| ==>
      ChapterRows(documentId, segs, firstId)[i] == ChapterRow(documentId, firstId + i, i + 1, segs[i])
  {
    if segs != [] {
      var init := segs[..|segs| - 1];
      ChapterRowsSpec(documentId, init, firstId);
      var prev := ChapterRows(documentId, init, firstId);
      var last := ChapterRow(documentId, firstId + |init|, |segs|, segs[|init|]);
      assert ChapterRows(documentId, segs, firstId) == prev + [last];
      ChapterRowsPrefix(documentId, segs, firstId, init, prev, last, prev + [last]);
    }
  }

  lemma ChapterRowsPrefix(documentId: nat, segs: seq<Chunking.Segment>, firstId: nat,
                          init: seq<Chunking.Segment>, prev: seq<Chapter>, last: Chapter, rows: seq<Chapter>)
    requires segs != [] && init == segs[..|segs| - 1]
    requires |prev| == |init|
    requires forall i :: 0 <= i < |init| ==> prev[i] == ChapterRow(documentId, firstId + i, i + 1, init[i])
    requires last == ChapterRow(documentId, firstId + |init|, |segs|, segs[|init|])
    requires rows == prev + [last]
    ensures forall i :: 0 <= i < |segs| ==> rows[i] == ChapterRow(documentId, firstId + i, i + 1, segs[i])
  {
    assert forall i :: 0 <= i < |init| ==> init[i] == segs[i] && rows[i] == prev[i];
  }

  /** A chapter title is never empty; a non-empty segment title is simply cut to 255 characters. */
  lemma ChapterTitleBounds(ordering: nat, segmentTitle: string)
    ensures ChapterTitle(ordering, segmentTitle) != ""
    ensures segmentTitle != "" ==>
      ChapterTitle(ordering, segmentTitle) == Take(segmentTitle, TitleMax) && |ChapterTitle(ordering, segmentTitle)| <= TitleMax
  {
  }

  /** Detected segments always have a non-empty title, so the "Chương N" fallback is never taken. */
  lemma SegmentTitlesNonEmpty(text: string)
    ensures forall k :: 0 <= k < |Chunking.SplitChapters(text)| ==> Chunking.SplitChapters(text)[k].title != ""
  {
    Chunking.SegmentShape(text);
    var r := Chunking.SplitChapters(text);
    forall k | 0 <= k < |r|
      ensures r[k].title != ""
    {
      if r != [Chunking.Segment(Chunking.ContentTitle, text)] {
        assert Chunking.SegmentTitle(r[k].title);
      }
    }
  }

  /** The summary keeps short bodies and cuts long ones to 200 characters plus "...". */
  lemma SummaryShape(body: string)
    ensures |body| <= SummaryChars ==> Summary(body) == body
    ensures |body| > SummaryChars ==>
      |Summary(body)| == SummaryChars + 3 && Summary(body)[..SummaryChars] == body[..SummaryChars]
      && Summary(body)[SummaryChars..] == "..."
    ensures |Summary(body)| <= SummaryChars + 3
  {
  }

  /** Row j of one chapter's chunk plan has index j, id firstId + j, the j-th piece and no point id. */
  lemma {:induction false} ChunkRowsSpec(chapterId: nat, pieces: seq<string>, firstId: nat)
    ensures forall j :: 0 <= j < |pieces| ==>
      ChunkRows(chapterId, pieces, firstId)[j] == Chunk(firstId + j, chapterId, j, None, pieces[j])
  {
    if pieces != [] {
      var init := pieces[..|pieces| - 1];
      ChunkRowsSpec(chapterId, init, firstId);
      var prev := ChunkRows(chapterId, init, firstId);
      var last := Chunk(firstId + |init|, chapterId, |init|, None, pieces[|init|]);
      assert ChunkRows(chapterId, pieces, firstId) == prev + [last];
      ChunkRowsPrefix(chapterId, pieces, firstId, init, prev, last, prev + [last]);
    }
  }

  lemma ChunkRowsPrefix(chapterId: nat, pieces: seq<string>, firstId: nat, init: seq<string>,
                        prev: seq<Chunk>, last: Chunk, rows: seq<Chunk>)
    requires pieces != [] && init == pieces[..|pieces| - 1]
    requires |prev| == |init|
    requires forall j :: 0 <= j < |init| ==> prev[j] == Chunk(firstId + j, chapterId, j, None, init[j])
    requires last == Chunk(firstId + |init|, chapterId, |init|, None, pieces[|init|])
    requires rows == prev + [last]
    ensures forall j :: 0 <= j < |pieces| ==> rows[j] == Chunk(firstId + j, chapterId, j, None, pieces[j])
  {
    assert forall j :: 0 <= j < |init| ==> init[j] == pieces[j] && rows[j] == prev[j];
  }

  /** A chunk row of the upload plan: fresh consecutive id, a planned chapter, a non-empty stripped text. */
  ghost predicate PlannedChunk(c: Chunk, id: nat, chapters: seq<Chapter>) {
    c.id == id && c.pointId.None? && c.chunkIndex >= 0 && c.text != [] && IsStripped(Py, c.text)
    && c.chapterId in Keys(chapters, ChapterKey)
  }

  /** Every piece is a non-empty stripped text, as chunk_by_chars returns them. */
  ghost predicate RealPieces(pieces: seq<seq<string>>) {
    forall i, j :: 0 <= i < |pieces| && 0 <= j < |pieces[i]| ==> pieces[i][j] != [] && IsStripped(Py, pieces[i][j])
  }

  /** chunk_by_chars only hands back non-blank, stripped chunks. */
  lemma BodyPiecesReal(bodies: seq<string>)
    ensures RealPieces(BodyPieces(bodies))
  {
    forall i | 0 <= i < |bodies|
      ensures forall j :: 0 <= j < |Pieces(bodies[i])| ==> Pieces(bodies[i])[j] != [] && IsStripped(Py, Pieces(bodies[i])[j])
    {
      Chunking.StripNonBlankSpec(Chunking.Windows(bodies[i], ChunkMaxChars, ChunkOverlap, 0));
    }
  }

  /** Every planned chunk row has id firstId + k, belongs to one of the chapters and holds a real piece. */
  lemma {:induction false} DocumentChunkRowsSpec(chapters: seq<Chapter>, pieces: seq<seq<string>>, firstId: nat)
    requires |chapters| == |pieces| && RealPieces(pieces)
    ensures forall k :: 0 <= k < |DocumentChunkRows(chapters, pieces, firstId)| ==>
      PlannedChunk(DocumentChunkRows(chapters, pieces, firstId)[k], firstId + k, chapters)
  {
    if chapters != [] {
      var n := |chapters| - 1;
      var init := DocumentChunkRows(chapters[..n], pieces[..n], firstId);
      DocumentChunkRowsSpec(chapters[..n], pieces[..n], firstId);
      ChunkRowsSpec(chapters[n].id, pieces[n], firstId + |init|);
      PlannedStep(chapters, n, init, ChunkRows(chapters[n].id, pieces[n], firstId + |init|), pieces[n], firstId);
    }
  }

  lemma PlannedStep(chapters: seq<Chapter>, n: nat, init: seq<Chunk>, last: seq<Chunk>, pieces: seq<string>, firstId: nat)
    requires n < |chapters|
    requires forall k :: 0 <= k < |init| ==> PlannedChunk(init[k], firstId + k, chapters[..n])
    requires |last| == |pieces|
    requires forall j :: 0 <= j < |pieces| ==> last[j] == Chunk(firstId + |init| + j, chapters[n].id, j, None, pieces[j])
    requires forall j :: 0 <= j < |pieces| ==> pieces[j] != [] && IsStripped(Py, pieces[j])
    ensures forall k :: 0 <= k < |init + last| ==> PlannedChunk((init + last)[k], firstId + k, chapters)
  {
    var all := init + last;
    forall k | 0 <= k < |all|
      ensures PlannedChunk(all[k], firstId + k, chapters)
    {
      if k < |init| {
        assert all[k] == init[k];
        var c :| c in chapters[..n] && ChapterKey(c) == init[k].chapterId;
        assert c in chapters;
      } else {
        var j := k - |init|;
        assert all[k] == last[j];
        assert chapters[n] in chapters;
        assert ChapterKey(chapters[n]) == all[k].chapterId;
      }
    }
  }

  /** After syncing, every point id is the decimal form of its chunk id and parses back to it. */
  lemma SyncedSpec(cs: seq<Chunk>)
    ensures forall i :: 0 <= i < |cs| ==>
      Synced(cs)[i].pointId.Some? && AllDigits(Synced(cs)[i].pointId.value)
      && ParseNat(Synced(cs)[i].pointId.value) == cs[i].id
      && Synced(cs)[i].(pointId := None) == cs[i].(pointId := None)
  {
    forall i | 0 <= i < |cs|
      ensures ParseNat(Synced(cs)[i].pointId.value) == cs[i].id
    {
      ParseNatToString(cs[i].id);
    }
  }

  /** Distinct chunk ids get distinct point ids. */
  lemma PointIdsDistinct(a: Chunk, b: Chunk)
    requires a.id != b.id
    ensures WithPointId(a).pointId != WithPointId(b).pointId
  {
    NatToStringInjective(a.id, b.id);
  }

  // ---------------------------------------------------------------------------
  // The database

  datatype Tables = Tables(documents: seq<Document>, chapters: seq<Chapter>, chunks: seq<Chunk>, quotes: seq<Quote>)

  /** Foreign keys: every chapter's document, chunk's chapter and quote's chunk exists. */
  ghost predicate Linked(t: Tables) {
    (forall c :: c in t.chapters ==> c.documentId in Keys(t.documents, DocumentKey))
    && (forall c :: c in t.chunks ==> c.chapterId in Keys(t.chapters, ChapterKey))
    && (forall q :: q in t.quotes ==> q.chunkId in Keys(t.chunks, ChunkKey))
  }

  /** Primary keys are distinct (increasing in table order) and below the next fresh id. */
  ghost predicate Keyed(t: Tables, next: nat) {
    Increasing(t.documents, DocumentKey) && Below(t.documents, DocumentKey, next)
    && Increasing(t.chapters, ChapterKey) && Below(t.chapters, ChapterKey, next)
    && Increasing(t.chunks, ChunkKey) && Below(t.chunks, ChunkKey, next)
    && Increasing(t.quotes, QuoteKey) && Below(t.quotes, QuoteKey, next)
  }

  ghost predicate ValidTables(t: Tables, next: nat) {
    Linked(t) && Keyed(t, next)
  }

  lemma KeyedMono(t: Tables, next: nat)
    requires Keyed(t, next)
    ensures Keyed(t, next + 1)
  {
    BelowMono(t.documents, DocumentKey, next, next + 1);
    BelowMono(t.chapters, ChapterKey, next, next + 1);
    BelowMono(t.chunks, ChunkKey, next, next + 1);
    BelowMono(t.quotes, QuoteKey, next, next + 1);
  }

  lemma AddDocumentValid(t: Tables, next: nat, d: Document)
    requires ValidTables(t, next) && d.id == next
    ensures ValidTables(t.(documents := t.documents + [d]), next + 1)
  {
    KeyedMono(t, next);
    IncreasingSnoc(t.documents, d, DocumentKey, next);
    assert Keys(t.documents, DocumentKey) <= Keys(t.documents + [d], DocumentKey);
  }

  lemma AddChapterValid(t: Tables, next: nat, c: Chapter)
    requires ValidTables(t, next) && c.id == next
    requires c.documentId in Keys(t.documents, DocumentKey)
    ensures ValidTables(t.(chapters := t.chapters + [c]), next + 1)
  {
    KeyedMono(t, next);
    IncreasingSnoc(t.chapters, c, ChapterKey, next);
    assert Keys(t.chapters, ChapterKey) <= Keys(t.chapters + [c], ChapterKey);
  }

  lemma AddChunkValid(t: Tables, next: nat, c: Chunk)
    requires ValidTables(t, next) && c.id == next
    requires c.chapterId in Keys(t.chapters, ChapterKey)
    ensures ValidTables(t.(chunks := t.chunks + [c]), next + 1)
  {
    KeyedMono(t, next);
    IncreasingSnoc(t.chunks, c, ChunkKey, next);
    assert Keys(t.chunks, ChunkKey) <= Keys(t.chunks + [c], ChunkKey);
  }

  /** Rewriting point ids keeps every key and link. */
  lemma SyncValid(t: Tables, next: nat, from: nat, synced: seq<Chunk>)
    requires ValidTables(t, next) && from <= |t.chunks|
    requires synced == Synced(t.chunks[from..])
    ensures ValidTables(t.(chunks := t.chunks[..from] + synced), next)
  {
    var cs := t.chunks[..from] + synced;
    assert forall i :: 0 <= i < |cs| ==> SameKey(cs[i], t.chunks[i]) by {
      forall i | 0 <= i < |cs|
        ensures SameKey(cs[i], t.chunks[i])
      {
        if i >= from {
          assert cs[i] == WithPointId(t.chunks[from..][i - from]);
        }
      }
    }
    SameKeysValid(t, next, cs);
  }

  /** Two chunk rows agreeing on id and chapter. */
  predicate SameKey(a: Chunk, b: Chunk) {
    a.id == b.id && a.chapterId == b.chapterId
  }

  /** Replacing the chunk rows by rows with the same ids and chapters keeps the tables consistent. */
  lemma SameKeysValid(t: Tables, next: nat, cs: seq<Chunk>)
    requires ValidTables(t, next) && |cs| == |t.chunks|
    requires forall i :: 0 <= i < |cs| ==> SameKey(cs[i], t.chunks[i])
    ensures ValidTables(t.(chunks := cs), next)
  {
    assert Keys(cs, ChunkKey) == Keys(t.chunks, ChunkKey) by {
      forall x | x in Keys(t.chunks, ChunkKey)
        ensures x in Keys(cs, ChunkKey)
      {
        var c :| c in t.chunks && ChunkKey(c) == x;
        var i :| 0 <= i < |t.chunks| && t.chunks[i] == c;
        assert ChunkKey(cs[i]) == x;
      }
    }
    forall c | c in cs
      ensures c.chapterId in Keys(t.chapters, ChapterKey)
    {
      var i :| 0 <= i < |cs| && cs[i] == c;
      assert t.chunks[i] in t.chunks;
    }
  }

  // ---------------------------------------------------------------------------
  // Deletion: which rows belong to a document

  /** Ids of the chapters of document `d`. */
  function ChaptersOf(chapters: seq<Chapter>, d: nat): set<nat> {
    set c | c in chapters && c.documentId == d :: c.id
  }

  function InChapters(ids: set<nat>): Chunk -> bool {
    (c: Chunk) => c.chapterId in ids
  }

  function OutsideChapters(ids: set<nat>): Chunk -> bool {
    (c: Chunk) => c.chapterId !in ids
  }

  function OutsideChunks(ids: set<nat>): Quote -> bool {
    (q: Quote) => q.chunkId !in ids
  }

  function NotOfDocument(d: nat): Chapter -> bool {
    (c: Chapter) => c.documentId != d
  }

  function NotDocument(d: nat): Document -> bool {
    (x: Document) => x.id != d
  }

  /** The chunks of document `d` (joined through their chapter), in table order. */
  function DocumentChunks(t: Tables, d: nat): seq<Chunk> {
    Filter(t.chunks, InChapters(ChaptersOf(t.chapters, d)))
  }

  function IdSet(cs: seq<Chunk>): set<nat> {
    set c | c in cs :: c.id
  }

  function IdList(cs: seq<Chunk>): (ids: seq<int>)
    ensures |ids| == |cs|
    ensures forall i :: 0 <= i < |cs| ==> ids[i] == cs[i].id
  {
    seq(|cs|, i requires 0 <= i < |cs| => cs[i].id)
  }

  /** The four deletion steps, as one function of the tables. */
  function Cascade(t: Tables, d: nat): Tables {
    var chapterIds := ChaptersOf(t.chapters, d);
    var chunkIds := IdSet(DocumentChunks(t, d));
    Tables(
      Filter(t.documents, NotDocument(d)),
      Filter(t.chapters, NotOfDocument(d)),
      Filter(t.chunks, OutsideChapters(chapterIds)),
      Filter(t.quotes, OutsideChunks(chunkIds)))
  }

  /**
   * After the cascade nothing of document `d` is left, and every other row is
   * kept: a row survives exactly when it does not belong to `d`.
   */
  lemma CascadeRemovesExactly(t: Tables, d: nat)
    ensures var r := Cascade(t, d);
      (forall x :: x in r.documents <==> x in t.documents && x.id != d)
      && (forall c :: c in r.chapters <==> c in t.chapters && c.documentId != d)
      && (forall c :: c in r.chunks <==> c in t.chunks && c !in DocumentChunks(t, d))
      && (forall q :: q in r.quotes <==> q in t.quotes && q.chunkId !in IdSet(DocumentChunks(t, d)))
  {
    var chapterIds := ChaptersOf(t.chapters, d);
    FilterMembers(t.documents, NotDocument(d));
    FilterMembers(t.chapters, NotOfDocument(d));
    FilterMembers(t.chunks, OutsideChapters(chapterIds));
    FilterMembers(t.chunks, InChapters(chapterIds));
    FilterMembers(t.quotes, OutsideChunks(IdSet(DocumentChunks(t, d))));
  }

  lemma DropQuotesValid(t: Tables, next: nat, keep: Quote -> bool)
    requires ValidTables(t, next)
    ensures ValidTables(t.(quotes := Filter(t.quotes, keep)), next)
  {
    FilterMembers(t.quotes, keep);
    FilterIncreasing(t.quotes, keep, QuoteKey, next);
  }

  lemma DropChunksValid(t: Tables, next: nat, keep: Chunk -> bool)
    requires ValidTables(t, next)
    requires forall q, c :: q in t.quotes && c in t.chunks && c.id == q.chunkId ==> keep(c)
    ensures ValidTables(t.(chunks := Filter(t.chunks, keep)), next)
  {
    var kept := Filter(t.chunks, keep);
    FilterMembers(t.chunks, keep);
    FilterIncreasing(t.chunks, keep, ChunkKey, next);
    forall q | q in t.quotes
      ensures q.chunkId in Keys(kept, ChunkKey)
    {
      var c :| c in t.chunks && ChunkKey(c) == q.chunkId;
      assert c in kept;
    }
  }

  lemma DropChaptersValid(t: Tables, next: nat, keep: Chapter -> bool)
    requires ValidTables(t, next)
    requires forall x, c :: x in t.chunks && c in t.chapters && c.id == x.chapterId ==> keep(c)
    ensures ValidTables(t.(chapters := Filter(t.chapters, keep)), next)
  {
    var kept := Filter(t.chapters, keep);
    FilterMembers(t.chapters, keep);
    FilterIncreasing(t.chapters, keep, ChapterKey, next);
    forall x | x in t.chunks
      ensures x.chapterId in Keys(kept, ChapterKey)
    {
      var c :| c in t.chapters && ChapterKey(c) == x.chapterId;
      assert c in kept;
    }
  }

  lemma DropDocumentsValid(t: Tables, next: nat, keep: Document -> bool)
    requires ValidTables(t, next)
    requires forall c, x :: c in t.chapters && x in t.documents && x.id == c.documentId ==> keep(x)
    ensures ValidTables(t.(documents := Filter(t.documents, keep)), next)
  {
    var kept := Filter(t.documents, keep);
    FilterMembers(t.documents, keep);
    FilterIncreasing(t.documents, keep, DocumentKey, next);
    forall c | c in t.chapters
      ensures c.documentId in Keys(kept, DocumentKey)
    {
      var x :| x in t.documents && DocumentKey(x) == c.documentId;
      assert x in kept;
    }
  }

  /** The cascade keeps the database consistent: in this order, no step leaves a dangling reference. */
  lemma CascadeValid(t: Tables, next: nat, d: nat)
    requires ValidTables(t, next)
    ensures ValidTables(Cascade(t, d), next)
  {
    var chapterIds := ChaptersOf(t.chapters, d);
    var chunkIds := IdSet(DocumentChunks(t, d));
    DropRowsOfChaptersValid(t, next, d);
    var t2 := t.(quotes := Filter(t.quotes, OutsideChunks(chunkIds)), chunks := Filter(t.chunks, OutsideChapters(chapterIds)));
    FilterMembers(t.chunks, OutsideChapters(chapterIds));
    forall x, c | x in t2.chunks && c in t2.chapters && c.id == x.chapterId
      ensures NotOfDocument(d)(c)
    {
    }
    var t3 := t2.(chapters := Filter(t2.chapters, NotOfDocument(d)));
    DropChaptersValid(t2, next, NotOfDocument(d));
    FilterMembers(t2.chapters, NotOfDocument(d));
    DropDocumentsValid(t3, next, NotDocument(d));
    assert t3.(documents := Filter(t3.documents, NotDocument(d))) == Cascade(t, d);
  }

  /** The first two deletions of the cascade: the quotes, then the chunks of the document's chapters. */
  lemma DropRowsOfChaptersValid(t: Tables, next: nat, d: nat)
    requires ValidTables(t, next)
    ensures ValidTables(t.(quotes := Filter(t.quotes, OutsideChunks(IdSet(DocumentChunks(t, d)))),
                           chunks := Filter(t.chunks, OutsideChapters(ChaptersOf(t.chapters, d)))), next)
  {
    var chapterIds := ChaptersOf(t.chapters, d);
    var chunkIds := IdSet(DocumentChunks(t, d));
    FilterMembers(t.chunks, InChapters(chapterIds));
    var t1 := t.(quotes := Filter(t.quotes, OutsideChunks(chunkIds)));
    DropQuotesValid(t, next, OutsideChunks(chunkIds));
    FilterMembers(t.quotes, OutsideChunks(chunkIds));
    forall q, c | q in t1.quotes && c in t1.chunks && c.id == q.chunkId
      ensures OutsideChapters(chapterIds)(c)
    {
    }
    DropChunksValid(t1, next, OutsideChapters(chapterIds));
    assert t1.(chunks := Filter(t1.chunks, OutsideChapters(chapterIds))) ==
      t.(quotes := Filter(t.quotes, OutsideChunks(chunkIds)), chunks := Filter(t.chunks, OutsideChapters(chapterIds)));
  }

  /** Plan of the rows a successful upload writes, for document id `id`. */
  datatype UploadPlan = UploadPlan(document: Document, chapters: seq<Chapter>, chunks: seq<Chunk>)

  /** The chapter rows of an upload: chapter i + 1 for segment i, ids from id + 1. */
  function PlanChapters(id: nat, segs: seq<Chunking.Segment>): seq<Chapter> {
    ChapterRows(id, segs, id + 1)
  }

  /** The chunk rows of an upload, ids following the chapters'. */
  function PlanChunkRows(id: nat, segs: seq<Chunking.Segment>): seq<Chunk> {
    DocumentChunkRows(PlanChapters(id, segs), BodyPieces(Bodies(segs)), id + 1 + |segs|)
  }

  /** The rows an upload of the detected segments `segs` writes, for document id `id`. */
  function PlanUpload(id: nat, segs: seq<Chunking.Segment>, title: string, description: Option<string>,
                      source: Option<string>, digest: string): UploadPlan
  {
    UploadPlan(Document(id, title, description, Some(FilePath(digest)), source), PlanChapters(id, segs), PlanChunkRows(id, segs))
  }

  function Texts(cs: seq<Chunk>): (ts: seq<string>)
    ensures |ts| == |cs|
    ensures forall i :: 0 <= i < |cs| ==> ts[i] == cs[i].text
  {
    seq(|cs|, i requires 0 <= i < |cs| => cs[i].text)
  }

  datatype UploadReceipt = UploadReceipt(documentId: nat, chapterCount: nat, chunkCount: nat)

  datatype UploadError = InvalidMetadata | VectorStoreFailed

  datatype DeleteError = NotFound(documentId: nat)

  /** In a consistent store every reference points below the next fresh id. */
  lemma ReferencesBelow(t: Tables, next: nat)
    requires ValidTables(t, next)
    ensures forall c :: c in t.chapters ==> c.documentId < next
    ensures forall x :: x in t.chunks ==> x.chapterId < next
  {
    forall c | c in t.chapters
      ensures c.documentId < next
    {
      var y :| y in t.documents && DocumentKey(y) == c.documentId;
      var j :| 0 <= j < |t.documents| && t.documents[j] == y;
    }
    forall x | x in t.chunks
      ensures x.chapterId < next
    {
      var c :| c in t.chapters && ChapterKey(c) == x.chapterId;
      var j :| 0 <= j < |t.chapters| && t.chapters[j] == c;
    }
  }

  /** A fresh document's chapters are exactly the new rows. */
  lemma FreshChapters(olds: seq<Chapter>, news: seq<Chapter>, d: nat)
    requires forall c :: c in olds ==> c.documentId < d
    requires forall i :: 0 <= i < |news| ==> news[i].documentId == d && news[i].id > d
    ensures forall y :: y in ChaptersOf(olds + news, d) ==> y > d
    ensures forall i :: 0 <= i < |news| ==> news[i].id in ChaptersOf(olds + news, d)
  {
    forall y | y in ChaptersOf(olds + news, d)
      ensures y > d
    {
      var c :| c in olds + news && c.documentId == d && c.id == y;
      assert c in news;
      var i :| 0 <= i < |news| && news[i] == c;
    }
    forall i | 0 <= i < |news|
      ensures news[i].id in ChaptersOf(olds + news, d)
    {
      assert news[i] in olds + news;
    }
  }

  /** Every chunk row references one of the given chapters. */
  ghost predicate BelongTo(cs: seq<Chunk>, chapters: seq<Chapter>) {
    forall k :: 0 <= k < |cs| ==> cs[k].chapterId in Keys(chapters, ChapterKey)
  }

  lemma ChunksOutside(cs: seq<Chunk>, ids: set<nat>, d: nat)
    requires forall x :: x in cs ==> x.chapterId < d
    requires forall y :: y in ids ==> y > d
    ensures forall k :: 0 <= k < |cs| ==> !InChapters(ids)(cs[k])
  {
    forall k | 0 <= k < |cs|
      ensures !InChapters(ids)(cs[k])
    {
      assert cs[k] in cs;
    }
  }

  lemma ChunksInChapters(chapters: seq<Chapter>, cs: seq<Chunk>, ids: set<nat>)
    requires forall i :: 0 <= i < |chapters| ==> chapters[i].id in ids
    requires BelongTo(cs, chapters)
    ensures forall k :: 0 <= k < |cs| ==> InChapters(ids)(cs[k])
  {
    forall k | 0 <= k < |cs|
      ensures InChapters(ids)(cs[k])
    {
      var c :| c in chapters && ChapterKey(c) == cs[k].chapterId;
      var i :| 0 <= i < |chapters| && chapters[i] == c;
    }
  }

  /** The chunks of a fresh document are exactly the rows just appended for it. */
  lemma NewChunksSelected(t: Tables, next: nat, d: nat, newChapters: seq<Chapter>, newChunks: seq<Chunk>)
    requires ValidTables(t, next) && d == next
    requires forall i :: 0 <= i < |newChapters| ==> newChapters[i].documentId == d && newChapters[i].id > next
    requires BelongTo(newChunks, newChapters)
    ensures Filter(t.chunks + newChunks, InChapters(ChaptersOf(t.chapters + newChapters, d))) == newChunks
  {
    var ids := ChaptersOf(t.chapters + newChapters, d);
    ReferencesBelow(t, next);
    FreshChapters(t.chapters, newChapters, d);
    ChunksOutside(t.chunks, ids, d);
    ChunksInChapters(newChapters, newChunks, ids);
    FilterSplit(t.chunks, newChunks, InChapters(ids));
  }

  /**
   * The rows of an upload: chapter i + 1 for segment i with id id + 1 + i,
   * then the chunk rows with the next ids, each a real piece referencing one
   * of those chapters.
   */
  lemma UploadPlanSpec(id: nat, segs: seq<Chunking.Segment>)
    ensures |PlanChapters(id, segs)| == |segs|
    ensures forall i :: 0 <= i < |segs| ==> PlanChapters(id, segs)[i] == ChapterRow(id, id + 1 + i, i + 1, segs[i])
    ensures forall k :: 0 <= k < |PlanChunkRows(id, segs)| ==>
      PlannedChunk(PlanChunkRows(id, segs)[k], id + 1 + |segs| + k, PlanChapters(id, segs))
    ensures BelongTo(PlanChunkRows(id, segs), PlanChapters(id, segs))
  {
    ChapterRowsSpec(id, segs, id + 1);
    BodyPiecesReal(Bodies(segs));
    DocumentChunkRowsSpec(PlanChapters(id, segs), BodyPieces(Bodies(segs)), id + 1 + |segs|);
  }

  /** The points sent for the chunks of document `documentId`: zipped with the vectors, in chunk order. */
  ghost predicate UpsertOf(points: seq<Vector.Point<Payload>>, documentId: nat, cs: seq<Chunk>, vectors: seq<seq<real>>) {
    |points| == (if |cs| <= |vectors| then |cs| else |vectors|)
    && forall i :: 0 <= i < |points| ==> points[i] == Vector.Point(cs[i].id, vectors[i], PayloadOf(documentId, cs[i]))
  }

  /**
   * What an upload of the segments `segs` does to tables `t0` with next id
   * `next0`, ending in `t` and `next`: the rows of the plan are always
   * committed; the vector store is reached when the collection is ready and
   * the embedding succeeds; the upsert (if there is any point to send) carries
   * one point per chunk; only after it succeeds are the point ids synced.
   */
  ghost predicate Uploaded(t0: Tables, next0: nat, t: Tables, next: nat, segs: seq<Chunking.Segment>,
                           title: string, description: Option<string>, source: Option<string>, digest: string,
                           collectionReady: bool, embed: seq<string> -> Option<seq<seq<real>>>, upsertAccepted: bool,
                           r: Result<UploadReceipt, UploadError>, upsert: Option<seq<Vector.Point<Payload>>>)
  {
    var p := PlanUpload(next0, segs, title, description, source, digest);
    var vectors := embed(Texts(p.chunks));
    var reached := collectionReady && vectors.Some?;
    t.documents == t0.documents + [p.document] && t.chapters == t0.chapters + p.chapters && t.quotes == t0.quotes
    && next == next0 + 1 + |segs| + |p.chunks|
    && (!reached ==> r == Failure(VectorStoreFailed) && upsert.None? && t.chunks == t0.chunks + p.chunks)
    && (reached ==>
          (upsert.None? <==> p.chunks == [] || vectors.value == [])
          && (upsert.Some? ==> UpsertOf(upsert.value, next0, p.chunks, vectors.value))
          && (upsert.Some? && !upsertAccepted ==>
                r == Failure(VectorStoreFailed) && t.chunks == t0.chunks + p.chunks)
          && (upsert.None? || upsertAccepted ==>
                r == Success(UploadReceipt(next0, |segs|, |p.chunks|)) && t.chunks == t0.chunks + Synced(p.chunks)))
  }

  /**
   * After a successful upload the new document's chunks are exactly its
   * planned rows, in order, each now carrying its own id as point id.
   */
  lemma UploadedChunks(t0: Tables, next0: nat, t: Tables, next: nat, segs: seq<Chunking.Segment>,
                       title: string, description: Option<string>, source: Option<string>, digest: string,
                       collectionReady: bool, embed: seq<string> -> Option<seq<seq<real>>>, upsertAccepted: bool,
                       r: Result<UploadReceipt, UploadError>, upsert: Option<seq<Vector.Point<Payload>>>)
    requires ValidTables(t0, next0)
    requires Uploaded(t0, next0, t, next, segs, title, description, source, digest,
                      collectionReady, embed, upsertAccepted, r, upsert)
    requires r.Success?
    ensures DocumentChunks(t, next0) == Synced(PlanChunkRows(next0, segs))
    ensures r.value.chunkCount == |DocumentChunks(t, next0)|
  {
    var plan := PlanChunkRows(next0, segs);
    UploadPlanSpec(next0, segs);
    SyncedBelong(plan, PlanChapters(next0, segs));
    NewChunksSelected(t0, next0, next0, PlanChapters(next0, segs), Synced(plan));
  }

  lemma SyncedBelong(cs: seq<Chunk>, chapters: seq<Chapter>)
    requires BelongTo(cs, chapters)
    ensures BelongTo(Synced(cs), chapters)
  {
    assert forall k :: 0 <= k < |cs| ==> Synced(cs)[k].chapterId == cs[k].chapterId;
  }

  /** The relational store: one sequence per table and the next fresh id. */
  class CorpusStore {
    var documents: seq<Document>
    var chapters: seq<Chapter>
    var chunks: seq<Chunk>
    var quotes: seq<Quote>
    var nextId: nat

    function State(): Tables
      reads this
    {
      Tables(documents, chapters, chunks, quotes)
    }

    ghost predicate Valid()
      reads this
    {
      ValidTables(State(), nextId)
    }

    constructor (t: Tables, next: nat)
      requires ValidTables(t, next)
      ensures Valid() && State() == t && nextId == next
    {
      documents := t.documents;
      chapters := t.chapters;
      chunks := t.chunks;
      quotes := t.quotes;
      nextId := next;
    }

    // -------------------------------------------------------------------------
    // Upload

    method AddDocument(d: Document) returns (id: nat)
      modifies this
      requires Valid()
      ensures Valid()
      ensures id == old(nextId) && nextId == id + 1
      ensures documents == old(documents) + [d.(id := id)]
      ensures chapters == old(chapters) && chunks == old(chunks) && quotes == old(quotes)
    {
      id := nextId;
      AddDocumentValid(State(), nextId, d.(id := id));
      documents := documents + [d.(id := id)];
      nextId := nextId + 1;
    }

    /** The chapter loop: one row per segment, ordering from 1, fresh ids in order. */
    method AddChapters(documentId: nat, segs: seq<Chunking.Segment>) returns (created: seq<Chapter>)
      modifies this
      requires Valid() && documentId in Keys(documents, DocumentKey)
      ensures Valid()
      ensures created == ChapterRows(documentId, segs, old(nextId))
      ensures chapters == old(chapters) + created && nextId == old(nextId) + |segs|
      ensures documents == old(documents) && chunks == old(chunks) && quotes == old(quotes)
    {
      var first := nextId;
      created := [];
      var i := 0;
      while i < |segs|
        invariant 0 <= i <= |segs|
        invariant Valid()
        invariant created == ChapterRows(documentId, segs[..i], first)
        invariant chapters == old(chapters) + created && nextId == first + i
        invariant documents == old(documents) && chunks == old(chunks) && quotes == old(quotes)
      {
        var row := ChapterRow(documentId, nextId, i + 1, segs[i]);
        AddChapterStep(State(), nextId, old(chapters), documentId, segs, i, first, created, row);
        Commit(Tables(documents, chapters + [row], chunks, quotes), nextId + 1);
        created := created + [row];
        i := i + 1;
      }
      assert segs[..|segs|] == segs;
    }

    /** The inner chunk loop for one chapter: indices from 0, no point id yet. */
    method AddChunkRows(chapterId: nat, pieces: seq<string>)
      modifies this
      requires Valid() && chapterId in Keys(chapters, ChapterKey)
      ensures Valid()
      ensures chunks == old(chunks) + ChunkRows(chapterId, pieces, old(nextId))
      ensures nextId == old(nextId) + |pieces|
      ensures documents == old(documents) && chapters == old(chapters) && quotes == old(quotes)
    {
      var first := nextId;
      var added: seq<Chunk> := [];
      var j := 0;
      while j < |pieces|
        invariant 0 <= j <= |pieces|
        invariant Valid()
        invariant added == ChunkRows(chapterId, pieces[..j], first)
        invariant chunks == old(chunks) + added && nextId == first + j
        invariant documents == old(documents) && chapters == old(chapters) && quotes == old(quotes)
      {
        var row := Chunk(nextId, chapterId, j, None, pieces[j]);
        AddChunkStep(State(), nextId, old(chunks), chapterId, pieces, j, first, added, row);
        Commit(Tables(documents, chapters, chunks + [row], quotes), nextId + 1);
        added := added + [row];
        j := j + 1;
      }
      assert pieces[..|pieces|] == pieces;
    }

    /** The chunk loop over the new chapters; returns the running total of chunks. */
    method AddChunks(created: seq<Chapter>, bodies: seq<string>) returns (total: nat)
      modifies this
      requires |created| == |bodies|
      requires Valid() && forall i :: 0 <= i < |created| ==> created[i].id in Keys(chapters, ChapterKey)
      ensures Valid()
      ensures chunks == old(chunks) + DocumentChunkRows(created, BodyPieces(bodies), old(nextId))
      ensures total == ChunkTotal(BodyPieces(bodies)) && nextId == old(nextId) + total
      ensures documents == old(documents) && chapters == old(chapters) && quotes == old(quotes)
    {
      var first := nextId;
      ghost var plan := BodyPieces(bodies);
      total := 0;
      ghost var rows: seq<Chunk> := [];
      var i := 0;
      while i < |created|
        invariant 0 <= i <= |created|
        invariant Valid()
        invariant rows == DocumentChunkRows(created[..i], plan[..i], first)
        invariant chunks == old(chunks) + rows && total == |rows| && nextId == first + total
        invariant documents == old(documents) && chapters == old(chapters) && quotes == old(quotes)
      {
        var pieces := ChapterPieces(bodies, i);
        ghost var before := nextId;
        AddChunkRows(created[i].id, pieces);
        rows := AddChunksStep(old(chunks), created, plan, i, first, rows, before, chunks);
        total := total + |pieces|;
        i := i + 1;
      }
      assert created[..|created|] == created && plan[..|plan|] == plan;
    }

    /** The three relational steps of an upload: the document row, its chapter rows, then its chunk rows. */
    method WriteRows(segs: seq<Chunking.Segment>, title: string, description: Option<string>,
                     source: Option<string>, digest: string)
      returns (id: nat, total: nat)
      modifies this
      requires Valid()
      ensures Valid()
      ensures id == old(nextId)
      ensures documents == old(documents) + [PlanUpload(id, segs, title, description, source, digest).document]
      ensures chapters == old(chapters) + PlanChapters(id, segs)
      ensures chunks == old(chunks) + PlanChunkRows(id, segs)
      ensures quotes == old(quotes) && total == |PlanChunkRows(id, segs)|
      ensures nextId == id + 1 + |segs| + total
    {
      id := AddDocument(Document(0, title, description, Some(FilePath(digest)), source));
      assert documents[|documents| - 1] in documents;
      ghost var docs := documents;
      var created := AddChapters(id, segs);
      assert created == PlanChapters(id, segs);
      assert chapters == old(chapters) + PlanChapters(id, segs);
      KeysSuffix(old(chapters), created);
      ghost var n0 := nextId;
      assert n0 == id + 1 + |segs|;
      assert chunks == old(chunks);
      total := AddChunks(created, Bodies(segs));
      PlanChunkRowsIs(id, segs, created, n0);
    }

    /**
     * The upload after validation: write the rows, select the document's chunks,
     * embed their texts, upsert one point per chunk, then sync the point ids.
     */
    method Ingest(segs: seq<Chunking.Segment>, title: string, description: Option<string>,
                  source: Option<string>, digest: string, collectionReady: bool,
                  embed: seq<string> -> Option<seq<seq<real>>>, upsertAccepted: bool)
      returns (r: Result<UploadReceipt, UploadError>, upsert: Option<seq<Vector.Point<Payload>>>)
      modifies this
      requires Valid()
      ensures Valid()
      ensures Uploaded(old(State()), old(nextId), State(), nextId, segs, title, description, source, digest,
                       collectionReady, embed, upsertAccepted, r, upsert)
    {
      ghost var t0 := State();
      ghost var n0 := nextId;
      var from := |chunks|;
      var id, total := WriteRows(segs, title, description, source, digest);
      PlanSelected(t0, n0, segs, title, description, source, digest, State());
      var created := DocumentChunks(State(), id);
      if !collectionReady {
        return Failure(VectorStoreFailed), None;
      }
      var vectors := embed(Texts(created));
      if vectors.None? {
        return Failure(VectorStoreFailed), None;
      }
      var ids := IdList(created);
      var payloads := BuildPayloads(id, created);
      upsert := Vector.UpsertPoints(ids, vectors.value, payloads);
      if upsert.Some? {
        ZippedUpsert(upsert.value, id, created, ids, vectors.value, payloads);
        if !upsertAccepted {
          return Failure(VectorStoreFailed), upsert;
        }
      }
      ghost var before := chunks;
      SyncPointIds(from);
      assert before[..from] == t0.chunks && before[from..] == created;
      r := Success(UploadReceipt(id, |segs|, total));
    }

    /**
     * `upload_document`: extract the text, validate the document metadata
     * (nothing is written when it is invalid), detect the chapters and ingest.
     */
    method UploadDocument(content: seq<Utf8.byte>, title: string, description: Option<string>,
                          source: Option<string>, digest: string, pdf: Extractor, docx: Extractor,
                          collectionReady: bool, embed: seq<string> -> Option<seq<seq<real>>>, upsertAccepted: bool)
      returns (r: Result<UploadReceipt, UploadError>, upsert: Option<seq<Vector.Point<Payload>>>)
      modifies this
      requires Valid()
      ensures Valid()
      ensures !ValidMetadata(title, digest, source) ==>
        r == Failure(InvalidMetadata) && upsert.None? && State() == old(State()) && nextId == old(nextId)
      ensures ValidMetadata(title, digest, source) ==>
        Uploaded(old(State()), old(nextId), State(), nextId, Chunking.SplitChapters(ExtractText(content, pdf, docx)),
                 title, description, source, digest, collectionReady, embed, upsertAccepted, r, upsert)
    {
      var text := ExtractText(content, pdf, docx);
      if !ValidMetadata(title, digest, source) {
        return Failure(InvalidMetadata), None;
      }
      var segs := Chunking.NaiveSplitChapters(text);
      r, upsert := Ingest(segs, title, description, source, digest, collectionReady, embed, upsertAccepted);
    }

    // -------------------------------------------------------------------------
    // Deletion

    /**
     * `delete_document`: an unknown id is refused before anything happens;
     * otherwise the vector store is asked to drop the document's chunk ids
     * (only when there are some; its failures are ignored), then the quotes,
     * chunks, chapters and the document row go, in that order.
     */
    method DeleteDocument(d: nat) returns (r: Result<nat, DeleteError>, vectorCall: Option<seq<int>>)
      modifies this
      requires Valid()
      ensures Valid() && nextId == old(nextId)
      ensures r.Failure? <==> d !in Keys(old(documents), DocumentKey)
      ensures r.Failure? ==> r.error == NotFound(d) && vectorCall.None? && State() == old(State())
      ensures r.Success? ==>
        r.value == d && vectorCall == Vector.DeleteCall(IdList(DocumentChunks(old(State()), d)))
        && State() == Cascade(old(State()), d)
    {
      if !HasDocument(documents, d) {
        return Failure(NotFound(d)), None;
      }
      vectorCall := Vector.DeleteCall(IdList(DocumentChunks(State(), d)));
      RemoveDocument(d);
      r := Success(d);
    }

    /** The manual cascade: quotes, chunks, chapters, then the document row. */
    method RemoveDocument(d: nat)
      modifies this
      requires Valid()
      ensures Valid() && nextId == old(nextId)
      ensures State() == Cascade(old(State()), d)
    {
      var r := CascadeRows(State(), d);
      CascadeResultValid(State(), nextId, d, r);
      Commit(r, nextId);
    }

    /** Writes a consistent set of tables and the id counter back. */
    method Commit(r: Tables, next: nat)
      modifies this
      requires ValidTables(r, next)
      ensures Valid() && State() == r && nextId == next
    {
      documents, chapters, chunks, quotes := r.documents, r.chapters, r.chunks, r.quotes;
      nextId := next;
    }

    /** `c.qdrant_point_id = str(c.id)` for every row from index `from` on. */
    method SyncPointIds(from: nat)
      modifies this
      requires Valid() && from <= |chunks|
      ensures Valid()
      ensures chunks == old(chunks[..from]) + Synced(old(chunks[from..]))
      ensures documents == old(documents) && chapters == old(chapters) && quotes == old(quotes)
      ensures nextId == old(nextId)
    {
      var rest := chunks[from..];
      var synced: seq<Chunk> := [];
      var k := 0;
      while k < |rest|
        invariant 0 <= k <= |rest|
        invariant |synced| == k
        invariant forall i :: 0 <= i < k ==> synced[i] == WithPointId(rest[i])
      {
        synced := synced + [WithPointId(rest[k])];
        k := k + 1;
      }
      assert synced == Synced(rest);
      SyncValid(State(), nextId, from, synced);
      chunks := chunks[..from] + synced;
    }
  }

  lemma PlanChunkRowsIs(id: nat, segs: seq<Chunking.Segment>, created: seq<Chapter>, first: nat)
    requires created == PlanChapters(id, segs) && first == id + 1 + |segs|
    ensures DocumentChunkRows(created, BodyPieces(Bodies(segs)), first) == PlanChunkRows(id, segs)
  {
  }

  /** The select after the writes returns exactly the planned chunk rows, in order. */
  lemma PlanSelected(t0: Tables, n0: nat, segs: seq<Chunking.Segment>, title: string, description: Option<string>,
                     source: Option<string>, digest: string, t: Tables)
    requires ValidTables(t0, n0)
    requires t.chapters == t0.chapters + PlanChapters(n0, segs) && t.chunks == t0.chunks + PlanChunkRows(n0, segs)
    ensures DocumentChunks(t, n0) == PlanChunkRows(n0, segs)
  {
    UploadPlanSpec(n0, segs);
    NewChunksSelected(t0, n0, n0, PlanChapters(n0, segs), PlanChunkRows(n0, segs));
  }

  /** The four deletion loops, quotes first and the document row last. */
  method CascadeRows(t: Tables, d: nat) returns (r: Tables)
    ensures r == Cascade(t, d)
  {
    var chapterIds := ChaptersOf(t.chapters, d);
    var chunkIds := IdSet(DocumentChunks(t, d));
    var quotes := FilterRows(t.quotes, OutsideChunks(chunkIds));
    var chunks := FilterRows(t.chunks, OutsideChapters(chapterIds));
    var chapters := FilterRows(t.chapters, NotOfDocument(d));
    var documents := FilterRows(t.documents, NotDocument(d));
    r := Tables(documents, chapters, chunks, quotes);
  }

  lemma CascadeResultValid(t: Tables, next: nat, d: nat, r: Tables)
    requires ValidTables(t, next) && r == Cascade(t, d)
    ensures ValidTables(r, next)
  {
    CascadeValid(t, next, d);
  }

  /** `select(Document).where(Document.id == d).first()` found a row. */
  function HasDocument(documents: seq<Document>, d: nat): (b: bool)
    ensures b <==> d in Keys(documents, DocumentKey)
  {
    DocumentLookup(documents, d);
    exists i :: 0 <= i < |documents| && documents[i].id == d
  }

  lemma DocumentLookup(documents: seq<Document>, d: nat)
    ensures (exists i :: 0 <= i < |documents| && documents[i].id == d) <==> d in Keys(documents, DocumentKey)
  {
    if d in Keys(documents, DocumentKey) {
      var x :| x in documents && DocumentKey(x) == d;
      var i :| 0 <= i < |documents| && documents[i] == x;
    }
    forall i | 0 <= i < |documents| && documents[i].id == d
      ensures d in Keys(documents, DocumentKey)
    {
      assert documents[i] in documents;
    }
  }

  /** Deleting the rows a condition rejects, one at a time, in table order. */
  method FilterRows<T>(s: seq<T>, keep: T -> bool) returns (kept: seq<T>)
    ensures kept == Filter(s, keep)
  {
    kept := [];
    var k := 0;
    while k < |s|
      invariant 0 <= k <= |s|
      invariant kept == Filter(s[..k], keep)
    {
      FilterSnoc(s, k, keep);
      if keep(s[k]) {
        kept := kept + [s[k]];
      }
      k := k + 1;
    }
    assert s[..|s|] == s;
  }

  /** The payload loop: one payload per selected chunk, in order. */
  method BuildPayloads(documentId: nat, cs: seq<Chunk>) returns (ps: seq<Payload>)
    ensures |ps| == |cs|
    ensures forall i :: 0 <= i < |cs| ==> ps[i] == PayloadOf(documentId, cs[i])
  {
    ps := [];
    var i := 0;
    while i < |cs|
      invariant 0 <= i <= |cs|
      invariant |ps| == i
      invariant forall k :: 0 <= k < i ==> ps[k] == PayloadOf(documentId, cs[k])
    {
      ps := ps + [PayloadOf(documentId, cs[i])];
      i := i + 1;
    }
  }

  /** Zipping the ids, vectors and payloads of the chunks gives one point per chunk that has a vector. */
  lemma ZippedUpsert(points: seq<Vector.Point<Payload>>, documentId: nat, cs: seq<Chunk>, ids: seq<int>,
                     vectors: seq<seq<real>>, payloads: seq<Payload>)
    requires ids == IdList(cs) && |payloads| == |cs|
    requires forall i :: 0 <= i < |cs| ==> payloads[i] == PayloadOf(documentId, cs[i])
    requires Vector.Zipped(points, ids, vectors, payloads)
    ensures UpsertOf(points, documentId, cs, vectors)
  {
  }

  lemma KeysSuffix(olds: seq<Chapter>, news: seq<Chapter>)
    ensures forall i :: 0 <= i < |news| ==> news[i].id in Keys(olds + news, ChapterKey)
  {
    forall i | 0 <= i < |news|
      ensures news[i].id in Keys(olds + news, ChapterKey)
    {
      assert news[i] in olds + news;
      assert ChapterKey(news[i]) in Keys(olds + news, ChapterKey);
    }
  }

  /** One turn of the chapter loop: the row is the next planned chapter and keeps the tables consistent. */
  lemma AddChapterStep(t: Tables, next: nat, base: seq<Chapter>, documentId: nat, segs: seq<Chunking.Segment>,
                       i: nat, first: nat, created: seq<Chapter>, row: Chapter)
    requires ValidTables(t, next) && documentId in Keys(t.documents, DocumentKey)
    requires i < |segs| && next == first + i
    requires created == ChapterRows(documentId, segs[..i], first) && t.chapters == base + created
    requires row == ChapterRow(documentId, next, i + 1, segs[i])
    ensures ValidTables(Tables(t.documents, t.chapters + [row], t.chunks, t.quotes), next + 1)
    ensures created + [row] == ChapterRows(documentId, segs[..i + 1], first)
    ensures t.chapters + [row] == base + (created + [row])
  {
    ChapterRowsSnoc(documentId, segs, i, first);
    AddChapterValid(t, next, row);
    AppendAssoc(base, created, [row]);
  }

  /** One turn of the inner chunk loop. */
  lemma AddChunkStep(t: Tables, next: nat, base: seq<Chunk>, chapterId: nat, pieces: seq<string>,
                     j: nat, first: nat, added: seq<Chunk>, row: Chunk)
    requires ValidTables(t, next) && chapterId in Keys(t.chapters, ChapterKey)
    requires j < |pieces| && next == first + j
    requires added == ChunkRows(chapterId, pieces[..j], first) && t.chunks == base + added
    requires row == Chunk(next, chapterId, j, None, pieces[j])
    ensures ValidTables(Tables(t.documents, t.chapters, t.chunks + [row], t.quotes), next + 1)
    ensures added + [row] == ChunkRows(chapterId, pieces[..j + 1], first)
    ensures t.chunks + [row] == base + (added + [row])
  {
    ChunkRowsSnoc(chapterId, pieces, j, first);
    AddChunkValid(t, next, row);
    AppendAssoc(base, added, [row]);
  }

  lemma ChapterRowsSnoc(documentId: nat, segs: seq<Chunking.Segment>, i: nat, first: nat)
    requires i < |segs|
    ensures ChapterRows(documentId, segs[..i + 1], first)
      == ChapterRows(documentId, segs[..i], first) + [ChapterRow(documentId, first + i, i + 1, segs[i])]
  {
    assert segs[..i + 1][..i] == segs[..i];
  }

  lemma ChunkRowsSnoc(chapterId: nat, pieces: seq<string>, j: nat, first: nat)
    requires j < |pieces|
    ensures ChunkRows(chapterId, pieces[..j + 1], first)
      == ChunkRows(chapterId, pieces[..j], first) + [Chunk(first + j, chapterId, j, None, pieces[j])]
  {
    assert pieces[..j + 1][..j] == pieces[..j];
  }

  /** chunk_by_chars on the body of chapter i. */
  method ChapterPieces(bodies: seq<string>, i: nat) returns (pieces: seq<string>)
    requires i < |bodies|
    ensures pieces == BodyPieces(bodies)[i]
  {
    pieces := Chunking.ChunkByChars(bodies[i], ChunkMaxChars, ChunkOverlap);
  }

  /** One chapter of the chunk loop: its rows are the next slice of the document's chunk plan. */
  lemma AddChunksStep(base: seq<Chunk>, created: seq<Chapter>, plan: seq<seq<string>>, i: nat, first: nat,
                      rows: seq<Chunk>, before: nat, after: seq<Chunk>) returns (rows': seq<Chunk>)
    requires |created| == |plan| && i < |created|
    requires rows == DocumentChunkRows(created[..i], plan[..i], first)
    requires before == first + |rows|
    requires after == (base + rows) + ChunkRows(created[i].id, plan[i], before)
    ensures rows' == DocumentChunkRows(created[..i + 1], plan[..i + 1], first)
    ensures after == base + rows' && |rows'| == |rows| + |plan[i]|
  {
    var added := ChunkRows(created[i].id, plan[i], before);
    AppendAssoc(base, rows, added);
    DocumentChunkRowsStep(created, plan, i, first, rows, plan[i], added);
    rows' := rows + added;
  }

  lemma DocumentChunkRowsStep(created: seq<Chapter>, plan: seq<seq<string>>, i: nat, first: nat,
                              rows: seq<Chunk>, pieces: seq<string>, added: seq<Chunk>)
    requires |created| == |plan| && i < |created|
    requires rows == DocumentChunkRows(created[..i], plan[..i], first)
    requires pieces == plan[i]
    requires added == ChunkRows(created[i].id, pieces, first + |rows|)
    ensures rows + added == DocumentChunkRows(created[..i + 1], plan[..i + 1], first)
  {
    assert created[..i + 1][..i] == created[..i];
    assert plan[..i + 1][..i] == plan[..i];
  }
}
