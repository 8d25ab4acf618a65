# A verified model of the HCM202 RAG application's core

The application is a small retrieval-augmented question-answering site about
Hồ Chí Minh's thought. An administrator uploads documents (PDF or DOCX). The
back end splits each one into chapters at "Chương N" / "Chapter N" heading
lines, cuts every chapter into overlapping character windows, stores documents,
chapters and chunks in a relational database, and stores one embedding per
chunk in a vector store. A chat query embeds the question, retrieves the
nearest chunks, turns them into citation sources and a context text, and asks
an LLM for the answer. It also has article listings, request schemas,
coloured log lines, and a Next.js front end with mock data, pagination, a
linkifier for article bodies and a chat client.

The Dafny project models that logic, one module per source file:

| module | file | models |
|---|---|---|
| `Wrappers` | wrappers.dfy | `Option` and `Result` |
| `Text` | text.dfy | Python `strip`/`splitlines`, JS `trim`, ASCII case mapping, `str(n)` for naturals |
| `Chunking` | chunking.dfy | `naive_split_chapters` (a loop proved against a block-based reference definition) and `chunk_by_chars` (a sliding-window loop proved against a window function) |
| `Records` | records.dfy | the document, chapter, chunk and quote rows; filtering rows in table order |
| `Utf8` | utf8.dfy | `bytes.decode('utf-8', errors='ignore')`, with a decode-after-encode round trip |
| `Vector` | vector.dfy | the vector-store wrapper's decisions (distance name, zipped upsert, empty-input guards, top-k default, document filter, result shaping) |
| `Corpus` | corpus.dfy | `upload_document` and `delete_document`. The database is the class `CorpusStore`, with one sequence per table and a fresh-id counter. Its invariant `Valid()` says that ids are unique and that every foreign key resolves. |
| `Rag` | rag.dfy | building the context from the retrieved chunks, the answer fallback, `num_citations` and the debug block |
| `Schemas` | schemas.dfy | field defaults and bounds of the request and response schemas |
| `Article` | article.dfy | the article list page and its flags, the featured cap, the categories |
| `Color` | color.dfy | `colorize`, `color_print` and the `print_*` styles, as the strings they produce |
| `Mock` | mock.dfy | the mock-data helpers: `paginate`, the distinct categories and tags, document lookups, top sources |
| `Pagination` | pagination.dfy | the page count, Prev/Next enabling and the numbered buttons |
| `ArticleBody` | article_body.dfy | `linkify` (two `exec` loops proved against a two-phase tokenizer) and the paragraph split |
| `Chat` | chat.dfy | API-base normalisation, request and payload shaping, error messages, stream-event normalisation |

These are passed in as parameters:
- the database's ids, as a counter;
- the PDF and DOCX extractors;
- the MD5 digest;
- the embedding provider;
- the vector-store client;
- the LLM outcome;
- `RAG_TOP_K`, `QDRANT_DISTANCE` and `NEXT_PUBLIC_API_BASE`;
- the mock data tables.

## Model

| member | source | states |
|---|---|---|
| `Text.StripSpec` | be/app/utils/chunking.py:91 | Python `strip()` gives a result with no whitespace at either end. That result is the slice between the leading and the trailing whitespace runs, and it is empty exactly when the input is all whitespace. |
| `Text.StripStripped` | be/app/utils/chunking.py:91 | Stripping an already stripped string leaves it unchanged. |
| `Text.SplitLinesSpec` | be/app/utils/chunking.py:59 | `splitlines()` gives lines that hold no line break, and it gives no lines exactly for the empty text. |
| `Text.ParseNatToString` | be/app/services/corpus.py:160 | `str(id)` parses back to the id. |
| `Text.NatToStringInjective` | be/app/services/corpus.py:160 | Distinct ids have distinct decimal strings. |
| `Chunking.NaiveSplitChapters` | be/app/utils/chunking.py:57-77 | The line scanner returns exactly `SplitChapters(text)`, which is the reference definition built from the blocks of lines between headings. |
| `Chunking.SplitChapters` | be/app/utils/chunking.py:74-75 | The result is never empty. |
| `Chunking.BlocksHeading` | be/app/utils/chunking.py:65-69 | A heading line opens a new block, titled with the stripped line. |
| `Chunking.BlocksBody` | be/app/utils/chunking.py:70-71 | Any other line joins the current block. |
| `Chunking.BlocksCover` | be/app/utils/chunking.py:59-71 | In document order, the blocks hold exactly the non-heading lines. Their titles are "Mở đầu" followed by the stripped heading lines. There is one block per heading, plus one. |
| `Chunking.BlockLinesAreBody` | be/app/utils/chunking.py:64-71 | No heading line ends up in a block body. |
| `Chunking.SegmentCount` | be/app/utils/chunking.py:64-75 | There is exactly one segment per run of body lines, counting a body line that comes first or right after a heading line. So a heading followed directly by another heading, or by the end, adds none. With no body line there is the single fallback segment. There are never more than (number of heading lines + 1) segments. |
| `Chunking.DashEndsNumber` | be/app/utils/chunking.py:62 | "Chương 1—Lịch sử" is a heading line, because `\b` holds between the digit and the dash. |
| `Chunking.ArabicIndicNumber` | be/app/utils/chunking.py:62 | "Chương ١" (ARABIC-INDIC DIGIT ONE) is a heading line, because `\d` on str accepts every Unicode decimal digit. |
| `Chunking.LetterContinuesNumber` | be/app/utils/chunking.py:62 | "Chương 1a" is not a heading line, because there is no `\b` between a digit and a letter. |
| `Chunking.NoSegmentsIffNoBody` | be/app/utils/chunking.py:66-73 | No segment is flushed exactly when the text has no body line. |
| `Chunking.FallbackExactly` | be/app/utils/chunking.py:72-75 | The result is exactly `[("Nội dung", text)]`, with the text unstripped, if and only if every line is a heading line (the empty text included). |
| `Chunking.NoHeadingSingleSegment` | be/app/utils/chunking.py:62-73 | A non-empty text with no heading line gives the single segment ("Mở đầu", the lines joined by "\n" and stripped). |
| `Chunking.BlockTitles` | be/app/utils/chunking.py:62-69 | Every block title is "Mở đầu" or a stripped heading line. |
| `Chunking.TitleNotContent` | be/app/utils/chunking.py:62-75 | A flushed segment's title is never the fallback title "Nội dung". |
| `Chunking.SegmentTitles` | be/app/utils/chunking.py:66-73 | Every flushed segment has a stripped body, and its title is "Mở đầu" or a stripped heading line. |
| `Chunking.SegmentShape` | be/app/utils/chunking.py:57-77 | The result is either the fallback, or segments whose bodies are stripped and whose titles are allowed titles. |
| `Chunking.ChunkByChars` | be/app/utils/chunking.py:80-93 | The window loop returns exactly `ChunksOf(text, maxChars, overlap)`: the windows, stripped, with the blank ones dropped. |
| `Chunking.WindowsMid` | be/app/utils/chunking.py:85-90 | A window that stops short of the end is `text[start..start+maxChars]`, and the next one starts `overlap` characters before its end. |
| `Chunking.WindowsLast` | be/app/utils/chunking.py:85-89 | The window that reaches the end is the last one, and it ends at `len(text)`. |
| `Chunking.WindowsShape` | be/app/utils/chunking.py:85-90 | Closed form: window k starts at k·(maxChars − overlap). Every non-final window has maxChars characters, and the final one ends at `len(text)`. |
| `Chunking.WindowSizes` | be/app/utils/chunking.py:85-90 | Every non-final window has exactly maxChars characters. The final one has between 1 and maxChars. |
| `Chunking.WindowOverlap` | be/app/utils/chunking.py:86-90 | Consecutive windows share exactly `overlap` characters. |
| `Chunking.WindowsRoundTrip` | be/app/utils/chunking.py:82-90 | The first window, followed by every later window with its first `overlap` characters dropped, is the text. |
| `Chunking.StripNonBlankSpec` | be/app/utils/chunking.py:91 | Every kept chunk is non-empty and stripped, and there are no more chunks than windows. |
| `Chunking.ShortText` | be/app/utils/chunking.py:83-91 | The empty text gives `[]`. A text of at most maxChars characters gives `[text.strip()]`, or `[]` when it is blank. |
| `Utf8.DecodeEncode` | be/app/services/corpus.py:70 | Decoding with `errors='ignore'` undoes UTF-8 encoding. |
| `Utf8.StepEncodeChar` | be/app/services/corpus.py:70 | One decoding step on an encoded character gives that character back and consumes exactly its bytes. |
| `Utf8.DecodeLength` | be/app/services/corpus.py:70 | Dropping invalid bytes never gives more characters than there were bytes. |
| `Utf8.DecodeAscii` | be/app/services/corpus.py:70 | ASCII bytes decode one byte to one character. |
| `Vector.NormalizeDistance` | be/app/services/vector.py:52-55 | The distance is DOT or EUCLID exactly when the upper-cased name is "DOT" or "EUCLID". Anything else becomes COSINE. |
| `Vector.DistanceIgnoresCase` | be/app/services/vector.py:52 | Names equal up to ASCII case select the same distance. |
| `Vector.DistanceDefaults` | be/app/services/vector.py:52-55 | A missing or empty name gives COSINE, "dot" gives DOT, "Euclid" gives EUCLID, and an unknown name gives COSINE. |
| `Vector.EnsureCollection` | be/app/services/vector.py:45-59 | The collection is created exactly when the existence check did not answer yes; a check that raised counts as absent. It is created with the normalised distance. |
| `Vector.UpsertPoints` | be/app/services/vector.py:68-75 | No call is made exactly when the zip is empty. Otherwise the points are the zip of ids, vectors and payloads, as long as the shortest input and in input order. |
| `Vector.DeleteCall` | be/app/services/vector.py:78-83 | No call is made exactly when the id list is empty. Otherwise the listed ids are deleted. |
| `Vector.TopK` | be/app/services/vector.py:95 | A given non-zero top-k is used. A missing or zero one falls back to the default. |
| `Vector.SearchFilter` | be/app/services/vector.py:96-98 | A filter is attached exactly when the document id list is given and non-empty. It then carries that list. |
| `Vector.FilterAdmits` | be/app/services/vector.py:96-98 | A missing or empty list admits every document. Otherwise exactly the listed documents are admitted. |
| `Vector.Search` | be/app/services/vector.py:95-114 | The request carries the query vector, the top-k and the filter. The output has one (id, score) pair per client result, in client order. |
| `Corpus.PdfHeaderRoutes` | be/app/services/corpus.py:60-72 | Bytes starting with "%PDF" go to the PDF extractor, and to the UTF-8 fallback when that extractor raises. |
| `Corpus.FallbackKeepsText` | be/app/services/corpus.py:64-72 | Plain UTF-8 text that the DOCX extractor rejects comes through the fallback unchanged. |
| `Corpus.Take` | be/app/services/corpus.py:94 | `s[:n]` has length min(len, n) and is a prefix of `s`. |
| `Corpus.ChapterTitleBounds` | be/app/services/corpus.py:94 | A chapter title is never empty. A non-empty segment title is cut to its first 255 characters. |
| `Corpus.SegmentTitlesNonEmpty` | be/app/services/corpus.py:90-94 | Detected segments always have a non-empty title, so the "Chương N" fallback is never taken. |
| `Corpus.SummaryShape` | be/app/services/corpus.py:96 | A body of up to 200 characters is its own summary. A longer one becomes its first 200 characters plus "...". |
| `Corpus.ChapterRowsSpec` | be/app/services/corpus.py:90-100 | Chapter row i is segment i's chapter, with ordering i + 1 and the i-th fresh id. |
| `Corpus.ChunkRowsSpec` | be/app/services/corpus.py:111-121 | Chunk row j of a chapter has index j, the j-th fresh id, the j-th piece and no point id. |
| `Corpus.BodyPiecesReal` | be/app/services/corpus.py:111 | Every chunk text is non-empty and stripped. |
| `Corpus.DocumentChunkRowsSpec` | be/app/services/corpus.py:110-121 | Every planned chunk row has the next fresh id, belongs to one of the new chapters and holds a real piece. |
| `Corpus.UploadPlanSpec` | be/app/services/corpus.py:90-121 | The rows of an upload: one chapter per segment, numbered from 1, then the chunk rows with the following ids, each referencing one of those chapters. |
| `Corpus.SyncedSpec` | be/app/services/corpus.py:159-161 | After syncing, every point id is the decimal form of its chunk id and parses back to it. Nothing else about the row changes. |
| `Corpus.PointIdsDistinct` | be/app/services/corpus.py:160 | Distinct chunk ids get distinct point ids. |
| `Corpus.AddDocumentValid` | be/app/services/corpus.py:82-85 | Appending a document row with the fresh id keeps the tables consistent. |
| `Corpus.AddChapterValid` | be/app/services/corpus.py:98-99 | Appending a chapter of an existing document with the fresh id keeps the tables consistent. |
| `Corpus.AddChunkValid` | be/app/services/corpus.py:119-120 | Appending a chunk of an existing chapter with the fresh id keeps the tables consistent. |
| `Corpus.SyncValid` | be/app/services/corpus.py:159-163 | Rewriting point ids keeps every key and link. |
| `Corpus.CascadeRemovesExactly` | be/app/services/corpus.py:206-230 | After the cascade nothing of the document is left. A row survives exactly when it does not belong to the document. |
| `Corpus.DropQuotesValid` | be/app/services/corpus.py:207-210 | Deleting quotes never leaves a dangling reference. |
| `Corpus.DropChunksValid` | be/app/services/corpus.py:214-217 | Deleting chunks that no remaining quote references keeps the tables consistent. |
| `Corpus.DropChaptersValid` | be/app/services/corpus.py:221-224 | Deleting chapters that no remaining chunk references keeps the tables consistent. |
| `Corpus.DropDocumentsValid` | be/app/services/corpus.py:228-229 | Deleting a document that no remaining chapter references keeps the tables consistent. |
| `Corpus.DropRowsOfChaptersValid` | be/app/services/corpus.py:206-218 | The first two steps (the document's quotes, then its chunks) keep every foreign key resolved. |
| `Corpus.CascadeValid` | be/app/services/corpus.py:205-230 | In the source's order (quotes, chunks, chapters, document), the cascade leaves no dangling reference. |
| `Corpus.NewChunksSelected` | be/app/services/corpus.py:127-128 | After the writes, the chunks joined to the new document are exactly the rows just appended for it, in order. |
| `Corpus.PlanSelected` | be/app/services/corpus.py:126-128 | The select after the writes returns exactly the planned chunk rows, in id order. |
| `Corpus.UploadedChunks` | be/app/services/corpus.py:126-163 | After a successful upload the document's chunks are its planned rows, in order. Each now carries its own id as its point id. |
| `Corpus.IdList` | be/app/services/corpus.py:140 | The vector ids are the chunk ids, in chunk order. |
| `Corpus.BuildPayloads` | be/app/services/corpus.py:141-151 | There is one payload per selected chunk, in order. Each carries the new document's id and the chunk's chapter id, id and index. |
| `Corpus.ZippedUpsert` | be/app/services/corpus.py:140-154 | Zipping ids, vectors and payloads gives one point per chunk that has a vector. Each point's id is its chunk id and its payload is that chunk's payload. |
| `Corpus.HasDocument` | be/app/services/corpus.py:182-185 | The lookup succeeds exactly when some document row has the id. |
| `Corpus.DocumentLookup` | be/app/services/corpus.py:182-183 | A row with the id exists exactly when the id is a document key. |
| `Corpus.FilterRows` | be/app/services/corpus.py:207-224 | The deletion loop keeps exactly the rows the condition keeps, in table order. |
| `Corpus.CascadeRows` | be/app/services/corpus.py:206-229 | The four deletion loops compute `Cascade(t, d)`. |
| `Corpus.CascadeResultValid` | be/app/services/corpus.py:205-230 | The cascade's result is consistent. |
| `Corpus.CorpusStore.constructor` | be/app/services/corpus.py:74 | A store starts from any consistent set of tables. |
| `Corpus.CorpusStore.AddDocument` | be/app/services/corpus.py:76-85 | The document row gets the fresh id and is appended. Nothing else changes, and the store stays valid. |
| `Corpus.CorpusStore.AddChapters` | be/app/services/corpus.py:89-102 | The chapter loop appends exactly `ChapterRows(documentId, segs, firstId)`, uses one id per segment, leaves the other tables alone and keeps the store valid. |
| `Corpus.CorpusStore.AddChunkRows` | be/app/services/corpus.py:111-121 | One chapter's inner loop appends exactly `ChunkRows(chapterId, pieces, firstId)`, using one id per piece. |
| `Corpus.CorpusStore.AddChunks` | be/app/services/corpus.py:109-123 | The chunk loop appends exactly the document's chunk plan and returns the total number of chunks. |
| `Corpus.CorpusStore.WriteRows` | be/app/services/corpus.py:74-124 | The document row, then its chapters, then its chunks are committed, exactly as planned, with consecutive fresh ids. |
| `Corpus.CorpusStore.SyncPointIds` | be/app/services/corpus.py:157-163 | From the given row on, every chunk gets `str(id)` as its point id. Nothing else changes. |
| `Corpus.CorpusStore.Ingest` | be/app/services/corpus.py:74-172 | `Uploaded` holds: the planned rows are always committed. The vector store is reached when the collection is ready and embedding succeeds, and the upsert carries one point per chunk. Point ids are synced, and the receipt (document id, chapter count, chunk count) returned, only on success. A failure after the writes leaves the committed rows in place. |
| `Corpus.CorpusStore.UploadDocument` | be/app/services/corpus.py:42-172 | Invalid metadata (title, file path or source too long) fails before any write. Otherwise the extracted text's segments are ingested as `Uploaded` describes. |
| `Corpus.CorpusStore.DeleteDocument` | be/app/services/corpus.py:174-233 | An unknown id fails with not-found before anything changes. Otherwise the vector delete call is made for the document's chunk ids (none when there are none), the tables become `Cascade(old, d)`, and the id is echoed. |
| `Corpus.CorpusStore.RemoveDocument` | be/app/services/corpus.py:205-230 | The manual cascade leaves the tables equal to `Cascade(old, d)` and valid. |
| `Rag.ScoreMapEmpty` | be/app/services/rag.py:84-90 | The score map is empty exactly when nothing was retrieved. |
| `Rag.ScoreMapKeys` | be/app/services/rag.py:84-88 | The ids in the score map are exactly the retrieved ids. |
| `Rag.ScoreMapLastWins` | be/app/services/rag.py:84 | With duplicate ids, an id's score is that of its last occurrence. |
| `Rag.SelectedSpec` | be/app/services/rag.py:91-92 | A chunk is selected exactly when it is in the table and its id was retrieved. |
| `Rag.FindChapter` | be/app/services/rag.py:96 | The chapter found is a row with the chunk's chapter id. |
| `Rag.FindChapterFound` | be/app/services/rag.py:96-97 | Under the foreign key, a chunk's chapter is always found. |
| `Rag.SnippetSpec` | be/app/services/rag.py:100-110 | If the first quote has text, the snippet is that text. Otherwise it is the chunk text, cut to 300 characters plus "..." when longer. |
| `Rag.ContextFromChunks` | be/app/services/rag.py:78-125 | Nothing retrieved gives no source and an empty context. Otherwise there is one source per selected chunk, in table order, each citing the chunk's document, chapter, page, snippet and score, and the context is the chunk texts joined by "\n\n". |
| `Rag.SourcesRetrieved` | be/app/services/rag.py:84-118 | Every source cites a retrieved chunk, with the score of that id's last retrieval. |
| `Rag.GenerateAnswer` | be/app/services/rag.py:127-137 | The answer is the model's content. A call that raised gives the fixed apology. |
| `Rag.NumCitations` | be/app/services/rag.py:62 | The count is the minimum of the number of sources and `RAG_TOP_K`. |
| `Rag.Query` | be/app/services/rag.py:33-76 | The search uses the question's embedding and the default top-k. The LLM is always asked (with an empty context when nothing was found). The response carries the sources and `num_citations`. The debug block is present exactly when requested and lists the retrieved ids in retrieval order. |
| `Schemas.AboutAppend` | be/app/schemas/common_types.py:28-32 | The errors of two fields together concern exactly what either part concerns. |
| `Schemas.CheckLength` | be/app/schemas/common_types.py:75 | A length bound passes exactly when the length is within it. Every error names the field. |
| `Schemas.CheckRange` | be/app/schemas/common_types.py:31-32 | A numeric bound passes exactly when the value is within it. |
| `Schemas.RequiredText` | be/app/schemas/common_types.py:75 | A required text field passes exactly when it is given and within its bounds. |
| `Schemas.ValidatePagination` | be/app/schemas/common_types.py:31-32 | The params are accepted exactly when page ≥ 1 and 1 ≤ limit ≤ 100, with defaults 1 and 10. Each failure names exactly the offending fields. |
| `Schemas.ValidateChatQuery` | be/app/schemas/common_types.py:75-76 | A query is accepted exactly when its question has 1 to 1000 characters. `include_debug` defaults to false. |
| `Schemas.ValidateChatReport` | be/app/schemas/common_types.py:82-85 | A report is accepted exactly when `reference_id` is given and the reason has 1 to 500 characters. `source` defaults to "chat_message". |
| `Schemas.ValidateHighlight` | be/app/schemas/common_types.py:133-137 | A highlight is accepted exactly when `document_id` is given and the text is non-empty. |
| `Schemas.MakeApiResponse` | be/app/schemas/common_types.py:15-16 | The status defaults to "ok". |
| `Schemas.MakeErrorResponse` | be/app/schemas/common_types.py:22-23 | The status defaults to "error", and the message is required. |
| `Schemas.MakePaginationResponse` | be/app/schemas/common_types.py:38-42 | page, limit and total are required, and both flags default to false. |
| `Schemas.DefaultsAccepted` | be/app/schemas/common_types.py:31-85 | Omitting every optional field is accepted and yields the declared defaults. |
| `Schemas.RevalidateAccepted` | be/app/schemas/common_types.py:31-76 | An accepted record's fields are accepted again and give it back. |
| `Schemas.QuestionBounds` | be/app/schemas/common_types.py:75 | Lengths 0 and 1001 are refused, and 1000 is accepted. |
| `Article.InsertPermutes` | be/app/services/article.py:42 | Insertion neither loses nor adds a post. |
| `Article.InsertSorted` | be/app/services/article.py:42 | Insertion keeps a newest-first list newest first. |
| `Article.SortSpec` | be/app/services/article.py:42 | `ORDER BY created_at DESC` is newest first and a permutation of the table. |
| `Article.Window` | be/app/services/article.py:43-44 | `OFFSET o LIMIT l` holds the rows from o on, at most l of them. |
| `Article.PageStart` | be/app/services/article.py:39 | The offset is (page − 1) · limit. |
| `Article.ArticleList` | be/app/services/article.py:35-70 | The page holds min(limit, total − offset) articles, taken from the newest-first order at the offset. The block echoes page, limit and total. `has_next` holds iff offset + limit < total, and `has_prev` iff page > 1. |
| `Article.HasNextIffNextPage` | be/app/services/article.py:39-64 | `has_next` holds exactly when the next page is not empty. |
| `Article.PagesCover` | be/app/services/article.py:39-45 | The pages, taken in turn, list every row once, in order. |
| `Article.ListedPage` | be/app/services/article.py:39-58 | Each listed article is the corresponding row of the newest-first window. |
| `Article.FindArticle` | be/app/services/article.py:79-92 | The detail is that of the first post with the id. It is `None` exactly when no post has the id. |
| `Article.CategoriesNumbered` | be/app/services/article.py:102-110 | There are five categories, numbered 1 to 5 in order, with distinct names. |
| `Article.Featured` | be/app/services/article.py:117-134 | Each featured item is built from the featured query's posts, in order. |
| `Article.FeaturedSpec` | be/app/services/article.py:117-122 | At most 5 posts are shown, all featured and newest first. A featured post left out is no newer than any shown. |
| `Color.ColorCode` | be/app/utils/color.py:14-23 | Exactly the eight colour names have a code. |
| `Color.ColorCodesAreSgr` | be/app/utils/color.py:9-23 | Every colour, the bold style and the reset are SGR escapes. |
| `Color.Selected` | be/app/utils/color.py:31-32 | A missing or empty colour selects nothing. Otherwise the lower-cased name is looked up. |
| `Color.Colorize` | be/app/utils/color.py:26-37 | With no bold and no recognised colour the text is returned unchanged. Otherwise it is the bold code (if asked) before the colour code (if any), then the text, then the reset. |
| `Color.ColorizeIgnoresCase` | be/app/utils/color.py:32 | Colour names are matched without regard to case. |
| `Color.UnknownColorIgnored` | be/app/utils/color.py:32-34 | An unknown colour name acts as if no colour was given. |
| `Color.ColorizeEmbedsText` | be/app/utils/color.py:35-37 | Styled output is always escape codes, then the text unchanged, then the reset. |
| `Color.Formatted` | be/app/utils/color.py:49-51 | A non-empty prefix gives "[prefix] message". |
| `Color.Printed` | be/app/utils/color.py:40-52 | What is written is the colourised, formatted message followed by `end`. |
| `Color.ColorLine` | be/app/utils/color.py:80-87 | `print_color` and `printc` colourise without a prefix or bold. |
| `Color.StyledLine` | be/app/utils/color.py:49-52 | A prefixed, coloured line is the bold code (if asked), the colour code, then "[prefix] message", the reset and a newline. |
| `Color.LevelLines` | be/app/utils/color.py:55-77 | The exact line each level prints: cyan DEBUG, blue INFO, green OK, yellow WARN, bold red ERROR. |
| `Mock.Relative` | fe/services/mock.ts:246 | `slice` clamps its indices to 0..len, and a negative one counts from the end. |
| `Mock.Slice` | fe/services/mock.ts:246 | `s.slice(a, b)` is the sub-sequence between the resolved indices, or empty when they cross. |
| `Mock.SliceNonNegative` | fe/services/mock.ts:246 | With non-negative bounds a slice is the ordinary sub-sequence, shortened at the end. |
| `Mock.Paginate` | fe/services/mock.ts:244-248 | The items are the slice from (page − 1) · pageSize to one page further. The total is the number of items, and page and pageSize are echoed. |
| `Mock.PaginateBounds` | fe/services/mock.ts:245-246 | From page 1 on, a page holds at most pageSize items, taken from the start offset on, and none when the offset is past the end. |
| `Mock.PageZeroIsEmpty` | fe/services/mock.ts:245-246 | Page 0 gives an empty page: the negative start counts from the end. |
| `Mock.GetArticles` | fe/services/mock.ts:260-262 | The defaults are page 1 and page size 6. |
| `Mock.Distinct` | fe/services/mock.ts:251-252 | `Array.from(new Set(s))` holds exactly the values of s, and no more of them than s. |
| `Mock.FirstIndexIsFirst` | fe/services/mock.ts:251-252 | The first index of a value has no earlier occurrence of it. |
| `Mock.DistinctNoDuplicates` | fe/services/mock.ts:251-252 | Each distinct value is listed once. |
| `Mock.DistinctOrdered` | fe/services/mock.ts:251-252 | Distinct values come in order of first occurrence. |
| `Mock.DistinctSpec` | fe/services/mock.ts:251-252 | Together: exactly the values of s, each once, in order of first occurrence. |
| `Mock.FlattenMembers` | fe/services/mock.ts:256 | A value is in the `flatMap` exactly when it is in one of the lists. |
| `Mock.Categories` | fe/services/mock.ts:251 | The mapped categories are exactly the articles' categories. |
| `Mock.ListCategories` | fe/services/mock.ts:250-253 | Every article's category appears once, in order of first appearance. |
| `Mock.TagLists` | fe/services/mock.ts:256 | The tag lists are taken article by article. |
| `Mock.ListTags` | fe/services/mock.ts:255-258 | The flattened tags appear each once, in order of first appearance. |
| `Mock.ListTagsCover` | fe/services/mock.ts:255-258 | The tags listed are exactly those some article carries. |
| `Mock.DocumentsMeta` | fe/services/mock.ts:264-275 | Every document's metadata is listed, in order. |
| `Mock.MetaKeepsFields` | fe/services/mock.ts:265-274 | Only the chapters are dropped: the metadata plus the chapters give the document back. |
| `Mock.DocumentById` | fe/services/mock.ts:277-279 | The result is the first document with the id. It is undefined exactly when no document has it. |
| `Mock.TopSources` | fe/services/mock.ts:285-287 | The result is `sources.slice(0, limit)`, and the limit defaults to 5. |
| `Mock.TopSourcesSpec` | fe/services/mock.ts:285-287 | A non-negative limit gives the first min(limit, len) sources. A negative one drops that many from the end. |
| `Pagination.CeilDiv` | fe/components/base/Pagination.tsx:14 | `Math.ceil(total / pageSize)` is the q with (q − 1) · pageSize < total ≤ q · pageSize. |
| `Pagination.TotalPages` | fe/components/base/Pagination.tsx:14 | There is at least one page. The pages hold all items, and the count is tight. |
| `Pagination.TotalPagesLeast` | fe/components/base/Pagination.tsx:14 | The page count is the least positive count that holds `total` items. |
| `Pagination.PageButtons` | fe/components/base/Pagination.tsx:18 | The buttons are 1..min(7, totalPages). |
| `Pagination.PageButtonsInRange` | fe/components/base/Pagination.tsx:18 | p has a button exactly when 1 ≤ p ≤ totalPages and p ≤ 7. |
| `Pagination.Click` | fe/components/base/Pagination.tsx:15-35 | Prev emits page − 1 exactly when page > 1. Next emits page + 1 exactly when page < totalPages. A number button emits its number. |
| `Pagination.ClickStaysInRange` | fe/components/base/Pagination.tsx:15-35 | From a page in range, every click on a shown button asks for a page in range. |
| `Pagination.SinglePage` | fe/components/base/Pagination.tsx:14-16 | On a single page, neither Prev nor Next emits anything. |
| `ArticleBody.RunEnd` | fe/components/analysis/ArticleBody.tsx:15 | A run of character-class characters ends at the first character outside the class, or at the end. |
| `ArticleBody.SchemeLength` | fe/components/analysis/ArticleBody.tsx:15 | `https?:\/\/` matches "https://" (8 characters) or "http://" (7 characters). |
| `ArticleBody.UrlAt` | fe/components/analysis/ArticleBody.tsx:15 | A URL match is a scheme and a non-empty run of URL characters. |
| `ArticleBody.LabelAt` | fe/components/analysis/ArticleBody.tsx:15 | The label-URL pattern, tried at one position, gives the lazy label, the spaces and the URL. |
| `ArticleBody.BareAt` | fe/components/analysis/ArticleBody.tsx:41 | The bare-URL pattern, tried at one position. |
| `ArticleBody.NextLabel` | fe/components/analysis/ArticleBody.tsx:19 | `labelUrl.exec` is the leftmost match at or after `lastIndex`, and there is none when it returns null. |
| `ArticleBody.NextBare` | fe/components/analysis/ArticleBody.tsx:45 | `urlOnly.exec` is the leftmost match at or after `lastIndex`, and there is none when it returns null. |
| `ArticleBody.LabelPhaseSpec` | fe/components/analysis/ArticleBody.tsx:19-36 | The first loop tiles the text, up to its end point, with raw text and label-URL matches, each found where it lies. No label-URL match starts at or after that end point. |
| `ArticleBody.BarePhaseSpec` | fe/components/analysis/ArticleBody.tsx:45-63 | The second loop tiles the whole tail with raw text and bare URLs, each found where it lies. |
| `ArticleBody.LinkifyNodes` | fe/components/analysis/ArticleBody.tsx:9-67 | The two `exec` loops push exactly `Linkify(text)`. |
| `ArticleBody.TailNodes` | fe/components/analysis/ArticleBody.tsx:38-64 | The tail loop and the rest after it push exactly the rendering of the tail's pieces. |
| `ArticleBody.NoUrlPlainText` | fe/components/analysis/ArticleBody.tsx:15-63 | A text with no "http://" or "https://" gives `[text]`, or `[]` when it is empty. |
| `ArticleBody.HrefsAreUrls` | fe/components/analysis/ArticleBody.tsx:15-53 | Every href is a scheme followed by at least one character that is not whitespace, ',', ')' or ']'. |
| `ArticleBody.LabelLinks` | fe/components/analysis/ArticleBody.tsx:20-33 | A label-URL link shows the trimmed label, which holds none of ':', '(', ')' or a newline. |
| `ArticleBody.BareLinks` | fe/components/analysis/ArticleBody.tsx:47-58 | A bare link shows its URL with the scheme removed. |
| `ArticleBody.NoEmptyText` | fe/components/analysis/ArticleBody.tsx:21-63 | No text node pushed is empty. |
| `ArticleBody.BareOnlyInTail` | fe/components/analysis/ArticleBody.tsx:38-45 | Bare URLs are linked only after the last label-URL match: no label-URL match starts in the tail. |
| `ArticleBody.CoveredTiles` | fe/components/analysis/ArticleBody.tsx:21-35 | Pieces that tile a stretch cover exactly that stretch. |
| `ArticleBody.PiecesPartition` | fe/components/analysis/ArticleBody.tsx:19-63 | The text pieces and the matched spans, in order, are the whole input. |
| `ArticleBody.ParagraphsHaveNoBreak` | fe/components/analysis/ArticleBody.tsx:82 | No paragraph holds two newlines in a row. |
| `ArticleBody.ParagraphsNonEmpty` | fe/components/analysis/ArticleBody.tsx:80-82 | A trimmed, non-empty body splits into non-empty paragraphs. |
| `ArticleBody.SingleParagraph` | fe/components/analysis/ArticleBody.tsx:80-82 | A text without a blank line is a single paragraph. |
| `ArticleBody.RenderSection` | fe/components/analysis/ArticleBody.tsx:72-87 | The heading is shown only when it is non-empty, and every paragraph of the trimmed body is linkified. |
| `Chat.RawBase` | fe/services/chat.ts:2 | An unset or empty setting falls back to the default host. |
| `Chat.StripSlashes` | fe/services/chat.ts:3 | Only trailing slashes are removed, and all of them. |
| `Chat.VersionIff` | fe/services/chat.ts:4 | The test agrees with the pattern `/\/api\/v\d+$/i`: it matches somewhere exactly when the base ends in "/api/v" in any case followed by digits. |
| `Chat.AppendedHasVersion` | fe/services/chat.ts:6 | Appending "/api/v1" gives a versioned base. |
| `Chat.NormalizeSpec` | fe/services/chat.ts:3-6 | The base always ends in "/api/v<digits>", never in a slash, and starts with the stripped configured base. |
| `Chat.NormalizeIdempotent` | fe/services/chat.ts:3-6 | Normalising twice changes nothing. |
| `Chat.VersionedBaseKept` | fe/services/chat.ts:4-5 | A configured base naming a version, in any case, keeps it, without its trailing slashes. |
| `Chat.DefaultApiBase` | fe/services/chat.ts:2-6 | Without a setting the base is "http://160.191.88.194:11112/api/v1". |
| `Chat.Coalesce` | fe/services/chat.ts:74 | `??` gives way only for null and undefined. |
| `Chat.OrEmpty` | fe/services/chat.ts:75-79 | The `or {}` fallback keeps truthy values and otherwise gives the empty object. |
| `Chat.QueryRequest` | fe/services/chat.ts:38-46 | The POST goes to base + "/chat/query". It sends JSON, adds `X-Session-Id` exactly when the session id is truthy, and carries a body of exactly the question and `include_debug`. |
| `Chat.QueryAccepted` | fe/services/chat.ts:45 | The back end accepts the sent body exactly when the question has 1 to 1000 characters, and reads back what was sent. |
| `Chat.ReportPayload` | fe/services/chat.ts:120-125 | The payload copies `reference_id` and `reason`, defaults the source to "chat_message", and includes `message_id` exactly when it is truthy. |
| `Chat.ReportRequest` | fe/services/chat.ts:126-130 | The POST goes to base + "/chat/report" with the payload. |
| `Chat.ReportAccepted` | fe/services/chat.ts:119-129 | The back end accepts the report exactly when the reason has 1 to 500 characters. An omitted source comes back as "chat_message", and a message id comes back only when truthy. |
| `Chat.StreamParamsRoundTrip` | fe/services/chat.ts:60-63 | The stream URL's parameters read back the question and `String(includeDebug)`, which defaults to "false". |
| `Chat.FailureMessage` | fe/services/chat.ts:47-50 | A 2xx response raises nothing. Any other raises "<what> failed: <status> <text>". |
| `Chat.FailureNamesStatus` | fe/services/chat.ts:47-50 | Failure messages with different statuses differ. |
| `Chat.Handle` | fe/services/chat.ts:68-85 | A parse failure is reported to `onError`. Without `onEvent` nothing is delivered. A token event is delivered with the data spread and its token set. Other events are delivered with their data, or the empty object when it is falsy. |
| `Chat.ErrorListenerIsHandle` | fe/services/chat.ts:92-103 | The "error" listener behaves as `handle("error")` would. |
| `Chat.TokenNormalised` | fe/services/chat.ts:72-77 | A token event always carries a non-null token: `data.text` when present and not null, else `data.token`, else "". Every other data field is kept. |
| `Chat.EmptyTextKept` | fe/services/chat.ts:74 | An empty `text` is kept as the token rather than replaced by `token`. |
| `Chat.TokenWithoutData` | fe/services/chat.ts:74-76 | A token event with no usable data still gets the empty token, and nothing else. |
| `Chat.OtherEventsForward` | fe/services/chat.ts:79 | Other events pass on `data` when it is truthy, and the empty object otherwise. |
| `Chat.NullPayloadReported` | fe/services/chat.ts:74-84 | A parsed `null` makes reading `data` throw, which is reported like a parse failure. |

## Left out

- The PDF and DOCX extractors (`extract_text_from_pdf`, `extract_text_from_docx`) are foreign libraries. They are parameters: each gives the text or raises.
- The MD5 digest of the upload is a parameter, and the file path is built from it.
- SQL sessions, commits, refreshes and joins are left out. The tables are in-memory sequences in table order, with one fresh-id counter shared by all tables in place of the database's per-table auto-increment. `ORDER BY Chunk.id` is table order, because ids grow with insertion.
- `created_at` in the chunk payload, and all timestamps, are not modelled. The post's `created_at` is an integer.
- These are parameters:
  - the embedding provider;
  - the vector store's existence check, nearest-neighbour search and upsert outcome;
  - the LLM call.

  Scores and vectors are `real`, with no floating-point behaviour. The query and vector-search timings of the debug block are left out.
- async, `asyncio.sleep`, threading and HTTP are left out; every operation runs sequentially.
- The exception raised when the vector deletion fails is not modelled as a value. The deletion is best-effort and never blocks the relational cascade, so the model records only which delete call is made.
- Chunking.ChunkByChars: it requires 0 ≤ overlap < max_chars. With a larger overlap and a long text, the source's loop never advances and never ends. The corpus service always passes 3000 and 500.
- Rag.ContextFromChunks builds the source record with the fields rag.py passes, which are also the front end's `ChatSource` type. `ChatSource` in common_types.py:46-53 declares different required fields (`document_title`, `chapter_title`, `quote`), so pydantic would refuse the record rag.py builds. `ChatResponse` in common_types.py:64-69 has no `num_citations` field. The model does not model that refusal. It also leaves out `url=None`, which is always None.
- Rag.Query: there is no short-circuit on zero results and no apology for empty content. The LLM is asked even with an empty context, as the code does.
- `RAG_TOP_K`, `QDRANT_DISTANCE` and the other `QDRANT_*` settings are not defined in the configuration, so they are parameters.
- Schemas: pydantic's type coercion and `ErrorResponse.details` are not modelled. Fields arrive already typed, or missing.
- The `print` and `end` I/O of color.py are left out. The model gives the string written.
- Chunking.IsWordChar: Python's `\w` on str is `isalnum()` or `_`. The model counts as non-word the ASCII non-alphanumerics, whitespace, and the punctuation, symbol, mark and control blocks that IsNonAsciiNonWord lists (dashes, quotes, "…", CJK and full-width punctuation, emoji). Every other non-ASCII character is taken as a word character. That includes unassigned code points and symbols in blocks outside that list, such as the circled letters from U+24B6. A line like "Chương 1" followed by such a character is therefore a heading in Python but not in the model. `\d` is the full Unicode 15.0 Nd set. `re.I` matching of the keywords folds only ASCII, Ư and Ơ.
- Python `lower()`/`upper()` is modelled as ASCII case mapping (used for colour names and distance names).
- The mock data tables in mock.ts are parameters. `getChatHistory` returns a constant table and is not modelled.
- fetch, `res.json()`, `res.text()`, EventSource registration, `es.onerror`, `close`, and connection-level "error" events with no data are left out.
- URL encoding of the search parameters is left out; the model reads back the values set. `new URL` throwing for an invalid base is not modelled.
- Chat.Spread: taking `{...v}` of a truthy string or array gives index keys in JavaScript. The model spreads only objects, and anything else gives no fields.
- Chat.Handle: it has the same limitation for a `data` that is a truthy string or array.
- JavaScript numbers are integers in the model.
- JavaScript regular expressions work on UTF-16 code units, while the model works on Dafny characters.
- ArticleBody.LinkifyNodes: the source runs both loops in one function. The model splits the second loop into `TailNodes`.
- React rendering, element keys and ReactNode bodies are left out. Section bodies are strings.
- Pagination: the source divides by the page size. The model requires pageSize > 0, because a zero page size gives `Infinity` pages in JavaScript.
- Records: only the columns the core reads or writes are modelled, from be/app/models/document.py and be/app/models/chunk.py.
