/**
 * The front end's mock data service: pagination by JavaScript `slice`, the
 * distinct categories and tags in first-occurrence order (`Array.from(new
 * Set(...))`), the document metadata projection, the lookup by id and the
 * top sources. The mock tables are parameters.
 */
module Mock {
  import opened Wrappers

  // ---------------------------------------------------------------------------
  // Records (the front end's types)

  datatype Article = Article(
    id: string, title: string, excerpt: string, author: string, date: string,
    tags: seq<string>, category: string, coverImage: Option<string>, content: Option<string>)

  datatype Quote = Quote(id: string, text: string, page: Option<int>)

  datatype Chapter = Chapter(id: string, index: int, title: string, content: string, quotes: Option<seq<Quote>>)

  datatype DocumentMeta = DocumentMeta(
    id: string, title: string, source: string, year: Option<int>, pages: Option<int>,
    tags: seq<string>, summary: Option<string>, coverImage: Option<string>)

  datatype Document = Document(
    id: string, title: string, source: string, year: Option<int>, pages: Option<int>,
    tags: seq<string>, summary: Option<string>, coverImage: Option<string>, chapters: seq<Chapter>)

  datatype RagSource = RagSource(
    chunkId: string, documentId: string, title: string, chapterTitle: Option<string>, page: Option<int>, snippet: string)

  datatype PaginatedResult<T> = PaginatedResult(items: seq<T>, total: int, page: int, pageSize: int)

  // ---------------------------------------------------------------------------
  // JavaScript `Array.prototype.slice` on integer arguments

  /** A relative index: a negative one counts from the end; both are clamped to `0..len`. */
  function Relative(k: int, len: nat): (r: nat)
    ensures r <= len
    ensures 0 <= k <= len ==> r == k
    ensures k > len ==> r == len
    ensures k < 0 ==> r == if len + k < 0 then 0 else len + k
  {
    if k < 0 then (if len + k < 0 then 0 else len + k) else if k > len then len else k
  }

  /** `s.slice(start, end)`. */
  function Slice<T>(s: seq<T>, start: int, end: int): (r: seq<T>)
    ensures Relative(start, |s|) <= Relative(end, |s|) ==> r == s[Relative(start, |s|)..Relative(end, |s|)]
    ensures Relative(start, |s|) > Relative(end, |s|) ==> r == []
  {
    var from, to := Relative(start, |s|), Relative(end, |s|);
    if from < to then s[from..to] else []
  }

  /** With non-negative bounds a slice is the ordinary sub-sequence, shortened at the end. */
  lemma SliceNonNegative<T>(s: seq<T>, start: int, end: int)
    requires 0 <= start && 0 <= end
    ensures |Slice(s, start, end)| <= if end < start then 0 else end - start
    ensures start >= |s| ==> Slice(s, start, end) == []
    ensures start <= end <= |s| ==> Slice(s, start, end) == s[start..end]
    ensures start <= |s| <= end ==> Slice(s, start, end) == s[start..]
  {
  }

  // ---------------------------------------------------------------------------
  // paginate

  /** `paginate(items, page, pageSize)`. */
  function Paginate<T>(items: seq<T>, page: int, pageSize: int): (r: PaginatedResult<T>)
    ensures r.items == Slice(items, (page - 1) * pageSize, (page - 1) * pageSize + pageSize)
    ensures r.total == |items| && r.page == page && r.pageSize == pageSize
  {
    var start := (page - 1) * pageSize;
    PaginatedResult(Slice(items, start, start + pageSize), |items|, page, pageSize)
  }

  /** For a page from 1 on, the page holds at most `pageSize` items, from `start` on, none past the end. */
  lemma PaginateBounds<T>(items: seq<T>, page: int, pageSize: int)
    requires page >= 1 && pageSize >= 0
    ensures |Paginate(items, page, pageSize).items| <= pageSize
    ensures (page - 1) * pageSize >= |items| ==> Paginate(items, page, pageSize).items == []
    ensures forall i :: 0 <= i < |Paginate(items, page, pageSize).items| ==>
      Paginate(items, page, pageSize).items[i] == items[(page - 1) * pageSize + i]
  {
    var k: nat := page - 1;
    var start: nat := k * pageSize;
    SliceWindow(items, start, start + pageSize);
  }

  /** `pageSize` items from `start` on, as far as there are any. */
  lemma SliceWindow<T>(items: seq<T>, start: nat, end: nat)
    requires start <= end
    ensures |Slice(items, start, end)| <= end - start
    ensures start >= |items| ==> Slice(items, start, end) == []
    ensures forall i :: 0 <= i < |Slice(items, start, end)| ==> Slice(items, start, end)[i] == items[start + i]
  {
    SliceNonNegative(items, start, end);
  }

  /** A page number below 1 does not give an error: `slice` counts the negative start from the end. */
  lemma PageZeroIsEmpty<T>(items: seq<T>, pageSize: int)
    requires pageSize >= 0
    ensures Paginate(items, 0, pageSize).items == []
  {
  }

  /** `getArticles(page = 1, pageSize = 6)`. */
  function GetArticles(articles: seq<Article>, page: Option<int>, pageSize: Option<int>): (r: PaginatedResult<Article>)
    ensures page.None? && pageSize.None? ==> r.items == Slice(articles, 0, 6) && r.page == 1 && r.pageSize == 6
    ensures r == Paginate(articles, page.GetOr(1), pageSize.GetOr(6))
  {
    Paginate(articles, page.GetOr(1), pageSize.GetOr(6))
  }

  // ---------------------------------------------------------------------------
  // Distinct values in first-occurrence order

  /** `Array.from(new Set(s))`: each value once, where it first occurs. */
  function Distinct<T(==)>(s: seq<T>): (d: seq<T>)
    ensures |d| <= |s|
    ensures forall i :: 0 <= i < |d| ==> d[i] in s
    ensures forall i :: 0 <= i < |s| ==> s[i] in d
  {
    if s == [] then []
    else
      var rest := Distinct(s[..|s| - 1]);
      assert s == s[..|s| - 1] + [s[|s| - 1]];
      if s[|s| - 1] in rest then rest else rest + [s[|s| - 1]]
  }

  /** Position of the first occurrence of `x`. */
  function FirstIndex<T(==)>(s: seq<T>, x: T): (i: nat)
    requires x in s
    ensures i < |s| && s[i] == x
  {
    if s[0] == x then 0 else 1 + FirstIndex(s[1..], x)
  }

  /** No earlier position holds `x`. */
  lemma {:induction false} FirstIndexIsFirst<T>(s: seq<T>, x: T)
    requires x in s
    ensures forall k :: 0 <= k < FirstIndex(s, x) ==> s[k] != x
  {
    if s[0] != x {
      FirstIndexIsFirst(s[1..], x);
      assert forall k :: 1 <= k < |s| ==> s[k] == s[1..][k - 1];
    }
  }

  /** Appending leaves the first occurrence of an element already present where it was. */
  lemma {:induction false} FirstIndexSnoc<T>(s: seq<T>, y: T, x: T)
    requires x in s
    ensures FirstIndex(s + [y], x) == FirstIndex(s, x)
  {
    if s[0] != x {
      assert (s + [y])[1..] == s[1..] + [y];
      FirstIndexSnoc(s[1..], y, x);
    }
  }

  predicate NoDuplicates<T(==)>(s: seq<T>) {
    forall i, j :: 0 <= i < j < |s| ==> s[i] != s[j]
  }

  /** Each distinct value is listed once. */
  lemma {:induction false} DistinctNoDuplicates<T>(s: seq<T>)
    ensures NoDuplicates(Distinct(s))
  {
    if s != [] {
      DistinctNoDuplicates(s[..|s| - 1]);
    }
  }

  /** The distinct values are ordered by their first occurrence in `s`. */
  lemma {:induction false} DistinctOrdered<T>(s: seq<T>)
    ensures forall i, j :: 0 <= i < j < |Distinct(s)| ==>
      FirstIndex(s, Distinct(s)[i]) < FirstIndex(s, Distinct(s)[j])
  {
    if s != [] {
      var init, x := s[..|s| - 1], s[|s| - 1];
      DistinctOrdered(init);
      var rest := Distinct(init);
      assert s == init + [x];
      FirstIndicesSnoc(init, x);
      if x !in rest {
        assert FirstIndex(s, x) == |init|;
        OrderedSnoc(s, rest, x);
      }
    }
  }

  /** Appending one value moves no first occurrence, and all of them come before it. */
  lemma FirstIndicesSnoc<T>(init: seq<T>, x: T)
    ensures forall y :: y in init ==> FirstIndex(init + [x], y) == FirstIndex(init, y) < |init|
  {
    forall y | y in init
      ensures FirstIndex(init + [x], y) == FirstIndex(init, y) < |init|
    {
      FirstIndexSnoc(init, x, y);
    }
  }

  /** A value first occurring after all of an ordered list can be appended to it. */
  lemma OrderedSnoc<T>(s: seq<T>, rest: seq<T>, x: T)
    requires x in s && forall i :: 0 <= i < |rest| ==> rest[i] in s
    requires forall i :: 0 <= i < |rest| ==> FirstIndex(s, rest[i]) < FirstIndex(s, x)
    requires forall i, j :: 0 <= i < j < |rest| ==> FirstIndex(s, rest[i]) < FirstIndex(s, rest[j])
    ensures forall i, j :: 0 <= i < j < |rest + [x]| ==> FirstIndex(s, (rest + [x])[i]) < FirstIndex(s, (rest + [x])[j])
  {
    var d := rest + [x];
    forall i, j | 0 <= i < j < |d|
      ensures FirstIndex(s, d[i]) < FirstIndex(s, d[j])
    {
      assert d[i] == rest[i];
      if j < |rest| {
        assert d[j] == rest[j];
      }
    }
  }

  /** The distinct values are exactly the values of `s`, each once, ordered by first occurrence. */
  lemma DistinctSpec<T>(s: seq<T>)
    ensures NoDuplicates(Distinct(s))
    ensures forall x :: x in Distinct(s) <==> x in s
    ensures forall i, j :: 0 <= i < j < |Distinct(s)| ==>
      FirstIndex(s, Distinct(s)[i]) < FirstIndex(s, Distinct(s)[j])
  {
    DistinctNoDuplicates(s);
    DistinctOrdered(s);
  }

  /** All values of `parts`, one list after another (`flatMap`). */
  function Flatten(parts: seq<seq<string>>): seq<string> {
    if parts == [] then [] else Flatten(parts[..|parts| - 1]) + parts[|parts| - 1]
  }

  /** A value is in the flattened lists exactly when it is in one of them. */
  lemma {:induction false} FlattenMembers(parts: seq<seq<string>>, x: string)
    ensures x in Flatten(parts) <==> exists i :: 0 <= i < |parts| && x in parts[i]
  {
    if parts != [] {
      var init := parts[..|parts| - 1];
      FlattenMembers(init, x);
      if x in Flatten(parts) && x !in parts[|parts| - 1] {
        var i :| 0 <= i < |init| && x in init[i];
        assert x in parts[i];
      }
      if i :| 0 <= i < |parts| && x in parts[i] {
        if i < |init| {
          assert x in init[i];
        }
      }
    }
  }

  function Categories(articles: seq<Article>): (cs: seq<string>)
    ensures forall c :: c in cs <==> exists i :: 0 <= i < |articles| && articles[i].category == c
  {
    var cs := seq(|articles|, i requires 0 <= i < |articles| => articles[i].category);
    assert forall i :: 0 <= i < |articles| ==> cs[i] == articles[i].category;
    cs
  }

  /** `listCategories()`: every article's category once, in order of first appearance. */
  function ListCategories(articles: seq<Article>): (r: seq<string>)
    ensures NoDuplicates(r)
    ensures forall c :: c in r <==> c in Categories(articles)
    ensures forall i, j :: 0 <= i < j < |r| ==>
      FirstIndex(Categories(articles), r[i]) < FirstIndex(Categories(articles), r[j])
  {
    DistinctSpec(Categories(articles));
    Distinct(Categories(articles))
  }

  /** Each article's tag list, in article order. */
  function TagLists(articles: seq<Article>): (ts: seq<seq<string>>)
    ensures |ts| == |articles|
    ensures forall i :: 0 <= i < |articles| ==> ts[i] == articles[i].tags
  {
    seq(|articles|, i requires 0 <= i < |articles| => articles[i].tags)
  }

  /** `listTags()`: every tag of every article once, in order of first appearance in the flattened lists. */
  function ListTags(articles: seq<Article>): (r: seq<string>)
    ensures NoDuplicates(r)
    ensures forall t :: t in r <==> t in Flatten(TagLists(articles))
    ensures forall i, j :: 0 <= i < j < |r| ==>
      FirstIndex(Flatten(TagLists(articles)), r[i]) < FirstIndex(Flatten(TagLists(articles)), r[j])
  {
    DistinctSpec(Flatten(TagLists(articles)));
    Distinct(Flatten(TagLists(articles)))
  }

  /** The tags listed are exactly those some article carries. */
  lemma ListTagsCover(articles: seq<Article>, t: string)
    ensures t in ListTags(articles) <==> exists i :: 0 <= i < |articles| && t in articles[i].tags
  {
    var ts := TagLists(articles);
    FlattenMembers(ts, t);
    if t in ListTags(articles) {
      var i :| 0 <= i < |ts| && t in ts[i];
      assert t in articles[i].tags;
    }
  }

  // ---------------------------------------------------------------------------
  // Documents and sources

  function Meta(d: Document): DocumentMeta {
    DocumentMeta(d.id, d.title, d.source, d.year, d.pages, d.tags, d.summary, d.coverImage)
  }

  /** `getDocumentsMeta()`: every document's metadata, in order, without its chapters. */
  function DocumentsMeta(documents: seq<Document>): (r: seq<DocumentMeta>)
    ensures |r| == |documents|
    ensures forall i :: 0 <= i < |r| ==> r[i] == Meta(documents[i])
  {
    seq(|documents|, i requires 0 <= i < |documents| => Meta(documents[i]))
  }

  /** Nothing but the chapters is lost: the metadata and the chapters give the document back. */
  lemma MetaKeepsFields(d: Document)
    ensures var m := Meta(d);
      Document(m.id, m.title, m.source, m.year, m.pages, m.tags, m.summary, m.coverImage, d.chapters) == d
  {
  }

  /** `getDocumentById(id)`: the first document with that id, or `undefined`. */
  function DocumentById(documents: seq<Document>, id: string): (r: Option<Document>)
    ensures r.None? <==> forall i :: 0 <= i < |documents| ==> documents[i].id != id
    ensures r.Some? ==> exists i :: (0 <= i < |documents| && documents[i] == r.value && r.value.id == id
      && forall k :: 0 <= k < i ==> documents[k].id != id)
  {
    if documents == [] then None
    else if documents[0].id == id then Some(documents[0])
    else
      var r := DocumentById(documents[1..], id);
      assert forall i :: 0 < i < |documents| ==> documents[i] == documents[1..][i - 1];
      r
  }

  /** `getTopSources(limit = 5)`. */
  function TopSources(sources: seq<RagSource>, limit: Option<int>): (r: seq<RagSource>)
    ensures r == Slice(sources, 0, limit.GetOr(5))
  {
    Slice(sources, 0, limit.GetOr(5))
  }

  /** A non-negative limit gives the first `min(limit, len)` sources; a negative one drops that many from the end. */
  lemma TopSourcesSpec(sources: seq<RagSource>, limit: Option<int>)
    ensures limit.None? ==> TopSources(sources, limit) == sources[..if |sources| < 5 then |sources| else 5]
    ensures limit.Some? && limit.value >= 0 ==>
      TopSources(sources, limit) == sources[..if |sources| < limit.value then |sources| else limit.value]
    ensures limit.Some? && limit.value < 0 ==>
      TopSources(sources, limit) == sources[..if |sources| + limit.value < 0 then 0 else |sources| + limit.value]
  {
  }
}
