/**
 * The article (blog post) service: a paginated newest-first list with its
 * pagination block, the detail lookup, the five newest featured posts, and
 * the fixed category list. The posts table is an input sequence in table
 * order; the database's `ORDER BY created_at DESC` is a stable sort of it.
 */
module Article {
  import opened Wrappers
  import Records
  import Schemas

  datatype Post = Post(
    id: nat, title: string, excerpt: Option<string>, content: string, coverImage: Option<string>,
    isFeatured: bool, createdAt: int, updatedAt: Option<int>)

  // ---------------------------------------------------------------------------
  // Newest first

  /** Creation times never increase along the sequence. */
  ghost predicate NewestFirst(s: seq<Post>) {
    forall i, j :: 0 <= i < j < |s| ==> s[i].createdAt >= s[j].createdAt
  }

  /** Puts `p` before the first post that is not newer than it. */
  function Insert(p: Post, s: seq<Post>): (r: seq<Post>)
    ensures |r| == |s| + 1
  {
    if s == [] || s[0].createdAt <= p.createdAt then [p] + s else [s[0]] + Insert(p, s[1..])
  }

  /** `ORDER BY created_at DESC`, ties kept in table order. */
  function SortNewestFirst(posts: seq<Post>): (r: seq<Post>)
    ensures |r| == |posts|
  {
    if posts == [] then [] else Insert(posts[0], SortNewestFirst(posts[1..]))
  }

  lemma {:induction false} InsertPermutes(p: Post, s: seq<Post>)
    ensures multiset(Insert(p, s)) == multiset(s) + multiset{p}
  {
    if s != [] && s[0].createdAt > p.createdAt {
      InsertPermutes(p, s[1..]);
      assert s == [s[0]] + s[1..];
    }
  }

  lemma {:induction false} InsertSorted(p: Post, s: seq<Post>)
    requires NewestFirst(s)
    ensures NewestFirst(Insert(p, s))
  {
    if s != [] && s[0].createdAt > p.createdAt {
      var t := s[1..];
      InsertSorted(p, t);
      InsertPermutes(p, t);
      var r := Insert(p, s);
      assert r == [s[0]] + Insert(p, t);
      forall j | 1 <= j < |r|
        ensures r[0].createdAt >= r[j].createdAt
      {
        var x := r[j];
        assert x in multiset(Insert(p, t));
        assert x == p || x in multiset(t);
        if x != p {
          var k :| 0 <= k < |t| && t[k] == x;
          assert s[k + 1] == x;
        }
      }
    }
  }

  /** The sort orders the posts newest first and loses or adds none. */
  lemma {:induction false} SortSpec(posts: seq<Post>)
    ensures NewestFirst(SortNewestFirst(posts))
    ensures multiset(SortNewestFirst(posts)) == multiset(posts)
  {
    if posts != [] {
      SortSpec(posts[1..]);
      InsertSorted(posts[0], SortNewestFirst(posts[1..]));
      InsertPermutes(posts[0], SortNewestFirst(posts[1..]));
      assert posts == [posts[0]] + posts[1..];
    }
  }

  /** SQL `OFFSET offset LIMIT limit`. */
  function Window<T>(s: seq<T>, offset: nat, limit: nat): (w: seq<T>)
    ensures |w| == if offset >= |s| then 0 else if offset + limit <= |s| then limit else |s| - offset
    ensures forall i :: 0 <= i < |w| ==> w[i] == s[offset + i]
  {
    if offset >= |s| then [] else if offset + limit <= |s| then s[offset..offset + limit] else s[offset..]
  }

  // ---------------------------------------------------------------------------
  // Article list

  datatype ArticleListItem = ArticleListItem(
    id: nat, title: string, excerpt: Option<string>, coverImage: Option<string>, createdAt: int)

  function ListItem(p: Post): ArticleListItem {
    ArticleListItem(p.id, p.title, p.excerpt, p.coverImage, p.createdAt)
  }

  datatype ArticleListResponse = ArticleListResponse(articles: seq<ArticleListItem>, pagination: Schemas.PaginationResponse)

  /** `(page - 1) * limit`: how many posts the earlier pages hold. */
  function Offset(pagination: Schemas.PaginationParams): (offset: nat)
    requires pagination.page >= 1 && pagination.limit >= 1
  {
    PageStart(pagination.page, pagination.limit)
  }

  function PageStart(page: int, limit: nat): (start: nat)
    requires page >= 1
    ensures start == (page - 1) * limit
    ensures start + limit == page * limit
  {
    var k: nat := page - 1;
    k * limit
  }

  /** `get_article_list`: the page of newest-first posts and the pagination block. */
  function ArticleList(posts: seq<Post>, pagination: Schemas.PaginationParams): (r: ArticleListResponse)
    requires pagination.page >= 1 && pagination.limit >= 1
    ensures |r.articles| == if Offset(pagination) >= |posts| then 0 else Min(pagination.limit, |posts| - Offset(pagination))
    ensures forall i :: 0 <= i < |r.articles| ==>
      r.articles[i] == ListItem(SortNewestFirst(posts)[Offset(pagination) + i])
    ensures r.pagination.page == pagination.page && r.pagination.limit == pagination.limit
    ensures r.pagination.total == |posts|
    ensures r.pagination.hasNext <==> Offset(pagination) + pagination.limit < |posts|
    ensures r.pagination.hasPrev <==> pagination.page > 1
  {
    var offset := Offset(pagination);
    var rows := Window(SortNewestFirst(posts), offset, pagination.limit);
    var articles := seq(|rows|, i requires 0 <= i < |rows| => ListItem(rows[i]));
    var total := |posts|;
    ArticleListResponse(articles,
      Schemas.PaginationResponse(pagination.page, pagination.limit, total,
        offset + pagination.limit < total, pagination.page > 1))
  }

  /** A full page has a next page exactly when the next page is not empty. */
  lemma HasNextIffNextPage(posts: seq<Post>, pagination: Schemas.PaginationParams)
    requires pagination.page >= 1 && pagination.limit >= 1
    ensures ArticleList(posts, pagination).pagination.hasNext <==>
      ArticleList(posts, Schemas.PaginationParams(pagination.page + 1, pagination.limit)).articles != []
  {
    var next := Schemas.PaginationParams(pagination.page + 1, pagination.limit);
    assert Offset(next) == Offset(pagination) + pagination.limit;
  }

  /** Pages 1 to `pages` of a listing, one after the other. */
  function Pages<T>(s: seq<T>, limit: nat, pages: nat): seq<T> {
    if pages == 0 then [] else Pages(s, limit, pages - 1) + Window(s, PageStart(pages, limit), limit)
  }

  function Min(a: int, b: int): int {
    if a <= b then a else b
  }

  /** The pages, taken in turn, list every row exactly once and in order. */
  lemma {:induction false} PagesCover<T>(s: seq<T>, limit: nat, pages: nat)
    ensures Pages(s, limit, pages) == s[..Min(pages * limit, |s|)]
  {
    if pages > 0 {
      PagesCover(s, limit, pages - 1);
      PageAfter(s, PageStart(pages, limit), limit);
    }
  }

  /** The rows up to offset `a`, then the page at `a`, are the rows up to the page's end. */
  lemma PageAfter<T>(s: seq<T>, a: nat, limit: nat)
    ensures s[..Min(a, |s|)] + Window(s, a, limit) == s[..Min(a + limit, |s|)]
  {
    var lo, hi := Min(a, |s|), Min(a + limit, |s|);
    assert Window(s, a, limit) == s[lo..hi];
    assert s[..hi] == s[..lo] + s[lo..hi];
  }

  /** Each listed page is the corresponding window of the newest-first table. */
  lemma ListedPage(posts: seq<Post>, pagination: Schemas.PaginationParams, i: nat)
    requires pagination.page >= 1 && pagination.limit >= 1
    requires i < |ArticleList(posts, pagination).articles|
    ensures ArticleList(posts, pagination).articles[i] ==
      ListItem(Window(SortNewestFirst(posts), PageStart(pagination.page, pagination.limit), pagination.limit)[i])
  {
  }

  // ---------------------------------------------------------------------------
  // Detail, categories, featured

  datatype ArticleDetail = ArticleDetail(
    id: nat, title: string, content: string, coverImage: Option<string>, createdAt: int, updatedAt: Option<int>)

  /** `get_article_detail`: the first post with the id, or `None`. */
  function FindArticle(posts: seq<Post>, id: int): (r: Option<ArticleDetail>)
    ensures r.Some? <==> exists i :: 0 <= i < |posts| && posts[i].id == id
    ensures r.Some? ==> exists i :: (0 <= i < |posts| && posts[i].id == id
      && (forall k :: 0 <= k < i ==> posts[k].id != id)
      && r.value == ArticleDetail(posts[i].id, posts[i].title, posts[i].content, posts[i].coverImage,
                                  posts[i].createdAt, posts[i].updatedAt))
  {
    if posts == [] then None
    else if posts[0].id == id then
      Some(ArticleDetail(posts[0].id, posts[0].title, posts[0].content, posts[0].coverImage,
                         posts[0].createdAt, posts[0].updatedAt))
    else
      var r := FindArticle(posts[1..], id);
      assert forall i :: 0 < i < |posts| ==> posts[i] == posts[1..][i - 1];
      assert (exists i :: 0 <= i < |posts[1..]| && posts[1..][i].id == id) ==>
        (exists i :: 0 <= i < |posts| && posts[i].id == id);
      r
  }

  datatype CategoryItem = CategoryItem(id: nat, name: string)

  /** `get_categories`: a fixed list. */
  const Categories: seq<CategoryItem> := [
    CategoryItem(1, "Tư tưởng chính trị"),
    CategoryItem(2, "Đạo đức cách mạng"),
    CategoryItem(3, "Giáo dục"),
    CategoryItem(4, "Văn hóa"),
    CategoryItem(5, "Phân tích chuyên sâu")
  ]

  /** Five categories, numbered 1 to 5 in order, with distinct names. */
  lemma CategoriesNumbered()
    ensures |Categories| == 5
    ensures forall i :: 0 <= i < |Categories| ==> Categories[i].id == i + 1
    ensures forall i, j :: 0 <= i < j < |Categories| ==> Categories[i].name != Categories[j].name
  {
    assert Categories[0].name[0] == 'T' && Categories[1].name[0] == 'Đ';
    assert Categories[2].name[0] == 'G' && Categories[3].name[0] == 'V' && Categories[4].name[0] == 'P';
  }

  const FeaturedLimit: nat := 5

  /** The featured query: featured posts only, newest first, at most five. */
  function FeaturedPosts(posts: seq<Post>): (r: seq<Post>)
    ensures |r| <= 5
  {
    Window(SortNewestFirst(Records.Filter(posts, (p: Post) => p.isFeatured)), 0, FeaturedLimit)
  }

  datatype FeaturedItem = FeaturedItem(id: nat, title: string, excerpt: Option<string>, coverImage: Option<string>)

  /** `get_featured_articles`. */
  function Featured(posts: seq<Post>): (r: seq<FeaturedItem>)
    ensures |r| == |FeaturedPosts(posts)|
    ensures forall i :: 0 <= i < |r| ==>
      var p := FeaturedPosts(posts)[i];
      r[i] == FeaturedItem(p.id, p.title, p.excerpt, p.coverImage)
  {
    var ps := FeaturedPosts(posts);
    seq(|ps|, i requires 0 <= i < |ps| => FeaturedItem(ps[i].id, ps[i].title, ps[i].excerpt, ps[i].coverImage))
  }

  /**
   * The featured posts are featured posts of the table, newest first, and
   * they are the newest: a featured post left out is no newer than any shown.
   */
  lemma FeaturedSpec(posts: seq<Post>, q: Post)
    ensures forall i :: 0 <= i < |FeaturedPosts(posts)| ==>
      FeaturedPosts(posts)[i] in posts && FeaturedPosts(posts)[i].isFeatured
    ensures NewestFirst(FeaturedPosts(posts))
    ensures q in posts && q.isFeatured && q !in FeaturedPosts(posts) ==>
      |FeaturedPosts(posts)| == 5 && forall i :: 0 <= i < 5 ==> FeaturedPosts(posts)[i].createdAt >= q.createdAt
  {
    var keep := (p: Post) => p.isFeatured;
    var f := Records.Filter(posts, keep);
    var s := SortNewestFirst(f);
    var r := FeaturedPosts(posts);
    Records.FilterMembers(posts, keep);
    SortSpec(f);
    forall i | 0 <= i < |r|
      ensures r[i] in posts && r[i].isFeatured
    {
      assert r[i] == s[i];
      assert s[i] in multiset(f);
    }
    if q in posts && q.isFeatured && q !in r {
      assert q in multiset(s);
      var k :| 0 <= k < |s| && s[k] == q;
    }
  }
}
