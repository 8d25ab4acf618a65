/**
 * The relational records of the corpus (documents, chapters, chunks, quotes)
 * and the table operations the corpus service performs on them: filtering
 * rows out and picking the rows that match a condition.
 */
module Records {
  import opened Wrappers

  /** Column limits declared on the record models. */
  const TitleMax: nat := 255
  const FilePathMax: nat := 500
  const SourceMax: nat := 255
  const PointIdMax: nat := 128

  datatype Document = Document(
    id: nat, title: string, description: Option<string>, filePath: Option<string>, source: Option<string>)

  datatype Chapter = Chapter(id: nat, documentId: nat, title: string, ordering: int, summary: Option<string>)

  datatype Chunk = Chunk(id: nat, chapterId: nat, chunkIndex: int, pointId: Option<string>, text: string)

  datatype Quote = Quote(
    id: nat, chunkId: nat, text: string, excerptStart: Option<int>, excerptEnd: Option<int>, pageNumber: Option<int>)

  function DocumentKey(d: Document): int { d.id }
  function ChapterKey(c: Chapter): int { c.id }
  function ChunkKey(c: Chunk): int { c.id }
  function QuoteKey(q: Quote): int { q.id }

  // ---------------------------------------------------------------------------
  // Tables as sequences of rows

  /** The rows of `s` satisfying `keep`, in table order. */
  function Filter<T>(s: seq<T>, keep: T -> bool): (r: seq<T>)
    ensures |r| <= |s|
  {
    if s == [] then []
    else Filter(s[..|s| - 1], keep) + (if keep(s[|s| - 1]) then [s[|s| - 1]] else [])
  }

  lemma {:induction false} FilterMembers<T>(s: seq<T>, keep: T -> bool)
    ensures forall x :: x in Filter(s, keep) <==> x in s && keep(x)
  {
    if s != [] {
      var init := s[..|s| - 1];
      FilterMembers(init, keep);
      assert s == init + [s[|s| - 1]];
    }
  }

  lemma {:induction false} FilterAppend<T>(a: seq<T>, b: seq<T>, keep: T -> bool)
    ensures Filter(a + b, keep) == Filter(a, keep) + Filter(b, keep)
    decreases |b|
  {
    if b == [] {
      assert a + b == a;
    } else {
      var init := b[..|b| - 1];
      var x := b[|b| - 1];
      assert (a + b)[..|a + b| - 1] == a + init;
      FilterAppend(a, init, keep);
    }
  }

  /** One more row of the table: the filter grows by that row exactly when it is kept. */
  lemma FilterSnoc<T>(s: seq<T>, k: nat, keep: T -> bool)
    requires k < |s|
    ensures Filter(s[..k + 1], keep) == Filter(s[..k], keep) + (if keep(s[k]) then [s[k]] else [])
  {
    assert s[..k + 1][..k] == s[..k];
  }

  lemma {:induction false} FilterAll<T>(s: seq<T>, keep: T -> bool)
    requires forall i :: 0 <= i < |s| ==> keep(s[i])
    ensures Filter(s, keep) == s
  {
    if s != [] {
      FilterAll(s[..|s| - 1], keep);
    }
  }

  lemma {:induction false} FilterNone<T>(s: seq<T>, keep: T -> bool)
    requires forall i :: 0 <= i < |s| ==> !keep(s[i])
    ensures Filter(s, keep) == []
  {
    if s != [] {
      FilterNone(s[..|s| - 1], keep);
    }
  }

  /** Appending rows that are all kept to rows that are all dropped: the filter yields exactly the new rows. */
  lemma FilterSplit<T>(olds: seq<T>, news: seq<T>, keep: T -> bool)
    requires forall i :: 0 <= i < |olds| ==> !keep(olds[i])
    requires forall i :: 0 <= i < |news| ==> keep(news[i])
    ensures Filter(olds + news, keep) == news
  {
    FilterAppend(olds, news, keep);
    FilterNone(olds, keep);
    FilterAll(news, keep);
  }

  /** The key column of a table, as a set. */
  ghost function Keys<T>(s: seq<T>, key: T -> int): set<int> {
    set x | x in s :: key(x)
  }

  /** Primary keys strictly increase in table order (so they are distinct). */
  ghost predicate Increasing<T>(s: seq<T>, key: T -> int) {
    forall i, j :: 0 <= i < j < |s| ==> key(s[i]) < key(s[j])
  }

  /** Every key is below the next id to be handed out. */
  ghost predicate Below<T>(s: seq<T>, key: T -> int, bound: int) {
    forall i :: 0 <= i < |s| ==> key(s[i]) < bound
  }

  lemma IncreasingSnoc<T>(s: seq<T>, x: T, key: T -> int, bound: int)
    requires Increasing(s, key) && Below(s, key, bound)
    requires key(x) == bound
    ensures Increasing(s + [x], key) && Below(s + [x], key, bound + 1)
  {
    var t := s + [x];
    assert forall i :: 0 <= i < |s| ==> t[i] == s[i];
  }

  lemma BelowMono<T>(s: seq<T>, key: T -> int, bound: int, bound': int)
    requires Below(s, key, bound) && bound <= bound'
    ensures Below(s, key, bound')
  {
  }

  lemma {:induction false} FilterIncreasing<T>(s: seq<T>, keep: T -> bool, key: T -> int, bound: int)
    requires Increasing(s, key) && Below(s, key, bound)
    ensures Increasing(Filter(s, keep), key) && Below(Filter(s, keep), key, bound)
  {
    if s != [] {
      var init := s[..|s| - 1];
      var x := s[|s| - 1];
      var f := Filter(init, keep);
      FilterIncreasing(init, keep, key, key(x));
      if keep(x) {
        IncreasingSnoc(f, x, key, key(x));
        BelowMono(f + [x], key, key(x) + 1, bound);
      } else {
        BelowMono(f, key, key(x), bound);
      }
    }
  }
}
