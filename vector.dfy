/**
 * The decisions taken by the wrapper around the vector store: which client
 * call is made, and with which arguments. The client itself (existence check,
 * collection creation, nearest-neighbour search) is a parameter.
 */
module Vector {
  import opened Wrappers
  import opened Text

  datatype Distance = Cosine | Dot | Euclid

  /** The configured distance name, with a missing or empty name read as "Cosine". */
  function DistanceName(name: Option<string>): string {
    if name.None? || name.value == "" then "Cosine" else name.value
  }

  /** Upper-cased name; anything other than the three known names becomes cosine. */
  function NormalizeDistance(name: Option<string>): (d: Distance)
    ensures d == Dot <==> Upper(DistanceName(name)) == "DOT"
    ensures d == Euclid <==> Upper(DistanceName(name)) == "EUCLID"
    ensures d == Cosine <==> Upper(DistanceName(name)) != "DOT" && Upper(DistanceName(name)) != "EUCLID"
  {
    var u := Upper(DistanceName(name));
    if u == "DOT" then Dot else if u == "EUCLID" then Euclid else Cosine
  }

  /** Names equal up to ASCII case select the same distance. */
  lemma DistanceIgnoresCase(a: string, b: string)
    requires a != "" && b != ""
    requires Upper(a) == Upper(b)
    ensures NormalizeDistance(Some(a)) == NormalizeDistance(Some(b))
  {
  }

  lemma DistanceDefaults()
    ensures NormalizeDistance(None) == Cosine
    ensures NormalizeDistance(Some("")) == Cosine
    ensures NormalizeDistance(Some("dot")) == Dot
    ensures NormalizeDistance(Some("Euclid")) == Euclid
    ensures NormalizeDistance(Some("Manhattan")) == Cosine
  {
    assert Upper("Cosine")[1] == 'O';
    assert Upper("dot") == "DOT";
    assert Upper("Euclid") == "EUCLID";
    assert Upper("Manhattan")[0] == 'M';
  }

  /**
   * The collection is (re)created exactly when the existence check did not
   * answer yes; a check that raised (`None`) counts as "absent".
   */
  function EnsureCollection(present: Option<bool>, distanceName: Option<string>): (create: Option<Distance>)
    ensures create.Some? <==> present != Some(true)
    ensures create.Some? ==> create.value == NormalizeDistance(distanceName)
  {
    if present == Some(true) then None else Some(NormalizeDistance(distanceName))
  }

  datatype Point<P> = Point(id: int, vector: seq<real>, payload: P)

  function Min3(a: nat, b: nat, c: nat): nat {
    if a <= b && a <= c then a else if b <= c then b else c
  }

  /** `points` is the zip of the three inputs: as long as the shortest, in input order. */
  ghost predicate Zipped<P>(points: seq<Point<P>>, ids: seq<int>, vectors: seq<seq<real>>, payloads: seq<P>) {
    |points| == Min3(|ids|, |vectors|, |payloads|) &&
    forall i :: 0 <= i < |points| ==> points[i] == Point(ids[i], vectors[i], payloads[i])
  }

  /** The upsert call made for the given inputs, or `None` when there is no point to send. */
  method UpsertPoints<P>(ids: seq<int>, vectors: seq<seq<real>>, payloads: seq<P>)
    returns (call: Option<seq<Point<P>>>)
    ensures call.None? <==> Min3(|ids|, |vectors|, |payloads|) == 0
    ensures call.Some? ==> Zipped(call.value, ids, vectors, payloads)
  {
    var n := Min3(|ids|, |vectors|, |payloads|);
    var points: seq<Point<P>> := [];
    var i := 0;
    while i < n
      invariant 0 <= i <= n
      invariant |points| == i
      invariant forall k :: 0 <= k < i ==> points[k] == Point(ids[k], vectors[k], payloads[k])
    {
      points := points + [Point(ids[i], vectors[i], payloads[i])];
      i := i + 1;
    }
    if points == [] {
      return None;
    }
    return Some(points);
  }

  /** The delete call made for the given ids, or `None` when the list is empty. */
  function DeleteCall(ids: seq<int>): (call: Option<seq<int>>)
    ensures call.None? <==> ids == []
    ensures call.Some? ==> call.value == ids
  {
    if ids == [] then None else Some(ids)
  }

  /** `top_k or RAG_TOP_K`: a missing or zero value falls back to the default. */
  function TopK(topK: Option<int>, defaultTopK: int): (k: int)
    ensures topK.Some? && topK.value != 0 ==> k == topK.value
    ensures topK.None? || topK.value == 0 ==> k == defaultTopK
  {
    if topK.Some? && topK.value != 0 then topK.value else defaultTopK
  }

  /** A filter on `document_id` is attached only for a non-empty id list. */
  function SearchFilter(documentIds: Option<seq<int>>): (f: Option<seq<int>>)
    ensures f.Some? <==> documentIds.Some? && documentIds.value != []
    ensures f.Some? ==> f.value == documentIds.value
  {
    if documentIds.Some? && documentIds.value != [] then documentIds else None
  }

  /** Whether a point whose payload carries `documentId` passes the filter. */
  predicate Admits(f: Option<seq<int>>, documentId: int) {
    f.None? || documentId in f.value
  }

  /** An empty or missing id list admits every document; otherwise exactly the listed ones. */
  lemma FilterAdmits(documentIds: Option<seq<int>>, documentId: int)
    ensures Admits(SearchFilter(documentIds), documentId) <==>
      documentIds.None? || documentIds.value == [] || documentId in documentIds.value
  {
  }

  datatype SearchRequest = SearchRequest(queryVector: seq<real>, limit: int, filter: Option<seq<int>>)

  datatype ScoredPoint = ScoredPoint(id: int, score: real)

  /**
   * Builds the search request and shapes the client's answer into
   * `(id, score)` pairs, one per result and in the client's order.
   */
  method Search(queryVector: seq<real>, topK: Option<int>, documentIds: Option<seq<int>>,
                defaultTopK: int, client: SearchRequest -> seq<ScoredPoint>)
    returns (request: SearchRequest, out: seq<(int, real)>)
    ensures request == SearchRequest(queryVector, TopK(topK, defaultTopK), SearchFilter(documentIds))
    ensures |out| == |client(request)|
    ensures forall i :: 0 <= i < |out| ==> out[i] == (client(request)[i].id, client(request)[i].score)
  {
    request := SearchRequest(queryVector, TopK(topK, defaultTopK), SearchFilter(documentIds));
    var results := client(request);
    out := [];
    var i := 0;
    while i < |results|
      invariant 0 <= i <= |results|
      invariant |out| == i
      invariant forall k :: 0 <= k < i ==> out[k] == (results[k].id, results[k].score)
    {
      out := out + [(results[i].id, results[i].score)];
      i := i + 1;
    }
  }
}
