/**
 * The article body renderer's text handling: a string body is trimmed and
 * split into paragraphs at runs of two or more newlines, and each paragraph
 * is tokenized by `linkify` into text and link nodes. `linkify` first turns
 * every "Label: http(s)://url" into a link showing the trimmed label and
 * passes the text between such matches through as it is; in what follows
 * the last such match it links every bare URL, shown without its scheme.
 *
 * The two regular expressions are modelled by the position they match at
 * and the extent of each match, as JavaScript's backtracking matcher
 * determines them; a `RegExp.exec` call is the search for the leftmost match
 * at or after `lastIndex`.
 */
module ArticleBody {
  import opened Wrappers
  import opened Text

  // ---------------------------------------------------------------------------
  // Character classes of the two patterns

  /** `[^:()\n]`: what a label is made of. */
  predicate IsLabelChar(c: char) {
    c != ':' && c != '(' && c != ')' && c != '\n'
  }

  /** `[^\s,)\]]`: what follows the scheme of a URL. */
  predicate IsUrlChar(c: char) {
    !IsJsSpace(c) && c != ',' && c != ')' && c != ']'
  }

  /** End of the longest run of `p`-characters starting at `i`. */
  function RunEnd(s: string, i: nat, p: char -> bool): (e: nat)
    requires i <= |s|
    ensures i <= e <= |s|
    ensures forall k :: i <= k < e ==> p(s[k])
    ensures e < |s| ==> !p(s[e])
    decreases |s| - i
  {
    if i == |s| || !p(s[i]) then i else RunEnd(s, i + 1, p)
  }

  /** `https?:\/\/` at `i`: 8 for "https://", 7 for "http://", 0 when neither starts there. */
  function SchemeLength(s: string, i: nat): (n: nat)
    requires i <= |s|
    ensures n == 0 || n == 7 || n == 8
    ensures n > 0 ==> i + n <= |s|
  {
    if i + 8 <= |s| && s[i..i + 8] == "https://" then 8
    else if i + 7 <= |s| && s[i..i + 7] == "http://" then 7
    else 0
  }

  /** `https?:\/\/[^\s,)\]]+` at `i`: the end of the match, if there is one. */
  function UrlAt(s: string, i: nat): (e: Option<nat>)
    requires i <= |s|
    ensures e.Some? ==> SchemeLength(s, i) > 0 && i + SchemeLength(s, i) < e.value <= |s|
  {
    var n := SchemeLength(s, i);
    if n == 0 then None
    else
      var e := RunEnd(s, i + n, IsUrlChar);
      if e > i + n then Some(e) else None
  }

  /** A URL as the patterns accept it: a scheme, then at least one URL character, all of them. */
  predicate IsHref(u: string) {
    (|u| > 8 && u[..8] == "https://" && forall k :: 8 <= k < |u| ==> IsUrlChar(u[k]))
    || (|u| > 7 && u[..7] == "http://" && forall k :: 7 <= k < |u| ==> IsUrlChar(u[k]))
  }

  // ---------------------------------------------------------------------------
  // Pieces of the input

  /**
   * A stretch of the input: raw text, a label-URL match (label, ':', spaces,
   * URL), or a bare URL (scheme, rest). Positions index the string scanned.
   */
  datatype Piece =
    | Raw(start: nat, end: nat)
    | Labelled(start: nat, labelEnd: nat, urlStart: nat, end: nat)
    | Bare(start: nat, schemeEnd: nat, end: nat)

  /** The pattern `([^:()\n]+?):\s*(https?:\/\/[^\s,)\]]+)` tried at `i`. */
  function LabelAt(s: string, i: nat): (m: Option<Piece>)
    requires i <= |s|
    ensures m.Some? ==> m.value.Labelled? && m.value.start == i
    ensures m.Some? ==> i < m.value.labelEnd < m.value.urlStart <= m.value.end <= |s|
  {
    if i < |s| && IsLabelChar(s[i]) then
      var k := RunEnd(s, i, IsLabelChar);
      if k < |s| && s[k] == ':' then
        var w := RunEnd(s, k + 1, IsJsSpace);
        match UrlAt(s, w)
        case Some(e) => Some(Labelled(i, k, w, e))
        case None => None
      else None
    else None
  }

  /** The pattern `(https?:\/\/[^\s,)\]]+)` tried at `i`. */
  function BareAt(s: string, i: nat): (m: Option<Piece>)
    requires i <= |s|
    ensures m.Some? ==> m.value.Bare? && m.value.start == i
    ensures m.Some? ==> i < m.value.schemeEnd < m.value.end <= |s|
  {
    match UrlAt(s, i)
    case Some(e) => Some(Bare(i, i + SchemeLength(s, i), e))
    case None => None
  }

  /** `labelUrl.exec(text)` with `lastIndex == from`: the leftmost match at or after `from`. */
  function NextLabel(s: string, from: nat): (m: Option<Piece>)
    requires from <= |s|
    ensures m.Some? ==> from <= m.value.start <= |s| && LabelAt(s, m.value.start) == m
    ensures m.Some? ==> forall i :: from <= i < m.value.start ==> LabelAt(s, i).None?
    ensures m.None? ==> forall i :: from <= i <= |s| ==> LabelAt(s, i).None?
    decreases |s| - from
  {
    if LabelAt(s, from).Some? then LabelAt(s, from)
    else if from == |s| then None
    else NextLabel(s, from + 1)
  }

  /** `urlOnly.exec(tail)` with `lastIndex == from`. */
  function NextBare(s: string, from: nat): (m: Option<Piece>)
    requires from <= |s|
    ensures m.Some? ==> from <= m.value.start <= |s| && BareAt(s, m.value.start) == m
    ensures m.Some? ==> forall i :: from <= i < m.value.start ==> BareAt(s, i).None?
    ensures m.None? ==> forall i :: from <= i <= |s| ==> BareAt(s, i).None?
    decreases |s| - from
  {
    if BareAt(s, from).Some? then BareAt(s, from)
    else if from == |s| then None
    else NextBare(s, from + 1)
  }

  /** The pieces lie end to end, each non-empty, from `from` up to `to`. */
  ghost predicate Tiles(ps: seq<Piece>, from: nat, to: nat)
    decreases |ps|
  {
    if ps == [] then from == to
    else ps[0].start == from && ps[0].start < ps[0].end && Tiles(ps[1..], ps[0].end, to)
  }

  /** A piece is what its kind says of the string it was found in. */
  ghost predicate Found(s: string, p: Piece) {
    WellPlaced(s, p) &&
    match p
    case Raw(a, b) => a < b <= |s|
    case Labelled(a, _, _, _) => a <= |s| && LabelAt(s, a) == Some(p)
    case Bare(a, _, _) => a <= |s| && BareAt(s, a) == Some(p)
  }

  /** Text before a match starting at `at`, when there is any. */
  function Before(from: nat, at: nat): seq<Piece> {
    if at > from then [Raw(from, at)] else []
  }

  /** The first loop: pieces up to the end of the last label-URL match, and that end. */
  function LabelPhase(s: string, from: nat): (r: (seq<Piece>, nat))
    requires from <= |s|
    ensures from <= r.1 <= |s|
    ensures forall i :: 0 <= i < |r.0| ==> WellPlaced(s, r.0[i])
    decreases |s| - from
  {
    match NextLabel(s, from)
    case None => ([], from)
    case Some(m) =>
      var rest := LabelPhase(s, m.end);
      PlacedStep(s, from, m, rest.0);
      (Before(from, m.start) + [m] + rest.0, rest.1)
  }

  /** The second loop and the text after it: the tail cut into raw text and bare URLs. */
  function BarePhase(t: string, from: nat): (ps: seq<Piece>)
    requires from <= |t|
    ensures forall i :: 0 <= i < |ps| ==> WellPlaced(t, ps[i])
    decreases |t| - from
  {
    match NextBare(t, from)
    case None => if from < |t| then [Raw(from, |t|)] else []
    case Some(m) =>
      var rest := BarePhase(t, m.end);
      PlacedStep(t, from, m, rest);
      Before(from, m.start) + [m] + rest
  }

  /** One round's pieces as a function of the round's match and the pieces after it. */
  lemma PlacedStep(s: string, from: nat, m: Piece, rest: seq<Piece>)
    requires from <= m.start && WellPlaced(s, m)
    requires forall i :: 0 <= i < |rest| ==> WellPlaced(s, rest[i])
    ensures forall i :: 0 <= i < |Before(from, m.start) + [m] + rest| ==>
      WellPlaced(s, (Before(from, m.start) + [m] + rest)[i])
  {
    var ps, b := Before(from, m.start) + [m] + rest, |Before(from, m.start)|;
    assert forall i :: 0 <= i < |ps| ==> ps[i] == if i < b then Raw(from, m.start) else if i == b then m else rest[i - b - 1];
  }

  /** What each kind of phase may produce: the first no bare URLs, the second no label-URL matches. */
  predicate Kind(p: Piece, bare: bool) {
    if bare then !p.Labelled? else !p.Bare?
  }

  /** The pieces of one round are found in the string, when those after it are. */
  lemma FoundStep(s: string, from: nat, m: Piece, rest: seq<Piece>, bare: bool)
    requires from <= m.start && Found(s, m) && Kind(m, bare)
    requires forall i :: 0 <= i < |rest| ==> Found(s, rest[i]) && Kind(rest[i], bare)
    ensures forall i :: 0 <= i < |Before(from, m.start) + [m] + rest| ==>
      Found(s, (Before(from, m.start) + [m] + rest)[i]) && Kind((Before(from, m.start) + [m] + rest)[i], bare)
  {
    var ps, b := Before(from, m.start) + [m] + rest, |Before(from, m.start)|;
    forall i | 0 <= i < |ps|
      ensures Found(s, ps[i]) && Kind(ps[i], bare)
    {
      if i < b {
        assert ps[i] == Raw(from, m.start);
      } else if i == b {
        assert ps[i] == m;
      } else {
        assert ps[i] == rest[i - b - 1];
      }
    }
  }

  /**
   * The first phase tiles the input up to its end point with raw text and
   * label-URL matches, each found where it lies, and no label-URL match
   * starts at or after that end point.
   */
  lemma {:induction false} LabelPhaseSpec(s: string, from: nat)
    requires from <= |s|
    ensures var r := LabelPhase(s, from);
      Tiles(r.0, from, r.1)
      && (forall i :: 0 <= i < |r.0| ==> Found(s, r.0[i]) && !r.0[i].Bare?)
      && forall i :: r.1 <= i <= |s| ==> LabelAt(s, i).None?
    decreases |s| - from
  {
    match NextLabel(s, from)
    case None =>
    case Some(m) =>
      var rest := LabelPhase(s, m.end);
      LabelPhaseSpec(s, m.end);
      TilesStep(from, m, rest.0, rest.1);
      FoundStep(s, from, m, rest.0, false);
  }

  /** The second phase tiles the whole tail with raw text and bare URLs, each found where it lies. */
  lemma {:induction false} BarePhaseSpec(t: string, from: nat)
    requires from <= |t|
    ensures Tiles(BarePhase(t, from), from, |t|)
    ensures forall i :: 0 <= i < |BarePhase(t, from)| ==> Found(t, BarePhase(t, from)[i]) && !BarePhase(t, from)[i].Labelled?
    decreases |t| - from
  {
    match NextBare(t, from)
    case None =>
    case Some(m) =>
      var rest := BarePhase(t, m.end);
      BarePhaseSpec(t, m.end);
      TilesStep(from, m, rest, |t|);
      FoundStep(t, from, m, rest, true);
  }

  lemma TilesStep(from: nat, m: Piece, rest: seq<Piece>, to: nat)
    requires from <= m.start < m.end
    requires Tiles(rest, m.end, to)
    ensures Tiles(Before(from, m.start) + [m] + rest, from, to)
  {
    var ms := [m] + rest;
    assert ms[1..] == rest;
    if m.start > from {
      assert (Before(from, m.start) + ms)[1..] == ms;
    }
    assert Before(from, m.start) + [m] + rest == Before(from, m.start) + ms;
  }

  // ---------------------------------------------------------------------------
  // Nodes

  datatype Node = TextNode(text: string) | Link(href: string, display: string)

  /** Positions in order and inside the string, which is all rendering needs. */
  predicate WellPlaced(s: string, p: Piece) {
    p.start <= p.end <= |s| &&
    match p
    case Raw(a, b) => a <= b <= |s|
    case Labelled(a, k, w, e) => a <= k <= w <= e <= |s|
    case Bare(a, n, e) => a <= n <= e <= |s|
  }

  /** The node a piece becomes: raw text as is, a label link showing the trimmed label, a bare link without scheme. */
  function Render(s: string, p: Piece): Node
    requires WellPlaced(s, p)
  {
    match p
    case Raw(a, b) => TextNode(s[a..b])
    case Labelled(a, k, w, e) => Link(s[w..e], Strip(Js, s[a..k]))
    case Bare(a, n, e) => Link(s[a..e], s[n..e])
  }

  function RenderAll(s: string, ps: seq<Piece>): (nodes: seq<Node>)
    requires forall i :: 0 <= i < |ps| ==> WellPlaced(s, ps[i])
    ensures |nodes| == |ps|
    ensures forall i :: 0 <= i < |ps| ==> nodes[i] == Render(s, ps[i])
  {
    seq(|ps|, i requires 0 <= i < |ps| => Render(s, ps[i]))
  }

  /** `linkify(text)`, as the two phases determine it. */
  function Linkify(s: string): seq<Node> {
    var (ps, last) := LabelPhase(s, 0);
    var tail := s[last..];
    var nodes := RenderAll(s, ps);
    if tail == [] then nodes
    else
      nodes + RenderAll(tail, BarePhase(tail, 0))
  }

  // ---------------------------------------------------------------------------
  // The two loops

  /** The tokenizer as written: two `exec` loops pushing nodes, then the rest of the tail. */
  method LinkifyNodes(text: string) returns (nodes: seq<Node>)
    ensures nodes == Linkify(text)
  {
    var all := LabelPhase(text, 0);
    nodes := [];
    var lastIndex := 0;
    ghost var ahead := all.0;
    var m := NextLabel(text, lastIndex);
    while m.Some?
      invariant lastIndex <= |text|
      invariant m == NextLabel(text, lastIndex)
      invariant ahead == LabelPhase(text, lastIndex).0 && LabelPhase(text, lastIndex).1 == all.1
      invariant nodes + RenderAll(text, ahead) == RenderAll(text, all.0)
      decreases |text| - lastIndex
    {
      var p := m.value;
      ghost var rest := LabelPhase(text, p.end).0;
      LabelUnfold(text, lastIndex);
      RenderSplit(text, lastIndex, p, rest, ahead);
      ghost var before := nodes;
      ghost var gap: seq<Node> := if p.start > lastIndex then [TextNode(text[lastIndex..p.start])] else [];
      if p.start > lastIndex {
        nodes := nodes + [TextNode(text[lastIndex..p.start])];
      }
      assert nodes == before + gap;
      var link := Link(text[p.urlStart..p.end], Strip(Js, text[p.start..p.labelEnd]));
      assert link == Render(text, p);
      nodes := nodes + [link];
      Regroup(before, gap, link, RenderAll(text, rest), nodes);
      lastIndex := p.end;
      ahead := rest;
      m := NextLabel(text, lastIndex);
    }
    assert nodes == RenderAll(text, all.0);
    var tail := text[lastIndex..];
    if tail != [] {
      var tailNodes := TailNodes(tail);
      nodes := nodes + tailNodes;
    }
  }

  /** The second loop over the tail, and the text after its last match. */
  method TailNodes(tail: string) returns (tailNodes: seq<Node>)
    ensures tailNodes == RenderAll(tail, BarePhase(tail, 0))
  {
    ghost var bare := BarePhase(tail, 0);
    tailNodes := [];
    var last := 0;
    ghost var left := bare;
    var u := NextBare(tail, last);
    while u.Some?
      invariant last <= |tail|
      invariant u == NextBare(tail, last)
      invariant left == BarePhase(tail, last)
      invariant tailNodes + RenderAll(tail, left) == RenderAll(tail, bare)
      decreases |tail| - last
    {
      var p := u.value;
      ghost var rest := BarePhase(tail, p.end);
      BareUnfold(tail, last);
      RenderSplit(tail, last, p, rest, left);
      ghost var before := tailNodes;
      ghost var gap: seq<Node> := if p.start > last then [TextNode(tail[last..p.start])] else [];
      if p.start > last {
        tailNodes := tailNodes + [TextNode(tail[last..p.start])];
      }
      assert tailNodes == before + gap;
      var link := Link(tail[p.start..p.end], tail[p.schemeEnd..p.end]);
      assert link == Render(tail, p);
      tailNodes := tailNodes + [link];
      Regroup(before, gap, link, RenderAll(tail, rest), tailNodes);
      last := p.end;
      left := rest;
      u := NextBare(tail, last);
    }
    BareEnd(tail, last);
    if last < |tail| {
      tailNodes := tailNodes + [TextNode(tail[last..])];
    }
  }

  /** One round of the first loop: the match found, then what the loop does from its end. */
  lemma LabelUnfold(s: string, from: nat)
    requires from <= |s| && NextLabel(s, from).Some?
    ensures var m := NextLabel(s, from).value;
      LabelPhase(s, from).0 == Before(from, m.start) + [m] + LabelPhase(s, m.end).0
      && LabelPhase(s, m.end).1 == LabelPhase(s, from).1
  {
  }

  /** One round of the second loop. */
  lemma BareUnfold(t: string, from: nat)
    requires from <= |t| && NextBare(t, from).Some?
    ensures var m := NextBare(t, from).value;
      BarePhase(t, from) == Before(from, m.start) + [m] + BarePhase(t, m.end)
  {
  }

  /** After the last bare URL: the rest of the tail as one text node, when there is any. */
  lemma BareEnd(t: string, from: nat)
    requires from <= |t| && NextBare(t, from).None?
    ensures RenderAll(t, BarePhase(t, from)) == if from < |t| then [TextNode(t[from..])] else []
  {
    assert t[from..|t|] == t[from..];
  }

  /** The nodes pushed in one round, moved from what is still ahead to what is done. */
  lemma Regroup(done: seq<Node>, gap: seq<Node>, n: Node, ahead: seq<Node>, pushed: seq<Node>)
    requires pushed == done + gap + [n]
    ensures done + (gap + [n] + ahead) == pushed + ahead
  {
  }

  /** Rendering the pieces of one round: the text before the match, the match, the rest. */
  lemma RenderSplit(s: string, from: nat, m: Piece, rest: seq<Piece>, ps: seq<Piece>)
    requires from <= m.start && WellPlaced(s, m) && m.start <= |s|
    requires forall i :: 0 <= i < |rest| ==> WellPlaced(s, rest[i])
    requires ps == Before(from, m.start) + [m] + rest
    ensures forall i :: 0 <= i < |ps| ==> WellPlaced(s, ps[i])
    ensures RenderAll(s, ps) ==
      (if m.start > from then [TextNode(s[from..m.start])] else []) + [Render(s, m)] + RenderAll(s, rest)
  {
    var pre := Before(from, m.start);
    RenderAllAppend(s, pre, [m]);
    RenderAllAppend(s, pre + [m], rest);
    assert RenderAll(s, [m]) == [Render(s, m)];
  }

  /** Rendering distributes over concatenation. */
  lemma RenderAllAppend(s: string, a: seq<Piece>, b: seq<Piece>)
    requires forall i :: 0 <= i < |a| ==> WellPlaced(s, a[i])
    requires forall i :: 0 <= i < |b| ==> WellPlaced(s, b[i])
    ensures forall i :: 0 <= i < |a + b| ==> WellPlaced(s, (a + b)[i])
    ensures RenderAll(s, a + b) == RenderAll(s, a) + RenderAll(s, b)
  {
    var l, r := RenderAll(s, a + b), RenderAll(s, a) + RenderAll(s, b);
    forall i | 0 <= i < |l|
      ensures l[i] == r[i]
    {
      if i < |a| {
        assert (a + b)[i] == a[i];
      } else {
        assert (a + b)[i] == b[i - |a|];
      }
    }
  }

  // ---------------------------------------------------------------------------
  // Properties

  /** Neither "http://" nor "https://" occurs anywhere. */
  predicate NoScheme(s: string) {
    forall i :: 0 <= i <= |s| ==> SchemeLength(s, i) == 0
  }

  /** Without a URL the text comes back as one text node, or nothing when it is empty. */
  lemma NoUrlPlainText(s: string)
    requires NoScheme(s)
    ensures Linkify(s) == if s == [] then [] else [TextNode(s)]
  {
    assert NextLabel(s, 0).None?;
    assert LabelPhase(s, 0) == ([], 0);
    assert s[0..] == s;
    if s != [] {
      assert NextBare(s, 0).None?;
      BareEnd(s, 0);
      assert RenderAll(s, []) == [];
    }
  }

  /** Every link's target is a URL the patterns accept. */
  lemma HrefsAreUrls(s: string, p: Piece)
    requires Found(s, p) && !p.Raw?
    ensures WellPlaced(s, p) && IsHref(Render(s, p).href)
  {
    var a := if p.Labelled? then p.urlStart else p.start;
    var n := SchemeLength(s, a);
    var u := s[a..p.end];
    assert u[..n] == s[a..a + n];
    assert forall k :: n <= k < |u| ==> u[k] == s[a + k];
  }

  /** A label-URL link shows the trimmed label, which holds none of ':', '(', ')' or a newline. */
  lemma LabelLinks(s: string, p: Piece)
    requires Found(s, p) && p.Labelled?
    ensures forall k :: p.start <= k < p.labelEnd ==> IsLabelChar(s[k])
    ensures s[p.labelEnd] == ':' && forall k :: p.labelEnd < k < p.urlStart ==> IsJsSpace(s[k])
    ensures Render(s, p) == Link(s[p.urlStart..p.end], Strip(Js, s[p.start..p.labelEnd]))
  {
  }

  /** A bare link shows its URL with the scheme removed. */
  lemma BareLinks(t: string, p: Piece)
    requires Found(t, p) && p.Bare?
    ensures var n := Render(t, p);
      n.href[..p.schemeEnd - p.start] in {"http://", "https://"}
      && n.display == n.href[p.schemeEnd - p.start..]
  {
    var n := Render(t, p);
    assert n.href[..p.schemeEnd - p.start] == t[p.start..p.schemeEnd];
  }

  /** No node in the sequence is an empty text node. */
  predicate NoEmptyTexts(ns: seq<Node>) {
    forall i :: 0 <= i < |ns| ==> (ns[i].TextNode? ==> ns[i].text != [])
  }

  /** Pieces that tile a stretch are each non-empty. */
  lemma {:induction false} TilesNonEmpty(ps: seq<Piece>, from: nat, to: nat)
    requires Tiles(ps, from, to)
    ensures forall i :: 0 <= i < |ps| ==> ps[i].start < ps[i].end
    decreases |ps|
  {
    if ps != [] {
      TilesNonEmpty(ps[1..], ps[0].end, to);
      assert forall i :: 1 <= i < |ps| ==> ps[i] == ps[1..][i - 1];
    }
  }

  /** Rendering non-empty pieces gives no empty text node. */
  lemma RenderNoEmpty(s: string, ps: seq<Piece>, from: nat, to: nat)
    requires Tiles(ps, from, to)
    requires forall i :: 0 <= i < |ps| ==> WellPlaced(s, ps[i])
    ensures NoEmptyTexts(RenderAll(s, ps))
  {
    TilesNonEmpty(ps, from, to);
  }

  /** No text node is empty. */
  lemma NoEmptyText(s: string)
    ensures NoEmptyTexts(Linkify(s))
  {
    var (ps, last) := LabelPhase(s, 0);
    var tail := s[last..];
    LabelPhaseSpec(s, 0);
    RenderNoEmpty(s, ps, 0, last);
    if tail != [] {
      BarePhaseSpec(tail, 0);
      RenderNoEmpty(tail, BarePhase(tail, 0), 0, |tail|);
    }
  }

  /** Bare URLs are linked only after the last label-URL match: no label-URL match starts in the tail. */
  lemma BareOnlyInTail(s: string)
    ensures forall i :: 0 <= i < |LabelPhase(s, 0).0| ==> !LabelPhase(s, 0).0[i].Bare?
    ensures forall i :: LabelPhase(s, 0).1 <= i <= |s| ==> LabelAt(s, i).None?
  {
    LabelPhaseSpec(s, 0);
  }

  /** The source text a run of pieces covers. */
  function Covered(s: string, ps: seq<Piece>): string
    requires forall i :: 0 <= i < |ps| ==> WellPlaced(s, ps[i])
  {
    if ps == [] then []
    else
      assert WellPlaced(s, ps[0]);
      s[ps[0].start..ps[0].end] + Covered(s, ps[1..])
  }

  /** Pieces that tile a stretch cover exactly that stretch. */
  lemma {:induction false} CoveredTiles(s: string, ps: seq<Piece>, from: nat, to: nat)
    requires Tiles(ps, from, to) && to <= |s|
    requires forall i :: 0 <= i < |ps| ==> WellPlaced(s, ps[i])
    ensures from <= to && Covered(s, ps) == s[from..to]
    decreases |ps|
  {
    if ps != [] {
      CoveredTiles(s, ps[1..], ps[0].end, to);
      assert s[from..to] == s[from..ps[0].end] + s[ps[0].end..to];
    }
  }

  /** Text pieces and matched spans together are the whole input, in order. */
  lemma PiecesPartition(s: string)
    ensures var (ps, last) := LabelPhase(s, 0);
      var tail := s[last..];
      Covered(s, ps) + Covered(tail, BarePhase(tail, 0)) == s
  {
    var (ps, last) := LabelPhase(s, 0);
    var tail := s[last..];
    LabelPhaseSpec(s, 0);
    BarePhaseSpec(tail, 0);
    CoveredTiles(s, ps, 0, last);
    CoveredTiles(tail, BarePhase(tail, 0), 0, |tail|);
    assert s[0..last] + tail == s;
  }

  // ---------------------------------------------------------------------------
  // Paragraphs

  /** Where the first run of two or more newlines starts, or `|s|`. */
  function DoubleBreak(s: string, from: nat): (i: nat)
    requires from <= |s|
    ensures from <= i <= |s|
    ensures i < |s| ==> i + 1 < |s| && s[i] == '\n' && s[i + 1] == '\n'
    ensures forall k :: from <= k < i && k + 1 < |s| ==> !(s[k] == '\n' && s[k + 1] == '\n')
    decreases |s| - from
  {
    if from + 1 >= |s| then |s|
    else if s[from] == '\n' && s[from + 1] == '\n' then from
    else DoubleBreak(s, from + 1)
  }

  /** `s.split(/\n{2,}/)`. */
  function Paragraphs(s: string): (ps: seq<string>)
    ensures |ps| >= 1
    decreases |s|
  {
    var i := DoubleBreak(s, 0);
    if i == |s| then [s]
    else
      var j := RunEnd(s, i, c => c == '\n');
      [s[..i]] + Paragraphs(s[j..])
  }

  /** No paragraph holds two newlines in a row. */
  lemma {:induction false} ParagraphsHaveNoBreak(s: string)
    ensures forall p, k :: p in Paragraphs(s) && 0 <= k < |p| - 1 ==> !(p[k] == '\n' && p[k + 1] == '\n')
    decreases |s|
  {
    var i := DoubleBreak(s, 0);
    if i < |s| {
      var j := RunEnd(s, i, c => c == '\n');
      ParagraphsHaveNoBreak(s[j..]);
      var pre := s[..i];
      assert forall k :: 0 <= k < |pre| ==> pre[k] == s[k];
    }
  }

  /** A trimmed, non-empty body splits into non-empty paragraphs. */
  lemma {:induction false} ParagraphsNonEmpty(s: string)
    requires s != [] && s[0] != '\n' && s[|s| - 1] != '\n'
    ensures forall p :: p in Paragraphs(s) ==> p != []
    decreases |s|
  {
    var i := DoubleBreak(s, 0);
    if i < |s| {
      var j := RunEnd(s, i, c => c == '\n');
      assert i > 0;
      assert j < |s|;
      assert s[j..][0] != '\n';
      ParagraphsNonEmpty(s[j..]);
    }
  }

  /** Text without a blank line is a single paragraph. */
  lemma SingleParagraph(s: string)
    requires forall k :: 0 <= k < |s| - 1 ==> !(s[k] == '\n' && s[k + 1] == '\n')
    ensures Paragraphs(s) == [s]
  {
  }

  /** A section of the article as shown: the heading when there is one, and each paragraph's nodes. */
  datatype SectionView = SectionView(heading: Option<string>, paragraphs: seq<seq<Node>>)

  /** A section whose body is a string. */
  function RenderSection(heading: string, body: string): (v: SectionView)
    ensures v.heading.Some? <==> heading != []
    ensures |v.paragraphs| == |Paragraphs(Strip(Js, body))|
    ensures forall i :: 0 <= i < |v.paragraphs| ==> v.paragraphs[i] == Linkify(Paragraphs(Strip(Js, body))[i])
  {
    var ps := Paragraphs(Strip(Js, body));
    SectionView(if heading == [] then None else Some(heading), seq(|ps|, i requires 0 <= i < |ps| => Linkify(ps[i])))
  }
}
