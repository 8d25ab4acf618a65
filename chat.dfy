/**
 * The front end's chat service: where the API lives, what a chat query and
 * a report are sent as, how a failed response is reported, and how the
 * events of the answer stream are handed to the page. JSON values are
 * modelled as a datatype; the network, `fetch` and `EventSource` are not.
 */
module Chat {
  import opened Wrappers
  import opened Text
  import Schemas

  // ---------------------------------------------------------------------------
  // The API base

  /** The base used when `NEXT_PUBLIC_API_BASE` is unset or empty. */
  const DefaultRawBase: string := "http://160.191.88.194:11112"

  /** `process.env.NEXT_PUBLIC_API_BASE || default`: an empty setting counts as unset. */
  function RawBase(env: Option<string>): (raw: string)
    ensures env.Some? && env.value != "" ==> raw == env.value
    ensures env.None? || env.value == "" ==> raw == DefaultRawBase
  {
    if env.Some? && env.value != "" then env.value else DefaultRawBase
  }

  /** `s.replace(/\/+$/, "")`: the run of slashes at the end removed. */
  function StripSlashes(s: string): (r: string)
    ensures |r| <= |s| && r == s[..|r|]
    ensures forall k :: |r| <= k < |s| ==> s[k] == '/'
    ensures r == [] || r[|r| - 1] != '/'
    decreases |s|
  {
    if s != [] && s[|s| - 1] == '/' then StripSlashes(s[..|s| - 1]) else s
  }

  /** Where the run of ASCII digits at the end of `s` starts. */
  function DigitsStart(s: string): (k: nat)
    ensures k <= |s|
    ensures forall i :: k <= i < |s| ==> IsAsciiDigit(s[i])
    ensures k > 0 ==> !IsAsciiDigit(s[k - 1])
    decreases |s|
  {
    if s != [] && IsAsciiDigit(s[|s| - 1]) then DigitsStart(s[..|s| - 1]) else |s|
  }

  /** `/\/api\/v\d+$/i.test(s)`, decided at the one place a match can start. */
  predicate HasVersion(s: string) {
    var k := DigitsStart(s);
    6 <= k < |s| && Lower(s[k - 6..k]) == "/api/v"
  }

  /** The pattern matches at `p`: "/api/v" in any case, then one or more digits up to the end. */
  ghost predicate VersionAt(s: string, p: nat) {
    p + 6 < |s| && Lower(s[p..p + 6]) == "/api/v" && forall i :: p + 6 <= i < |s| ==> IsAsciiDigit(s[i])
  }

  /** The decision agrees with the pattern: it matches somewhere exactly when `HasVersion` holds. */
  lemma VersionIff(s: string)
    ensures HasVersion(s) <==> exists p: nat :: VersionAt(s, p)
  {
    var k := DigitsStart(s);
    if HasVersion(s) {
      assert VersionAt(s, k - 6);
    }
    if p: nat :| VersionAt(s, p) {
      assert Lower(s[p..p + 6])[5] == LowerChar(s[p + 5]) == 'v';
      DigitsStartAt(s, p + 6);
    }
  }

  /** The digits at the end start at `j` when a non-digit (or nothing) comes before `j` and only digits after. */
  lemma DigitsStartAt(s: string, j: nat)
    requires j <= |s| && (j == 0 || !IsAsciiDigit(s[j - 1]))
    requires forall i :: j <= i < |s| ==> IsAsciiDigit(s[i])
    ensures DigitsStart(s) == j
  {
  }

  /** The API base: trailing slashes dropped, "/api/v1" added unless a version is already named. */
  function Normalize(raw: string): string {
    var t := StripSlashes(raw);
    if HasVersion(t) then t else t + "/api/v1"
  }

  /** `API_BASE`. */
  function ApiBase(env: Option<string>): string {
    Normalize(RawBase(env))
  }

  lemma AppendedHasVersion(t: string)
    ensures HasVersion(t + "/api/v1")
  {
    var s := t + "/api/v1";
    DigitsStartAt(s, |t| + 6);
    assert s[|t|..|t| + 6] == "/api/v";
  }

  /** The base always ends in "/api/v<digits>" and never in a slash, and it starts with the configured base. */
  lemma NormalizeSpec(raw: string)
    ensures HasVersion(Normalize(raw))
    ensures Normalize(raw) != [] && Normalize(raw)[|Normalize(raw)| - 1] != '/'
    ensures var t := StripSlashes(raw); |t| <= |Normalize(raw)| && Normalize(raw)[..|t|] == t
  {
    var t := StripSlashes(raw);
    if !HasVersion(t) {
      AppendedHasVersion(t);
      assert (t + "/api/v1")[..|t|] == t;
    }
  }

  /** A base already normalised is left as it is. */
  lemma NormalizeIdempotent(raw: string)
    ensures Normalize(Normalize(raw)) == Normalize(raw)
  {
    NormalizeSpec(raw);
  }

  /** A configured base naming a version keeps it, whatever its case, without the trailing slashes. */
  lemma VersionedBaseKept(raw: string)
    requires HasVersion(StripSlashes(raw))
    ensures Normalize(raw) == StripSlashes(raw)
  {
  }

  /** Without a setting the front end talks to the default host's version 1 API. */
  lemma DefaultApiBase(env: Option<string>)
    requires env.None? || env.value == ""
    ensures ApiBase(env) == "http://160.191.88.194:11112/api/v1"
  {
    var t := DefaultRawBase;
    assert StripSlashes(t) == t;
    DigitsStartAt(t, |t| - 5);
    assert Lower(t[|t| - 11..|t| - 5])[5] == ':';
  }

  // ---------------------------------------------------------------------------
  // JSON values

  datatype Json =
    | JNull
    | JBool(b: bool)
    | JNum(n: int)
    | JStr(s: string)
    | JArr(items: seq<Json>)
    | JObj(fields: map<string, Json>)

  /** `v.key` on a value that is not null: `None` stands for `undefined`. */
  function Prop(v: Json, key: string): (r: Option<Json>)
    ensures r.Some? <==> v.JObj? && key in v.fields
    ensures r.Some? ==> r.value == v.fields[key]
  {
    if v.JObj? && key in v.fields then Some(v.fields[key]) else None
  }

  /** `v?.key`: undefined when `v` is null or undefined. */
  function OptProp(v: Option<Json>, key: string): Option<Json> {
    if v.Some? && v.value != JNull then Prop(v.value, key) else None
  }

  /** `a ?? b`: only null and undefined give way. */
  function Coalesce(a: Option<Json>, b: Json): (r: Json)
    ensures a.Some? && a.value != JNull ==> r == a.value
    ensures a.None? || a.value == JNull ==> r == b
  {
    if a.Some? && a.value != JNull then a.value else b
  }

  /** JavaScript truthiness of a JSON value or `undefined`. */
  predicate Truthy(v: Option<Json>) {
    v.Some? &&
    match v.value
    case JNull => false
    case JBool(b) => b
    case JNum(n) => n != 0
    case JStr(s) => s != ""
    case _ => true
  }

  /** `v || {}`. */
  function OrEmpty(v: Option<Json>): (r: Json)
    ensures Truthy(v) ==> r == v.value
    ensures !Truthy(v) ==> r == JObj(map[])
  {
    if Truthy(v) then v.value else JObj(map[])
  }

  /** The own fields `{...v}` copies; a value that is not an object is taken to spread nothing. */
  function Spread(v: Json): map<string, Json> {
    if v.JObj? then v.fields else map[]
  }

  /** A string field read back, as the back end's schema would accept it. */
  function StrField(fields: map<string, Json>, key: string): (r: Option<string>)
    ensures r.Some? <==> key in fields && fields[key].JStr?
  {
    if key in fields && fields[key].JStr? then Some(fields[key].s) else None
  }

  function BoolField(fields: map<string, Json>, key: string): (r: Option<bool>)
    ensures r.Some? <==> key in fields && fields[key].JBool?
  {
    if key in fields && fields[key].JBool? then Some(fields[key].b) else None
  }

  // ---------------------------------------------------------------------------
  // Requests

  datatype Request = Request(url: string, headers: map<string, string>, body: map<string, Json>)

  /** Whether an optional string is truthy: given and not empty. */
  predicate Given(v: Option<string>) {
    v.Some? && v.value != ""
  }

  /** `postChatQuery(question, includeDebug, sessionId)`: the POST it sends. */
  function QueryRequest(base: string, question: string, includeDebug: Option<bool>, sessionId: Option<string>): (r: Request)
    ensures r.url == base + "/chat/query"
    ensures "Content-Type" in r.headers && r.headers["Content-Type"] == "application/json"
    ensures "X-Session-Id" in r.headers <==> Given(sessionId)
    ensures "X-Session-Id" in r.headers ==> r.headers["X-Session-Id"] == sessionId.value
    ensures r.headers.Keys <= {"Content-Type", "X-Session-Id"}
    ensures r.body.Keys == {"question", "include_debug"}
  {
    var headers := map["Content-Type" := "application/json"];
    Request(base + "/chat/query",
            if Given(sessionId) then headers["X-Session-Id" := sessionId.value] else headers,
            map["question" := JStr(question), "include_debug" := JBool(includeDebug.GetOr(false))])
  }

  /** The back end accepts the query body exactly when the question has 1 to 1000 characters, and reads back what was sent. */
  lemma QueryAccepted(base: string, question: string, includeDebug: Option<bool>, sessionId: Option<string>)
    ensures var b := QueryRequest(base, question, includeDebug, sessionId).body;
      var v := Schemas.ValidateChatQuery(StrField(b, "question"), BoolField(b, "include_debug"));
      (v.Success? <==> 1 <= |question| <= 1000)
      && (v.Success? ==> v.value == Schemas.ChatQuery(question, includeDebug.GetOr(false)))
  {
  }

  /** `postChatReport(params)`: the JSON payload. */
  function ReportPayload(referenceId: string, reason: string, source: Option<string>, messageId: Option<string>): (p: map<string, Json>)
    ensures p.Keys == {"reference_id", "reason", "source"} + (if Given(messageId) then {"message_id"} else {})
    ensures p["reference_id"] == JStr(referenceId) && p["reason"] == JStr(reason)
    ensures source.Some? ==> p["source"] == JStr(source.value)
    ensures source.None? ==> p["source"] == JStr("chat_message")
    ensures Given(messageId) ==> p["message_id"] == JStr(messageId.value)
  {
    var payload := map["reference_id" := JStr(referenceId), "reason" := JStr(reason),
                       "source" := JStr(source.GetOr("chat_message"))];
    if Given(messageId) then payload["message_id" := JStr(messageId.value)] else payload
  }

  function ReportRequest(base: string, referenceId: string, reason: string, source: Option<string>, messageId: Option<string>): (r: Request)
    ensures r.url == base + "/chat/report"
    ensures r.headers == map["Content-Type" := "application/json"]
    ensures r.body == ReportPayload(referenceId, reason, source, messageId)
  {
    Request(base + "/chat/report", map["Content-Type" := "application/json"],
            ReportPayload(referenceId, reason, source, messageId))
  }

  /**
   * The back end accepts the report exactly when the reason has 1 to 500
   * characters; it reads the source back (an empty one included) and sees a
   * message id only when a non-empty one was given.
   */
  lemma ReportAccepted(referenceId: string, reason: string, source: Option<string>, messageId: Option<string>)
    ensures var p := ReportPayload(referenceId, reason, source, messageId);
      var v := Schemas.ValidateChatReport(StrField(p, "message_id"), StrField(p, "reference_id"),
                                          StrField(p, "reason"), StrField(p, "source"));
      (v.Success? <==> 1 <= |reason| <= 500)
      && (v.Success? ==> v.value == Schemas.ChatReportRequest(
            if Given(messageId) then messageId else None, referenceId, reason, source.GetOr("chat_message")))
  {
  }

  /** The parameters of the stream URL, in the order they are set. */
  function StreamParams(q: string, includeDebug: Option<bool>): (ps: seq<(string, string)>)
    ensures |ps| == 2 && ps[0].0 == "q" && ps[1].0 == "include_debug"
  {
    [("q", q), ("include_debug", if includeDebug.GetOr(false) then "true" else "false")]
  }

  /** The first value set for a parameter. */
  function Param(ps: seq<(string, string)>, name: string): Option<string> {
    if ps == [] then None else if ps[0].0 == name then Some(ps[0].1) else Param(ps[1..], name)
  }

  /** The URL `streamChat` opens: the question and the debug flag, `String(flag)`, read back unchanged. */
  lemma StreamParamsRoundTrip(q: string, includeDebug: Option<bool>)
    ensures Param(StreamParams(q, includeDebug), "q") == Some(q)
    ensures Param(StreamParams(q, includeDebug), "include_debug") ==
      Some(if includeDebug.GetOr(false) then "true" else "false")
    ensures Param(StreamParams(q, includeDebug), "include_debug") != Some("true") ==> !includeDebug.GetOr(false)
  {
    var ps := StreamParams(q, includeDebug);
    assert ps[1..][0].0 == "include_debug";
  }

  // ---------------------------------------------------------------------------
  // Failed responses

  /** The error a non-2xx response raises: `"<what> failed: <status> <text>"`; `None` when `res.ok`. */
  function FailureMessage(what: string, status: nat, text: string): (e: Option<string>)
    ensures e.None? <==> 200 <= status <= 299
    ensures e.Some? ==> |e.value| >= |what| && e.value[..|what|] == what
  {
    if 200 <= status <= 299 then None
    else Some(what + " failed: " + NatToString(status) + " " + text)
  }

  /** Digit strings each followed by a space: equal texts have equal digits. */
  lemma DigitsBeforeSpace(a: string, b: string, ra: string, rb: string)
    requires AllDigits(a) && AllDigits(b) && a + " " + ra == b + " " + rb
    ensures a == b
  {
    var x, y := a + " " + ra, b + " " + rb;
    assert x[|a|] == ' ' && y[|b|] == ' ';
    assert |a| == |b|;
    assert a == x[..|a|] && b == y[..|b|];
  }

  /** The message tells failed responses with different statuses apart. */
  lemma FailureNamesStatus(what: string, s1: nat, s2: nat, text: string)
    requires FailureMessage(what, s1, text).Some? && FailureMessage(what, s2, text).Some?
    requires FailureMessage(what, s1, text) == FailureMessage(what, s2, text)
    ensures s1 == s2
  {
    var p := what + " failed: ";
    var a, b := NatToString(s1), NatToString(s2);
    assert p + a + " " + text == p + b + " " + text;
    assert (p + a + " " + text)[|p|..] == a + " " + text;
    assert (p + b + " " + text)[|p|..] == b + " " + text;
    DigitsBeforeSpace(a, b, text, text);
    NatToStringInjective(s1, s2);
  }

  // ---------------------------------------------------------------------------
  // Stream events

  datatype EventType = Start | Retrieval | Sources | Token | Done | Error

  /**
   * What a listener does with one message: hand an event to `onEvent`,
   * pass a failure to `onError` (when one was given), or nothing.
   */
  datatype Delivery = Deliver(event: EventType, data: Json) | ReportError | Ignored

  /** `parsed?.data?.text ?? parsed?.data?.token ?? ""`. */
  function TokenText(parsed: Json): Json {
    var data := OptProp(Some(parsed), "data");
    Coalesce(OptProp(data, "text"), Coalesce(OptProp(data, "token"), JStr("")))
  }

  /**
   * `handle(type)` on a message whose `JSON.parse` gave `parsed` (`None`: it
   * threw); `hasOnEvent` says whether an event callback was given. Reading
   * `data` off a parsed `null` throws as well.
   */
  function Handle(event: EventType, parsed: Option<Json>, hasOnEvent: bool): (d: Delivery)
    ensures parsed.None? ==> d == ReportError
    ensures parsed.Some? && !hasOnEvent ==> d == Ignored
    ensures d.Deliver? ==> d.event == event
  {
    if parsed.None? then ReportError
    else if !hasOnEvent then Ignored
    else if parsed.value == JNull then ReportError
    else if event == Token then
      Deliver(Token, JObj(Spread(OrEmpty(Prop(parsed.value, "data")))["token" := TokenText(parsed.value)]))
    else Deliver(event, OrEmpty(Prop(parsed.value, "data")))
  }

  /** The listener registered for "error" events, written out on its own. */
  function ErrorListener(parsed: Option<Json>, hasOnEvent: bool): Delivery {
    if parsed.None? then ReportError
    else if hasOnEvent then
      if parsed.value == JNull then ReportError else Deliver(Error, OrEmpty(Prop(parsed.value, "data")))
    else Ignored
  }

  /** The "error" listener behaves as `handle("error")` would. */
  lemma ErrorListenerIsHandle(parsed: Option<Json>, hasOnEvent: bool)
    ensures ErrorListener(parsed, hasOnEvent) == Handle(Error, parsed, hasOnEvent)
  {
  }

  /**
   * A token event always carries a non-null `token`: the payload's `text`
   * when that is present and not null (an empty text included), else its
   * `token` when present and not null, else the empty string. Every other
   * field of an object payload is passed on unchanged.
   */
  lemma TokenNormalised(parsed: Json, data: map<string, Json>)
    requires parsed == JObj(map["data" := JObj(data)])
    ensures var d := Handle(Token, Some(parsed), true);
      d.Deliver? && d.data.JObj? && d.data.fields.Keys == data.Keys + {"token"}
      && d.data.fields["token"] != JNull
      && ("text" in data && data["text"] != JNull ==> d.data.fields["token"] == data["text"])
      && (("text" !in data || data["text"] == JNull) && "token" in data && data["token"] != JNull
          ==> d.data.fields["token"] == data["token"])
      && (("text" !in data || data["text"] == JNull) && ("token" !in data || data["token"] == JNull)
          ==> d.data.fields["token"] == JStr(""))
      && forall k :: k in data && k != "token" ==> d.data.fields[k] == data[k]
  {
  }

  /** An empty `text` is kept as the token rather than replaced by a stale `token` field. */
  lemma EmptyTextKept(data: map<string, Json>)
    requires "text" in data && data["text"] == JStr("")
    ensures var d := Handle(Token, Some(JObj(map["data" := JObj(data)])), true);
      d.Deliver? && d.data.JObj? && d.data.fields["token"] == JStr("")
  {
    TokenNormalised(JObj(map["data" := JObj(data)]), data);
  }

  /** A token event whose payload has no usable data still gets a token, and nothing else. */
  lemma TokenWithoutData(parsed: Json)
    requires parsed != JNull && !Truthy(Prop(parsed, "data"))
    ensures Handle(Token, Some(parsed), true) == Deliver(Token, JObj(map["token" := JStr("")]))
  {
  }

  /** Other events pass their `data` on when it is truthy and an empty object otherwise. */
  lemma OtherEventsForward(event: EventType, parsed: Json)
    requires event != Token && parsed != JNull
    ensures var d := Handle(event, Some(parsed), true);
      (Truthy(Prop(parsed, "data")) ==> d == Deliver(event, parsed.fields["data"]))
      && (!Truthy(Prop(parsed, "data")) ==> d == Deliver(event, JObj(map[])))
  {
  }

  /** A parsed `null` makes reading its `data` throw, which is reported like a parse failure. */
  lemma NullPayloadReported(event: EventType)
    ensures Handle(event, Some(JNull), true) == ReportError
    ensures Handle(event, Some(JNull), false) == Ignored
  {
  }
}
