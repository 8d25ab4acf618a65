/**
 * The declared defaults and bounds of the API's request and response
 * schemas. Validation takes each field as given or absent (`None`), fills in
 * the declared default of an absent optional field, and either builds the
 * record or reports one error per offending field, in declaration order.
 */
module Schemas {
  import opened Wrappers

  datatype FieldError =
    | Missing(field: string)
    | TooShort(field: string, minLength: nat)
    | TooLong(field: string, maxLength: nat)
    | TooSmall(field: string, minimum: int)
    | TooLarge(field: string, maximum: int)

  /** Some error in `errs` is about `field`. */
  predicate About(errs: seq<FieldError>, field: string) {
    exists i :: 0 <= i < |errs| && errs[i].field == field
  }

  /** The errors of two fields, appended, are about what either part is about. */
  lemma AboutAppend(a: seq<FieldError>, b: seq<FieldError>, f: string)
    ensures About(a + b, f) <==> About(a, f) || About(b, f)
  {
    var ab := a + b;
    if About(a, f) {
      var i :| 0 <= i < |a| && a[i].field == f;
      assert ab[i] == a[i];
    }
    if About(b, f) {
      var i :| 0 <= i < |b| && b[i].field == f;
      assert ab[|a| + i] == b[i];
    }
    if About(ab, f) {
      var i :| 0 <= i < |ab| && ab[i].field == f;
      if i < |a| {
        assert ab[i] == a[i];
      } else {
        assert ab[i] == b[i - |a|];
      }
    }
  }

  /** Errors all about one field are about that field only, and about it when there is one. */
  lemma AboutOne(a: seq<FieldError>, fa: string, f: string)
    requires forall i :: 0 <= i < |a| ==> a[i].field == fa
    ensures About(a, f) <==> a != [] && f == fa
  {
    if a != [] && f == fa {
      assert a[0].field == f;
    }
  }

  /** The length bounds of a string field (`min_length`, `max_length`). */
  function CheckLength(field: string, s: string, minLength: nat, maxLength: Option<nat>): (errs: seq<FieldError>)
    ensures errs == [] <==> minLength <= |s| && (maxLength.None? || |s| <= maxLength.value)
    ensures forall i :: 0 <= i < |errs| ==> errs[i].field == field
  {
    if |s| < minLength then [TooShort(field, minLength)]
    else if maxLength.Some? && |s| > maxLength.value then [TooLong(field, maxLength.value)]
    else []
  }

  /** The numeric bounds of an integer field (`ge`, `le`). */
  function CheckRange(field: string, v: int, minimum: int, maximum: Option<int>): (errs: seq<FieldError>)
    ensures errs == [] <==> minimum <= v && (maximum.None? || v <= maximum.value)
    ensures forall i :: 0 <= i < |errs| ==> errs[i].field == field
  {
    if v < minimum then [TooSmall(field, minimum)]
    else if maximum.Some? && v > maximum.value then [TooLarge(field, maximum.value)]
    else []
  }

  /** A required string field with length bounds. */
  function RequiredText(field: string, v: Option<string>, minLength: nat, maxLength: Option<nat>): (errs: seq<FieldError>)
    ensures errs == [] <==> v.Some? && minLength <= |v.value| && (maxLength.None? || |v.value| <= maxLength.value)
    ensures v.None? ==> errs == [Missing(field)]
    ensures forall i :: 0 <= i < |errs| ==> errs[i].field == field
  {
    if v.None? then [Missing(field)] else CheckLength(field, v.value, minLength, maxLength)
  }

  /** A required field without bounds. */
  function Required<T>(field: string, v: Option<T>): (errs: seq<FieldError>)
    ensures errs == [] <==> v.Some?
    ensures forall i :: 0 <= i < |errs| ==> errs[i].field == field
  {
    if v.None? then [Missing(field)] else []
  }

  // ---------------------------------------------------------------------------
  // Request schemas

  datatype PaginationParams = PaginationParams(page: int, limit: int)

  const DefaultPage: int := 1
  const DefaultLimit: int := 10
  const MaxLimit: int := 100

  /** `page` defaults to 1 and must be at least 1; `limit` defaults to 10 and must lie in 1..100. */
  function ValidatePagination(page: Option<int>, limit: Option<int>): (r: Result<PaginationParams, seq<FieldError>>)
    ensures r.Success? <==> 1 <= page.GetOr(1) && 1 <= limit.GetOr(10) <= 100
    ensures r.Success? ==> r.value == PaginationParams(page.GetOr(1), limit.GetOr(10))
    ensures r.Failure? ==> r.error != []
    ensures r.Failure? ==> (About(r.error, "page") <==> page.GetOr(1) < 1)
    ensures r.Failure? ==> (About(r.error, "limit") <==> !(1 <= limit.GetOr(10) <= 100))
  {
    var p := page.GetOr(DefaultPage);
    var l := limit.GetOr(DefaultLimit);
    var a, b := CheckRange("page", p, 1, None), CheckRange("limit", l, 1, Some(MaxLimit));
    AboutAppend(a, b, "page");
    AboutAppend(a, b, "limit");
    AboutOne(a, "page", "page");
    AboutOne(a, "page", "limit");
    AboutOne(b, "limit", "page");
    AboutOne(b, "limit", "limit");
    var errs := a + b;
    if errs == [] then Success(PaginationParams(p, l)) else Failure(errs)
  }

  datatype ChatQuery = ChatQuery(question: string, includeDebug: bool)

  const MaxQuestion: nat := 1000

  /** `question` is required with 1 to 1000 characters; `include_debug` defaults to false. */
  function ValidateChatQuery(question: Option<string>, includeDebug: Option<bool>): (r: Result<ChatQuery, seq<FieldError>>)
    ensures r.Success? <==> question.Some? && 1 <= |question.value| <= 1000
    ensures r.Success? ==> r.value == ChatQuery(question.value, includeDebug.GetOr(false))
    ensures r.Failure? ==> r.error != [] && forall i :: 0 <= i < |r.error| ==> r.error[i].field == "question"
  {
    var errs := RequiredText("question", question, 1, Some(MaxQuestion));
    if errs == [] then Success(ChatQuery(question.value, includeDebug.GetOr(false))) else Failure(errs)
  }

  datatype ChatReportRequest = ChatReportRequest(messageId: Option<string>, referenceId: string, reason: string, source: string)

  const MaxReason: nat := 500
  const DefaultReportSource: string := "chat_message"

  /** `reference_id` is required, `reason` has 1 to 500 characters, `source` defaults to "chat_message". */
  function ValidateChatReport(messageId: Option<string>, referenceId: Option<string>, reason: Option<string>,
                              source: Option<string>): (r: Result<ChatReportRequest, seq<FieldError>>)
    ensures r.Success? <==> referenceId.Some? && reason.Some? && 1 <= |reason.value| <= 500
    ensures r.Success? ==>
      r.value == ChatReportRequest(messageId, referenceId.value, reason.value, source.GetOr("chat_message"))
    ensures r.Failure? ==> (About(r.error, "reference_id") <==> referenceId.None?)
    ensures r.Failure? ==> (About(r.error, "reason") <==> !(reason.Some? && 1 <= |reason.value| <= 500))
  {
    var a, b := Required("reference_id", referenceId), RequiredText("reason", reason, 1, Some(MaxReason));
    var errs := a + b;
    AboutAppend(a, b, "reference_id");
    AboutAppend(a, b, "reason");
    AboutOne(a, "reference_id", "reference_id");
    AboutOne(a, "reference_id", "reason");
    AboutOne(b, "reason", "reference_id");
    AboutOne(b, "reason", "reason");
    if errs == [] then
      Success(ChatReportRequest(messageId, referenceId.value, reason.value, source.GetOr(DefaultReportSource)))
    else Failure(errs)
  }

  datatype HighlightRequest = HighlightRequest(
    documentId: int, chapterId: Option<int>, text: string, startPosition: Option<int>, endPosition: Option<int>)

  /** `document_id` is required and `text` needs at least one character; the rest are optional. */
  function ValidateHighlight(documentId: Option<int>, chapterId: Option<int>, text: Option<string>,
                             startPosition: Option<int>, endPosition: Option<int>): (r: Result<HighlightRequest, seq<FieldError>>)
    ensures r.Success? <==> documentId.Some? && text.Some? && |text.value| >= 1
    ensures r.Success? ==> r.value == HighlightRequest(documentId.value, chapterId, text.value, startPosition, endPosition)
    ensures r.Failure? ==> (About(r.error, "document_id") <==> documentId.None?)
    ensures r.Failure? ==> (About(r.error, "text") <==> !(text.Some? && |text.value| >= 1))
  {
    var a, b := Required("document_id", documentId), RequiredText("text", text, 1, None);
    var errs := a + b;
    AboutAppend(a, b, "document_id");
    AboutAppend(a, b, "text");
    AboutOne(a, "document_id", "document_id");
    AboutOne(a, "document_id", "text");
    AboutOne(b, "text", "document_id");
    AboutOne(b, "text", "text");
    if errs == [] then Success(HighlightRequest(documentId.value, chapterId, text.value, startPosition, endPosition))
    else Failure(errs)
  }

  // ---------------------------------------------------------------------------
  // Response schemas

  datatype ApiResponse = ApiResponse(status: string, message: Option<string>)

  /** `ApiResponse()`: status "ok" unless given; nothing is required. */
  function MakeApiResponse(status: Option<string>, message: Option<string>): (r: ApiResponse)
    ensures status.None? ==> r.status == "ok"
    ensures status.Some? ==> r.status == status.value
    ensures r.message == message
  {
    ApiResponse(status.GetOr("ok"), message)
  }

  datatype ErrorResponse = ErrorResponse(status: string, message: string)

  /** `ErrorResponse(message=...)`: status "error" unless given; the message is required. */
  function MakeErrorResponse(status: Option<string>, message: Option<string>): (r: Result<ErrorResponse, seq<FieldError>>)
    ensures r.Success? <==> message.Some?
    ensures r.Success? ==> r.value == ErrorResponse(status.GetOr("error"), message.value)
    ensures r.Failure? ==> r.error == [Missing("message")]
  {
    if message.None? then Failure([Missing("message")]) else Success(ErrorResponse(status.GetOr("error"), message.value))
  }

  datatype PaginationResponse = PaginationResponse(page: int, limit: int, total: int, hasNext: bool, hasPrev: bool)

  /** `PaginationResponse(page, limit, total)`: both flags default to false. */
  function MakePaginationResponse(page: Option<int>, limit: Option<int>, total: Option<int>,
                                  hasNext: Option<bool>, hasPrev: Option<bool>): (r: Result<PaginationResponse, seq<FieldError>>)
    ensures r.Success? <==> page.Some? && limit.Some? && total.Some?
    ensures r.Success? ==>
      r.value == PaginationResponse(page.value, limit.value, total.value, hasNext.GetOr(false), hasPrev.GetOr(false))
    ensures r.Failure? ==> (About(r.error, "total") <==> total.None?)
  {
    var a, b, c := Required("page", page), Required("limit", limit), Required("total", total);
    var errs := a + b + c;
    AboutAppend(a + b, c, "total");
    AboutAppend(a, b, "total");
    AboutOne(a, "page", "total");
    AboutOne(b, "limit", "total");
    AboutOne(c, "total", "total");
    if errs == [] then
      Success(PaginationResponse(page.value, limit.value, total.value, hasNext.GetOr(false), hasPrev.GetOr(false)))
    else Failure(errs)
  }

  // ---------------------------------------------------------------------------
  // Properties of the defaults

  /** Omitting every optional field is accepted, and yields the declared defaults. */
  lemma DefaultsAccepted(question: string, referenceId: string, reason: string)
    requires 1 <= |question| <= 1000 && 1 <= |reason| <= 500
    ensures ValidatePagination(None, None) == Success(PaginationParams(1, 10))
    ensures ValidateChatQuery(Some(question), None) == Success(ChatQuery(question, false))
    ensures ValidateChatReport(None, Some(referenceId), Some(reason), None)
      == Success(ChatReportRequest(None, referenceId, reason, "chat_message"))
    ensures MakeApiResponse(None, None).status == "ok"
    ensures MakeErrorResponse(None, Some(reason)) == Success(ErrorResponse("error", reason))
    ensures MakePaginationResponse(Some(1), Some(10), Some(0), None, None)
      == Success(PaginationResponse(1, 10, 0, false, false))
  {
  }

  /** Validation is idempotent: the fields of an accepted record are accepted and give it back. */
  lemma RevalidateAccepted(page: Option<int>, limit: Option<int>, question: Option<string>, includeDebug: Option<bool>)
    ensures ValidatePagination(page, limit).Success? ==>
      var p := ValidatePagination(page, limit).value;
      ValidatePagination(Some(p.page), Some(p.limit)) == Success(p)
    ensures ValidateChatQuery(question, includeDebug).Success? ==>
      var q := ValidateChatQuery(question, includeDebug).value;
      ValidateChatQuery(Some(q.question), Some(q.includeDebug)) == Success(q)
  {
  }

  /** The question bound is inclusive at both ends. */
  lemma QuestionBounds(q: string)
    ensures |q| == 0 ==> ValidateChatQuery(Some(q), None) == Failure([TooShort("question", 1)])
    ensures |q| == 1000 ==> ValidateChatQuery(Some(q), None).Success?
    ensures |q| == 1001 ==> ValidateChatQuery(Some(q), None) == Failure([TooLong("question", 1000)])
  {
  }
}
