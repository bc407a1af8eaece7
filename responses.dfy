/** `getCampaignResponses`: fetch every response of a campaign from the
    IK12 API, one page per request, validating each page and concatenating
    the records of all pages.

    The HTTP exchange is an oracle: `server` maps a request (campaign, the
    API key sent as `X-Authorization`, and the query) to the parsed JSON
    body, or to None when the body is not JSON or the transport fails.
    The API key and the `IK12_MAX_PAGES` setting, read from the environment
    by the client, are parameters here. */
module Responses {
  import opened Wrappers
  import opened Schema
  import opened SearchParams

  /** The three ways a call fails: the thrown "API Key not set", a body that
      is not JSON (the rejected `response.json()`), and a page that fails
      `getCampaignResponsesResponseSchema`. */
  datatype FetchError = ApiKeyNotSet | InvalidJson | SchemaInvalid

  datatype Request = Request(campaignId: string, apiKey: string, query: Query)

  type Server = Request -> Option<Json>

  function Min(a: int, b: int): int { if a <= b then a else b }
  function Max(a: int, b: int): int { if a <= b then b else a }

  /** `MAX_PAGES ? parseInt(MAX_PAGES) : 20`; an unset or empty setting is None. */
  function MaxPages(setting: Option<int>): (r: int)
    ensures setting.None? ==> r == 20
    ensures setting.Some? ==> r == setting.value
  {
    match setting
    case Some(m) => m
    case None => 20
  }

  /** JavaScript truthiness of an optional string and of an optional number. */
  predicate IsSent(o: Option<string>) { o.Some? && o.value != "" }
  predicate IsTruthy(o: Option<int>) { o.Some? && o.value != 0 }

  // ---------------------------------------------------------------------
  // Filter parameters

  /** The query name and the option behind each filter, in the order the
      client sets them.  `status` travels as `statusGroup`; `waitingOnStep`
      has no entry: it is never sent. */
  function FilterTable(opts: FetchOpts): seq<(string, Option<string>)> {
    [("statusGroup", opts.status),
     ("firstSubmittedAtStart", opts.firstSubmittedAtStart),
     ("firstSubmittedAtEnd", opts.firstSubmittedAtEnd),
     ("lastSubmittedAtStart", opts.lastSubmittedAtStart),
     ("lastSubmittedAtEnd", opts.lastSubmittedAtEnd),
     ("completedAtStart", opts.completedAtStart),
     ("completedAtEnd", opts.completedAtEnd)]
  }

  predicate NamesDistinct(t: seq<(string, Option<string>)>) {
    forall i, j :: 0 <= i < j < |t| ==> t[i].0 != t[j].0
  }

  /** The pairs of the entries whose option is set and non-empty, in table order. */
  function SentPairs(t: seq<(string, Option<string>)>): Query {
    if t == [] then []
    else (if IsSent(t[0].1) then [(t[0].0, t[0].1.value)] else []) + SentPairs(t[1..])
  }

  /** The filter part of every request's query. */
  function FilterQuery(opts: FetchOpts): Query {
    SentPairs(FilterTable(opts))
  }

  /** The value the first sent entry named `k` carries. */
  function FirstSent(t: seq<(string, Option<string>)>, k: string): Option<string> {
    if t == [] then None
    else if t[0].0 == k && IsSent(t[0].1) then t[0].1
    else FirstSent(t[1..], k)
  }

  /** Applies, in order, `set(name, value)` for every entry whose option is
      set and non-empty. */
  function SetEach(q: Query, t: seq<(string, Option<string>)>): Query
    decreases |t|
  {
    if t == [] then q
    else SetEach(if IsSent(t[0].1) then Set(q, t[0].0, t[0].1.value) else q, t[1..])
  }

  /** With distinct names, an entry's own name finds that entry. */
  lemma {:induction false} FirstSentDistinct(t: seq<(string, Option<string>)>, i: nat)
    requires i < |t| && NamesDistinct(t)
    ensures FirstSent(t, t[i].0) == if IsSent(t[i].1) then t[i].1 else None
  {
    if i == 0 {
      FirstSentAbsent(t[1..], t[0].0);
    } else {
      FirstSentDistinct(t[1..], i - 1);
    }
  }

  lemma {:induction false} FirstSentAbsent(t: seq<(string, Option<string>)>, k: string)
    requires forall i :: 0 <= i < |t| ==> t[i].0 != k
    ensures FirstSent(t, k) == None
  {
    if t != [] {
      FirstSentAbsent(t[1..], k);
    }
  }

  lemma FilterTableDistinct(opts: FetchOpts)
    ensures NamesDistinct(FilterTable(opts))
  {
    var t := FilterTable(opts);
    forall i, j | 0 <= i < j < |t| ensures t[i].0 != t[j].0 {
      assert |t[i].0| != |t[j].0|;
    }
  }

  lemma {:induction false} SentPairsNames(t: seq<(string, Option<string>)>, k: string)
    requires forall i :: 0 <= i < |t| ==> t[i].0 != k
    ensures k !in Names(SentPairs(t))
  {
    if t != [] {
      SentPairsNames(t[1..], k);
      NamesAppend(if IsSent(t[0].1) then [(t[0].0, t[0].1.value)] else [], SentPairs(t[1..]));
    }
  }

  lemma {:induction false} LookupAppend(a: Query, b: Query, k: string)
    ensures Lookup(a + b, k) == if k in Names(a) then Lookup(a, k) else Lookup(b, k)
  {
    if a == [] {
      assert a + b == b;
    } else {
      var ab := a + b;
      assert ab[0] == a[0] && ab[1..] == a[1..] + b;
      LookupAppend(a[1..], b, k);
    }
  }

  /** The query built from a table answers `get(k)` with the first sent
      entry named `k`. */
  lemma {:induction false} SentPairsLookup(t: seq<(string, Option<string>)>, k: string)
    ensures Lookup(SentPairs(t), k) == FirstSent(t, k)
  {
    if t != [] {
      SentPairsLookup(t[1..], k);
      LookupAppend(if IsSent(t[0].1) then [(t[0].0, t[0].1.value)] else [], SentPairs(t[1..]), k);
    }
  }

  /** Setting the entries one by one, none of whose names is present yet,
      appends exactly the sent pairs, in table order. */
  lemma {:induction false} SetEachAppends(q: Query, t: seq<(string, Option<string>)>)
    requires NamesDistinct(t)
    requires forall i :: 0 <= i < |t| ==> t[i].0 !in Names(q)
    ensures SetEach(q, t) == q + SentPairs(t)
    decreases |t|
  {
    if t != [] {
      var e, rest := t[0], t[1..];
      var head: Query := if IsSent(e.1) then [(e.0, e.1.value)] else [];
      var q' := q + head;
      if IsSent(e.1) {
        SetAppendsNew(q, e.0, e.1.value);
      } else {
        assert q' == q;
      }
      assert SetEach(q, t) == SetEach(q', rest);
      NamesAppend(q, head);
      assert Names(head) <= {e.0};
      forall i | 0 <= i < |rest| ensures rest[i].0 !in Names(q') {
        assert rest[i] == t[i + 1];
      }
      forall i, j | 0 <= i < j < |rest| ensures rest[i].0 != rest[j].0 {
        assert rest[i] == t[i + 1] && rest[j] == t[j + 1];
      }
      SetEachAppends(q', rest);
      assert SentPairs(t) == head + SentPairs(rest);
      assert q + SentPairs(t) == q' + SentPairs(rest);
    }
  }

  lemma FilterQueryBuilt(opts: FetchOpts)
    ensures SetEach([], FilterTable(opts)) == FilterQuery(opts)
  {
    FilterTableDistinct(opts);
    SetEachAppends([], FilterTable(opts));
  }

  /** Lines 25-39: start from an empty `URLSearchParams` and `set` every
      non-empty filter under its query name; the result is exactly the
      non-empty filters, in that order. */
  method BuildFilterQuery(opts: FetchOpts) returns (q: Query)
    ensures q == FilterQuery(opts)
  {
    ghost var t := FilterTable(opts);
    q := [];
    if IsSent(opts.status) { q := Set(q, "statusGroup", opts.status.value); }
    assert SetEach(q, t[1..]) == SetEach([], t);
    if IsSent(opts.firstSubmittedAtStart) {
      q := Set(q, "firstSubmittedAtStart", opts.firstSubmittedAtStart.value);
    }
    assert SetEach(q, t[2..]) == SetEach([], t);
    if IsSent(opts.firstSubmittedAtEnd) {
      q := Set(q, "firstSubmittedAtEnd", opts.firstSubmittedAtEnd.value);
    }
    assert SetEach(q, t[3..]) == SetEach([], t);
    if IsSent(opts.lastSubmittedAtStart) {
      q := Set(q, "lastSubmittedAtStart", opts.lastSubmittedAtStart.value);
    }
    assert SetEach(q, t[4..]) == SetEach([], t);
    if IsSent(opts.lastSubmittedAtEnd) {
      q := Set(q, "lastSubmittedAtEnd", opts.lastSubmittedAtEnd.value);
    }
    assert SetEach(q, t[5..]) == SetEach([], t);
    if IsSent(opts.completedAtStart) {
      q := Set(q, "completedAtStart", opts.completedAtStart.value);
    }
    assert SetEach(q, t[6..]) == SetEach([], t);
    if IsSent(opts.completedAtEnd) {
      q := Set(q, "completedAtEnd", opts.completedAtEnd.value);
    }
    assert SetEach(q, t[7..]) == SetEach([], t);
    FilterQueryBuilt(opts);
  }

  /** Each non-empty filter is sent verbatim under its query name, an empty or
      absent one is not sent, and neither `page`, `status` nor
      `waitingOnStep` is ever among the filter parameters. */
  lemma FilterQueryLookup(opts: FetchOpts)
    ensures Lookup(FilterQuery(opts), "statusGroup") == if IsSent(opts.status) then opts.status else None
    ensures Lookup(FilterQuery(opts), "firstSubmittedAtStart") ==
      if IsSent(opts.firstSubmittedAtStart) then opts.firstSubmittedAtStart else None
    ensures Lookup(FilterQuery(opts), "firstSubmittedAtEnd") ==
      if IsSent(opts.firstSubmittedAtEnd) then opts.firstSubmittedAtEnd else None
    ensures Lookup(FilterQuery(opts), "lastSubmittedAtStart") ==
      if IsSent(opts.lastSubmittedAtStart) then opts.lastSubmittedAtStart else None
    ensures Lookup(FilterQuery(opts), "lastSubmittedAtEnd") ==
      if IsSent(opts.lastSubmittedAtEnd) then opts.lastSubmittedAtEnd else None
    ensures Lookup(FilterQuery(opts), "completedAtStart") ==
      if IsSent(opts.completedAtStart) then opts.completedAtStart else None
    ensures Lookup(FilterQuery(opts), "completedAtEnd") ==
      if IsSent(opts.completedAtEnd) then opts.completedAtEnd else None
    ensures "page" !in Names(FilterQuery(opts))
    ensures "status" !in Names(FilterQuery(opts))
    ensures "waitingOnStep" !in Names(FilterQuery(opts))
  {
    var t := FilterTable(opts);
    FilterTableDistinct(opts);
    SentPairsLookup(t, "statusGroup");
    FirstSentDistinct(t, 0);
    SentPairsLookup(t, "firstSubmittedAtStart");
    FirstSentDistinct(t, 1);
    SentPairsLookup(t, "firstSubmittedAtEnd");
    FirstSentDistinct(t, 2);
    SentPairsLookup(t, "lastSubmittedAtStart");
    FirstSentDistinct(t, 3);
    SentPairsLookup(t, "lastSubmittedAtEnd");
    FirstSentDistinct(t, 4);
    SentPairsLookup(t, "completedAtStart");
    FirstSentDistinct(t, 5);
    SentPairsLookup(t, "completedAtEnd");
    FirstSentDistinct(t, 6);
    forall k | k in {"page", "status", "waitingOnStep"} ensures k !in Names(SentPairs(t)) {
      SentPairsNames(t, k);
    }
  }

  // ---------------------------------------------------------------------
  // The page parameter and the continuation rule

  /** Lines 46-47: `opts?.page ?? page > 1` decides whether `page` is set,
      and `opts?.page?.toString() ?? page.toString()` what it is set to. */
  function PageParam(opts: FetchOpts, page: int): (r: Option<string>)
    ensures r.None? <==> if opts.page.Some? then opts.page.value == 0 else page <= 1
    ensures r.Some? ==> ParseInt(r.value) == Some(if opts.page.Some? then opts.page.value else page)
  {
    IntToStringRoundTrip(if opts.page.Some? then opts.page.value else page);
    match opts.page
    case Some(p) => if p != 0 then Some(IntToString(p)) else None
    case None => if page > 1 then Some(IntToString(page)) else None
  }

  /** The filter parameters with the `page` parameter, if any, set. */
  function WithPage(filters: Query, param: Option<string>): Query {
    match param
    case Some(v) => Set(filters, "page", v)
    case None => filters
  }

  /** What the client makes of the answer to a request: a validated page or
      the error it throws. */
  type Responder = Request -> Result<Envelope, FetchError>

  /** What the fetch loop needs of one call of `getCampaignResponses`: the
      request it makes for each value of the local page counter, the caller's
      options, the page cap, and the server seen through validation.  The
      loop's properties hold whatever the requests are; `ClientCall` gives
      the requests the client builds. */
  datatype Call = Call(request: int -> Request, opts: FetchOpts, maxPages: int, respond: Responder)

  /** The query of the request made for local page counter `page`: the filter
      parameters with `page` set as lines 46-47 say. */
  function RequestQuery(opts: FetchOpts, filters: Query, page: int): Query {
    WithPage(filters, PageParam(opts, page))
  }

  /** The request the client makes for each value of the page counter. */
  function Requests(campaignId: string, apiKey: string, opts: FetchOpts, filters: Query): int -> Request {
    page => Request(campaignId, apiKey, RequestQuery(opts, filters, page))
  }

  /** The call the client makes with these parameters. */
  function ClientCall(campaignId: string, apiKey: string, opts: FetchOpts, filters: Query,
                      maxPages: int, server: Server): Call {
    Call(Requests(campaignId, apiKey, opts, filters), opts, maxPages, Validated(server))
  }

  /** Lines 55-68: the body must be JSON and pass the page schema. */
  function Validate(body: Option<Json>): (r: Result<Envelope, FetchError>)
    ensures r.Ok? <==> body.Some? && IsEnvelope(body.value)
    ensures r.Ok? ==> ParseEnvelope(body.value) == Some(r.value)
    ensures body.None? ==> r == Err(InvalidJson)
    ensures body.Some? && !IsEnvelope(body.value) ==> r == Err(SchemaInvalid)
  {
    match body
    case None => Err(InvalidJson)
    case Some(j) =>
      match ParseEnvelope(j)
      case None => Err(SchemaInvalid)
      case Some(e) => Ok(e)
  }

  /** The server followed by validation. */
  function Validated(server: Server): Responder {
    req => Validate(server(req))
  }

  /** Lines 72-86: another page is fetched only when the caller named no page,
      asked for all pages, and both the server's `currentPage` and the local
      counter are below `min(totalPages, maxPages)`. */
  predicate Continues(opts: FetchOpts, maxPages: int, p: Pagination, page: int)
    ensures Continues(opts, maxPages, p, page) ==>
      page < maxPages && page < p.totalPages && p.currentPage < p.totalPages
  {
    var cap := Min(p.totalPages, maxPages);
    !IsTruthy(opts.page) && opts.retrieveAllPages == Some(true) && p.currentPage < cap && page < cap
  }

  /** What a call sends and what it returns. */
  datatype Trace = Trace(sent: seq<Request>, result: Result<seq<FormItem>, FetchError>)

  /** The fetch loop from local page counter `page` on, as a recursive definition. */
  function FetchFrom(c: Call, page: int): Trace
    decreases c.maxPages - page
  {
    var req := c.request(page);
    match c.respond(req)
    case Err(e) => Trace([req], Err(e))
    case Ok(env) =>
      if Continues(c.opts, c.maxPages, env.pagination, page) then
        var rest := FetchFrom(c, page + 1);
        Trace([req] + rest.sent,
              match rest.result
              case Ok(more) => Ok(env.data + more)
              case Err(e) => Err(e))
      else Trace([req], Ok(env.data))
  }

  /** The records of a validated page; none for a page that fails. */
  function PageData(respond: Responder, req: Request): seq<FormItem> {
    match respond(req)
    case Ok(env) => env.data
    case Err(_) => []
  }

  /** The records of the given pages, concatenated in request order. */
  function PagesData(respond: Responder, reqs: seq<Request>): seq<FormItem> {
    if reqs == [] then [] else PageData(respond, reqs[0]) + PagesData(respond, reqs[1..])
  }

  // ---------------------------------------------------------------------
  // Properties of the fetch loop

  /** Requests go out for consecutive counter values `page`, `page + 1`, ...,
      at least one, and the counter only advances when the continuation rule
      held for the page just fetched. */
  lemma FetchRequests(c: Call, page: int)
    ensures var t := FetchFrom(c, page);
      && |t.sent| >= 1
      && (forall i :: 0 <= i < |t.sent| ==> t.sent[i] == c.request(page + i))
      && (forall i :: 0 <= i < |t.sent| - 1 ==>
            c.respond(t.sent[i]).Ok? &&
            Continues(c.opts, c.maxPages, c.respond(t.sent[i]).value.pagination, page + i))
  {
    var t := FetchFrom(c, page);
    forall i | 0 <= i < |t.sent| ensures t.sent[i] == c.request(page + i) {
      FetchSentAt(c, page, i);
    }
    forall i | 0 <= i < |t.sent| - 1
      ensures c.respond(t.sent[i]).Ok?
      ensures Continues(c.opts, c.maxPages, c.respond(t.sent[i]).value.pagination, page + i)
    {
      FetchContinuedAt(c, page, i);
    }
  }

  /** A call that sends two requests or more got a valid first page on which
      the continuation rule held, and went on from the next counter. */
  lemma FetchUnfold(c: Call, page: int)
    requires |FetchFrom(c, page).sent| >= 2
    ensures var req := c.request(page);
      && c.respond(req).Ok?
      && Continues(c.opts, c.maxPages, c.respond(req).value.pagination, page)
      && FetchFrom(c, page).sent == [req] + FetchFrom(c, page + 1).sent
  {
  }

  /** Request `i` is the request for counter `page + i`. */
  lemma {:induction false} FetchSentAt(c: Call, page: int, i: nat)
    requires i < |FetchFrom(c, page).sent|
    ensures FetchFrom(c, page).sent[i] == c.request(page + i)
    decreases i
  {
    if i > 0 {
      FetchUnfold(c, page);
      FetchSentAt(c, page + 1, i - 1);
      assert page + 1 + (i - 1) == page + i;
    }
  }

  /** Request `i`, when it is not the last, received a valid page on which
      the continuation rule held for counter `page + i`. */
  lemma {:induction false} FetchContinuedAt(c: Call, page: int, i: nat)
    requires i < |FetchFrom(c, page).sent| - 1
    ensures var r := FetchFrom(c, page).sent[i];
      c.respond(r).Ok? && Continues(c.opts, c.maxPages, c.respond(r).value.pagination, page + i)
    decreases i
  {
    FetchUnfold(c, page);
    if i > 0 {
      FetchContinuedAt(c, page + 1, i - 1);
      assert page + 1 + (i - 1) == page + i;
    }
  }

  /** A successful call returns the concatenation, in request order, of the
      records of every page it fetched, all of which validated; and it
      stopped because the continuation rule failed on the last page.  A
      failed call fails on its last request, every earlier page having
      validated, and returns no records at all. */
  lemma FetchResult(c: Call, page: int)
    ensures var t := FetchFrom(c, page);
      && |t.sent| >= 1
      && (forall i :: 0 <= i < |t.sent| - 1 ==> c.respond(t.sent[i]).Ok?)
      && (t.result.Ok? ==>
            && c.respond(t.sent[|t.sent| - 1]).Ok?
            && !Continues(c.opts, c.maxPages,
                          c.respond(t.sent[|t.sent| - 1]).value.pagination, page + |t.sent| - 1)
            && t.result.value == PagesData(c.respond, t.sent))
      && (t.result.Err? ==> c.respond(t.sent[|t.sent| - 1]) == Err(t.result.error))
  {
    FetchRequests(c, page);
    FetchLast(c, page);
    FetchData(c, page);
  }

  /** The last request decides the outcome: a success had a valid last page
      on which the continuation rule failed, and a failure is that request's
      error. */
  lemma {:induction false} FetchLast(c: Call, page: int)
    ensures var t := FetchFrom(c, page);
      && |t.sent| >= 1
      && (t.result.Ok? ==>
            && c.respond(t.sent[|t.sent| - 1]).Ok?
            && !Continues(c.opts, c.maxPages,
                          c.respond(t.sent[|t.sent| - 1]).value.pagination, page + |t.sent| - 1))
      && (t.result.Err? ==> c.respond(t.sent[|t.sent| - 1]) == Err(t.result.error))
    decreases c.maxPages - page
  {
    var req := c.request(page);
    match c.respond(req)
    case Err(e) =>
    case Ok(env) =>
      if Continues(c.opts, c.maxPages, env.pagination, page) {
        FetchLast(c, page + 1);
        var rest := FetchFrom(c, page + 1);
        var t := FetchFrom(c, page);
        assert t.sent == [req] + rest.sent;
        assert t.sent[|t.sent| - 1] == rest.sent[|rest.sent| - 1] by {
          assert |t.sent| == 1 + |rest.sent|;
        }
        assert page + |t.sent| - 1 == page + 1 + |rest.sent| - 1 by {
          assert |t.sent| == 1 + |rest.sent|;
        }
        assert t.result.Ok? == rest.result.Ok?;
        assert t.result.Err? ==> t.result.error == rest.result.error;
      }
  }

  /** A success returns the records of every page sent, in request order. */
  lemma {:induction false} FetchData(c: Call, page: int)
    ensures var t := FetchFrom(c, page);
      t.result.Ok? ==> t.result.value == PagesData(c.respond, t.sent)
    decreases c.maxPages - page
  {
    var req := c.request(page);
    var t := FetchFrom(c, page);
    match c.respond(req)
    case Err(e) =>
    case Ok(env) =>
      if Continues(c.opts, c.maxPages, env.pagination, page) {
        FetchData(c, page + 1);
        var rest := FetchFrom(c, page + 1);
        assert t.sent == [req] + rest.sent;
        assert t.sent[1..] == rest.sent;
      } else {
        assert PagesData(c.respond, t.sent) == env.data + PagesData(c.respond, []);
      }
  }

  /** The counter starts at `page` and only advances while it is below a cap
      that is at most `maxPages`, so at most `max(1, maxPages - page + 1)`
      requests are made. */
  lemma {:induction false} FetchCount(c: Call, page: int)
    ensures |FetchFrom(c, page).sent| <= Max(1, c.maxPages - page + 1)
    decreases c.maxPages - page
  {
    var req := c.request(page);
    match c.respond(req)
    case Err(e) =>
    case Ok(env) =>
      if Continues(c.opts, c.maxPages, env.pagination, page) {
        FetchCount(c, page + 1);
      }
  }

  /** An explicit non-zero `page`, or `retrieveAllPages` not true, means
      exactly one request. */
  lemma SingleRequestUnlessPaging(c: Call, page: int)
    requires IsTruthy(c.opts.page) || c.opts.retrieveAllPages != Some(true)
    ensures |FetchFrom(c, page).sent| == 1
  {
  }

  /** The `page` query parameter of request number `k` (counting from 1):
      absent on the first request and `k` afterwards when the caller named no
      page; the caller's page on the (single) request when it is non-zero;
      never present when the caller's page is 0. */
  lemma PageParameterOfRequest(opts: FetchOpts, filters: Query, k: int)
    requires "page" !in Names(filters)
    ensures Lookup(RequestQuery(opts, filters, k), "page") ==
      match opts.page
      case None => if k > 1 then Some(IntToString(k)) else None
      case Some(p) => if p != 0 then Some(IntToString(p)) else None
  {
    match PageParam(opts, k)
    case Some(v) => SetLookup(filters, "page", v, "page");
    case None =>
  }

  /** Every request carries the same filter parameters, whatever its page. */
  lemma FiltersOfRequest(opts: FetchOpts, filters: Query, k: int, name: string)
    requires name != "page"
    ensures Lookup(RequestQuery(opts, filters, k), name) == Lookup(filters, name)
  {
    match PageParam(opts, k)
    case Some(v) => SetLookup(filters, "page", v, name);
    case None =>
  }

  // ---------------------------------------------------------------------
  // The loop itself

  /** The query in place before the request for counter `page` sets `page`. */
  function QueryBefore(opts: FetchOpts, filters: Query, page: int): Query {
    if page <= 1 then filters else RequestQuery(opts, filters, page - 1)
  }

  /** Joins what earlier passes of the loop sent and accumulated to the trace
      of the passes still to come. */
  function Join(sent: seq<Request>, data: seq<FormItem>, rest: Trace): Trace {
    Trace(sent + rest.sent,
          match rest.result
          case Ok(more) => Ok(data + more)
          case Err(e) => Err(e))
  }

  lemma JoinNothing(t: Trace)
    ensures Join([], [], t) == t
  {
    assert [] + t.sent == t.sent;
    match t.result
    case Ok(more) => assert [] + more == more;
    case Err(_) =>
  }

  /** One pass of the loop, in terms of the recursive definition. */
  lemma JoinStep(c: Call, page: int, sent: seq<Request>, data: seq<FormItem>)
    ensures var req := c.request(page);
      match c.respond(req)
      case Err(e) => Join(sent, data, FetchFrom(c, page)) == Trace(sent + [req], Err(e))
      case Ok(env) =>
        if Continues(c.opts, c.maxPages, env.pagination, page)
        then Join(sent, data, FetchFrom(c, page)) == Join(sent + [req], data + env.data, FetchFrom(c, page + 1))
        else Join(sent, data, FetchFrom(c, page)) == Trace(sent + [req], Ok(data + env.data))
  {
    var req := c.request(page);
    match c.respond(req)
    case Err(e) =>
    case Ok(env) =>
      if Continues(c.opts, c.maxPages, env.pagination, page) {
        var rest := FetchFrom(c, page + 1);
        assert sent + ([req] + rest.sent) == (sent + [req]) + rest.sent;
        match rest.result
        case Ok(more) => assert data + (env.data + more) == (data + env.data) + more;
        case Err(_) =>
      }
  }

  /** Setting `page` on the query left by the previous pass gives the query
      the recursive definition prescribes for this pass. */
  lemma QueryStep(opts: FetchOpts, filters: Query, page: int)
    requires page >= 1
    requires page > 1 ==> !IsTruthy(opts.page)
    ensures WithPage(QueryBefore(opts, filters, page), PageParam(opts, page)) == RequestQuery(opts, filters, page)
  {
    if page > 1 && opts.page.None? && page - 1 > 1 {
      SetSet(filters, "page", IntToString(page - 1), IntToString(page));
    }
  }

  /** Lines 41-88: the `do ... while` loop.  Starting from the filter
      parameters, it requests page after page, validates each one, appends
      its records, and decides from the page's pagination whether to go on. */
  method FetchPages(campaignId: string, apiKey: string, opts: FetchOpts, filters: Query,
                    maxPages: int, server: Server)
    returns (r: Result<seq<FormItem>, FetchError>, ghost sent: seq<Request>)
    ensures r == FetchFrom(ClientCall(campaignId, apiKey, opts, filters, maxPages, server), 1).result
    ensures sent == FetchFrom(ClientCall(campaignId, apiKey, opts, filters, maxPages, server), 1).sent
  {
    ghost var c := ClientCall(campaignId, apiKey, opts, filters, maxPages, server);
    var searchParams := filters;
    var page := 1;
    var nextPageAvailable := true;
    var data: seq<FormItem> := [];
    sent := [];
    JoinNothing(FetchFrom(c, 1));
    while nextPageAvailable
      invariant page >= 1
      invariant page > 1 ==> !IsTruthy(opts.page)
      invariant nextPageAvailable ==> searchParams == QueryBefore(opts, filters, page)
      invariant nextPageAvailable ==> FetchFrom(c, 1) == Join(sent, data, FetchFrom(c, page))
      invariant !nextPageAvailable ==> FetchFrom(c, 1) == Trace(sent, Ok(data))
      decreases nextPageAvailable, maxPages - page
    {
      if (match opts.page case Some(p) => p != 0 case None => page > 1) {
        searchParams := Set(searchParams, "page",
                            match opts.page case Some(p) => IntToString(p) case None => IntToString(page));
      }
      QueryStep(opts, filters, page);
      var request := Request(campaignId, apiKey, searchParams);
      assert request == c.request(page);
      JoinStep(c, page, sent, data);
      sent := sent + [request];
      var body := server(request);
      assert c.respond(request) == Validate(body);
      if body.None? {
        return Err(InvalidJson), sent;
      }
      var parsed := ParseEnvelope(body.value);
      if parsed.None? {
        return Err(SchemaInvalid), sent;
      }
      data := data + parsed.value.data;

      nextPageAvailable := false;
      var currentPage := parsed.value.pagination.currentPage;
      var totalPages := Min(parsed.value.pagination.totalPages, maxPages);
      if !IsTruthy(opts.page) && opts.retrieveAllPages == Some(true) &&
         currentPage < totalPages && page < totalPages {
        nextPageAvailable := true;
        page := page + 1;
      }
    }
    r := Ok(data);
  }

  /** `getCampaignResponses(campaignId, opts)`.  An omitted `opts` is `NoOpts`;
      `sent` records every request made, in order. */
  method GetCampaignResponses(campaignId: string, opts: FetchOpts, apiKey: string,
                              maxPagesSetting: Option<int>, server: Server)
    returns (r: Result<seq<FormItem>, FetchError>, ghost sent: seq<Request>)
    ensures apiKey == "" ==> r == Err(ApiKeyNotSet)
    ensures apiKey == "" ==> sent == []
    ensures apiKey != "" ==>
      r == FetchFrom(ClientCall(campaignId, apiKey, opts, FilterQuery(opts), MaxPages(maxPagesSetting),
                                server), 1).result
    ensures apiKey != "" ==>
      sent == FetchFrom(ClientCall(campaignId, apiKey, opts, FilterQuery(opts), MaxPages(maxPagesSetting),
                                   server), 1).sent
    ensures apiKey != "" ==> 1 <= |sent| <= Max(1, MaxPages(maxPagesSetting))
    ensures forall i :: 0 <= i < |sent| ==>
      sent[i] == Request(campaignId, apiKey, RequestQuery(opts, FilterQuery(opts), i + 1))
    ensures r.Ok? ==> r.value == PagesData(Validated(server), sent)
  {
    if apiKey == "" {
      return Err(ApiKeyNotSet), [];
    }
    var maxPages := MaxPages(maxPagesSetting);
    var searchParams := BuildFilterQuery(opts);
    r, sent := FetchPages(campaignId, apiKey, opts, searchParams, maxPages, server);
    ghost var c := ClientCall(campaignId, apiKey, opts, searchParams, maxPages, server);
    FetchRequests(c, 1);
    FetchResult(c, 1);
    FetchCount(c, 1);
  }
}
