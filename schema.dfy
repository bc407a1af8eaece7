/** The response schemas of the IK12 client: the shape of one custom field,
    of one submitted form, of one page of the campaign-responses endpoint,
    and of the caller's fetch options.  Each zod schema becomes a validity
    predicate over a parsed JSON value (what `safeParse` accepts) and a
    parser that produces the typed value when, and only when, it is valid. */
module Schema {
  import opened Wrappers

  /** A parsed JSON value.  Numbers are integers in this model; an object is
      a map from member names to values (JSON.parse keeps one value per name). */
  datatype Json =
    | JNull
    | JBool(b: bool)
    | JNumber(n: int)
    | JString(s: string)
    | JArray(items: seq<Json>)
    | JObject(members: map<string, Json>)

  /** `FormCustomField`: one numbered, labelled value of a submitted form
      (`label` is a Dafny keyword, hence `fieldLabel`). */
  datatype FormCustomField = FormCustomField(number: int, fieldLabel: string, value: string)

  /** `FormItem`: one submitted form (one response of a campaign). */
  datatype FormItem = FormItem(
    formId: int,
    currentResponseLink: string,
    firstSubmittedAt: string,
    lastSubmittedAt: string,
    completedAt: string,
    status: string,
    currentRecipientName: string,
    currentRecipientEmail: string,
    initiatorName: string,
    initiatorEmail: string,
    waitingOnStep: string,
    waitingOnStepLabel: string,
    fields: seq<FormCustomField>)

  /** `meta.pagination` of a response page. */
  datatype Pagination = Pagination(currentPage: int, totalPages: int)

  /** One page of the campaign-responses endpoint.  `meta` is required by the
      schema and holds nothing but `pagination`, so it is flattened here. */
  datatype Envelope = Envelope(data: seq<FormItem>, pagination: Pagination)

  /** `GetCampaignResponsesOpts`: every member is optional. */
  datatype FetchOpts = FetchOpts(
    status: Option<string>,
    firstSubmittedAtStart: Option<string>,
    firstSubmittedAtEnd: Option<string>,
    lastSubmittedAtStart: Option<string>,
    lastSubmittedAtEnd: Option<string>,
    completedAtStart: Option<string>,
    completedAtEnd: Option<string>,
    waitingOnStep: Option<string>,
    page: Option<int>,
    retrieveAllPages: Option<bool>)

  /** The options object with no member set (also what an omitted `opts` reads as). */
  const NoOpts := FetchOpts(None, None, None, None, None, None, None, None, None, None)

  // ---------------------------------------------------------------------
  // Member tests shared by the schemas

  predicate IsStringAt(m: map<string, Json>, k: string) {
    k in m && m[k].JString?
  }

  predicate IsNumberAt(m: map<string, Json>, k: string) {
    k in m && m[k].JNumber?
  }

  /** `z.array(p)` at member `k`. */
  predicate IsArrayAt(m: map<string, Json>, k: string, p: Json -> bool) {
    k in m && m[k].JArray? && forall i :: 0 <= i < |m[k].items| ==> p(m[k].items[i])
  }

  /** `z.string().optional()` at member `k`: absent, or a string. */
  predicate IsOptionalStringAt(m: map<string, Json>, k: string) {
    k !in m || m[k].JString?
  }

  /** Parses every element with `parse`; fails as a whole when one element fails. */
  function ParseAll<T>(items: seq<Json>, parse: Json -> Option<T>): (r: Option<seq<T>>)
    ensures r.Some? <==> forall i :: 0 <= i < |items| ==> parse(items[i]).Some?
    ensures r.Some? ==>
      |r.value| == |items| && forall i :: 0 <= i < |items| ==> parse(items[i]) == Some(r.value[i])
  {
    if items == [] then Some([])
    else
      match parse(items[0])
      case None => None
      case Some(x) =>
        match ParseAll(items[1..], parse)
        case None =>
          assert forall i :: 1 <= i < |items| ==> items[i] == items[1..][i - 1];
          None
        case Some(xs) => Some([x] + xs)
  }

  // ---------------------------------------------------------------------
  // formCustomFieldSchema

  /** `{ number: number, label: string, value: string }` */
  predicate IsCustomField(j: Json) {
    j.JObject? && IsNumberAt(j.members, "number") &&
    IsStringAt(j.members, "label") && IsStringAt(j.members, "value")
  }

  function ParseCustomField(j: Json): (r: Option<FormCustomField>)
    ensures r.Some? <==> IsCustomField(j)
    ensures r.Some? ==>
      j.members["number"] == JNumber(r.value.number) &&
      j.members["label"] == JString(r.value.fieldLabel) &&
      j.members["value"] == JString(r.value.value)
  {
    if IsCustomField(j) then
      Some(FormCustomField(j.members["number"].n, j.members["label"].s, j.members["value"].s))
    else None
  }

  function CustomFieldToJson(f: FormCustomField): Json {
    JObject(map["number" := JNumber(f.number), "label" := JString(f.fieldLabel), "value" := JString(f.value)])
  }

  // ---------------------------------------------------------------------
  // formSchema

  /** The eleven string members of a form. */
  predicate HasFormStrings(m: map<string, Json>) {
    && IsStringAt(m, "currentResponseLink") && IsStringAt(m, "firstSubmittedAt")
    && IsStringAt(m, "lastSubmittedAt") && IsStringAt(m, "completedAt")
    && IsStringAt(m, "status") && IsStringAt(m, "currentRecipientName")
    && IsStringAt(m, "currentRecipientEmail") && IsStringAt(m, "initiatorName")
    && IsStringAt(m, "initiatorEmail") && IsStringAt(m, "waitingOnStep")
    && IsStringAt(m, "waitingOnStepLabel")
  }

  /** `formId` a number, the eleven other scalars strings, `fields` an array of custom fields. */
  predicate IsForm(j: Json) {
    && j.JObject?
    && IsNumberAt(j.members, "formId")
    && HasFormStrings(j.members)
    && IsArrayAt(j.members, "fields", IsCustomField)
  }

  function ParseForm(j: Json): (r: Option<FormItem>)
    ensures r.Some? <==> IsForm(j)
    ensures r.Some? ==>
      j.members["formId"] == JNumber(r.value.formId) &&
      ParseAll(j.members["fields"].items, ParseCustomField) == Some(r.value.fields)
    ensures r.Some? ==>
      var m := j.members;
      && m["currentResponseLink"] == JString(r.value.currentResponseLink)
      && m["firstSubmittedAt"] == JString(r.value.firstSubmittedAt)
      && m["lastSubmittedAt"] == JString(r.value.lastSubmittedAt)
      && m["completedAt"] == JString(r.value.completedAt)
      && m["status"] == JString(r.value.status)
      && m["currentRecipientName"] == JString(r.value.currentRecipientName)
      && m["currentRecipientEmail"] == JString(r.value.currentRecipientEmail)
      && m["initiatorName"] == JString(r.value.initiatorName)
      && m["initiatorEmail"] == JString(r.value.initiatorEmail)
      && m["waitingOnStep"] == JString(r.value.waitingOnStep)
      && m["waitingOnStepLabel"] == JString(r.value.waitingOnStepLabel)
  {
    if !j.JObject? then None
    else
      var m := j.members;
      if !(IsNumberAt(m, "formId") && HasFormStrings(m) && "fields" in m && m["fields"].JArray?)
      then None
      else
        match ParseAll(m["fields"].items, ParseCustomField)
        case None => None
        case Some(fs) =>
          Some(FormItem(
            m["formId"].n,
            m["currentResponseLink"].s, m["firstSubmittedAt"].s, m["lastSubmittedAt"].s,
            m["completedAt"].s, m["status"].s, m["currentRecipientName"].s,
            m["currentRecipientEmail"].s, m["initiatorName"].s, m["initiatorEmail"].s,
            m["waitingOnStep"].s, m["waitingOnStepLabel"].s,
            fs))
  }

  function FormToJson(f: FormItem): Json {
    JObject(map[
      "formId" := JNumber(f.formId),
      "currentResponseLink" := JString(f.currentResponseLink),
      "firstSubmittedAt" := JString(f.firstSubmittedAt),
      "lastSubmittedAt" := JString(f.lastSubmittedAt),
      "completedAt" := JString(f.completedAt),
      "status" := JString(f.status),
      "currentRecipientName" := JString(f.currentRecipientName),
      "currentRecipientEmail" := JString(f.currentRecipientEmail),
      "initiatorName" := JString(f.initiatorName),
      "initiatorEmail" := JString(f.initiatorEmail),
      "waitingOnStep" := JString(f.waitingOnStep),
      "waitingOnStepLabel" := JString(f.waitingOnStepLabel),
      "fields" := JArray(seq(|f.fields|, i requires 0 <= i < |f.fields| => CustomFieldToJson(f.fields[i])))])
  }

  // ---------------------------------------------------------------------
  // getCampaignResponsesResponseSchema

  /** `{ data: FormItem[], meta: { pagination: { currentPage: number, totalPages: number } } }` */
  predicate IsEnvelope(j: Json) {
    && j.JObject?
    && IsArrayAt(j.members, "data", IsForm)
    && "meta" in j.members && j.members["meta"].JObject?
    && "pagination" in j.members["meta"].members
    && j.members["meta"].members["pagination"].JObject?
    && IsNumberAt(j.members["meta"].members["pagination"].members, "currentPage")
    && IsNumberAt(j.members["meta"].members["pagination"].members, "totalPages")
  }

  function ParseEnvelope(j: Json): (r: Option<Envelope>)
    ensures r.Some? <==> IsEnvelope(j)
    ensures r.Some? ==> ParseAll(j.members["data"].items, ParseForm) == Some(r.value.data)
  {
    if !(j.JObject? && "data" in j.members && j.members["data"].JArray?) then None
    else if !("meta" in j.members && j.members["meta"].JObject?
              && "pagination" in j.members["meta"].members
              && j.members["meta"].members["pagination"].JObject?) then None
    else
      var p := j.members["meta"].members["pagination"].members;
      if !(IsNumberAt(p, "currentPage") && IsNumberAt(p, "totalPages")) then None
      else
        match ParseAll(j.members["data"].items, ParseForm)
        case None => None
        case Some(forms) => Some(Envelope(forms, Pagination(p["currentPage"].n, p["totalPages"].n)))
  }

  function EnvelopeToJson(e: Envelope): Json {
    JObject(map[
      "data" := JArray(seq(|e.data|, i requires 0 <= i < |e.data| => FormToJson(e.data[i]))),
      "meta" := JObject(map["pagination" := JObject(map[
        "currentPage" := JNumber(e.pagination.currentPage),
        "totalPages" := JNumber(e.pagination.totalPages)])])])
  }

  // ---------------------------------------------------------------------
  // getCampaignResponsesOptsSchema

  /** The eight optional string members of the fetch options. */
  predicate HasOptsStrings(m: map<string, Json>) {
    && IsOptionalStringAt(m, "status")
    && IsOptionalStringAt(m, "firstSubmittedAtStart") && IsOptionalStringAt(m, "firstSubmittedAtEnd")
    && IsOptionalStringAt(m, "lastSubmittedAtStart") && IsOptionalStringAt(m, "lastSubmittedAtEnd")
    && IsOptionalStringAt(m, "completedAtStart") && IsOptionalStringAt(m, "completedAtEnd")
    && IsOptionalStringAt(m, "waitingOnStep")
  }

  /** Every member optional; when present `page` is a number, `retrieveAllPages`
      a boolean and the rest strings. */
  predicate IsFetchOpts(j: Json) {
    && j.JObject?
    && HasOptsStrings(j.members)
    && ("page" in j.members ==> j.members["page"].JNumber?)
    && ("retrieveAllPages" in j.members ==> j.members["retrieveAllPages"].JBool?)
  }

  function OptionalString(m: map<string, Json>, k: string): (r: Option<string>)
    requires IsOptionalStringAt(m, k)
    ensures r.None? <==> k !in m
    ensures r.Some? ==> m[k] == JString(r.value)
  {
    if k in m then Some(m[k].s) else None
  }

  function ParseFetchOpts(j: Json): (r: Option<FetchOpts>)
    ensures r.Some? <==> IsFetchOpts(j)
    ensures r.Some? ==>
      (r.value.page.Some? <==> "page" in j.members) &&
      (r.value.retrieveAllPages.Some? <==> "retrieveAllPages" in j.members)
    ensures r.Some? && r.value.page.Some? ==> j.members["page"] == JNumber(r.value.page.value)
    ensures r.Some? && r.value.retrieveAllPages.Some? ==>
      j.members["retrieveAllPages"] == JBool(r.value.retrieveAllPages.value)
    ensures r.Some? ==>
      var m := j.members;
      && r.value.status == OptionalString(m, "status")
      && r.value.firstSubmittedAtStart == OptionalString(m, "firstSubmittedAtStart")
      && r.value.firstSubmittedAtEnd == OptionalString(m, "firstSubmittedAtEnd")
      && r.value.lastSubmittedAtStart == OptionalString(m, "lastSubmittedAtStart")
      && r.value.lastSubmittedAtEnd == OptionalString(m, "lastSubmittedAtEnd")
      && r.value.completedAtStart == OptionalString(m, "completedAtStart")
      && r.value.completedAtEnd == OptionalString(m, "completedAtEnd")
      && r.value.waitingOnStep == OptionalString(m, "waitingOnStep")
  {
    if !IsFetchOpts(j) then None
    else
      var m := j.members;
      Some(FetchOpts(
        OptionalString(m, "status"),
        OptionalString(m, "firstSubmittedAtStart"), OptionalString(m, "firstSubmittedAtEnd"),
        OptionalString(m, "lastSubmittedAtStart"), OptionalString(m, "lastSubmittedAtEnd"),
        OptionalString(m, "completedAtStart"), OptionalString(m, "completedAtEnd"),
        OptionalString(m, "waitingOnStep"),
        if "page" in m then Some(m["page"].n) else None,
        if "retrieveAllPages" in m then Some(m["retrieveAllPages"].b) else None))
  }

  // ---------------------------------------------------------------------
  // Properties of the schemas

  /** The parser accepts the encoding of every field, form and page and
      gives back the value encoded: the schemas and the types agree. */
  lemma CustomFieldRoundTrip(f: FormCustomField)
    ensures ParseCustomField(CustomFieldToJson(f)) == Some(f)
  {
  }

  /** The members `FormToJson` writes, one by one. */
  lemma FormToJsonMembers(f: FormItem)
    ensures var m := FormToJson(f).members;
      && m["formId"] == JNumber(f.formId)
      && m["currentResponseLink"] == JString(f.currentResponseLink)
      && m["firstSubmittedAt"] == JString(f.firstSubmittedAt)
      && m["lastSubmittedAt"] == JString(f.lastSubmittedAt)
      && m["completedAt"] == JString(f.completedAt)
      && m["status"] == JString(f.status)
      && m["currentRecipientName"] == JString(f.currentRecipientName)
      && m["currentRecipientEmail"] == JString(f.currentRecipientEmail)
      && m["initiatorName"] == JString(f.initiatorName)
      && m["initiatorEmail"] == JString(f.initiatorEmail)
      && m["waitingOnStep"] == JString(f.waitingOnStep)
      && m["waitingOnStepLabel"] == JString(f.waitingOnStepLabel)
      && m["fields"].JArray? && |m["fields"].items| == |f.fields|
      && forall i :: 0 <= i < |f.fields| ==> m["fields"].items[i] == CustomFieldToJson(f.fields[i])
  {
  }

  lemma {:induction false} FormRoundTrip(f: FormItem)
    ensures ParseForm(FormToJson(f)) == Some(f)
  {
    FormToJsonMembers(f);
    var j := FormToJson(f);
    var items := j.members["fields"].items;
    forall i | 0 <= i < |items| ensures ParseCustomField(items[i]) == Some(f.fields[i]) {
      CustomFieldRoundTrip(f.fields[i]);
    }
    var fs := ParseAll(items, ParseCustomField);
    assert fs.value == f.fields;
    ParseFormOf(j, f);
  }

  /** A form whose members all carry the values of `f` parses to `f`. */
  lemma ParseFormOf(j: Json, f: FormItem)
    requires j.JObject?
    requires var m := j.members;
      && "formId" in m && m["formId"] == JNumber(f.formId)
      && "currentResponseLink" in m && m["currentResponseLink"] == JString(f.currentResponseLink)
      && "firstSubmittedAt" in m && m["firstSubmittedAt"] == JString(f.firstSubmittedAt)
      && "lastSubmittedAt" in m && m["lastSubmittedAt"] == JString(f.lastSubmittedAt)
      && "completedAt" in m && m["completedAt"] == JString(f.completedAt)
      && "status" in m && m["status"] == JString(f.status)
      && "currentRecipientName" in m && m["currentRecipientName"] == JString(f.currentRecipientName)
      && "currentRecipientEmail" in m && m["currentRecipientEmail"] == JString(f.currentRecipientEmail)
      && "initiatorName" in m && m["initiatorName"] == JString(f.initiatorName)
      && "initiatorEmail" in m && m["initiatorEmail"] == JString(f.initiatorEmail)
      && "waitingOnStep" in m && m["waitingOnStep"] == JString(f.waitingOnStep)
      && "waitingOnStepLabel" in m && m["waitingOnStepLabel"] == JString(f.waitingOnStepLabel)
      && "fields" in m && m["fields"].JArray?
      && ParseAll(m["fields"].items, ParseCustomField) == Some(f.fields)
    ensures ParseForm(j) == Some(f)
  {
    assert IsForm(j);
  }

  lemma {:induction false} EnvelopeRoundTrip(e: Envelope)
    ensures ParseEnvelope(EnvelopeToJson(e)) == Some(e)
  {
    var j := EnvelopeToJson(e);
    var p := j.members["meta"].members["pagination"].members;
    assert p["currentPage"] == JNumber(e.pagination.currentPage);
    assert p["totalPages"] == JNumber(e.pagination.totalPages);
    var items := j.members["data"].items;
    forall i | 0 <= i < |items| ensures ParseForm(items[i]) == Some(e.data[i]) {
      FormRoundTrip(e.data[i]);
    }
    var r := ParseAll(items, ParseForm);
    assert r.value == e.data;
  }

  /** One record that fails `formSchema`, anywhere in `data`, makes the whole
      page fail `getCampaignResponsesResponseSchema`. */
  lemma InvalidRecordRejectsPage(j: Json, i: nat)
    requires j.JObject? && "data" in j.members && j.members["data"].JArray?
    requires i < |j.members["data"].items| && !IsForm(j.members["data"].items[i])
    ensures ParseEnvelope(j) == None
  {
  }

  /** A record is valid only with a numeric `formId`, all eleven string
      members, and an array of valid custom fields; one bad field is enough
      to reject it. */
  lemma InvalidFieldRejectsForm(j: Json, i: nat)
    requires j.JObject? && "fields" in j.members && j.members["fields"].JArray?
    requires i < |j.members["fields"].items| && !IsCustomField(j.members["fields"].items[i])
    ensures ParseForm(j) == None
  {
  }

  /** A page that validates always carries `meta.pagination`, with both numbers. */
  lemma ValidPageHasPagination(j: Json)
    requires ParseEnvelope(j).Some?
    ensures "meta" in j.members && "pagination" in j.members["meta"].members
    ensures j.members["meta"].members["pagination"].members["currentPage"]
            == JNumber(ParseEnvelope(j).value.pagination.currentPage)
    ensures j.members["meta"].members["pagination"].members["totalPages"]
            == JNumber(ParseEnvelope(j).value.pagination.totalPages)
  {
  }

  function StringMember(s: Option<string>): Option<Json> {
    if s.Some? then Some(JString(s.value)) else None
  }

  /** The member names of `getCampaignResponsesOptsSchema`. */
  const OptsKeys: set<string> := {
    "status", "firstSubmittedAtStart", "firstSubmittedAtEnd", "lastSubmittedAtStart",
    "lastSubmittedAtEnd", "completedAtStart", "completedAtEnd", "waitingOnStep",
    "page", "retrieveAllPages"}

  /** The JSON value of option `k`, when it is set. */
  function OptsMember(o: FetchOpts, k: string): Option<Json> {
    if k == "status" then StringMember(o.status)
    else if k == "firstSubmittedAtStart" then StringMember(o.firstSubmittedAtStart)
    else if k == "firstSubmittedAtEnd" then StringMember(o.firstSubmittedAtEnd)
    else if k == "lastSubmittedAtStart" then StringMember(o.lastSubmittedAtStart)
    else if k == "lastSubmittedAtEnd" then StringMember(o.lastSubmittedAtEnd)
    else if k == "completedAtStart" then StringMember(o.completedAtStart)
    else if k == "completedAtEnd" then StringMember(o.completedAtEnd)
    else if k == "waitingOnStep" then StringMember(o.waitingOnStep)
    else if k == "page" then (if o.page.Some? then Some(JNumber(o.page.value)) else None)
    else if k == "retrieveAllPages" then
      (if o.retrieveAllPages.Some? then Some(JBool(o.retrieveAllPages.value)) else None)
    else None
  }

  /** The fetch options as a JSON object holding just the members that are
      set; an unset option is left out, as an `undefined` member is. */
  function FetchOptsToJson(o: FetchOpts): Json {
    JObject(map k | k in OptsKeys && OptsMember(o, k).Some? :: OptsMember(o, k).value)
  }

  /** Encoding the options and parsing them back gives the same options. */
  lemma FetchOptsRoundTrip(o: FetchOpts)
    ensures ParseFetchOpts(FetchOptsToJson(o)) == Some(o)
  {
    var j := FetchOptsToJson(o);
    assert IsFetchOpts(j);
  }

  /** Every fetch option is optional: the empty object is valid. */
  lemma EmptyOptsValid()
    ensures ParseFetchOpts(JObject(map[])) == Some(NoOpts)
  {
  }
}
