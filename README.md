# IK12 client core, modelled in Dafny

This project models the core of the IK12 API client in four parts.

- **`getCampaignResponses`** (`responses.dfy`) builds the filter query from the caller's options, then runs the `do … while` page loop. Each pass requests a page, validates it, appends its records and decides from the pagination whether to go on. The loop is a `method` with loop invariants. It is proved against a recursive definition, `FetchFrom`, and the request count, the page parameter of each request, the concatenation order and the error behaviour are proved about that definition. The definition takes the request for each value of the page counter as part of the call, so its properties hold for any requests; `ClientCall` supplies the requests the client builds, and the page parameter of those requests is proved about `RequestQuery`.
- **The zod schemas** (`schema.dfy`) become datatypes (`FormCustomField`, `FormItem`, `Envelope`, `FetchOpts`), validity predicates over a small JSON datatype, and parsers. Each parser succeeds exactly when its predicate holds, ties every member of its result to the JSON member it came from, and round-trips with an encoder.
- **`URLSearchParams`** (`search_params.dfy`) is an ordered list of name/value pairs with the `set` the client calls. `Lookup`, which is `get`, is an observer the model uses to state what a query holds; the client itself calls only `set` and `toString`. The decimal rendering of the page number is proved to read back.
- **`sanitizeText`, `getValueFromField` and `getArrayFromField`** (`helpers.dfy`) become functions on `seq<char>` and on the form's field list, with lemmas about character classes, whitespace, the text kept, idempotence, order and membership.

`wrappers.dfy` holds the `Option` and `Result` datatypes.

The HTTP exchange is an oracle, `server: Request -> Option<Json>`. It maps the campaign, the API key and the query to the parsed body; `None` stands for a body that is not JSON or a failed transport. The API key and the `IK12_MAX_PAGES` setting come from the environment in the client and are parameters here. An omitted options object is `NoOpts`, the object with no member set.

## Model

| member | source | states |
|---|---|---|
| Responses.GetCampaignResponses | src/responses.ts:16-91 | An empty API key gives `ApiKeyNotSet` with no request sent. Otherwise the result and the requests sent are those of `FetchFrom` from counter 1. The number of requests is between 1 and `max(1, maxPages)`. Request `i` carries the filter query with the page parameter for counter `i + 1`. A success returns the records of the pages sent, concatenated in request order. |
| Responses.MaxPages | src/responses.ts:26 | Without the `IK12_MAX_PAGES` setting the cap is 20 pages; with it, the cap is the setting's value. |
| Responses.FetchPages | src/responses.ts:41-88 | The `do … while` loop returns exactly the result, and sends exactly the requests, that the recursive definition `FetchFrom` gives for the same call. |
| Responses.BuildFilterQuery | src/responses.ts:25-39 | The seven conditional `set` calls build exactly the pairs of the non-empty filter options, in the order the client sets them. |
| Responses.FilterQueryLookup | src/responses.ts:27-39 | Each of the seven filter names reads back as its option when that option is a non-empty string, and is absent otherwise. `status` is sent as `statusGroup`. No `page`, `status` or `waitingOnStep` parameter is ever built from the filters. |
| Responses.FetchRequests | src/responses.ts:41-88 | At least one request is made. Request `i` is the request for counter `page + i`, so the counter advances by exactly one per request. Every request but the last received a valid page on which the continuation rule held. |
| Responses.FetchResult | src/responses.ts:59-90 | Every request but the last received a valid page. A success means the last page also validated and failed the continuation rule, and the result is the concatenation in request order of every page's records. A failure is the error of the last response, and no records are returned. |
| Responses.FetchUnfold | src/responses.ts:78-88 | A call that sends two requests or more received a valid first page on which the continuation rule held, and went on from the next counter. |
| Responses.FetchSentAt | src/responses.ts:45-85 | Request `i` is the request for counter `page + i`. |
| Responses.FetchContinuedAt | src/responses.ts:59-88 | Each request but the last received a valid page on which the continuation rule held for its counter. |
| Responses.FetchLast | src/responses.ts:59-88 | A success means the last page validated and failed the continuation rule. A failure is the error of the last response. |
| Responses.FetchData | src/responses.ts:69 | A success returns the records of every page sent, concatenated in request order. |
| Responses.FetchCount | src/responses.ts:41-85 | From counter `page`, at most `max(1, maxPages - page + 1)` requests are made, so the loop terminates. |
| Responses.SingleRequestUnlessPaging | src/responses.ts:78-86 | With a non-zero `page` option, or `retrieveAllPages` not true, exactly one request is made. |
| Responses.PageParameterOfRequest | src/responses.ts:46-47 | With no page option, request `k` carries no `page` parameter for `k = 1` and `page = k` afterwards. A non-zero page option is sent as it is. A page option of 0 means no request ever carries `page`. |
| Responses.PageParam | src/responses.ts:46-47 | No `page` is set exactly when the page option is 0, or, with no page option, the counter is at most 1. Otherwise the value set reads back as the page option when there is one and as the counter when there is not. |
| Responses.Validate | src/responses.ts:55-68 | A response validates exactly when its body is JSON that satisfies the page schema, and the page is then that body's parse. A body that is not JSON is the error `InvalidJson`, and a JSON body that fails the page schema is the error `SchemaInvalid`. |
| Responses.Continues | src/responses.ts:78-83 | Its body is the condition of lines 78-83, with `totalPages` capped by `maxPages`. Its ensures: when the loop goes on, the counter is below `maxPages` and below `totalPages`, and `currentPage` is below `totalPages`. |
| Responses.FetchFrom | src/responses.ts:41-88 | No ensures of its own. It is the recursive definition of the loop from counter `page`. `FetchRequests`, `FetchResult` and `FetchCount` state what it sends and returns, and `FetchPages` is proved to give the same result. |
| Responses.FiltersOfRequest | src/responses.ts:25-48 | Every request carries the same value as the filter query for every name other than `page`. |
| Responses.SetEachAppends | src/responses.ts:27-39 | Setting distinct names that are not yet present, one after another, appends their pairs in order. |
| Responses.SentPairsLookup | src/responses.ts:27-39 | Reading a name from the built pairs gives the first set, non-empty option under that name. |
| Responses.QueryStep | src/responses.ts:46-48 | Setting `page` on the query left by the previous pass gives the query of the current request. A later `set` of `page` overwrites the earlier one. |
| Responses.JoinStep | src/responses.ts:59-88 | One pass of the loop moves the current request and its page's records from the definition's remainder into what has been sent and accumulated. |
| SearchParams.Lookup | src/responses.ts:25-47 | An observer, `get(k)`, that the client never calls and the model uses to state what a query holds. It is absent exactly when no pair has name `k`. |
| SearchParams.Set | src/responses.ts:27-47 | No ensures of its own. `set(k, v)` puts `(k, v)` in place of the first pair named `k` and drops the other pairs named `k`, or appends `(k, v)` when there is none. `SetInPlace` states the in-place case, `SetAppendsNew` the append case, and `SetLookup` and `SetSet` the `get` and repeated-`set` laws. |
| SearchParams.SetInPlace | src/responses.ts:46-47 | When the first pair named `k` is at index `i`, `set(k, v)` gives the pairs before `i`, then `(k, v)`, then the later pairs with every other pair named `k` removed. |
| SearchParams.SetLookup | src/responses.ts:27-47 | After `set(k, v)`, `get(k)` is `v` and every other name reads as before. |
| SearchParams.SetSet | src/responses.ts:46-47 | A second `set` of the same name leaves the same query as a single `set` with the second value. |
| SearchParams.SetAppendsNew | src/responses.ts:27-39 | Setting a name that is absent appends its pair at the end. |
| SearchParams.RemoveAll | src/responses.ts:46-47 | Removing the pairs named `k` leaves exactly the names other than `k`. |
| SearchParams.RemoveAllLookup | src/responses.ts:46-47 | Removing every pair named `k` makes `k` absent and leaves the other names as they were. |
| SearchParams.RemoveAllIdempotent | src/responses.ts:46-47 | Removing the pairs named `k` twice is the same as removing them once. |
| SearchParams.IntToString | src/responses.ts:47 | The rendering of a page number is never empty. `IntToStringRoundTrip` and `IntToStringInjective` state that it reads back and that different numbers render differently. |
| SearchParams.NamesAppend | src/responses.ts:27-39 | The names of two queries joined are the union of their names. |
| SearchParams.IntToStringRoundTrip | src/responses.ts:47 | The decimal rendering of the page number reads back as that number. |
| SearchParams.IntToStringInjective | src/responses.ts:47 | Different page numbers are rendered differently. |
| SearchParams.NatToStringValue | src/responses.ts:47 | The digits of a natural number have that number as their value. |
| Schema.ParseAll | src/schema.ts:22-39 | `z.array(p)` succeeds exactly when every element passes `p`, and then gives one parsed value per element, in order. |
| Schema.IsCustomField | src/schema.ts:3-7 | No ensures of its own. It is the custom-field schema as a predicate. `ParseCustomField` states that parsing succeeds exactly when it holds. |
| Schema.IsForm | src/schema.ts:9-23 | No ensures of its own. It is the record schema as a predicate. `ParseForm` states that parsing succeeds exactly when it holds. |
| Schema.IsEnvelope | src/schema.ts:38-46 | No ensures of its own. It is the page schema as a predicate. `ParseEnvelope` states that parsing succeeds exactly when it holds. |
| Schema.IsFetchOpts | src/schema.ts:25-36 | No ensures of its own. It is the options schema as a predicate. `ParseFetchOpts` states that parsing succeeds exactly when it holds. |
| Schema.ParseCustomField | src/schema.ts:3-7 | A custom field parses exactly when `number` is a number and `label` and `value` are strings, and then carries those values. |
| Schema.ParseForm | src/schema.ts:9-23 | A record parses exactly when `formId` is a number, the eleven other scalars are strings, and `fields` is an array of valid custom fields. Every member of the parsed record is the JSON member of the same name: `formId`, each of the eleven strings, and the fields. |
| Schema.ParseEnvelope | src/schema.ts:38-46 | A page parses exactly when `data` is an array of valid records and `meta.pagination` holds numeric `currentPage` and `totalPages`. The parsed records are those of `data`, in order. |
| Schema.ParseFetchOpts | src/schema.ts:25-36 | The options parse exactly when every present member has its type. Each option is set exactly when its member is present, and then holds that member's value: `page` its number, `retrieveAllPages` its boolean, and the eight others their strings. |
| Schema.FetchOptsRoundTrip | src/schema.ts:25-36 | Encoding options as an object holding only the members that are set, and parsing it back, gives the same options. |
| Schema.CustomFieldRoundTrip | src/schema.ts:3-7 | Encoding a custom field and parsing it back gives the same field. |
| Schema.FormToJsonMembers | src/schema.ts:9-23 | The encoding of a record has every member the schema names, with the record's values. |
| Schema.FormRoundTrip | src/schema.ts:9-23 | Encoding a record and parsing it back gives the same record. |
| Schema.EnvelopeRoundTrip | src/schema.ts:38-46 | Encoding a page and parsing it back gives the same page. |
| Schema.InvalidRecordRejectsPage | src/schema.ts:39 | One invalid record anywhere in `data` makes the whole page invalid. |
| Schema.InvalidFieldRejectsForm | src/schema.ts:22 | One invalid custom field makes the whole record invalid. |
| Schema.ValidPageHasPagination | src/schema.ts:40-45 | A valid page always has `meta.pagination` with both numbers, so the check at src/responses.ts:72 never fails. |
| Schema.EmptyOptsValid | src/schema.ts:25-36 | The empty options object is valid and reads as the options with nothing set. |
| Helpers.SanitizeText | src/helpers.ts:24-51 | The result is absent exactly for an absent or empty text. The result never starts or ends with whitespace. With stripping on, it holds only ASCII letters, digits and whitespace and is no longer than the input. With collapsing on, it has no two adjacent whitespace characters and only plain spaces. With uppercasing on, it has no lowercase letter. An omitted options object means strip and uppercase on, collapse off. |
| Helpers.SanitizeTextContent | src/helpers.ts:24-51 | The characters of the result other than whitespace are exactly those of the input, in order, with the special characters removed when stripping is on and uppercased when uppercasing is on. |
| Helpers.InForce | src/helpers.ts:26-30 | With no options object, the default flags apply: strip on, collapse off, uppercase on. A supplied object is used as it is. |
| Helpers.Steps | src/helpers.ts:36-44 | Strip, collapse and uppercase run, each when its flag is true, and each later step keeps what the earlier ones established. The characters other than whitespace are the input's, in order, stripped and uppercased as the flags say. |
| Helpers.StepsOrderExample | src/helpers.ts:36-41 | Stripping runs before collapsing: `"a ! b"` with both flags on becomes `"a b"`, one space where the removed character stood between two. |
| Helpers.StripSpecial | src/helpers.ts:37 | The result holds only characters of `[a-zA-Z0-9\s]` and is no longer than the input. |
| Helpers.StripSpecialAppend | src/helpers.ts:37 | Stripping distributes over concatenation, so it works character by character and keeps the order and number of the kept characters. |
| Helpers.StripSpecialChar | src/helpers.ts:37 | A single character is kept exactly when it is an ASCII letter, a digit or whitespace. |
| Helpers.StripTwoOthers | src/helpers.ts:37 | Two special characters between runs of kept characters are removed, and the runs are joined in order. |
| Helpers.StripSpecialMembers | src/helpers.ts:37 | A character is in the result exactly when it is in the input and is a letter, a digit or whitespace. |
| Helpers.Collapse | src/helpers.ts:40 | The result has no two adjacent whitespace characters and no whitespace other than a plain space. It is empty exactly when the input is, is no longer, starts with whitespace exactly when the input does, and keeps the stripped character class. |
| Helpers.CollapseSplit | src/helpers.ts:40 | A whitespace run between two other characters becomes exactly one space, and the text on either side is collapsed on its own. |
| Helpers.CollapseRun | src/helpers.ts:40 | A leading whitespace run becomes exactly one space. |
| Helpers.CollapseExample | src/helpers.ts:40 | `"a  b"` becomes `"a b"`. |
| Helpers.CollapseWords | src/helpers.ts:40 | Three words separated by single spaces come out of collapsing unchanged. |
| Helpers.CollapseKeepsText | src/helpers.ts:40 | Collapsing changes whitespace only: the other characters come out unchanged and in order. |
| Helpers.Uppercase | src/helpers.ts:43 | The result has the input's length and no lowercase letter. Each character is mapped on its own by `UpperChar`: whitespace stays where it was and the stripped character class is kept. |
| Helpers.UpperChar | src/helpers.ts:43 | A lowercase letter becomes its capital, 32 code points lower; every other character is unchanged. |
| Helpers.UppercaseAppend | src/helpers.ts:43 | Uppercasing distributes over concatenation. |
| Helpers.UppercaseThree | src/helpers.ts:43 | Uppercasing distributes over a split into three parts. |
| Helpers.TrimStart | src/helpers.ts:47 | The result is a suffix of the input, preceded only by whitespace, and does not start with whitespace. |
| Helpers.TrimEnd | src/helpers.ts:47 | The result is a prefix of the input, followed only by whitespace, and does not end with whitespace. |
| Helpers.Trim | src/helpers.ts:47 | The result neither starts nor ends with whitespace. |
| Helpers.TrimIsSlice | src/helpers.ts:47 | The trimmed text is a contiguous slice of the input. |
| Helpers.TrimKeeps | src/helpers.ts:47 | Trimming keeps the character-class, case and whitespace properties of the earlier steps. |
| Helpers.StripSpecialKeepsKept | src/helpers.ts:37 | Stripping text that has no special character changes nothing. |
| Helpers.CollapseKeepsCollapsed | src/helpers.ts:40 | Collapsing already collapsed text changes nothing. |
| Helpers.UppercaseKeepsUpper | src/helpers.ts:43 | Uppercasing text with no lowercase letter changes nothing. |
| Helpers.TrimKeepsTrimmed | src/helpers.ts:47 | Trimming trimmed text changes nothing. |
| Helpers.SanitizeTextIdempotent | src/helpers.ts:24-51 | Sanitizing a non-empty result again, with the same options, gives it back unchanged. |
| Helpers.SuppliedOptsOnlyTrim | src/helpers.ts:26-44 | A supplied options object with no flag set only trims: the parameter's defaults do not fill in missing flags. |
| Helpers.DefaultExample | src/helpers.ts:26-47 | With no options object, `"a,b "` becomes `"AB"`. |
| Helpers.DefaultStepsExample | src/helpers.ts:36-44 | With the default flags, the three steps turn `"a,b "` into `"AB "`. |
| Helpers.TrimExample | src/helpers.ts:47 | `trim()` drops the trailing space of `"AB "`. |
| Helpers.AllFlagsExample | src/helpers.ts:24-51 | With all three flags on, `"Hello, World! 123"` becomes `"HELLO WORLD 123"`. |
| Helpers.AllFlagsStepsExample | src/helpers.ts:36-44 | With all three flags on, the three steps turn `"Hello, World! 123"` into `"HELLO WORLD 123"`. |
| Helpers.AllFlagsStripExample | src/helpers.ts:37 | Stripping removes the comma and the exclamation mark: `"Hello, World! 123"` becomes `"Hello World 123"`. |
| Helpers.AllFlagsCollapseExample | src/helpers.ts:40 | Collapsing leaves `"Hello World 123"`, whose spaces are already single, unchanged. |
| Helpers.AllFlagsUppercaseExample | src/helpers.ts:43 | `"Hello World 123"` uppercases to `"HELLO WORLD 123"`. |
| Helpers.AllFlagsUppercaseWords | src/helpers.ts:43 | `"Hello"`, `" World"` and `" 123"` uppercase to `"HELLO"`, `" WORLD"` and `" 123"`: spaces and digits are unchanged. |
| Helpers.AllFlagsTrimExample | src/helpers.ts:47 | `trim()` leaves `"HELLO WORLD 123"` unchanged. |
| Helpers.SuppliedEmptyOptsExample | src/helpers.ts:26-47 | With an empty options object, `"a,b "` becomes `"a,b"`. |
| Helpers.NonSpaceAppend | src/helpers.ts:40 | Dropping whitespace distributes over concatenation. |
| Helpers.TrimStartNonSpace | src/helpers.ts:40 | Dropping leading whitespace keeps every other character. |
| Helpers.TrimEndNonSpace | src/helpers.ts:47 | Dropping trailing whitespace keeps every other character. |
| Helpers.TrimNonSpace | src/helpers.ts:47 | Trimming removes whitespace only. |
| Helpers.TrimStartRun | src/helpers.ts:40 | Dropping leading whitespace from a run followed by another character leaves exactly what follows the run. |
| Helpers.TrimStartAppend | src/helpers.ts:40 | Dropping leading whitespace stops inside a text that ends with another character, so what follows is untouched. |
| Helpers.NonSpaceStripSpecial | src/helpers.ts:37 | Stripping never removes whitespace, so it commutes with dropping whitespace. |
| Helpers.NonSpaceUppercase | src/helpers.ts:43 | Uppercasing neither creates nor removes whitespace, so it commutes with dropping whitespace. |
| Helpers.FindField | src/helpers.ts:72 | `find` gives the index of the first field with the requested number, and nothing exactly when no field has it. |
| Helpers.GetValueFromField | src/helpers.ts:67-78 | A value comes back only when some field has the requested number; without sanitizing, a value comes back exactly when one does. `GetValueFirstMatch` and `GetValueNoMatch` state which value. |
| Helpers.GetValueFirstMatch | src/helpers.ts:72-77 | `getValueFromField` returns the value of the first matching field: as it is, or sanitized with the default options when `sanitize` is set. |
| Helpers.GetValueNoMatch | src/helpers.ts:72-73 | With no field of the requested number, the result is absent. |
| Helpers.GetValueEmptyValue | src/helpers.ts:73-77 | An empty value comes back as it is without sanitizing, and as absent with sanitizing. |
| Helpers.GetValueIgnoresSanitizeOpts | src/helpers.ts:74-75 | `sanitizeOpts` has no effect on `getValueFromField`. |
| Helpers.SelectFields | src/helpers.ts:99-101 | The selection is no longer than the form's fields. |
| Helpers.SelectFieldsMembers | src/helpers.ts:99-101 | A field is selected exactly when it is one of the form's fields and its number is requested. |
| Helpers.SelectFieldsAppend | src/helpers.ts:99-101 | The selection distributes over a split of the fields, so the form's field order is kept. |
| Helpers.SelectFieldsSameNumbers | src/helpers.ts:99-101 | Only the set of requested numbers matters: repeats and order in `fieldNumbers` change nothing. |
| Helpers.SelectFieldsAll | src/helpers.ts:99-101 | Requesting every number present returns all fields, in order. |
| Helpers.SelectFieldsNone | src/helpers.ts:99-101 | Requesting a number no field has selects nothing. |
| Helpers.SelectFieldsOnly | src/helpers.ts:99-101 | When exactly one field has a number, selecting that number gives that field alone. |
| Helpers.GetArrayFromField | src/helpers.ts:94-106 | One entry per selected field, in order, holding its value as it is or sanitized with the default options. |
| Helpers.GetArrayOfOneNumber | src/helpers.ts:94-106 | Requesting one number that exactly one field has gives a one-entry list holding what `getValueFromField` returns. |
| Helpers.GetArrayIgnoresSanitizeOpts | src/helpers.ts:102-103 | `sanitizeOpts` has no effect on `getArrayFromField`. |

## Left out

- src/debug.ts (logging) is not part of this model: it only writes to the console.
- src/constants.ts is not part of this model. The API key and the parsed `IK12_MAX_PAGES` are parameters. The base URL and the route string are left out because the request is identified by campaign, key and query.
- `fetch`, `await response.json()` and async control flow are replaced by the `server` oracle. A body that is not JSON, or a failed transport, is the error `InvalidJson`.
- The URL string and the percent-encoding of `URLSearchParams.toString` are not modelled. The query is an ordered list of name/value pairs.
- `parseInt` on the environment setting and its `NaN` case are not modelled: `maxPages` is the setting's integer value. The model's numbers are unbounded integers. JavaScript's numbers are doubles, exact only up to 2^53, and may be fractional; neither limit is modelled.
- SearchParams.IntToString: renders every integer as plain decimal digits. `Number.prototype.toString` does so only for integers of magnitude below 10^21. From 10^21 on it uses exponent notation (`(1e21).toString()` is `"1e+21"`), which is not modelled.
- zod's error messages and its handling of unknown object keys are not modelled.
- The options object is not validated at run time by the client: the options schema is only used for its type. `Schema.ParseFetchOpts` models the schema, and `GetCampaignResponses` takes options of the typed shape.
- `toLocaleUpperCase` and `\s` are restricted to ASCII: six whitespace characters, and `a`–`z` to `A`–`Z`. Unicode whitespace and locale-dependent case mapping are left out.
- The check `!parsedResponse.data` (src/responses.ts:66-68) cannot fail after a successful parse, and `meta?.pagination` (src/responses.ts:72) is always present. Neither has a branch in the loop; `Schema.ValidPageHasPagination` states the second.
- Helpers.SelectFields: its own contract states only a length bound. Membership, order and independence from repeated numbers are proved by the lemmas beside it.
- The thrown errors are modelled as an error value. The error text is not modelled.
- SanitizeText: in every mode, its ensures say only where whitespace may stand: never at either end and, with collapsing on, never two in a row and only plain spaces. They do not say that an interior whitespace run survives, as one space with collapsing on or unchanged with it off. The one-space rule is stated for `Collapse` alone (`CollapseSplit`, `CollapseRun`, `CollapseWords`). `SanitizeTextContent` states the characters other than whitespace, and `SuppliedOptsOnlyTrim` states the case of a supplied object with no flag set. `DefaultExample` and `AllFlagsExample` pin concrete results.
- Steps: like `SanitizeText`, its contract states the characters other than whitespace and where whitespace may stand, not that interior whitespace runs survive. `CollapseSplit` states the one-space rule for the collapsing step alone. The order of the steps is shown by `StepsOrderExample` and `AllFlagsStepsExample` rather than stated for all inputs.

## Where the description and the code differ

- With `page: 0`, the code never sends a `page` parameter, because `opts?.page ?? page > 1` yields the falsy `0`. Yet `!opts?.page` holds, so the loop can still continue with further, identical requests. The model follows the code.
- A supplied `sanitizeText` options object does not inherit the defaults; any flag it leaves out is off. The model follows the code.
- Both accessors accept `sanitizeOpts` and ignore it, always sanitizing with the defaults. The model follows the code.
- The array accessor filters the form's fields, so repeating a number in `fieldNumbers` does not repeat its field, and the result follows the form's order rather than the requested order.
