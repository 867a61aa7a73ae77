# telegraph-go client core, modelled in Dafny

This project models the core of the Go SDK for the Telegraph publishing API:
`client.go` (the client, its options, the retrying dispatcher, response
parsing, the eight API calls, and the HTML-to-page conversion) and `types.go`
(request validation, the API error type, the URL check, content nodes and the
fluent content builder).

Modules, one concern each:

- `Validation` (validation.dfy): the `Validate` methods of the seven request types. Go's `len` counts UTF-8 bytes, so lengths are `Utf8Len`. Each validator is proved to report the first failing rule of an ordered rule list.
- `Urls` (urls.dfy): `isValidURL`. It is proved equal to a small matcher for the regular expression `^https?://[^\s/$.?#].[^\s]*$`.
- `Decimal`, `ApiErrors` (decimal.dfy, api_error.dfy): `%d` and `APIError.Error()`. The error text is proved to determine the error (a parse round trip).
- `Content` (content.dfy): Telegraph nodes, `nodeToString` and `ContentBuilder`. The builder is a class whose `nodes` field each `Add…` method extends in place.
- `Html`, `Convert`, `Metadata`, `HtmlPage` (html.dfy, convert.dfy, metadata.dfy, page.dfy): the parsed HTML tree, `mapTag`, `htmlNodeToTelegraphNodes`, `extractMetadata`, `parseHTMLBody` and `ConvertHTMLToPage`. Each loop is a method proved equal to a recursive specification, and the properties are proved about that specification.
- `Backoff` (backoff.dfy): `RetryConfig`, `calculateDelay` (as written, with int64 wrap-around, and corrected) and `shouldRetryStatus`.
- `Dispatch` (dispatch.dfy): `doRequest`. `Retry` is the recursive specification of the attempt loop, and `DoRequest` is the loop proved equal to it.
- `Response` (response.dfy): `parseResponse`.
- `Query` (query.dfy): the `getPage` query string built with `url.Values.Encode`.
- `Records` (records.dfy): `Account`, `Page`, `PageList` and `PageViews`.
- `TelegraphClient` (client.dfy): options, `NewClient` and the class `Client` with its eight API calls.

What the model takes as parameters instead of computing:

- the parsed HTML tree (`html.Parse` is a library);
- what the JSON encoder and decoder produce;
- the rate limiter's and context's verdicts;
- the server's answer to each attempt (`Env.respond`).

Behaviour of the code worth knowing:

- The delay is `InitialDelay * 2^(attempt-1) * trunc(Multiplier)` (client.go:187). A multiplier of 1.5 therefore acts as 1.
- A document without a `body` element is an error ("HTML document has no body tag", client.go:597-599).
- `parseHTMLBody` keeps walking after it finds a body but does not descend into one (client.go:586-595). When there are several, the one kept is the last body, in walk order, that is not inside another body.
- The comments at client.go:645-660 speak of text children stored as bare strings, but `Node.Children` is `[]Node` (types.go:73). Nodes are therefore modelled as a sum type `Text(content) | Element(tag, attrs, children)`. `nodeToString` returns the content of a text node and the concatenated text of an element (types.go:460-471).
- `shouldRetry` always returns true (client.go:197-200). The non-retry branch at client.go:167-169 is unreachable and is not modelled.
- With `MaxRetries < 0` the loop never runs. The call fails with "request failed after MaxRetries+1 attempts" and a nil cause (client.go:183).
- One body buffer serves every attempt (client.go:137-141, 156). A request that got an answer drains it, so a retry after a 429 or 5xx answer sends an empty body. The model is exact about this (`Dispatch.RetrySendsDrainedBody`). A transport failure is taken to leave the buffer unread.

## Model

| member | source | states |
|---|---|---|
| Decimal.Format | types.go:24 | `%d` output is non-empty, starts with `-` exactly for negative numbers, and is otherwise all digits |
| Decimal.FormatRoundTrip | types.go:24 | parsing the `%d` rendering of any integer gives it back |
| Decimal.FormatInjective | types.go:24 | distinct codes print differently |
| ApiErrors.ErrorText | types.go:22-27 | the text starts with "Telegraph API error" and ends with the description |
| ApiErrors.ErrorTextRoundTrip | types.go:22-27 | the code and the description can be recovered from the error text, for every code, including 0 and negative codes |
| ApiErrors.ErrorTextExamples | types.go:23-26 | a non-zero code is shown as "(code N): ", and code 0 is omitted |
| Validation.Utf8LenBounds | types.go:93 | the byte length of a string lies between its character count and four times that |
| Validation.Utf8LenAscii | types.go:93 | for ASCII text the byte length is the character count |
| Validation.Utf8LenTwoByte | types.go:93 | characters U+0080..U+07FF count two bytes each |
| Validation.FirstFailureMeaning | types.go:89-106 | a validator succeeds iff every rule holds; otherwise it reports the message of the first failing rule |
| Validation.FirstFailureAt | types.go:89-106 | when the rules before position k hold, rule k decides the result |
| Validation.ValidateCreateAccount | types.go:89-106 | a request is accepted exactly when the short name is non-empty and at most 32 bytes, the author name at most 128, the URL at most 512 and valid when given; the order of the checks is stated by ValidateCreateAccountInOrder |
| Validation.ValidateCreateAccountInOrder | types.go:89-106 | the checks run in order: short name required, at most 32 bytes; author name at most 128; URL at most 512; URL valid when non-empty |
| Validation.ValidateEditAccountInfo | types.go:121-138 | accepted exactly when a token is given and every field is within its byte limit, the URL valid when given |
| Validation.ValidateEditAccountInfoInOrder | types.go:121-138 | the token is required; the short name may be empty but is at most 32 bytes; then the same author checks |
| Validation.EditAcceptsWhatCreateAccepts | types.go:89-138 | with a token, every account that creation accepts may be edited to, with or without a new short name |
| Validation.FirstInvalidField | types.go:155-167 | no error iff every requested field is one of the five account fields; otherwise it names a requested field outside that set |
| Validation.ValidateGetAccountInfo | types.go:150-170 | succeeds iff there is a token and every field is known; a missing token is reported first |
| Validation.ValidateCreatePage | types.go:189-212 | accepted exactly when there is a token, a title of 1 to 256 bytes, author fields within their limits, a valid URL when given, and some content |
| Validation.ValidateCreatePageInOrder | types.go:189-212 | the checks run in order: token, title required, title at most 256 bytes, author name, URL length, URL valid, content required |
| Validation.ValidateEditPage | types.go:233-259 | accepted exactly when page creation would accept it and a path is given |
| Validation.ValidateEditPageInOrder | types.go:233-259 | as for creation, with the page path required right after the token |
| Validation.EditPageIsCreatePagePlusPath | types.go:189-259 | editing validates exactly like creating, plus the path check |
| Validation.ValidateGetPage | types.go:270-275 | succeeds iff the path is non-empty; otherwise the error is "path is required" |
| Validation.ValidateGetPageList | types.go:288-299 | accepted exactly when there is a token, the offset is non-negative and the limit lies in 0..200 |
| Validation.ValidateGetPageListInOrder | types.go:288-299 | the checks run in order: token, non-negative offset, limit within 0..200 |
| Validation.ValidateGetViews | types.go:316-333 | accepted exactly when a path is given and every non-zero date part lies in its range |
| Validation.ValidateGetViewsInOrder | types.go:316-333 | the checks run in order: path, then year 2000..2100, month 1..12, day 1..31, hour 0..24, each only when non-zero |
| Validation.GetViewsDatePartsOptional | types.go:316-333 | a path alone, with all date parts zero, is valid |
| Validation.ShortNameLimitCountsBytes | types.go:93-95 | a 17-character name of two-byte letters (34 bytes) is too long, while any 1..32-character ASCII name passes |
| Validation.CreateAccountRejections | types.go:89-106 | an empty short name or one over 32 characters, an author name over 128 characters after a short name within its byte limit, and a non-empty URL without an http or https scheme after fields within their byte limits are each reported with their own message |
| Validation.GetPageListExamples | types.go:288-299 | the accepted request and each rejection message of the list validator |
| Validation.GetViewsExamples | types.go:316-333 | the accepted request and each out-of-range message of the views validator |
| Validation.GetAccountInfoExamples | types.go:150-170 | known fields pass, a missing token and an unknown field are reported |
| Urls.IsValidUrl | types.go:336-344 | a valid URL holds no newline anywhere; what it accepts exactly is stated by IsValidUrlIsRegex |
| Urls.IsValidUrlIsRegex | types.go:336-344 | the check accepts exactly the empty string and the strings the regular expression matches |
| Urls.ValidUrlShape | types.go:336-344 | a non-empty valid URL has an http or https scheme, at least nine characters, and no white space after the first host character and the one character that follows it (from index 10 for https, from index 9 for http) |
| Urls.ValidUrlExtends | types.go:336-344 | appending characters other than white space (a path, a query) to a valid URL keeps it valid |
| Urls.HttpsExampleAccepted | types.go:336-344 | "https://example.com" is accepted |
| Urls.HttpExampleAccepted | types.go:336-344 | "http://example.com" is accepted |
| Urls.UrlExamplesRejected | types.go:336-344 | "not-a-url", "ftp://example.com" and "https://" are rejected |
| Content.NodeText | types.go:460-471 | the loop over children returns the node's text: the content of a text node, or the concatenated text of an element's children |
| Content.NodeToString | types.go:459-471 | the text of an element contains the text of each of its children |
| Content.NodesToString | types.go:451-471 | the text of a node list contains the text of each node |
| Content.NodesToStringAppend | types.go:451-457 | the text of a concatenation of node lists is the concatenation of their texts |
| Content.SingleChildText | types.go:460-471 | an element with one child reads as that child |
| Content.ContentBuilder.constructor | types.go:352-356 | a new builder holds no nodes |
| Content.ContentBuilder.Append | types.go:359-443 | a conforming node is appended, and the text grows by the node's text |
| Content.ContentBuilder.AddParagraph | types.go:359-367 | appends `p` holding the text, and returns the same builder; the text grows by it |
| Content.ContentBuilder.AddHeading | types.go:370-383 | appends `h4` for level 4 and `h3` for every other level |
| Content.ContentBuilder.AddLink | types.go:386-402 | appends a `p` wrapping an `a` with only `href` set |
| Content.ContentBuilder.AddImage | types.go:405-413 | appends an `img` with only `src` set; the text is unchanged |
| Content.ContentBuilder.AddBlockquote | types.go:416-424 | appends `blockquote` holding the text |
| Content.ContentBuilder.AddCodeBlock | types.go:427-435 | appends `pre` holding the code |
| Content.ContentBuilder.AddLineBreak | types.go:438-443 | appends `br`; the text is unchanged |
| Content.ContentBuilder.Build | types.go:446-448 | returns the nodes, every one of them a supported tag with only `href`/`src` attributes |
| Content.ContentBuilder.String | types.go:451-457 | the concatenated text of all nodes |
| Content.StringOfTwoParagraphs | types.go:451-471 | two paragraphs "Hello" and "World" read as "HelloWorld" |
| Html.LastValueMeaning | client.go:544-552 | a loop assigning each matching attribute ends with the value of the last attribute with that key |
| Html.LastValueAbsent | client.go:544-552 | without such an attribute it ends with "" |
| Convert.MapTag | client.go:673-699 | always a supported tag, never `b` or `i`; `h3` iff h1/h2/h3; `strong` iff b/strong; `em` iff i/em; `p` iff p or unknown; other supported tags unchanged |
| Convert.MapTagIdempotent | client.go:673-699 | mapping a mapped tag changes nothing |
| Convert.FilterAttrs | client.go:632-640 | the loop keeps exactly the `href`/`src` keys present, each with its last value |
| Convert.HtmlNodeToTelegraphNodes | client.go:607-670 | the loop returns the converted children of the node |
| Convert.ConvertChildrenConform | client.go:607-670 | every converted node has a supported tag and only `href`/`src` attributes, at every depth; no empty text node is produced |
| Convert.ConvertOneConforms | client.go:607-670 | the same for the nodes one child contributes |
| Convert.ConvertChildrenLength | client.go:607-670 | conversion never yields more nodes than there were children |
| Convert.ConvertChildrenText | client.go:607-670 | the text of the converted nodes is the visible text of the HTML: text nodes, minus script, style and non-element nodes |
| Convert.ConvertOneText | client.go:607-670 | the same for one child |
| Convert.DroppedChild | client.go:623-625 | a `script` or `style` element anywhere in a child list changes nothing |
| Convert.ElementExamples | client.go:607-699 | `<p>`, `<h1>` and `<div>` around text become `p`, `h3` and `p` elements holding that text |
| Convert.AttributeExamples | client.go:632-640 | a `class` attribute is dropped, `href` is kept, and a script with content vanishes |
| Metadata.ReadMetaAttrs | client.go:544-552 | the `name` and `content` read from a meta element are the last attributes with those keys |
| Metadata.Walk | client.go:538-571 | the recursive walk folds `Step` over the pre-order sequence of the tree |
| Metadata.Override | client.go:572-579 | non-empty options replace the author name and URL; the title and description are untouched |
| Metadata.ExtractMetadata | client.go:537-580 | the page's metadata is the walk's result, then the overrides; the content is untouched |
| Metadata.ScanMeaning | client.go:538-571 | the title is the last `<title>` text; the description is the last description meta; author and URL are the first non-empty meta values, unless already set |
| Metadata.ScanKeepsAuthor | client.go:554-557 | an author name already set is never replaced by a meta tag |
| Metadata.HeadExample | client.go:537-580 | a head with a title and an author meta yields both |
| HtmlPage.FindBody | client.go:584-595 | the recursive search returns the last body, in walk order, that is not inside another body, or what was found before |
| HtmlPage.BodyInSound | client.go:584-595 | a body found is a `body` element of the tree |
| HtmlPage.BodyInComplete | client.go:584-595 | no body is found iff the tree has no `body` element |
| HtmlPage.BodyInAllSound | client.go:584-595 | the same for a list of siblings |
| HtmlPage.BodyInAllComplete | client.go:584-595 | the same for a list of siblings |
| HtmlPage.ParseHtmlBody | client.go:583-602 | fails with "HTML document has no body tag" iff the tree has no `body` element; otherwise returns the body's converted children |
| HtmlPage.ConvertHtmlToPage | client.go:515-534 | a parse error and a missing body are wrapped with their prefixes; otherwise the page carries the extracted metadata and the converted body |
| HtmlPage.ConvertedPageConforms | client.go:515-534 | the content of a converted page uses only supported tags and attributes |
| HtmlPage.NoBodyRejected | client.go:597-599 | a tree without `body` has no body to convert |
| HtmlPage.LaterSiblingBodyWins | client.go:586-595 | of two sibling bodies the later one is used |
| Backoff.Wrap64 | client.go:187 | the wrapped value lies in the int64 range, is congruent modulo 2^64, and is unchanged when already in range |
| Backoff.Trunc | client.go:187 | converting a float to an integer truncates toward zero |
| Backoff.CalculateDelayAsWritten | client.go:186-194 | the delay as computed with int64 wrap-around never exceeds MaxDelay, but may be negative |
| Backoff.CalculateDelay | client.go:186-194 | the corrected delay is MaxDelay or the exact product, and it is the product whenever that does not exceed MaxDelay |
| Backoff.DelayMonotone | client.go:186-194 | with non-negative settings, later retries never wait less |
| Backoff.AsWrittenAgreesWithoutOverflow | client.go:186-194 | when no intermediate product leaves int64, the code computes the corrected delay |
| Backoff.DefaultDelays | client.go:68-73 | the default policy waits 200 ms, 400 ms and 800 ms |
| Backoff.OverflowSkipsTheCap | client.go:186-194 | defaults with 40 retries: the code's 37th delay is negative, the corrected one is 5 s |
| Backoff.ShouldRetryStatus | client.go:203-206 | 429 and every status from 500 up are retried; every other status, 200 and the other 4xx included, is final |
| Dispatch.TrimSuffix | client.go:88 | removes one trailing occurrence of the suffix, if there is one |
| Dispatch.TrimPrefix | client.go:143 | removes one leading occurrence of the prefix, if there is one |
| Dispatch.RequestUrlJoins | client.go:143 | the URL is the base, one slash and the endpoint, with or without the endpoint's leading slash |
| Dispatch.ErrorText | client.go:128-183 | rate-limit, marshalling and request-building failures wrap their cause behind their own prefix; a cancellation is the context's own error; exhaustion reads "request failed after N attempts: " followed by the last failure |
| Dispatch.ExhaustedTextNamesAttempts | client.go:183 | the attempt count can be read back from the exhaustion message |
| Dispatch.DoRequest | client.go:125-184 | the loop's result, requests sent and delays waited are those of the `Dispatch` specification |
| Dispatch.RetryCount | client.go:145-181 | at most the remaining attempts are sent; a response is returned only if it was sent and is not retryable |
| Dispatch.RetryTargets | client.go:145-181 | every request uses the same method and URL; the first carries the full body, and later ones the full body or what is left of it |
| Dispatch.RetryWaits | client.go:146-154 | no wait exceeds MaxDelay |
| Dispatch.DispatchBounds | client.go:125-184 | a call sends at most MaxRetries+1 requests, all to the endpoint's URL, the first with the data; no wait exceeds MaxDelay; only non-retryable responses are returned |
| Dispatch.EarlyFailureSendsNothing | client.go:129-141 | a rate-limiter or marshalling failure sends no request |
| Dispatch.RetryUntilFinal | client.go:145-181 | retryable outcomes until attempt k, then a final answer: k+1 requests, that answer returned, the delays for attempts 1..k waited |
| Dispatch.FailuresThenFinal | client.go:125-184 | the same for a whole call |
| Dispatch.FinalFirstAnswer | client.go:179-180 | a final first answer is returned after one request and no wait |
| Dispatch.RetryExhausts | client.go:145-183 | when every attempt is retryable, all of them are sent and the call fails naming MaxRetries+1 attempts and the last failure |
| Dispatch.DefaultPolicyAgainstFailingServer | client.go:68-73 | against a server that always answers 503, the default policy sends 4 requests, waits 200/400/800 ms and fails after 4 attempts with status 503 |
| Dispatch.CancelStopsRetries | client.go:147-153 | a context cancelled before retry c stops the loop with the context's error after c requests |
| Dispatch.FirstAttemptNotCancelled | client.go:146 | the first attempt is sent without consulting the context |
| Dispatch.RetrySendsDrainedBody | client.go:137-177 | after a 503 answer to a non-empty payload, the retry is sent with an empty body |
| Dispatch.NegativeRetries | client.go:145-183 | with negative MaxRetries nothing is sent and the call fails naming MaxRetries+1 attempts and no cause |
| Response.ParseResponse | client.go:209-252 | success iff the body was read, the status is 200, the envelope decodes with ok true and the result decodes; a non-200 status gives the decoded API error or one synthesized from status and body; the ok-false error has code 0; a failed read, an undecodable envelope and a result that cannot be re-encoded or decoded each give their own local, non-API error carrying the cause |
| Response.ResponseErrorText | client.go:221-246 | a text starts with "Telegraph API error" exactly when the error is an API error; local failures name what failed |
| Response.OkFalseText | client.go:232-237 | a 200 answer with ok false fails with code 0 and reads "Telegraph API error: API returned ok: false" |
| Query.CharUtf8 | client.go:422-429 | the UTF-8 encoding of a character has CharBytes bytes; ASCII is one byte, everything else only bytes >= 0x80 |
| Query.Utf8 | client.go:422-429 | the UTF-8 encoding of a string has Utf8Len bytes |
| Query.EscapeByte | client.go:422-429 | one escaped byte is 1 to 3 ASCII characters and never `&` or `=` |
| Query.EscapeRoundTrip | client.go:422-429 | unescaping the escaped bytes gives them back |
| Query.EscapedHasNoSeparators | client.go:422-429 | an escaped value never contains the pair separators |
| Query.GetPageQuery | client.go:422-429 | the query starts with "path=" and the escaped path holds no `&` or `=`, so it cannot break out of its pair |
| Query.GetPageQueryRecoversPath | client.go:422-429 | the UTF-8 bytes of any page path can be read back from the query after "path="; when content is asked for, the query ends with "&return_content=true" |
| Query.PlainPathVerbatim | client.go:422-429 | a path of letters, digits and `-_.~` appears in the query unchanged |
| Query.QueryExamples | client.go:422-429 | a space becomes `+`, and `/` becomes `%2F` |
| TelegraphClient.Apply | client.go:76-104 | each option changes its own setting and nothing else: the HTTP client, the base URL without one trailing slash, the rate with a burst of trunc(rps), or the retry policy |
| TelegraphClient.LastOptionWins | client.go:107-122 | of several base-URL or retry options the last wins; with none the default stays |
| TelegraphClient.ApplyAllAppend | client.go:118-120 | applying options in two batches is applying them at once |
| TelegraphClient.TrailingSlashIgnored | client.go:86-90 | a base URL with or without one trailing slash gives the same client |
| TelegraphClient.PerformShape | client.go:267-503 | an invalid request is reported without sending; otherwise at most MaxRetries+1 requests go to the endpoint, the first with the data; a result comes only from a 200 answer |
| TelegraphClient.SynthesizedCodeIsFinal | client.go:212-224 | an error synthesized from a status is never a retryable status |
| TelegraphClient.Client.constructor | client.go:107-122 | the settings are the defaults with each option applied in order |
| TelegraphClient.Client.Call | client.go:267-283 | validation, dispatch and parsing, as `Perform` specifies |
| TelegraphClient.Client.CreateAccount | client.go:267-283 | invalid requests send nothing; otherwise POST to base + "/createAccount" with the JSON, at most MaxRetries+1 times |
| TelegraphClient.Client.EditAccountInfo | client.go:297-313 | the same for "/editAccountInfo" |
| TelegraphClient.Client.GetAccountInfo | client.go:326-342 | the same for "/getAccountInfo" |
| TelegraphClient.Client.CreatePage | client.go:357-373 | the same for "/createPage" |
| TelegraphClient.Client.EditPage | client.go:389-405 | the same for "/editPage" |
| TelegraphClient.Client.GetPage | client.go:417-441 | an empty path is rejected without sending; otherwise a GET with no body to "/getPage?" and the encoded query |
| TelegraphClient.Client.GetPageList | client.go:455-471 | the same as CreateAccount for "/getPageList" |
| TelegraphClient.Client.GetViews | client.go:487-503 | the same as CreateAccount for "/getViews" |

## Left out

- `html.Parse` (client.go:516) is a library: the parsed tree or the parse error is an argument of `ConvertHtmlToPage`.
- JSON encoding and decoding (`encoding/json`): the encoded request is the `json` argument, and what the decoder makes of a response is the `decode` argument of each call.
- net/http is not modelled: headers, User-Agent, the 30-second timeout, connection handling and response body closing. The HTTP client is an opaque number. Each attempt's outcome comes from `Env.respond`.
- The rate limiter's token bucket, `sync.RWMutex`, wall-clock time and the context are not modelled. The rate limiter's verdict, the attempt at which the context is found cancelled, and the request-construction error are fields of `Env`. Waiting is recorded as the list of delays.
- TelegraphClient.Client.constructor: `WithRateLimit` records the rate and the burst `int(rps)` (truncated); the limiter's behaviour, including `rate.Inf`, is not modelled.
- Dispatch.RetryTargets: states that later bodies are the full body or what is left of it, not which. `RetrySendsDrainedBody` pins the drained case. How far a transport failure reads the buffer is not knowable without net/http, so it is taken to read nothing.
- Dispatch.DoRequest: waits the corrected, non-wrapping `CalculateDelay` before each retry, not the int64-wrapping delay client.go:148 computes; the two agree until the product overflows (`AsWrittenAgreesWithoutOverflow`), and `OverflowSkipsTheCap` shows where they part. `Retry`, `RetryUntilFinal`, `FailuresThenFinal` and `DefaultPolicyAgainstFailingServer` state the corrected waits too.
- Strings are sequences of Unicode scalar values, so a Go string holding invalid UTF-8 cannot be represented; byte lengths (`Utf8Len`) and query escaping are modelled for valid UTF-8 only.
- Records: `Page` keeps the fields the conversion writes and the API returns; JSON tags and `omitempty` are not modelled.
- The examples directory and the test files are context only. Their cases appear as example lemmas where they concern the core.

## Findings

| source | as written | input that shows it | evidently intended | confidence | as-written member | corrected member |
|---|---|---|---|---|---|---|
| client.go:186-194 | `InitialDelay * (1<<(attempt-1)) * Multiplier` is an int64 product that wraps around before the `MaxDelay` cap is applied | `DefaultRetryConfig` with `MaxRetries` 40: attempt 37 gives 100ms·2^36·2 > 2^63, which wraps to a negative delay, so the retry does not wait at all | the delay grows to `MaxDelay` and stays there | high that the product wraps; it needs MaxRetries ≥ 37 with the defaults; not executed | Backoff.OverflowSkipsTheCap | Backoff.CalculateDelay |
