# webrisk-demo core in Dafny

This project models the pure logic of the webrisk-demo backend and proves
properties about it. There are three parts.

- **URL normalisation and evidence validation** (`backend/utils.py`).
  `format_url` trims the URL, adds `https://` when no `http://` or
  `https://` scheme is present, and strips every trailing `/`.
  `validate_submission_evidence` asks for at least ten characters of
  trimmed evidence, and for at least two distinct keywords of the
  submission type.
- **The Certificate Transparency brand scan** (`backend/ctlogs.py`,
  `search_ct_logs_for_brand`). It pages through each log with get-entries
  requests (section 4.6 of RFC 6962) in batches of 1000. It pulls `CN=` and
  `DNS:` host names out of every entry and reports those that contain the
  brand, ignoring case. The network is modelled as the finite list of
  answers each log gives. Decoding is modelled as each entry's decoded text,
  or `Undecodable`.
- **The relay handlers' decisions** (`backend/main.py`).
  - `scan_url` turns a Web Risk verdict into three fixed scores, or into an
    error status.
  - `submit_url` checks the request and builds the `uris:submit` body.
  - `check_submission_status` derives an operation's status.

  Request bodies and upstream answers are a small JSON datatype. The
  environment variables and the upstream outcome are parameters.

Modules, one file each:

| module | file | role |
|---|---|---|
| `Results` | `results.dfy` | `Option` and `Result` |
| `Seqs` | `seqs.dfy` | sequence facts: distinctness, concatenation, blocks |
| `Text` | `text.dfy` | `str.strip`, `str.lower` and `in` on ASCII text |
| `Decimal` | `decimal.dfy` | `str(n)` for a natural number |
| `Utils` | `utils.dfy` | `format_url`, `validate_submission_evidence` |
| `Extract` | `extract.dfy` | `re.findall(tag + "([^,\n]+)", text)` |
| `CtLogs` | `ctlogs.dfy` | one page and one log of the scan |
| `CtSearch` | `ctsearch.dfy` | the loop over logs |
| `BrandSearch` | `brandsearch.dfy` | `search_ct_logs_for_brand` end to end |
| `JsonValues` | `json.dfy` | JSON values, truthiness, `dict.get` |
| `Relay` | `relay.dfy` | the pure parts of the three handlers |

Three comments and docstrings in the code promise more than the code does.
The model follows the code.

- `backend/utils.py:14` says the trailing slash is removed. `rstrip('/')`
  on line 15 removes every trailing `/`, including those of the scheme:
  `"http://"` becomes `"http:"` (`Utils.SchemeSlashesStripped`). For the
  same reason `format_url` is not idempotent (`Utils.NotIdempotent`).
- `backend/ctlogs.py:65` says the set avoids duplicates. It does so only
  within one entry. The same host name is reported once for every entry,
  and for every log, that contains it. When a URL is given twice, or when a
  log answers with more entries than the batch asks for, the same
  (domain, index, log) record can appear twice. `BrandSearch.SearchExactlyOnce`
  holds only when neither happens.
- The docstring at `backend/ctlogs.py:15-26` says the function returns a
  list. An entry without `leaf_input.leaf_certificate`, or with invalid
  base64, raises at line 56 or 59. Neither handler at lines 79-84 catches
  that exception, so the call raises instead of returning, whatever the
  other logs hold. `CtSearch.ScanLogsAbort` and `BrandSearch.SearchAbort`
  state this.

## Model

Some helpers carry no row of their own. Their behaviour reaches the table through the rows that use them:
- `Relay.PyIn` (`backend/main.py:85`) and `Relay.Scores` (lines 81-94) through `Relay.ScanScores` and `Relay.ScoresInOrder`;
- `Relay.Payload` (line 72) through `Relay.ScanReply`;
- `Utils.WithScheme` (`backend/utils.py:11-12`) through `Utils.FormatUrl`;
- `BrandSearch.HitMatches` and `BrandSearch.Matches` (`backend/ctlogs.py:67-74`) through `BrandSearch.MatchSource`, `BrandSearch.MatchPair` and `BrandSearch.MatchPresent`.

| member | source | states |
|---|---|---|
| Text.Strip | backend/utils.py:8 | `str.strip()`: the result is the input minus its leading and trailing whitespace run, and does not start or end with whitespace |
| Text.StripUnique | backend/utils.py:8 | stripping is the only way to cut a string into whitespace, a core without whitespace at its ends, and whitespace |
| Text.Lower | backend/ctlogs.py:30 | `str.lower()` keeps the length and leaves no ASCII capital letter in the text |
| Text.LowerIdempotent | backend/ctlogs.py:30 | lower-casing lower-cased text changes nothing |
| Text.LowerIgnoresCase | backend/utils.py:34 | two strings lower-case to the same text exactly when they differ at most in the case of ASCII letters |
| Text.ContainsAt | backend/ctlogs.py:68 | `needle in hay` holds when `needle` occurs at some position of `hay` |
| Text.ContainsWitness | backend/ctlogs.py:68 | `needle in hay` holds only when `needle` occurs at some position of `hay` |
| Text.ContainsLowerIgnoresCase | backend/ctlogs.py:68 | `needle.lower() in hay.lower()` holds exactly when `needle` occurs in `hay` ignoring the case of letters |
| Text.StripLengthFollowsSpaces | backend/utils.py:24 | two strings with whitespace at the same positions have stripped forms of the same length |
| Utils.FormatUrl | backend/utils.py:1-15 | the result starts with `http:` or `https:` and never ends with `/`; it is a prefix of the trimmed input (with `https://` added when the input has no scheme), and only `/` characters were cut off |
| Utils.KeepsGivenScheme | backend/utils.py:8-15 | a trimmed input starting with exactly `http://` or `https://`, followed by something other than only slashes, gets no prefix; the result is that input minus all its trailing `/` |
| Utils.AddsHttps | backend/utils.py:8-15 | a trimmed input without either scheme and not made only of slashes becomes `https://` + the trimmed input minus all trailing `/` |
| Utils.StripTrailingSlashes | backend/utils.py:15 | `rstrip('/')`: the result is a prefix of the input that does not end with `/`, and everything removed is `/` |
| Utils.StripTrailingSlashesAppend | backend/utils.py:15 | stripping trailing `/` only touches the end: a prefix stays put when the rest is not all slashes |
| Utils.FormattedIsFixedPoint | backend/utils.py:8-15 | a URL that has a scheme and does not end with `/` or whitespace is left unchanged |
| Utils.OneTrailingSlashDropped | backend/utils.py:15 | such a URL followed by `/` formats back to itself |
| Utils.DropSlash | backend/utils.py:15 | all trailing slashes go, not just one: one more `/` changes nothing |
| Utils.BlankBecomesScheme | backend/utils.py:8-15 | blank input becomes `"https:"` |
| Utils.NotIdempotent | backend/utils.py:8-15 | formatting blank input twice gives `"https://https:"`, so `format_url` is not idempotent |
| Utils.ExampleBareHost | backend/utils.py:8-15 | `"example.com/"` becomes `"https://example.com"` |
| Utils.ExampleHttp | backend/utils.py:8-15 | `"http://example.com/"` becomes `"http://example.com"` |
| Utils.SchemeSlashesStripped | backend/utils.py:15 | `"http://"` becomes `"http:"` |
| Utils.CountFound | backend/utils.py:34 | the generator sum is at most the number of keywords; it is 0 exactly when no keyword occurs, and the full count exactly when every keyword occurs |
| Utils.FoundIn | backend/utils.py:34 | a keyword is found exactly when it occurs, lowercased, in the lowercased evidence |
| Utils.CountFoundIsSetSize | backend/utils.py:34 | for a list without repeats, the count of the generator sum equals the number of distinct keywords found, so each keyword counts at most once however often it occurs |
| Utils.KeywordListsDistinct | backend/utils.py:27-33 | the keyword list of every submission type has no repeats |
| Utils.FoundKeywordsCounted | backend/utils.py:33-34 | the count the code compares with 2 is the number of distinct keywords of the type found in the evidence |
| Utils.ValidateEvidence | backend/utils.py:17-39 | evidence is accepted exactly when its trimmed length is at least 10 and at least two distinct keywords of the type occur, ignoring case; missing or short evidence gets the too-short message whatever the type; otherwise a rejection names the type |
| Utils.UnknownTypeRejected | backend/utils.py:27-37 | a type other than `phishing` or `malware` has no keywords, so it is always rejected |
| Utils.VerdictIgnoresCase | backend/utils.py:24-34 | evidence that differs only in ASCII case gets the same verdict and message |
| Decimal.Show | backend/ctlogs.py:38 | `str(n)`: non-empty digits without a leading zero, one digit exactly below 10 |
| Decimal.ParseShow | backend/ctlogs.py:38 | reading the decimal text back gives the number |
| Decimal.ShowInjective | backend/ctlogs.py:38 | different numbers have different decimal texts |
| Extract.RunEnd | backend/ctlogs.py:62 | `[^,\n]+` is greedy: the run ends at a `,`, a newline or the end of the text |
| Extract.MatchStarts | backend/ctlogs.py:62-63 | the reported matches are real matches, left to right and not overlapping |
| Extract.MatchStartsComplete | backend/ctlogs.py:62-63 | every match position is reported, or lies inside an earlier reported match |
| Extract.Capture | backend/ctlogs.py:62-63 | a capture is a non-empty run without `,` or newline, and follows the tag in the text |
| Extract.FindAll | backend/ctlogs.py:62-63 | `re.findall` returns one capture per match of the left-to-right, non-overlapping scan that `Extract.MatchStarts` and `Extract.MatchStartsComplete` characterise, in text order; each is a candidate that follows the tag in the text |
| CtLogs.Candidates | backend/ctlogs.py:62-65 | an entry's domain set is exactly the union of its `CN=` and `DNS:` captures |
| CtLogs.BrandHits | backend/ctlogs.py:62-68 | every host name an entry reports follows a `CN=` or `DNS:` tag in the entry's text |
| CtLogs.BrandHitsIgnoreCase | backend/ctlogs.py:30-68 | an entry reports exactly those of its candidates in which the brand occurs ignoring case, whatever the case of the brand as given |
| CtLogs.ScanEntries | backend/ctlogs.py:53-59 | a page completes exactly when all its entries decode; otherwise the first undecodable entry raises, at its log index |
| CtLogs.ScanEntriesHits | backend/ctlogs.py:53-75 | a decoded page reports each entry with hits once, in order, at index page start + position, and nothing else |
| CtLogs.FirstStop | backend/ctlogs.py:44-51 | pages are read up to the first answer that is an error, lacks `entries` or is empty |
| CtLogs.ReadBeforeStop | backend/ctlogs.py:44-51 | every answer before that one is a non-empty page |
| CtLogs.ScanPages | backend/ctlogs.py:37-84 | a scan of a log that raises names that log |
| CtLogs.ScanPagesSucceeds | backend/ctlogs.py:44-59 | a log's scan completes exactly when every page it reads decodes |
| CtLogs.AbortSource | backend/ctlogs.py:56-59 | a raising scan names the first undecodable entry of the first page that has one, at index `start + 1000 q + j` |
| CtLogs.SentRequestsCount | backend/ctlogs.py:37-51 | one request per page read, plus the one whose answer ended the log |
| CtLogs.ScanPagesRequests | backend/ctlogs.py:35-38 | request `k` asks for `start = 1000 k` and `end = 1000 k + 999`; the cursor moves on by 1000 whatever the page's length |
| CtLogs.ShowThenText | backend/ctlogs.py:38 | a number's decimal text followed by text that starts with a non-digit splits only one way |
| CtLogs.UrlDeterminesRange | backend/ctlogs.py:38 | two requests to one log with the same URL ask for the same range |
| CtLogs.RequestUrlAt | backend/ctlogs.py:34-38 | request `k` of a log fetches `log?start=S&end=E`, where `S` is `1000 k` after the first index in decimal and `E` is `S + 999` |
| CtLogs.ScanPagesUrlsDistinct | backend/ctlogs.py:37-38 | a log's scan never fetches the same URL twice |
| CtLogs.HitSource | backend/ctlogs.py:53-75 | every hit of a log reports an entry of a page read before the log ended |
| CtLogs.ScanPagesSound | backend/ctlogs.py:53-75 | every hit of a log reports a decoded entry with hits, at its log index |
| CtLogs.ScanPagesComplete | backend/ctlogs.py:53-75 | every entry with hits on a page read before the log ended is reported |
| CtLogs.ScanPagesOrdered | backend/ctlogs.py:53-54 | when no page is longer than the batch, a log's hit indices strictly increase |
| CtLogs.IgnoresAnswersAfterStop | backend/ctlogs.py:44-51 | answers after the one that ends a log are never read |
| CtSearch.ScanLogs | backend/ctlogs.py:32-84 | a scan that raises names one of the given logs |
| CtSearch.ScanLogsSplit | backend/ctlogs.py:32 | for every split point, the scan of a list of logs is the scan of its first part followed by that of its second: it completes exactly when both do, with their hits and requests in order, and otherwise raises the first abort met |
| CtSearch.ScanLog | backend/ctlogs.py:32-34 | each log is scanned from index 0, and a failure names the log |
| CtSearch.ScanLogsSucceeds | backend/ctlogs.py:79-84 | the whole scan completes exactly when every log's scan does: errors, missing `entries` and empty pages end one log only |
| CtSearch.ScanLogsAbort | backend/ctlogs.py:56-59 | a raising search raises the abort of the first log whose scan raises |
| CtSearch.LogKept | backend/ctlogs.py:32 | each log's hits and requests appear unchanged, as one block, in the whole scan: matches found before a log ended are kept, and the next log is scanned |
| CtSearch.HitLog | backend/ctlogs.py:71 | every hit names the URL of the log it came from |
| CtSearch.ScanLogsGrouped | backend/ctlogs.py:32 | with distinct URLs, hits are grouped by log in input order |
| CtSearch.ScanLogsLogOrdered | backend/ctlogs.py:53-54 | with distinct URLs and pages within the batch, the hits of one log come in strictly increasing index order |
| CtSearch.ScanLogsComplete | backend/ctlogs.py:32-75 | every entry with hits on a page a log read is reported in the whole scan |
| BrandSearch.SearchCtLogsForBrand | backend/ctlogs.py:5-94 | a call that raises names one of the given logs; the records it returns are described by the lemmas below |
| BrandSearch.MatchesAppend | backend/ctlogs.py:67-74 | the records of two lists of hits, one after the other, are the records of the joined list |
| BrandSearch.SearchSplits | backend/ctlogs.py:32 | for every split point, the search of a list of logs returns a list exactly when the searches of both parts do, and it is their records concatenated, repeated URLs or not |
| BrandSearch.SearchOneLog | backend/ctlogs.py:32-74 | a search of one log returns the records of that log's hits, in order, exactly when its scan completes |
| BrandSearch.SearchLogBlock | backend/ctlogs.py:32 | in a successful search, log `i` contributes the records it gives on its own, as one block between those of the logs before it and those after it |
| BrandSearch.MatchSource | backend/ctlogs.py:67-74 | every record comes from one host name of one hit, with that hit's index and log |
| BrandSearch.MatchPair | backend/ctlogs.py:67-74 | records keep the order of the hits, and within a hit the set's iteration order |
| BrandSearch.MatchPresent | backend/ctlogs.py:67-74 | every host name of every hit gets its record |
| BrandSearch.MatchesDistinct | backend/ctlogs.py:65-74 | hits no two of which share both log and index give records that never repeat |
| BrandSearch.SearchSound | backend/ctlogs.py:30-74 | every record's domain is a candidate of its entry that contains the brand, ignoring case; its `log_url` is one of the given logs; its `entry_index` is page start + position |
| BrandSearch.SearchComplete | backend/ctlogs.py:62-74 | every candidate that contains the brand, on a page a log read, is reported with its index and log |
| BrandSearch.SearchExactlyOnce | backend/ctlogs.py:65-74 | with distinct log URLs and pages within the batch, no record appears twice |
| BrandSearch.SearchGroupedByLog | backend/ctlogs.py:32-71 | with distinct log URLs, records are grouped by log, in the order the logs are given |
| BrandSearch.SearchIndicesInOrder | backend/ctlogs.py:53-54 | with distinct log URLs and no page longer than the batch, records of one log come in non-decreasing index order |
| BrandSearch.SearchSucceeds | backend/ctlogs.py:56-84 | the search returns a list exactly when no log reads an undecodable entry |
| BrandSearch.SearchAbort | backend/ctlogs.py:56-59 | a failing search names the first undecodable entry it reads; every earlier log and entry decoded |
| BrandSearch.SearchRequests | backend/ctlogs.py:35-38 | each log gets one block of requests, one per page read plus the last, from `start=0&end=999` up in steps of 1000 |
| Relay.ScanUrl | backend/main.py:36-40 | `scan_url` answers 400 exactly when the body's `url` is missing or falsy |
| Relay.ScanNeedsUrl | backend/main.py:37-40 | a missing or empty `url` gets 400 `URL is required` whatever the configuration and whatever the lookup would answer |
| Relay.ScanRequest | backend/main.py:36-57 | before the lookup the answer is 400 exactly for a missing or falsy `url` and otherwise 500 or a lookup; a lookup carries the non-empty key, `format_url(url)` and the three threat types |
| Relay.ScanLooksUpFormattedUrl | backend/main.py:42-51 | a lookup carries the configured non-empty key, `format_url` of the given URL and the three threat types |
| Relay.Flagged | backend/main.py:76-86 | only the three requested types can ever be flagged; verdict types outside them are ignored |
| Relay.ScanScores | backend/main.py:51-96 | a 200 answer lists exactly the three types in order, each `HIGH` exactly when the verdict has a truthy `threat` whose `threatTypes` contains it |
| Relay.ScoresInOrder | backend/main.py:81-94 | score `i` names threat type `i`, and its level is `HIGH` or `SAFE` according to whether the type is flagged |
| Relay.EmptyBodyAllSafe | backend/main.py:72-94 | an empty body gives all three scores `SAFE` |
| Relay.NoThreatAllSafe | backend/main.py:76-94 | a body without `threat` gives all three scores `SAFE` |
| Relay.ScanReply | backend/main.py:69-109 | after the lookup the answer is always JSON: 502 exactly for a 4xx or 5xx status, 504 exactly when no answer came or its body is not JSON, 500 exactly when the body cannot be read as a verdict, and 200 otherwise |
| Relay.HttpErrorDetails | backend/main.py:100-103 | a 502 answer reports the upstream status in decimal and passes the upstream text on as `details` |
| Relay.PrepareSubmission | backend/main.py:117-125 | `submit_url` answers 400 exactly when one of `url`, `evidence` and `abuseType` is missing or falsy |
| Relay.SubmitNeedsFields | backend/main.py:123-133 | a missing required field gets 400 before the project configuration is read |
| Relay.SubmitUrlMustBeText | backend/main.py:127 | a truthy non-string `url` makes `format_url` raise, which ends in a 500 |
| Relay.SubmissionRoundTrip | backend/main.py:141-159 | the submission body keeps the URI, abuse type, evidence, platform and region codes, with confidence `HIGH`, the one label `MANUAL_VERIFICATION` and the evidence as the only comment |
| Relay.SubmissionBody | backend/main.py:141-159 | the body has exactly the `submission`, `threatInfo` and `threatDiscovery` parts, and reading it back gives the report it was built from |
| Relay.SubmissionContents | backend/main.py:117-164 | a submission goes to the configured project's `uris:submit` and reports `format_url(url)` and the caller's fields |
| Relay.SubmissionDefaults | backend/main.py:120-121 | absent `platform` and `regionCodes` become `PLATFORM_UNSPECIFIED` and `['US']` |
| Relay.OperationStatus | backend/main.py:220-224 | the status is `PENDING`, `SUCCEEDED` or the metadata's own `state`, and `SUCCEEDED` only when `done` is truthy |
| Relay.StatusReply | backend/main.py:220-230 | an operation dict gets 200 with its `name`, its derived status and itself as `details`, and nothing else; anything other than a dict ends in a 500 |
| Relay.PendingUntilDone | backend/main.py:220-221 | without a truthy `done` the status is `PENDING` |
| Relay.SucceededByDefault | backend/main.py:222-224 | a finished operation whose metadata is a dict without `state` (or is absent) is `SUCCEEDED` |
| Relay.StateWhenDone | backend/main.py:222-224 | a finished operation with a dict `metadata` reports its `state` unchanged |
| Relay.NonDictMetadataPending | backend/main.py:223 | a finished operation whose `metadata` is not a dict, `null` for instance, stays `PENDING` |
| Relay.StatusReadsDoneAndMetadata | backend/main.py:220-224 | the status depends on `done` and `metadata` alone |

## Left out

- Flask routing, CORS, logging, `os.getenv`, `google.auth`, `AuthorizedSession` and every HTTP call. They are replaced by parameters: the request body, the API key or project number, and the upstream answer.
- The query string of the `uris.search` call (`backend/main.py:54-60`): `urlencode` is not modelled, so a lookup is the triple of key, URI and threat types.
- The response handling of `submit_url` (`backend/main.py:163-187`). It answers with the operation `name` and the current time (line 178). An HTTP error is answered with the upstream status (lines 182-184), and any other exception with a 500 (lines 185-187).
- The steps of `check_submission_status` before the operation is decoded (`backend/main.py:194-218`). A missing project number gets a 500 "Project configuration missing" without calling the service (lines 197-199). Every failure of the fetch, HTTP errors included, ends in a 500 with `str(e)` (lines 232-234). Only the answer built from a decoded operation (lines 220-230) is modelled, as `Relay.StatusReply`.
- The text of Python exceptions (`str(e)`) that end in a 500, and Flask's own 500 page. Both are the one `ServerError` reply. The `reason` of an unreachable upstream and a JSON decoder's message are parameters.
- The `requests` library version. From version 2.27, `response.json()` raises an exception that is also a `RequestException`, so a Web Risk answer that is not JSON gets 504; older versions would give 500. The model follows 2.27 and later.
- A request body that is not JSON. For `scan_url`, `request.json` (`backend/main.py:36`) is outside any `try`, so Flask answers 400 or 415 itself. For `submit_url`, `request.json` (line 116) is inside the `try` of line 115, so `except Exception` (lines 185-187) turns the same failure into a 500. The body is taken as already decoded.
- The order of keys in JSON objects. Objects are maps, and no decision of the handlers depends on key order.
- Base64 and UTF-8 decoding of certificates (`backend/ctlogs.py:58-62`). Each entry is its decoded text or `Undecodable`.
- A page body that is JSON but not an object, or whose `entries` is not a list. An `entries` of `null` counts as an empty page.
- The endless `while True` against a live log. Each log is the finite list of its answers, and running out of answers ends the log without sending another request.
- Console output (`backend/ctlogs.py:33-92` prints) and the `__main__` blocks.
- `backend/main.old.py`, a superseded copy of the relay.
- Unicode: `strip`, `isspace` and `lower` are modelled on ASCII, with the whitespace set of `str.isspace` restricted to ASCII.
- BrandSearch.SearchCtLogsForBrand: the iteration order of a Python `set` depends on string hashing and on how the set was built. It is a parameter `order` with one listing per distinct hit value: log, index and host-name set. Two entries get equal hit values only when a log URL is repeated or a page is longer than the batch, and then the model gives them the same listing where Python might not. The properties hold for every such listing that names each host name of the hit once.
- The default `logs` argument of `search_ct_logs_for_brand` (`backend/ctlogs.py:5`). The model always takes the logs as given.
- BrandSearch.SearchGroupedByLog: it requires distinct log URLs. With a repeated URL, the records of two logs with that URL cannot be told apart. `BrandSearch.SearchLogBlock` states the grouping that holds without the condition: each log's own records form one block, in input order.
- BrandSearch.SearchIndicesInOrder: it requires distinct log URLs and no page longer than the batch. A log that answers with more than 1000 entries makes the code itself emit overlapping, out-of-order indices.
- BrandSearch.SearchExactlyOnce: it holds only for distinct log URLs and for pages no longer than the batch. Without those conditions the code itself can emit a record twice.
- Utils.ValidateEvidence: the evidence is a string or absent. Other values are not modelled. A falsy one (`0`, `False`, `[]`, `{}`) gets the too-short verdict at `backend/utils.py:24` before `strip` runs; only a truthy non-string raises in `strip`. No handler in `backend/main.py` calls the function: it is only imported, at line 6.
- Utils.ValidateEvidence: the submission type is a string or absent. A value of another type is not modelled. It matters only for evidence that passes the length check at `backend/utils.py:24`; shorter evidence gets the too-short message whatever the type. For longer evidence, an unhashable type raises in `keywords.get` (line 33). A hashable one has no keywords, so it is rejected with its `str()` in the message (line 37).
