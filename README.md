# Refresh-history pipeline: a Dafny model

This project models the sequential middle of a tool that collects the
refresh history of an analytics service's datasets and dataflows and
produces one report. It covers four stages:

- **Entry normaliser** (`src/parser.py`, module `Parser`). A raw dataset-refresh entry becomes a flat record. The error text comes from the first attempt whose `attemptId` is 1, and every attempt is counted. A dataflow transaction becomes a record with exactly five fields.
- **Record transformer** (`src/transform.py`, modules `Timestamps`, `ErrorMessages`, `Transform`). Each normalised entry becomes an output row. The row has a three-valued status, a refresh-type label, rendered timestamps, a duration in seconds and a cleaned error message.
- **Paginated fetcher** (`src/refresh.py`, module `Refresh`). `fetch_all_pages` follows `@odata.nextLink`, the continuation link of section 4.5.5 of OData JSON Format v4.01, until a page has none. It concatenates each page's `value` list. The HTTP client is a class whose answers come from an abstract server function, and the class records every request it sends.
- **Dataset name filter** (`src/datasets.py`, module `Datasets`). Datasets whose lower-cased name contains `usage metrics` are dropped.

`Wrappers` holds `Option` and `Result`. `Ascii` holds the string operations
the source uses: `lower`, `strip`, substring search and `split(';', 1)`.

`src/parser.py` and `src/transform.py` contain the same `parse_iso`,
`fmt_local` and `extract_error_message`. Each is modelled once, in
`Timestamps` and `ErrorMessages`, and the table cites whichever copy of
the lines a row is about.

Collaborators that the model does not define are parameters:
- `datetime.fromisoformat` is `IsoReader`, a function from text to `Option<int>` seconds. None means it raises.
- Rendering in the target time zone is `LocalRenderer`, a function from `int` to text.
- `json.loads` is `JsonReader`, a function from text to an optional map of string members. None means JSONDecodeError.
- The HTTP server is `Server`, a function from a URL and its parameters to a `Response`.

In these places the code behaves in ways worth noting, and the model follows it:
- A malformed non-empty timestamp makes the transformer raise (`Fault.MalformedTimestamp`). It does not give None.
- A missing `workspace`, `dataset_name` or `dataflow_name` makes the transformer raise `KeyError` (`Fault.MissingKey`). The transformer does not substitute a default for them.
- A dataflow transaction keeps five fields (`transactionId`, `requestId`, `startTime`, `endTime`, `status`), not four.
- A refused page ends the fetch with its HTTP status. The model carries the status only, not the body.

## Model

| member | source | states |
|---|---|---|
| `Ascii.Lower` | src/datasets.py:31 | `lower()` keeps the length and lower-cases each character, and only A-Z change |
| `Ascii.LowerChar` | src/datasets.py:31 | only A-Z change, each by +32, and no result is an upper-case letter |
| `Ascii.Contains` | src/datasets.py:31 | the `in` test on strings: a prefix is contained, and a contained pattern is never longer than the text |
| `Ascii.ContainsAt` | src/datasets.py:31 | the `in` test on strings holds exactly when the pattern occurs at some index |
| `Ascii.FirstIndex` | src/transform.py:29 | finds the first `;`: it is there, nothing before it is one, and None means there is none |
| `Ascii.AfterFirst` | src/transform.py:29 | `split(';', 1)[1]` is the text after the first `;`, so the text is the part before it, the `;`, then the result |
| `Ascii.Strip` | src/transform.py:29 | `strip()` removes only leading and trailing whitespace, all of it: the result sits in the input between two whitespace-only runs and neither of its ends is whitespace |
| `Ascii.StripIdempotent` | src/parser.py:37 | stripping twice is stripping once |
| `Ascii.StripPadded` | src/parser.py:37 | a text whose ends are not whitespace comes back exactly when padded with whitespace on both sides |
| `Timestamps.Rewrite` | src/transform.py:11-13 | a trailing `Z` becomes `+00:00` and the rest of the text is kept, other texts are untouched, and the result never ends in `Z`, so the rewrite never applies twice |
| `Timestamps.ParseIso` | src/transform.py:8-14 | no instant exactly for the empty text; otherwise the reader's answer on the rewritten text, and a rejection is Malformed |
| `Timestamps.ZuluEqualsUtcOffset` | src/parser.py:8-16 | a timestamp ending in `Z` parses like the same timestamp ending in `+00:00` |
| `Timestamps.Render` | src/transform.py:55-56 | no instant renders as `''` and an instant renders through the zone's renderer; only a malformed text fails |
| `Timestamps.FmtLocal` | src/transform.py:16-18 | the empty text gives `''`, and `fmt_local` fails exactly when `parse_iso` does |
| `ErrorMessages.Description` | src/transform.py:23-27 | a JSON object's `errorDescription` is used; text that is not JSON, or JSON without the key, stands for itself |
| `ErrorMessages.UsefulPart` | src/transform.py:29 | with a `;`, the stripped text after the first `;`; without one, the whole text stripped; either way the result's ends are not whitespace |
| `ErrorMessages.ExtractErrorMessage` | src/transform.py:20-29 | the empty payload gives `''`; otherwise the useful part of the description, and the result never starts or ends with whitespace |
| `ErrorMessages.KeepsTextAfterFirstSemicolon` | src/transform.py:28-29 | with a `;`, exactly the text after the first `;` is kept, without surrounding whitespace; later `;` stay in the message |
| `ErrorMessages.KeepsWholeTextWithoutSemicolon` | src/parser.py:36-37 | without a `;`, the whole description is kept, without surrounding whitespace |
| `ErrorMessages.MessageInDescription` | src/parser.py:29-37 | the message is always a substring of the description it came from |
| `ErrorMessages.JsonDescriptionUsed` | src/transform.py:23-25 | when the payload decodes to the one-member object `{errorDescription: code + "; " + text}`, the message is `text`: the description replaces the raw payload and loses its prefix up to the first `;` |
| `ErrorMessages.JsonExample` | src/transform.py:20-29 | `{"errorDescription":"Code123; Real failure text"}` gives `Real failure text` |
| `ErrorMessages.NotJsonExample` | src/parser.py:34-37 | `not json; trailing` gives `trailing` |
| `ErrorMessages.PlainTextExample` | src/parser.py:34-37 | `plain text, no semicolon` is kept whole |
| `Parser.Get` | src/parser.py:46-51 | `d.get(key)` is the member when the key is present and None otherwise |
| `Parser.Attempts` | src/parser.py:43 | `entry.get("refreshAttempts") or []`: the attempts listed, or none when the member is missing |
| `Parser.FirstAttemptOne` | src/parser.py:44 | the index of the first attempt with id 1: it has id 1 and no earlier one does; None means no attempt has id 1 |
| `Parser.SelectedError` | src/parser.py:44-52 | `""` when no attempt has id 1; otherwise the `serviceExceptionJson` of the earliest attempt with id 1, `""` when it has none |
| `Parser.ParseRefreshEntry` | src/parser.py:39-54 | the six core members are copied unchanged, absent stays absent; `attemptCount` is the number of attempts; `errorMessage` comes from the selected attempt |
| `Parser.SelectsFirstAttemptOne` | src/parser.py:43-53 | the attempt with id 1 is chosen wherever it stands, attempts after it are ignored, its missing `serviceExceptionJson` gives `""`, and all attempts are counted |
| `Parser.NoAttemptOneGivesEmptyError` | src/parser.py:44-53 | with no attempt with id 1 the error is `""`, and `attemptCount` is still the number of attempts |
| `Parser.MissingAttempts` | src/parser.py:43-53 | a missing, null or empty `refreshAttempts` gives `attemptCount` 0 and error `""` |
| `Parser.SecondPositionExample` | src/parser.py:43-53 | attempts `[{attemptId: 2}, {attemptId: 1, serviceExceptionJson: "E"}]` give error `E` and count 2 |
| `Parser.RefreshOnlyReadsItsKeys` | src/parser.py:45-54 | only the six copied members and the attempts affect the record |
| `Parser.ParseTransactionEntry` | src/parser.py:56-66 | each of the five fields is the entry's member of that name, or absent when the entry lacks it |
| `Parser.TransactionOnlyReadsItsKeys` | src/parser.py:60-66 | every other member is dropped: entries that agree on the five keys give the same record |
| `Transform.Text` | src/transform.py:39-41 | `e.get(k, '')`: the member when present, `''` when missing |
| `Transform.ClassifyStatus` | src/transform.py:41-46 | always one of the three labels; `Cancelado` exactly for `Cancelled`, `Sucesso` exactly for `Success` and `Completed`, `Falha` for every other text, `""` included |
| `Transform.RefreshTypeLabel` | src/transform.py:54 | `API` exactly for `ViaApi`, `Agendamento` exactly for `Scheduled`, `Sob Demanda` for every other text, a missing value included |
| `Transform.Duration` | src/transform.py:57 | present exactly when both timestamps parsed, and then start plus duration is end |
| `Transform.DurationCases` | src/transform.py:39-57 | an empty timestamp at either end gives no duration; an end before the start gives a negative duration, not clamped |
| `Transform.DurationExample` | src/transform.py:8-14 | start `2025-05-28T10:00:00Z` and end `2025-05-28T10:05:30Z` give 330 seconds |
| `Transform.TransformEntry` | src/transform.py:37-71 | fails exactly when a timestamp is malformed or a required key is missing; the row is a Dataset row exactly when `type` is `Dataset`, and every other `type` gives the Dataflow shape |
| `Transform.TransformedMembers` | src/transform.py:48-71 | `origem` is `Dataset` exactly when `type` is; every member of the row is the classified, rendered or extracted value of its entry; `attemptCount` defaults to 0 |
| `Transform.TransformFault` | src/transform.py:39-66 | the fault raised is for the start timestamp, then the end timestamp, then `workspace`, then the name, in that order |
| `Transform.TransformEntries` | src/transform.py:31-72 | succeeds exactly when every entry transforms; then one row per entry, in entry order; otherwise the fault of the first entry that fails |
| `Refresh.SuccessIsStatusClassTwo` | src/refresh.py:22 | `raise_for_status` lets through exactly the statuses of the 2xx class |
| `Refresh.PageItems` | src/refresh.py:24 | `data.get("value", [])`: the page's `value` list, or nothing when the page has none |
| `Refresh.NextUrl` | src/refresh.py:25 | `data.get("@odata.nextLink")`: a page with a link gives exactly that link, and a page without one gives the falsy `""` that ends the walk |
| `Refresh.Follow` | src/refresh.py:19-26 | the walk the `while url:` loop makes, within a page bound that it never exceeds in requests |
| `Refresh.Client.constructor` | src/refresh.py:9-14 | a new client answers from the given server and has sent nothing |
| `Refresh.Client.Get` | src/refresh.py:21 | the request is recorded after all earlier ones, and the answer is the server's |
| `Refresh.FetchAllPages` | src/refresh.py:9-27 | the client sends exactly the walk's requests, in order; the result is the walk's items, or the refused page's status with no partial list |
| `Refresh.Advance` | src/refresh.py:20-26 | one loop iteration: a refused page ends the walk with its status; otherwise the walk goes on from the page's link, with this page's items appended |
| `Refresh.FollowStep` | src/refresh.py:20-26 | a walk is its first request followed by the walk from that page's link, without parameters |
| `Refresh.FuelIrrelevant` | src/refresh.py:20 | a finished walk is the same under any larger page bound |
| `Refresh.ParamsOnlyFirst` | src/refresh.py:21-26 | the first request carries the caller's parameters and every later request carries none |
| `Refresh.RequestsFollowLinks` | src/refresh.py:20-25 | every request is for a non-empty URL, and the URL of page N+1 is the link in page N's body after a successful page N |
| `Refresh.StopsAtLastPage` | src/refresh.py:20-25 | an empty start URL gives `[]` with no request; a complete walk ends on a successful page without a link; a refused walk ends on the refused page |
| `Refresh.ItemsInPageOrder` | src/refresh.py:19-24 | the items are every page's `value` list concatenated in page order, and a page without `value` adds nothing |
| `Refresh.ChainFetchedWhole` | src/refresh.py:19-27 | along a chain of N linked pages exactly N requests are issued, one per page in order, and the result is all N pages' items |
| `Datasets.IsUsageMetrics` | src/datasets.py:31 | only a dataset with a `name` at least as long as `usage metrics` can match, so a nameless dataset is kept |
| `Datasets.UsageMetricsAtSomeIndex` | src/datasets.py:31 | a dataset matches exactly when `usage metrics` occurs at some position of its lower-cased name |
| `Datasets.WithoutUsageMetrics` | src/datasets.py:29-32 | no longer than the input, and no kept dataset's lower-cased name contains `usage metrics` |
| `Datasets.KeptInOrder` | src/datasets.py:29-32 | the output is a subsequence of the input: relative order is preserved |
| `Datasets.KeptExactly` | src/datasets.py:29-31 | a dataset is kept exactly when it is in the input and is not a usage-metrics report, so every dropped dataset is one |
| `Datasets.FilterCons` | src/datasets.py:30-31 | each dataset is judged on its own |
| `Datasets.FilterConcat` | src/datasets.py:29-32 | filtering a concatenation filters each part |
| `Datasets.FilterKeepsClean` | src/datasets.py:29-32 | a list without usage-metrics reports comes back unchanged |
| `Datasets.DroppedInAnyCase` | src/datasets.py:31 | the match ignores case: `usage metrics` in any casing, anywhere in the name, drops the dataset |
| `Datasets.UsageMetricsReportDropped` | src/datasets.py:31 | `Usage Metrics Report` is dropped |

## Left out

- Network I/O, `httpx`, async/await and the client timeouts are not modelled. The same goes for token acquisition (`src/auth.py`), configuration (`src/config.py`), logging (`src/logger.py`), printing (`src/main.py`), and the listers that issue a single GET (`src/workspaces.py`, `src/dataflows.py`, the rest of `list_datasets` and `list_dataset_refresh_history`). These are foreign calls and ambient state.
- Request headers are not modelled. They are the same on every request, so the model's `Request` holds only the URL and the parameters.
- `resp.json()` failing on a body that is not JSON, or `data.get` failing on a JSON body that is not an object (a top-level array raises AttributeError, src/refresh.py:23-24), is not modelled: a `Response` always has a body with members.
- `Refresh.FetchAllPages`: a chain of links that never ends makes the source loop forever. The model requires a ghost page bound within which the chain ends, and `Refresh.FuelIrrelevant` shows that the bound never changes the result.
- The code that tags normalised records with `workspace`, `type` and the dataset or dataflow name, and then calls the transformer, is not part of this model, and neither is the bounded-concurrency scheduler: neither of them is in these files.
- `datetime.fromisoformat`, `json.loads` and the time-zone rendering (`astimezone` plus `strftime`, which depend on the IANA database) are oracles. The model states only how their answers are used. `zoneinfo.ZoneInfo(timezone)` raising for an unknown zone name is not modelled either: the source raises it before the loop, even with no entries (src/transform.py:35), whereas `Transform.TransformEntries` on no entries succeeds with no rows.
- JSON that decodes to something other than an object, or whose `errorDescription` is not a string, is not modelled. On a non-object the source raises at `.get` (src/transform.py:25). On a null or numeric `errorDescription` it raises a TypeError at `';' in desc` (src/transform.py:29). On a list it raises at `.split` when the list holds `';'`, and at `.strip()` otherwise.
- Instants are whole seconds. Sub-second precision and the truncation in `int(total_seconds())` are not modelled. Neither is the `TypeError` from subtracting an offset-naive datetime from an offset-aware one.
- `lower()` and `strip()` are ASCII only. Non-ASCII letters are not lower-cased, and non-ASCII whitespace is not stripped.
- A member that is present with a null value is treated like an absent member. The source behaves differently in these places:
  - a null `attemptCount` passes through as null instead of defaulting to 0 (src/transform.py:59);
  - a null `serviceExceptionJson` on the chosen attempt passes through as null instead of `""` (src/parser.py:52);
  - a null `workspace`, `dataset_name` or `dataflow_name` gives a row holding null (src/transform.py:50, 52, 64, 66), whereas `Transform.TransformEntry` fails with `MissingKey`;
  - a null page `value` makes `items.extend(None)` raise a TypeError and abort the fetch (src/refresh.py:24), whereas `Refresh.PageItems` adds nothing and the walk goes on;
  - a null dataset `name` makes `.lower()` raise an AttributeError (src/datasets.py:31), whereas `Datasets.IsUsageMetrics` keeps the dataset.
- `attemptId` is an integer. Python's `1 == 1.0 == True` equalities are not modelled.
