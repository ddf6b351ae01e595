# go_wiki_scraper core, modelled in Dafny

This project models the sequential logic of `go_wiki_reader.go`, a small crawler. It fetches a fixed list of Wikipedia pages and collects the paragraph text of each page into one record per page. It writes the records as line-delimited JSON and then checks the file. The model has three parts:

- **URL gate** (`UrlGate`, file `url_gate.dfy`). `isValidURL` and `validateURLs` are modelled here. An empty list is refused. Otherwise the first URL whose scheme is not `http` or `https` is reported. Go's `url.Parse` is reduced to the part that decides the scheme:
  - it refuses ASCII control characters before the `#` fragment;
  - it scans the scheme with Go's `getScheme` rules: a letter, then letters, digits, `+`, `-` or `.` up to a `:`, with a leading `:` an error;
  - it lower-cases the scheme.
- **Per-URL aggregation** (`Aggregation`, `aggregation.dfy`; `TextUtil`, `text_util.dfy`). This is the body of the paragraph callback. `Aggregator` holds the record slice (`records`) and a ghost history of the fragments passed to `Merge` (`calls`).
  - `Merge` trims the fragment with `strings.TrimSpace` (Go's `unicode.IsSpace` set is written out in full).
  - It ignores a blank fragment.
  - Otherwise it runs the find-or-create loop (`FindOrAppend`), which keeps the loop, the `found` flag and the `break` of the source.
  - Its invariant is `records == Aggregated(calls)`. `Aggregated` is an independent reference: one record per URL that received text, in the order URLs first received text, each holding that URL's trimmed fragments joined by single spaces, in call order.
- **Output checks** (`OutputCheck`, `output_check.dfy`). These are the size rule of `validateOutputFile` and the field rule of `validateJSONLStructure`. The field rule runs over the stream of values the JSON decoder yields: `Decoded(record)` or `Undecodable`. It counts decoded values, not physical lines, as the source does: `lineNumber` is incremented once per `decoder.Decode`. The source calls the counter `lineNumber` and reports it as "line %d" (go_wiki_reader.go:65, 70, 73), but it counts decoded values. The record fields are `url` and `text`, as in the code's `PageData`.

`Outcomes` (`outcomes.dfy`) holds `Option` and `Outcome`. `Outcome` stands for a Go `error`, with `Pass` for `nil`.

## Model

| member | source | states |
|---|---|---|
| UrlGate.ScanScheme | go_wiki_reader.go:23-26 | the scheme scan fails exactly on a leading `:`; a non-empty scheme is a prefix of the text, starts with a letter, consists of scheme characters and is followed by `:`; and any such prefix is the scheme found |
| UrlGate.IsValidURLIffHttpPrefix | go_wiki_reader.go:21-28 | a URL is valid exactly when no control character precedes its fragment and it starts with `http:` or `https:` in any letter case |
| UrlGate.FirstInvalid | go_wiki_reader.go:36-40 | the index of the first invalid URL: none exactly when all are valid; otherwise that URL is invalid and all earlier ones are valid |
| UrlGate.ValidateURLs | go_wiki_reader.go:30-42 | an empty list fails with `EmptyURLList`; the gate passes exactly when the list is non-empty and every URL is valid; otherwise the error names the first invalid URL in list order |
| UrlGate.TestHttpsAccepted | go_wiki_reader_test.go:19-23 | `https://example.com` is accepted |
| UrlGate.TestNoSchemeRefused | go_wiki_reader_test.go:29-33 | `invalid-url` (no scheme) is refused |
| UrlGate.TestFtpRefused | go_wiki_reader_test.go:34-38 | `ftp://example.com` is refused |
| TextUtil.TrimSpace | go_wiki_reader.go:126 | the trimmed text neither starts nor ends with white space and is no longer than the input |
| TextUtil.TrimSpaceSlice | go_wiki_reader.go:126 | the trimmed text is a slice of the input with only white space before and after it |
| TextUtil.TrimSpaceEmptyIff | go_wiki_reader.go:126-127 | the trimmed text is empty exactly when the fragment is all white space (the case the callback ignores) |
| TextUtil.TrimSpaceIdempotent | go_wiki_reader.go:126 | trimming an already trimmed text changes nothing |
| TextUtil.JoinSpaceSnoc | go_wiki_reader.go:134 | appending `" " + text` to a non-empty join is the join with `text` added last |
| TextUtil.JoinSpaceNonEmpty | go_wiki_reader.go:141-144 | a join that starts with a non-empty fragment is non-empty |
| Aggregation.FirstKept | go_wiki_reader.go:126-145 | the first call that adds text for a URL: none exactly when no call does; otherwise that call adds text for the URL and no earlier one does |
| Aggregation.TextsFor | go_wiki_reader.go:126-144 | a URL's collected fragments are all non-empty, at most one per call, and empty exactly when no call added text for it |
| Aggregation.UrlIndex | go_wiki_reader.go:132-133 | the lookup finds the first record with the URL, or none exactly when no record has it |
| Aggregation.FirstSeenMember | go_wiki_reader.go:140-145 | a URL has a record exactly when some call added text for it |
| Aggregation.FirstSeenDistinct | go_wiki_reader.go:130-145 | no URL is listed twice |
| Aggregation.FirstSeenOrder | go_wiki_reader.go:140-145 | records are in the order in which their URLs first received text |
| Aggregation.AggregatedUrlsUnique | go_wiki_reader.go:130-145 | no two records share a URL |
| Aggregation.AggregatedTextsNonEmpty | go_wiki_reader.go:126-144 | every record's text is non-empty |
| Aggregation.AggregatedRecordCount | go_wiki_reader.go:130-145 | the number of records equals the number of distinct URLs that received text (no lost or duplicated records) |
| Aggregation.AggregatedSkipsBlank | go_wiki_reader.go:126-127 | a fragment that is blank after trimming leaves the records unchanged |
| Aggregation.AggregatedAppendsToExisting | go_wiki_reader.go:132-137 | for a URL that has a record, that record's text becomes `old + " " + trimmed`; length, order and every other record are unchanged |
| Aggregation.AggregatedCreatesRecord | go_wiki_reader.go:140-145 | for a URL without a record, exactly one record `{url, trimmed}` is appended after the untouched existing ones |
| Aggregation.HelloWorldScenario | go_wiki_reader.go:124-147 | two paragraphs "Hello" and "world" on one page give the single record "Hello world" |
| Aggregation.Aggregator.constructor | go_wiki_reader.go:121 | the record list starts empty, with no fragments seen |
| Aggregation.Aggregator.Merge | go_wiki_reader.go:124-147 | keeps `records == Aggregated(calls)`: each record's text is its URL's non-blank trimmed fragments joined by single spaces in call order; states the blank, existing-record and new-record cases exactly, and that URLs stay unique and texts non-empty |
| Aggregation.FindOrAppend | go_wiki_reader.go:130-145 | the search loop appends `" " + text` to the first record with the URL and leaves the rest unchanged, or appends `{url, text}` when none has it |
| OutputCheck.ValidateOutputFile | go_wiki_reader.go:45-54 | the artifact passes exactly when it exists with a non-zero size; missing and empty are reported as such |
| OutputCheck.FirstMalformed | go_wiki_reader.go:67-76 | the first refused value: none exactly when every value decodes with both fields non-empty; otherwise that value is bad and all earlier ones are good |
| OutputCheck.ValidateJSONLStructure | go_wiki_reader.go:57-79 | passes exactly when every decoded value has a non-empty URL and text; otherwise reports the first bad value at its 1-based position, as invalid JSON or as missing fields |
| OutputCheck.MergedRecordsPassStructureCheck | go_wiki_reader.go:72-74 | when every request URL is non-empty, every record the merge produces passes the field check |
| OutputCheck.TestValidFileAccepted | go_wiki_reader_test.go:91-100 | the tests' two-record file passes |
| OutputCheck.TestInvalidFileRejected | go_wiki_reader_test.go:109-119 | the tests' malformed file is refused at its second value, whose URL is empty |

## Left out

- UrlGate.IsValidURL: the `url.Parse` rejections after the scheme are not modelled. These include a malformed host or port, an invalid userinfo (such as `http://a b@host`), bad percent-escapes in the path or in the fragment (such as `https://e/#%zz`), and a colon in the first path segment of a scheme-less URL. So the model accepts some `http(s)` texts that Go refuses. Every text Go accepts is accepted by the model.
- TextUtil.TrimSpace: Go trims UTF-8 bytes. Text that is not valid UTF-8 has no counterpart in Dafny strings, which are sequences of Unicode scalar values.
- The colly collector is not modelled: its setup, `Async`, the `Limit` rule (parallelism 2, random delay), `Visit` and `Wait`. This is fetching and politeness done by a foreign library. Fetch failures only mean that a URL contributes no fragments.
- Concurrency is not modelled. In the source the paragraph callback runs inside colly's asynchronous callbacks and updates `scrapedData` without a lock. The model treats merges as serialized, in one call order, and does not model interleaved updates.
- `OnError`, all `log.*` output, the timing with `time.Now`/`time.Since`, and the final summary `Printf` are left out. They are output only.
- File I/O is left out: `os.Remove`, `os.Create`, `os.Stat` (its result is the `size` parameter of `ValidateOutputFile`) and `os.Open`, including its error.
- JSON is not modelled at the byte level. `json.NewEncoder` and `json.NewDecoder` are assumed to round-trip a record (`ReadBack`). The decoder's tokenizing is abstracted to a stream of `Decoded` values. One consequence is left out: `decoder.More` ends the stream at a stray `]` or `}`.
- `main`'s fixed URL list and its `log.Fatalf` exits are not modelled; the model stops at the outcomes of the checks it calls.
- `run-articles-spider.py` is process and filesystem plumbing and is not part of this model.
