# exiftool2json: the `-listx` walk and the `/tags` writer

exiftool2json serves ExifTool's catalogue of tags as JSON. This project models
two parts of it:

- `WalkTags` (exif/listx.go) reads the XML that `exiftool -listx` prints.
  It descends through `<taginfo>`, `<table>`, `<tag>` and `<desc>` elements.
  It hands each finished tag to a handler, whose answer may be nil, `ErrStop`
  or another error.
- The `/tags` handler (internal/api/api.go) drains those tags into the HTTP
  response as one JSON document. `tagWriter` writes `{"tags": [` before the
  first record, a comma between records and `]}` at the end. Its error is
  sticky.

The model is split by concern:

- `XmlTokens` (xml_tokens.dfy) holds the XML tokens the decoder yields and
  the attribute-lookup rules.
- `ListX` (listx.dfy) holds two things:
  - the four nested loops as functions of the token stream (`DescLoop`,
    `TagLoop`, `TableLoop`, `InfoLoop`, `WalkLoop`);
  - the `Walker` class, whose methods are the Go functions, each proved equal
    to its loop function. `Walker.pos` is the decoder cursor. `delivered` is
    every tag handed to the handler, in order.
- `ListXMachine` (listx_machine.dfy) is an independent flat reading of the
  walk: one parsing context per nesting level and one step per token. It is
  proved to hand over exactly the same tags as the recursive descent.
- `ListXCatalog` (listx_catalog.dfy) covers well-formed catalogues: a
  `Catalog` value, the tokens it prints as, and the tags it describes. Each
  element may be preceded by filler that its loop reads past: the XML
  declaration, comments, whitespace, and elements that loop ignores, such as
  a `<desc>` directly inside a `<table>`. It proves that the walk hands over
  exactly the catalogue's tags, up to and including the first one the
  handler does not answer with nil.
- `ListXFindings` (listx_findings.dfy) compares the walk as written with the
  walk its doc comment describes (see Findings).
- `Api` (api.dfy) holds:
  - `descriptionsToMap` and the tag-to-record projection;
  - a bounded response `Sink`;
  - the `TagWriter` class, with one specification function per method;
  - the drain loop, as `Serve`.
- `ApiBody` (api_body.dfy) proves what the drain writes. The response holds
  the longest prefix of the document that fits. The writer fails exactly when
  the document does not fit.

Where the code and its description disagree, the model follows the code:

- A tag without a `writable` attribute is not writable. This is Go's zero
  value (exif/listx.go:161-172).
- When no tag arrives, `close` runs without `prime`. The body is then `]}`
  alone, not an empty `{"tags": []}` document (internal/api/api.go:80-83).
- internal/api/api.go:115 reads `t.Wriatable`, but the field is `Writable`
  (exif/listx.go:21). The model projects the field that exists.
- `WalkTags` returns nil for every stream once the process has started (see
  Findings). This loses handler errors and read errors alike: a list cut
  short by a read error still ends the walk with nil. The `errCh` branch of
  the drain (internal/api/api.go:75-79) therefore fires only when starting
  exiftool fails (the `StdoutPipe` and `Start` errors returned at
  exif/listx.go:64-71), and a truncated list is still closed with `]}`.

## Model

| member | source | states |
|---|---|---|
| XmlTokens.LastValue | exif/listx.go:163-171 | None exactly when no attribute has the key; otherwise the value of the last attribute with that key, which is what an overwrite-per-match loop leaves |
| XmlTokens.FirstValue | exif/listx.go:130-136 | None exactly when no attribute has the key; otherwise the value of the first attribute with that key, which is what a loop that breaks at the first match leaves |
| XmlTokens.LastValueIgnoresOthers | exif/listx.go:163-171 | an attribute with another name, inserted anywhere, does not change the last value of a key |
| ListX.TagFromStart | exif/listx.go:161-172 | a new tag carries the enclosing table by value and starts with no descriptions |
| ListX.TagStartFields | exif/listx.go:161-172 | `writable` holds iff the last `writable` attribute exists and is not the literal "false" (absent gives false); `name` and `type` are the last such attributes, or "" |
| ListX.TableFromStart | exif/listx.go:129-136 | a table is named by its first `name` attribute, or "" without one |
| ListX.DescFromStart | exif/listx.go:194-199 | a new description has no text yet |
| ListX.DescStartLang | exif/listx.go:194-199 | a description's language is its last `lang` attribute, or "" |
| ListX.NewDescription | exif/listx.go:194-199 | the attribute loop of processDescription builds exactly `DescFromStart` |
| ListX.NewTag | exif/listx.go:161-172 | the attribute loop of processTag builds exactly `TagFromStart` |
| ListX.NewTable | exif/listx.go:129-136 | the attribute loop of processTable, which stops at the first `name`, builds exactly `TableFromStart` |
| ListX.ReadAt | exif/listx.go:79-86 | a read before the end of the stream at an ordinary token yields that token and advances by one, and only such a read succeeds; the read fails with EOF exactly at the end of the stream, and with a read error carrying the fault's reason at a fault; a failed read does not advance, so errors are sticky |
| ListX.DescLoop | exif/listx.go:200-215 | the loop ends with nil only just after a `</desc>`, otherwise with the failed read at its final position; the language is untouched |
| ListX.TagLoop | exif/listx.go:173-189 | at most one tag is handed over; if none is, the loop ended on a failed read; if one is, the result is the handler's answer and the tag keeps its start-element fields and its earlier descriptions |
| ListX.TableLoop | exif/listx.go:138-157 | every tag handed over belongs to this table; every tag but the last was answered nil; a non-nil answer is returned as-is; any other result is nil or a failed read |
| ListX.InfoLoop | exif/listx.go:105-125 | the same propagation property for a whole `<taginfo>`: answers before the last were nil, and the first non-nil answer is passed up unchanged |
| ListX.WalkLoop | exif/listx.go:78-99 | the top-level loop's own error is nil or a read error that occurs in the stream; it is never ErrStop and never a handler error |
| ListX.StopIsLast | exif/listx.go:95-98 | on any stream and for any handler, no tag before the last one handed over was answered ErrStop: a stop ends the walk |
| ListX.Walker.RawToken | exif/listx.go:79 | the decoder read agrees with `ReadAt`: the token and the advanced cursor, or the error with the cursor unmoved |
| ListX.Walker.Handle | exif/listx.go:185 | the tag is appended to the record of handler calls, and the result is the handler's answer |
| ListX.Walker.ProcessDescription | exif/listx.go:193-216 | cursor and error agree with `DescLoop`; the description is appended to the tag only when `</desc>` was reached |
| ListX.Walker.ProcessTag | exif/listx.go:160-191 | cursor, error and handler calls agree with `TagLoop` from the tag the start element describes |
| ListX.Walker.ProcessTable | exif/listx.go:128-158 | cursor, error and handler calls agree with `TableLoop` for the table the start element names |
| ListX.Walker.ProcessTagInfo | exif/listx.go:104-126 | cursor, error and handler calls agree with `InfoLoop` |
| ListX.Walker.WalkTags | exif/listx.go:76-101 | the returned error is always nil; the round-local error and the handler calls agree with `WalkLoop` |
| ListXMachine.DescAgrees | exif/listx.go:193-216 | the description loop and the flat machine in a `<desc>` context hand over the same tags afterwards |
| ListXMachine.TagAgrees | exif/listx.go:160-191 | the tag loop hands over what the machine does in a tag context, up to where the loop returns |
| ListXMachine.DescThenTagAgrees | exif/listx.go:176-182 | a `<desc>` inside a tag, including one that never closes, continues the tag as the machine does |
| ListXMachine.TableAgrees | exif/listx.go:138-157 | the table loop hands over what the machine does in a table context |
| ListXMachine.TagThenTableAgrees | exif/listx.go:144-150 | a `<tag>` inside a table, followed by the rest of the table, agrees with the machine |
| ListXMachine.InfoAgrees | exif/listx.go:105-125 | the taginfo loop hands over what the machine does in a taginfo context |
| ListXMachine.TableThenInfoAgrees | exif/listx.go:115-121 | a `<table>` inside a taginfo, followed by the rest of the taginfo, agrees with the machine |
| ListXMachine.WalkAgrees | exif/listx.go:78-99 | from any cursor, the top-level loop hands over what the machine does from the document level |
| ListXMachine.WalkIsMachine | exif/listx.go:76-101 | the whole walk hands over exactly the tags the flat machine hands over |
| ListXMachine.NoTableNoTags | exif/listx.go:110-124 | from the document or taginfo level, tokens without a `<table>` start hand over nothing |
| ListXMachine.WalkWithoutTables | exif/listx.go:87-91 | a stream without a `<table>` start never calls the handler |
| ListXMachine.NoInfoNoTags | exif/listx.go:87-91 | from the document level, tokens without a `<taginfo>` start hand over nothing: a `<table>` or `<tag>` outside a taginfo is skipped |
| ListXMachine.WalkWithoutTagInfo | exif/listx.go:87-91 | a stream without a `<taginfo>` start never calls the handler, whatever tables and tags it holds |
| ListXCatalog.TakeThrough | exif/listx.go:117-120 | the tags a nil-propagating walk hands over: all of them if every answer is nil; otherwise they end at a non-nil answer and every earlier answer is nil |
| ListXCatalog.TakeThroughPrefix | exif/listx.go:117-120 | those tags are a prefix of the catalogue's tags: none is skipped or reordered |
| ListXCatalog.ExecFiller | exif/listx.go:87-156 | filler at the document, taginfo, table or tag level leaves the walk where it was and hands over nothing |
| ListXCatalog.ExecContent | exif/listx.go:205-208 | inside a `<desc>` the last character data becomes the text; other tokens in it are read past |
| ListXCatalog.ExecDesc | exif/listx.go:193-216 | a closed `<desc>` element appends exactly its description to the tag and hands over nothing |
| ListXCatalog.ExecDescs | exif/listx.go:176-182 | consecutive `<desc>` elements append their descriptions in document order |
| ListXCatalog.ExecTag | exif/listx.go:160-191 | a `<tag>` element hands over exactly its tag, and the walk goes where the answer sends it |
| ListXCatalog.ExecTags | exif/listx.go:138-157 | the tags of a table are handed over through the first non-nil answer, and the walk then settles |
| ListXCatalog.ExecTable | exif/listx.go:128-158 | the same for one `<table>` element, filler and table-level `<desc>` elements included |
| ListXCatalog.ExecTables | exif/listx.go:105-125 | the same for consecutive tables inside a `<taginfo>` |
| ListXCatalog.ExecCatalog | exif/listx.go:87-91 | the same for a whole `<taginfo>` catalogue from the document level |
| ListXCatalog.WalkDeliversCatalog | exif/listx.go:76-101 | on a well-formed catalogue, with any filler around its elements, the walk hands over the catalogue's tags in document order, through the first one not answered nil |
| ListXCatalog.NeverStoppingSeesAll | exif/listx_test.go:18-31 | a handler that always answers nil receives every tag of a well-formed catalogue, filler included |
| ListXCatalog.AlwaysStoppingCalledOnce | exif/listx_test.go:43-56 | a handler that always answers ErrStop is called exactly once when the catalogue has a tag, and never otherwise |
| ListXCatalog.CatalogStatusNil | exif/listx.go:80-86 | on a well-formed catalogue, with any filler, the walk ends with a nil status whatever the handler answers |
| ListXFindings.WalkIntended | exif/listx.go:49-51 | the documented walk: never ErrStop; every tag but the last was answered nil; a last answer that is an error is returned; a returned handler error is the last answer |
| ListXFindings.IntendedVsWritten | exif/listx.go:78-99 | the written walk hands over everything the documented walk does, and exactly the same tags unless the documented walk ended on a handler error |
| ListXFindings.HandlerFailureSwallowed | exif/listx.go:79-101 | as written: a handler error on a catalogue's first tag leaves the walk status nil, with that one tag handed over |
| ListXFindings.IntendedReportsFailure | exif/listx.go:49-51 | documented: the same walk returns the handler's error |
| ListXFindings.FailureDoesNotEndWalk | exif/listx.go:95-99 | as written: with two catalogues and a handler that always errs, the second catalogue's first tag is still handed over |
| ListXFindings.IntendedStopsAtFailure | exif/listx.go:49-51 | documented: the same walk stops at the first error and returns it |
| Api.DescMap | internal/api/api.go:131-137 | the last description's language is a key, mapped to that description's text: a later description overwrites an earlier one |
| Api.DescMapKeys | internal/api/api.go:131-137 | the map's keys are exactly the languages present |
| Api.DescMapValues | internal/api/api.go:131-137 | each language maps to the text of the last description in that language |
| Api.DescMapMeaning | internal/api/api.go:131-137 | both of the above together |
| Api.ToTagInfoMeaning | internal/api/api.go:114-120 | the record keeps the tag's writability and type, names the table as its group, has the path `<table>:<name>`, and describes the tag in exactly the languages of its descriptions, each by the last description in that language |
| Api.DescriptionsToMap | internal/api/api.go:131-137 | the loop builds exactly the map `DescMapMeaning` characterises |
| Api.SplitPath | internal/api/api.go:116 | a path splits at its last ':' into the part before it and a part without ':', and does not split when it holds no ':' |
| Api.PathRoundTrip | internal/api/api.go:116-117 | for a tag name without ':', the record's path splits back into its group and the tag name, even when the table name holds ':' (as `Exif::Main` does) |
| Api.Put | internal/api/api.go:114-149 | every write to the response (the encoder's record at :114, the comma at :128, `]}` at :143, `{"tags": [` at :149) stores a prefix of the text within the limit; it succeeds iff the whole text was stored, and on failure the response is full |
| Api.Sink.Write | internal/api/api.go:114-149 | for each of the writes at :114, :128, :143 and :149, the sink's new content and result are as `Put` describes |
| Api.WriteCommaSpec | internal/api/api.go:124-129 | after an error nothing changes; otherwise, when it succeeds, exactly one comma is added |
| Api.WriteSpec | internal/api/api.go:104-122 | after an error nothing changes; otherwise a comma becomes due, and on success exactly the record, preceded by a comma if one was due, is added |
| Api.CloseSpec | internal/api/api.go:139-145 | after an error nothing changes; otherwise, on success, exactly `]}` is added |
| Api.PrimeSpec | internal/api/api.go:147-151 | the writer is primed; on success exactly `{"tags": [` is added, whatever the earlier error |
| Api.TagWriter.constructor | internal/api/api.go:69-72 | a new writer is not primed, owes no comma and has no error |
| Api.TagWriter.WriteComma | internal/api/api.go:124-129 | the writer and response change as `WriteCommaSpec` says |
| Api.TagWriter.Write | internal/api/api.go:104-122 | the writer and response change as `WriteSpec` says |
| Api.TagWriter.CloseWriter | internal/api/api.go:139-145 | the writer and response change as `CloseSpec` says |
| Api.TagWriter.Prime | internal/api/api.go:147-151 | the writer and response change as `PrimeSpec` says |
| Api.ServeSpec | internal/api/api.go:73-94 | the drain never takes more tags than exist, takes at least one when there is one, stops early only after a failure, and only appends to the response |
| Api.Serve | internal/api/api.go:73-94 | the drain loop leaves the writer and the count of consumed tags as `ServeSpec` says |
| ApiBody.SentStep | internal/api/api.go:108-121 | each record follows the earlier ones, after a comma unless it is the first |
| ApiBody.FirstWrite | internal/api/api.go:85-88 | priming a fresh writer and writing the first record fails exactly when the opening text and the record do not fit, leaving the part that fits; otherwise the response holds exactly them |
| ApiBody.NextWrite | internal/api/api.go:104-121 | writing a later record fails exactly when the comma and the record do not fit, leaving the part that fits; otherwise the response holds the text through that record |
| ApiBody.ServeFrom | internal/api/api.go:85-92 | once some records went out in full, the rest of the drain ends with the fitting prefix of the document, failing iff the document does not fit |
| ApiBody.ServeBody | internal/api/api.go:73-151 | from a fresh writer, the response is the longest prefix of the document that fits; the writer fails iff the document does not fit; it is primed iff a tag arrived; it consumes tags up to the first one whose text overflows |
| ApiBody.ServeComplete | internal/api/api_test.go:18-34 | when the whole document fits, the response is exactly the document, there is no error, and every tag is consumed |

## Left out

- Starting `exiftool -listx`, its stdout pipe and `cmd.Wait` (exif/listx.go:59-74) are process I/O. The model starts at the decoder over a token stream.
- The XML tokenizer is not modelled. Its output is a `Token` sequence in which a `Fault` stands for a read error. Byte offsets are left out, and so is the unreachable return at exif/listx.go:190.
- exif/exif.go (`Open`, binary lookup) and main.go are not part of this model.
- The `context` cancellation inside `WalkTags` is not modelled; the walk runs until the stream ends.
- `ServeHTTP`'s goroutine, the buffered channel, `select`, request contexts and the `errCh` branch (internal/api/api.go:39-68, 74-79) are concurrency. That branch answers with status 503 and the plain-text body `Unable to process your request.... try again later` plus a newline (`http.Error` at internal/api/api.go:78); this response is left out along with the branch. `Serve` takes the tags in the order the walk produced them, as a closed queue.
- `json.Encoder` is the parameter `enc`. Its trailing newline and its own failure modes are part of `enc` and the `Sink` limit.
- `WriteHeader`, `logErr` and `log.Printf` have no effect on the body and are not modelled.
- The response is a `Sink` that accepts a fixed number of characters. Other write failures, such as a closed connection mid-record, are not modelled.
- The writer's `error` field is a boolean `failed`. The error value itself is not kept.
- `processDescription`'s pointer argument is modelled as an in/out value: `tag` in, `result` out.
- The test files' use of a real ExifTool installation is not modelled. `NeverStoppingSeesAll` and `AlwaysStoppingCalledOnce` state their properties for any well-formed catalogue: filler is allowed around every element, but the catalogue holds no second `<taginfo>` and no read error. `ServeComplete` states its property for any sequence of tags.

## Findings

| source | as written | input that shows it | evidently intended | confidence | as-written member | corrected member |
|---|---|---|---|---|---|---|
| exif/listx.go:79-101 | `tk, err :=` declares a new `err` in each round, so `return err` returns the outer `err`, which is nil once the process started; a handler error is lost | one `<taginfo>` with one `<table>` holding one `<tag>`, and a handler that returns an error other than ErrStop | the doc comment at exif/listx.go:49-51: errors other than ErrStop are passed to the caller as-is | high (not executed) | ListXFindings.HandlerFailureSwallowed | ListXFindings.IntendedReportsFailure |
| exif/listx.go:95-99 | only ErrStop or a failed read ends the loop, so after a handler error the walk reads on and hands later `<taginfo>` tags to the handler | two `<taginfo>` catalogues, each with a tag, and a handler that always returns an error | the walk aborts at the first error (exif/listx.go:49) | high (not executed) | ListXFindings.FailureDoesNotEndWalk | ListXFindings.IntendedStopsAtFailure |
