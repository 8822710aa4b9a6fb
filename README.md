# uppy-upload-field: a Dafny model of the value reconciler

`FileUploadField` is a React form field. It wraps an Uppy upload engine and
exposes the uploaded files to the host form as an ordered list of URLs, the
committed value. The host owns that list. The field never changes it directly.
It proposes a complete replacement list through the `onChange` callback. The
engine's event handlers are registered once, when the Uppy instance is created.
They read the latest `value` and `onChange` through two ref cells. An effect
overwrites each cell after every render that changes the corresponding prop.

This project models the logic of `src/components/FileUploadField.tsx`:

- `wrappers.dfy` (`Wrappers`): the `Option` type.
- `js_values.dfy` (`JsValues`): the JavaScript semantics the handlers depend on.
  That is truthiness, `typeof`, `||`, and reading `url` with and without `?.`.
- `decimal.dfy` (`Decimal`): the decimal text that a template literal produces
  for an integer, and the inverse reading of it.
- `upload_responses.dfy` (`UploadResponses`): XHRUpload's `getResponseData` hook.
  It also covers the URL chosen by `upload-success` and the URL recorded on a
  removed file.
- `reconciler.dfy` (`Reconciler`): the three list transformations.
  - `upload-success` appends the URL if it is absent.
  - `file-removed` filters the URL out.
  - The remove button filters the URL out.

  Each is a function from the current list to `Option<seq<string>>`, where
  `None` means that `onChange` is not called. The module also has lemmas on
  uniqueness, order, "nothing else changes" and runs of events.
- `field_config.dfy` (`FieldConfig`): the restriction defaults and units, and
  the upload endpoint.
- `display_name.dfy` (`DisplayName`): the name shown for each committed URL.
- `field_session.dfy` (`FieldSession`): the `valueRef` and `onChangeRef` cells
  as a class, with a log of the `onChange` calls. The handlers propose from the
  cells and never write them. The remove button uses its render's props
  instead.

External behaviour is passed in as parameters:

- The outcome of `JSON.parse` is an `Option<JsVal>`, where `None` means it threw.
- `decodeURIComponent` is a function `string -> Option<string>`, where `None`
  means it threw.
- The host's callbacks are identified by a `CallbackId`.

Some behaviours of the code are worth calling out, because they differ from
what its own comments, or the purpose of the value list, suggest:

- Both limits fall back to their default when the configured value is 0, as
  well as when it is absent, because the code uses `||`.
- The default `maxSizeMB` is `1024 * 1024` (FileUploadField.tsx:56). The byte
  limit is therefore 2^40 bytes (1024 GiB), not the "1GB" that the comment on
  that line gives (`FieldConfig.DefaultRestrictions`).
- `file-removed` calls `onChange` even when the recorded URL is not in the list.
  The list passed is then unchanged.
- The two handlers read different fields. If the transport reports an
  `uploadURL` distinct from the body's url while the body's url is falsy, the
  URL appended from that fallback is never removed by `file-removed`
  (`Reconciler.RemovalMissesFallbackUrl`). Whether XHRUpload ever reports such
  a response is Uppy's behaviour and is not part of this model.
- The comment at FileUploadField.tsx:42 says the refs avoid stale closures.
  They do make handlers see the latest value that the host has supplied. They
  do not protect against two success events that fire before the host's
  re-render has committed. Both of those events propose from the same list, so the
  second proposal lacks the first URL
  (`FieldSession.SuccessesWithoutHostUpdate`). Nothing is lost only when the
  host adopts each proposal before the next event
  (`FieldSession.SuccessesWithHostUpdate`, `Reconciler.ReplayUnique`).
- If JSON parsing succeeds but yields `null`, then `data.url` throws inside the
  `try`. The body's url then becomes the raw response text.

## Model

| member | source | states |
|---|---|---|
| `JsValues.Or` | src/components/FileUploadField.tsx:126 | `a \|\| b` is the first operand when that is truthy and the second otherwise, and it is truthy iff either operand is |
| `JsValues.GetUrl` | src/components/FileUploadField.tsx:110 | reading `url` throws exactly on null and undefined; an object yields its own `url`, and a primitive yields undefined |
| `JsValues.OptionalUrl` | src/components/FileUploadField.tsx:126 | `v?.url` is undefined unless v is an object, in which case it is that object's `url` |
| `JsValues.TruthyStringIsNonEmpty` | src/components/FileUploadField.tsx:127 | `v && typeof v === 'string'` holds exactly of the non-empty strings |
| `Decimal.NatToString` | src/components/FileUploadField.tsx:100 | the text of a natural number is non-empty decimal digits with no leading zero |
| `Decimal.IntToString` | src/components/FileUploadField.tsx:100 | the text of an integer starts with `-` exactly when it is negative, and the digits after any sign are non-empty with no leading zero |
| `Decimal.DigitChar` | src/components/FileUploadField.tsx:100 | a digit value below ten becomes the decimal character of that value |
| `Decimal.ParseNatToString` | src/components/FileUploadField.tsx:100 | reading the decimal text of n back gives n |
| `Decimal.IntToStringRoundTrip` | src/components/FileUploadField.tsx:100 | the text of any integer is well formed and reads back to that integer |
| `UploadResponses.GetResponseData` | src/components/FileUploadField.tsx:106-115 | the body is an object whose url is the parsed `data.url`; it is the raw response text when parsing throws or `data` is null, and undefined for a parsed primitive |
| `UploadResponses.UploadedUrl` | src/components/FileUploadField.tsx:126-127 | a chosen URL is a non-empty string equal to the body's url or to the upload URL |
| `UploadResponses.RecordedUrl` | src/components/FileUploadField.tsx:139-140 | `file.response?.body?.url`: undefined when the file has no response or its body is not an object, and the body's url otherwise |
| `UploadResponses.UploadedUrlCases` | src/components/FileUploadField.tsx:126-127 | u is chosen iff u is non-empty and either the body's url is u, or the body's url is falsy and the upload URL is u |
| `UploadResponses.TruthyNonStringBodyUrlIgnored` | src/components/FileUploadField.tsx:126-127 | a truthy body url that is not a string hides the upload URL, and the event is ignored |
| `UploadResponses.NoUrlIgnored` | src/components/FileUploadField.tsx:126-127 | with neither a truthy body url nor a truthy upload URL, the event is ignored |
| `UploadResponses.UrlFromResponseText` | src/components/FileUploadField.tsx:106-127 | a JSON body `{"url": u}` yields u, and a non-empty body that is not JSON yields the raw text as the URL |
| `Reconciler.AppendIfAbsent` | src/components/FileUploadField.tsx:129-132 | no call iff the URL is already present; otherwise the proposal keeps the current list as its prefix and adds the URL at the end, growing by exactly one |
| `Reconciler.FilterOut` | src/components/FileUploadField.tsx:142 | the filtered list holds x iff the list holds x and x is not strictly equal to the removed value, and it is no longer than the list |
| `Reconciler.OnUploadSuccess` | src/components/FileUploadField.tsx:125-134 | `onChange` is called iff a URL is extracted and is not in the current list, and the proposal is that list with the URL appended |
| `Reconciler.OnFileRemoved` | src/components/FileUploadField.tsx:137-144 | `onChange` is called iff the recorded URL is truthy; the proposal keeps exactly the elements that are not that URL |
| `Reconciler.OnRemoveClick` | src/components/FileUploadField.tsx:210 | the proposal has no occurrence of the clicked URL, and every other URL occurs as often as in the rendered value |
| `Reconciler.FilterOutCounts` | src/components/FileUploadField.tsx:142 | the filter drops every occurrence of the value and keeps every other element with its multiplicity |
| `Reconciler.FilterOutIsSubsequence` | src/components/FileUploadField.tsx:142 | the filter's result is a subsequence of the list, so the kept URLs stay in their original order |
| `Reconciler.FilterOutKeepsNoDuplicates` | src/components/FileUploadField.tsx:142 | filtering a duplicate-free list gives a duplicate-free list |
| `Reconciler.FilterOutAbsent` | src/components/FileUploadField.tsx:142 | filtering out a value that no element equals returns the list unchanged |
| `Reconciler.FilterOutNonString` | src/components/FileUploadField.tsx:140-142 | a recorded url that is not a string removes nothing |
| `Reconciler.FilterOutIdempotent` | src/components/FileUploadField.tsx:142 | filtering twice by the same value is the same as filtering once |
| `Reconciler.FilterOutAppend` | src/components/FileUploadField.tsx:142 | the filter distributes over concatenation |
| `Reconciler.FilterOutSingle` | src/components/FileUploadField.tsx:142 | filtering out a URL that occurs once deletes just that occurrence |
| `Reconciler.RemoveUniqueAt` | src/components/FileUploadField.tsx:142 | on a duplicate-free list, removing the URL at index i gives the list without index i, other URLs in order |
| `Reconciler.UploadSuccessKeepsNoDuplicates` | src/components/FileUploadField.tsx:130-131 | after a success is adopted, a duplicate-free list stays duplicate-free |
| `Reconciler.UploadSuccessIdempotent` | src/components/FileUploadField.tsx:129-131 | once its proposal is adopted, repeating the same success event does not call `onChange` |
| `Reconciler.ReplayUnique` | src/components/FileUploadField.tsx:125-134 | over a run of adopted success events, the list stays duplicate-free, keeps the old list as a prefix, and holds exactly the old and the extracted URLs |
| `Reconciler.ReplayInCompletionOrder` | src/components/FileUploadField.tsx:125-134 | when the extracted URLs are new and distinct, the list ends as the old list followed by them in the order the events fired |
| `Reconciler.FileRemovedFilters` | src/components/FileUploadField.tsx:139-142 | the `file-removed` proposal is a subsequence without the recorded URL, and every other URL keeps its multiplicity |
| `Reconciler.FileRemovedAbsent` | src/components/FileUploadField.tsx:141-142 | removing a file whose URL is not in the list still calls `onChange`, with the list unchanged |
| `Reconciler.SuccessThenRemove` | src/components/FileUploadField.tsx:125-143 | removing a file after its adopted success gives the old list without its URL, which is exactly the old list when the URL was new |
| `Reconciler.RemovalMissesFallbackUrl` | src/components/FileUploadField.tsx:126-140 | a URL appended from the upload URL fallback stays in the list, and `file-removed` for that file does not call `onChange` |
| `Reconciler.RemoveClickIsSubsequence` | src/components/FileUploadField.tsx:210 | the remove button proposes a subsequence of the rendered value |
| `Reconciler.RemoveClickAt` | src/components/FileUploadField.tsx:210 | on a duplicate-free value, the button deletes exactly the clicked entry, and the value stays duplicate-free |
| `FieldConfig.NumberOr` | src/components/FileUploadField.tsx:55-56 | a number prop is used when it is present and non-zero; otherwise the fallback is used |
| `FieldConfig.MaxFiles` | src/components/FileUploadField.tsx:55 | the file-count limit is the configured value when it is present and non-zero, and 10 otherwise; it is never 0 |
| `FieldConfig.MaxSizeMB` | src/components/FileUploadField.tsx:56 | the size limit in megabytes is the configured value when it is present and non-zero, and 1048576 otherwise; it is never 0 |
| `FieldConfig.AcceptedTypes` | src/components/FileUploadField.tsx:57-60 | an absent `accept` gives the five default types; a present one, even `[]` (an array is truthy), is used as given; the list is empty iff `accept` is `[]` |
| `FieldConfig.UppyRestrictions` | src/components/FileUploadField.tsx:55-71 | each limit is its configured non-zero value, or its default (10 files, 2^20 MB) when absent or 0, independently of the other props; the byte limit is megabytes times 2^20; there is no type restriction iff `accept` is the empty list; otherwise the types are the given list or the five defaults |
| `FieldConfig.DefaultRestrictions` | src/components/FileUploadField.tsx:55-71 | absent or zero limits and no `accept` give 10 files, 2^40 bytes (1024 GiB) and the five default types |
| `FieldConfig.Endpoint` | src/components/FileUploadField.tsx:100 | the endpoint starts with `/api/upload`; it is exactly that iff the account is not truthy, and otherwise it is `/api/upload?account=` followed by the account's canonical decimal text |
| `FieldConfig.EndpointRoundTrip` | src/components/FileUploadField.tsx:100 | reading the account out of the endpoint gives the account when it is truthy, and none otherwise |
| `DisplayName.LastSegment` | src/components/FileUploadField.tsx:183 | the result is a slash-free suffix of the URL that is either the whole URL or preceded by a slash |
| `DisplayName.LastSegmentAt` | src/components/FileUploadField.tsx:183 | the last segment is the text after the last slash |
| `DisplayName.LastSegmentAfterSlash` | src/components/FileUploadField.tsx:183 | whatever precedes the last slash does not affect the last segment |
| `DisplayName.LastSegmentNoSlash` | src/components/FileUploadField.tsx:183 | a name without a slash is its own last segment |
| `DisplayName.FileName` | src/components/FileUploadField.tsx:183 | the file name is never empty; it is the last segment, or `File <index+1>` when that is empty |
| `DisplayName.StripUuidPrefix` | src/components/FileUploadField.tsx:185 | the result is a suffix of the name; it is 37 characters shorter when the name matches `^[a-f0-9-]{36}-` case-insensitively, and the name unchanged otherwise |
| `DisplayName.StripsOnePrefix` | src/components/FileUploadField.tsx:185 | exactly one prefix is stripped, even when another one follows |
| `DisplayName.Display` | src/components/FileUploadField.tsx:183-185 | the name of one entry exists iff decoding its file name does not throw, and it is the decoded file name without its prefix; a throw is not caught, so it aborts the render of the whole list |
| `DisplayName.UuidNamedUrl` | src/components/FileUploadField.tsx:183-185 | a UUID-prefixed `report.pdf` displays as `report.pdf`, and a URL ending in `/` at index 2 is named `File 3` |
| `FieldSession.ValueProp` | src/components/FileUploadField.tsx:29 | an absent `value` prop is the empty list |
| `FieldSession.FieldRefs.constructor` | src/components/FileUploadField.tsx:43-44 | the cells start with the first render's value and callback, and no call has been made |
| `FieldSession.FieldRefs.HostSetValue` | src/components/FileUploadField.tsx:46-48 | a new host value overwrites `valueRef` and changes nothing else |
| `FieldSession.FieldRefs.HostSetOnChange` | src/components/FileUploadField.tsx:50-52 | a new host callback overwrites `onChangeRef` and changes nothing else |
| `FieldSession.FieldRefs.UploadSuccess` | src/components/FileUploadField.tsx:125-134 | the handler proposes from the current `valueRef` to the current `onChangeRef`, logs at most that one call, and writes neither cell |
| `FieldSession.FieldRefs.FileRemoved` | src/components/FileUploadField.tsx:137-144 | the handler proposes from the current `valueRef` to the current `onChangeRef`, logs at most that one call, and writes neither cell |
| `FieldSession.FieldRefs.RemoveClicked` | src/components/FileUploadField.tsx:208-210 | the button proposes from its render's `value` to its render's `onChange`, always calls it, and writes neither cell |
| `FieldSession.SuccessesWithoutHostUpdate` | src/components/FileUploadField.tsx:43-48 | two success events with no host update in between both propose from the same list, so the second proposal lacks the first new URL |
| `FieldSession.SuccessesWithHostUpdate` | src/components/FileUploadField.tsx:43-52 | when the host adopts the first proposal and supplies a new callback, the second event keeps every adopted URL, and its call goes to the new callback |

## Left out

- Uppy construction and its plugins are foreign library calls with network I/O.
  This covers the Dashboard, the XHRUpload transport options (method,
  `formData`, `fieldName`, `timeout`, the parallel limit of 5), GoldenRetriever
  persistence and the instance id `uppy-${id}`.
- The React effect lifecycle comes from React's semantics, not from this code.
  This covers creating and destroying the instance on its dependency list, the
  `uppyRef` cell, `setMounted`, and the sync effect, which is empty.
  Idempotent teardown and "one live instance per field" are therefore not
  modelled.
- The `complete` handler only writes a log line.
- The JSX layout, the error alert (`error && touched`), the `disabled`
  attribute of the button and the "open" link are presentation only.
- A `decodeURIComponent` throw at FileUploadField.tsx:183 happens inside
  `value.map` during render and nothing catches it. One malformed URL
  therefore aborts the render of the whole completed-files list. The model
  gives `None` for that one entry (`DisplayName.Display`) and does not model
  the failed render.
- `JSON.parse` and `decodeURIComponent` are parameters. Their internals are not
  part of this model.
- Engine-side enforcement of the restrictions (rejecting a file over the limit)
  is not modelled, because it happens inside Uppy.
- `tsup.config.ts` (build tooling), `src/index.ts` (re-exports) and
  `src/types/index.ts` (declarations) contain no logic. The last gives the
  shape of `FieldConfig.FileUploadConfig`.
- `JsValues.Truthy`: numbers are integers, so NaN, infinities and fractions
  are not modelled. Objects are compared only through their `url` property,
  not by reference.
- `FieldConfig.UppyRestrictions`: `maxFiles` and `maxSizeMB` are integers. The
  floating-point product `maxSizeMB * 1024 * 1024` is modelled as exact
  integer arithmetic.
- `Decimal.IntToString`: it does not model JavaScript's exponent notation for
  integers of magnitude 10^21 or more.
