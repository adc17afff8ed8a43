# raindrop-images-dl, modelled in Dafny

raindrop-images-dl is a command-line tool. It downloads the image bookmarks of one
collection of the Raindrop.io bookmarking service into a local directory. Next to each
asset it writes a small JSON "info" file with the bookmark's metadata.

This project models the core of the tool:

- the API records and the bookmark accessors (`internal/sdk/raindrop/types.go`);
- the API client (`internal/sdk/raindrop/client.go`):
  - construction from functional options;
  - the two GET requests and their query;
  - the status and decode checks;
  - the page-continuation rule;
- the download primitive and the directory helpers (`internal/downloader/utils.go`);
- the metadata sidecar (`internal/downloader/infofile.go`);
- the downloader service (`internal/downloader/service.go`):
  - validation and construction;
  - the ordered argument checks of `DownloadCollection`;
  - its page loop and item loop;
  - the per-bookmark sequence in `downloadItem`.

Modules, one per Go file plus five supporting ones:

| module | file | models |
|---|---|---|
| `RaindropTypes` | types.dfy | `types.go`: Drop, ImageDrops, the response records, GetFileLink, GetName, GetDescription |
| `RaindropApi` | client.dfy | `client.go`: the `Client` class, `NewClient`, the requests, the response handling, `hasMore` |
| `DownloaderUtils` | utils.dfy | `utils.go`: the MIME table, `downloadFile`, `dirExists`, `fileExists`, `ensureDir` |
| `InfoFiles` | infofile.dfy | `infofile.go`: the `InfoFile` record, its JSON text and `createInfoFile` |
| `DownloaderService` | service.dfy | `service.go`: the `Downloader` class, `NewDownloader`, `DownloadCollection`, `downloadItem` |
| `FileSystem` | fs.dfy | the operating system's file tree: `os.Stat`, `os.Create`, writing, `os.MkdirAll` |
| `Http` | http.dfy | the answer to a plain `http.Get` of an asset |
| `JsonText` | json.dfy | how Go's `encoding/json` writes strings and string arrays, and a reader for that text |
| `Decimal` | decimal.dfy | the `%d` text of integers, and a reader for it |
| `Wrappers` | wrappers.dfy | `Option`, `Result` and `Outcome` (the Go `error` result) |

How the model is built:

- **State-changing code is imperative, and each method is proved against a pure
  specification function of the old state.** The state-changing code is `NewClient`,
  `NewDownloader`, `downloadFile`, `ensureDir`, `createInfoFile`, `downloadItem` and
  `DownloadCollection`.
  - The file tree is a class, `FileSystem.FileTree`, whose maps are updated in place.
  - A method's contract has the form
    `Effect(fs.State(), err) == XEffect(old(fs.State()), ...)`.
  - The properties are lemmas about the `...Effect` functions. Examples: what is
    skipped, what is written, what is left alone, idempotence, and that the tree
    stays consistent.
- **`DownloadCollection` is proved against `DownloaderService.DownloadCollectionRun`.**
  That function gives the final file tree, the result, the ordered calls made on the
  client, and the ordered bookmarks handed to `downloadItem`.
  - The calls and the bookmarks are ghost outputs that the method records itself at each
    call site; they are not observed from the client. They say what the loop asks of
    the client, and the file tree is the observable result they are tied to.
- **The HTTP round trips are parameters.**
  - The API client takes `send: Request -> Exchange<T>`.
  - The asset download takes `get: string -> GetResult`.
  - The service's client interface is a value: the collection answer plus the answers
    for pages 0, 1, 2, ... in order.
- **The page-continuation rule is the one of `client.go`.** Line 124 ends
  pagination when the count is zero or when `count <= page * 50`.
  - `RaindropApi.StopPageIsPastTheItems` and `DownloaderService.FixedCountStopsAtStopPage`
    prove the consequence: for a fixed count, the loop stops at page ⌈count / 50⌉. For a
    non-empty collection that is always one page past the last page that holds items.
- **The sidecar is always attempted.** The tests and callers of `DownloadCollection`
  pass a fourth "generate info file" flag. `service.go` as written has three parameters
  and always calls `createInfoFile` after a successful download, and the model follows
  `service.go`.
  - The sidecar path is the asset's stem plus `.info.json`, without the asset's
    extension, as `infofile.go` line 23 writes it.

## Model

| member | source | states |
|---|---|---|
| RaindropTypes.Drop.GetFileLink | internal/sdk/raindrop/types.go:35-37 | the asset URL of a bookmark is its cover field |
| RaindropTypes.Drop.GetName | internal/sdk/raindrop/types.go:39-41 | the file-name stem has the title's length and no space; each space becomes '_' and every other character stays in place |
| RaindropTypes.Drop.GetDescription | internal/sdk/raindrop/types.go:43-45 | the description of a bookmark is its note |
| RaindropTypes.ReplaceAll | internal/sdk/raindrop/types.go:40 | single-character `strings.ReplaceAll`: length kept, each occurrence of the target replaced, all else in place |
| RaindropTypes.GetNameIdempotent | internal/sdk/raindrop/types.go:39-41 | sanitising a stem a second time changes nothing |
| RaindropTypes.GetNameWithoutSpaces | internal/sdk/raindrop/types.go:39-41 | a title without spaces is its own stem |
| RaindropTypes.GetNameKeepsOtherWhitespace | internal/sdk/raindrop/types.go:40 | tabs, newlines and carriage returns are not replaced, only the space |
| RaindropTypes.GetNameExample | internal/sdk/raindrop/types_test.go:31-35 | a bookmark titled "Test Title" gets the stem "Test_Title" |
| Decimal.NatText | internal/sdk/raindrop/client.go:84 | the `%d` text of a natural number is a non-empty run of digits, with no leading zero unless the number is 0 |
| Decimal.IntText | internal/sdk/raindrop/client.go:98 | the `%d` text is non-empty and starts with '-' exactly for negative numbers |
| Decimal.NatTextRoundTrip | internal/sdk/raindrop/client.go:84 | the digits written for n read back as n |
| Decimal.IntTextRoundTrip | internal/sdk/raindrop/client.go:98 | the `%d` text of any integer reads back as that integer |
| Decimal.IntTextInjective | internal/sdk/raindrop/client.go:84 | distinct integers are written as distinct texts |
| RaindropApi.ApplyOption | internal/sdk/raindrop/client.go:56-74 | each option sets its own field of the client and leaves the other two as they were |
| RaindropApi.Configure | internal/sdk/raindrop/client.go:41-43 | the fields after the options, first option first: each field is its default or the value of an option of the matching kind that was passed |
| RaindropApi.Check | internal/sdk/raindrop/client.go:45-51 | the validation after the options: MissingAPIKey exactly when the key is empty; InvalidBaseURL exactly when the key is set and the base URL is empty; otherwise success |
| RaindropApi.Client.constructor | internal/sdk/raindrop/client.go:35-38 | a new client has the default base URL, no key and the default HTTP client |
| RaindropApi.Client.Apply | internal/sdk/raindrop/client.go:56-74 | each option sets exactly its own field of the client |
| RaindropApi.NewClient | internal/sdk/raindrop/client.go:33-54 | options are applied in order to the defaults; the error is Check of the result (both directions for each error kind); a client is returned exactly when there is no error, and it is fresh with the configured fields |
| RaindropApi.LastAPIKeyWins | internal/sdk/raindrop/client.go:41-61 | the last WithAPIKey option decides the key |
| RaindropApi.NoAPIKeyOption | internal/sdk/raindrop/client.go:45-47 | without a WithAPIKey option NewClient fails with MissingAPIKey |
| RaindropApi.LastBaseURLWins | internal/sdk/raindrop/client.go:70-74 | the last WithBaseURL option decides the base URL |
| RaindropApi.NoBaseURLOption | internal/sdk/raindrop/client.go:35-38 | without a WithBaseURL option the base URL is the default one |
| RaindropApi.AuthHeader | internal/sdk/raindrop/client.go:77-79 | every request carries exactly one header that the client sets, Authorization |
| RaindropApi.ItemsRequest | internal/sdk/raindrop/client.go:84-100 | the items request is a GET to a URL that starts with `<base>/raindrops/`, carries the bearer header and has exactly the perpage, page and search parameters, search being type:image |
| RaindropApi.ItemsRequestTarget | internal/sdk/raindrop/client.go:84-100 | the items request is a GET to `<base>/raindrops/<id>` whose id reads back exactly; its query is exactly perpage=50, the page (reads back exactly) and search=type:image; the bearer key is attached |
| RaindropApi.PageSizeText | internal/sdk/raindrop/client.go:97 | the page size is written as "50" |
| RaindropApi.ItemsRequestInjective | internal/sdk/raindrop/client.go:84-100 | different collections or pages never give the same items request |
| RaindropApi.CollectionRequest | internal/sdk/raindrop/client.go:135-142 | the collection request is a GET to a URL that starts with `<base>/collection/`, with no query and the bearer header |
| RaindropApi.CollectionRequestTarget | internal/sdk/raindrop/client.go:135-142 | the collection request is a GET to `<base>/collection/<id>` with no query; the id reads back exactly and the bearer key is attached |
| RaindropApi.HasMore | internal/sdk/raindrop/client.go:121-126 | for pages from 0, more pages are reported exactly when the count exceeds page * 50 |
| RaindropApi.Interpret | internal/sdk/raindrop/client.go:103-119 | a transport failure, a status other than 200 and an undecodable body are each their own error kind, in that order; success exactly for a decoded 200 response, with the decoded value |
| RaindropApi.GetImagesDropsFromCollection | internal/sdk/raindrop/client.go:82-132 | one page succeeds exactly for a decoded 200 answer to ItemsRequest; its errors are Interpret's; on success the items are the response's items and hasMore is count > page * 50 |
| RaindropApi.GetCollectionByID | internal/sdk/raindrop/client.go:134-161 | the collection record succeeds exactly for a decoded 200 answer to CollectionRequest and is the response's item; its errors are Interpret's |
| RaindropApi.EmptyCollectionHasNoMore | internal/sdk/raindrop/client.go:124 | a zero count never reports more pages, on any page |
| RaindropApi.FirstPageHasMore | internal/sdk/raindrop/client.go:124 | any non-empty collection reports more pages on page 0 |
| RaindropApi.StopPage | internal/sdk/raindrop/client.go:121-126 | for a fixed count there is a first page reporting no more pages, and every page before it reports more |
| RaindropApi.StopPageIsPastTheItems | internal/sdk/raindrop/client.go:124 | for a non-empty collection that stop page is at least 1, pages before it already cover all items, and (stop - 1) * 50 < count <= stop * 50 |
| FileSystem.Lineage | internal/downloader/utils.go:74 | the directories MkdirAll creates: they include the directory itself, never "", and none is longer than the directory |
| FileSystem.LineageIsAncestors | internal/downloader/utils.go:74 | a path is in the lineage exactly when it is non-empty and is either the directory itself or a prefix of it that ends just before one of its '/' |
| FileSystem.CreatePreservesConsistency | internal/downloader/utils.go:49-52 | os.Create succeeds exactly for a non-directory path whose parent exists, then holds an empty file; it changes nothing else, and nothing at all on failure |
| FileSystem.MkdirAllPreservesConsistency | internal/downloader/utils.go:74 | MkdirAll never changes a file, only adds directories, and adds none outside the directory's lineage; it leaves the target a directory on success and changes nothing on failure |
| FileSystem.ParentOfJoined | internal/downloader/service.go:129 | the directory of `dir/name` is `dir` when the name has no '/' |
| FileSystem.FileTree.Create | internal/downloader/utils.go:49-52 | the create step changes the tree as CreateEffect says |
| FileSystem.FileTree.Write | internal/downloader/utils.go:55 | writing through an open file replaces that file's contents and nothing else |
| FileSystem.FileTree.MkdirAll | internal/downloader/utils.go:74 | the MkdirAll step changes the tree as MkdirAllEffect says |
| JsonText.EscapeChar | internal/downloader/infofile.go:44 | the text written for a character never starts with a quote or a control character; it is one character long exactly when it does not start with a backslash, and then it is the character itself |
| JsonText.Quote | internal/downloader/infofile.go:44 | a string is written as a text that starts and ends with a double quote |
| JsonText.Hex4RoundTrip | internal/downloader/infofile.go:44 | the four hex digits of a \u escape read back as the code unit |
| JsonText.EscapeCharRoundTrip | internal/downloader/infofile.go:44 | every escaped character reads back as itself, whatever follows |
| JsonText.BodyRoundTrip | internal/downloader/infofile.go:44 | an escaped string body reads back to the string up to its closing quote |
| JsonText.QuoteRoundTrip | internal/downloader/infofile.go:44 | a quoted string reads back as the same string, whatever follows |
| JsonText.ElementsRoundTrip | internal/downloader/infofile.go:44 | the comma-separated elements of an array read back in order |
| JsonText.QuoteListRoundTrip | internal/downloader/infofile.go:44 | an array of strings, empty or not, reads back as the same strings in order |
| DownloaderUtils.MimeMapIsClosed | internal/downloader/utils.go:12-22 | the type table has exactly the nine listed types, matched as whole strings: parameterised or HTML types are not in it |
| DownloaderUtils.MimeMapExtensions | internal/downloader/utils.go:12-22 | each extension is '.' plus a name of at most four characters without '/' |
| DownloaderUtils.DirExists | internal/downloader/utils.go:59-63 | a directory is only reported where `os.Stat` finds something (ExistenceChecks states the converse) |
| DownloaderUtils.FileExists | internal/downloader/utils.go:65-69 | true exactly when `os.Stat` finds something at the path: a regular file or a directory |
| DownloaderUtils.ExistenceChecks | internal/downloader/utils.go:59-69 | `dirExists` holds exactly when something is at the path and it is a directory; every existing directory counts as an existing file; an existing non-directory is a regular file |
| DownloaderUtils.EnsureDirEffect | internal/downloader/utils.go:72-79 | success leaves the directory present; files are never changed and directories only added; an existing directory changes nothing; failure changes nothing |
| DownloaderUtils.EnsureDirAddsOnlyLineage | internal/downloader/utils.go:72-79 | the only directories `ensureDir` adds are the directory and its ancestors (its Lineage) |
| DownloaderUtils.EnsureDir | internal/downloader/utils.go:72-79 | the method changes the tree and returns the error as EnsureDirEffect says |
| DownloaderUtils.DownloadFile | internal/downloader/utils.go:25-57 | the method changes the tree and returns the error as DownloadFileEffect says of the GET response |
| DownloaderUtils.DownloadRejectsWithoutWriting | internal/downloader/utils.go:26-40 | a transport error, a status other than 200 or an unsupported type is reported as its own kind, in that order, and writes nothing |
| DownloaderUtils.DownloadSkipsExisting | internal/downloader/utils.go:42-47 | an existing target is left untouched and is not an error |
| DownloaderUtils.DownloadWritesBody | internal/downloader/utils.go:49-56 | otherwise the target `<dest><ext>` holds exactly the body, nothing else changes, and the result is an error only if reading the body failed |
| DownloaderUtils.DownloadFrame | internal/downloader/utils.go:42-56 | a download touches at most its target path and keeps the tree consistent |
| DownloaderUtils.DownloadKeepsLongerPaths | internal/downloader/utils.go:25-57 | a download writes only the stem plus its short extension, so any path more than five characters longer than the stem (the sidecar among them) keeps what it held |
| DownloaderUtils.DownloadIdempotent | internal/downloader/utils.go:44-47 | downloading the same answer twice leaves the state of downloading it once, and the second time succeeds if the first stored anything |
| InfoFiles.InfoFilePath | internal/downloader/infofile.go:23 | the sidecar path is the stem followed by the ten characters of ".info.json" |
| InfoFiles.FromDrop | internal/downloader/infofile.go:36-42 | the record takes the title, the note, the tags, the creation time and the link of the bookmark |
| InfoFiles.ExpectRoundTrip | internal/downloader/infofile.go:44 | a literal key is recognised and removed from the text that follows it |
| InfoFiles.StringFieldRoundTrip | internal/downloader/infofile.go:44 | a key followed by a quoted string reads back as that string |
| InfoFiles.ListFieldRoundTrip | internal/downloader/infofile.go:44 | a key followed by a string array reads back as that array |
| InfoFiles.EncodeIsOneObject | internal/downloader/infofile.go:44 | the text `json.Encoder` writes for the record is one JSON object, opened by the title key and followed by a newline |
| InfoFiles.DecodeEncode | internal/downloader/infofile.go:13-19 | the JSON text written for a record, under keys title, description, tags, created_at and original_url, reads back as every field of that record |
| InfoFiles.CreateInfoFile | internal/downloader/infofile.go:22-45 | the method changes the tree and returns the error as CreateInfoFileEffect says |
| InfoFiles.InfoFileSkipsExisting | internal/downloader/infofile.go:25-28 | an existing sidecar, or a directory in its place, is left as it is and is not an error |
| InfoFiles.InfoFileWritesRecord | internal/downloader/infofile.go:30-44 | when nothing is at the sidecar path and its directory exists, the sidecar is written with the text of the bookmark's record (which reads back by DecodeEncode) and nothing else changes |
| InfoFiles.InfoFileFrame | internal/downloader/infofile.go:22-45 | writing a sidecar touches only its path and keeps the tree consistent |
| InfoFiles.InfoFileIdempotent | internal/downloader/infofile.go:25-28 | writing a sidecar twice leaves the state of writing it once |
| DownloaderService.FirstStop | internal/downloader/service.go:86-109 | the page loop ends at the first page answer that is an error or reports no more pages |
| DownloaderService.PageCalls | internal/downloader/service.go:85-89 | the loop requests pages 0, 1, 2, ... one at a time |
| DownloaderService.Join | internal/downloader/service.go:117 | joining drops an empty component and otherwise puts one '/' between the two |
| DownloaderService.Downloader.constructor | internal/downloader/service.go:50 | a new downloader has no client |
| DownloaderService.Downloader.Validate | internal/downloader/service.go:31-36 | a downloader is valid exactly when it has a client, and the only error is RaindropClientNotSet |
| DownloaderService.Downloader.Apply | internal/downloader/service.go:42-46 | WithRaindropClient sets the client, a nil client included |
| DownloaderService.NewDownloader | internal/downloader/service.go:49-61 | RaindropClientNotSet exactly when there are no options or the last one gives no client; a fresh downloader holding the last option's client exactly when there is no error |
| DownloaderService.Downloader.DownloadItem | internal/downloader/service.go:115-140 | the method changes the tree and returns the error as DownloadItemEffect says: collection directory, empty-URL skip, asset, sidecar, each failure stopping the sequence |
| DownloaderService.Downloader.DownloadItems | internal/downloader/service.go:96-102 | every bookmark of a page is processed in order, whatever happened to the earlier ones |
| DownloaderService.Downloader.DownloadCollection | internal/downloader/service.go:64-112 | the final tree, the result, the ordered client calls and the ordered processed bookmarks are those of DownloadCollectionRun |
| DownloaderService.RunErrors | internal/downloader/service.go:64-81 | the checks run in the order collection id, output directory set, output directory present, each returning its own error; a failed collection fetch returns CollectionFetchFailed with the client's error after that one call |
| DownloaderService.RunOutcome | internal/downloader/service.go:64-111 | argument errors come before any client call and leave the tree unchanged; the run succeeds exactly when the arguments are valid and the collection record is fetched, whatever happens to pages and items; a failed run changes nothing |
| DownloaderService.PagesRequestedInOrder | internal/downloader/service.go:85-109 | after the collection, pages 0 .. n-1 are requested in order; all but the last were fetched and reported more pages; the last ended the loop |
| DownloaderService.PackageClientHasFixedCount | internal/sdk/raindrop/client.go:121-131 | when the server reports the same total for every page, the answers of this package's client are successful pages whose continuation flag is HasMore(count, page) |
| DownloaderService.FixedCountStopsAtStopPage | internal/downloader/service.go:104-108 | with such answers the loop ends exactly at StopPage(count) |
| DownloaderService.DownloadFileExtends | internal/downloader/utils.go:42-56 | a download never rewrites or removes an existing file |
| DownloaderService.InfoFileExtends | internal/downloader/infofile.go:25-44 | writing a sidecar never rewrites or removes an existing file |
| DownloaderService.DownloadItemExtends | internal/downloader/service.go:115-140 | storing a bookmark never rewrites or removes an existing file or directory and keeps the tree consistent |
| DownloaderService.ProcessItemsExtends | internal/downloader/service.go:96-102 | the same for all bookmarks of a page |
| DownloaderService.ProcessPagesExtends | internal/downloader/service.go:86-109 | the same for all fetched pages |
| DownloaderService.RunNeverOverwrites | internal/downloader/service.go:64-112 | a whole run only adds files and directories and keeps the tree consistent, so rerunning into the same directory only fills in what is missing |
| DownloaderService.EmptyCoverOnlyMakesDir | internal/downloader/service.go:122-126 | a bookmark without an asset URL only gets its collection directory, and succeeds exactly when that succeeds |
| DownloaderService.RefusedAssetWritesNothing | internal/downloader/service.go:129-132 | when the asset is refused no file is written for the bookmark, its sidecar included |
| DownloaderService.DownloadErrorNoSidecar | internal/downloader/service.go:129-137 | any download failure, a failed create or body read included, ends the bookmark with DownloadFailed of that error and the tree the download left; the sidecar path keeps what it held before |
| DownloaderService.ItemPaths | internal/downloader/service.go:117-129 | the asset and sidecar of a bookmark lie directly in `<outputDir>/<collection>` under the stem `<dir>/<name>` |
| DownloaderService.DownloadItemStoresAssetAndSidecar | internal/downloader/service.go:115-140 | with the directory creatable and nothing in the way, the bookmark succeeds and exactly two files are added: the asset holding the body and the sidecar holding the record's text |
| DownloaderService.SingleItemRun | internal/downloader/service.go:78-111 | a collection with one page of one bookmark that reports no more pages succeeds after the collection call and page 0, having stored that bookmark |
| DownloaderService.SingleImageCollection | internal/downloader/service_test.go:107-167 | a collection without title holding one image bookmark succeeds after the collection call and page 0, leaving exactly `<out>/<name><ext>` and `<out>/<name>.info.json` |

## Left out

- Context cancellation, logging (`slog`) and the wording of wrapped error messages are
  not modelled. Errors are kept as kinds with their causes.
- The HTTP transport is not modelled. A request that cannot be built and one that cannot
  be sent are both `RequestFailed`. The asset GET is a parameter `get`.
- JSON decoding of the API responses is a parameter too: `Payload` says whether the
  body decoded and what it decoded to.
- `url.Values.Encode` percent-encoding of the query is not modelled. The query is kept as
  a map from parameter to value.
- `filepath.Join` path cleaning is not modelled: no "." or ".." resolution, and no
  collapsing of repeated or trailing '/'. Only the empty-component rule is kept.
- `FileSystem` has three error kinds. Permission and I/O errors, and stat errors other
  than "does not exist", are not modelled.
- A failing `MkdirAll` leaves nothing behind in the model. The real call may have
  created some ancestors before it failed.
- The asset body read can fail after the file was created (`Body.readFails`). The model
  then keeps the full body rather than a partial one.
- Write errors of the sidecar encoder, and marshal errors of `time.Time`, are not
  modelled. The creation time is kept as its RFC 3339 text.
- A nil tag slice is written as `null` by the real encoder. The model writes every tag
  list as an array.
- The sidecar's text is kept as characters, not as UTF-8 bytes.
- The JSON reader rejects escaped surrogate pairs. It reads back exactly what the writer
  produces and no more.
- Integers are unbounded. The 64-bit overflow of `page * 50` is not modelled.
- DownloaderService.Downloader.DownloadCollection requires a client whose page answers
  eventually stop the loop, given as a finite list whose last answer stops it. A server
  that reports more pages forever makes the real loop run forever.
- DownloaderService.Downloader.DownloadCollection requires a validated downloader. On a
  downloader built without `NewDownloader` the real method dereferences a nil client
  once the arguments pass its checks.
- `RaindropApi.ClientOption` and `DownloaderService.DownloaderOption` cover the options
  the packages define. Arbitrary caller-written option closures are not modelled.
- `CollectionItem` keeps only the id and title. The service reads no other field.
- The "generate info file" flag that tests and callers pass to `DownloadCollection` is
  not part of `service.go`, so it is not modelled. The sidecar is always attempted.
- The command-line layer (`cmd/`, `internal/cmd`, `internal/app`) is not part of this
  model.
