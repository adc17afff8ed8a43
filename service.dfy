/** The downloader service: construction from options, the walk over a collection's
    pages and the per-bookmark sequence of directory, asset and sidecar. */
module DownloaderService {
  import opened Wrappers
  import opened RaindropTypes
  import opened RaindropApi
  import opened FileSystem
  import Http
  import opened DownloaderUtils
  import opened InfoFiles

  datatype ServiceError =
    | RaindropClientNotSet
    | CollectionIDNotSet
    | OutputDirNotSet
    | OutputDirNotExists
    | CollectionFetchFailed(cause: FetchError)

  /** Why one bookmark was not stored; the collection run logs it and carries on. */
  datatype ItemError =
    | CollectionDirFailed(cause: OsError)
    | DownloadFailed(download: DownloadError)
    | InfoFileFailed(cause: OsError)

  /** The client the service talks to, given by its answers for one collection: the
      collection record, and the answer for page 0, 1, 2, ... in order. */
  datatype RaindropClient = RaindropClient(
    collection: Result<CollectionItem, FetchError>,
    pages: seq<Result<ImageDrops, FetchError>>)

  /** A page answer that ends the page loop: an error, or no more pages. */
  predicate Stops(r: Result<ImageDrops, FetchError>) {
    r.Failure? || !r.value.hasMore
  }

  /** The client's last listed answer ends the page loop, so the loop ends. */
  predicate Finite(client: RaindropClient) {
    |client.pages| > 0 && Stops(client.pages[|client.pages| - 1])
  }

  /** The page at which the loop ends: the first answer that stops it. */
  function FirstStop(pages: seq<Result<ImageDrops, FetchError>>): (k: nat)
    requires |pages| > 0 && Stops(pages[|pages| - 1])
    ensures k < |pages| && Stops(pages[k])
    ensures forall j :: 0 <= j < k ==> !Stops(pages[j])
  {
    if Stops(pages[0]) then 0 else 1 + FirstStop(pages[1..])
  }

  /** A call the service makes on its client. */
  datatype ClientCall = CollectionCall(collectionID: int) | PageCall(collectionID: int, page: int)

  /** The page requests for pages 0 .. n - 1, in that order. */
  function PageCalls(collectionID: int, n: nat): (calls: seq<ClientCall>)
    ensures |calls| == n
    ensures forall p :: 0 <= p < n ==> calls[p] == PageCall(collectionID, p)
  {
    if n == 0 then [] else PageCalls(collectionID, n - 1) + [PageCall(collectionID, n - 1)]
  }

  /** `filepath.Join` of two components: an empty component is dropped, otherwise
      the two are separated by a single '/'. */
  function Join(dir: Path, name: string): (p: Path)
    ensures dir != "" && name != "" ==> p == dir + "/" + name
    ensures dir == "" ==> p == name
    ensures name == "" ==> p == dir
  {
    if dir == "" then name else if name == "" then dir else dir + "/" + name
  }

  /** Where the bookmarks of a collection go. */
  function ItemDir(outputDir: Path, collectionName: string): Path {
    Join(outputDir, collectionName)
  }

  /** The stem of a bookmark's asset and sidecar paths. */
  function ItemBase(outputDir: Path, collectionName: string, item: Drop): Path {
    Join(ItemDir(outputDir, collectionName), item.GetName())
  }

  /** `downloadItem`: make sure the collection's directory exists; skip a bookmark
      without an asset URL; store the asset; write its sidecar. */
  function DownloadItemEffect(
    st: FsState, get: string -> Http.GetResult, item: Drop, collectionName: string, outputDir: Path
  ): Effect<ItemError> {
    var dir := ItemDir(outputDir, collectionName);
    var ensured := EnsureDirEffect(st, dir);
    if ensured.outcome.Fail? then Effect(ensured.after, Fail(CollectionDirFailed(ensured.outcome.error)))
    else if item.GetFileLink() == "" then Effect(ensured.after, Pass)
    else
      var base := Join(dir, item.GetName());
      var downloaded := DownloadFileEffect(ensured.after, get(item.GetFileLink()), base);
      if downloaded.outcome.Fail? then Effect(downloaded.after, Fail(DownloadFailed(downloaded.outcome.error)))
      else
        var info := CreateInfoFileEffect(downloaded.after, base, item);
        if info.outcome.Fail? then Effect(info.after, Fail(InfoFileFailed(info.outcome.error)))
        else Effect(info.after, Pass)
  }

  /** The bookmarks of one page, in order; a failing bookmark does not stop the rest. */
  function ProcessItems(
    st: FsState, get: string -> Http.GetResult, items: seq<Drop>, collectionName: string, outputDir: Path
  ): FsState
    decreases |items|
  {
    if items == [] then st
    else
      var before := ProcessItems(st, get, items[..|items| - 1], collectionName, outputDir);
      DownloadItemEffect(before, get, items[|items| - 1], collectionName, outputDir).after
  }

  /** One page answer: its bookmarks, or nothing when the page could not be fetched. */
  function ProcessPage(
    st: FsState, get: string -> Http.GetResult, page: Result<ImageDrops, FetchError>,
    collectionName: string, outputDir: Path
  ): FsState {
    if page.Failure? then st else ProcessItems(st, get, page.value.items, collectionName, outputDir)
  }

  /** The page answers, in order. */
  function ProcessPages(
    st: FsState, get: string -> Http.GetResult, pages: seq<Result<ImageDrops, FetchError>>,
    collectionName: string, outputDir: Path
  ): FsState
    decreases |pages|
  {
    if pages == [] then st
    else
      var before := ProcessPages(st, get, pages[..|pages| - 1], collectionName, outputDir);
      ProcessPage(before, get, pages[|pages| - 1], collectionName, outputDir)
  }

  /** The bookmarks of the page answers, in order. */
  function ItemsOf(pages: seq<Result<ImageDrops, FetchError>>): seq<Drop>
    decreases |pages|
  {
    if pages == [] then []
    else
      var last := pages[|pages| - 1];
      ItemsOf(pages[..|pages| - 1]) + (if last.Success? then last.value.items else [])
  }

  /** Processing one more page answer. */
  lemma NextPage(
    st: FsState, get: string -> Http.GetResult, pages: seq<Result<ImageDrops, FetchError>>, n: nat,
    collectionName: string, outputDir: Path)
    requires n < |pages|
    ensures ProcessPages(st, get, pages[..n + 1], collectionName, outputDir)
         == ProcessPage(ProcessPages(st, get, pages[..n], collectionName, outputDir), get, pages[n], collectionName, outputDir)
    ensures ItemsOf(pages[..n + 1]) == ItemsOf(pages[..n]) + (if pages[n].Success? then pages[n].value.items else [])
  {
    assert pages[..n + 1][..n] == pages[..n];
  }

  /** Processing one more bookmark of a page. */
  lemma NextItem(
    st: FsState, get: string -> Http.GetResult, items: seq<Drop>, n: nat, collectionName: string, outputDir: Path)
    requires n < |items|
    ensures ProcessItems(st, get, items[..n + 1], collectionName, outputDir)
         == DownloadItemEffect(ProcessItems(st, get, items[..n], collectionName, outputDir), get, items[n],
                               collectionName, outputDir).after
  {
    assert items[..n + 1][..n] == items[..n];
  }

  /** What a collection run leaves behind: the file tree, the result, the calls made on
      the client in order, and the bookmarks handed to downloadItem in order. */
  datatype Run = Run(after: FsState, outcome: Outcome<ServiceError>, calls: seq<ClientCall>, processed: seq<Drop>)

  /** `DownloadCollection`: the argument checks in order, the collection record, then
      the pages from 0 up to and including the first one that stops the loop. */
  function DownloadCollectionRun(
    st: FsState, get: string -> Http.GetResult, client: RaindropClient, collectionID: int, outputDir: Path
  ): Run
    requires Finite(client)
  {
    if collectionID == 0 then Run(st, Fail(CollectionIDNotSet), [], [])
    else if outputDir == "" then Run(st, Fail(OutputDirNotSet), [], [])
    else if !DirExists(st, outputDir) then Run(st, Fail(OutputDirNotExists), [], [])
    else match client.collection
      case Failure(e) => Run(st, Fail(CollectionFetchFailed(e)), [CollectionCall(collectionID)], [])
      case Success(collection) =>
        var fetched := client.pages[..FirstStop(client.pages) + 1];
        Run(ProcessPages(st, get, fetched, collection.title, outputDir), Pass,
            [CollectionCall(collectionID)] + PageCalls(collectionID, |fetched|), ItemsOf(fetched))
  }

  /** The functional option of the package. */
  datatype DownloaderOption = WithRaindropClient(client: Option<RaindropClient>)

  class Downloader {
    var rdClient: Option<RaindropClient>

    constructor ()
      ensures rdClient == None
    {
      rdClient := None;
    }

    /** A downloader is usable exactly when it has a client. */
    function Validate(): (r: Outcome<ServiceError>)
      reads this
      ensures r.Pass? <==> rdClient.Some?
      ensures r.Fail? ==> r.error == RaindropClientNotSet
    {
      if rdClient.None? then Fail(RaindropClientNotSet) else Pass
    }

    method Apply(opt: DownloaderOption)
      modifies this
      ensures rdClient == opt.client
    {
      rdClient := opt.client;
    }

    /** Stores one bookmark's asset and sidecar. */
    method DownloadItem(
      fs: FileTree, get: string -> Http.GetResult, item: Drop, collectionName: string, outputDir: Path
    ) returns (err: Outcome<ItemError>)
      modifies fs
      ensures Effect(fs.State(), err) == DownloadItemEffect(old(fs.State()), get, item, collectionName, outputDir)
    {
      var itemOutputDir := ItemDir(outputDir, collectionName);
      var ensured := EnsureDir(fs, itemOutputDir);
      if ensured.Fail? {
        return Fail(CollectionDirFailed(ensured.error));
      }
      var imageURL := item.GetFileLink();
      if imageURL == "" {
        return Pass;
      }
      var baseFilePath := ItemBase(outputDir, collectionName, item);
      var downloaded := DownloadFile(fs, get, imageURL, baseFilePath);
      if downloaded.Fail? {
        return Fail(DownloadFailed(downloaded.error));
      }
      var info := CreateInfoFile(fs, baseFilePath, item);
      if info.Fail? {
        return Fail(InfoFileFailed(info.error));
      }
      return Pass;
    }

    /** The item loop of one page: every bookmark in order, whatever the outcome of
        the ones before it. */
    method DownloadItems(fs: FileTree, get: string -> Http.GetResult, items: seq<Drop>, collectionName: string, outputDir: Path)
      modifies fs
      ensures fs.State() == ProcessItems(old(fs.State()), get, items, collectionName, outputDir)
    {
      ghost var st0 := fs.State();
      for i := 0 to |items|
        invariant fs.State() == ProcessItems(st0, get, items[..i], collectionName, outputDir)
      {
        NextItem(st0, get, items, i, collectionName, outputDir);
        var _ := DownloadItem(fs, get, items[i], collectionName, outputDir);
      }
      assert items[..|items|] == items;
    }

    /** Downloads every image bookmark of a collection into `outputDir`. */
    method DownloadCollection(fs: FileTree, get: string -> Http.GetResult, collectionID: int, outputDir: Path)
      returns (err: Outcome<ServiceError>, ghost calls: seq<ClientCall>, ghost processed: seq<Drop>)
      requires Validate() == Pass && Finite(rdClient.value)
      modifies fs
      ensures Run(fs.State(), err, calls, processed)
           == DownloadCollectionRun(old(fs.State()), get, rdClient.value, collectionID, outputDir)
    {
      calls, processed := [], [];
      if collectionID == 0 {
        return Fail(CollectionIDNotSet), calls, processed;
      }
      if outputDir == "" {
        return Fail(OutputDirNotSet), calls, processed;
      }
      if !DirExists(fs.State(), outputDir) {
        return Fail(OutputDirNotExists), calls, processed;
      }
      var client := rdClient.value;
      calls := [CollectionCall(collectionID)];
      var collection := client.collection;
      if collection.Failure? {
        return Fail(CollectionFetchFailed(collection.error)), calls, processed;
      }
      var title := collection.value.title;
      ghost var st0 := fs.State();
      ghost var stop := FirstStop(client.pages);
      var page := 0;
      while true
        invariant 0 <= page <= stop
        invariant calls == [CollectionCall(collectionID)] + PageCalls(collectionID, page)
        invariant processed == ItemsOf(client.pages[..page])
        invariant fs.State() == ProcessPages(st0, get, client.pages[..page], title, outputDir)
        decreases stop - page
      {
        calls := calls + [PageCall(collectionID, page)];
        assert calls == [CollectionCall(collectionID)] + PageCalls(collectionID, page + 1);
        var items := client.pages[page];
        NextPage(st0, get, client.pages, page, title, outputDir);
        if items.Failure? {
          assert page == stop;
          break;
        }
        DownloadItems(fs, get, items.value.items, title, outputDir);
        processed := processed + items.value.items;
        if !items.value.hasMore {
          assert page == stop;
          break;
        }
        assert page < stop;
        page := page + 1;
      }
      assert page == stop;
      assert calls == [CollectionCall(collectionID)] + PageCalls(collectionID, stop + 1);
      assert processed == ItemsOf(client.pages[..stop + 1]);
      assert fs.State() == ProcessPages(st0, get, client.pages[..stop + 1], title, outputDir);
      return Pass, calls, processed;
    }
  }

  /** `NewDownloader`: applies the options in order; no downloader without a client. */
  method NewDownloader(opts: seq<DownloaderOption>) returns (dl: Downloader?, err: Outcome<ServiceError>)
    ensures err == Fail(RaindropClientNotSet) <==> opts == [] || opts[|opts| - 1].client.None?
    ensures err.Fail? ==> err == Fail(RaindropClientNotSet)
    ensures dl != null <==> err == Pass
    ensures dl != null ==> fresh(dl) && dl.rdClient == opts[|opts| - 1].client
  {
    dl := new Downloader();
    for i := 0 to |opts|
      invariant dl.rdClient == if i == 0 then None else opts[i - 1].client
    {
      dl.Apply(opts[i]);
    }
    err := dl.Validate();
    if err.Fail? {
      dl := null;
    }
  }

  /** Argument and collection errors come before any page is requested and leave the
      file tree alone; once the collection record is fetched the run succeeds, whatever
      happens to the pages and bookmarks after it. */
  lemma RunOutcome(st: FsState, get: string -> Http.GetResult, client: RaindropClient, collectionID: int, outputDir: Path)
    requires Finite(client)
    ensures var r := DownloadCollectionRun(st, get, client, collectionID, outputDir);
      && (r.calls == [] <==> collectionID == 0 || outputDir == "" || !DirExists(st, outputDir))
      && (r.outcome.Pass? <==> collectionID != 0 && outputDir != "" && DirExists(st, outputDir) && client.collection.Success?)
      && (r.outcome.Fail? ==> r.after == st && r.processed == [] && |r.calls| <= 1)
      && (r.calls != [] ==> r.calls[0] == CollectionCall(collectionID))
  {
  }

  /** The argument checks come in the order collection id, output directory set, output
      directory present, and each returns its own error; a failed collection fetch is
      returned after that one call. */
  lemma RunErrors(st: FsState, get: string -> Http.GetResult, client: RaindropClient, collectionID: int, outputDir: Path)
    requires Finite(client)
    ensures var r := DownloadCollectionRun(st, get, client, collectionID, outputDir);
      && (collectionID == 0 ==> r.outcome == Fail(CollectionIDNotSet))
      && (collectionID != 0 && outputDir == "" ==> r.outcome == Fail(OutputDirNotSet))
      && (collectionID != 0 && outputDir != "" && !DirExists(st, outputDir) ==> r.outcome == Fail(OutputDirNotExists))
      && (collectionID != 0 && outputDir != "" && DirExists(st, outputDir) && client.collection.Failure? ==>
            r.outcome == Fail(CollectionFetchFailed(client.collection.error)) && r.calls == [CollectionCall(collectionID)])
  {
  }

  /** On success the pages are requested from 0 upwards, one at a time; every page but
      the last one requested was fetched and reported more pages, and the last one
      requested ended the loop. */
  lemma PagesRequestedInOrder(st: FsState, get: string -> Http.GetResult, client: RaindropClient, collectionID: int, outputDir: Path)
    requires Finite(client)
    requires DownloadCollectionRun(st, get, client, collectionID, outputDir).outcome.Pass?
    ensures var r := DownloadCollectionRun(st, get, client, collectionID, outputDir);
      var n := |r.calls| - 1;
      && 1 <= n <= |client.pages|
      && (forall p :: 0 <= p < n ==> r.calls[p + 1] == PageCall(collectionID, p))
      && (forall p :: 0 <= p < n - 1 ==> client.pages[p].Success? && client.pages[p].value.hasMore)
      && Stops(client.pages[n - 1])
  {
    var r := DownloadCollectionRun(st, get, client, collectionID, outputDir);
    var k := FirstStop(client.pages);
    assert r.calls == [CollectionCall(collectionID)] + PageCalls(collectionID, k + 1);
  }

  /** The answers the client of this package gives when the service reports the same
      total `count` for every page of the collection. */
  predicate AnswersWithCount(
    cfg: ClientConfig, send: Request -> Exchange<GetRaindropsResponse>, collectionID: int, count: int, page: int)
  {
    var ex := send(ItemsRequest(cfg, collectionID, page));
    ex.Response? && ex.status == Http.StatusOK && ex.payload.Decoded? && ex.payload.value.count == count
  }

  /** Every listed page answer is a page whose continuation flag follows the rule of
      the client for a fixed total `count`. */
  predicate FixedCount(client: RaindropClient, count: int) {
    forall p :: 0 <= p < |client.pages| ==>
      client.pages[p].Success? && client.pages[p].value.hasMore == HasMore(count, p)
  }

  /** The client of this package, asked by the service for pages 0, 1, 2, ... while the
      server reports the same total `count`, gives such answers. */
  lemma PackageClientHasFixedCount(
    cfg: ClientConfig, send: Request -> Exchange<GetRaindropsResponse>, collectionID: int, count: int,
    client: RaindropClient)
    requires forall p :: 0 <= p < |client.pages| ==> client.pages[p] == GetImagesDropsFromCollection(cfg, send, collectionID, p)
    requires forall p :: 0 <= p < |client.pages| ==> AnswersWithCount(cfg, send, collectionID, count, p)
    ensures FixedCount(client, count)
  {
    forall p | 0 <= p < |client.pages|
      ensures client.pages[p].Success? && client.pages[p].value.hasMore == HasMore(count, p)
    {
      assert AnswersWithCount(cfg, send, collectionID, count, p);
      assert client.pages[p] == GetImagesDropsFromCollection(cfg, send, collectionID, p);
    }
  }

  /** With a fixed item count the page loop ends exactly at StopPage(count): the page
      after the last one that holds items. */
  lemma {:induction false} FixedCountStopsAtStopPage(client: RaindropClient, count: int)
    requires |client.pages| > StopPage(count) && FixedCount(client, count)
    ensures Finite(client)
    ensures FirstStop(client.pages) == StopPage(count)
  {
    var stop := StopPage(count);
    var last := |client.pages| - 1;
    assert !HasMore(count, last) by {
      assert !HasMore(count, stop);
      assert stop * ItemsPerPage <= last * ItemsPerPage;
    }
    var k := FirstStop(client.pages);
    assert !HasMore(count, k);
    assert Stops(client.pages[stop]);
  }

  /** A tree grows into another: directories are only added, and files are only added,
      never rewritten or removed. */
  predicate Extends(st: FsState, after: FsState) {
    && st.dirs <= after.dirs
    && forall p :: p in st.files ==> p in after.files && after.files[p] == st.files[p]
  }

  lemma DownloadFileExtends(st: FsState, resp: Http.GetResult, dest: Path)
    ensures Extends(st, DownloadFileEffect(st, resp, dest).after)
  {
  }

  lemma InfoFileExtends(st: FsState, base: Path, bookmark: Drop)
    ensures Extends(st, CreateInfoFileEffect(st, base, bookmark).after)
  {
  }

  lemma ExtendsTransitive(a: FsState, b: FsState, c: FsState)
    requires Extends(a, b) && Extends(b, c)
    ensures Extends(a, c)
  {
  }

  /** The download and the sidecar of one bookmark, each step on the tree the previous
      one left, never overwrite a file and keep the tree consistent. */
  lemma StoreStepsExtend(st: FsState, resp: Http.GetResult, base: Path, item: Drop)
    ensures var downloaded := DownloadFileEffect(st, resp, base);
      var info := CreateInfoFileEffect(downloaded.after, base, item);
      && Extends(st, downloaded.after)
      && (Consistent(st) ==> Consistent(downloaded.after))
      && Extends(st, info.after)
      && (Consistent(st) ==> Consistent(info.after))
  {
    var downloaded := DownloadFileEffect(st, resp, base);
    DownloadFileExtends(st, resp, base);
    if resp.Response? && resp.contentType in MimeMap && Consistent(st) {
      DownloadFrame(st, resp, base);
    }
    InfoFileExtends(downloaded.after, base, item);
    ExtendsTransitive(st, downloaded.after, CreateInfoFileEffect(downloaded.after, base, item).after);
    if Consistent(downloaded.after) {
      InfoFileFrame(downloaded.after, base, item);
    }
  }

  /** Storing a bookmark never overwrites or removes an existing file, and keeps the
      tree consistent. */
  lemma DownloadItemExtends(
    st: FsState, get: string -> Http.GetResult, item: Drop, collectionName: string, outputDir: Path)
    ensures var e := DownloadItemEffect(st, get, item, collectionName, outputDir);
      && Extends(st, e.after)
      && (Consistent(st) ==> Consistent(e.after))
  {
    var dir := ItemDir(outputDir, collectionName);
    var ensured := EnsureDirEffect(st, dir);
    if Consistent(st) && !DirExists(st, dir) {
      MkdirAllPreservesConsistency(st, dir);
    }
    assert Extends(st, ensured.after);
    if ensured.outcome.Pass? && item.GetFileLink() != "" {
      var base := Join(dir, item.GetName());
      var resp := get(item.GetFileLink());
      var downloaded := DownloadFileEffect(ensured.after, resp, base);
      var info := CreateInfoFileEffect(downloaded.after, base, item);
      StoreStepsExtend(ensured.after, resp, base, item);
      ExtendsTransitive(st, ensured.after, downloaded.after);
      ExtendsTransitive(st, ensured.after, info.after);
    }
  }

  lemma {:induction false} ProcessItemsExtends(
    st: FsState, get: string -> Http.GetResult, items: seq<Drop>, collectionName: string, outputDir: Path)
    ensures var after := ProcessItems(st, get, items, collectionName, outputDir);
      Extends(st, after) && (Consistent(st) ==> Consistent(after))
    decreases |items|
  {
    if items != [] {
      var before := ProcessItems(st, get, items[..|items| - 1], collectionName, outputDir);
      ProcessItemsExtends(st, get, items[..|items| - 1], collectionName, outputDir);
      DownloadItemExtends(before, get, items[|items| - 1], collectionName, outputDir);
    }
  }

  lemma {:induction false} ProcessPagesExtends(
    st: FsState, get: string -> Http.GetResult, pages: seq<Result<ImageDrops, FetchError>>,
    collectionName: string, outputDir: Path)
    ensures var after := ProcessPages(st, get, pages, collectionName, outputDir);
      Extends(st, after) && (Consistent(st) ==> Consistent(after))
    decreases |pages|
  {
    if pages != [] {
      var before := ProcessPages(st, get, pages[..|pages| - 1], collectionName, outputDir);
      ProcessPagesExtends(st, get, pages[..|pages| - 1], collectionName, outputDir);
      var last := pages[|pages| - 1];
      if last.Success? {
        ProcessItemsExtends(before, get, last.value.items, collectionName, outputDir);
      }
    }
  }

  /** A whole collection run never overwrites or removes a file that was there before,
      never removes a directory, and keeps the tree consistent: rerunning a download
      into the same directory only adds what is missing. */
  lemma RunNeverOverwrites(st: FsState, get: string -> Http.GetResult, client: RaindropClient, collectionID: int, outputDir: Path)
    requires Finite(client)
    ensures var r := DownloadCollectionRun(st, get, client, collectionID, outputDir);
      Extends(st, r.after) && (Consistent(st) ==> Consistent(r.after))
  {
    if collectionID != 0 && outputDir != "" && DirExists(st, outputDir) && client.collection.Success? {
      var fetched := client.pages[..FirstStop(client.pages) + 1];
      ProcessPagesExtends(st, get, fetched, client.collection.value.title, outputDir);
    }
  }

  /** A bookmark without an asset URL only gets its collection's directory. */
  lemma EmptyCoverOnlyMakesDir(
    st: FsState, get: string -> Http.GetResult, item: Drop, collectionName: string, outputDir: Path)
    requires item.cover == ""
    ensures var e := DownloadItemEffect(st, get, item, collectionName, outputDir);
      var ensured := EnsureDirEffect(st, ItemDir(outputDir, collectionName));
      && e.after == ensured.after
      && e.after.files == st.files
      && (e.outcome.Pass? <==> ensured.outcome.Pass?)
  {
  }

  /** When the asset is refused (no response, a status other than 200, or a type
      outside the table) no file is written for the bookmark, its sidecar included. */
  lemma RefusedAssetWritesNothing(
    st: FsState, get: string -> Http.GetResult, item: Drop, collectionName: string, outputDir: Path)
    requires item.cover != ""
    requires var resp := get(item.cover);
      resp.GetFailed? || resp.status != Http.StatusOK || resp.contentType !in MimeMap
    ensures var e := DownloadItemEffect(st, get, item, collectionName, outputDir);
      && e.after.files == st.files
      && e.outcome.Fail?
      && (e.outcome.error.DownloadFailed? <==> EnsureDirEffect(st, ItemDir(outputDir, collectionName)).outcome.Pass?)
  {
    var ensured := EnsureDirEffect(st, ItemDir(outputDir, collectionName));
    DownloadRejectsWithoutWriting(ensured.after, get(item.cover), ItemBase(outputDir, collectionName, item));
  }

  /** Any failure of the download step (a refused asset, a failed create or a failed body
      read) ends the bookmark with that error: the sidecar step does not run, so the tree
      is the one the download left, and an existing tree's sidecar path is untouched. */
  lemma DownloadErrorNoSidecar(
    st: FsState, get: string -> Http.GetResult, item: Drop, collectionName: string, outputDir: Path)
    requires item.cover != ""
    requires EnsureDirEffect(st, ItemDir(outputDir, collectionName)).outcome.Pass?
    requires var ensured := EnsureDirEffect(st, ItemDir(outputDir, collectionName));
      DownloadFileEffect(ensured.after, get(item.cover), ItemBase(outputDir, collectionName, item)).outcome.Fail?
    ensures var ensured := EnsureDirEffect(st, ItemDir(outputDir, collectionName));
      var base := ItemBase(outputDir, collectionName, item);
      var downloaded := DownloadFileEffect(ensured.after, get(item.cover), base);
      var e := DownloadItemEffect(st, get, item, collectionName, outputDir);
      && e.after == downloaded.after
      && e.outcome == Fail(DownloadFailed(downloaded.outcome.error))
      && (InfoFilePath(base) in e.after.files <==> InfoFilePath(base) in st.files)
      && (InfoFilePath(base) in st.files ==> e.after.files[InfoFilePath(base)] == st.files[InfoFilePath(base)])
  {
    var ensured := EnsureDirEffect(st, ItemDir(outputDir, collectionName));
    var base := ItemBase(outputDir, collectionName, item);
    DownloadKeepsLongerPaths(ensured.after, get(item.cover), base, InfoFilePath(base));
  }

  /** The asset and the sidecar of a bookmark sit directly in its collection's
      directory, and the sidecar's path is longer than the asset's. */
  lemma ItemPaths(outputDir: Path, collectionName: string, item: Drop, contentType: string)
    requires outputDir != "" && item.title != "" && '/' !in item.title && contentType in MimeMap
    ensures var dir := ItemDir(outputDir, collectionName);
      var base := ItemBase(outputDir, collectionName, item);
      var asset := TargetPath(base, contentType);
      && base == dir + "/" + item.GetName()
      && Parent(asset) == dir && Parent(InfoFilePath(base)) == dir
      && |dir| < |asset| < |InfoFilePath(base)|
  {
    var dir := ItemDir(outputDir, collectionName);
    var name := item.GetName();
    var base := ItemBase(outputDir, collectionName, item);
    MimeMapExtensions();
    var ext := MimeMap[contentType];
    assert '/' !in name by {
      forall i | 0 <= i < |name| ensures name[i] != '/' {
        assert item.title[i] != '/';
      }
    }
    assert base == dir + "/" + name;
    assert TargetPath(base, contentType) == dir + "/" + (name + ext);
    assert InfoFilePath(base) == dir + "/" + (name + InfoFileSuffix);
    ParentOfJoined(dir, name + ext);
    ParentOfJoined(dir, name + InfoFileSuffix);
  }

  /** When each of its three steps succeeds, storing a bookmark succeeds with the state
      the sidecar step leaves. */
  lemma ItemSteps(st: FsState, get: string -> Http.GetResult, item: Drop, collectionName: string, outputDir: Path)
    requires item.cover != ""
    requires EnsureDirEffect(st, ItemDir(outputDir, collectionName)).outcome.Pass?
    requires var st1 := EnsureDirEffect(st, ItemDir(outputDir, collectionName)).after;
      DownloadFileEffect(st1, get(item.cover), ItemBase(outputDir, collectionName, item)).outcome.Pass?
    requires var st1 := EnsureDirEffect(st, ItemDir(outputDir, collectionName)).after;
      var st2 := DownloadFileEffect(st1, get(item.cover), ItemBase(outputDir, collectionName, item)).after;
      CreateInfoFileEffect(st2, ItemBase(outputDir, collectionName, item), item).outcome.Pass?
    ensures var st1 := EnsureDirEffect(st, ItemDir(outputDir, collectionName)).after;
      var st2 := DownloadFileEffect(st1, get(item.cover), ItemBase(outputDir, collectionName, item)).after;
      DownloadItemEffect(st, get, item, collectionName, outputDir)
        == Effect(CreateInfoFileEffect(st2, ItemBase(outputDir, collectionName, item), item).after, Pass)
  {
  }

  /** The asset of a bookmark goes to <outputDir>/<collection>/<name><extension> and its
      sidecar to <outputDir>/<collection>/<name>.info.json; with everything in place
      both are written (the sidecar with the text of the bookmark's record, which reads
      back by DecodeEncode), and no other file changes. */
  lemma DownloadItemStoresAssetAndSidecar(
    st: FsState, get: string -> Http.GetResult, item: Drop, collectionName: string, outputDir: Path)
    requires outputDir != "" && item.cover != "" && item.title != "" && '/' !in item.title
    requires var dir := ItemDir(outputDir, collectionName);
      DirExists(st, dir) || Lineage(dir) !! st.files.Keys
    requires var resp := get(item.cover);
      resp.Response? && resp.status == Http.StatusOK && resp.contentType in MimeMap && !resp.body.readFails
    requires var base := ItemBase(outputDir, collectionName, item);
      !FileExists(st, TargetPath(base, get(item.cover).contentType)) && !FileExists(st, InfoFilePath(base))
    ensures var dir := ItemDir(outputDir, collectionName);
      var base := ItemBase(outputDir, collectionName, item);
      var resp := get(item.cover);
      var e := DownloadItemEffect(st, get, item, collectionName, outputDir);
      && base == dir + "/" + item.GetName()
      && e.outcome == Pass
      && dir in e.after.dirs
      && e.after.files
         == st.files[TargetPath(base, resp.contentType) := Bytes(resp.body.data)][InfoFilePath(base) := Text(Encode(FromDrop(item)))]
  {
    var dir := ItemDir(outputDir, collectionName);
    var resp := get(item.cover);
    var base := ItemBase(outputDir, collectionName, item);
    var asset := TargetPath(base, resp.contentType);
    var sidecar := InfoFilePath(base);
    ItemPaths(outputDir, collectionName, item, resp.contentType);
    var ensured := EnsureDirEffect(st, dir);
    assert ensured.outcome.Pass? && dir in ensured.after.dirs;
    assert ensured.after.files == st.files && ensured.after.dirs <= st.dirs + Lineage(dir);
    assert !FileExists(ensured.after, asset);
    var st2 := ensured.after.(files := st.files[asset := Bytes(resp.body.data)]);
    assert DownloadFileEffect(ensured.after, resp, base) == Effect(st2, Pass) by {
      DownloadWritesBody(ensured.after, resp, base);
    }
    assert !FileExists(st2, sidecar);
    InfoFileWritesRecord(st2, base, item);
    ItemSteps(st, get, item, collectionName, outputDir);
  }

  /** A collection whose one page holds one bookmark and reports no further pages:
      after the collection call and page 0 the run has stored exactly that bookmark. */
  lemma SingleItemRun(
    st: FsState, get: string -> Http.GetResult, collection: CollectionItem, item: Drop, collectionID: int, outputDir: Path)
    requires collectionID != 0 && outputDir != "" && DirExists(st, outputDir)
    ensures var client := RaindropClient(Success(collection), [Success(ImageDrops([item], false))]);
      DownloadCollectionRun(st, get, client, collectionID, outputDir)
        == Run(DownloadItemEffect(st, get, item, collection.title, outputDir).after, Pass,
               [CollectionCall(collectionID), PageCall(collectionID, 0)], [item])
  {
    var pages := [Success(ImageDrops([item], false))];
    assert FirstStop(pages) == 0;
    assert pages[..1] == pages;
    NextPage(st, get, pages, 0, collection.title, outputDir);
    NextItem(st, get, [item], 0, collection.title, outputDir);
    assert [item][..1] == [item];
    assert ItemsOf(pages) == [item] by {
      assert ItemsOf(pages[..0]) == [];
    }
    assert PageCalls(collectionID, 1) == [PageCall(collectionID, 0)];
  }

  /** The single-image collection of the package's end-to-end scenario: the output
      directory exists and holds no files, the collection record has no title, and
      its one page holds one bookmark whose asset is served with a supported type and
      reports no further pages. The run succeeds after requesting the collection and
      page 0, and leaves exactly two files: <outputDir>/<name><extension> with the
      body and <outputDir>/<name>.info.json with the text of the bookmark's record
      (which reads back by DecodeEncode). */
  lemma SingleImageCollection(outputDir: Path, get: string -> Http.GetResult, item: Drop, collectionID: int)
    requires collectionID != 0 && outputDir != ""
    requires item.cover != "" && item.title != "" && '/' !in item.title
    requires var resp := get(item.cover);
      resp.Response? && resp.status == Http.StatusOK && resp.contentType in MimeMap && !resp.body.readFails
    ensures var client := RaindropClient(Success(CollectionItem(collectionID, "")), [Success(ImageDrops([item], false))]);
      var r := DownloadCollectionRun(FsState(map[], {outputDir}), get, client, collectionID, outputDir);
      var resp := get(item.cover);
      var asset := outputDir + "/" + item.GetName() + MimeMap[resp.contentType];
      var sidecar := outputDir + "/" + item.GetName() + ".info.json";
      && r.outcome == Pass
      && r.calls == [CollectionCall(collectionID), PageCall(collectionID, 0)]
      && r.processed == [item]
      && r.after.files == map[asset := Bytes(resp.body.data), sidecar := Text(Encode(FromDrop(item)))]
  {
    var st := FsState(map[], {outputDir});
    SingleItemRun(st, get, CollectionItem(collectionID, ""), item, collectionID, outputDir);
    DownloadItemStoresAssetAndSidecar(st, get, item, "", outputDir);
    var resp := get(item.cover);
    var base := ItemBase(outputDir, "", item);
    assert base == outputDir + "/" + item.GetName();
    assert TargetPath(base, resp.contentType) == outputDir + "/" + item.GetName() + MimeMap[resp.contentType];
    assert InfoFilePath(base) == outputDir + "/" + item.GetName() + ".info.json";
  }
}
