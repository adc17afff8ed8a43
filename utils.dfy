/** The download primitive and the directory helpers of the downloader package. */
module DownloaderUtils {
  import opened Wrappers
  import opened FileSystem
  import opened Http

  /** The closed table from a Content-Type header value to a file extension. */
  const MimeMap: map<string, string> := map[
    "image/jpeg" := ".jpg",
    "image/png" := ".png",
    "image/gif" := ".gif",
    "image/bmp" := ".bmp",
    "image/webp" := ".webp",
    "image/svg+xml" := ".svg",
    "application/pdf" := ".pdf",
    "text/plain" := ".txt",
    "application/octet-stream" := ".bin"
  ]

  datatype DownloadError =
    | TransportError
    | BadStatus(status: int)
    | UnsupportedContentType(contentType: string)
    | OsFailure(cause: OsError)
    | BodyReadFailed

  /** The table is defined for exactly nine header values, matched as whole strings:
      a type with parameters or outside the list is not in it. */
  lemma MimeMapIsClosed()
    ensures MimeMap.Keys == {"image/jpeg", "image/png", "image/gif", "image/bmp", "image/webp",
                             "image/svg+xml", "application/pdf", "text/plain", "application/octet-stream"}
    ensures "text/html" !in MimeMap && "image/png; charset=binary" !in MimeMap && "" !in MimeMap
  {
  }

  /** Every extension the table gives is a '.' followed by a short name without '/'. */
  lemma MimeMapExtensions()
    ensures forall t :: t in MimeMap ==> 1 < |MimeMap[t]| <= 5 && MimeMap[t][0] == '.' && '/' !in MimeMap[t]
  {
  }

  /** `dirExists`: `os.Stat` finds something at `path` and it is a directory. */
  predicate DirExists(st: FsState, path: Path)
    ensures DirExists(st, path) ==> Present(st, path)
  {
    path in st.dirs
  }

  /** `fileExists`: `os.Stat` does not report "not exist", so a directory counts too. */
  predicate FileExists(st: FsState, path: Path)
    ensures FileExists(st, path) <==> Present(st, path)
  {
    Present(st, path)
  }

  /** Every existing directory is an existing file in the sense of FileExists, and
      FileExists without DirExists means a regular file. */
  lemma ExistenceChecks(st: FsState, path: Path)
    ensures DirExists(st, path) <==> Present(st, path) && path in st.dirs
    ensures DirExists(st, path) ==> FileExists(st, path)
    ensures FileExists(st, path) && !DirExists(st, path) <==> path in st.files && path !in st.dirs
  {
  }

  /** `ensureDir`: MkdirAll only when the directory is missing. */
  function EnsureDirEffect(st: FsState, dir: Path): (e: Effect<OsError>)
    ensures e.outcome.Pass? ==> DirExists(e.after, dir)
    ensures e.after.files == st.files && st.dirs <= e.after.dirs
    ensures DirExists(st, dir) ==> e == Effect(st, Pass)
    ensures e.outcome.Fail? ==> e.after == st
  {
    if DirExists(st, dir) then Effect(st, Pass) else MkdirAllEffect(st, dir)
  }

  /** The only directories `ensureDir` ever adds are `dir` and its missing ancestors. */
  lemma EnsureDirAddsOnlyLineage(st: FsState, dir: Path)
    ensures EnsureDirEffect(st, dir).after.dirs <= st.dirs + Lineage(dir)
  {
  }

  method EnsureDir(fs: FileTree, dir: Path) returns (err: Outcome<OsError>)
    modifies fs
    ensures Effect(fs.State(), err) == EnsureDirEffect(old(fs.State()), dir)
  {
    if !DirExists(fs.State(), dir) {
      err := fs.MkdirAll(dir);
      if err.Fail? {
        return Fail(err.error);
      }
    }
    return Pass;
  }

  /** The path the asset is stored at: the stem plus the extension for its type. */
  function TargetPath(dest: Path, contentType: string): Path
    requires contentType in MimeMap
  {
    dest + MimeMap[contentType]
  }

  /** `downloadFile` given the response to its GET. */
  function DownloadFileEffect(st: FsState, resp: GetResult, dest: Path): Effect<DownloadError> {
    match resp
    case GetFailed => Effect(st, Fail(TransportError))
    case Response(status, contentType, body) =>
      if status != StatusOK then Effect(st, Fail(BadStatus(status)))
      else if contentType !in MimeMap then Effect(st, Fail(UnsupportedContentType(contentType)))
      else
        var path := TargetPath(dest, contentType);
        if FileExists(st, path) then Effect(st, Pass)
        else
          var created := CreateEffect(st, path);
          if created.outcome.Fail? then Effect(created.after, Fail(OsFailure(created.outcome.error)))
          else
            var written := created.after.(files := created.after.files[path := Bytes(body.data)]);
            Effect(written, if body.readFails then Fail(BodyReadFailed) else Pass)
  }

  /** Fetches `url` and stores the body at `dest` plus the extension of its type, unless
      something is already stored there. */
  method DownloadFile(fs: FileTree, get: string -> GetResult, url: string, dest: Path)
    returns (err: Outcome<DownloadError>)
    modifies fs
    ensures Effect(fs.State(), err) == DownloadFileEffect(old(fs.State()), get(url), dest)
  {
    var resp := get(url);
    if resp.GetFailed? {
      return Fail(TransportError);
    }
    if resp.status != StatusOK {
      return Fail(BadStatus(resp.status));
    }
    var contentType := resp.contentType;
    if contentType !in MimeMap {
      return Fail(UnsupportedContentType(contentType));
    }
    var path := dest + MimeMap[contentType];
    if FileExists(fs.State(), path) {
      return Pass;
    }
    var created := fs.Create(path);
    if created.Fail? {
      return Fail(OsFailure(created.error));
    }
    fs.Write(path, Bytes(resp.body.data));
    if resp.body.readFails {
      return Fail(BodyReadFailed);
    }
    return Pass;
  }

  /** A failed request, a status other than 200 or a type outside the table is an error
      of that kind, and nothing on disk changes. */
  lemma DownloadRejectsWithoutWriting(st: FsState, resp: GetResult, dest: Path)
    requires resp.GetFailed? || resp.status != StatusOK || resp.contentType !in MimeMap
    ensures var e := DownloadFileEffect(st, resp, dest);
      && e.after == st
      && e.outcome == (if resp.GetFailed? then Fail(TransportError)
                       else if resp.status != StatusOK then Fail(BadStatus(resp.status))
                       else Fail(UnsupportedContentType(resp.contentType)))
  {
  }

  /** When something already exists at the target path the download succeeds and leaves
      everything, that file included, as it was. */
  lemma DownloadSkipsExisting(st: FsState, resp: GetResult, dest: Path)
    requires resp.Response? && resp.status == StatusOK && resp.contentType in MimeMap
    requires FileExists(st, TargetPath(dest, resp.contentType))
    ensures DownloadFileEffect(st, resp, dest) == Effect(st, Pass)
  {
  }

  /** Otherwise, when the target's directory exists, the target holds exactly the body
      read, nothing else changes, and the result is an error only if reading failed. */
  lemma DownloadWritesBody(st: FsState, resp: GetResult, dest: Path)
    requires resp.Response? && resp.status == StatusOK && resp.contentType in MimeMap
    requires !FileExists(st, TargetPath(dest, resp.contentType))
    requires ParentPresent(st, TargetPath(dest, resp.contentType))
    ensures var path := TargetPath(dest, resp.contentType);
      var e := DownloadFileEffect(st, resp, dest);
      && e.after == st.(files := st.files[path := Bytes(resp.body.data)])
      && e.outcome == (if resp.body.readFails then Fail(BodyReadFailed) else Pass)
  {
    MimeMapExtensions();
  }

  /** A download changes at most the file at its target path, and keeps the tree consistent. */
  lemma DownloadFrame(st: FsState, resp: GetResult, dest: Path)
    requires Consistent(st)
    requires resp.Response? && resp.contentType in MimeMap
    ensures var e := DownloadFileEffect(st, resp, dest);
      OnlyTouches(st, e.after, TargetPath(dest, resp.contentType)) && Consistent(e.after)
  {
    CreatePreservesConsistency(st, TargetPath(dest, resp.contentType));
  }

  /** A download only ever writes the stem plus an extension of at most five characters,
      so a longer path next to it, such as the sidecar, keeps what it held. */
  lemma DownloadKeepsLongerPaths(st: FsState, resp: GetResult, dest: Path, p: Path)
    requires |p| > |dest| + 5
    ensures var e := DownloadFileEffect(st, resp, dest);
      && (p in e.after.files <==> p in st.files)
      && (p in st.files ==> e.after.files[p] == st.files[p])
  {
    if resp.Response? && resp.contentType in MimeMap {
      MimeMapExtensions();
      assert |TargetPath(dest, resp.contentType)| < |p|;
    }
  }

  /** Downloading the same response to the same stem a second time changes nothing, and
      succeeds whenever the first time stored something. */
  lemma DownloadIdempotent(st: FsState, resp: GetResult, dest: Path)
    ensures var first := DownloadFileEffect(st, resp, dest);
      var second := DownloadFileEffect(first.after, resp, dest);
      && second.after == first.after
      && (first.outcome.Pass? || first.outcome == Fail(BodyReadFailed) ==> second.outcome.Pass?)
  {
    var first := DownloadFileEffect(st, resp, dest);
    if resp.Response? && resp.status == StatusOK && resp.contentType in MimeMap {
      var path := TargetPath(dest, resp.contentType);
      if !FileExists(st, path) && CreateEffect(st, path).outcome.Pass? {
        assert path in first.after.files;
      }
    }
  }
}
