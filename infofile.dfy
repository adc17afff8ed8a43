/** The metadata sidecar written next to each downloaded asset. */
module InfoFiles {
  import opened Wrappers
  import opened RaindropTypes
  import opened FileSystem
  import opened JsonText
  import opened DownloaderUtils

  /** The sidecar record. */
  datatype InfoFile = InfoFile(
    title: string,
    description: string,
    tags: seq<string>,
    createdAt: Timestamp,
    originalURL: string)

  const InfoFileSuffix: string := ".info.json"

  /** Where the sidecar of the asset with stem `base` goes. */
  function InfoFilePath(base: Path): (p: Path)
    ensures |p| == |base| + 10 && p[..|base|] == base && p[|base|..] == InfoFileSuffix
  {
    base + InfoFileSuffix
  }

  /** The record a bookmark is described by. */
  function FromDrop(d: Drop): (info: InfoFile)
    ensures info.title == d.title
    ensures info.description == d.GetDescription() == d.note
    ensures info.tags == d.tags
    ensures info.createdAt == d.created
    ensures info.originalURL == d.link
  {
    InfoFile(d.title, d.GetDescription(), d.tags, d.created, d.link)
  }

  /** The text json.Encoder writes for the record: the fields in declaration order under
      the keys title, description, tags, created_at and original_url, then a newline. */
  function Encode(info: InfoFile): string {
    "{\"title\":" + (Quote(info.title) +
    (",\"description\":" + (Quote(info.description) +
    (",\"tags\":" + (QuoteList(info.tags) +
    (",\"created_at\":" + (Quote(info.createdAt.rfc3339) +
    (",\"original_url\":" + (Quote(info.originalURL) + "}\n")))))))))
  }

  /** The text is one JSON object, opened by the title key and closed by a brace and a
      newline. */
  lemma EncodeIsOneObject(info: InfoFile)
    ensures var s := Encode(info);
      && |s| > 11 && s[..9] == "{\"title\":" && s[|s| - 2..] == "}\n"
  {
    var s := Encode(info);
    var tail := Quote(info.originalURL) + "}\n";
    assert s[|s| - 2..] == tail[|tail| - 2..];
  }

  /** The rest of `t` after the literal `lit`, if `t` starts with it. */
  function Expect(lit: string, t: string): Option<string> {
    if |lit| <= |t| && t[..|lit|] == lit then Some(t[|lit|..]) else None
  }

  function StringField(key: string, t: string): Option<(string, string)> {
    match Expect(key, t)
    case None => None
    case Some(rest) => ParseString(rest)
  }

  function ListField(key: string, t: string): Option<(seq<string>, string)> {
    match Expect(key, t)
    case None => None
    case Some(rest) => ParseList(rest)
  }

  /** Reads a sidecar back. */
  function Decode(text: string): Option<InfoFile> {
    match StringField("{\"title\":", text)
    case None => None
    case Some((title, t1)) =>
      match StringField(",\"description\":", t1)
      case None => None
      case Some((description, t2)) =>
        match ListField(",\"tags\":", t2)
        case None => None
        case Some((tags, t3)) =>
          match StringField(",\"created_at\":", t3)
          case None => None
          case Some((created, t4)) =>
            match StringField(",\"original_url\":", t4)
            case None => None
            case Some((url, t5)) =>
              if t5 == "}\n" then Some(InfoFile(title, description, tags, Timestamp(created), url)) else None
  }

  lemma ExpectRoundTrip(lit: string, rest: string)
    ensures Expect(lit, lit + rest) == Some(rest)
  {
    assert (lit + rest)[..|lit|] == lit;
    assert (lit + rest)[|lit|..] == rest;
  }

  lemma StringFieldRoundTrip(key: string, s: string, rest: string)
    ensures StringField(key, key + (Quote(s) + rest)) == Some((s, rest))
  {
    ExpectRoundTrip(key, Quote(s) + rest);
    QuoteRoundTrip(s, rest);
  }

  lemma ListFieldRoundTrip(key: string, ss: seq<string>, rest: string)
    ensures ListField(key, key + (QuoteList(ss) + rest)) == Some((ss, rest))
  {
    ExpectRoundTrip(key, QuoteList(ss) + rest);
    QuoteListRoundTrip(ss, rest);
  }

  /** Reading a written sidecar gives back every field of the record. */
  lemma DecodeEncode(info: InfoFile)
    ensures Decode(Encode(info)) == Some(info)
  {
    var t5 := "}\n";
    var t4 := ",\"original_url\":" + (Quote(info.originalURL) + t5);
    var t3 := ",\"created_at\":" + (Quote(info.createdAt.rfc3339) + t4);
    var t2 := ",\"tags\":" + (QuoteList(info.tags) + t3);
    var t1 := ",\"description\":" + (Quote(info.description) + t2);
    StringFieldRoundTrip("{\"title\":", info.title, t1);
    StringFieldRoundTrip(",\"description\":", info.description, t2);
    ListFieldRoundTrip(",\"tags\":", info.tags, t3);
    StringFieldRoundTrip(",\"created_at\":", info.createdAt.rfc3339, t4);
    StringFieldRoundTrip(",\"original_url\":", info.originalURL, t5);
  }

  /** `createInfoFile`: writes the record of `bookmark` next to the stem `base`, unless
      something already exists there. */
  function CreateInfoFileEffect(st: FsState, base: Path, bookmark: Drop): Effect<OsError> {
    var path := InfoFilePath(base);
    if FileExists(st, path) then Effect(st, Pass)
    else
      var created := CreateEffect(st, path);
      if created.outcome.Fail? then created
      else Effect(created.after.(files := created.after.files[path := Text(Encode(FromDrop(bookmark)))]), Pass)
  }

  method CreateInfoFile(fs: FileTree, base: Path, bookmark: Drop) returns (err: Outcome<OsError>)
    modifies fs
    ensures Effect(fs.State(), err) == CreateInfoFileEffect(old(fs.State()), base, bookmark)
  {
    var path := InfoFilePath(base);
    if FileExists(fs.State(), path) {
      return Pass;
    }
    err := fs.Create(path);
    if err.Fail? {
      return err;
    }
    fs.Write(path, Text(Encode(FromDrop(bookmark))));
    return Pass;
  }

  /** An existing sidecar, or a directory in its place, is left as it is and is not an error. */
  lemma InfoFileSkipsExisting(st: FsState, base: Path, bookmark: Drop)
    requires FileExists(st, InfoFilePath(base))
    ensures CreateInfoFileEffect(st, base, bookmark) == Effect(st, Pass)
  {
  }

  /** A new sidecar holds the text of the bookmark's record (which reads back to that
      record by DecodeEncode), and nothing else changes. */
  lemma InfoFileWritesRecord(st: FsState, base: Path, bookmark: Drop)
    requires !FileExists(st, InfoFilePath(base)) && ParentPresent(st, InfoFilePath(base))
    ensures var path := InfoFilePath(base);
      var e := CreateInfoFileEffect(st, base, bookmark);
      && e.outcome == Pass
      && e.after == st.(files := st.files[path := Text(Encode(FromDrop(bookmark)))])
  {
    var path := InfoFilePath(base);
    var created := CreateEffect(st, path);
    assert created == Effect(st.(files := st.files[path := Bytes([])]), Pass);
  }

  /** Only the sidecar path is ever written, and the tree stays consistent. */
  lemma InfoFileFrame(st: FsState, base: Path, bookmark: Drop)
    requires Consistent(st)
    ensures var e := CreateInfoFileEffect(st, base, bookmark);
      OnlyTouches(st, e.after, InfoFilePath(base)) && Consistent(e.after)
  {
    CreatePreservesConsistency(st, InfoFilePath(base));
  }

  /** Writing the sidecar twice leaves the state of writing it once. */
  lemma InfoFileIdempotent(st: FsState, base: Path, bookmark: Drop)
    ensures var first := CreateInfoFileEffect(st, base, bookmark);
      var second := CreateInfoFileEffect(first.after, base, bookmark);
      && second.after == first.after
      && (first.outcome.Pass? ==> second.outcome.Pass?)
  {
    var path := InfoFilePath(base);
    if !FileExists(st, path) && CreateEffect(st, path).outcome.Pass? {
      assert path in CreateInfoFileEffect(st, base, bookmark).after.files;
    }
  }
}
