/** The records of the bookmarking service's API and the accessors on a bookmark (Drop). */
module RaindropTypes {

  /** A creation time, kept as the RFC 3339 text that Go's time.Time marshals to. */
  datatype Timestamp = Timestamp(rfc3339: string)

  /** One bookmarked entry; `cover` is the URL of the downloadable asset. */
  datatype Drop = Drop(
    id: int,
    link: string,
    title: string,
    excerpt: string,
    note: string,
    kind: string,
    cover: string,
    media: seq<string>,
    tags: seq<string>,
    created: Timestamp,
    lastUpdate: string,
    collectionId: int)
  {
    /** The asset URL of the bookmark. */
    function GetFileLink(): (url: string)
      ensures url == cover
    {
      cover
    }

    /** The file-name stem of the bookmark: its title with every space turned into '_'. */
    function GetName(): (name: string)
      ensures |name| == |title|
      ensures ' ' !in name
      ensures forall i :: 0 <= i < |title| ==> name[i] == if title[i] == ' ' then '_' else title[i]
    {
      ReplaceAll(title, ' ', '_')
    }

    /** The free-text note, used as the bookmark's description. */
    function GetDescription(): (description: string)
      ensures description == note
    {
      note
    }
  }

  /** One page of image bookmarks and whether a further page should be requested. */
  datatype ImageDrops = ImageDrops(items: seq<Drop>, hasMore: bool)

  /** The decoded body of the items endpoint. */
  datatype GetRaindropsResponse = GetRaindropsResponse(result: bool, items: seq<Drop>, count: int)

  /** A collection; only the fields the downloader uses are kept. */
  datatype CollectionItem = CollectionItem(id: int, title: string)

  /** The decoded body of the collection endpoint. */
  datatype GetCollectionResponse = GetCollectionResponse(result: bool, item: CollectionItem)

  /** `strings.ReplaceAll` for a one-character pattern and replacement:
      every occurrence of `target` becomes `replacement`, all else stays in place. */
  function ReplaceAll(s: string, target: char, replacement: char): (r: string)
    ensures |r| == |s|
    ensures forall i :: 0 <= i < |s| ==> r[i] == if s[i] == target then replacement else s[i]
  {
    if s == [] then []
    else [if s[0] == target then replacement else s[0]] + ReplaceAll(s[1..], target, replacement)
  }

  /** Naming a bookmark twice gives the same stem as naming it once. */
  lemma {:induction false} GetNameIdempotent(d: Drop)
    ensures ReplaceAll(d.GetName(), ' ', '_') == d.GetName()
  {
    var name := d.GetName();
    var again := ReplaceAll(name, ' ', '_');
    assert |again| == |name|;
    forall i | 0 <= i < |name| ensures again[i] == name[i] {
      assert name[i] != ' ';
    }
  }

  /** A title without spaces is used as the file-name stem unchanged. */
  lemma GetNameWithoutSpaces(d: Drop)
    requires ' ' !in d.title
    ensures d.GetName() == d.title
  {
    var name := d.GetName();
    forall i | 0 <= i < |name| ensures name[i] == d.title[i] {
      assert d.title[i] != ' ';
    }
  }

  /** Only the space character is replaced: tabs and newlines in a title are kept. */
  lemma GetNameKeepsOtherWhitespace(d: Drop, i: int)
    requires 0 <= i < |d.title| && d.title[i] in {'\t', '\n', '\r'}
    ensures d.GetName()[i] == d.title[i]
  {
  }

  /** A bookmark titled "Test Title" is stored under the stem "Test_Title". */
  lemma GetNameExample(d: Drop)
    requires d.title == "Test Title"
    ensures d.GetName() == "Test_Title"
  {
    var name := d.GetName();
    assert |name| == |"Test_Title"|;
    forall i | 0 <= i < |name| ensures name[i] == "Test_Title"[i] {
      assert name[i] == if d.title[i] == ' ' then '_' else d.title[i];
    }
  }
}
