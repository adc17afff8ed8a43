/** The API client: construction from options, the two read requests it sends,
    and how it turns the answers into results or errors. The HTTP round trip itself
    is a parameter `send` (a request in, an exchange out). */
module RaindropApi {
  import opened Wrappers
  import opened RaindropTypes
  import opened Decimal
  import Http

  const DefaultBaseURL: string := "https://api.raindrop.io/rest/v1"

  /** Items requested per page; 50 is the most the service allows. */
  const ItemsPerPage: int := 50

  /** The HTTP client the requests go through; only its identity matters here. */
  datatype HttpClient = DefaultHttpClient | CustomHttpClient(id: nat)

  /** The three fields a Client holds. */
  datatype ClientConfig = ClientConfig(baseURL: string, apiKey: string, httpClient: HttpClient)

  /** The functional options of the package. */
  datatype ClientOption =
    | WithAPIKey(key: string)
    | WithHTTPClient(client: HttpClient)
    | WithBaseURL(url: string)

  datatype ClientError = MissingAPIKey | InvalidBaseURL

  /** A fresh client before any option: the default base URL, no key, the default HTTP client. */
  const Defaults: ClientConfig := ClientConfig(DefaultBaseURL, "", DefaultHttpClient)

  /** The effect of one option on the client's fields. */
  function ApplyOption(c: ClientConfig, opt: ClientOption): (r: ClientConfig)
    ensures r.apiKey == if opt.WithAPIKey? then opt.key else c.apiKey
    ensures r.httpClient == if opt.WithHTTPClient? then opt.client else c.httpClient
    ensures r.baseURL == if opt.WithBaseURL? then opt.url else c.baseURL
  {
    match opt
    case WithAPIKey(k) => c.(apiKey := k)
    case WithHTTPClient(h) => c.(httpClient := h)
    case WithBaseURL(u) => c.(baseURL := u)
  }

  /** The fields after applying `opts` to the defaults, first option first. */
  function Configure(opts: seq<ClientOption>): (c: ClientConfig)
    ensures c.apiKey == "" || WithAPIKey(c.apiKey) in opts
    ensures c.httpClient == DefaultHttpClient || WithHTTPClient(c.httpClient) in opts
    ensures c.baseURL == DefaultBaseURL || WithBaseURL(c.baseURL) in opts
    decreases |opts|
  {
    if opts == [] then Defaults
    else ApplyOption(Configure(opts[..|opts| - 1]), opts[|opts| - 1])
  }

  /** The validation NewClient runs after the options: the key first, then the base URL. */
  function Check(c: ClientConfig): (r: Outcome<ClientError>)
    ensures r == Fail(MissingAPIKey) <==> c.apiKey == ""
    ensures r == Fail(InvalidBaseURL) <==> c.apiKey != "" && c.baseURL == ""
    ensures r == Pass <==> c.apiKey != "" && c.baseURL != ""
  {
    if c.apiKey == "" then Fail(MissingAPIKey)
    else if c.baseURL == "" then Fail(InvalidBaseURL)
    else Pass
  }

  /** A client of the bookmarking service. */
  class Client {
    var baseURL: string
    var apiKey: string
    var httpClient: HttpClient

    function Config(): ClientConfig
      reads this
    {
      ClientConfig(baseURL, apiKey, httpClient)
    }

    constructor ()
      ensures Config() == Defaults
    {
      baseURL := DefaultBaseURL;
      apiKey := "";
      httpClient := DefaultHttpClient;
    }

    /** Runs one option against this client. */
    method Apply(opt: ClientOption)
      modifies this
      ensures Config() == ApplyOption(old(Config()), opt)
    {
      match opt
      case WithAPIKey(k) => apiKey := k;
      case WithHTTPClient(h) => httpClient := h;
      case WithBaseURL(u) => baseURL := u;
    }
  }

  /** Builds a client from the defaults and the options in order; no client unless
      the resulting key and base URL are both non-empty. */
  method NewClient(opts: seq<ClientOption>) returns (client: Client?, err: Outcome<ClientError>)
    ensures err == Check(Configure(opts))
    ensures err == Fail(MissingAPIKey) <==> Configure(opts).apiKey == ""
    ensures err == Fail(InvalidBaseURL) <==> Configure(opts).apiKey != "" && Configure(opts).baseURL == ""
    ensures client != null <==> err == Pass
    ensures client != null ==> fresh(client) && client.Config() == Configure(opts)
  {
    var c := new Client();
    for i := 0 to |opts|
      invariant c.Config() == Configure(opts[..i])
    {
      assert opts[..i + 1][..i] == opts[..i];
      c.Apply(opts[i]);
    }
    assert opts[..|opts|] == opts;
    if c.apiKey == "" {
      return null, Fail(MissingAPIKey);
    }
    if c.baseURL == "" {
      return null, Fail(InvalidBaseURL);
    }
    return c, Pass;
  }

  /** The last WithAPIKey option decides the key. */
  lemma {:induction false} LastAPIKeyWins(opts: seq<ClientOption>, j: int)
    requires 0 <= j < |opts| && opts[j].WithAPIKey?
    requires forall l :: j < l < |opts| ==> !opts[l].WithAPIKey?
    ensures Configure(opts).apiKey == opts[j].key
    decreases |opts|
  {
    if j < |opts| - 1 {
      var prefix := opts[..|opts| - 1];
      LastAPIKeyWins(prefix, j);
    }
  }

  /** Without a WithAPIKey option the key stays empty, so NewClient fails with MissingAPIKey
      whatever the base URL. */
  lemma {:induction false} NoAPIKeyOption(opts: seq<ClientOption>)
    requires forall l :: 0 <= l < |opts| ==> !opts[l].WithAPIKey?
    ensures Configure(opts).apiKey == ""
    ensures Check(Configure(opts)) == Fail(MissingAPIKey)
    decreases |opts|
  {
    if opts != [] {
      NoAPIKeyOption(opts[..|opts| - 1]);
    }
  }

  /** The last WithBaseURL option decides the base URL. */
  lemma {:induction false} LastBaseURLWins(opts: seq<ClientOption>, j: int)
    requires 0 <= j < |opts| && opts[j].WithBaseURL?
    requires forall l :: j < l < |opts| ==> !opts[l].WithBaseURL?
    ensures Configure(opts).baseURL == opts[j].url
    decreases |opts|
  {
    if j < |opts| - 1 {
      LastBaseURLWins(opts[..|opts| - 1], j);
    }
  }

  /** Without a WithBaseURL option the base URL stays the default one. */
  lemma {:induction false} NoBaseURLOption(opts: seq<ClientOption>)
    requires forall l :: 0 <= l < |opts| ==> !opts[l].WithBaseURL?
    ensures Configure(opts).baseURL == DefaultBaseURL
    decreases |opts|
  {
    if opts != [] {
      NoBaseURLOption(opts[..|opts| - 1]);
    }
  }

  /** An outgoing HTTP request: verb, URL without query, query parameters, headers. */
  datatype Request = Request(verb: string, url: string, query: map<string, string>, header: map<string, string>)

  /** The headers setAuthHeader puts on every request. */
  function AuthHeader(c: ClientConfig): (h: map<string, string>)
    ensures h.Keys == {"Authorization"}
  {
    map["Authorization" := "Bearer " + c.apiKey]
  }

  /** The request for one page of image bookmarks of a collection. */
  function ItemsRequest(c: ClientConfig, collectionID: int, page: int): (r: Request)
    ensures r.verb == "GET" && r.header == AuthHeader(c)
    ensures |c.baseURL| + 11 <= |r.url| && r.url[..|c.baseURL| + 11] == c.baseURL + "/raindrops/"
    ensures r.query.Keys == {"perpage", "page", "search"} && r.query["search"] == "type:image"
  {
    Request("GET", c.baseURL + "/raindrops/" + IntText(collectionID),
            map["perpage" := IntText(ItemsPerPage), "page" := IntText(page), "search" := "type:image"],
            AuthHeader(c))
  }

  /** The request for a collection's own record. */
  function CollectionRequest(c: ClientConfig, collectionID: int): (r: Request)
    ensures r.verb == "GET" && r.header == AuthHeader(c) && r.query == map[]
    ensures |c.baseURL| + 12 <= |r.url| && r.url[..|c.baseURL| + 12] == c.baseURL + "/collection/"
  {
    Request("GET", c.baseURL + "/collection/" + IntText(collectionID), map[], AuthHeader(c))
  }

  /** The items request names its collection and page in a way that reads back exactly,
      asks for 50 image bookmarks and carries the bearer key. */
  lemma ItemsRequestTarget(c: ClientConfig, collectionID: int, page: int)
    ensures var r := ItemsRequest(c, collectionID, page);
      var prefix := c.baseURL + "/raindrops/";
      && r.verb == "GET"
      && |prefix| <= |r.url| && r.url[..|prefix|] == prefix
      && ParseInt(r.url[|prefix|..]) == Some(collectionID)
      && r.query.Keys == {"perpage", "page", "search"}
      && r.query["perpage"] == "50"
      && ParseInt(r.query["page"]) == Some(page)
      && r.query["search"] == "type:image"
      && r.header["Authorization"] == "Bearer " + c.apiKey
  {
    var r := ItemsRequest(c, collectionID, page);
    var prefix := c.baseURL + "/raindrops/";
    assert r.url == prefix + IntText(collectionID);
    assert r.url[|prefix|..] == IntText(collectionID);
    IntTextRoundTrip(collectionID);
    IntTextRoundTrip(page);
    PageSizeText();
  }

  lemma PageSizeText()
    ensures IntText(ItemsPerPage) == "50"
  {
    assert NatText(5) == "5";
    assert NatText(50) == NatText(5) + "0";
  }

  /** Different collections or pages give different items requests. */
  lemma ItemsRequestInjective(c: ClientConfig, id1: int, page1: int, id2: int, page2: int)
    requires ItemsRequest(c, id1, page1) == ItemsRequest(c, id2, page2)
    ensures id1 == id2 && page1 == page2
  {
    ItemsRequestTarget(c, id1, page1);
    ItemsRequestTarget(c, id2, page2);
  }

  /** The collection request names its collection in a way that reads back exactly
      and carries the bearer key. */
  lemma CollectionRequestTarget(c: ClientConfig, collectionID: int)
    ensures var r := CollectionRequest(c, collectionID);
      var prefix := c.baseURL + "/collection/";
      && r.verb == "GET"
      && |prefix| <= |r.url| && r.url[..|prefix|] == prefix
      && ParseInt(r.url[|prefix|..]) == Some(collectionID)
      && r.query == map[]
      && r.header["Authorization"] == "Bearer " + c.apiKey
  {
    var r := CollectionRequest(c, collectionID);
    var prefix := c.baseURL + "/collection/";
    assert r.url[|prefix|..] == IntText(collectionID);
    IntTextRoundTrip(collectionID);
  }

  /** A decoded response body, or a body the JSON decoder rejected. */
  datatype Payload<T> = Decoded(value: T) | Malformed

  /** What one round trip gives: no response at all (the request could not be built or
      sent), or a status code with the body as the decoder sees it. */
  datatype Exchange<T> = TransportFailed | Response(status: int, payload: Payload<T>)

  datatype FetchError = RequestFailed | UnexpectedStatus(status: int) | DecodeFailed

  /** The continuation rule of the items endpoint, as written in the client: more pages are
      reported unless the count is zero or at most page * 50. */
  function HasMore(count: int, page: int): (more: bool)
    ensures page >= 0 ==> (more <==> count > page * ItemsPerPage)
  {
    !(count == 0 || count <= page * ItemsPerPage)
  }

  /** The error kinds and the successful result of one request. */
  function Interpret<T>(ex: Exchange<T>): (r: Result<T, FetchError>)
    ensures ex.TransportFailed? ==> r == Failure(RequestFailed)
    ensures ex.Response? && ex.status != Http.StatusOK ==> r == Failure(UnexpectedStatus(ex.status))
    ensures ex.Response? && ex.status == Http.StatusOK && ex.payload.Malformed? ==> r == Failure(DecodeFailed)
    ensures r.Success? <==> ex.Response? && ex.status == Http.StatusOK && ex.payload.Decoded?
    ensures r.Success? ==> r.value == ex.payload.value
  {
    match ex
    case TransportFailed => Failure(RequestFailed)
    case Response(status, payload) =>
      if status != Http.StatusOK then Failure(UnexpectedStatus(status))
      else match payload
        case Malformed => Failure(DecodeFailed)
        case Decoded(v) => Success(v)
  }

  /** One page of image bookmarks of a collection, with the continuation flag. */
  function GetImagesDropsFromCollection(
    c: ClientConfig, send: Request -> Exchange<GetRaindropsResponse>, collectionID: int, page: int
  ): (r: Result<ImageDrops, FetchError>)
    ensures var ex := send(ItemsRequest(c, collectionID, page));
      && (r.Success? <==> ex.Response? && ex.status == Http.StatusOK && ex.payload.Decoded?)
      && (r.Failure? ==> r.error == Interpret(ex).error)
      && (r.Success? ==> r.value.items == ex.payload.value.items
                         && (page >= 0 ==> (r.value.hasMore <==> ex.payload.value.count > page * ItemsPerPage)))
  {
    match Interpret(send(ItemsRequest(c, collectionID, page)))
    case Failure(e) => Failure(e)
    case Success(body) => Success(ImageDrops(body.items, HasMore(body.count, page)))
  }

  /** The record of one collection. */
  function GetCollectionByID(
    c: ClientConfig, send: Request -> Exchange<GetCollectionResponse>, collectionID: int
  ): (r: Result<CollectionItem, FetchError>)
    ensures var ex := send(CollectionRequest(c, collectionID));
      && (r.Success? <==> ex.Response? && ex.status == Http.StatusOK && ex.payload.Decoded?)
      && (r.Failure? ==> r.error == Interpret(ex).error)
      && (r.Success? ==> r.value == ex.payload.value.item)
  {
    match Interpret(send(CollectionRequest(c, collectionID)))
    case Failure(e) => Failure(e)
    case Success(body) => Success(body.item)
  }

  /** An empty collection never reports more pages. */
  lemma EmptyCollectionHasNoMore(page: int)
    ensures !HasMore(0, page)
  {
  }

  /** Because the rule compares with page * 50 rather than (page + 1) * 50, a non-empty
      collection always reports more pages on page 0. */
  lemma FirstPageHasMore(count: int)
    requires count > 0
    ensures HasMore(count, 0)
  {
  }

  /** The page at which a client with a fixed count first reports no more pages. */
  function StopPage(count: int): (p: nat)
    ensures !HasMore(count, p)
    ensures forall q :: 0 <= q < p ==> HasMore(count, q)
  {
    if count <= 0 then 0
    else
      var p := (count + ItemsPerPage - 1) / ItemsPerPage;
      assert count <= p * ItemsPerPage;
      assert forall q :: 0 <= q < p ==> q * ItemsPerPage <= (p - 1) * ItemsPerPage < count;
      p
  }

  /** With the rule as written the page at which the loop stops lies past the last item:
      pages 0 .. StopPage(count) - 1 already cover all `count` items, so one further page
      is requested for every non-empty collection. */
  lemma {:induction false} StopPageIsPastTheItems(count: int)
    requires count > 0
    ensures StopPage(count) >= 1
    ensures StopPage(count) * ItemsPerPage >= count
    ensures (StopPage(count) - 1) * ItemsPerPage < count
  {
    var p := StopPage(count);
    assert p == (count + 49) / 50;
    assert p * 50 <= count + 49;
  }
}
