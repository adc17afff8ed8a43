/** What an HTTP GET of an asset gives back, as the downloader sees it. */
module Http {
  import opened FileSystem

  const StatusOK: int := 200

  /** The bytes of a response body that could be read, and whether reading then failed. */
  datatype Body = Body(data: seq<byte>, readFails: bool)

  /** No response (the request failed), or a status, a Content-Type header and a body. */
  datatype GetResult = GetFailed | Response(status: int, contentType: string, body: Body)
}
