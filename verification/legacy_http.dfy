/** http.go: the older HTTP client for the EOS data service. Its
    configuration carries a fixed identity (uid, gid, user name) that every
    request impersonates. */
module LegacyHttp {
  import opened Common
  import opened Text
  import opened Http
  import EosClient

  datatype HTTPConfig = HTTPConfig(serverUrl: string, authkey: string, uid: int, gid: int, username: string)

  /** HTTPConfig.Validate: the server URL is checked first, then the key. */
  function Validate(c: HTTPConfig): (r: Status)
    ensures r.None? <==> c.serverUrl != "" && c.authkey != ""
    ensures c.serverUrl == "" ==> r == Some(Message("ServerURL is empty"))
    ensures c.serverUrl != "" && c.authkey == "" ==> r == Some(Message("Authkey is empty"))
  {
    if c.serverUrl == "" then Some(Message("ServerURL is empty"))
    else if c.authkey == "" then Some(Message("Authkey is empty"))
    else None
  }

  /** EOSHTTPClient.buildFullURL: the same composition as the newer client's,
      with the configured identity; every '#' is escaped and nothing else is lost. */
  function BuildFullURL(c: HTTPConfig, path: string): (r: string)
    ensures '#' !in r
    ensures !Contains(EosClient.RawHttpUrl(c.serverUrl, path, c.uid, c.gid), "%23") ==>
      UnescapeHash(r) == EosClient.RawHttpUrl(c.serverUrl, path, c.uid, c.gid)
  {
    var raw := EosClient.RawHttpUrl(c.serverUrl, path, c.uid, c.gid);
    if !Contains(raw, "%23") then UnescapeEscapeHash(raw); EscapeHash(raw)
    else EscapeHash(raw)
  }

  /** For a non-negative identity both clients build the same URL. */
  lemma BuildFullURLAgrees(c: HTTPConfig, path: string)
    requires c.uid >= 0 && c.gid >= 0
    ensures BuildFullURL(c, path) ==
      EosClient.BuildFullHttpUrl(EosClient.Client(c.serverUrl, c.authkey), EosClient.Auth(c.uid, c.gid), path)
  {
  }

  /** EOSHTTPClient.Get: the GET redirect loop from the built URL, with the
      configured key and user name on every attempt. */
  method Get(c: HTTPConfig, path: string, newRequestError: string -> Option<Error>,
             replies: seq<Result<Response>>)
    returns (result: Option<Result<Response>>, trace: seq<Request>)
    ensures var url := BuildFullURL(c, path);
      && (newRequestError(url).Some? ==> result == Some(Err(newRequestError(url).value)) && trace == [])
      && (newRequestError(url).None? ==>
            (result, trace) == GetLoop(NewRequest(Http.Get, url, false), c.authkey, c.username, newRequestError, replies, 0))
  {
    var url := BuildFullURL(c, path);
    result, trace := FollowGet(url, c.authkey, c.username, newRequestError, replies);
  }
}
