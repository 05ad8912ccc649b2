/** eos/client.go: the client the gateway uses to reach EOS, a gRPC metadata
    service (stat, find, exec) and an HTTP data service (download, upload).
    Every remote call is a parameter: a function from the request the client
    builds to the server's answer, or the finite sequence of HTTP replies. */
module EosClient {
  import opened Common
  import opened Text
  import opened Md
  import opened Http

  /** The identity a request impersonates (uint64 values). */
  datatype Auth = Auth(uid: nat, gid: nat)

  /** Auth.Username: the name the user database gives the uid, or
      "<unknown>" when the lookup fails. The lookup is a parameter. */
  function Username(a: Auth, lookupUser: nat -> Option<string>): (r: string)
    ensures lookupUser(a.uid).None? ==> r == "<unknown>"
    ensures lookupUser(a.uid).Some? ==> r == lookupUser(a.uid).value
  {
    match lookupUser(a.uid)
    case None => "<unknown>"
    case Some(name) => name
  }

  datatype Config = Config(grpcUrl: string, httpUrl: string, authKey: string)

  /** The state a Client keeps once built (the gRPC connection is not modelled). */
  datatype Client = Client(httpUrl: string, authKey: string)

  /** Config.Validate, with url.Parse as `parseError` (None when the text parses).
      The checks run in order: http url present and parsing, grpc url present
      and parsing, auth key present. */
  function Validate(c: Config, parseError: string -> Option<Error>): (r: Status)
    ensures r.None? <==> c.httpUrl != "" && parseError(c.httpUrl).None? &&
                         c.grpcUrl != "" && parseError(c.grpcUrl).None? && c.authKey != ""
    ensures c.httpUrl == "" ==> r == Some(Message("missing http url"))
    ensures c.httpUrl != "" && parseError(c.httpUrl).Some? ==>
      r == Some(Wrapped("error parsing http url", parseError(c.httpUrl).value))
    ensures c.httpUrl != "" && parseError(c.httpUrl).None? && c.grpcUrl == "" ==>
      r == Some(Message("missing grpc url"))
    ensures c.httpUrl != "" && parseError(c.httpUrl).None? && c.grpcUrl != "" && parseError(c.grpcUrl).Some? ==>
      r == Some(Wrapped("error parsing grpc url", parseError(c.grpcUrl).value))
    ensures c.httpUrl != "" && parseError(c.httpUrl).None? && c.grpcUrl != "" && parseError(c.grpcUrl).None? && c.authKey == "" ==>
      r == Some(Message("missing authorization key"))
  {
    if c.httpUrl == "" then Some(Message("missing http url"))
    else if parseError(c.httpUrl).Some? then Some(Wrapped("error parsing http url", parseError(c.httpUrl).value))
    else if c.grpcUrl == "" then Some(Message("missing grpc url"))
    else if parseError(c.grpcUrl).Some? then Some(Wrapped("error parsing grpc url", parseError(c.grpcUrl).value))
    else if c.authKey == "" then Some(Message("missing authorization key"))
    else None
  }

  /** NewClient: a client exists only for a configuration that validates and
      a gRPC connection that could be set up (`dialError` is None); it keeps
      the HTTP URL and the key. */
  function NewClient(cfg: Config, parseError: string -> Option<Error>, dialError: Option<Error>): (r: Result<Client>)
    ensures r.Ok? <==> Validate(cfg, parseError).None? && dialError.None?
    ensures Validate(cfg, parseError).Some? ==> r == Err(Validate(cfg, parseError).value)
    ensures Validate(cfg, parseError).None? && dialError.Some? ==>
      r == Err(Wrapped("error getting grpc client", dialError.value))
    ensures r.Ok? ==> r.value.httpUrl == cfg.httpUrl && r.value.authKey == cfg.authKey
  {
    var v := Validate(cfg, parseError);
    if v.Some? then Err(v.value)
    else if dialError.Some? then Err(Wrapped("error getting grpc client", dialError.value))
    else Ok(Client(cfg.httpUrl, cfg.authKey))
  }

  /** The role and key every gRPC request carries (initNsRequest's content). */
  function RoleOf(c: Client, auth: Auth): Role {
    Role(auth.uid, auth.gid, c.authKey)
  }

  /** Client.Stat: the first answer of the MD stream. A failed call is returned
      as it is; a stream with nothing to receive means the path does not exist. */
  function Stat(c: Client, auth: Auth, path: string, md: StatRequest -> Result<Stream>): (r: Result<MD>)
    ensures var res := md(StatRequest(path, RoleOf(c, auth)));
      && (res.Err? ==> r == Err(res.error))
      && (res.Ok? && res.value.items == [] ==> r == Err(NoSuchResource(path)))
      && (res.Ok? && res.value.items != [] ==> r == Ok(res.value.items[0]))
  {
    var res := md(StatRequest(path, RoleOf(c, auth)));
    if res.Err? then Err(res.error)
    else if res.value.items == [] then Err(NoSuchResource(path))
    else Ok(res.value.items[0])
  }

  /** A failed stat of a reachable server is always "no such resource" for the
      path asked about, never a transport error. */
  lemma StatFailureIsNoSuchResource(c: Client, auth: Auth, path: string, md: StatRequest -> Result<Stream>)
    requires md(StatRequest(path, RoleOf(c, auth))).Ok?
    ensures Stat(c, auth, path, md).Err? ==> Stat(c, auth, path, md).error == NoSuchResource(path)
    ensures Stat(c, auth, path, md).Err? <==> md(StatRequest(path, RoleOf(c, auth))).value.items == []
  {
  }

  /** eos.ListDirFilters. The client declares only the prefix; `recursive`
      is added here because eoss3/eoss3.go sets such a field when it builds
      the filters, and the client's ListDir never reads it. */
  datatype ListDirFilters = ListDirFilters(prefix: Option<string>, recursive: bool)

  /** The find request ListDir sends. */
  function ListDirRequest(c: Client, auth: Auth, dir: string, filters: Option<ListDirFilters>): (r: FindRequest)
    ensures r.path == dir && r.role == RoleOf(c, auth)
    ensures r.maxdepth == 1
    ensures r.selection.Some? <==> filters.Some?
    ensures filters.Some? ==>
      && r.selection.value.select
      && (r.selection.value.regexpFilename.Some? <==> filters.value.prefix.Some?)
      && (filters.value.prefix.Some? ==> r.selection.value.regexpFilename.value == "^" + filters.value.prefix.value)
  {
    var selection :=
      if filters.None? then None
      else Some(Selection(true, if filters.value.prefix.Some? then Some("^" + filters.value.prefix.value) else None));
    FindRequest(dir, RoleOf(c, auth), 1, selection)
  }

  /** The recursive flag changes nothing in what is asked of the server. */
  lemma ListDirIgnoresRecursive(c: Client, auth: Auth, dir: string, prefix: Option<string>)
    ensures ListDirRequest(c, auth, dir, Some(ListDirFilters(prefix, true)))
         == ListDirRequest(c, auth, dir, Some(ListDirFilters(prefix, false)))
  {
  }

  /** Client.ListDir: the entries handed to the callback `f`, in the order
      they are handed, and the returned error. The server's first entry is the
      listed directory itself and is skipped; io.EOF ends the listing cleanly. */
  method ListDir(c: Client, auth: Auth, dir: string, filters: Option<ListDirFilters>,
                 find: FindRequest -> Result<Stream>)
    returns (delivered: seq<MD>, err: Status)
    ensures var res := find(ListDirRequest(c, auth, dir, filters));
      && (res.Err? ==> delivered == [] && err == Some(res.error))
      && (res.Ok? ==>
            && |delivered| == (if res.value.items == [] then 0 else |res.value.items| - 1)
            && (forall j :: 0 <= j < |delivered| ==> delivered[j] == res.value.items[j + 1])
            && (res.value.end.Eof? ==> err.None?)
            && (res.value.end.Broken? ==> err == Some(res.value.end.err)))
  {
    delivered := [];
    var res := find(ListDirRequest(c, auth, dir, filters));
    if res.Err? {
      err := Some(res.error);
      return;
    }
    var items := res.value.items;
    var k := 0;
    var i := 0;
    while k < |items|
      invariant 0 <= k <= |items| && i == k
      invariant |delivered| == (if k == 0 then 0 else k - 1)
      invariant forall j :: 0 <= j < |delivered| ==> delivered[j] == items[j + 1]
    {
      var r := items[k];
      k := k + 1;
      i := i + 1;
      if i == 1 {
        continue;
      }
      delivered := delivered + [r];
    }
    match res.value.end
    case Eof => err := None;
    case Broken(e) => err := Some(e);
  }

  function MkdirRequest(c: Client, auth: Auth, path: string, mode: int): NsRequest {
    NsRequest(RoleOf(c, auth), NsCommand.Mkdir(path, true, mode))
  }

  function RmdirRequest(c: Client, auth: Auth, path: string): NsRequest {
    NsRequest(RoleOf(c, auth), NsCommand.Rmdir(path))
  }

  function RmRequest(c: Client, auth: Auth, path: string): NsRequest {
    NsRequest(RoleOf(c, auth), NsCommand.Rm(path))
  }

  /** How Mkdir and Rmdir read an Exec answer: a failed call is returned as
      it is, a nil error or code 0 is success, any other code fails with the
      server's message. */
  function ExecStatus(res: Result<NsResponse>): (r: Status)
    ensures res.Err? ==> r == Some(res.error)
    ensures res.Ok? ==> (r.None? <==> res.value.error.None? || res.value.error.value.code == 0)
    ensures res.Ok? && r.Some? ==> r.value == Remote(res.value.error.value.msg)
  {
    if res.Err? then Some(res.error)
    else if res.value.error.Some? && res.value.error.value.code != 0 then Some(Remote(res.value.error.value.msg))
    else None
  }

  /** Client.Mkdir: a recursive mkdir with the given mode. */
  function Mkdir(c: Client, auth: Auth, path: string, mode: int, exec: NsRequest -> Result<NsResponse>): (r: Status)
    ensures var res := exec(MkdirRequest(c, auth, path, mode));
      && (res.Err? ==> r == Some(res.error))
      && (res.Ok? ==> (r.None? <==> res.value.error.None? || res.value.error.value.code == 0))
      && (res.Ok? && r.Some? ==> r.value == Remote(res.value.error.value.msg))
  {
    ExecStatus(exec(MkdirRequest(c, auth, path, mode)))
  }

  /** Client.Rmdir. */
  function Rmdir(c: Client, auth: Auth, path: string, exec: NsRequest -> Result<NsResponse>): (r: Status)
    ensures var res := exec(RmdirRequest(c, auth, path));
      && (res.Err? ==> r == Some(res.error))
      && (res.Ok? ==> (r.None? <==> res.value.error.None? || res.value.error.value.code == 0))
      && (res.Ok? && r.Some? ==> r.value == Remote(res.value.error.value.msg))
  {
    ExecStatus(exec(RmdirRequest(c, auth, path)))
  }

  /** Client.Remove as written: it reads the error code without checking that
      the error part is there, so an answer without one is a nil dereference. */
  function RemoveAsWritten(c: Client, auth: Auth, path: string, exec: NsRequest -> Result<NsResponse>): (r: Status)
    ensures var res := exec(RmRequest(c, auth, path));
      && (res.Err? ==> r == Some(res.error))
      && (res.Ok? && res.value.error.None? ==> r.Some? && r.value.Crash?)
      && (res.Ok? && res.value.error.Some? ==> (r.None? <==> res.value.error.value.code == 0))
  {
    var res := exec(RmRequest(c, auth, path));
    if res.Err? then Some(res.error)
    else if res.value.error.None? then Some(Crash("nil pointer dereference"))
    else if res.value.error.value.code != 0 then Some(Remote(res.value.error.value.msg))
    else None
  }

  /** Client.Remove read the way Mkdir and Rmdir read their answer. */
  function Remove(c: Client, auth: Auth, path: string, exec: NsRequest -> Result<NsResponse>): (r: Status)
    ensures var res := exec(RmRequest(c, auth, path));
      && (res.Err? ==> r == Some(res.error))
      && (res.Ok? ==> (r.None? <==> res.value.error.None? || res.value.error.value.code == 0))
      && (res.Ok? && r.Some? ==> r.value == Remote(res.value.error.value.msg))
  {
    ExecStatus(exec(RmRequest(c, auth, path)))
  }

  /** The two readings differ only on an answer without an error part, where
      the one as written panics and the intended one succeeds. */
  lemma RemoveAsWrittenDiffers(c: Client, auth: Auth, path: string, exec: NsRequest -> Result<NsResponse>)
    ensures var res := exec(RmRequest(c, auth, path));
      && (res.Ok? && res.value.error.None? ==>
            RemoveAsWritten(c, auth, path, exec).value.Crash? && Remove(c, auth, path, exec).None?)
      && (res.Err? || res.value.error.Some? ==> RemoveAsWritten(c, auth, path, exec) == Remove(c, auth, path, exec))
  {
  }

  /** A successful rm whose answer leaves the error part nil: the concrete
      input on which the code as written panics. */
  lemma RemoveAsWrittenPanicsOnNilError(c: Client, auth: Auth, path: string)
    ensures RemoveAsWritten(c, auth, path, _ => Ok(NsResponse(None))) == Some(Crash("nil pointer dereference"))
    ensures Remove(c, auth, path, _ => Ok(NsResponse(None))) == None
  {
  }

  /** The query that impersonates `auth` on the HTTP service. */
  function IdentityQuery(uid: int, gid: int): string {
    "?eos.ruid=" + FormatInt(uid) + "&eos.rgid=" + FormatInt(gid)
  }

  /** The URL before '#' is escaped: the base without trailing '/', one '/',
      the path without leading '/', then the identity query. */
  function RawHttpUrl(base: string, path: string, uid: int, gid: int): string {
    TrimRightSlash(base) + "/" + TrimLeftSlash(path) + IdentityQuery(uid, gid)
  }

  /** Client.buildFullHttpUrl. */
  function BuildFullHttpUrl(c: Client, auth: Auth, path: string): (r: string)
    ensures '#' !in r
    ensures !Contains(RawHttpUrl(c.httpUrl, path, auth.uid, auth.gid), "%23") ==>
      UnescapeHash(r) == RawHttpUrl(c.httpUrl, path, auth.uid, auth.gid)
  {
    var raw := RawHttpUrl(c.httpUrl, path, auth.uid, auth.gid);
    if !Contains(raw, "%23") then UnescapeEscapeHash(raw); EscapeHash(raw)
    else EscapeHash(raw)
  }

  lemma {:induction false} NoHashInTrims(s: string)
    requires '#' !in s
    ensures '#' !in TrimRightSlash(s) && '#' !in TrimLeftSlash(s)
    decreases |s|
  {
    if |s| > 0 && s[|s| - 1] == '/' {
      NoHashInTrims(s[..|s| - 1]);
    }
    if |s| > 0 && s[0] == '/' {
      NoHashInTrims(s[1..]);
    }
  }

  lemma FormatIntNoHash(i: int)
    ensures '#' !in FormatInt(i)
  {
    var s := FormatInt(i);
    if i >= 0 {
      assert forall k :: 0 <= k < |s| ==> IsDigit(s[k]);
    } else {
      var d := FormatNat(-i);
      assert s == "-" + d;
      assert forall k :: 0 <= k < |d| ==> IsDigit(d[k]);
    }
  }

  /** A URL built from a base and a path without '#' is the raw URL itself:
      exactly one '/' between base and path, and the identity query at the end. */
  lemma BuildFullHttpUrlWithoutHash(c: Client, auth: Auth, path: string)
    requires '#' !in c.httpUrl && '#' !in path
    ensures BuildFullHttpUrl(c, auth, path) == RawHttpUrl(c.httpUrl, path, auth.uid, auth.gid)
    ensures var r := BuildFullHttpUrl(c, auth, path);
      HasSuffix(r, IdentityQuery(auth.uid, auth.gid))
  {
    var head := TrimRightSlash(c.httpUrl) + "/" + TrimLeftSlash(path);
    var query := IdentityQuery(auth.uid, auth.gid);
    NoHashInTrims(c.httpUrl);
    NoHashInTrims(path);
    FormatIntNoHash(auth.uid);
    FormatIntNoHash(auth.gid);
    assert '#' !in query;
    assert RawHttpUrl(c.httpUrl, path, auth.uid, auth.gid) == head + query;
    EscapeHashIdentity(head + query);
    assert (head + query)[|head + query| - |query|..] == query;
  }

  /** What Download yields for the built URL: a refused URL fails at once,
      otherwise the GET loop decides. */
  function DownloadOutcome(c: Client, auth: Auth, user: string, path: string,
                           newRequestError: string -> Option<Error>,
                           replies: seq<Result<Response>>): (Option<Result<Response>>, seq<Request>)
  {
    var url := BuildFullHttpUrl(c, auth, path);
    if newRequestError(url).Some? then (Some(Err(newRequestError(url).value)), [])
    else GetLoop(NewRequest(Get, url, false), c.authKey, user, newRequestError, replies, 0)
  }

  /** Client.Download: the GET loop from the built URL. On success the
      verdict is the final 200 answer, whose body and content length are
      returned. */
  method Download(c: Client, auth: Auth, user: string, path: string,
                  newRequestError: string -> Option<Error>, replies: seq<Result<Response>>)
    returns (result: Option<Result<Response>>, trace: seq<Request>)
    ensures var url := BuildFullHttpUrl(c, auth, path);
      && (newRequestError(url).Some? ==> result == Some(Err(newRequestError(url).value)) && trace == [])
      && (newRequestError(url).None? ==>
            (result, trace) == GetLoop(NewRequest(Get, url, false), c.authKey, user, newRequestError, replies, 0))
    ensures (result, trace) == DownloadOutcome(c, auth, user, path, newRequestError, replies)
  {
    var url := BuildFullHttpUrl(c, auth, path);
    result, trace := FollowGet(url, c.authKey, user, newRequestError, replies);
  }

  const ContentLengthHeader := "Content-Length"

  /** The PUT re-issued to the Location of a 307: it carries the data and
      its length. */
  function RedirectedPut(loc: string, length: nat): (r: Request)
    ensures r.verb == Put && r.url == loc && r.hasBody
    ensures ContentLengthHeader in r.header && r.header[ContentLengthHeader] == FormatNat(length)
  {
    Request(Put, loc, map[ContentLengthHeader := FormatNat(length)], true)
  }

  /** A reply the PUT loop follows: only a 307 with a usable Location. */
  predicate FollowsPut(reply: Result<Response>, newRequestError: string -> Option<Error>) {
    && reply.Ok? && reply.value.status == StatusTemporaryRedirect
    && reply.value.location.Ok? && newRequestError(reply.value.location.value).None?
  }

  /** What one reply to request `url` decides in the upload loop: None when
      the loop follows it, otherwise the loop's verdict. */
  function PutVerdict(reply: Result<Response>, url: string,
                      newRequestError: string -> Option<Error>): (v: Option<Status>)
    ensures v.None? <==> FollowsPut(reply, newRequestError)
  {
    if reply.Err? then Some(Some(reply.error))
    else if reply.value.status == StatusTemporaryRedirect then
      if reply.value.location.Err? then Some(Some(reply.value.location.error))
      else if newRequestError(reply.value.location.value).Some? then
        Some(newRequestError(reply.value.location.value))
      else None
    else if reply.value.status != StatusOK && reply.value.status != StatusCreated then
      Some(Some(StatusError(url, reply.value.status)))
    else Some(None)
  }

  /** The upload loop from request `req` on, answered by `replies[k..]`: the
      verdict (None while still redirected when the replies run out) and the
      requests sent. */
  function PutLoop(req: Request, authKey: string, user: string, length: nat,
                   newRequestError: string -> Option<Error>,
                   replies: seq<Result<Response>>, k: nat): (Option<Status>, seq<Request>)
    requires k <= |replies|
    decreases |replies| - k
  {
    if k == |replies| then (None, [])
    else
      var sent := WithGatewayHeaders(req, authKey, user);
      var verdict := PutVerdict(replies[k], sent.url, newRequestError);
      if verdict.Some? then (verdict, [sent])
      else
        var next := PutLoop(RedirectedPut(replies[k].value.location.value, length), authKey, user, length,
                            newRequestError, replies, k + 1);
        (next.0, [sent] + next.1)
  }

  /** Every attempt is a PUT with the gateway headers; the first is the
      starting request, each later one goes to the Location of a 307 and
      carries the data and the Content-Length header. */
  lemma PutLoopAttempts(req: Request, authKey: string, user: string, length: nat,
                        newRequestError: string -> Option<Error>,
                        replies: seq<Result<Response>>, k: nat)
    requires k <= |replies|
    requires req.verb == Put
    ensures var trace := PutLoop(req, authKey, user, length, newRequestError, replies, k).1;
      && |trace| <= |replies| - k
      && (k < |replies| ==> |trace| >= 1 && trace[0].url == req.url && trace[0].hasBody == req.hasBody)
      && (forall j :: 0 <= j < |trace| ==> trace[j].verb == Put && HasGatewayHeaders(trace[j], authKey, user))
      && (forall i :: k <= i < k + |trace| - 1 ==>
            FollowsPut(replies[i], newRequestError) && replies[i].value.location.value == trace[i - k + 1].url)
      && (forall j :: 0 < j < |trace| ==>
            trace[j].hasBody && ContentLengthHeader in trace[j].header
            && trace[j].header[ContentLengthHeader] == FormatNat(length))
  {
    PutLoopShape(req, authKey, user, length, newRequestError, replies, k);
    PutLoopFollows(req, authKey, user, length, newRequestError, replies, k);
  }

  /** Following one 307: the request goes out, and the loop carries on with
      the data sent to the Location. */
  lemma PutLoopStep(req: Request, authKey: string, user: string, length: nat,
                    newRequestError: string -> Option<Error>,
                    replies: seq<Result<Response>>, k: nat)
    requires k < |replies| && FollowsPut(replies[k], newRequestError)
    ensures var nreq := RedirectedPut(replies[k].value.location.value, length);
      var next := PutLoop(nreq, authKey, user, length, newRequestError, replies, k + 1);
      PutLoop(req, authKey, user, length, newRequestError, replies, k)
        == (next.0, [WithGatewayHeaders(req, authKey, user)] + next.1)
  {
  }

  /** The requests of the upload loop: one per reply at most, the first the
      starting request, every one a PUT with the gateway headers, and every
      later one carrying the data and its length. */
  lemma {:induction false} PutLoopShape(req: Request, authKey: string, user: string, length: nat,
                                        newRequestError: string -> Option<Error>,
                                        replies: seq<Result<Response>>, k: nat)
    requires k <= |replies|
    requires req.verb == Put
    ensures var trace := PutLoop(req, authKey, user, length, newRequestError, replies, k).1;
      && |trace| <= |replies| - k
      && (k < |replies| ==> |trace| >= 1 && trace[0].url == req.url && trace[0].hasBody == req.hasBody)
      && (forall j :: 0 <= j < |trace| ==> trace[j].verb == Put && HasGatewayHeaders(trace[j], authKey, user))
      && (forall j :: 0 < j < |trace| ==>
            trace[j].hasBody && ContentLengthHeader in trace[j].header
            && trace[j].header[ContentLengthHeader] == FormatNat(length))
    decreases |replies| - k
  {
    if k < |replies| && FollowsPut(replies[k], newRequestError) {
      var nreq := RedirectedPut(replies[k].value.location.value, length);
      PutLoopShape(nreq, authKey, user, length, newRequestError, replies, k + 1);
      PutLoopStep(req, authKey, user, length, newRequestError, replies, k);
      var trace := PutLoop(req, authKey, user, length, newRequestError, replies, k).1;
      var rest := PutLoop(nreq, authKey, user, length, newRequestError, replies, k + 1).1;
      assert trace == [WithGatewayHeaders(req, authKey, user)] + rest;
      if k + 1 < |replies| {
        assert rest[0] == WithGatewayHeaders(nreq, authKey, user);
        WithGatewayHeadersKeeps(nreq, authKey, user, ContentLengthHeader);
      }
    }
  }

  /** Each request of `trace` after the first went to the Location of the
      reply before it (replies counted from `k`), a 307 the loop follows. */
  predicate PutChain(trace: seq<Request>, replies: seq<Result<Response>>, k: nat,
                     newRequestError: string -> Option<Error>) {
    forall i :: k <= i < |replies| && i < k + |trace| - 1 ==>
      FollowsPut(replies[i], newRequestError) && replies[i].value.location.value == trace[i - k + 1].url
  }

  lemma {:induction false} PutLoopFollows(req: Request, authKey: string, user: string, length: nat,
                                          newRequestError: string -> Option<Error>,
                                          replies: seq<Result<Response>>, k: nat)
    requires k <= |replies|
    ensures PutChain(PutLoop(req, authKey, user, length, newRequestError, replies, k).1, replies, k, newRequestError)
    decreases |replies| - k
  {
    if k < |replies| && FollowsPut(replies[k], newRequestError) {
      var nreq := RedirectedPut(replies[k].value.location.value, length);
      var rest := PutLoop(nreq, authKey, user, length, newRequestError, replies, k + 1).1;
      PutLoopStep(req, authKey, user, length, newRequestError, replies, k);
      PutLoopFollows(nreq, authKey, user, length, newRequestError, replies, k + 1);
      PutLoopFirst(nreq, authKey, user, length, newRequestError, replies, k + 1);
      PutChainCons(WithGatewayHeaders(req, authKey, user), rest, newRequestError, replies, k);
    } else {
      PutLoopStops(req, authKey, user, length, newRequestError, replies, k);
    }
  }

  /** The first request the loop sends is the one it started with. */
  lemma PutLoopFirst(req: Request, authKey: string, user: string, length: nat,
                     newRequestError: string -> Option<Error>,
                     replies: seq<Result<Response>>, k: nat)
    requires k <= |replies|
    ensures var trace := PutLoop(req, authKey, user, length, newRequestError, replies, k).1;
      k < |replies| ==> |trace| >= 1 && trace[0].url == req.url
  {
  }

  /** A reply the loop does not follow ends it with that reply's verdict. */
  lemma PutLoopHalts(req: Request, authKey: string, user: string, length: nat,
                     newRequestError: string -> Option<Error>,
                     replies: seq<Result<Response>>, k: nat)
    requires k < |replies| && !FollowsPut(replies[k], newRequestError)
    ensures var sent := WithGatewayHeaders(req, authKey, user);
      PutLoop(req, authKey, user, length, newRequestError, replies, k)
        == (PutVerdict(replies[k], sent.url, newRequestError), [sent])
  {
  }

  /** A reply the loop does not follow ends it after that one request. */
  lemma PutLoopStops(req: Request, authKey: string, user: string, length: nat,
                     newRequestError: string -> Option<Error>,
                     replies: seq<Result<Response>>, k: nat)
    requires k <= |replies|
    requires k < |replies| ==> !FollowsPut(replies[k], newRequestError)
    ensures |PutLoop(req, authKey, user, length, newRequestError, replies, k).1| <= 1
  {
  }

  /** One followed 307 in front of a chain of them is a longer chain. */
  lemma PutChainCons(sent: Request, rest: seq<Request>, newRequestError: string -> Option<Error>,
                     replies: seq<Result<Response>>, k: nat)
    requires k < |replies| && FollowsPut(replies[k], newRequestError)
    requires rest != [] ==> rest[0].url == replies[k].value.location.value
    requires PutChain(rest, replies, k + 1, newRequestError)
    ensures PutChain([sent] + rest, replies, k, newRequestError)
  {
    var trace := [sent] + rest;
    forall i | k <= i < |replies| && i < k + |trace| - 1
      ensures FollowsPut(replies[i], newRequestError) && replies[i].value.location.value == trace[i - k + 1].url
    {
      assert trace[i - k + 1] == rest[i - k];
    }
  }

  /** The loop runs out of replies exactly when every reply was one it
      follows, and then it sent one request per reply. */
  lemma {:induction false} PutLoopExhausted(req: Request, authKey: string, user: string, length: nat,
                                          newRequestError: string -> Option<Error>,
                                          replies: seq<Result<Response>>, k: nat)
    requires k <= |replies|
    ensures var (result, trace) := PutLoop(req, authKey, user, length, newRequestError, replies, k);
      && |trace| <= |replies| - k
      && (result.None? <==> forall j :: k <= j < |replies| ==> FollowsPut(replies[j], newRequestError))
      && (result.None? ==> |trace| == |replies| - k)
    decreases |replies| - k
  {
    if k < |replies| && FollowsPut(replies[k], newRequestError) {
      var nreq := RedirectedPut(replies[k].value.location.value, length);
      PutLoopExhausted(nreq, authKey, user, length, newRequestError, replies, k + 1);
      PutLoopStep(req, authKey, user, length, newRequestError, replies, k);
    }
  }

  /** The upload succeeds exactly when the last answer is 200 or 201; a 302,
      unlike in the GET loop, is not followed and fails with the status. */
  lemma {:induction false} PutLoopOutcome(req: Request, authKey: string, user: string, length: nat,
                                          newRequestError: string -> Option<Error>,
                                          replies: seq<Result<Response>>, k: nat)
    requires k <= |replies|
    ensures var (result, trace) := PutLoop(req, authKey, user, length, newRequestError, replies, k);
      |trace| <= |replies| - k && PutSettledOn(result, trace, replies, k, newRequestError)
    decreases |replies| - k
  {
    if k < |replies| && FollowsPut(replies[k], newRequestError) {
      var nreq := RedirectedPut(replies[k].value.location.value, length);
      PutLoopOutcome(nreq, authKey, user, length, newRequestError, replies, k + 1);
      PutLoopStep(req, authKey, user, length, newRequestError, replies, k);
      var (r2, t2) := PutLoop(nreq, authKey, user, length, newRequestError, replies, k + 1);
      PutSettledCons(WithGatewayHeaders(req, authKey, user), r2, t2, replies, k, newRequestError);
    }
  }

  /** A verdict the upload loop reached on the last reply it read,
      `replies[k + |trace| - 1]`: that reply was not followed, 200 and 201
      are the only successes, a transport error is passed on, and any other
      final status but 307 is an error naming the last URL and the status. */
  predicate PutSettledOn(result: Option<Status>, trace: seq<Request>,
                         replies: seq<Result<Response>>, k: nat,
                         newRequestError: string -> Option<Error>) {
    result.Some? ==>
      && |trace| >= 1 && k + |trace| - 1 < |replies|
      && var last := replies[k + |trace| - 1];
      && !FollowsPut(last, newRequestError)
      && (result.value.None? <==>
            last.Ok? && (last.value.status == StatusOK || last.value.status == StatusCreated))
      && (last.Err? ==> result.value == Some(last.error))
      && (last.Ok? && last.value.status !in {StatusOK, StatusCreated, StatusTemporaryRedirect} ==>
            result.value == Some(StatusError(trace[|trace| - 1].url, last.value.status)))
  }

  /** A request put in front of a settled run, one reply earlier, is still settled. */
  lemma PutSettledCons(sent: Request, result: Option<Status>, rest: seq<Request>,
                       replies: seq<Result<Response>>, k: nat,
                       newRequestError: string -> Option<Error>)
    requires PutSettledOn(result, rest, replies, k + 1, newRequestError)
    ensures PutSettledOn(result, [sent] + rest, replies, k, newRequestError)
  {
    if result.Some? {
      var trace := [sent] + rest;
      assert trace[|trace| - 1] == rest[|rest| - 1];
    }
  }

  /** The upload loop itself: set the headers, send, follow only a 307, with
      the data attached from then on, and stop on anything else. */
  method FollowPut(url: string, authKey: string, user: string, length: nat,
                   newRequestError: string -> Option<Error>, replies: seq<Result<Response>>)
    returns (result: Option<Status>, trace: seq<Request>)
    ensures newRequestError(url).Some? ==> result == Some(newRequestError(url)) && trace == []
    ensures newRequestError(url).None? ==>
      (result, trace) == PutLoop(NewRequest(Put, url, false), authKey, user, length, newRequestError, replies, 0)
  {
    trace := [];
    var err := newRequestError(url);
    if err.Some? {
      result := Some(err);
      return;
    }
    var req := NewRequest(Put, url, false);
    var k := 0;
    ghost var whole := PutLoop(req, authKey, user, length, newRequestError, replies, 0);
    while k < |replies|
      invariant 0 <= k <= |replies|
      invariant whole.0 == PutLoop(req, authKey, user, length, newRequestError, replies, k).0
      invariant whole.1 == trace + PutLoop(req, authKey, user, length, newRequestError, replies, k).1
    {
      ghost var before := trace;
      ghost var cur := req;
      ghost var rest := PutLoop(req, authKey, user, length, newRequestError, replies, k);
      if !FollowsPut(replies[k], newRequestError) {
        PutLoopHalts(req, authKey, user, length, newRequestError, replies, k);
      }
      req := WithGatewayHeaders(req, authKey, user);
      trace := trace + [req];
      var reply := replies[k];
      k := k + 1;
      if reply.Err? {
        result := Some(Some(reply.error));
        return;
      }
      var res := reply.value;
      if res.status == StatusTemporaryRedirect {
        if res.location.Err? {
          result := Some(Some(res.location.error));
          return;
        }
        var loc := res.location.value;
        err := newRequestError(loc);
        if err.Some? {
          result := Some(err);
          return;
        }
        req := RedirectedPut(loc, length);
        PutLoopStep(cur, authKey, user, length, newRequestError, replies, k - 1);
        ghost var next := PutLoop(req, authKey, user, length, newRequestError, replies, k);
        assert before + rest.1 == trace + next.1;
        continue;
      }
      if res.status != StatusOK && res.status != StatusCreated {
        result := Some(Some(StatusError(req.url, res.status)));
        return;
      }
      result := Some(None);
      return;
    }
    assert trace + [] == trace;
    result := None;
  }

  /** What Upload yields for the built URL: a refused URL fails at once,
      otherwise the PUT loop decides. */
  function UploadOutcome(c: Client, auth: Auth, user: string, path: string, length: nat,
                         newRequestError: string -> Option<Error>,
                         replies: seq<Result<Response>>): (Option<Status>, seq<Request>)
  {
    var url := BuildFullHttpUrl(c, auth, path);
    if newRequestError(url).Some? then (Some(newRequestError(url)), [])
    else PutLoop(NewRequest(Put, url, false), c.authKey, user, length, newRequestError, replies, 0)
  }

  /** Client.Upload: a body-less PUT to the built URL, then the loop. */
  method Upload(c: Client, auth: Auth, user: string, path: string, length: nat,
                newRequestError: string -> Option<Error>, replies: seq<Result<Response>>)
    returns (result: Option<Status>, trace: seq<Request>)
    ensures var url := BuildFullHttpUrl(c, auth, path);
      && (newRequestError(url).Some? ==> result == Some(newRequestError(url)) && trace == [])
      && (newRequestError(url).None? ==>
            (result, trace) == PutLoop(NewRequest(Put, url, false), c.authKey, user, length, newRequestError, replies, 0))
    ensures (result, trace) == UploadOutcome(c, auth, user, path, length, newRequestError, replies)
  {
    var url := BuildFullHttpUrl(c, auth, path);
    result, trace := FollowPut(url, c.authKey, user, length, newRequestError, replies);
  }
}
