/** The HTTP side of the EOS client: requests, responses, the impersonation
    headers, and the GET redirect-following loop that both the EOS client
    (eos/client.go, Download) and the older HTTP client (http.go, Get) run.
    A server is an abstract, finite sequence of replies, one per request
    sent; running out of replies stands for the loop going on. */
module Http {
  import opened Common
  import opened Text

  datatype Method = Get | Put

  /** An outgoing request: method, URL, header map and whether a body is
      attached (the body's bytes are not modelled). */
  datatype Request = Request(verb: Method, url: string, header: map<string, string>, hasBody: bool)

  /** What `Client.Do` yields: a status code, the outcome of `res.Location()`
      and the declared content length (-1 when unknown). */
  datatype Response = Response(status: int, location: Result<string>, contentLength: int)

  const StatusOK := 200
  const StatusCreated := 201
  const StatusFound := 302
  const StatusTemporaryRedirect := 307

  const GatewayAuthHeader := "x-gateway-authorization"
  const ForwardedForHeader := "x-forwarded-for"
  const RemoteUserHeader := "remote-user"

  /** http.NewRequestWithContext: a fresh request with an empty header. */
  function NewRequest(m: Method, url: string, hasBody: bool): (r: Request)
    ensures r.verb == m && r.url == url && r.hasBody == hasBody && r.header == map[]
  {
    Request(m, url, map[], hasBody)
  }

  /** The three `Header.Set` calls made at the top of every attempt. */
  function WithGatewayHeaders(r: Request, authKey: string, user: string): (q: Request)
    ensures q.verb == r.verb && q.url == r.url && q.hasBody == r.hasBody
    ensures HasGatewayHeaders(q, authKey, user)
  {
    var h := r.header[GatewayAuthHeader := authKey][ForwardedForHeader := "dummy"][RemoteUserHeader := user];
    Request(r.verb, r.url, h, r.hasBody)
  }

  /** Setting the gateway headers leaves every other header as it was. */
  lemma WithGatewayHeadersKeeps(r: Request, authKey: string, user: string, h: string)
    requires h in r.header && !IsGatewayHeader(h)
    ensures h in WithGatewayHeaders(r, authKey, user).header
    ensures WithGatewayHeaders(r, authKey, user).header[h] == r.header[h]
  {
  }

  predicate IsGatewayHeader(h: string) {
    h == GatewayAuthHeader || h == ForwardedForHeader || h == RemoteUserHeader
  }

  /** The request carries the gateway key, the fixed forwarded-for value and
      the impersonated user. */
  predicate HasGatewayHeaders(r: Request, authKey: string, user: string) {
    && GatewayAuthHeader in r.header && r.header[GatewayAuthHeader] == authKey
    && ForwardedForHeader in r.header && r.header[ForwardedForHeader] == "dummy"
    && RemoteUserHeader in r.header && r.header[RemoteUserHeader] == user
  }

  /** fmt.Errorf("got non OK status code from %s: %d", url, code). */
  function StatusError(url: string, status: int): Error {
    Message("got non OK status code from " + url + ": " + FormatInt(status))
  }

  predicate IsGetRedirect(status: int) {
    status == StatusFound || status == StatusTemporaryRedirect
  }

  /** A reply the GET loop follows: a 302 or 307 whose Location parses into
      a URL a new request can be made for. */
  predicate FollowsGet(reply: Result<Response>, newRequestError: string -> Option<Error>) {
    && reply.Ok? && IsGetRedirect(reply.value.status)
    && reply.value.location.Ok? && newRequestError(reply.value.location.value).None?
  }

  /** What one reply to request `url` decides: None when the loop follows
      it, otherwise the loop's verdict. */
  function GetVerdict(reply: Result<Response>, url: string,
                      newRequestError: string -> Option<Error>): (v: Option<Result<Response>>)
    ensures v.None? <==> FollowsGet(reply, newRequestError)
  {
    if reply.Err? then Some(Err(reply.error))
    else if IsGetRedirect(reply.value.status) then
      if reply.value.location.Err? then Some(Err(reply.value.location.error))
      else if newRequestError(reply.value.location.value).Some? then
        Some(Err(newRequestError(reply.value.location.value).value))
      else None
    else if reply.value.status != StatusOK then Some(Err(StatusError(url, reply.value.status)))
    else Some(Ok(reply.value))
  }

  /** The GET loop from request `req` on, answered by `replies[k..]`: the
      verdict (None when the replies run out while still being redirected)
      and the requests actually sent. */
  function GetLoop(req: Request, authKey: string, user: string,
                   newRequestError: string -> Option<Error>,
                   replies: seq<Result<Response>>, k: nat): (Option<Result<Response>>, seq<Request>)
    requires k <= |replies|
    decreases |replies| - k
  {
    if k == |replies| then (None, [])
    else
      var sent := WithGatewayHeaders(req, authKey, user);
      var verdict := GetVerdict(replies[k], sent.url, newRequestError);
      if verdict.Some? then (verdict, [sent])
      else
        var next := GetLoop(NewRequest(Get, replies[k].value.location.value, false), authKey, user,
                            newRequestError, replies, k + 1);
        (next.0, [sent] + next.1)
  }

  /** Every attempt is a body-less GET carrying the gateway headers, there is
      at most one attempt per reply, the first goes to the starting URL and
      each later one to the Location of the reply before it, which was a
      redirect the loop could follow. */
  lemma GetLoopAttempts(req: Request, authKey: string, user: string,
                        newRequestError: string -> Option<Error>,
                        replies: seq<Result<Response>>, k: nat)
    requires k <= |replies|
    requires req.verb == Get && !req.hasBody
    ensures var trace := GetLoop(req, authKey, user, newRequestError, replies, k).1;
      && |trace| <= |replies| - k
      && (k < |replies| ==> |trace| >= 1 && trace[0].url == req.url)
      && (forall j :: 0 <= j < |trace| ==>
            trace[j].verb == Get && !trace[j].hasBody && HasGatewayHeaders(trace[j], authKey, user))
      && (forall i :: k <= i < k + |trace| - 1 ==>
            FollowsGet(replies[i], newRequestError) && replies[i].value.location.value == trace[i - k + 1].url)
  {
    GetLoopShape(req, authKey, user, newRequestError, replies, k);
    GetLoopFollows(req, authKey, user, newRequestError, replies, k);
  }

  /** The requests of the GET loop: one per reply at most, the first to the
      starting URL, each a body-less GET with the gateway headers. */
  lemma {:induction false} GetLoopShape(req: Request, authKey: string, user: string,
                                        newRequestError: string -> Option<Error>,
                                        replies: seq<Result<Response>>, k: nat)
    requires k <= |replies|
    requires req.verb == Get && !req.hasBody
    ensures var trace := GetLoop(req, authKey, user, newRequestError, replies, k).1;
      && |trace| <= |replies| - k
      && (k < |replies| ==> |trace| >= 1 && trace[0].url == req.url)
      && (forall j :: 0 <= j < |trace| ==>
            trace[j].verb == Get && !trace[j].hasBody && HasGatewayHeaders(trace[j], authKey, user))
    decreases |replies| - k
  {
    if k < |replies| && FollowsGet(replies[k], newRequestError) {
      var nreq := NewRequest(Get, replies[k].value.location.value, false);
      GetLoopShape(nreq, authKey, user, newRequestError, replies, k + 1);
      var trace := GetLoop(req, authKey, user, newRequestError, replies, k).1;
      var rest := GetLoop(nreq, authKey, user, newRequestError, replies, k + 1).1;
      assert trace == [WithGatewayHeaders(req, authKey, user)] + rest;
    }
  }

  /** Each request of `trace` after the first went to the Location of the
      reply before it (replies counted from `k`), a redirect the loop follows. */
  predicate RedirectChain(trace: seq<Request>, replies: seq<Result<Response>>, k: nat,
                          newRequestError: string -> Option<Error>) {
    forall i :: k <= i < |replies| && i < k + |trace| - 1 ==>
      FollowsGet(replies[i], newRequestError) && replies[i].value.location.value == trace[i - k + 1].url
  }

  /** Following one redirect: the request goes out, and the loop carries on
      from the Location. */
  lemma GetLoopStep(req: Request, authKey: string, user: string,
                    newRequestError: string -> Option<Error>,
                    replies: seq<Result<Response>>, k: nat)
    requires k < |replies| && FollowsGet(replies[k], newRequestError)
    ensures var nreq := NewRequest(Get, replies[k].value.location.value, false);
      var next := GetLoop(nreq, authKey, user, newRequestError, replies, k + 1);
      GetLoop(req, authKey, user, newRequestError, replies, k) == (next.0, [WithGatewayHeaders(req, authKey, user)] + next.1)
  {
  }

  /** Each request after the first goes to the Location of the reply before
      it, which was a redirect the loop could follow. */
  lemma {:induction false} GetLoopFollows(req: Request, authKey: string, user: string,
                                          newRequestError: string -> Option<Error>,
                                          replies: seq<Result<Response>>, k: nat)
    requires k <= |replies|
    ensures RedirectChain(GetLoop(req, authKey, user, newRequestError, replies, k).1, replies, k, newRequestError)
    decreases |replies| - k
  {
    if k < |replies| && FollowsGet(replies[k], newRequestError) {
      var nreq := NewRequest(Get, replies[k].value.location.value, false);
      var rest := GetLoop(nreq, authKey, user, newRequestError, replies, k + 1).1;
      GetLoopStep(req, authKey, user, newRequestError, replies, k);
      GetLoopFollows(nreq, authKey, user, newRequestError, replies, k + 1);
      GetLoopShape(nreq, authKey, user, newRequestError, replies, k + 1);
      ChainCons(WithGatewayHeaders(req, authKey, user), rest, newRequestError, replies, k);
    } else {
      GetLoopStops(req, authKey, user, newRequestError, replies, k);
    }
  }

  /** A reply the loop does not follow ends it after that one request. */
  lemma GetLoopStops(req: Request, authKey: string, user: string,
                     newRequestError: string -> Option<Error>,
                     replies: seq<Result<Response>>, k: nat)
    requires k <= |replies|
    requires k < |replies| ==> !FollowsGet(replies[k], newRequestError)
    ensures |GetLoop(req, authKey, user, newRequestError, replies, k).1| <= 1
  {
  }

  /** One followed redirect in front of a chain of redirects is a longer chain. */
  lemma ChainCons(sent: Request, rest: seq<Request>, newRequestError: string -> Option<Error>,
                  replies: seq<Result<Response>>, k: nat)
    requires k < |replies| && FollowsGet(replies[k], newRequestError)
    requires rest != [] ==> rest[0].url == replies[k].value.location.value
    requires RedirectChain(rest, replies, k + 1, newRequestError)
    ensures RedirectChain([sent] + rest, replies, k, newRequestError)
  {
    var trace := [sent] + rest;
    forall i | k <= i < |replies| && i < k + |trace| - 1
      ensures FollowsGet(replies[i], newRequestError) && replies[i].value.location.value == trace[i - k + 1].url
    {
      assert trace[i - k + 1] == rest[i - k];
    }
  }

  /** The loop runs out of replies exactly when every reply was one it
      follows, and then it sent one request per reply. */
  lemma {:induction false} GetLoopExhausted(req: Request, authKey: string, user: string,
                                          newRequestError: string -> Option<Error>,
                                          replies: seq<Result<Response>>, k: nat)
    requires k <= |replies|
    ensures var (result, trace) := GetLoop(req, authKey, user, newRequestError, replies, k);
      && |trace| <= |replies| - k
      && (result.None? <==> forall j :: k <= j < |replies| ==> FollowsGet(replies[j], newRequestError))
      && (result.None? ==> |trace| == |replies| - k)
    decreases |replies| - k
  {
    if k < |replies| && FollowsGet(replies[k], newRequestError) {
      var nreq := NewRequest(Get, replies[k].value.location.value, false);
      GetLoopExhausted(nreq, authKey, user, newRequestError, replies, k + 1);
      GetLoopStep(req, authKey, user, newRequestError, replies, k);
    }
  }

  /** The loop ends successfully exactly on a 200 reply, and returns that
      reply; another final status is an error naming the URL and the status. */
  lemma {:induction false} GetLoopOutcome(req: Request, authKey: string, user: string,
                                          newRequestError: string -> Option<Error>,
                                          replies: seq<Result<Response>>, k: nat)
    requires k <= |replies|
    ensures var (result, trace) := GetLoop(req, authKey, user, newRequestError, replies, k);
      |trace| <= |replies| - k && SettledOn(result, trace, replies, k, newRequestError)
    decreases |replies| - k
  {
    if k < |replies| && FollowsGet(replies[k], newRequestError) {
      var nreq := NewRequest(Get, replies[k].value.location.value, false);
      GetLoopOutcome(nreq, authKey, user, newRequestError, replies, k + 1);
      GetLoopStep(req, authKey, user, newRequestError, replies, k);
      var (r2, t2) := GetLoop(nreq, authKey, user, newRequestError, replies, k + 1);
      SettledCons(WithGatewayHeaders(req, authKey, user), r2, t2, replies, k, newRequestError);
    }
  }

  /** A verdict the loop reached on the last reply it read, `replies[k + |trace| - 1]`:
      that reply was not followed, a 200 is the only success and is returned
      as it is, a transport error is passed on, and any other final status is
      an error naming the last URL and the status. */
  predicate SettledOn(result: Option<Result<Response>>, trace: seq<Request>,
                      replies: seq<Result<Response>>, k: nat,
                      newRequestError: string -> Option<Error>) {
    result.Some? ==>
      && |trace| >= 1 && k + |trace| - 1 < |replies|
      && var last := replies[k + |trace| - 1];
      && !FollowsGet(last, newRequestError)
      && (result.value.Ok? <==> last.Ok? && last.value.status == StatusOK)
      && (result.value.Ok? ==> result.value.value == last.value)
      && (last.Err? ==> result.value == Err(last.error))
      && (last.Ok? && !IsGetRedirect(last.value.status) && last.value.status != StatusOK ==>
            result.value == Err(StatusError(trace[|trace| - 1].url, last.value.status)))
  }

  /** A request put in front of a settled run, one reply earlier, is still settled. */
  lemma SettledCons(sent: Request, result: Option<Result<Response>>, rest: seq<Request>,
                    replies: seq<Result<Response>>, k: nat,
                    newRequestError: string -> Option<Error>)
    requires SettledOn(result, rest, replies, k + 1, newRequestError)
    ensures SettledOn(result, [sent] + rest, replies, k, newRequestError)
  {
    if result.Some? {
      var trace := [sent] + rest;
      assert trace[|trace| - 1] == rest[|rest| - 1];
    }
  }

  /** The loop itself: set the headers, send, follow a 302 or 307 to its
      Location with a fresh GET, and stop on anything else. */
  method FollowGet(url: string, authKey: string, user: string,
                   newRequestError: string -> Option<Error>,
                   replies: seq<Result<Response>>)
    returns (result: Option<Result<Response>>, trace: seq<Request>)
    ensures newRequestError(url).Some? ==> result == Some(Err(newRequestError(url).value)) && trace == []
    ensures newRequestError(url).None? ==>
      (result, trace) == GetLoop(NewRequest(Get, url, false), authKey, user, newRequestError, replies, 0)
  {
    trace := [];
    var err := newRequestError(url);
    if err.Some? {
      result := Some(Err(err.value));
      return;
    }
    var req := NewRequest(Get, url, false);
    var k := 0;
    ghost var whole := GetLoop(req, authKey, user, newRequestError, replies, 0);
    while k < |replies|
      invariant 0 <= k <= |replies|
      invariant whole.0 == GetLoop(req, authKey, user, newRequestError, replies, k).0
      invariant whole.1 == trace + GetLoop(req, authKey, user, newRequestError, replies, k).1
    {
      ghost var before := trace;
      ghost var rest := GetLoop(req, authKey, user, newRequestError, replies, k);
      req := WithGatewayHeaders(req, authKey, user);
      trace := trace + [req];
      var reply := replies[k];
      k := k + 1;
      if reply.Err? {
        result := Some(Err(reply.error));
        return;
      }
      var res := reply.value;
      if res.status == StatusFound || res.status == StatusTemporaryRedirect {
        if res.location.Err? {
          result := Some(Err(res.location.error));
          return;
        }
        var loc := res.location.value;
        err := newRequestError(loc);
        if err.Some? {
          result := Some(Err(err.value));
          return;
        }
        req := NewRequest(Get, loc, false);
        ghost var next := GetLoop(req, authKey, user, newRequestError, replies, k);
        assert before + rest.1 == trace + next.1;
        continue;
      }
      if res.status != StatusOK {
        result := Some(Err(StatusError(req.url, res.status)));
        return;
      }
      result := Some(Ok(res));
      return;
    }
    assert trace + [] == trace;
    result := None;
  }
}
