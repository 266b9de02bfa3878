/** The connection layer of the hierarchy generation, `DcnmRestApi` in
    dcnm/heirarchy/DCNM_connect.py, as a state machine over a session record.
    Every request consumes the next reply of the network oracle; the
    credential prompt, TLS, the urllib3 retry adapter and logging are not
    modelled. */
module HierConnect {
  import opened Wrappers
  import opened Json
  import opened Errors
  import opened Http
  import Text

  /** The mutable state of a `DcnmRestApi` object that the decisions read:
      the auth flag, the token held in `headers` and in `txt_headers`, the
      dry-run flag, the logon retry count and the controller's base URL. */
  datatype Session = Session(
    auth: bool,
    token: Option<Value>,
    txtToken: Option<Value>,
    dryrun: bool,
    retries: int,
    physical: string)

  /** A session plus every request sent so far. */
  datatype Conn = Conn(s: Session, sent: seq<Req>)

  /** The outcome of one call: what it returned or raised, and the state
      it left behind. */
  datatype Out<T> = Out(r: Result<T, Error>, c: Conn)

  /** A fresh object: not authenticated and holding no token. */
  function Initial(dryrun: bool, retries: int, physical: string): (s: Session)
    ensures !s.auth && s.token.None? && s.txtToken.None?
  {
    Session(false, None, None, dryrun, retries, physical)
  }

  /** `dcnm_url_prepend`. */
  function Prepend(s: Session): string {
    s.physical + "/rest"
  }

  /** The `token` property: the token held in `headers`. */
  function Token(s: Session): Option<Value> {
    s.token
  }

  function Send(c: Conn, kind: ReqKind, verb: string, url: string, prompted: bool): Conn {
    c.(sent := c.sent + [Req(kind, verb, url, prompted)])
  }

  const BadPathMsg := "Value of <path> does not appear to be formatted properly"
  const NoLogonMsg := "You have not logged in and received a Token."
  const ReLogonFailedMsg := "Token is no longer good and attempt to re-logon failed./n"

  /** The message of the exception table entry that handles a transport
      failure in `send_request` (formatting arguments omitted). */
  function RequestMsg(kind: Transport): string {
    match kind
    case ConnectTimeout => "Timeout attempting to connect with method {} to URL {} on DCNM controller: {}"
    case ConnectFailure => "Error on attempt to connect with method {} to URL {} on DCNM controller: {}"
    case HttpFailure => "HTTP Error sending {} method to URL {} on DCNM controller: {}"
    case UrlRequired => "URL Required Error sending {} method to URL {} on DCNM controller: {}"
    case OtherRequest => "Requests Error sending {} method to URL {} DCNM controller: {}"
  }

  const RequestUnknownMsg := "Unknown Error sending {} request to URL {} on DCNM: {}"

  /** The same for `check_url_connection`; HTTP and URL-required errors fall
      under the generic requests entry there. */
  function UrlCheckMsg(kind: Transport): string {
    match kind
    case ConnectTimeout => "Timeout on attempt to connect to url {} on DCNM controller: {}"
    case ConnectFailure => "Error on attempt to connect to url {} on DCNM controller: {}"
    case _ => "Please verify that the DCNM controller HTTPS URL {} is valid and try again: error message {}"
  }

  const UrlUnknownMsg := "Unknown Error checking URL {} on DCNM controller: {}"

  function LogonTransportMsg(kind: Transport): string {
    match kind
    case ConnectTimeout => "Timeout on attempt to connect to DCNM controller: {}"
    case _ => "Error on attempt to connect and authenticate with DCNM controller: {}"
  }

  /** The two exception classes whose table entry is `None`: the handler
      re-raises them unchanged. */
  predicate ReRaised(e: Error) {
    e.DcnmAuthentication? || e.DcnmConnection?
  }

  // ---------------------------------------------------------------------
  // _verify_response

  /** `_verify_response`. The `errors` table callers hand in lands in the
      positional `path` parameter, which is then overwritten by the reply's
      URL, so the table is never consulted and is not a parameter here. */
  function VerifyResponse(s: Session, resp: Response, verb: string, skipAuthcheck: bool): (r: Result<Dict, Error>)
    ensures r.Ok? <==> IsSuccess(resp.status)
    ensures r.Ok? ==> r.value == ReturnInfo(Some(resp.status), verb, resp.url, resp.text, resp.body)
    ensures r.Err? && resp.status == 500 ==>
      r.error == DcnmAuthentication(InfoArg(ReturnInfo(Some(500), "POST", resp.url, resp.text, JNull)))
    ensures r.Err? ==> (r.error.DcnmUnauthorized? <==> resp.status == 401 && s.auth && !skipAuthcheck)
    ensures r.Err? && resp.status != 500 && !r.error.DcnmUnauthorized? ==> r.error.DcnmConnection?
    ensures r.Err? ==> r.error.arg.InfoArg? && ReturnCode(r.error.arg.info) == Some(resp.status)
  {
    var rc := resp.status;
    if IsSuccess(rc) then
      Ok(ReturnInfo(Some(rc), verb, resp.url, resp.text, resp.body))
    else if rc == 500 then
      Err(DcnmAuthentication(InfoArg(ReturnInfo(Some(rc), "POST", resp.url, resp.text, JNull))))
    else if rc >= 400 && !skipAuthcheck && rc == 401 then
      var msg := "Unauthorized Access to API";
      if s.auth then Err(DcnmUnauthorized(InfoArg(ReturnInfo(Some(rc), verb, resp.url, msg, resp.body))))
      else Err(DcnmConnection(InfoArg(ReturnInfo(Some(rc), verb, resp.url, msg, resp.body))))
    else
      Err(DcnmConnection(InfoArg(ReturnInfo(Some(rc), verb, resp.url, "RETURN_CODE: " + Text.IntToString(rc), resp.body))))
  }

  // ---------------------------------------------------------------------
  // logon

  /** `info["DATA"]["Dcnm-Token"]`: a missing key raises KeyError, and a
      body that is not an object raises TypeError. */
  function TokenOf(data: Value): (r: Result<Value, Error>)
    ensures r.Ok? <==> data.JObj? && "Dcnm-Token" in data.fields
    ensures r.Ok? ==> r.value == data.fields["Dcnm-Token"]
    ensures !data.JObj? ==> r == Err(TypeError(StrKeyMsg(data)))
  {
    match data
    case JObj(f) => if "Dcnm-Token" in f then Ok(f["Dcnm-Token"]) else Err(KeyError("Dcnm-Token"))
    case _ => Err(TypeError(StrKeyMsg(data)))
  }

  /** The attempt loop of `logon`: POST, and go round again only after a
      500 while attempts remain. Returns the last response (None when no
      attempt was made) or the transport failure that ended it. */
  function LogonLoop(net: Net, c: Conn, remaining: nat, prompted: bool, last: Option<Response>)
    : (o: (Result<Option<Response>, Transport>, Conn))
    ensures o.1.s == c.s
    ensures c.sent <= o.1.sent && |o.1.sent| <= |c.sent| + remaining
    ensures OnlyKind(o.1.sent, |c.sent|, LogonPost)
    ensures |o.1.sent| > |c.sent| ==> o.1.sent[|c.sent|].prompted == prompted
    ensures forall i :: |c.sent| < i < |o.1.sent| ==> o.1.sent[i].prompted
    ensures o.0.Ok? && o.0.value.Some? && o.0.value.value.status == 500 ==> |o.1.sent| == |c.sent| + remaining
    ensures o.0.Ok? && o.0.value.None? ==> last.None? && remaining == 0
    decreases remaining
  {
    if remaining == 0 then (Ok(last), c)
    else
      var c1 := Send(c, LogonPost, "POST", Prepend(c.s) + "/logon", prompted);
      match NextReply(net, c.sent)
      case Raised(kind, _) => (Err(kind), c1)
      case Got(resp) =>
        if resp.status == 500 then LogonLoop(net, c1, remaining - 1, true, Some(resp))
        else (Ok(Some(resp)), c1)
  }

  /** `logon`. `credsGiven` says whether the caller passed username and
      password; otherwise they are read from the terminal. */
  function Logon(net: Net, c: Conn, credsGiven: bool): (o: Out<()>)
    ensures c.sent <= o.c.sent && OnlyKind(o.c.sent, |c.sent|, LogonPost)
    ensures |o.c.sent| <= |c.sent| + (if c.s.retries > 0 then c.s.retries else 0)
    ensures |o.c.sent| > |c.sent| ==> o.c.sent[|c.sent|].prompted == !credsGiven
    ensures forall i :: |c.sent| < i < |o.c.sent| ==> o.c.sent[i].prompted
    ensures c.s.retries <= 0 ==> o.r == Err(UnboundLocal("response"))
    ensures o.r.Ok? ==> o.c.s.auth && o.c.s.token.Some? && o.c.s.txtToken == o.c.s.token
    ensures o.r.Ok? ==> o.c.s == c.s.(auth := true, token := o.c.s.token, txtToken := o.c.s.token)
    ensures o.r.Err? ==> o.c.s == c.s
  {
    var n := if c.s.retries > 0 then c.s.retries else 0;
    var (lr, c1) := LogonLoop(net, c, n, !credsGiven, None);
    match lr
    case Err(kind) =>
      Out(Err(DcnmConnection(InfoArg(ReturnInfo(None, "POST", "/logon", LogonTransportMsg(kind), JNull)))), c1)
    case Ok(None) => Out(Err(UnboundLocal("response")), c1)
    case Ok(Some(resp)) =>
      match VerifyResponse(c1.s, resp, "POST", false)
      case Err(e) => Out(Err(e), c1)
      case Ok(info) =>
        match TokenOf(info["DATA"])
        case Err(e) => Out(Err(e), c1)
        case Ok(t) => Out(Ok(()), c1.(s := c1.s.(auth := true, token := Some(t), txtToken := Some(t))))
  }

  /** When every attempt is refused with 500, `logon` makes exactly
      `retries` attempts and raises DCNMAuthenticationError. */
  lemma LogonExhausted(net: Net, c: Conn, credsGiven: bool)
    requires c.s.retries > 0
    requires forall n: nat :: net(n).Got? && net(n).resp.status == 500
    ensures Logon(net, c, credsGiven).r.Err?
    ensures Logon(net, c, credsGiven).r.error.DcnmAuthentication?
    ensures |Logon(net, c, credsGiven).c.sent| == |c.sent| + c.s.retries
  {
    LogonLoopExhausted(net, c, c.s.retries, !credsGiven, None);
  }

  lemma {:induction false} LogonLoopExhausted(net: Net, c: Conn, remaining: nat, prompted: bool, last: Option<Response>)
    requires remaining > 0 || (last.Some? && last.value.status == 500)
    requires forall n: nat :: net(n).Got? && net(n).resp.status == 500
    ensures var o := LogonLoop(net, c, remaining, prompted, last);
      o.0.Ok? && o.0.value.Some? && o.0.value.value.status == 500 && |o.1.sent| == |c.sent| + remaining
    decreases remaining
  {
    if remaining > 0 {
      var c1 := Send(c, LogonPost, "POST", Prepend(c.s) + "/logon", prompted);
      LogonLoopExhausted(net, c1, remaining - 1, true, Some(net(|c.sent|).resp));
    }
  }

  // ---------------------------------------------------------------------
  // _re_logon and logout

  /** `_re_logon`: drop the auth flag and both tokens, log on again with
      prompted credentials, and insist on being authenticated. */
  function ReLogon(net: Net, c: Conn): (o: Out<bool>)
    ensures c.sent <= o.c.sent && OnlyKind(o.c.sent, |c.sent|, LogonPost)
    ensures o.r.Ok? ==> o.r.value && o.c.s.auth && o.c.s.token.Some? && o.c.s.txtToken == o.c.s.token
    ensures o.r.Err? ==> !o.c.s.auth
    ensures c.s.token.None? ==> o.r == Err(KeyError("Dcnm-Token")) && o.c.sent == c.sent
  {
    var s1 := c.s.(auth := false);
    if s1.token.None? then Out(Err(KeyError("Dcnm-Token")), c.(s := s1))
    else if s1.txtToken.None? then Out(Err(KeyError("Dcnm-Token")), c.(s := s1.(token := None)))
    else
      var o := Logon(net, c.(s := s1.(token := None, txtToken := None)), false);
      if o.r.Err? then Out(Err(o.r.error), o.c)
      else if !o.c.s.auth then Out(Err(DcnmAuthentication(MsgArg(ReLogonFailedMsg))), o.c)
      else Out(Ok(true), o.c)
  }

  /** `logout` as written: the body deletes the `headers` token when
      authenticated, and the `finally` block clears the flag and deletes
      both tokens again. A KeyError from the `finally` block replaces
      whatever the body produced. */
  function Logout(net: Net, c: Conn): (o: Out<()>)
    ensures !o.c.s.auth
    ensures |o.c.sent| == |c.sent| + 1 && o.c.sent[|c.sent|].kind == LogoutPost
  {
    var c1 := Send(c, LogoutPost, "POST", Prepend(c.s) + "/logout", false);
    var body: Out<()> :=
      match NextReply(net, c.sent)
      case Raised(kind, _) =>
        Out(Err(DcnmConnection(InfoArg(ReturnInfo(None, "POST", "/logout",
          "Error on attempt to logout from DCNM controller: {}", JNull)))), c1)
      case Got(resp) =>
        match VerifyResponse(c1.s, resp, "POST", true)
        case Err(e) => Out(Err(e), c1)
        case Ok(_) =>
          if c1.s.auth then
            if c1.s.token.Some? then Out(Ok(()), c1.(s := c1.s.(token := None)))
            else Out(Err(KeyError("Dcnm-Token")), c1)
          else Out(Ok(()), c1);
    LogoutFinally(body)
  }

  /** The `finally` block of `logout` as written. */
  function LogoutFinally(body: Out<()>): (o: Out<()>)
    ensures !o.c.s.auth && o.c.sent == body.c.sent
    ensures body.c.s.token.None? ==> o.r == Err(KeyError("Dcnm-Token"))
  {
    var s := body.c.s.(auth := false);
    if s.token.None? then Out(Err(KeyError("Dcnm-Token")), body.c.(s := s))
    else if s.txtToken.None? then Out(Err(KeyError("Dcnm-Token")), body.c.(s := s.(token := None)))
    else Out(body.r, body.c.(s := s.(token := None, txtToken := None)))
  }

  /** As written, logging out of an authenticated session whose logout
      request succeeds always raises KeyError: the token was already
      deleted in the body when the `finally` block deletes it again, and
      the text-header token is left behind. */
  lemma LogoutAfterLogonRaises(net: Net, c: Conn)
    requires c.s.auth && c.s.token.Some? && c.s.txtToken.Some?
    requires NextReply(net, c.sent).Got? && IsSuccess(NextReply(net, c.sent).resp.status)
    ensures Logout(net, c).r == Err(KeyError("Dcnm-Token"))
    ensures Logout(net, c).c.s.txtToken.Some?
  {
  }

  /** `logout` with the cleanup the `finally` block evidently intends: the
      tokens are removed if present, so logout always ends unauthenticated
      with no token held, and reports only the logout request's outcome. */
  function LogoutCorrected(net: Net, c: Conn): (o: Out<()>)
    ensures !o.c.s.auth && o.c.s.token.None? && o.c.s.txtToken.None?
    ensures |o.c.sent| == |c.sent| + 1 && o.c.sent[|c.sent|].kind == LogoutPost
    ensures o.r.Ok? <==> NextReply(net, c.sent).Got? && IsSuccess(NextReply(net, c.sent).resp.status)
  {
    var c1 := Send(c, LogoutPost, "POST", Prepend(c.s) + "/logout", false);
    var r: Result<(), Error> :=
      match NextReply(net, c.sent)
      case Raised(kind, _) =>
        Err(DcnmConnection(InfoArg(ReturnInfo(None, "POST", "/logout",
          "Error on attempt to logout from DCNM controller: {}", JNull))))
      case Got(resp) =>
        match VerifyResponse(c1.s, resp, "POST", true)
        case Err(e) => Err(e)
        case Ok(_) => Ok(());
    Out(r, c1.(s := c1.s.(auth := false, token := None, txtToken := None)))
  }

  // ---------------------------------------------------------------------
  // check_url_connection

  /** What the URL-check exception table does with an exception raised
      after the auth test: DCNM authentication and connection errors are
      re-raised, anything else becomes a DCNMConnectionError. */
  function UrlCheckHandle(e: Error, url: string): (r: Error)
    ensures ReRaised(e) ==> r == e
    ensures r.DcnmAuthentication? || r.DcnmConnection?
  {
    if ReRaised(e) then e
    else DcnmConnection(InfoArg(ReturnInfo(None, "HEAD", url, UrlUnknownMsg, JNull)))
  }

  /** `check_url_connection`: refuse an unauthenticated session, probe the
      URL, and after an Unauthorized probe log on again and probe the base
      address once more. */
  function CheckUrlConnection(net: Net, c: Conn, url: string): (o: Out<()>)
    ensures c.sent <= o.c.sent && NoCallAfter(o.c.sent, |c.sent|)
    ensures !c.s.auth ==> o.r == Err(DcnmAuthentication(MsgArg(NoLogonMsg))) && o.c == c
    ensures c.s.auth ==> |o.c.sent| > |c.sent| && o.c.sent[|c.sent|] == Req(Probe, "HEAD", url, false)
    ensures o.r.Err? ==> o.r.error.DcnmAuthentication? || o.r.error.DcnmConnection?
    ensures o.r.Ok? ==> o.c.s.auth
    ensures o.c.s.dryrun == c.s.dryrun && Prepend(o.c.s) == Prepend(c.s)
  {
    if !c.s.auth then Out(Err(DcnmAuthentication(MsgArg(NoLogonMsg))), c)
    else
      var c1 := Send(c, Probe, "HEAD", url, false);
      match NextReply(net, c.sent)
      case Raised(kind, _) =>
        Out(Err(DcnmConnection(InfoArg(ReturnInfo(None, "HEAD", url, UrlCheckMsg(kind), JNull)))), c1)
      case Got(resp) =>
        match VerifyResponse(c1.s, resp, "HEAD", false)
        case Ok(_) => Out(Ok(()), c1)
        case Err(e) =>
          if !e.DcnmUnauthorized? then Out(Err(UrlCheckHandle(e, url)), c1)
          else ReProbe(net, c1, url)
  }

  /** The `except DCNMUnauthorizedError` branch of `check_url_connection`:
      `_re_logon`, then a second probe of the base address. */
  function ReProbe(net: Net, c: Conn, url: string): (o: Out<()>)
    requires c.s.auth
    ensures c.sent <= o.c.sent && NoCallAfter(o.c.sent, |c.sent|)
    ensures o.r.Err? ==> o.r.error.DcnmAuthentication? || o.r.error.DcnmConnection?
    ensures o.r.Ok? ==> o.c.s.auth
    ensures o.c.s.dryrun == c.s.dryrun && Prepend(o.c.s) == Prepend(c.s)
  {
    var o := ReLogon(net, c);
    if o.r.Err? then Out(Err(UrlCheckHandle(o.r.error, url)), o.c)
    else
      var c2 := Send(o.c, Probe, "HEAD", o.c.s.physical, false);
      match NextReply(net, o.c.sent)
      case Raised(kind, _) =>
        Out(Err(DcnmConnection(InfoArg(ReturnInfo(None, "HEAD", url, UrlCheckMsg(kind), JNull)))), c2)
      case Got(resp2) =>
        match VerifyResponse(c2.s, resp2, "HEAD", false)
        case Ok(_) => Out(Ok(()), c2)
        case Err(e2) => Out(Err(UrlCheckHandle(e2, url)), c2)
  }

  /** No request of the caller's own kind was sent from `from` on. */
  predicate NoCallAfter(sent: seq<Req>, from: nat) {
    forall i :: from <= i < |sent| ==> sent[i].kind != Call
  }

  lemma {:induction false} CountNoCallAfter(sent: seq<Req>, from: nat)
    requires from <= |sent| && NoCallAfter(sent, from)
    ensures Count(sent, Call) == Count(sent[..from], Call)
    decreases |sent| - from
  {
    if |sent| > from {
      var init := sent[..|sent| - 1];
      assert init[..from] == sent[..from];
      CountNoCallAfter(init, from);
    } else {
      assert sent[..from] == sent;
    }
  }

  // ---------------------------------------------------------------------
  // send_request

  /** The outer handler of `send_request` for an exception that is not
      re-raised: an argument that is an info dict with a true `METHOD` is
      returned as the result; anything else becomes a DCNMConnectionError
      carrying the argument (or the last info) as its data. */
  function SendHandle(arg: Option<Value>, msg: string, verb: string, path: string, info: Dict): (r: Result<Dict, Error>)
    ensures r.Ok? <==> arg.Some? && arg.value.JObj? && HasTruthy(arg.value.fields, "METHOD")
    ensures r.Ok? ==> r.value == arg.value.fields
    ensures r.Err? && arg.Some? ==> r == Err(DcnmConnection(InfoArg(ReturnInfo(None, verb, path, msg, arg.value))))
    ensures arg.None? ==>
      r == Err(DcnmConnection(InfoArg(ReturnInfo(None, verb, path, msg, if |info| > 0 then JObj(info) else JNull))))
  {
    match arg
    case Some(JObj(d)) =>
      if HasTruthy(d, "METHOD") then Ok(d)
      else Err(DcnmConnection(InfoArg(ReturnInfo(None, verb, path, msg, JObj(d)))))
    case Some(v) => Err(DcnmConnection(InfoArg(ReturnInfo(None, verb, path, msg, v))))
    case None =>
      Err(DcnmConnection(InfoArg(ReturnInfo(None, verb, path, msg, if |info| > 0 then JObj(info) else JNull))))
  }

  /** What one round of the request loop leaves: the loop either goes on
      with a state and the latest info, or the call ends. */
  datatype Round = Stop(o: Out<Dict>) | Go(c: Conn, info: Dict)

  function RoundConn(r: Round): Conn {
    match r
    case Stop(o) => o.c
    case Go(c, _) => c
  }

  /** One round of the `for _ in range(2)` loop of `send_request`. A
      successful reply only records its info: the loop has no `break`, so
      it goes round again. An Unauthorized reply triggers `_re_logon` and
      the next round. */
  function CallRound(net: Net, c: Conn, verb: string, url: string, path: string, info: Dict): (r: Round)
    ensures var rc := RoundConn(r);
      c.sent <= rc.sent && |rc.sent| > |c.sent| && rc.sent[|c.sent|] == Req(Call, verb, url, false)
      && NoCallAfter(rc.sent, |c.sent| + 1)
    ensures RoundConn(r).s.dryrun == c.s.dryrun
  {
    var c1 := Send(c, Call, verb, url, false);
    match NextReply(net, c.sent)
    case Raised(kind, payload) => Stop(Out(SendHandle(payload, RequestMsg(kind), verb, path, info), c1))
    case Got(resp) =>
      match VerifyResponse(c1.s, resp, verb, false)
      case Ok(i) => Go(c1, i)
      case Err(e) =>
        if !e.DcnmUnauthorized? then Stop(Out(Err(e), c1))
        else
          var o := ReLogon(net, c1);
          if o.r.Err? then
            if ReRaised(o.r.error) then Stop(Out(Err(o.r.error), o.c))
            else Stop(Out(SendHandle(FirstArg(o.r.error), RequestUnknownMsg, verb, path, info), o.c))
          else Go(o.c, info)
  }

  /** The request loop of `send_request`, at most `remaining` rounds. */
  function CallLoop(net: Net, c: Conn, verb: string, url: string, path: string, remaining: nat, info: Dict)
    : (o: Out<Dict>)
    ensures c.sent <= o.c.sent
    ensures Count(o.c.sent, Call) <= Count(c.sent, Call) + remaining
    ensures o.c.s.dryrun == c.s.dryrun
    decreases remaining
  {
    if remaining == 0 then Out(Ok(info), c)
    else
      var r := CallRound(net, c, verb, url, path, info);
      CountRound(c.sent, RoundConn(r).sent);
      match r
      case Stop(o) => o
      case Go(c1, i) => CallLoop(net, c1, verb, url, path, remaining - 1, i)
  }

  /** A round adds exactly one request of the caller's own. */
  lemma CountRound(before: seq<Req>, after: seq<Req>)
    requires before <= after && |after| > |before| && after[|before|].kind == Call
    requires NoCallAfter(after, |before| + 1)
    ensures Count(after, Call) == Count(before, Call) + 1
  {
    CountNoCallAfter(after, |before| + 1);
    var pre := after[..|before| + 1];
    assert pre[..|pre| - 1] == before;
  }

  /** `send_request`. */
  function SendRequest(net: Net, c: Conn, verb: string, path: string): (o: Out<Dict>)
    ensures c.sent <= o.c.sent
    ensures |path| == 0 ==> o == Out(Err(IndexError(StrIndexMsg)), c)
    ensures |path| > 0 && path[0] != '/' ==>
      o == Out(Err(DcnmConnection(InfoArg(ReturnInfo(None, verb, path, BadPathMsg, JNull)))), c)
    ensures |path| > 0 && path[0] == '/' && c.s.dryrun && Mutating(verb) ==> o == Out(Ok(DryRunReply), c)
    ensures |path| > 0 && path[0] == '/' && !(c.s.dryrun && Mutating(verb)) && !c.s.auth ==>
      o == Out(Err(DcnmAuthentication(MsgArg(NoLogonMsg))), c)
    ensures Count(o.c.sent, Call) <= Count(c.sent, Call) + 2
  {
    if |path| == 0 then Out(Err(IndexError(StrIndexMsg)), c)
    else if path[0] != '/' then
      Out(Err(DcnmConnection(InfoArg(ReturnInfo(None, verb, path, BadPathMsg, JNull)))), c)
    else
      var url := Prepend(c.s) + path;
      if c.s.dryrun && Mutating(verb) then Out(Ok(DryRunReply), c)
      else
        var chk := CheckUrlConnection(net, c, url);
        CountNoCallAfter(chk.c.sent, |c.sent|);
        assert chk.c.sent[..|c.sent|] == c.sent;
        if chk.r.Err? then Out(Err(chk.r.error), chk.c)
        else CallLoop(net, chk.c, verb, url, path, 2, map[])
  }

  /** A probe answered with 2xx on an authenticated session passes. */
  lemma ProbeSucceeds(net: Net, c: Conn, url: string)
    requires c.s.auth && NextReply(net, c.sent).Got? && IsSuccess(NextReply(net, c.sent).resp.status)
    ensures CheckUrlConnection(net, c, url) == Out(Ok(()), Send(c, Probe, "HEAD", url, false))
  {
  }

  /** A round answered with 2xx goes on after sending the one request. */
  lemma RoundSucceeds(net: Net, c: Conn, verb: string, url: string, path: string, info: Dict)
    requires NextReply(net, c.sent).Got? && IsSuccess(NextReply(net, c.sent).resp.status)
    ensures var r := CallRound(net, c, verb, url, path, info);
      r.Go? && r.c == Send(c, Call, verb, url, false)
  {
  }

  /** With no break after success, a request that succeeds is sent twice:
      on an authenticated session against a controller that answers the
      next three requests with 2xx, `send_request` probes once and sends the request
      exactly two times, returning the second reply's info. */
  lemma SuccessSentTwice(net: Net, c: Conn, verb: string, path: string)
    requires c.s.auth && |path| > 0 && path[0] == '/' && !(c.s.dryrun && Mutating(verb))
    requires Answers2xx(net, |c.sent|) && Answers2xx(net, |c.sent| + 1) && Answers2xx(net, |c.sent| + 2)
    ensures var o := SendRequest(net, c, verb, path);
      o.r == Ok(InfoOf(net(|c.sent| + 2).resp, verb)) && o.c.sent == c.sent + [Req(Probe, "HEAD", Prepend(c.s) + path, false),
                                       Req(Call, verb, Prepend(c.s) + path, false),
                                       Req(Call, verb, Prepend(c.s) + path, false)]
  {
    var url := Prepend(c.s) + path;
    var c1 := Send(c, Probe, "HEAD", url, false);
    SendAfterProbe(net, c, verb, path);
    LoopTwice(net, c1, verb, url, path);
    var call := Req(Call, verb, url, false);
    AppendThree(c.sent, Req(Probe, "HEAD", url, false), call, call);
  }

  lemma AppendThree<T>(s: seq<T>, a: T, b: T, c: T)
    ensures (s + [a]) + [b, c] == s + [a, b, c]
  {
  }

  /** The controller answers the `n`-th request with a 2xx status. */
  predicate Answers2xx(net: Net, n: nat) {
    net(n).Got? && IsSuccess(net(n).resp.status)
  }

  /** A probe answered with 2xx hands the request to the loop. */
  lemma SendAfterProbe(net: Net, c: Conn, verb: string, path: string)
    requires c.s.auth && |path| > 0 && path[0] == '/' && !(c.s.dryrun && Mutating(verb))
    requires NextReply(net, c.sent).Got? && IsSuccess(NextReply(net, c.sent).resp.status)
    ensures var url := Prepend(c.s) + path;
      SendRequest(net, c, verb, path) == CallLoop(net, Send(c, Probe, "HEAD", url, false), verb, url, path, 2, map[])
  {
    ProbeSucceeds(net, c, Prepend(c.s) + path);
  }

  /** Two rounds answered with 2xx send the request twice and keep the
      second reply's info. */
  lemma LoopTwice(net: Net, c: Conn, verb: string, url: string, path: string)
    requires Answers2xx(net, |c.sent|) && Answers2xx(net, |c.sent| + 1)
    ensures var o := CallLoop(net, c, verb, url, path, 2, map[]);
      o.r == Ok(InfoOf(net(|c.sent| + 1).resp, verb)) &&
      o.c.sent == c.sent + [Req(Call, verb, url, false), Req(Call, verb, url, false)]
  {
    var c2 := Send(c, Call, verb, url, false);
    RoundSucceeds(net, c, verb, url, path, map[]);
    var r1 := CallRound(net, c, verb, url, path, map[]);
    assert CallLoop(net, c, verb, url, path, 2, map[]) == CallLoop(net, c2, verb, url, path, 1, r1.info);
    RoundSucceeds(net, c2, verb, url, path, r1.info);
    var r2 := CallRound(net, c2, verb, url, path, r1.info);
    assert CallLoop(net, c2, verb, url, path, 1, r1.info) == CallLoop(net, r2.c, verb, url, path, 0, r2.info);
  }

  /** The info dictionary of a 2xx reply to `verb`. */
  function InfoOf(resp: Response, verb: string): Dict {
    ReturnInfo(Some(resp.status), verb, resp.url, resp.text, resp.body)
  }

  /** A reply that is neither 2xx nor 401 ends the call with the
      exception `_verify_response` raises for it, which the handler
      re-raises unchanged: on an authenticated session whose probe passes,
      a first reply of that kind raises after one send. */
  lemma FirstFailureRaises(net: Net, c: Conn, verb: string, path: string)
    requires c.s.auth && |path| > 0 && path[0] == '/' && !(c.s.dryrun && Mutating(verb))
    requires Answers2xx(net, |c.sent|)
    requires net(|c.sent| + 1).Got? && !IsSuccess(net(|c.sent| + 1).resp.status)
    requires net(|c.sent| + 1).resp.status != 401
    ensures var o := SendRequest(net, c, verb, path);
      var url := Prepend(c.s) + path;
      o.r.Err? && ReRaised(o.r.error) &&
      o.r == Err(VerifyResponse(c.s, net(|c.sent| + 1).resp, verb, false).error) &&
      o.c.sent == c.sent + [Req(Probe, "HEAD", url, false), Req(Call, verb, url, false)]
  {
    var url := Prepend(c.s) + path;
    var c1 := Send(c, Probe, "HEAD", url, false);
    SendAfterProbe(net, c, verb, path);
    assert |c1.sent| == |c.sent| + 1;
    assert CallRound(net, c1, verb, url, path, map[]).Stop?;
  }

  /** A 2xx reply is not final: when the repeat of a request that
      succeeded is refused with a status other than 401, `send_request`
      raises and the first reply's info is lost. */
  lemma LaterFailureRaises(net: Net, c: Conn, verb: string, path: string)
    requires c.s.auth && |path| > 0 && path[0] == '/' && !(c.s.dryrun && Mutating(verb))
    requires Answers2xx(net, |c.sent|) && Answers2xx(net, |c.sent| + 1)
    requires net(|c.sent| + 2).Got? && !IsSuccess(net(|c.sent| + 2).resp.status)
    requires net(|c.sent| + 2).resp.status != 401
    ensures var o := SendRequest(net, c, verb, path);
      o.r.Err? && ReRaised(o.r.error) &&
      o.r == Err(VerifyResponse(c.s, net(|c.sent| + 2).resp, verb, false).error)
  {
    var url := Prepend(c.s) + path;
    var c1 := Send(c, Probe, "HEAD", url, false);
    SendAfterProbe(net, c, verb, path);
    RoundSucceeds(net, c1, verb, url, path, map[]);
    var r1 := CallRound(net, c1, verb, url, path, map[]);
    assert |r1.c.sent| == |c.sent| + 2;
    assert CallLoop(net, c1, verb, url, path, 2, map[]) == CallLoop(net, r1.c, verb, url, path, 1, r1.info);
    assert CallRound(net, r1.c, verb, url, path, r1.info).Stop?;
  }

  /** A built-in exception keeps its message: when a request is answered
      401 and the logon that follows answers 2xx with a body that is not an
      object, reading the token raises TypeError, and `send_request` raises
      DCNMConnectionError whose `DATA` is that TypeError's text. */
  lemma ReLogonTypeErrorKept(net: Net, c: Conn, verb: string, path: string)
    requires c.s.auth && c.s.token.Some? && c.s.txtToken.Some? && c.s.retries > 0
    requires |path| > 0 && path[0] == '/' && !(c.s.dryrun && Mutating(verb))
    requires Answers2xx(net, |c.sent|)
    requires net(|c.sent| + 1).Got? && net(|c.sent| + 1).resp.status == 401
    requires Answers2xx(net, |c.sent| + 2) && !net(|c.sent| + 2).resp.body.JObj?
    ensures SendRequest(net, c, verb, path).r ==
      Err(DcnmConnection(InfoArg(ReturnInfo(None, verb, path, RequestUnknownMsg,
                                            JStr(StrKeyMsg(net(|c.sent| + 2).resp.body))))))
  {
    var url := Prepend(c.s) + path;
    var c1 := Send(c, Probe, "HEAD", url, false);
    SendAfterProbe(net, c, verb, path);
    var c2 := Send(c1, Call, verb, url, false);
    assert |c2.sent| == |c.sent| + 2;
    ReLogonTypeError(net, c2);
    var m := StrKeyMsg(net(|c.sent| + 2).resp.body);
    assert ReLogon(net, c2).r == Err(TypeError(m));
    assert !ReRaised(TypeError(m)) && FirstArg(TypeError(m)) == Some(JStr(m));
    RoundReLogonFails(net, c1, verb, url, path, map[]);
    var r := CallRound(net, c1, verb, url, path, map[]);
    assert r.o.r == SendHandle(Some(JStr(m)), RequestUnknownMsg, verb, path, map[]);
    assert CallLoop(net, c1, verb, url, path, 2, map[]) == r.o;
  }

  /** A round answered 401 on an authenticated session whose re-logon
      fails with an exception the table does not re-raise ends the call
      through the handler. */
  lemma RoundReLogonFails(net: Net, c: Conn, verb: string, url: string, path: string, info: Dict)
    requires c.s.auth && net(|c.sent|).Got? && net(|c.sent|).resp.status == 401
    requires var o := ReLogon(net, Send(c, Call, verb, url, false)); o.r.Err? && !ReRaised(o.r.error)
    ensures var r := CallRound(net, c, verb, url, path, info);
      r.Stop? &&
      r.o.r == SendHandle(FirstArg(ReLogon(net, Send(c, Call, verb, url, false)).r.error), RequestUnknownMsg, verb, path, info)
  {
    var c1 := Send(c, Call, verb, url, false);
    assert VerifyResponse(c1.s, net(|c.sent|).resp, verb, false).error.DcnmUnauthorized?;
  }

  /** `_re_logon` when the logon answers 2xx with a body that is not an
      object: the TypeError of reading the token. */
  lemma ReLogonTypeError(net: Net, c: Conn)
    requires c.s.token.Some? && c.s.txtToken.Some? && c.s.retries > 0
    requires Answers2xx(net, |c.sent|) && !net(|c.sent|).resp.body.JObj?
    ensures ReLogon(net, c).r == Err(TypeError(StrKeyMsg(net(|c.sent|).resp.body)))
  {
    var c3 := c.(s := c.s.(auth := false, token := None, txtToken := None));
    var resp := net(|c.sent|).resp;
    var lr := LogonLoop(net, c3, c3.s.retries, false, None);
    assert lr.0 == Ok(Some(resp));
    assert VerifyResponse(lr.1.s, resp, "POST", false) == Ok(ReturnInfo(Some(resp.status), "POST", resp.url, resp.text, resp.body));
  }
}
