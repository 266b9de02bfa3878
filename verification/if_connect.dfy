/** The connection layer of the flat generation, `HttpApi` in
    dcnm/interfaces/dcnm_connect.py. It differs from the hierarchy copy in
    which failures are raised and which are handed back as info
    dictionaries: `_verify_response` has no 500 case and honours the
    errors table, and `send_request` returns the info of any failure whose
    first argument is such a dictionary. */
module IfConnect {
  import opened Wrappers
  import opened Json
  import opened Errors
  import opened Http
  import Text

  /** The state of an `HttpApi` object that the decisions read. There is
      only one header map here. */
  datatype Session = Session(auth: bool, token: Option<Value>, dryrun: bool, retries: int, physical: string)

  datatype Conn = Conn(s: Session, sent: seq<Req>)

  datatype Out<T> = Out(r: Result<T, Error>, c: Conn)

  /** `self.device`, the REST prefix. */
  function Device(s: Session): string {
    s.physical + "/rest"
  }

  function Send(c: Conn, kind: ReqKind, verb: string, url: string, prompted: bool): Conn {
    c.(sent := c.sent + [Req(kind, verb, url, prompted)])
  }

  /** An errors table: status code and the message to report for it. */
  type ErrorTable = seq<(int, string)>

  const LoginErrors: ErrorTable :=
    [(400, "Invalid value supplied for expiration time"), (500, "Invalid credentials. Failed to perform logon.")]
  const LogoutErrors: ErrorTable :=
    [(400, "Invalid value supplied for Dcnm-Token"), (401, "Unauthorized access to API"),
     (500, "Invalid token. Failed to perform logout.")]

  const BadPathMsg := "Value of <path> does not appear to be formatted properly"
  const LoginErrorMsg := "Error on attempt to connect and authenticate with DCNM controller: {}"
  const LogoutErrorMsg := "Error on attempt to logout from DCNM controller: {}"
  const UrlErrorMsg := "Error checking URL on DCNM controller: {}"

  /** The message the errors-table loop leaves: it has no `break`, so the
      last entry for the code wins; without an entry the default stays. */
  function TableMsg(errors: ErrorTable, rc: int, default: string): (m: string)
    ensures (forall k :: 0 <= k < |errors| ==> errors[k].0 != rc) ==> m == default
    ensures |errors| > 0 && errors[|errors| - 1].0 == rc ==> m == errors[|errors| - 1].1
    decreases |errors|
  {
    if |errors| == 0 then default
    else
      var m := TableMsg(errors[..|errors| - 1], rc, default);
      if errors[|errors| - 1].0 == rc then errors[|errors| - 1].1 else m
  }

  /** `_verify_response`: 2xx gives the info; a 401 on an authenticated
      session (unless skipped) raises Unauthorized; every other code raises
      ConnectionError, with the table's message when the code is listed. */
  function VerifyResponse(s: Session, resp: Response, verb: string, errors: ErrorTable, skipAuthcheck: bool)
    : (r: Result<Dict, Error>)
    ensures r.Ok? <==> IsSuccess(resp.status)
    ensures r.Ok? ==> r.value == ReturnInfo(Some(resp.status), verb, resp.url, resp.text, resp.body)
    ensures r.Err? ==> (r.error.DcnmUnauthorized? <==> resp.status == 401 && s.auth && !skipAuthcheck)
    ensures r.Err? && !r.error.DcnmUnauthorized? ==> r.error.Connection?
    ensures r.Err? ==> (r.error.arg.InfoArg? && r.error.arg.info.Keys == InfoKeys
      && ReturnCode(r.error.arg.info) == Some(resp.status) && r.error.arg.info["METHOD"] == JStr(verb))
    ensures r.Err? && resp.status >= 400 && !(resp.status == 401 && !skipAuthcheck) ==>
      r.error.arg.info["MESSAGE"] == JStr(TableMsg(errors, resp.status, "RETURN_CODE: " + Text.IntToString(resp.status)))
  {
    var rc := resp.status;
    var codeMsg := "RETURN_CODE: " + Text.IntToString(rc);
    if IsSuccess(rc) then
      Ok(ReturnInfo(Some(rc), verb, resp.url, resp.text, resp.body))
    else if rc >= 400 then
      if !skipAuthcheck && rc == 401 then
        var msg := "Unauthorized Access to API";
        if s.auth then Err(DcnmUnauthorized(InfoArg(ReturnInfo(Some(rc), verb, resp.url, msg, resp.body))))
        else Err(Connection(InfoArg(ReturnInfo(Some(rc), verb, resp.url, msg, resp.body))))
      else
        Err(Connection(InfoArg(ReturnInfo(Some(rc), verb, resp.url, TableMsg(errors, rc, codeMsg), resp.body))))
    else
      Err(Connection(InfoArg(ReturnInfo(Some(rc), verb, resp.url, codeMsg, resp.body))))
  }

  /** Unlike the hierarchy copy, a 500 is an ordinary connection error. */
  lemma NoSpecial500(s: Session, resp: Response, verb: string, errors: ErrorTable)
    requires resp.status == 500
    ensures VerifyResponse(s, resp, verb, errors, false).Err?
    ensures VerifyResponse(s, resp, verb, errors, false).error.Connection?
  {
  }

  // ---------------------------------------------------------------------
  // login / logout

  function TokenOf(data: Value): (r: Result<Value, Error>)
    ensures r.Ok? <==> data.JObj? && "Dcnm-Token" in data.fields
    ensures r.Ok? ==> r.value == data.fields["Dcnm-Token"]
    ensures !data.JObj? ==> r == Err(TypeError(StrKeyMsg(data)))
  {
    match data
    case JObj(f) => if "Dcnm-Token" in f then Ok(f["Dcnm-Token"]) else Err(KeyError("Dcnm-Token"))
    case _ => Err(TypeError(StrKeyMsg(data)))
  }

  /** The attempt loop of `login`, as in the hierarchy copy. */
  function LoginLoop(net: Net, c: Conn, remaining: nat, prompted: bool, last: Option<Response>)
    : (o: (Result<Option<Response>, Transport>, Conn))
    ensures o.1.s == c.s
    ensures c.sent <= o.1.sent && |o.1.sent| <= |c.sent| + remaining
    ensures OnlyKind(o.1.sent, |c.sent|, LogonPost)
    ensures |o.1.sent| > |c.sent| ==> o.1.sent[|c.sent|].prompted == prompted
    ensures forall i :: |c.sent| < i < |o.1.sent| ==> o.1.sent[i].prompted
    ensures o.0.Ok? && o.0.value.Some? && o.0.value.value.status == 500 ==> |o.1.sent| == |c.sent| + remaining
    ensures o.0.Ok? && o.0.value.None? ==> last.None? && remaining == 0
    decreases remaining
  {
    if remaining == 0 then (Ok(last), c)
    else
      var c1 := Send(c, LogonPost, "POST", Device(c.s) + "/logon", prompted);
      match NextReply(net, c.sent)
      case Raised(kind, _) => (Err(kind), c1)
      case Got(resp) =>
        if resp.status == 500 then LoginLoop(net, c1, remaining - 1, true, Some(resp))
        else (Ok(Some(resp)), c1)
  }

  /** `login`: every failure inside the `try` block, whatever its class,
      becomes an AuthenticationError carrying a POST info dictionary. With
      no attempts allowed the loop never binds `response` nor `info`, so the
      handler's own log line raises UnboundLocalError on `info`. */
  function Login(net: Net, c: Conn, credsGiven: bool): (o: Out<()>)
    ensures c.sent <= o.c.sent && OnlyKind(o.c.sent, |c.sent|, LogonPost)
    ensures |o.c.sent| <= |c.sent| + (if c.s.retries > 0 then c.s.retries else 0)
    ensures |o.c.sent| > |c.sent| ==> o.c.sent[|c.sent|].prompted == !credsGiven
    ensures forall i :: |c.sent| < i < |o.c.sent| ==> o.c.sent[i].prompted
    ensures c.s.retries <= 0 ==> o == Out(Err(UnboundLocal("info")), c)
    ensures c.s.retries > 0 && o.r.Err? ==>
      o.r.error.Authentication? || o.r.error.KeyError? || o.r.error.TypeError?
    ensures o.r.Err? && o.r.error.Authentication? ==>
      o.r.error.arg == InfoArg(ReturnInfo(None, "POST", "/logon", LoginErrorMsg, JNull))
    ensures o.r.Ok? ==> o.c.s == c.s.(auth := true, token := o.c.s.token) && o.c.s.token.Some?
    ensures o.r.Err? ==> o.c.s == c.s
  {
    var n := if c.s.retries > 0 then c.s.retries else 0;
    var (lr, c1) := LoginLoop(net, c, n, !credsGiven, None);
    var fail := Authentication(InfoArg(ReturnInfo(None, "POST", "/logon", LoginErrorMsg, JNull)));
    match lr
    case Err(_) => Out(Err(fail), c1)
    case Ok(None) => Out(Err(UnboundLocal("info")), c1)
    case Ok(Some(resp)) =>
      match VerifyResponse(c1.s, resp, "POST", LoginErrors, false)
      case Err(_) => Out(Err(fail), c1)
      case Ok(info) =>
        match TokenOf(info["DATA"])
        case Err(e) => Out(Err(e), c1)
        case Ok(t) => Out(Ok(()), c1.(s := c1.s.(auth := true, token := Some(t))))
  }

  /** `logout`: failures of the request become ConnectionError, and the
      `finally` block always clears the auth flag. */
  function Logout(net: Net, c: Conn): (o: Out<()>)
    ensures !o.c.s.auth
    ensures |o.c.sent| == |c.sent| + 1 && o.c.sent[|c.sent|].kind == LogoutPost
    ensures o.r.Err? ==> o.r.error == Connection(InfoArg(ReturnInfo(None, "POST", "/logout", LogoutErrorMsg, JNull)))
    ensures o.r.Ok? <==> (NextReply(net, c.sent).Got? && IsSuccess(NextReply(net, c.sent).resp.status)
      && (c.s.auth ==> c.s.token.Some?))
    ensures o.r.Ok? ==> (c.s.auth ==> o.c.s.token.None?) && (!c.s.auth ==> o.c.s.token == c.s.token)
  {
    var c1 := Send(c, LogoutPost, "POST", Device(c.s) + "/logout", false);
    var fail := Connection(InfoArg(ReturnInfo(None, "POST", "/logout", LogoutErrorMsg, JNull)));
    var body: Out<()> :=
      match NextReply(net, c.sent)
      case Raised(_, _) => Out(Err(fail), c1)
      case Got(resp) =>
        match VerifyResponse(c1.s, resp, "POST", LogoutErrors, true)
        case Err(_) => Out(Err(fail), c1)
        case Ok(_) =>
          if c1.s.auth then
            if c1.s.token.Some? then Out(Ok(()), c1.(s := c1.s.(token := None)))
            else Out(Err(fail), c1)
          else Out(Ok(()), c1);
    body.(c := body.c.(s := body.c.s.(auth := false)))
  }

  // ---------------------------------------------------------------------
  // check_url_connection

  /** `check_url_connection`: requests exceptions propagate unchanged; every
      other failure, including the missing login, becomes a ConnectionError
      carrying a HEAD info dictionary for the base address. */
  function CheckUrlConnection(net: Net, c: Conn): (o: Out<()>)
    ensures c.sent <= o.c.sent && NoCallAfter(o.c.sent, |c.sent|)
    ensures !c.s.auth ==> o.c == c && o.r == Err(Connection(InfoArg(ReturnInfo(None, "HEAD", c.s.physical, UrlErrorMsg, JNull))))
    ensures o.r.Err? ==> o.r.error.Connection? || o.r.error.RequestFailure?
    ensures o.r.Ok? ==> o.c.s.auth
    ensures o.c.s.dryrun == c.s.dryrun && o.c.s.physical == c.s.physical
  {
    var fail := Connection(InfoArg(ReturnInfo(None, "HEAD", c.s.physical, UrlErrorMsg, JNull)));
    if !c.s.auth then Out(Err(fail), c)
    else
      var c1 := Send(c, Probe, "HEAD", c.s.physical, false);
      match NextReply(net, c.sent)
      case Raised(kind, p) => Out(Err(RequestFailure(kind, p)), c1)
      case Got(resp) =>
        if resp.status != 401 then
          if VerifyResponse(c1.s, resp, "HEAD", [], false).Ok? then Out(Ok(()), c1)
          else Out(Err(fail), c1)
        else if c1.s.token.None? then Out(Err(fail), c1.(s := c1.s.(auth := false)))
        else ReProbe(net, c1.(s := c1.s.(auth := false, token := None)))
  }

  /** The 401 branch of `check_url_connection` with a token held: log on
      again, then probe once more. */
  function ReProbe(net: Net, c: Conn): (o: Out<()>)
    ensures c.sent <= o.c.sent && NoCallAfter(o.c.sent, |c.sent|)
    ensures o.r.Err? ==> o.r.error.Connection? || o.r.error.RequestFailure?
    ensures o.r.Ok? ==> o.c.s.auth
    ensures o.c.s.dryrun == c.s.dryrun && o.c.s.physical == c.s.physical
  {
    var fail := Connection(InfoArg(ReturnInfo(None, "HEAD", c.s.physical, UrlErrorMsg, JNull)));
    var o := Login(net, c, false);
    if o.r.Err? then Out(Err(fail), o.c)
    else ProbeAgain(net, o.c)
  }

  /** The second probe, after a successful logon. */
  function ProbeAgain(net: Net, c: Conn): (o: Out<()>)
    ensures o.c == Send(c, Probe, "HEAD", c.s.physical, false)
    ensures o.r.Err? ==> o.r.error.Connection? || o.r.error.RequestFailure?
  {
    var fail := Connection(InfoArg(ReturnInfo(None, "HEAD", c.s.physical, UrlErrorMsg, JNull)));
    var c2 := Send(c, Probe, "HEAD", c.s.physical, false);
    match NextReply(net, c.sent)
    case Raised(kind, p) => Out(Err(RequestFailure(kind, p)), c2)
    case Got(resp2) =>
      if VerifyResponse(c2.s, resp2, "HEAD", [], false).Ok? then Out(Ok(()), c2)
      else Out(Err(fail), c2)
  }

  predicate NoCallAfter(sent: seq<Req>, from: nat) {
    forall i :: from <= i < |sent| ==> sent[i].kind != Call
  }

  lemma {:induction false} CountNoCallAfter(sent: seq<Req>, from: nat)
    requires from <= |sent| && NoCallAfter(sent, from)
    ensures Count(sent, Call) == Count(sent[..from], Call)
    decreases |sent| - from
  {
    if |sent| > from {
      var init := sent[..|sent| - 1];
      assert init[..from] == sent[..from];
      CountNoCallAfter(init, from);
    } else {
      assert sent[..from] == sent;
    }
  }

  // ---------------------------------------------------------------------
  // send_request

  /** The `except Exception` handler of `send_request`: `e.args[0]` (an
      exception without arguments makes this raise IndexError); an info
      dict with a true `METHOD` is returned, anything else is re-raised as
      ConnectionError carrying `str(e)`. */
  function SendHandle(e: Error): (r: Result<Dict, Error>)
    ensures r.Ok? <==> FirstArg(e).Some? && FirstArg(e).value.JObj? && HasTruthy(FirstArg(e).value.fields, "METHOD")
    ensures r.Ok? ==> JObj(r.value) == FirstArg(e).value
    ensures FirstArg(e).None? ==> r == Err(IndexError(TupleIndexMsg))
    ensures r.Err? && FirstArg(e).Some? ==> r == Err(Connection(MsgArg(ExcStr(e))))
  {
    match FirstArg(e)
    case None => Err(IndexError(TupleIndexMsg))
    case Some(JObj(d)) => if HasTruthy(d, "METHOD") then Ok(d) else Err(Connection(MsgArg(ExcStr(e))))
    case Some(_) => Err(Connection(MsgArg(ExcStr(e))))
  }

  /** How the request loop ends: with the last response to verify, or with
      the call already decided. */
  datatype LoopEnd = Ended(c: Conn, resp: Response) | Stopped(o: Out<Dict>)

  function EndConn(e: LoopEnd): Conn {
    match e
    case Ended(c, _) => c
    case Stopped(o) => o.c
  }

  /** The `for _ in range(2)` loop: send; on a 401 drop the token, log on
      again and go round only if authenticated; any other status ends the
      loop. */
  function CallLoop(net: Net, c: Conn, verb: string, url: string, remaining: nat, last: Response): (e: LoopEnd)
    requires remaining <= 2
    ensures c.sent <= EndConn(e).sent
    ensures Count(EndConn(e).sent, Call) <= Count(c.sent, Call) + remaining
    ensures remaining > 0 ==> |EndConn(e).sent| > |c.sent| && EndConn(e).sent[|c.sent|] == Req(Call, verb, url, false)
    ensures remaining > 0 && NextReply(net, c.sent).Got? && NextReply(net, c.sent).resp.status != 401 ==>
      e == Ended(Send(c, Call, verb, url, false), NextReply(net, c.sent).resp)
    ensures remaining > 0 && NextReply(net, c.sent).Got? && NextReply(net, c.sent).resp.status == 401 && c.s.token.Some? ==>
      var c1 := Send(c, Call, verb, url, false);
      var o := Login(net, c1.(s := c1.s.(auth := false, token := None)), false);
      o.r.Err? ==> e == Stopped(Out(SendHandle(o.r.error), o.c))
    decreases remaining
  {
    if remaining == 0 then Ended(c, last)
    else
      var c1 := Send(c, Call, verb, url, false);
      CountAppend(c.sent, [Req(Call, verb, url, false)], Call);
      CountOne(Req(Call, verb, url, false), Call);
      match NextReply(net, c.sent)
      case Raised(kind, p) => Stopped(Out(SendHandle(RequestFailure(kind, p)), c1))
      case Got(resp) =>
        if resp.status != 401 then Ended(c1, resp)
        else if c1.s.token.None? then
          Stopped(Out(SendHandle(KeyError("Dcnm-Token")), c1.(s := c1.s.(auth := false))))
        else
          var o := Login(net, c1.(s := c1.s.(auth := false, token := None)), false);
          CountNoCallAfter(o.c.sent, |c1.sent|);
          assert o.c.sent[..|c1.sent|] == c1.sent;
          if o.r.Err? then Stopped(Out(SendHandle(o.r.error), o.c))
          else if o.c.s.auth then
            var e := CallLoop(net, o.c, verb, url, remaining - 1, resp);
            e
          else Ended(o.c, resp)
  }

  /** `send_request`. */
  function SendRequest(net: Net, c: Conn, verb: string, path: string, errors: ErrorTable): (o: Out<Dict>)
    ensures c.sent <= o.c.sent
    ensures |path| == 0 ==> o == Out(Err(IndexError(StrIndexMsg)), c)
    ensures |path| > 0 && path[0] != '/' ==>
      o == Out(Err(Connection(InfoArg(ReturnInfo(None, verb, path, BadPathMsg, JNull)))), c)
    ensures |path| > 0 && path[0] == '/' && c.s.dryrun && Mutating(verb) ==> o == Out(Ok(DryRunReply), c)
    ensures Count(o.c.sent, Call) <= Count(c.sent, Call) + 2
  {
    if |path| == 0 then Out(Err(IndexError(StrIndexMsg)), c)
    else if path[0] != '/' then
      Out(Err(Connection(InfoArg(ReturnInfo(None, verb, path, BadPathMsg, JNull)))), c)
    else
      var url := Device(c.s) + path;
      if c.s.dryrun && Mutating(verb) then Out(Ok(DryRunReply), c)
      else
        var chk := CheckUrlConnection(net, c);
        CountNoCallAfter(chk.c.sent, |c.sent|);
        assert chk.c.sent[..|c.sent|] == c.sent;
        if chk.r.Err? then Out(Err(chk.r.error), chk.c)
        else
          match CallLoop(net, chk.c, verb, url, 2, Response(0, "", "", JNull))
          case Stopped(o) => o
          case Ended(c2, resp) =>
            match VerifyResponse(c2.s, resp, verb, errors, false)
            case Ok(info) => Out(Ok(info), c2)
            case Err(e) => Out(SendHandle(e), c2)
  }

  /** A probe answered with 2xx on an authenticated session passes. */
  lemma ProbePasses(net: Net, c: Conn)
    requires c.s.auth && net(|c.sent|).Got? && IsSuccess(net(|c.sent|).resp.status)
    ensures CheckUrlConnection(net, c) == Out(Ok(()), Send(c, Probe, "HEAD", c.s.physical, false))
  {
  }

  /** Non-2xx replies reach the caller as returned info dictionaries: on an
      authenticated session whose probe succeeds, a request answered with
      any status other than 2xx and 401 returns the failure's info, with
      that status and the table's message, after exactly one send. */
  lemma FailureReturned(net: Net, c: Conn, verb: string, path: string, errors: ErrorTable)
    requires c.s.auth && c.s.token.Some? && |path| > 0 && path[0] == '/' && |verb| > 0
    requires !(c.s.dryrun && Mutating(verb))
    requires net(|c.sent|).Got? && IsSuccess(net(|c.sent|).resp.status)
    requires net(|c.sent| + 1).Got? && !IsSuccess(net(|c.sent| + 1).resp.status)
    requires net(|c.sent| + 1).resp.status != 401
    ensures var o := SendRequest(net, c, verb, path, errors);
      o.r.Ok? && ReturnCode(o.r.value) == Some(net(|c.sent| + 1).resp.status)
      && Count(o.c.sent, Call) == Count(c.sent, Call) + 1
  {
    var url := Device(c.s) + path;
    var c1 := Send(c, Probe, "HEAD", c.s.physical, false);
    ProbePasses(net, c);
    var c2 := Send(c1, Call, verb, url, false);
    assert |c1.sent| == |c.sent| + 1;
    assert CallLoop(net, c1, verb, url, 2, Response(0, "", "", JNull)) == Ended(c2, net(|c.sent| + 1).resp);
    var v := VerifyResponse(c2.s, net(|c.sent| + 1).resp, verb, errors, false);
    assert SendRequest(net, c, verb, path, errors) == Out(SendHandle(v.error), c2);
    CountAppend(c1.sent, [Req(Call, verb, url, false)], Call);
    CountOne(Req(Call, verb, url, false), Call);
    CountAppend(c.sent, [Req(Probe, "HEAD", c.s.physical, false)], Call);
    CountOne(Req(Probe, "HEAD", c.s.physical, false), Call);
  }

  /** A built-in exception keeps its message: when a request is answered
      401 and the logon that follows answers 2xx with a body that is not an
      object, reading the token raises TypeError inside the `try`, and
      `send_request` raises ConnectionError with that TypeError's text. */
  lemma ReloginTypeErrorKept(net: Net, c: Conn, verb: string, path: string, errors: ErrorTable)
    requires c.s.auth && c.s.token.Some? && c.s.retries > 0 && |path| > 0 && path[0] == '/'
    requires !(c.s.dryrun && Mutating(verb))
    requires net(|c.sent|).Got? && IsSuccess(net(|c.sent|).resp.status)
    requires net(|c.sent| + 1).Got? && net(|c.sent| + 1).resp.status == 401
    requires net(|c.sent| + 2).Got? && IsSuccess(net(|c.sent| + 2).resp.status)
    requires !net(|c.sent| + 2).resp.body.JObj?
    ensures SendRequest(net, c, verb, path, errors).r ==
      Err(Connection(MsgArg(StrKeyMsg(net(|c.sent| + 2).resp.body))))
  {
    var url := Device(c.s) + path;
    var c1 := Send(c, Probe, "HEAD", c.s.physical, false);
    ProbePasses(net, c);
    var c2 := Send(c1, Call, verb, url, false);
    var c3 := c2.(s := c2.s.(auth := false, token := None));
    var lr := LoginLoop(net, c3, c3.s.retries, false, None);
    var resp := net(|c.sent| + 2).resp;
    assert |c3.sent| == |c.sent| + 2;
    assert lr.0 == Ok(Some(resp));
    var info := ReturnInfo(Some(resp.status), "POST", resp.url, resp.text, resp.body);
    assert VerifyResponse(lr.1.s, resp, "POST", LoginErrors, false) == Ok(info);
    var m := StrKeyMsg(resp.body);
    assert Login(net, c3, false).r == Err(TypeError(m));
    assert FirstArg(TypeError(m)) == Some(JStr(m)) && ExcStr(TypeError(m)) == m;
    assert SendHandle(TypeError(m)) == Err(Connection(MsgArg(m)));
    assert CallLoop(net, c1, verb, url, 2, Response(0, "", "", JNull)).Stopped?;
  }
}
