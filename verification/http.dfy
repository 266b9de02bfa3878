/** What both connection layers share: the controller's replies, the record
    of requests sent, and the info dictionary built from a reply. The
    network is an oracle: the n-th request sent in a run receives the n-th
    reply. */
module Http {
  import opened Wrappers
  import opened Json
  import opened Errors

  /** A reply the controller sent back: status code, final URL, raw text and
      decoded JSON body. */
  datatype Response = Response(status: int, url: string, text: string, body: Value)

  /** A request either gets a response or the transport raises. */
  datatype Reply =
    | Got(resp: Response)
    | Raised(kind: Transport, payload: Option<Value>)

  /** The controller, as the sequence of replies it gives. */
  type Net = nat -> Reply

  datatype ReqKind = LogonPost | LogoutPost | Probe | Call

  /** One request put on the wire; `prompted` records whether the
      credentials of a logon attempt were read from the terminal. */
  datatype Req = Req(kind: ReqKind, verb: string, url: string, prompted: bool)

  /** The reply the oracle gives to the next request of a run. */
  function NextReply(net: Net, sent: seq<Req>): Reply {
    net(|sent|)
  }

  /** The 2xx (Successful) status class of section 15.3 of RFC 9110. */
  predicate IsSuccess(rc: int) {
    200 <= rc <= 299
  }

  /** The methods a dry run short-circuits. */
  predicate Mutating(verb: string) {
    verb == "post" || verb == "put" || verb == "delete"
  }

  /** `{"RETURN_CODE": 200}`, what a dry run returns. */
  const DryRunReply: Dict := map["RETURN_CODE" := JInt(200)]

  const InfoKeys: set<string> := {"RETURN_CODE", "METHOD", "REQUEST_PATH", "MESSAGE", "DATA"}

  function CodeValue(rc: Option<int>): Value {
    match rc
    case Some(c) => JInt(c)
    case None => JNull
  }

  /** `_return_info`: the uniform info dictionary. It has exactly the five
      keys, each holding the corresponding argument. */
  function ReturnInfo(rc: Option<int>, verb: string, path: string, msg: string, data: Value): (d: Dict)
    ensures d.Keys == InfoKeys
    ensures d["RETURN_CODE"] == CodeValue(rc) && d["METHOD"] == JStr(verb)
    ensures d["REQUEST_PATH"] == JStr(path) && d["MESSAGE"] == JStr(msg) && d["DATA"] == data
  {
    map["RETURN_CODE" := CodeValue(rc), "METHOD" := JStr(verb), "REQUEST_PATH" := JStr(path),
        "MESSAGE" := JStr(msg), "DATA" := data]
  }

  /** The status code recorded in an info dictionary, if any. */
  function ReturnCode(d: Dict): Option<int> {
    if "RETURN_CODE" in d && d["RETURN_CODE"].JInt? then Some(d["RETURN_CODE"].i) else None
  }

  /** How many requests of a kind a run sent. */
  function Count(sent: seq<Req>, kind: ReqKind): nat
  {
    if |sent| == 0 then 0
    else Count(sent[..|sent| - 1], kind) + (if sent[|sent| - 1].kind == kind then 1 else 0)
  }

  lemma {:induction false} CountAppend(a: seq<Req>, b: seq<Req>, kind: ReqKind)
    ensures Count(a + b, kind) == Count(a, kind) + Count(b, kind)
    decreases |b|
  {
    if |b| == 0 {
      assert a + b == a;
    } else {
      assert (a + b)[..|a + b| - 1] == a + b[..|b| - 1];
      CountAppend(a, b[..|b| - 1], kind);
    }
  }

  lemma CountOne(r: Req, kind: ReqKind)
    ensures Count([r], kind) == if r.kind == kind then 1 else 0
  {
    assert [r][..0] == [];
  }

  /** Only requests of kind `kind` appear in `sent` from index `from` on. */
  predicate OnlyKind(sent: seq<Req>, from: nat, kind: ReqKind) {
    forall i :: from <= i < |sent| ==> sent[i].kind == kind
  }

  /** A suffix made of requests of another kind adds nothing to the count. */
  lemma {:induction false} CountOther(a: seq<Req>, b: seq<Req>, kind: ReqKind, other: ReqKind)
    requires other != kind
    requires OnlyKind(b, 0, other)
    ensures Count(a + b, kind) == Count(a, kind)
    decreases |b|
  {
    if |b| == 0 {
      assert a + b == a;
    } else {
      assert (a + b)[..|a + b| - 1] == a + b[..|b| - 1];
      CountOther(a, b[..|b| - 1], kind, other);
    }
  }
}
