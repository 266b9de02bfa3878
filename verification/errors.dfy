/** The exceptions the tool raises, as one datatype. Each constructor stands
    for one Python exception class; the ones that carry the controller's
    info dictionary keep it, so that callers which inspect `e.args[0]` can be
    modelled. */
module Errors {
  import opened Json
  import Wrappers
  import Text

  /** The first positional argument an exception was raised with. */
  datatype Arg = InfoArg(info: Dict) | MsgArg(msg: string)

  /** The `requests` exception classes the connection layers distinguish,
      most specific first. */
  datatype Transport =
    | ConnectTimeout    // requests.ConnectTimeout
    | ConnectFailure    // requests.ConnectionError
    | HttpFailure       // requests.HTTPError
    | UrlRequired       // requests.URLRequired
    | OtherRequest      // any other requests.RequestException

  datatype Error =
    // connection layer of the hierarchy generation (DCNM_errors)
    | DcnmConnection(arg: Arg)
    | DcnmAuthentication(arg: Arg)
    // raised by both generations' `_verify_response` on a 401
    | DcnmUnauthorized(arg: Arg)
    // connection layer of the flat generation (dcnm_connect)
    | Connection(arg: Arg)
    | Authentication(arg: Arg)
    // a requests exception that propagated unchanged
    | RequestFailure(kind: Transport, payload: Wrappers.Option<Value>)
    // application errors (DCNM_errors, plugin_utils, utils)
    | ServerResponse(info: Dict)
    | ParameterError(msg: string)
    | SwitchesPoliciesParameter(msg: string)
    | InterfacesParameter(msg: string)
    | SwitchStatus(msg: string)
    | SwitchStatusParameter(msg: string)
    | PolicyDeploy(msg: string)
    | DcnmValue(msg: string)
    | SwitchesSwitchesParameter(msg: string)
    | PlugInInitialization(msg: string)
    | CsvInput(msg: string, column: Wrappers.Option<string>)
    | FileError(msg: string)
    | ExcelFile(msg: string)
    | PlainException(msg: string)
    // Python built-in exceptions the code can raise by accident
    | KeyError(key: string)
    // a KeyError for an `(ifName, serialNumber)` dictionary key
    | InterfaceKeyError(ifName: string, serialNumber: string)
    | IndexError(msg: string)
    | TypeError(msg: string)
    | AttributeError(name: string)
    | UnboundLocal(name: string)
    | ValueError(msg: string)
    // a module-level name that is bound only when the module runs as a
    // script
    | NameError(name: string)
    // `from module import name` of a name the module does not define
    | ImportError(name: string, source: string)

  /** `e.args[0]` as a decoded value; `None` when the exception carries no
      argument, which among the exceptions here only a `requests` exception
      raised without one does. */
  function FirstArg(e: Error): (r: Wrappers.Option<Value>)
    ensures r.None? <==> e.RequestFailure? && e.payload.None?
    ensures e.KeyError? ==> r == Wrappers.Some(JStr(e.key))
    ensures e.IndexError? || e.TypeError? || e.ValueError? ==> r == Wrappers.Some(JStr(e.msg))
    ensures e.UnboundLocal? ==> r == Wrappers.Some(JStr(UnboundMsg(e.name)))
  {
    match e
    case DcnmConnection(a) => Wrappers.Some(ArgValue(a))
    case DcnmAuthentication(a) => Wrappers.Some(ArgValue(a))
    case DcnmUnauthorized(a) => Wrappers.Some(ArgValue(a))
    case Connection(a) => Wrappers.Some(ArgValue(a))
    case Authentication(a) => Wrappers.Some(ArgValue(a))
    case RequestFailure(_, p) => p
    case ServerResponse(d) => Wrappers.Some(JObj(d))
    case ParameterError(m) => Wrappers.Some(JStr(m))
    case SwitchesPoliciesParameter(m) => Wrappers.Some(JStr(m))
    case InterfacesParameter(m) => Wrappers.Some(JStr(m))
    case SwitchStatus(m) => Wrappers.Some(JStr(m))
    case SwitchStatusParameter(m) => Wrappers.Some(JStr(m))
    case PolicyDeploy(m) => Wrappers.Some(JStr(m))
    case DcnmValue(m) => Wrappers.Some(JStr(m))
    case SwitchesSwitchesParameter(m) => Wrappers.Some(JStr(m))
    case PlugInInitialization(m) => Wrappers.Some(JStr(m))
    case CsvInput(m, _) => Wrappers.Some(JStr(m))
    case FileError(m) => Wrappers.Some(JStr(m))
    case ExcelFile(m) => Wrappers.Some(JStr(m))
    case PlainException(m) => Wrappers.Some(JStr(m))
    case KeyError(k) => Wrappers.Some(JStr(k))
    case InterfaceKeyError(i, sn) => Wrappers.Some(JList([JStr(i), JStr(sn)]))
    case IndexError(m) => Wrappers.Some(JStr(m))
    case TypeError(m) => Wrappers.Some(JStr(m))
    case AttributeError(n) => Wrappers.Some(JStr(n))
    case UnboundLocal(n) => Wrappers.Some(JStr(UnboundMsg(n)))
    case ValueError(m) => Wrappers.Some(JStr(m))
    case NameError(n) => Wrappers.Some(JStr(NameMsg(n)))
    case ImportError(n, m) => Wrappers.Some(JStr(ImportMsg(n, m)))
  }

  function ArgValue(a: Arg): Value {
    match a
    case InfoArg(d) => JObj(d)
    case MsgArg(m) => JStr(m)
  }

  // ---------------------------------------------------------------------
  // the messages CPython gives its built-in exceptions

  const ListIndexMsg := "list index out of range"
  const StrIndexMsg := "string index out of range"
  const TupleIndexMsg := "tuple index out of range"
  const NotStringMsg := "expected string or bytes-like object"
  const StrIndicesMsg := "string indices must be integers"

  /** Python's name for the type of a decoded value. */
  function TypeName(v: Value): string {
    match v
    case JNull => "NoneType"
    case JBool(_) => "bool"
    case JInt(_) => "int"
    case JStr(_) => "str"
    case JList(_) => "list"
    case JObj(_) => "dict"
  }

  /** The TypeError of `v[key]` with a string key on a value that is not
      a dictionary. */
  function StrKeyMsg(v: Value): string {
    match v
    case JList(_) => "list indices must be integers or slices, not str"
    case JStr(_) => StrIndicesMsg
    case _ => "'" + TypeName(v) + "' object is not subscriptable"
  }

  /** The TypeError of `key in v` on a value that is not a container. */
  function InMsg(v: Value): string {
    "argument of type '" + TypeName(v) + "' is not iterable"
  }

  /** The TypeError of `v > 299` on a value that is not a number. */
  function CompareMsg(v: Value): string {
    "'>' not supported between instances of '" + TypeName(v) + "' and 'int'"
  }

  /** The TypeError of iterating over a value of type `t`. */
  function NotIterableMsg(t: string): string {
    "'" + t + "' object is not iterable"
  }

  /** The TypeError of hashing a value of type `t`. */
  function UnhashableMsg(t: string): string {
    "unhashable type: '" + t + "'"
  }

  /** The ValueError of `int(s)`. */
  function IntLiteralMsg(s: string): string {
    "invalid literal for int() with base 10: '" + s + "'"
  }

  /** The ValueError of unpacking `got` values into two names. */
  function UnpackMsg(got: nat): string {
    if got < 2 then "not enough values to unpack (expected 2, got " + Text.NatToString(got) + ")"
    else "too many values to unpack (expected 2)"
  }

  /** The TypeError of calling `f` with a keyword it does not take. */
  function UnexpectedKeywordMsg(f: string, kw: string): string {
    f + "() got an unexpected keyword argument '" + kw + "'"
  }

  /** The UnboundLocalError of reading the local `n` before it is bound. */
  function UnboundMsg(n: string): string {
    "local variable '" + n + "' referenced before assignment"
  }

  /** `str(e)` for an exception raised with one argument: the text of a
      message, and the quoted key of a KeyError. The `repr` of a dictionary
      or list argument is not modelled and comes out empty. */
  function ExcStr(e: Error): (r: string)
    ensures e.KeyError? ==> r == "'" + e.key + "'"
    ensures !e.KeyError? && !e.InterfaceKeyError? && FirstArg(e).Some? && FirstArg(e).value.JStr? ==>
      r == FirstArg(e).value.s
  {
    match e
    case KeyError(k) => "'" + k + "'"
    case InterfaceKeyError(i, sn) => "('" + i + "', '" + sn + "')"
    case _ =>
      match FirstArg(e)
      case Some(JStr(m)) => m
      case _ => ""
  }

  /** The ImportError of importing the undefined name `n` from module `m`
      (CPython appends the module's file path, which is left out). */
  function ImportMsg(n: string, m: string): string {
    "cannot import name '" + n + "' from '" + m + "'"
  }

  /** The NameError of reading the unbound global `n`. */
  function NameMsg(n: string): string {
    "name '" + n + "' is not defined"
  }
}
