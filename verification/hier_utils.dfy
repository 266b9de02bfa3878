/** The response checks, the policy-config extractor and the
    `error_handler` decorator of dcnm/heirarchy/DCNM_utils.py. */
module HierUtils {
  import opened Wrappers
  import opened Json
  import opened Errors
  import opened Records
  import Text
  import Http

  // ---------------------------------------------------------------------
  // _check_response / _check_action_response

  /** `response['RETURN_CODE'] > 299` as Python evaluates it: a missing key
      raises KeyError, a boolean compares as 0 or 1, and any non-number
      raises TypeError. */
  function AboveRange(resp: Dict): (r: Result<bool, Error>)
    ensures "RETURN_CODE" !in resp ==> r == Err(KeyError("RETURN_CODE"))
    ensures Http.ReturnCode(resp).Some? ==> r == Ok(Http.ReturnCode(resp).value > 299)
  {
    if "RETURN_CODE" !in resp then Err(KeyError("RETURN_CODE"))
    else
      match resp["RETURN_CODE"]
      case JInt(i) => Ok(i > 299)
      case JBool(_) => Ok(false)
      case _ => Err(TypeError(CompareMsg(resp["RETURN_CODE"])))
  }

  /** `_check_response`: the reply passes through unchanged when its code is
      at most 299 and is raised as a server-response error otherwise. */
  function CheckResponse(resp: Dict): (r: Result<Dict, Error>)
    ensures r.Ok? ==> r.value == resp
    ensures r.Err? ==> r.error.ServerResponse? || r.error.KeyError? || r.error.TypeError?
    ensures Http.ReturnCode(resp).Some? ==>
      (r.Ok? <==> Http.ReturnCode(resp).value <= 299) &&
      (r.Err? ==> r.error == ServerResponse(resp))
  {
    var above :- AboveRange(resp);
    if above then Err(ServerResponse(resp)) else Ok(resp)
  }

  /** `_check_action_response`: True exactly when the code is 200, so other
      2xx codes count as a failure here. */
  function CheckActionResponse(resp: Dict): (r: Result<bool, Error>)
    ensures r.Err? <==> "RETURN_CODE" !in resp
    ensures r.Err? ==> r.error == KeyError("RETURN_CODE")
    ensures r.Ok? ==> (r.value <==> Http.ReturnCode(resp) == Some(200))
  {
    if "RETURN_CODE" !in resp then Err(KeyError("RETURN_CODE"))
    else Ok(resp["RETURN_CODE"] == JInt(200))
  }

  /** A created-but-not-OK reply is a failed action, though it passes the
      response check. */
  lemma CreatedIsNotAction(resp: Dict)
    requires Http.ReturnCode(resp) == Some(201)
    ensures CheckResponse(resp) == Ok(resp)
    ensures CheckActionResponse(resp) == Ok(false)
  {
  }

  // ---------------------------------------------------------------------
  // error_handler

  /** The `error_handler` decorator around a call whose outcome was `r`.
      Return values and other exceptions pass through. A server-response
      error has its argument evaluated back into a dictionary and its
      `DATA` inspected for logging, which raises KeyError, IndexError or
      TypeError when that data is missing or shaped unexpectedly; otherwise
      the original exception is re-raised. */
  function ErrorHandler<T>(r: Result<T, Error>): (o: Result<T, Error>)
    ensures r.Ok? ==> o == r
    ensures r.Err? ==> o.Err?
    ensures r.Err? && !r.error.ServerResponse? ==> o == r
  {
    match r
    case Ok(_) => r
    case Err(ServerResponse(info)) =>
      if "DATA" !in info then Err(KeyError("DATA"))
      else (
        match info["DATA"]
        case JList(items) =>
          if |items| == 0 then Err(IndexError(ListIndexMsg))
          else (
            match items[0]
            case JObj(f) => if "message" in f then r else Err(KeyError("message"))
            case _ => Err(TypeError(StrKeyMsg(items[0])))
          )
        case _ => r
      )
    case Err(_) => r
  }

  // ---------------------------------------------------------------------
  // the spinner decorator

  /** The `spinner` decorator around a call whose outcome was `r`. A
      return value passes through. The `except` block logs `value`, which
      the failed call never bound, so every exception leaves as an
      UnboundLocalError on `value` in place of the original. */
  function Spinner<T>(r: Result<T, Error>): (o: Result<T, Error>)
    ensures r.Ok? ==> o == r
    ensures o.Err? <==> r.Err?
    ensures o.Err? ==> o.error == UnboundLocal("value")
  {
    if r.Ok? then r else Err(UnboundLocal("value"))
  }

  /** The decorator as evidently intended: log and re-raise the original
      exception. */
  function SpinnerCorrected<T>(r: Result<T, Error>): (o: Result<T, Error>)
    ensures o == r
  {
    r
  }

  /** As written, the decorator loses which exception the call raised: any
      two failures of a decorated call look the same to its caller. */
  lemma SpinnerMasks<T>(a: Result<T, Error>, b: Result<T, Error>)
    requires a.Err? && b.Err?
    ensures Spinner(a) == Spinner(b)
    ensures a != b ==> SpinnerCorrected(a) != SpinnerCorrected(b)
  {
  }

  /** The controller's usual error body (`DATA` a string, or a list whose
      first entry has a `message`) is re-raised unchanged. */
  lemma ErrorHandlerReRaises<T>(info: Dict)
    requires "DATA" in info
    requires info["DATA"].JStr? ||
      (info["DATA"].JList? && |info["DATA"].items| > 0 &&
       info["DATA"].items[0].JObj? && "message" in info["DATA"].items[0].fields)
    ensures ErrorHandler<T>(Err(ServerResponse(info))) == Err(ServerResponse(info))
  {
  }

  // ---------------------------------------------------------------------
  // get_info_from_policies_config

  /** One item of `pattern.findall(text)`: the matched string when the
      pattern has at most one group, the tuple of groups otherwise. */
  datatype Found = FStr(s: string) | FTuple(groups: seq<string>)

  /** `re.compile(config, re.MULTILINE).findall(text)`. */
  type FindAll = (string, string) -> seq<Found>

  /** A derived key: the serial alone, or a tuple of groups ending in it. */
  datatype DKey = KOne(k: string) | KTuple(parts: seq<string>)

  /** A derived value: one group, the tuple of requested indices (what the
      code stores), or the tuple of groups (what the docstring describes). */
  datatype DVal = DOne(v: string) | DIndices(idx: seq<int>) | DGroups(parts: seq<string>)

  /** `InfoFromPolicies(existing_descriptions, policyId)`. */
  datatype Info = Info(table: map<DKey, DVal>, policyId: string)

  /** `item[i]`: a group of a tuple, or one character of a string. */
  function Item(f: Found, i: int): (r: Result<string, Error>)
    ensures r.Err? ==> r.error == IndexError(if f.FStr? then StrIndexMsg else TupleIndexMsg)
    ensures f.FTuple? ==> (r.Ok? <==> Text.IndexOk(|f.groups|, i))
    ensures f.FTuple? && r.Ok? ==> r.value == f.groups[Text.Position(|f.groups|, i)]
    ensures f.FStr? && r.Ok? ==> |r.value| == 1
  {
    match f
    case FStr(s) => if Text.IndexOk(|s|, i) then Ok([s[Text.Position(|s|, i)]]) else Err(IndexError(StrIndexMsg))
    case FTuple(g) => if Text.IndexOk(|g|, i) then Ok(g[Text.Position(|g|, i)]) else Err(IndexError(TupleIndexMsg))
  }

  /** `[item[i] for i in idx]`, stopping at the first failing subscript. */
  function Picks(f: Found, idx: seq<int>): (r: Result<seq<string>, Error>)
    ensures r.Ok? ==> |r.value| == |idx|
    ensures r.Ok? <==> forall k :: 0 <= k < |idx| ==> Item(f, idx[k]).Ok?
    ensures r.Ok? ==> forall k :: 0 <= k < |idx| ==> r.value[k] == Item(f, idx[k]).value
    decreases |idx|
  {
    if |idx| == 0 then Ok([])
    else
      var first :- Item(f, idx[0]);
      var rest :- Picks(f, idx[1..]);
      assert forall k :: 1 <= k < |idx| ==> idx[1..][k - 1] == idx[k];
      Ok([first] + rest)
  }

  /** Python truthiness of the optional index list. */
  predicate Given(idx: Option<seq<int>>) {
    idx.Some? && |idx.value| > 0
  }

  function Selected(f: Found, idx: Option<seq<int>>): (r: Result<seq<string>, Error>)
    ensures r.Ok? && !Given(idx) ==> r.value == []
    ensures r.Ok? && Given(idx) ==> |r.value| == |idx.value|
  {
    if Given(idx) then Picks(f, idx.value) else Ok([])
  }

  /** The derived key: the selected groups followed by the serial, kept as
      a scalar only when that list has one element. */
  function DeriveKey(f: Found, keyIdx: Option<seq<int>>, sn: string): (r: Result<DKey, Error>)
    ensures r.Ok? ==> (r.value.KOne? <==> !Given(keyIdx))
    ensures r.Ok? && r.value.KOne? ==> r.value.k == sn
    ensures r.Ok? && r.value.KTuple? ==>
      |r.value.parts| == |keyIdx.value| + 1 && r.value.parts[|keyIdx.value|] == sn &&
      (forall k :: 0 <= k < |keyIdx.value| ==> Item(f, keyIdx.value[k]) == Ok(r.value.parts[k]))
    ensures r.Err? ==> Given(keyIdx)
  {
    var groups :- Selected(f, keyIdx);
    var parts := groups + [sn];
    if |parts| == 1 then Ok(KOne(parts[0])) else Ok(KTuple(parts))
  }

  /** The derived value as written: one selected group is stored as itself;
      otherwise `tuple(value_tuple)` stores the indices, raising TypeError
      when no index list was given at all. */
  function DeriveValue(f: Found, valueIdx: Option<seq<int>>): (r: Result<DVal, Error>)
    ensures Given(valueIdx) && |valueIdx.value| == 1 && r.Ok? ==> r.value.DOne? && Item(f, valueIdx.value[0]) == Ok(r.value.v)
    ensures Given(valueIdx) && |valueIdx.value| != 1 && r.Ok? ==> r.value == DIndices(valueIdx.value)
    ensures valueIdx.None? ==> r == Err(TypeError(NotIterableMsg("NoneType")))
    ensures valueIdx == Some([]) ==> r == Ok(DIndices([]))
  {
    var vals :- Selected(f, valueIdx);
    if |vals| == 1 then Ok(DOne(vals[0]))
    else if valueIdx.None? then Err(TypeError(NotIterableMsg("NoneType")))
    else Ok(DIndices(valueIdx.value))
  }

  /** The derived value as the docstring describes it: the selected
      groups. */
  function DeriveValueCorrected(f: Found, valueIdx: Option<seq<int>>): (r: Result<DVal, Error>)
    ensures r.Ok? && !Given(valueIdx) ==> r.value == DGroups([])
    ensures r.Ok? && r.value.DGroups? ==> |r.value.parts| != 1
    ensures r.Ok? && Given(valueIdx) && |valueIdx.value| != 1 ==>
      r.value.DGroups? && |r.value.parts| == |valueIdx.value| &&
      forall k :: 0 <= k < |valueIdx.value| ==> Item(f, valueIdx.value[k]) == Ok(r.value.parts[k])
  {
    var vals :- Selected(f, valueIdx);
    if |vals| == 1 then Ok(DOne(vals[0])) else Ok(DGroups(vals))
  }

  /** With exactly one value index the code and the docstring agree. */
  lemma DeriveValueOneIndex(f: Found, i: int)
    ensures DeriveValue(f, Some([i])) == DeriveValueCorrected(f, Some([i]))
  {
  }

  /** With two value indices the code stores the indices, not the groups. */
  lemma DeriveValueStoresIndices()
    ensures DeriveValue(FTuple(["Eth1/1", "uplink", "FDO1"]), Some([1, 2])) == Ok(DIndices([1, 2]))
    ensures DeriveValueCorrected(FTuple(["Eth1/1", "uplink", "FDO1"]), Some([1, 2])) == Ok(DGroups(["uplink", "FDO1"]))
  {
    var f := FTuple(["Eth1/1", "uplink", "FDO1"]);
    assert Item(f, 1) == Ok("uplink");
    assert Item(f, 2) == Ok("FDO1");
    var p := Picks(f, [1, 2]);
    assert p.Ok? && |p.value| == 2;
    assert p.value == ["uplink", "FDO1"];
  }

  /** Every derived key in a table. */
  function KeysOf(items: seq<Found>, keyIdx: Option<seq<int>>, sn: string): set<DKey> {
    set k, d | 0 <= k < |items| && d == DeriveKey(items[k], keyIdx, sn) && d.Ok? :: d.value
  }

  /** The value rule in use: as written, or as the docstring describes. */
  function Derive(f: Found, valueIdx: Option<seq<int>>, corrected: bool): Result<DVal, Error> {
    if corrected then DeriveValueCorrected(f, valueIdx) else DeriveValue(f, valueIdx)
  }

  /** The table for one policy: each findall item stores its derived value
      under its derived key, later items overwriting earlier ones; the first
      failing subscript aborts. */
  function Table(items: seq<Found>, keyIdx: Option<seq<int>>, valueIdx: Option<seq<int>>, sn: string,
                 corrected: bool, acc: map<DKey, DVal>): (r: Result<map<DKey, DVal>, Error>)
    ensures r.Ok? ==> r.value.Keys == acc.Keys + KeysOf(items, keyIdx, sn)
    decreases |items|
  {
    if |items| == 0 then Ok(acc)
    else
      var key :- DeriveKey(items[0], keyIdx, sn);
      var value :- Derive(items[0], valueIdx, corrected);
      var rest :- Table(items[1..], keyIdx, valueIdx, sn, corrected, acc[key := value]);
      KeysOfCons(items, keyIdx, sn);
      Ok(rest)
  }

  /** The last findall item's value survives under its key. */
  lemma {:induction false} TableLast(items: seq<Found>, keyIdx: Option<seq<int>>, valueIdx: Option<seq<int>>, sn: string,
                                     corrected: bool, acc: map<DKey, DVal>)
    requires |items| > 0
    requires Table(items, keyIdx, valueIdx, sn, corrected, acc).Ok?
    ensures var key := DeriveKey(items[|items| - 1], keyIdx, sn);
      var t := Table(items, keyIdx, valueIdx, sn, corrected, acc).value;
      key.Ok? && key.value in t && Derive(items[|items| - 1], valueIdx, corrected) == Ok(t[key.value])
    decreases |items|
  {
    var key := DeriveKey(items[0], keyIdx, sn).value;
    var value := Derive(items[0], valueIdx, corrected).value;
    if |items| > 1 {
      TableLast(items[1..], keyIdx, valueIdx, sn, corrected, acc[key := value]);
      assert items[1..][|items[1..]| - 1] == items[|items| - 1];
    }
  }

  lemma KeysOfCons(items: seq<Found>, keyIdx: Option<seq<int>>, sn: string)
    requires |items| > 0 && DeriveKey(items[0], keyIdx, sn).Ok?
    ensures KeysOf(items, keyIdx, sn) == {DeriveKey(items[0], keyIdx, sn).value} + KeysOf(items[1..], keyIdx, sn)
  {
    var tail := items[1..];
    forall d | d in KeysOf(items, keyIdx, sn)
      ensures d in {DeriveKey(items[0], keyIdx, sn).value} + KeysOf(tail, keyIdx, sn)
    {
      var k :| 0 <= k < |items| && DeriveKey(items[k], keyIdx, sn).Ok? && DeriveKey(items[k], keyIdx, sn).value == d;
      if k > 0 {
        assert tail[k - 1] == items[k];
      }
    }
    forall d | d in KeysOf(tail, keyIdx, sn) ensures d in KeysOf(items, keyIdx, sn) {
      var k :| 0 <= k < |tail| && DeriveKey(tail[k], keyIdx, sn).Ok? && DeriveKey(tail[k], keyIdx, sn).value == d;
      assert items[k + 1] == tail[k];
    }
  }

  /** The policies of every switch, flattened in iteration order, each with
      the serial it was listed under. */
  function Flatten(groups: seq<(string, seq<Policy>)>): (r: seq<(string, Policy)>)
    ensures |groups| == 0 ==> r == []
  {
    if |groups| == 0 then []
    else [] + Tag(groups[0].0, groups[0].1) + Flatten(groups[1..])
  }

  function Tag(sn: string, ps: seq<Policy>): (r: seq<(string, Policy)>)
    ensures |r| == |ps|
    ensures forall k :: 0 <= k < |ps| ==> r[k] == (sn, ps[k])
  {
    seq(|ps|, k requires 0 <= k < |ps| => (sn, ps[k]))
  }

  /** One `InfoFromPolicies` per policy, in order. */
  function Infos(findall: FindAll, config: string, flat: seq<(string, Policy)>,
                 keyIdx: Option<seq<int>>, valueIdx: Option<seq<int>>, corrected: bool)
    : (r: Result<seq<Info>, Error>)
    ensures r.Ok? ==> |r.value| == |flat|
    ensures r.Ok? ==> forall k :: 0 <= k < |flat| ==> r.value[k].policyId == flat[k].1.policyId
    ensures r.Ok? ==> forall k :: 0 <= k < |flat| ==>
      r.value[k].table.Keys == KeysOf(findall(config, flat[k].1.generatedConfig), keyIdx, flat[k].0)
    decreases |flat|
  {
    if |flat| == 0 then Ok([])
    else
      var sn := flat[0].0;
      var table :- Table(findall(config, flat[0].1.generatedConfig), keyIdx, valueIdx, sn, corrected, map[]);
      var rest :- Infos(findall, config, flat[1..], keyIdx, valueIdx, corrected);
      Ok([Info(table, flat[0].1.policyId)] + rest)
  }

  /** `get_info_from_policies_config` as written: one entry per policy, even
      one whose config matched nothing, and `None` only when there are no
      policies at all. */
  function GetInfoFromPoliciesConfig(findall: FindAll, config: string, groups: seq<(string, seq<Policy>)>,
                                     keyIdx: Option<seq<int>>, valueIdx: Option<seq<int>>)
    : (r: Result<Option<seq<Info>>, Error>)
    ensures r.Ok? ==> (r.value.None? <==> |Flatten(groups)| == 0)
    ensures r.Ok? && r.value.Some? ==>
      |r.value.value| == |Flatten(groups)| &&
      forall k :: 0 <= k < |Flatten(groups)| ==> r.value.value[k].policyId == Flatten(groups)[k].1.policyId
  {
    var infos :- Infos(findall, config, Flatten(groups), keyIdx, valueIdx, false);
    if |infos| == 0 then Ok(None) else Ok(Some(infos))
  }

  /** `get_info_from_policies_config` with the derived value taken from the
      groups. */
  function GetInfoFromPoliciesConfigCorrected(findall: FindAll, config: string, groups: seq<(string, seq<Policy>)>,
                                              keyIdx: Option<seq<int>>, valueIdx: Option<seq<int>>)
    : (r: Result<Option<seq<Info>>, Error>)
    ensures r.Ok? ==> (r.value.None? <==> |Flatten(groups)| == 0)
    ensures r.Ok? && r.value.Some? ==>
      |r.value.value| == |Flatten(groups)| &&
      forall k :: 0 <= k < |Flatten(groups)| ==> r.value.value[k].policyId == Flatten(groups)[k].1.policyId
  {
    var infos :- Infos(findall, config, Flatten(groups), keyIdx, valueIdx, true);
    if |infos| == 0 then Ok(None) else Ok(Some(infos))
  }

  /** The flattened list holds every policy of every switch. */
  lemma {:induction false} FlattenLength(groups: seq<(string, seq<Policy>)>)
    ensures |Flatten(groups)| == TotalPolicies(groups)
    decreases |groups|
  {
    if |groups| > 0 {
      FlattenLength(groups[1..]);
    }
  }

  function TotalPolicies(groups: seq<(string, seq<Policy>)>): nat
    decreases |groups|
  {
    if |groups| == 0 then 0 else |groups[0].1| + TotalPolicies(groups[1..])
  }

  /** The two tables agree for every policy when one value index is used
      (the default `[1]`). */
  lemma {:induction false} TableOneIndex(items: seq<Found>, keyIdx: Option<seq<int>>, i: int, sn: string, acc: map<DKey, DVal>)
    ensures Table(items, keyIdx, Some([i]), sn, false, acc) == Table(items, keyIdx, Some([i]), sn, true, acc)
    decreases |items|
  {
    if |items| > 0 {
      DeriveValueOneIndex(items[0], i);
      if DeriveKey(items[0], keyIdx, sn).Ok? && DeriveValue(items[0], Some([i])).Ok? {
        TableOneIndex(items[1..], keyIdx, i, sn, acc[DeriveKey(items[0], keyIdx, sn).value := DeriveValue(items[0], Some([i])).value]);
      }
    }
  }

  lemma {:induction false} InfosOneIndex(findall: FindAll, config: string, flat: seq<(string, Policy)>,
                                         keyIdx: Option<seq<int>>, i: int)
    ensures Infos(findall, config, flat, keyIdx, Some([i]), false) == Infos(findall, config, flat, keyIdx, Some([i]), true)
    decreases |flat|
  {
    if |flat| > 0 {
      TableOneIndex(findall(config, flat[0].1.generatedConfig), keyIdx, i, flat[0].0, map[]);
      InfosOneIndex(findall, config, flat[1..], keyIdx, i);
    }
  }

  /** With one value index, as with the defaults, the correction changes
      nothing. */
  lemma GetInfoOneIndex(findall: FindAll, config: string, groups: seq<(string, seq<Policy>)>,
                        keyIdx: Option<seq<int>>, i: int)
    ensures GetInfoFromPoliciesConfig(findall, config, groups, keyIdx, Some([i]))
      == GetInfoFromPoliciesConfigCorrected(findall, config, groups, keyIdx, Some([i]))
  {
    InfosOneIndex(findall, config, Flatten(groups), keyIdx, i);
  }
}
