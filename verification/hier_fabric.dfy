/** Fabric lookups of dcnm/heirarchy/dcnm_fabric.py: the fabric cache, a
    fabric's switch inventory and a switch's fabric. The flat generation's
    `get_fabric_id` and `get_switch_fabric` (dcnm/interfaces/dcnm_interfaces.py)
    are the same code and use these definitions too. */
module HierFabric {
  import opened Wrappers
  import opened Json
  import opened Errors
  import opened Records
  import HierUtils
  import Http

  /** A fabric as `/control/fabrics/msd/fabric-associations` lists it. */
  datatype FabricRec = FabricRec(fabricName: string, fabricId: Option<int>)

  /** The cache `fabrics`: fabric name to its record. */
  type Fabrics = map<string, FabricRec>

  function NamesOf(listed: seq<FabricRec>): set<string> {
    set k | 0 <= k < |listed| :: listed[k].fabricName
  }

  lemma NamesOfSnoc(listed: seq<FabricRec>)
    requires |listed| > 0
    ensures NamesOf(listed) == NamesOf(listed[..|listed| - 1]) + {listed[|listed| - 1].fabricName}
  {
    var front := listed[..|listed| - 1];
    assert forall k :: 0 <= k < |front| ==> front[k] == listed[k];
  }

  /** Stores every listed fabric under its name, later duplicates
      overwriting earlier ones; entries already cached stay. */
  function StoreFabrics(cache: Fabrics, listed: seq<FabricRec>): (r: Fabrics)
    ensures r.Keys == cache.Keys + NamesOf(listed)
    ensures forall name :: name in cache && name !in NamesOf(listed) ==> r[name] == cache[name]
    decreases |listed|
  {
    if |listed| == 0 then cache
    else
      NamesOfSnoc(listed);
      var last := listed[|listed| - 1];
      StoreFabrics(cache, listed[..|listed| - 1])[last.fabricName := last]
  }

  /** A fabric's last listing is the one kept. */
  lemma {:induction false} StoreFabricsLastWins(cache: Fabrics, listed: seq<FabricRec>, k: nat)
    requires k < |listed|
    requires forall j :: k < j < |listed| ==> listed[j].fabricName != listed[k].fabricName
    ensures StoreFabrics(cache, listed)[listed[k].fabricName] == listed[k]
    decreases |listed|
  {
    if k < |listed| - 1 {
      var front := listed[..|listed| - 1];
      assert front[k] == listed[k];
      StoreFabricsLastWins(cache, front, k);
    }
  }

  /** `get_fabric_id`: a reply above 299 raises before the cache is
      touched; otherwise the listed fabrics are stored. */
  function GetFabricId(resp: Result<Dict, Error>, listed: seq<FabricRec>, cache: Fabrics): (r: Result<Fabrics, Error>)
    ensures resp.Ok? && HierUtils.CheckResponse(resp.value).Ok? ==> r == Ok(StoreFabrics(cache, listed))
    ensures resp.Ok? && Http.ReturnCode(resp.value).Some? && Http.ReturnCode(resp.value).value > 299 ==> r.Err?
    ensures r.Ok? ==> cache.Keys <= r.value.Keys
  {
    HierUtils.ErrorHandler(
      var reply :- resp;
      var _ :- HierUtils.CheckResponse(reply);
      Ok(StoreFabrics(cache, listed)))
  }

  /** `get_fabric_switches_details`: a fresh map from serial number to the
      switch record listed under it (the last one, for a repeated
      serial). */
  function SwitchesBySerial(switches: seq<SwitchRec>): (r: map<string, SwitchRec>)
    ensures forall sn :: sn in r ==> r[sn].serialNumber == sn
    ensures forall k :: 0 <= k < |switches| ==> switches[k].serialNumber in r
    ensures forall sn :: sn in r ==> exists k :: 0 <= k < |switches| && switches[k] == r[sn]
    decreases |switches|
  {
    if |switches| == 0 then map[]
    else
      var front := switches[..|switches| - 1];
      var last := switches[|switches| - 1];
      assert forall k :: 0 <= k < |front| ==> front[k] == switches[k];
      SwitchesBySerial(front)[last.serialNumber := last]
  }

  function GetFabricSwitchesDetails(resp: Result<Dict, Error>, switches: seq<SwitchRec>): (r: Result<map<string, SwitchRec>, Error>)
    ensures r.Ok? ==> forall sn :: sn in r.value ==> r.value[sn].serialNumber == sn
    ensures r.Ok? ==> r.value.Keys == set k | 0 <= k < |switches| :: switches[k].serialNumber
    ensures resp.Ok? && HierUtils.CheckResponse(resp.value).Ok? ==> r.Ok?
  {
    HierUtils.ErrorHandler(
      var reply :- resp;
      var _ :- HierUtils.CheckResponse(reply);
      Ok(SwitchesBySerial(switches)))
  }

  /** `get_switch_fabric`: the `fabricName` field of the decoded reply; a
      reply without one raises KeyError. */
  function GetSwitchFabric(resp: Result<Dict, Error>, decoded: Dict): (r: Result<Value, Error>)
    ensures r.Ok? <==> resp.Ok? && HierUtils.CheckResponse(resp.value).Ok? && "fabricName" in decoded
    ensures r.Ok? ==> r.value == decoded["fabricName"]
  {
    HierUtils.ErrorHandler(
      var reply :- resp;
      var _ :- HierUtils.CheckResponse(reply);
      if "fabricName" in decoded then Ok(decoded["fabricName"]) else Err(KeyError("fabricName")))
  }
}
