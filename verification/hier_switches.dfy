/** The switch inventory of the plugin-based generation
    (dcnm/heirarchy/dcnm_switches.py): `Switch` records keyed by serial
    number, the cached leaf and not-leaf serial lists, the policy filter
    that attaches policies to the switches, and the status query. */
module HierSwitches {
  import opened Wrappers
  import opened Json
  import opened Errors
  import opened Records
  import Text
  import HierUtils
  import PolicyFilter
  import SwitchStatus
  import HierFabric

  /** One `Switch` object. */
  datatype Switch = Switch(
    serialNumber: string,
    peerSerialNumber: Option<string>,
    switchRole: Option<string>,
    fabricName: string,
    policies: seq<Policy>,
    policiesPrev: seq<Policy>)

  /** The argument of `add_policies`: a list, one dictionary, or anything
      else. */
  datatype PolicyArg = AddList(items: seq<Policy>) | AddOne(one: Policy) | AddOther

  /** `add_policies`: a list is concatenated, a dictionary appended, and
      anything else ignored; only the policy list changes. */
  function AddPolicies(s: Switch, a: PolicyArg): (r: Switch)
    ensures r.(policies := s.policies) == s
    ensures |s.policies| <= |r.policies| && r.policies[..|s.policies|] == s.policies
    ensures a.AddList? ==> r.policies[|s.policies|..] == a.items
    ensures a.AddOne? ==> r.policies[|s.policies|..] == [a.one]
    ensures a.AddOther? ==> r == s
  {
    match a
    case AddList(items) => s.(policies := s.policies + items)
    case AddOne(p) => s.(policies := s.policies + [p])
    case AddOther => s
  }

  /** Adding two lists one after the other is adding their
      concatenation. */
  lemma AddPoliciesTwice(s: Switch, a: seq<Policy>, b: seq<Policy>)
    ensures AddPolicies(AddPolicies(s, AddList(a)), AddList(b)) == AddPolicies(s, AddList(a + b))
  {
    assert s.policies + a + b == s.policies + (a + b);
  }

  /** `clear_policies`. */
  function ClearPolicies(s: Switch): (r: Switch)
    ensures r.policies == [] && r.(policies := s.policies) == s
  {
    s.(policies := [])
  }

  /** `save_policies`: the previous list becomes a copy of the current
      one. */
  function SavePolicies(s: Switch): (r: Switch)
    ensures r.policiesPrev == s.policies && r.(policiesPrev := s.policiesPrev) == s
  {
    s.(policiesPrev := s.policies)
  }

  /** Saving then clearing keeps the policies only as the previous list,
      and adding a list afterwards gives exactly that list. */
  lemma SaveClearAdd(s: Switch, items: seq<Policy>)
    ensures AddPolicies(ClearPolicies(SavePolicies(s)), AddList(items)).policies == items
    ensures AddPolicies(ClearPolicies(SavePolicies(s)), AddList(items)).policiesPrev == s.policies
  {
  }

  /** The state of a `DcnmSwitches` handler: the switches, the cached
      leaf and not-leaf lists (empty when not computed), the four flags
      and the two policy caches. */
  datatype Inventory = Inventory(
    switches: ODict<string, Switch>,
    leafCache: seq<string>,
    notleafCache: seq<string>,
    vpcPairsDone: bool,
    detailsDone: bool,
    policiesDone: bool,
    policiesPrevDone: bool,
    policyCache: map<string, seq<Policy>>,
    prevCache: map<string, seq<Policy>>)

  predicate Valid(inv: Inventory) {
    WellFormed(inv.switches)
  }

  /** A handler with everything cleared. */
  function Cleared(): (inv: Inventory)
    ensures Valid(inv) && inv.switches.m == map[]
  {
    Inventory(EmptyDict(), [], [], false, false, false, false, map[], map[])
  }

  // ---------------------------------------------------------------------
  // switch_factory

  /** The role: `switchRole` when present, else `role`. */
  function RoleOf(rec: SwitchRec): (r: Option<string>)
    ensures rec.switchRole.Some? ==> r == rec.switchRole
    ensures rec.switchRole.None? ==> r == rec.role
  {
    if rec.switchRole.Some? then rec.switchRole else rec.role
  }

  /** The `Switch` built from one inventory record. The default of
      `switch.get('fabricName', ...)` is evaluated first, so the fabric is
      always queried through `switchFabric`, and its failure aborts even
      when the record names its fabric. */
  function Build(rec: SwitchRec, queried: string): (s: Switch)
    ensures s.serialNumber == rec.serialNumber && s.peerSerialNumber.None? && s.switchRole == RoleOf(rec)
    ensures s.policies == [] && s.policiesPrev == []
    ensures s.fabricName == if rec.fabricName.Some? then rec.fabricName.value else queried
  {
    Switch(rec.serialNumber, None, RoleOf(rec), if rec.fabricName.Some? then rec.fabricName.value else queried, [], [])
  }

  /** The serials the records name. */
  function SerialsOf(records: seq<SwitchRec>): (r: set<string>)
    decreases |records|
  {
    if |records| == 0 then {}
    else SerialsOf(records[..|records| - 1]) + {records[|records| - 1].serialNumber}
  }

  /** Every record's serial is among them. */
  lemma {:induction false} SerialsOfHas(records: seq<SwitchRec>, k: nat)
    requires k < |records|
    ensures records[k].serialNumber in SerialsOf(records)
    decreases |records|
  {
    var n := |records| - 1;
    if k < n {
      assert records[..n][k] == records[k];
      SerialsOfHas(records[..n], k);
    }
  }

  /** The fabric query succeeds for every record. */
  predicate FabricsFound(records: seq<SwitchRec>, switchFabric: string -> Result<string, Error>)
    decreases |records|
  {
    |records| == 0 ||
    (FabricsFound(records[..|records| - 1], switchFabric) && switchFabric(records[|records| - 1].serialNumber).Ok?)
  }

  lemma {:induction false} FabricsFoundAll(records: seq<SwitchRec>, switchFabric: string -> Result<string, Error>)
    ensures FabricsFound(records, switchFabric) <==> forall k :: 0 <= k < |records| ==> switchFabric(records[k].serialNumber).Ok?
    decreases |records|
  {
    if |records| > 0 {
      var front := records[..|records| - 1];
      FabricsFoundAll(front, switchFabric);
      assert forall k :: 0 <= k < |front| ==> front[k] == records[k];
    }
  }

  /** `switch_factory`: each record replaces the switch of its serial;
      a serial listed twice ends with the later record. Switches not
      listed are kept. */
  function SwitchFactory(records: seq<SwitchRec>, switchFabric: string -> Result<string, Error>,
                         sw: ODict<string, Switch>): (r: Result<ODict<string, Switch>, Error>)
    requires WellFormed(sw)
    ensures r.Ok? <==> FabricsFound(records, switchFabric)
    ensures r.Ok? ==> WellFormed(r.value)
    ensures r.Ok? ==> r.value.m.Keys == sw.m.Keys + SerialsOf(records)
    decreases |records|
  {
    if |records| == 0 then Ok(sw)
    else
      var front := records[..|records| - 1];
      var last := records[|records| - 1];
      assert forall k :: 0 <= k < |front| ==> front[k] == records[k];
      match SwitchFactory(front, switchFabric, sw)
      case Err(e) => Err(e)
      case Ok(prev) =>
        match switchFabric(last.serialNumber)
        case Err(e) => Err(e)
        case Ok(q) => Ok(Put(prev, last.serialNumber, Build(last, q)))
  }

  /** The switches the records do not list are kept as they were. */
  lemma {:induction false} SwitchFactoryKeeps(records: seq<SwitchRec>, switchFabric: string -> Result<string, Error>,
                                              sw: ODict<string, Switch>, sn: string)
    requires WellFormed(sw) && SwitchFactory(records, switchFabric, sw).Ok?
    requires sn in sw.m && sn !in SerialsOf(records)
    ensures sn in SwitchFactory(records, switchFabric, sw).value.m
    ensures SwitchFactory(records, switchFabric, sw).value.m[sn] == sw.m[sn]
    decreases |records|
  {
    if |records| > 0 {
      var n := |records| - 1;
      SwitchFactoryStep(records, switchFabric, sw);
      SwitchFactoryKeeps(records[..n], switchFabric, sw, sn);
      UpdateKeeps(SwitchFactory(records[..n], switchFabric, sw).value.m, records[n].serialNumber,
                  Build(records[n], switchFabric(records[n].serialNumber).value), sn);
    }
  }

  /** A serial's last record is the one its switch is built from. */
  lemma SwitchFactoryLastWins(records: seq<SwitchRec>, switchFabric: string -> Result<string, Error>,
                              sw: ODict<string, Switch>, k: nat)
    requires WellFormed(sw) && k < |records|
    requires SwitchFactory(records, switchFabric, sw).Ok?
    requires forall j :: k < j < |records| ==> records[j].serialNumber != records[k].serialNumber
    ensures switchFabric(records[k].serialNumber).Ok?
    ensures records[k].serialNumber in SwitchFactory(records, switchFabric, sw).value.m
    ensures SwitchFactory(records, switchFabric, sw).value.m[records[k].serialNumber]
      == Build(records[k], switchFabric(records[k].serialNumber).value)
  {
    FactoryMapAgrees(records, switchFabric, sw);
    FactoryMapLastWins(records, switchFabric, sw.m, k);
  }

  /** The switch map the factory builds, without the key order: each
      record in turn puts its switch under its serial. */
  function FactoryMap(records: seq<SwitchRec>, switchFabric: string -> Result<string, Error>,
                      m: map<string, Switch>): (r: Result<map<string, Switch>, Error>)
    decreases |records|
  {
    if |records| == 0 then Ok(m)
    else
      var n := |records| - 1;
      match FactoryMap(records[..n], switchFabric, m)
      case Err(e) => Err(e)
      case Ok(prev) =>
        match switchFabric(records[n].serialNumber)
        case Err(e) => Err(e)
        case Ok(q) => Ok(prev[records[n].serialNumber := Build(records[n], q)])
  }

  /** The factory and the plain map fold agree on success and on the map. */
  lemma {:induction false} FactoryMapAgrees(records: seq<SwitchRec>, switchFabric: string -> Result<string, Error>,
                                            sw: ODict<string, Switch>)
    requires WellFormed(sw)
    ensures SwitchFactory(records, switchFabric, sw).Ok? <==> FactoryMap(records, switchFabric, sw.m).Ok?
    ensures SwitchFactory(records, switchFabric, sw).Ok? ==>
      SwitchFactory(records, switchFabric, sw).value.m == FactoryMap(records, switchFabric, sw.m).value
    decreases |records|
  {
    if |records| > 0 {
      FactoryMapAgrees(records[..|records| - 1], switchFabric, sw);
    }
  }

  /** In the map fold, a serial's last record is the one its switch is
      built from. */
  lemma {:induction false} FactoryMapLastWins(records: seq<SwitchRec>, switchFabric: string -> Result<string, Error>,
                                              m: map<string, Switch>, k: nat)
    requires k < |records| && FactoryMap(records, switchFabric, m).Ok?
    requires forall j :: k < j < |records| ==> records[j].serialNumber != records[k].serialNumber
    ensures switchFabric(records[k].serialNumber).Ok?
    ensures records[k].serialNumber in FactoryMap(records, switchFabric, m).value
    ensures FactoryMap(records, switchFabric, m).value[records[k].serialNumber]
      == Build(records[k], switchFabric(records[k].serialNumber).value)
    decreases |records|
  {
    var n := |records| - 1;
    if k < n {
      var front := records[..n];
      assert front[k] == records[k];
      forall j | k < j < |front| ensures front[j].serialNumber != records[k].serialNumber {
        assert front[j] == records[j];
      }
      FactoryMapLastWins(front, switchFabric, m, k);
    }
  }

  /** Putting one key leaves every other key's value as it was. */
  lemma UpdateKeeps(m: map<string, Switch>, key: string, b: Switch, sn: string)
    requires sn != key && sn in m
    ensures sn in m[key := b] && m[key := b][sn] == m[sn]
  {
  }

  /** The switches after the last record: those before it, with the last
      record's switch put under its serial. */
  lemma SwitchFactoryStep(records: seq<SwitchRec>, switchFabric: string -> Result<string, Error>, sw: ODict<string, Switch>)
    requires WellFormed(sw) && |records| > 0
    requires SwitchFactory(records, switchFabric, sw).Ok?
    ensures var n := |records| - 1;
      var last := records[n];
      SwitchFactory(records[..n], switchFabric, sw).Ok? && switchFabric(last.serialNumber).Ok? &&
      SwitchFactory(records, switchFabric, sw).value.m ==
        SwitchFactory(records[..n], switchFabric, sw).value.m[last.serialNumber := Build(last, switchFabric(last.serialNumber).value)]
  {
  }

  // ---------------------------------------------------------------------
  // all_leaf_switches / all_notleaf_switches

  /** The serials of `keys`, in order, whose role is (or is not) leaf. */
  function RoleFilter(keys: seq<string>, m: map<string, Switch>, leaf: bool): (r: seq<string>)
    requires forall k :: 0 <= k < |keys| ==> keys[k] in m
    ensures forall k :: 0 <= k < |r| ==> r[k] in keys
    ensures forall k :: 0 <= k < |keys| ==> (keys[k] in r <==> (m[keys[k]].switchRole == Some("leaf")) == leaf)
    decreases |keys|
  {
    if |keys| == 0 then []
    else
      var rest := RoleFilter(keys[1..], m, leaf);
      assert forall k :: 1 <= k < |keys| ==> keys[k] == keys[1..][k - 1];
      if (m[keys[0]].switchRole == Some("leaf")) == leaf then [keys[0]] + rest else rest
  }

  /** The `all_leaf_switches` property: a non-empty cached list is
      returned unchanged; otherwise it is recomputed from the switches and
      cached. */
  function AllLeaf(inv: Inventory): (r: (seq<string>, Inventory))
    requires Valid(inv)
    ensures Valid(r.1) && r.1.switches == inv.switches
    ensures |inv.leafCache| > 0 ==> r == (inv.leafCache, inv)
    ensures |inv.leafCache| == 0 ==> r.1 == inv.(leafCache := r.0)
    ensures |inv.leafCache| == 0 ==> forall sn :: sn in inv.switches.m ==>
      (sn in r.0 <==> inv.switches.m[sn].switchRole == Some("leaf"))
    ensures |inv.leafCache| == 0 ==> forall k :: 0 <= k < |r.0| ==> r.0[k] in inv.switches.m
  {
    if |inv.leafCache| > 0 then (inv.leafCache, inv)
    else
      var l := RoleFilter(inv.switches.keys, inv.switches.m, true);
      (l, inv.(leafCache := l))
  }

  /** The `all_notleaf_switches` property. */
  function AllNotLeaf(inv: Inventory): (r: (seq<string>, Inventory))
    requires Valid(inv)
    ensures Valid(r.1) && r.1.switches == inv.switches
    ensures |inv.notleafCache| > 0 ==> r == (inv.notleafCache, inv)
    ensures |inv.notleafCache| == 0 ==> r.1 == inv.(notleafCache := r.0)
    ensures |inv.notleafCache| == 0 ==> forall sn :: sn in inv.switches.m ==>
      (sn in r.0 <==> inv.switches.m[sn].switchRole != Some("leaf"))
    ensures |inv.notleafCache| == 0 ==> forall k :: 0 <= k < |r.0| ==> r.0[k] in inv.switches.m
  {
    if |inv.notleafCache| > 0 then (inv.notleafCache, inv)
    else
      var l := RoleFilter(inv.switches.keys, inv.switches.m, false);
      (l, inv.(notleafCache := l))
  }

  /** Computed fresh, the two lists partition the switches: every serial
      is in exactly one of them, and they hold nothing else. */
  lemma LeafPartition(inv: Inventory, sn: string)
    requires Valid(inv) && |inv.leafCache| == 0 && |inv.notleafCache| == 0
    ensures sn in inv.switches.m ==> (sn in AllLeaf(inv).0 <==> sn !in AllNotLeaf(inv).0)
    ensures sn in AllLeaf(inv).0 || sn in AllNotLeaf(inv).0 ==> sn in inv.switches.m
  {
    var l := AllLeaf(inv).0;
    var n := AllNotLeaf(inv).0;
    if sn in l {
      var k :| 0 <= k < |l| && l[k] == sn;
    }
    if sn in n {
      var k :| 0 <= k < |n| && n[k] == sn;
    }
  }

  // ---------------------------------------------------------------------
  // get_all_switches

  /** `get_all_switches`: everything is cleared, the reply is checked and
      the listed switches become the whole inventory. `resp` is the
      controller reply and `records` the switch list its `MESSAGE`
      decodes to. */
  function GetAllSwitches(resp: Dict, records: seq<SwitchRec>, switchFabric: string -> Result<string, Error>)
    : (r: Result<Inventory, Error>)
    ensures r.Ok? ==> Valid(r.value)
    ensures r.Ok? ==> r.value.switches.m.Keys == SerialsOf(records)
    ensures r.Ok? ==> r.value.(switches := Cleared().switches) == Cleared()
    ensures HierUtils.CheckResponse(resp).Err? ==> r.Err?
  {
    HierUtils.ErrorHandler(
      var _ :- HierUtils.CheckResponse(resp);
      var sw :- SwitchFactory(records, switchFabric, Cleared().switches);
      Ok(Cleared().(switches := sw)))
  }

  // ---------------------------------------------------------------------
  // determine_parameters

  const NoParamsMsg := "Provide either a list of serial numbers or first run eitherget_all_switches or get_switches_by_serial_numbers"

  /** `determine_parameters`: the `serialNumber` query value. A list is
      joined with commas, a string used as it is; otherwise every known
      serial is used, unless the leaf and not-leaf lists are both empty.
      The properties it reads may fill the caches. */
  function DetermineParameters(a: SerialArg, inv: Inventory): (r: Result<(string, Inventory), Error>)
    requires Valid(inv)
    ensures r.Ok? ==> Valid(r.value.1) && r.value.1.switches == inv.switches
    ensures a.SerialList? && Given(a) ==> r == Ok((Text.Join(a.items, ","), inv))
    ensures a.OneSerial? && Given(a) ==> r == Ok((a.s, inv))
    ensures !Given(a) && |inv.leafCache| == 0 && |inv.notleafCache| == 0 ==>
      (r.Err? <==> |inv.switches.keys| == 0)
    ensures r.Err? ==> r.error == SwitchesPoliciesParameter(NoParamsMsg)
    ensures !Given(a) && r.Ok? ==> r.value.0 == Text.Join(inv.switches.keys, ",")
  {
    if a.SerialList? && Given(a) then Ok((Text.Join(a.items, ","), inv))
    else if a.OneSerial? && Given(a) then Ok((a.s, inv))
    else
      var (leaf, inv1) := AllLeaf(inv);
      if |leaf| > 0 then Ok((Text.Join(inv1.switches.keys, ","), inv1))
      else
        var (notleaf, inv2) := AllNotLeaf(inv1);
        if |notleaf| > 0 then Ok((Text.Join(inv2.switches.keys, ","), inv2))
        else
          Err(SwitchesPoliciesParameter(NoParamsMsg))
  }

  /** With no argument, the query names every known switch: splitting the
      value at the commas gives the serials back. */
  lemma DetermineParametersAll(inv: Inventory)
    requires Valid(inv) && |inv.switches.keys| > 0
    requires forall k :: 0 <= k < |inv.switches.keys| ==> Text.NoChar(inv.switches.keys[k], ',')
    requires DetermineParameters(NoSerials, inv).Ok?
    ensures Text.Split(DetermineParameters(NoSerials, inv).value.0, ',') == inv.switches.keys
  {
    Text.JoinSplit(inv.switches.keys, ',');
  }

  // ---------------------------------------------------------------------
  // get_switches_policies

  const HierFilterTypesMsg := "description must be a string or a list of strings\ntemplateName must be a string or a list of strings\nconfig must be a string or a list of strings"

  /** `all(f.match(policy) for f in filters)` when there are filters; a
      parameter error from a filter is re-raised with the message above. */
  function Verdict(filtersGiven: bool, matchAll: Policy -> Result<bool, Error>, p: Policy): (r: Result<bool, Error>)
    ensures !filtersGiven ==> r == Ok(true)
    ensures filtersGiven && matchAll(p).Ok? ==> r == matchAll(p)
    ensures r.Err? ==> !r.error.ParameterError?
  {
    if !filtersGiven then Ok(true)
    else
      match matchAll(p)
      case Err(ParameterError(_)) => Err(SwitchesPoliciesParameter(HierFilterTypesMsg))
      case other => other
  }

  /** The fabric test: a serial is dropped only when its switch is known
      and sits in another fabric. */
  function FabricKeeps(sw: map<string, Switch>, fabric: string, sn: string): (b: bool)
    ensures !b <==> sn in sw && sw[sn].fabricName != fabric
  {
    sn !in sw || sw[sn].fabricName == fabric
  }

  /** The opening loops of `get_switches_policies`, as written: when
      policies were fetched before, `for switch in self.switches` walks the
      serial strings and calls `clear_policies` (or `save_policies`) on one,
      which raises AttributeError as soon as there is a switch. */
  function ResetAsWritten(inv: Inventory, savePrev: bool): (r: Result<Inventory, Error>)
    ensures inv.policiesDone && |inv.switches.keys| > 0 ==> r.Err?
    ensures !inv.policiesDone || |inv.switches.keys| == 0 ==> r == Ok(inv)
  {
    if inv.policiesDone && |inv.switches.keys| > 0 then
      Err(AttributeError(if savePrev then "save_policies" else "clear_policies"))
    else Ok(inv)
  }

  /** The opening loops as they are evidently meant, walking the `Switch`
      objects: every switch is cleared (after saving when `savePrev`). */
  function ResetCorrected(inv: Inventory, savePrev: bool): (r: Result<Inventory, Error>)
    requires Valid(inv)
    ensures r.Ok? && Valid(r.value)
    ensures r.value.switches.keys == inv.switches.keys
    ensures !inv.policiesDone ==> r == Ok(inv)
    ensures inv.policiesDone ==> forall sn :: sn in inv.switches.m ==> (r.value.switches.m[sn].policies == [] &&
      r.value.switches.m[sn].policiesPrev == (if savePrev && inv.policiesDone then inv.switches.m[sn].policies
                                              else inv.switches.m[sn].policiesPrev))
  {
    if !inv.policiesDone then Ok(inv)
    else
      var m := map sn | sn in inv.switches.m ::
        var s := inv.switches.m[sn]; if savePrev then ClearPolicies(SavePolicies(s)) else ClearPolicies(s);
      Ok(inv.(switches := ODict(inv.switches.keys, m),
              policiesPrevDone := inv.policiesPrevDone || (savePrev && |inv.switches.keys| > 0)))
  }

  /** A second policy query after a first one fails as written but not
      once the loops walk the switches. */
  lemma SecondQueryRaises(inv: Inventory, savePrev: bool)
    requires Valid(inv) && inv.policiesDone && |inv.switches.keys| > 0
    ensures ResetAsWritten(inv, savePrev).Err?
    ensures ResetCorrected(inv, savePrev).Ok?
  {
  }

  /** The second loop: a switch holding policies has them cleared, after
      saving them when `savePrev`. */
  function ClearHeld(inv: Inventory, savePrev: bool): (r: Inventory)
    requires Valid(inv)
    ensures Valid(r) && r.switches.keys == inv.switches.keys && r.switches.m.Keys == inv.switches.m.Keys
    ensures forall sn :: sn in r.switches.m ==> (r.switches.m[sn].policies == [] &&
      r.switches.m[sn].(policies := inv.switches.m[sn].policies, policiesPrev := inv.switches.m[sn].policiesPrev)
        == inv.switches.m[sn])
    ensures forall sn :: sn in r.switches.m ==> (r.switches.m[sn].policiesPrev ==
      (if savePrev && |inv.switches.m[sn].policies| > 0 then inv.switches.m[sn].policies else inv.switches.m[sn].policiesPrev))
  {
    var m := map sn | sn in inv.switches.m ::
      var s := inv.switches.m[sn];
      if |s.policies| > 0 && savePrev then ClearPolicies(SavePolicies(s))
      else if |s.policies| > 0 then ClearPolicies(s)
      else s;
    inv.(switches := ODict(inv.switches.keys, m))
  }

  /** The last loop: each surviving group is added to its switch, which
      must be known. */
  function Attach(keys: seq<string>, g: map<string, seq<Policy>>, sw: ODict<string, Switch>)
    : (r: Result<ODict<string, Switch>, Error>)
    requires WellFormed(sw)
    requires forall k :: 0 <= k < |keys| ==> keys[k] in g
    requires Distinct(keys)
    ensures r.Ok? <==> forall k :: 0 <= k < |keys| ==> keys[k] in sw.m
    ensures r.Ok? ==> WellFormed(r.value) && r.value.keys == sw.keys
    ensures r.Ok? ==> forall sn :: sn in sw.m ==>
      r.value.m[sn] == if sn in keys then AddPolicies(sw.m[sn], AddList(g[sn])) else sw.m[sn]
    decreases |keys|
  {
    if |keys| == 0 then Ok(sw)
    else
      var sn := keys[0];
      assert forall k :: 1 <= k < |keys| ==> keys[k] == keys[1..][k - 1];
      if sn !in sw.m then Err(KeyError(sn))
      else
        var rest :- Attach(keys[1..], g, Put(sw, sn, AddPolicies(sw.m[sn], AddList(g[sn]))));
        Ok(rest)
  }

  /** The fabric test of `get_switches_policies`, applied only when a
      (non-empty) fabric is given. */
  predicate FabricPasses(sw: map<string, Switch>, fabric: Option<string>, sn: string) {
    fabric.None? || fabric == Some("") || FabricKeeps(sw, fabric.value, sn)
  }

  /** The grouped, filtered and pruned policies of the reply. */
  function Filtered(sw: map<string, Switch>, fabric: Option<string>, filtersGiven: bool,
                    matchAll: Policy -> Result<bool, Error>, items: seq<Policy>): (r: Result<PolicyFilter.Groups, Error>)
    ensures r.Ok? ==> PolicyFilter.Grouped(r.value)
    ensures r.Ok? ==> forall sn :: sn in r.value.m ==> (FabricPasses(sw, fabric, sn) &&
      forall p :: p in r.value.m[sn] ==> p in items && p.serialNumber == sn && Verdict(filtersGiven, matchAll, p) == Ok(true))
    ensures r.Ok? ==> forall k :: (0 <= k < |items| && FabricPasses(sw, fabric, items[k].serialNumber) &&
      Verdict(filtersGiven, matchAll, items[k]) == Ok(true)) ==>
      items[k].serialNumber in r.value.m && items[k] in r.value.m[items[k].serialNumber]
  {
    PolicyFilter.Select(items, sn => FabricPasses(sw, fabric, sn), p => Verdict(filtersGiven, matchAll, p))
  }

  /** Attaching the groups to switches whose lists were just cleared: a
      switch ends up holding its group, or nothing. */
  lemma AttachCleared(g: PolicyFilter.Groups, sw: ODict<string, Switch>, r: ODict<string, Switch>)
    requires PolicyFilter.Grouped(g) && WellFormed(sw)
    requires forall sn :: sn in sw.m ==> sw.m[sn].policies == []
    requires Attach(g.keys, g.m, sw) == Ok(r)
    ensures forall sn :: sn in r.m ==> r.m[sn].policies == (if sn in g.m then g.m[sn] else [])
  {
    forall sn | sn in r.m
      ensures r.m[sn].policies == (if sn in g.m then g.m[sn] else [])
    {
      assert sn in g.keys <==> sn in g.m;
      if sn in g.keys {
        assert r.m[sn] == AddPolicies(sw.m[sn], AddList(g.m[sn]));
      }
    }
  }

  /** `Attach` succeeds exactly when every group's serial is a known
      switch. */
  lemma AttachOk(g: PolicyFilter.Groups, sw: ODict<string, Switch>)
    requires PolicyFilter.Grouped(g) && WellFormed(sw)
    ensures Attach(g.keys, g.m, sw).Ok? <==> g.m.Keys <= sw.m.Keys
  {
    assert forall sn :: sn in g.m ==> exists k :: 0 <= k < |g.keys| && g.keys[k] == sn;
  }

  /** The surviving groups attached to switches whose lists were cleared:
      each switch holds exactly its group, or nothing. */
  function AttachGroups(g: PolicyFilter.Groups, inv: Inventory): (r: Result<Inventory, Error>)
    requires PolicyFilter.Grouped(g) && Valid(inv)
    requires forall sn :: sn in inv.switches.m ==> inv.switches.m[sn].policies == []
    ensures r.Ok? <==> g.m.Keys <= inv.switches.m.Keys
    ensures r.Ok? ==> Valid(r.value) && r.value.policiesDone && r.value.switches.keys == inv.switches.keys
    ensures r.Ok? ==> r.value.switches.m.Keys == inv.switches.m.Keys
    ensures r.Ok? ==> forall sn :: sn in r.value.switches.m ==>
      r.value.switches.m[sn].policies == (if sn in g.m then g.m[sn] else [])
  {
    AttachOk(g, inv.switches);
    match Attach(g.keys, g.m, inv.switches)
    case Err(e) => Err(e)
    case Ok(sw) =>
      AttachCleared(g, inv.switches, sw);
      Ok(inv.(switches := sw, policiesDone := true))
  }

  /** What `get_switches_policies` promises about the switches it leaves:
      a switch of another fabric holds nothing, every held policy is one of
      the reply's, of that switch and passing every filter, and every such
      policy is held. */
  predicate Selected(before: map<string, Switch>, after: map<string, Switch>, fabric: Option<string>,
                     filtersGiven: bool, matchAll: Policy -> Result<bool, Error>, items: seq<Policy>) {
    (forall sn :: sn in after ==> (FabricPasses(before, fabric, sn) || after[sn].policies == [])) &&
    (forall sn :: sn in after ==>
      forall p :: p in after[sn].policies ==>
        p in items && p.serialNumber == sn && Verdict(filtersGiven, matchAll, p) == Ok(true)) &&
    (forall k :: (0 <= k < |items| && FabricPasses(before, fabric, items[k].serialNumber) &&
      Verdict(filtersGiven, matchAll, items[k]) == Ok(true)) ==>
      items[k].serialNumber in after && items[k] in after[items[k].serialNumber].policies)
  }

  lemma SelectedFromGroups(g: PolicyFilter.Groups, before: map<string, Switch>, after: map<string, Switch>,
                           fabric: Option<string>, filtersGiven: bool, matchAll: Policy -> Result<bool, Error>,
                           items: seq<Policy>)
    requires Filtered(before, fabric, filtersGiven, matchAll, items) == Ok(g)
    requires g.m.Keys <= after.Keys
    requires forall sn :: sn in after ==> after[sn].policies == (if sn in g.m then g.m[sn] else [])
    ensures Selected(before, after, fabric, filtersGiven, matchAll, items)
  {
  }

  /** The steps after the opening loops, before `error_handler`. */
  function PoliciesSteps(reset: Result<Inventory, Error>, a: SerialArg, fabric: Option<string>,
                         filtersGiven: bool, matchAll: Policy -> Result<bool, Error>, savePrev: bool,
                         resp: Dict, items: seq<Policy>): (r: Result<Inventory, Error>)
    requires reset.Ok? ==> Valid(reset.value)
    ensures r.Ok? ==> reset.Ok? && Valid(r.value) && r.value.policiesDone
    ensures r.Ok? ==> r.value.switches.keys == reset.value.switches.keys
    ensures r.Ok? ==> Selected(reset.value.switches.m, r.value.switches.m, fabric, filtersGiven, matchAll, items)
  {
    match reset
    case Err(e) => Err(e)
    case Ok(inv0) =>
      var inv1 := ClearHeld(inv0, savePrev);
      match DetermineParameters(a, inv1)
      case Err(e) => Err(e)
      case Ok(params) =>
        var inv2 := params.1;
        match HierUtils.CheckResponse(resp)
        case Err(e) => Err(e)
        case Ok(_) =>
          match Filtered(inv0.switches.m, fabric, filtersGiven, matchAll, items)
          case Err(e) => Err(e)
          case Ok(g) =>
            var r := AttachGroups(g, inv2);
            if r.Err? then r
            else
              SelectedFromGroups(g, inv0.switches.m, r.value.switches.m, fabric, filtersGiven, matchAll, items);
              r
  }

  /** `get_switches_policies` after its opening loops: `reset` is either
      reading of them. `resp` is the controller reply and `items` the
      policies its `MESSAGE` decodes to; `matchAll` stands for the filter
      objects built from the (wrapped) filter arguments. */
  function PoliciesAfterReset(reset: Result<Inventory, Error>, a: SerialArg, fabric: Option<string>,
                              filtersGiven: bool, matchAll: Policy -> Result<bool, Error>, savePrev: bool,
                              resp: Dict, items: seq<Policy>): (r: Result<Inventory, Error>)
    requires reset.Ok? ==> Valid(reset.value)
    ensures r.Ok? ==> reset.Ok? && Valid(r.value) && r.value.policiesDone
    ensures r.Ok? ==> r.value.switches.keys == reset.value.switches.keys
    ensures r.Ok? ==> Selected(reset.value.switches.m, r.value.switches.m, fabric, filtersGiven, matchAll, items)
  {
    HierUtils.ErrorHandler(PoliciesSteps(reset, a, fabric, filtersGiven, matchAll, savePrev, resp, items))
  }

  /** `get_switches_policies` as written. */
  function GetSwitchesPolicies(inv: Inventory, a: SerialArg, fabric: Option<string>, filtersGiven: bool,
                               matchAll: Policy -> Result<bool, Error>, savePrev: bool, resp: Dict, items: seq<Policy>)
    : (r: Result<Inventory, Error>)
    requires Valid(inv)
    ensures inv.policiesDone && |inv.switches.keys| > 0 ==> r.Err?
    ensures r.Ok? ==> Valid(r.value) && r.value.policiesDone && r.value.switches.keys == inv.switches.keys
  {
    PoliciesAfterReset(ResetAsWritten(inv, savePrev), a, fabric, filtersGiven, matchAll, savePrev, resp, items)
  }

  /** `get_switches_policies` with the opening loops walking the switches:
      a switch ends up holding exactly policies of the reply that pass the
      fabric test and every filter, and each such policy is attached. */
  function GetSwitchesPoliciesCorrected(inv: Inventory, a: SerialArg, fabric: Option<string>, filtersGiven: bool,
                                        matchAll: Policy -> Result<bool, Error>, savePrev: bool, resp: Dict,
                                        items: seq<Policy>)
    : (r: Result<Inventory, Error>)
    requires Valid(inv)
    ensures r.Ok? ==> Valid(r.value) && r.value.policiesDone && r.value.switches.keys == inv.switches.keys
    ensures r.Ok? ==> Selected(inv.switches.m, r.value.switches.m, fabric, filtersGiven, matchAll, items)
  {
    var reset := ResetCorrected(inv, savePrev);
    PoliciesAfterReset(reset, a, fabric, filtersGiven, matchAll, savePrev, resp, items)
  }

  // ---------------------------------------------------------------------
  // get_switches_vpc_pairs

  const NoSwitchesMsg := "You must first run either get_all_switches or get_switches_by_serial_numbers"

  /** `get_switches_vpc_pairs` as written: every constructed `Switch` has
      a `peerSerialNumber` attribute, so no pair is queried; only the flag
      is set. */
  function GetSwitchesVpcPairs(inv: Inventory): (r: Result<Inventory, Error>)
    ensures |inv.switches.m| == 0 <==> r.Err?
    ensures r.Err? ==> r.error == SwitchesSwitchesParameter(NoSwitchesMsg)
    ensures r.Ok? ==> r.value.vpcPairsDone && r.value.switches == inv.switches
  {
    if |inv.switches.m| == 0 then Err(SwitchesSwitchesParameter(NoSwitchesMsg))
    else Ok(inv.(vpcPairsDone := true))
  }

  /** After a successful pair query every peer is still the one the
      factory or an earlier assignment left. */
  lemma VpcPairsKeepPeers(inv: Inventory, sn: string)
    requires sn in inv.switches.m && GetSwitchesVpcPairs(inv).Ok?
    ensures GetSwitchesVpcPairs(inv).value.switches.m[sn].peerSerialNumber == inv.switches.m[sn].peerSerialNumber
  {
  }

  // ---------------------------------------------------------------------
  // get_switches_status

  const HierStatusParamMsg := "Must provide a serial number or a list of serial numbers\nOr get_all_switches or get_switches_by_serial_number\nMust have prevously been run!"

  /** The serials whose status is wanted: the argument when given (a
      string wrapped into a list), else every known switch. */
  function StatusSerials(a: SerialArg, inv: Inventory): (r: Result<seq<string>, Error>)
    ensures Given(a) ==> r.Ok?
    ensures a.OneSerial? && Given(a) ==> r == Ok([a.s])
    ensures a.SerialList? && Given(a) ==> r == Ok(a.items)
    ensures !Given(a) ==> (r.Err? <==> |inv.switches.keys| == 0)
    ensures !Given(a) && r.Ok? ==> r.value == inv.switches.keys
    ensures r.Err? ==> r.error == SwitchStatusParameter(HierStatusParamMsg)
  {
    if Given(a) then (if a.OneSerial? then Ok([a.s]) else Ok(a.items))
    else if |inv.switches.keys| > 0 then Ok(inv.switches.keys)
    else Err(SwitchStatusParameter(HierStatusParamMsg))
  }

  /** `self.switches[serial_number].fabricName`. */
  function FabricOf(sw: map<string, Switch>, sn: string): (r: Result<string, Error>)
    ensures r.Ok? <==> sn in sw
    ensures r.Ok? ==> r.value == sw[sn].fabricName
    ensures r.Err? ==> r.error == KeyError(sn)
  {
    if sn in sw then Ok(sw[sn].fabricName) else Err(KeyError(sn))
  }

  /** `get_switches_status`: each fabric of the wanted switches is queried
      at most once, and only wanted serials are reported. */
  function GetSwitchesStatus(a: SerialArg, inv: Inventory, fabrics: HierFabric.Fabrics, env: SwitchStatus.Env)
    : (r: Result<SwitchStatus.Outcome, Error>)
    ensures !Given(a) && |inv.switches.keys| == 0 ==> r == Err(SwitchStatusParameter(HierStatusParamMsg))
    ensures r.Ok? ==> forall sn :: sn in r.value.statuses ==> sn in StatusSerials(a, inv).value
    ensures r.Ok? ==> SwitchStatus.PollsOk(r.value.st) && |r.value.st.local.m| > 0
    ensures r.Ok? ==> |r.value.st.polls| <= |StatusSerials(a, inv).value|
  {
    var serials :- StatusSerials(a, inv);
    SwitchStatus.Collect(serials, sn => FabricOf(inv.switches.m, sn), fabrics, env)
  }
}
