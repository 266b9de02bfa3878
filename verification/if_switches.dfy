/** Switch discovery in the flat generation (dcnm/interfaces/dcnm_interfaces.py):
    the leaf and not-leaf maps, vPC peers, per-fabric status and the wait
    for a target status. Controller replies come in as parameters: the
    reply `get` returned (or the exception it raised) and the records its
    `MESSAGE` decodes to. */
module IfSwitches {
  import opened Wrappers
  import opened Json
  import opened Errors
  import opened Records
  import Text
  import HierUtils
  import HierFabric
  import SwitchStatus

  // ---------------------------------------------------------------------
  // get_all_switches

  /** The leaf map and the not-leaf map, serial to fabric name. */
  datatype Roles = Roles(leaf: ODict<string, string>, notleaf: ODict<string, string>)

  predicate RolesOk(r: Roles) {
    WellFormed(r.leaf) && WellFormed(r.notleaf)
  }

  predicate LeafRec(s: SwitchRec) {
    s.switchRole == Some("leaf")
  }

  /** `switch['switchRole']` and `switch['fabricName']` are present. */
  predicate Complete(s: SwitchRec) {
    s.switchRole.Some? && s.fabricName.Some?
  }

  /** Files each listed switch, in order, under the leaf map when its role
      is `leaf` and under the not-leaf map otherwise. A record without a
      role or fabric name raises KeyError. */
  function FileSwitches(switches: seq<SwitchRec>, into: Roles): (r: Result<Roles, Error>)
    requires RolesOk(into)
    ensures r.Ok? ==> RolesOk(r.value)
    ensures r.Ok? <==> forall k :: 0 <= k < |switches| ==> Complete(switches[k])
    ensures r.Err? ==> r.error.KeyError?
    decreases |switches|
  {
    if |switches| == 0 then Ok(into)
    else
      var prev :- FileSwitches(switches[..|switches| - 1], into);
      var s := switches[|switches| - 1];
      if s.switchRole.None? then Err(KeyError("switchRole"))
      else if s.fabricName.None? then Err(KeyError("fabricName"))
      else if LeafRec(s) then Ok(Roles(Put(prev.leaf, s.serialNumber, s.fabricName.value), prev.notleaf))
      else Ok(Roles(prev.leaf, Put(prev.notleaf, s.serialNumber, s.fabricName.value)))
  }

  /** A serial is in the leaf map exactly when some record lists it as a
      leaf, and in the not-leaf map exactly when some record lists it with
      another role. */
  lemma {:induction false} FileSwitchesMembers(switches: seq<SwitchRec>)
    requires FileSwitches(switches, Roles(EmptyDict(), EmptyDict())).Ok?
    ensures var r := FileSwitches(switches, Roles(EmptyDict(), EmptyDict())).value;
      (forall sn :: sn in r.leaf.m <==> exists k :: 0 <= k < |switches| && switches[k].serialNumber == sn && LeafRec(switches[k])) &&
      (forall sn :: sn in r.notleaf.m <==> exists k :: 0 <= k < |switches| && switches[k].serialNumber == sn && !LeafRec(switches[k]))
    decreases |switches|
  {
    if |switches| > 0 {
      var init := Roles(EmptyDict(), EmptyDict());
      var n := |switches| - 1;
      var front := switches[..n];
      var s := switches[n];
      FileSwitchesLast(switches, init);
      FileSwitchesMembers(front);
      var p := FileSwitches(front, init).value;
      var r := FileSwitches(switches, init).value;
      assert r.leaf.m.Keys == (if LeafRec(s) then p.leaf.m.Keys + {s.serialNumber} else p.leaf.m.Keys);
      assert r.notleaf.m.Keys == (if LeafRec(s) then p.notleaf.m.Keys else p.notleaf.m.Keys + {s.serialNumber});
      assert switches == front + [s];
      StepKeys(front, s, p.leaf.m.Keys, r.leaf.m.Keys, true);
      StepKeys(front, s, p.notleaf.m.Keys, r.notleaf.m.Keys, false);
    }
  }

  /** Filing the last record adds its serial to the map its role selects
      and leaves the other map as the earlier records made it. */
  lemma FileSwitchesLast(switches: seq<SwitchRec>, into: Roles)
    requires RolesOk(into) && |switches| > 0
    requires FileSwitches(switches, into).Ok?
    ensures FileSwitches(switches[..|switches| - 1], into).Ok?
    ensures var p := FileSwitches(switches[..|switches| - 1], into).value;
      var r := FileSwitches(switches, into).value;
      var s := switches[|switches| - 1];
      r == if LeafRec(s) then Roles(Put(p.leaf, s.serialNumber, s.fabricName.value), p.notleaf)
           else Roles(p.leaf, Put(p.notleaf, s.serialNumber, s.fabricName.value))
  {
    var front := switches[..|switches| - 1];
    assert forall k :: 0 <= k < |front| ==> Complete(front[k]) by {
      forall k | 0 <= k < |front| ensures Complete(front[k]) {
        assert front[k] == switches[k];
      }
    }
  }

  /** Filing one more record under the map for `leaf`-ness `leaf` adds its
      serial exactly when its role matches. */
  lemma StepKeys(front: seq<SwitchRec>, s: SwitchRec, before: set<string>, after: set<string>, leaf: bool)
    requires forall sn :: sn in before <==> exists k :: 0 <= k < |front| && front[k].serialNumber == sn && LeafRec(front[k]) == leaf
    requires after == if LeafRec(s) == leaf then before + {s.serialNumber} else before
    ensures forall sn :: sn in after <==>
      exists k :: 0 <= k < |front + [s]| && (front + [s])[k].serialNumber == sn && LeafRec((front + [s])[k]) == leaf
  {
    var all := front + [s];
    forall sn ensures sn in after <==> exists k :: 0 <= k < |all| && all[k].serialNumber == sn && LeafRec(all[k]) == leaf {
      if sn in before {
        var k :| 0 <= k < |front| && front[k].serialNumber == sn && LeafRec(front[k]) == leaf;
        assert all[k] == front[k];
      } else if sn in after {
        assert all[|front|] == s;
      }
      if exists k :: 0 <= k < |all| && all[k].serialNumber == sn && LeafRec(all[k]) == leaf {
        var k :| 0 <= k < |all| && all[k].serialNumber == sn && LeafRec(all[k]) == leaf;
        if k < |front| {
          assert front[k] == all[k];
        } else {
          assert all[k] == s;
        }
      }
    }
  }

  /** With distinct serials, every switch lands in exactly one map. */
  lemma FileSwitchesPartition(switches: seq<SwitchRec>)
    requires FileSwitches(switches, Roles(EmptyDict(), EmptyDict())).Ok?
    requires forall i, j :: 0 <= i < j < |switches| ==> switches[i].serialNumber != switches[j].serialNumber
    ensures var r := FileSwitches(switches, Roles(EmptyDict(), EmptyDict())).value;
      (forall k :: 0 <= k < |switches| ==>
        (switches[k].serialNumber in r.leaf.m <==> LeafRec(switches[k])) &&
        (switches[k].serialNumber in r.notleaf.m <==> !LeafRec(switches[k])))
  {
    FileSwitchesMembers(switches);
    var r := FileSwitches(switches, Roles(EmptyDict(), EmptyDict())).value;
    forall k | 0 <= k < |switches|
      ensures switches[k].serialNumber in r.leaf.m <==> LeafRec(switches[k])
      ensures switches[k].serialNumber in r.notleaf.m <==> !LeafRec(switches[k])
    {
      var sn := switches[k].serialNumber;
      if sn in r.leaf.m {
        var j :| 0 <= j < |switches| && switches[j].serialNumber == sn && LeafRec(switches[j]);
        assert j == k;
      }
      if sn in r.notleaf.m {
        var j :| 0 <= j < |switches| && switches[j].serialNumber == sn && !LeafRec(switches[j]);
        assert j == k;
      }
    }
  }

  /** `get_all_switches`: both maps are cleared and refilled from the
      inventory reply; a reply above 299 raises before anything is filed. */
  function GetAllSwitches(resp: Result<Dict, Error>, switches: seq<SwitchRec>): (r: Result<Roles, Error>)
    ensures r.Ok? ==> RolesOk(r.value)
    ensures r.Ok? ==> resp.Ok? && HierUtils.CheckResponse(resp.value).Ok?
    ensures resp.Ok? && HierUtils.CheckResponse(resp.value).Ok? ==>
      r == FileSwitches(switches, Roles(EmptyDict(), EmptyDict()))
  {
    HierUtils.ErrorHandler(
      var reply :- resp;
      var _ :- HierUtils.CheckResponse(reply);
      FileSwitches(switches, Roles(EmptyDict(), EmptyDict())))
  }

  // ---------------------------------------------------------------------
  // get_switches_vpc_pairs

  /** The peer map: serial to its vPC peer, or `None` when unpaired. */
  type Pairs = map<string, Option<string>>

  /** Records what `get_vpc_pair` returned for `sn`: `"A~B"` sets A to B
      and B to A; no pair records `sn` as unpaired; a reply that does not
      split into two raises ValueError. */
  function RecordPair(pairs: Pairs, sn: string, pair: Option<string>): (r: Result<Pairs, Error>)
    ensures pair.None? ==> r == Ok(pairs[sn := None])
    ensures pair.Some? ==> (r.Ok? <==> |Text.Split(pair.value, '~')| == 2)
    ensures pair.Some? && r.Ok? ==>
      var parts := Text.Split(pair.value, '~');
      r.value.Keys == pairs.Keys + {parts[0], parts[1]} &&
      r.value[parts[1]] == Some(parts[0]) &&
      (parts[0] != parts[1] ==> r.value[parts[0]] == Some(parts[1]))
    ensures r.Err? ==> r.error == ValueError(UnpackMsg(|Text.Split(pair.value, '~')|))
  {
    match pair
    case None => Ok(pairs[sn := None])
    case Some(p) =>
      var parts := Text.Split(p, '~');
      if |parts| != 2 then Err(ValueError(UnpackMsg(|parts|)))
      else Ok(pairs[parts[0] := Some(parts[1])][parts[1] := Some(parts[0])])
  }

  /** A well-formed pair string is recorded symmetrically. */
  lemma RecordPairSymmetric(pairs: Pairs, sn: string, a: string, b: string)
    requires Text.NoChar(a, '~') && Text.NoChar(b, '~')
    ensures RecordPair(pairs, sn, Some(a + "~" + b)) == Ok(pairs[a := Some(b)][b := Some(a)])
  {
    Text.SplitTwo(a, b, '~');
    assert a + "~" + b == a + ['~'] + b;
  }

  /** The peer map after the loop, and the serials that were queried. */
  datatype PairsRun = PairsRun(pairs: Pairs, queried: seq<string>)

  /** The loop over the leaf serials: a serial already in the map is not
      queried again. */
  function VpcPairs(serials: seq<string>, pairs: Pairs, getPair: string -> Result<Option<string>, Error>)
    : (r: Result<PairsRun, Error>)
    ensures r.Ok? ==> pairs.Keys <= r.value.pairs.Keys
    ensures r.Ok? ==> forall k :: 0 <= k < |serials| ==> serials[k] in r.value.pairs || serials[k] in r.value.queried
    ensures r.Ok? ==> forall i :: 0 <= i < |r.value.queried| ==> r.value.queried[i] in serials && r.value.queried[i] !in pairs
    decreases |serials|
  {
    if |serials| == 0 then Ok(PairsRun(pairs, []))
    else
      var sn := serials[0];
      if sn in pairs then
        var rest :- VpcPairs(serials[1..], pairs, getPair);
        assert forall k :: 1 <= k < |serials| ==> serials[1..][k - 1] == serials[k];
        Ok(rest)
      else
        var pair :- getPair(sn);
        var next :- RecordPair(pairs, sn, pair);
        var rest :- VpcPairs(serials[1..], next, getPair);
        assert forall k :: 1 <= k < |serials| ==> serials[1..][k - 1] == serials[k];
        Ok(PairsRun(rest.pairs, [sn] + rest.queried))
  }

  const NoLeafMsg := "You must first run either get_all_switches or get_switches_by_serial_numbers"

  /** `get_switches_vpc_pairs`: raises when no leaf switch is known,
      otherwise fills in the peers of every leaf. */
  function GetSwitchesVpcPairs(leaf: ODict<string, string>, pairs: Pairs, getPair: string -> Result<Option<string>, Error>)
    : (r: Result<PairsRun, Error>)
    requires WellFormed(leaf)
    ensures |leaf.m| == 0 ==> r == Err(SwitchesSwitchesParameter(NoLeafMsg))
    ensures r.Ok? ==> forall sn :: sn in leaf.m ==> sn in r.value.pairs || sn in r.value.queried
    ensures r.Ok? ==> forall sn :: sn in r.value.queried ==> sn in leaf.m && sn !in pairs
  {
    if |leaf.m| == 0 then Err(SwitchesSwitchesParameter(NoLeafMsg))
    else VpcPairs(leaf.keys, pairs, getPair)
  }

  /** `get_vpc_pair` as written: it sends through `dcnm.get`, and `dcnm` is
      a module-level name bound only when dcnm_interfaces.py runs as a
      script. Imported as a module, every call raises NameError, which
      `error_handler` re-raises. */
  function GetVpcPairAsWritten(sn: string): (r: Result<Option<string>, Error>)
    ensures r.Err? && r.error.NameError?
  {
    HierUtils.ErrorHandler(Err(NameError("dcnm")))
  }

  /** With `get_vpc_pair` as written, the loop succeeds exactly when every
      serial is already in the peer map, and then queries nothing. */
  lemma {:induction false} VpcPairsAsWritten(serials: seq<string>, pairs: Pairs)
    ensures VpcPairs(serials, pairs, GetVpcPairAsWritten).Ok? <==> forall k :: 0 <= k < |serials| ==> serials[k] in pairs
    ensures VpcPairs(serials, pairs, GetVpcPairAsWritten).Ok? ==>
      VpcPairs(serials, pairs, GetVpcPairAsWritten).value == PairsRun(pairs, [])
    ensures VpcPairs(serials, pairs, GetVpcPairAsWritten).Err? ==>
      VpcPairs(serials, pairs, GetVpcPairAsWritten).error == NameError("dcnm")
    decreases |serials|
  {
    if |serials| > 0 {
      assert forall k :: 1 <= k < |serials| ==> serials[1..][k - 1] == serials[k];
      VpcPairsAsWritten(serials[1..], pairs);
    }
  }

  /** As written, `get_switches_vpc_pairs` raises NameError as soon as one
      leaf switch's peer is not yet known; it succeeds only when there is
      nothing to look up. */
  lemma SwitchesVpcPairsAsWritten(leaf: ODict<string, string>, pairs: Pairs)
    requires WellFormed(leaf)
    ensures GetSwitchesVpcPairs(leaf, pairs, GetVpcPairAsWritten).Ok? <==> |leaf.m| > 0 && leaf.m.Keys <= pairs.Keys
    ensures |leaf.m| > 0 && !(leaf.m.Keys <= pairs.Keys) ==>
      GetSwitchesVpcPairs(leaf, pairs, GetVpcPairAsWritten) == Err(NameError("dcnm"))
  {
    VpcPairsAsWritten(leaf.keys, pairs);
    assert forall sn :: sn in leaf.m <==> exists k :: 0 <= k < |leaf.keys| && leaf.keys[k] == sn;
  }

  // ---------------------------------------------------------------------
  // get_switches_status / wait_for_switches_status

  const StatusParamMsg := "Must provide a serial number or a list of serial numbers\nOr get_all_switches or get_switches_by_serial_number\nMust have prevously been run!"

  /** The serials to report on: the argument when given (one serial becomes
      a list), otherwise every discovered serial, leaf ones first. */
  function StatusSerials(arg: SerialArg, roles: Roles): (r: Result<seq<string>, Error>)
    ensures arg.OneSerial? && Given(arg) ==> r == Ok([arg.s])
    ensures arg.SerialList? && Given(arg) ==> r == Ok(arg.items)
    ensures !Given(arg) ==> (r.Err? <==> |roles.leaf.keys| == 0 && |roles.notleaf.keys| == 0)
    ensures !Given(arg) && r.Ok? ==> r.value == roles.leaf.keys + roles.notleaf.keys
    ensures r.Err? ==> r.error == SwitchStatusParameter(StatusParamMsg)
  {
    if Given(arg) then (if arg.OneSerial? then Ok([arg.s]) else Ok(arg.items))
    else if |roles.leaf.keys| > 0 || |roles.notleaf.keys| > 0 then Ok(roles.leaf.keys + roles.notleaf.keys)
    else Err(SwitchStatusParameter(StatusParamMsg))
  }

  /** A serial's fabric: its non-empty entry in the leaf map, else in the
      not-leaf map, else what `get_switch_fabric` says. */
  function FabricOf(roles: Roles, switchFabric: string -> Result<string, Error>, sn: string): (r: Result<string, Error>)
    ensures sn in roles.leaf.m && roles.leaf.m[sn] != "" ==> r == Ok(roles.leaf.m[sn])
    ensures (sn !in roles.leaf.m || roles.leaf.m[sn] == "") && sn in roles.notleaf.m && roles.notleaf.m[sn] != "" ==>
      r == Ok(roles.notleaf.m[sn])
    ensures (sn !in roles.leaf.m || roles.leaf.m[sn] == "") && (sn !in roles.notleaf.m || roles.notleaf.m[sn] == "") ==>
      r == switchFabric(sn)
  {
    if sn in roles.leaf.m && roles.leaf.m[sn] != "" then Ok(roles.leaf.m[sn])
    else if sn in roles.notleaf.m && roles.notleaf.m[sn] != "" then Ok(roles.notleaf.m[sn])
    else switchFabric(sn)
  }

  /** The controller is asked only about a serial neither map files under
      a fabric: for a filed serial the lookup does not matter, and the
      answer is a fabric one of the maps records for it. */
  lemma FabricOfFiledIgnoresLookup(roles: Roles, f1: string -> Result<string, Error>, f2: string -> Result<string, Error>, sn: string)
    requires (sn in roles.leaf.m && roles.leaf.m[sn] != "") || (sn in roles.notleaf.m && roles.notleaf.m[sn] != "")
    ensures FabricOf(roles, f1, sn) == FabricOf(roles, f2, sn)
    ensures FabricOf(roles, f1, sn).Ok? && FabricOf(roles, f1, sn).value != ""
    ensures (sn in roles.leaf.m && FabricOf(roles, f1, sn).value == roles.leaf.m[sn]) ||
            (sn in roles.notleaf.m && FabricOf(roles, f1, sn).value == roles.notleaf.m[sn])
  {
  }

  /** `get_switches_status`: with no serials and nothing discovered it
      raises a parameter error; otherwise only requested serials are
      reported, and a fabric is not asked again once it answered. */
  function GetSwitchesStatus(arg: SerialArg, roles: Roles, switchFabric: string -> Result<string, Error>,
                             fabrics: HierFabric.Fabrics, env: SwitchStatus.Env)
    : (r: Result<SwitchStatus.Outcome, Error>)
    ensures !Given(arg) && |roles.leaf.keys| == 0 && |roles.notleaf.keys| == 0 ==>
      r == Err(SwitchStatusParameter(StatusParamMsg))
    ensures r.Ok? ==> forall sn :: sn in r.value.statuses ==> sn in StatusSerials(arg, roles).value
    ensures r.Ok? ==> SwitchStatus.PollsOk(r.value.st) && |r.value.st.local.m| > 0
  {
    var serials :- StatusSerials(arg, roles);
    SwitchStatus.Collect(serials, sn => FabricOf(roles, switchFabric, sn), fabrics, env)
  }

  /** `wait_for_switches_status` on the status results obtained before
      the timeout, behind its `spinner` decorator: any exception of the
      wait leaves as UnboundLocalError. */
  function WaitForSwitchesStatus(target: string, polls: seq<Result<map<string, string>, Error>>)
    : (r: Result<SwitchStatus.WaitOutcome, Error>)
    ensures r.Ok? && r.value.Lagging? ==>
      |polls| > 0 && polls[|polls| - 1].Ok? && |r.value.bad| > 0 &&
      r.value.bad == SwitchStatus.Mismatches(polls[|polls| - 1].value, target)
    ensures r == Ok(SwitchStatus.Reached) ==>
      exists i :: 0 <= i < |polls| && polls[i].Ok? && |polls[i].value| > 0 && SwitchStatus.AllAt(polls[i].value, target)
    ensures r.Err? ==> r.error == UnboundLocal("value")
    ensures |polls| > 0 && polls[0].Ok? && |polls[0].value| == 0 ==> r == Err(UnboundLocal("value"))
  {
    HierUtils.Spinner(SwitchStatus.Wait(target, polls, None))
  }
}
