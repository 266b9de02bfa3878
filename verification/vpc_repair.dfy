/** The vPC repair tool (`del_bad_vpcs.py` of the flat generation): for
    every vPC named in a CSV file it fetches the vPC interface, and when the
    interface is named with a lower-case `pc` it marks the vPC deleted,
    rewrites the record (and its member interfaces' records) with `PC`, and
    creates them again. The controller's answers come in as functions of
    what is asked; `mode` is the run mode the command line chose. */
module VpcRepair {
  import opened Wrappers
  import opened Json
  import opened Errors
  import opened Records
  import Text
  import Http
  import Actions
  import CsvRows

  // ---------------------------------------------------------------------
  // reading records

  /** `existing_interface[0]["interfaces"][0]`. */
  function FirstIntf(ei: seq<Unit>): (r: Result<Intf, Error>)
    ensures r.Ok? <==> |ei| > 0 && |ei[0].interfaces| > 0
    ensures r.Ok? ==> r.value == ei[0].interfaces[0]
    ensures r.Err? ==> r.error == IndexError(ListIndexMsg)
  {
    if |ei| == 0 || |ei[0].interfaces| == 0 then Err(IndexError(ListIndexMsg)) else Ok(ei[0].interfaces[0])
  }

  /** `d[name]` on a string dictionary. */
  function Get(d: map<string, string>, name: string): (r: Result<string, Error>)
    ensures r.Ok? <==> name in d
    ensures r.Ok? ==> r.value == d[name]
    ensures r.Err? ==> r.error == KeyError(name)
  {
    if name in d then Ok(d[name]) else Err(KeyError(name))
  }

  /** Every one of `names` is a key of `d`. */
  predicate AllIn(d: map<string, string>, names: seq<string>) {
    forall k :: 0 <= k < |names| ==> names[k] in d
  }

  /** `names[k]` is the first of `names` that `d` lacks. */
  predicate FirstAbsentAt(d: map<string, string>, names: seq<string>, k: int) {
    0 <= k < |names| && names[k] !in d && forall l :: 0 <= l < k ==> names[l] in d
  }

  // ---------------------------------------------------------------------
  // check_vpc

  const Pc := "pc"

  /** `check_vpc`: the vPC is misnamed when a lower-case `pc` occurs in the
      first interface's name or, failing that, in its `INTF_NAME`. */
  function CheckVpc(ei: seq<Unit>): (r: Result<bool, Error>)
    ensures r == Ok(true) <==> (FirstIntf(ei).Ok? &&
                                (Text.Contains(FirstIntf(ei).value.ifName, Pc) ||
                                 ("INTF_NAME" in FirstIntf(ei).value.nvPairs && Text.Contains(FirstIntf(ei).value.nvPairs["INTF_NAME"], Pc))))
    ensures FirstIntf(ei).Ok? && Text.Contains(FirstIntf(ei).value.ifName, Pc) ==> r == Ok(true)
    ensures FirstIntf(ei).Ok? && !Text.Contains(FirstIntf(ei).value.ifName, Pc) && "INTF_NAME" !in FirstIntf(ei).value.nvPairs ==>
      r == Err(KeyError("INTF_NAME"))
    ensures FirstIntf(ei).Err? ==> r == Err(IndexError(ListIndexMsg))
  {
    var intf :- FirstIntf(ei);
    if Text.Contains(intf.ifName, Pc) then Ok(true)
    else
      var name :- Get(intf.nvPairs, "INTF_NAME");
      Ok(Text.Contains(name, Pc))
  }

  // ---------------------------------------------------------------------
  // correct_vpc_interface and correct_int_description

  /** The template variables the vPC rewrite pops, in the order it pops
      them. */
  const VpcPopped := ["POLICY_ID", "createVpc", "FABRIC_NAME", "POLICY_DESC"]

  /** `correct_vpc_interface`: the first interface gets its name (and
      `INTF_NAME`) with `pc` upper-cased, loses `POLICY_ID`, `createVpc`,
      `FABRIC_NAME` (which becomes its `fabricName`) and `POLICY_DESC`,
      gains `ENABLE_MIRROR_CONFIG` false, and both it and the record become
      `INTERFACE_VPC`; the record also gets `skipResourceCheck` false. A
      missing variable raises KeyError for the first one popped. */
  function CorrectVpcInterface(ei: seq<Unit>): (r: Result<seq<Unit>, Error>)
    ensures FirstIntf(ei).Err? ==> r == Err(IndexError(ListIndexMsg))
    ensures FirstIntf(ei).Ok? ==> (r.Ok? <==> AllIn(FirstIntf(ei).value.nvPairs, VpcPopped))
    ensures FirstIntf(ei).Ok? && r.Err? ==>
      exists k :: FirstAbsentAt(FirstIntf(ei).value.nvPairs, VpcPopped, k) && r.error == KeyError(VpcPopped[k])
    ensures r.Ok? ==> |r.value| == |ei| && r.value[1..] == ei[1..]
    ensures r.Ok? ==>
      var u, u' := ei[0], r.value[0];
      u'.policy == u.policy && |u'.interfaces| == |u.interfaces| && u'.interfaces[1..] == u.interfaces[1..] &&
      u'.attrs == u.attrs["interfaceType" := "INTERFACE_VPC"]["skipResourceCheck" := "false"]
    ensures r.Ok? ==>
      var i, i' := ei[0].interfaces[0], r.value[0].interfaces[0];
      i'.ifName == Text.ReplacePc(i.ifName) && i'.serialNumber == i.serialNumber &&
      "FABRIC_NAME" in i.nvPairs &&
      i'.attrs == i.attrs["interfaceType" := "INTERFACE_VPC"]["fabricName" := i.nvPairs["FABRIC_NAME"]] &&
      i'.nvPairs.Keys == i.nvPairs.Keys - {"POLICY_ID", "createVpc", "FABRIC_NAME", "POLICY_DESC"} + {"INTF_NAME", "ENABLE_MIRROR_CONFIG"} &&
      i'.nvPairs["INTF_NAME"] == i'.ifName && i'.nvPairs["ENABLE_MIRROR_CONFIG"] == "false" &&
      forall k :: k in i.nvPairs && k !in VpcPopped && k != "INTF_NAME" && k != "ENABLE_MIRROR_CONFIG" ==>
        i'.nvPairs[k] == i.nvPairs[k]
  {
    var intf :- FirstIntf(ei);
    var nv := intf.nvPairs;
    if "POLICY_ID" !in nv then
      assert FirstAbsentAt(nv, VpcPopped, 0);
      Err(KeyError("POLICY_ID"))
    else if "createVpc" !in nv then
      assert FirstAbsentAt(nv, VpcPopped, 1);
      Err(KeyError("createVpc"))
    else if "FABRIC_NAME" !in nv then
      assert FirstAbsentAt(nv, VpcPopped, 2);
      Err(KeyError("FABRIC_NAME"))
    else if "POLICY_DESC" !in nv then
      assert FirstAbsentAt(nv, VpcPopped, 3);
      Err(KeyError("POLICY_DESC"))
    else
      var name := Text.ReplacePc(intf.ifName);
      var nv' := (nv["INTF_NAME" := name] - {"POLICY_ID", "createVpc", "FABRIC_NAME"})["ENABLE_MIRROR_CONFIG" := "false"] - {"POLICY_DESC"};
      var i' := Intf(name, intf.serialNumber, nv', intf.attrs["interfaceType" := "INTERFACE_VPC"]["fabricName" := nv["FABRIC_NAME"]]);
      var u := ei[0];
      var u' := Unit(u.policy, [i'] + u.interfaces[1..], u.attrs["interfaceType" := "INTERFACE_VPC"]["skipResourceCheck" := "false"]);
      Ok([u'] + ei[1..])
  }

  /** A rewritten vPC no longer looks misnamed, so a second run skips
      it. */
  lemma CorrectedPassesCheck(ei: seq<Unit>)
    requires CorrectVpcInterface(ei).Ok?
    ensures CheckVpc(CorrectVpcInterface(ei).value) == Ok(false)
  {
    var i := ei[0].interfaces[0];
    Text.ReplacePcShape(i.ifName);
  }

  /** The member-interface variables the rewrite reads, in the order it
      reads them. */
  const MemberRead := ["PRIMARY_INTF", "FABRIC_NAME", "POLICY_ID"]

  /** `correct_int_description`: a member interface's `PRIMARY_INTF` gets
      `pc` upper-cased, the interface becomes `INTERFACE_ETHERNET` with
      `fabricName` copied from `FABRIC_NAME` (which stays), and `POLICY_ID`
      is popped. */
  function CorrectIntDescription(intf: seq<Unit>): (r: Result<seq<Unit>, Error>)
    ensures FirstIntf(intf).Err? ==> r == Err(IndexError(ListIndexMsg))
    ensures FirstIntf(intf).Ok? ==> (r.Ok? <==> AllIn(FirstIntf(intf).value.nvPairs, MemberRead))
    ensures FirstIntf(intf).Ok? && r.Err? ==>
      exists k :: FirstAbsentAt(FirstIntf(intf).value.nvPairs, MemberRead, k) && r.error == KeyError(MemberRead[k])
    ensures r.Ok? ==> |r.value| == |intf| && r.value[1..] == intf[1..]
    ensures r.Ok? ==>
      var u, u' := intf[0], r.value[0];
      u'.policy == u.policy && u'.attrs == u.attrs &&
      |u'.interfaces| == |u.interfaces| && u'.interfaces[1..] == u.interfaces[1..]
    ensures r.Ok? ==>
      var i, i' := intf[0].interfaces[0], r.value[0].interfaces[0];
      i'.ifName == i.ifName && i'.serialNumber == i.serialNumber &&
      "FABRIC_NAME" in i.nvPairs && "PRIMARY_INTF" in i.nvPairs &&
      i'.attrs == i.attrs["interfaceType" := "INTERFACE_ETHERNET"]["fabricName" := i.nvPairs["FABRIC_NAME"]] &&
      i'.nvPairs.Keys == i.nvPairs.Keys - {"POLICY_ID"} &&
      i'.nvPairs["PRIMARY_INTF"] == Text.ReplacePc(i.nvPairs["PRIMARY_INTF"]) &&
      forall k :: k in i'.nvPairs && k != "PRIMARY_INTF" ==> i'.nvPairs[k] == i.nvPairs[k]
  {
    var i :- FirstIntf(intf);
    var nv := i.nvPairs;
    if "PRIMARY_INTF" !in nv then
      assert FirstAbsentAt(nv, MemberRead, 0);
      Err(KeyError("PRIMARY_INTF"))
    else if "FABRIC_NAME" !in nv then
      assert FirstAbsentAt(nv, MemberRead, 1);
      Err(KeyError("FABRIC_NAME"))
    else if "POLICY_ID" !in nv then
      assert FirstAbsentAt(nv, MemberRead, 2);
      Err(KeyError("POLICY_ID"))
    else
      var i' := Intf(i.ifName, i.serialNumber, nv["PRIMARY_INTF" := Text.ReplacePc(nv["PRIMARY_INTF"])] - {"POLICY_ID"},
                     i.attrs["interfaceType" := "INTERFACE_ETHERNET"]["fabricName" := nv["FABRIC_NAME"]]);
      var u := intf[0];
      Ok([Unit(u.policy, [i'] + u.interfaces[1..], u.attrs)] + intf[1..])
  }

  // ---------------------------------------------------------------------
  // get_interface and get_int_descriptions

  /** The controller's answer to `GET /interface`: its code and the decoded
      records. */
  datatype Fetched = Fetched(code: int, data: seq<Unit>)

  /** `get_interface`: the records when the code is 200, else nothing. */
  function GetInterface(reply: Result<Fetched, Error>): (r: Result<Option<seq<Unit>>, Error>)
    ensures reply.Err? ==> r == Err(reply.error)
    ensures reply.Ok? ==> r.Ok? && (r.value.Some? <==> reply.value.code == 200)
    ensures r.Ok? && r.value.Some? ==> r.value.value == reply.value.data
  {
    var f :- reply;
    if f.code != 200 then Ok(None) else Ok(Some(f.data))
  }

  /** `not info`: no answer, or an empty list of records. */
  predicate Falsy(info: Option<seq<Unit>>) {
    info.None? || info.value == []
  }

  /** `s.split("~")[0]` and `s.split("~")[1]`: IndexError without a
      `~`. */
  function SerialPair(s: string): (r: Result<(string, string), Error>)
    ensures r.Ok? <==> |Text.Split(s, '~')| >= 2
    ensures r.Ok? ==> r.value == (Text.Split(s, '~')[0], Text.Split(s, '~')[1])
    ensures r.Err? ==> r.error == IndexError(ListIndexMsg)
  {
    var pieces := Text.Split(s, '~');
    if |pieces| < 2 then Err(IndexError(ListIndexMsg)) else Ok((pieces[0], pieces[1]))
  }

  /** The member interfaces of a vPC record: `PEER1_MEMBER_INTERFACES` and
      `PEER2_MEMBER_INTERFACES`, each split at commas. */
  function MemberLists(i: Intf): (r: Result<(seq<string>, seq<string>), Error>)
    ensures r.Ok? <==> "PEER1_MEMBER_INTERFACES" in i.nvPairs && "PEER2_MEMBER_INTERFACES" in i.nvPairs
    ensures r.Ok? ==> r.value.0 == Text.Split(i.nvPairs["PEER1_MEMBER_INTERFACES"], ',')
    ensures r.Ok? ==> r.value.1 == Text.Split(i.nvPairs["PEER2_MEMBER_INTERFACES"], ',')
    ensures r.Err? ==> r.error == KeyError(if "PEER1_MEMBER_INTERFACES" !in i.nvPairs then "PEER1_MEMBER_INTERFACES"
                                           else "PEER2_MEMBER_INTERFACES")
  {
    var m1 :- Get(i.nvPairs, "PEER1_MEMBER_INTERFACES");
    var m2 :- Get(i.nvPairs, "PEER2_MEMBER_INTERFACES");
    Ok((Text.Split(m1, ','), Text.Split(m2, ',')))
  }

  /** The interfaces whose descriptions are fetched: the PEER1 members on
      the first switch of the `A~B` pair, then the PEER2 members on the
      second. */
  function DescriptionTargets(entry: Unit): (r: Result<seq<(string, string)>, Error>)
    ensures |entry.interfaces| == 0 ==> r == Err(IndexError(ListIndexMsg))
    ensures |entry.interfaces| > 0 && SerialPair(entry.interfaces[0].serialNumber).Err? ==> r == Err(IndexError(ListIndexMsg))
    ensures |entry.interfaces| > 0 && SerialPair(entry.interfaces[0].serialNumber).Ok? ==>
      (r.Ok? <==> MemberLists(entry.interfaces[0]).Ok?)
    ensures r.Ok? ==> |entry.interfaces| > 0 && SerialPair(entry.interfaces[0].serialNumber).Ok? && MemberLists(entry.interfaces[0]).Ok?
    ensures r.Ok? ==>
      var pair := SerialPair(entry.interfaces[0].serialNumber).value;
      var members := MemberLists(entry.interfaces[0]).value;
      |r.value| == |members.0| + |members.1| &&
      (forall k :: 0 <= k < |members.0| ==> r.value[k] == (pair.0, members.0[k])) &&
      (forall k :: 0 <= k < |members.1| ==> r.value[|members.0| + k] == (pair.1, members.1[k]))
  {
    if |entry.interfaces| == 0 then Err(IndexError(ListIndexMsg))
    else
      var pair :- SerialPair(entry.interfaces[0].serialNumber);
      var members :- MemberLists(entry.interfaces[0]);
      Ok(Targets(pair.0, members.0) + Targets(pair.1, members.1))
  }

  function Targets(serial: string, names: seq<string>): (r: seq<(string, string)>)
    ensures |r| == |names|
    ensures forall k :: 0 <= k < |names| ==> r[k] == (serial, names[k])
  {
    seq(|names|, k requires 0 <= k < |names| => (serial, names[k]))
  }

  /** How many of the targets answer with records. */
  function Hits(targets: seq<(string, string)>, fetch: (string, string) -> Result<Fetched, Error>): nat
    decreases |targets|
  {
    if |targets| == 0 then 0
    else
      var info := GetInterface(fetch(targets[0].0, targets[0].1));
      (if info.Ok? && !Falsy(info.value) then 1 else 0) + Hits(targets[1..], fetch)
  }

  /** The lookups of `get_int_descriptions`: each target in order is
      fetched and kept when it answers with records. A target without
      records is skipped after its switch name is looked up for the log
      line: that reads the record's `FABRIC_NAME` (`fabric`, None when the
      record has none) and, for a fabric the inventory has not cached yet,
      fetches the fabric's inventory; `nameFetch` says what that fetch
      raises, if anything (a fetch that succeeded is cached, one that
      raised is tried again and raises again). */
  function Lookups(targets: seq<(string, string)>, fetch: (string, string) -> Result<Fetched, Error>,
                   fabric: Option<string>, nameFetch: string -> Option<Error>)
    : (r: Result<seq<seq<Unit>>, Error>)
    ensures r.Ok? ==> forall k :: 0 <= k < |targets| ==> GetInterface(fetch(targets[k].0, targets[k].1)).Ok?
    ensures r.Ok? ==> |r.value| == Hits(targets, fetch)
    ensures r.Ok? ==> forall j :: 0 <= j < |r.value| ==> |r.value[j]| > 0
    ensures r.Ok? ==> forall j :: 0 <= j < |r.value| ==>
      exists k :: 0 <= k < |targets| && GetInterface(fetch(targets[k].0, targets[k].1)) == Ok(Some(r.value[j]))
    ensures r.Ok? && (fabric.None? || nameFetch(fabric.value).Some?) ==> |r.value| == |targets|
    ensures r.Err? && fabric.Some? && nameFetch(fabric.value).Some? &&
            (forall k :: 0 <= k < |targets| ==> GetInterface(fetch(targets[k].0, targets[k].1)).Ok?) ==>
      r == Err(nameFetch(fabric.value).value)
    decreases |targets|
  {
    if |targets| == 0 then Ok([])
    else
      var info :- GetInterface(fetch(targets[0].0, targets[0].1));
      var _ :- if !Falsy(info) then Ok(())
               else if fabric.None? then Err(KeyError("FABRIC_NAME"))
               else if nameFetch(fabric.value).Some? then Err(nameFetch(fabric.value).value)
               else Ok(());
      var rest :- Lookups(targets[1..], fetch, fabric, nameFetch);
      assert forall k :: 1 <= k < |targets| ==> targets[k] == targets[1..][k - 1];
      if Falsy(info) then Ok(rest) else Ok([info.value] + rest)
  }

  /** `get_int_descriptions`. */
  function GetIntDescriptions(entry: Unit, fetch: (string, string) -> Result<Fetched, Error>, nameFetch: string -> Option<Error>)
    : (r: Result<seq<seq<Unit>>, Error>)
    ensures DescriptionTargets(entry).Err? ==> r == Err(DescriptionTargets(entry).error)
    ensures r.Ok? ==> DescriptionTargets(entry).Ok?
    ensures r.Ok? ==> |r.value| == Hits(DescriptionTargets(entry).value, fetch)
    ensures r.Ok? ==> forall j :: 0 <= j < |r.value| ==> |r.value[j]| > 0
  {
    var targets :- DescriptionTargets(entry);
    var nv := entry.interfaces[0].nvPairs;
    Lookups(targets, fetch, if "FABRIC_NAME" in nv then Some(nv["FABRIC_NAME"]) else None, nameFetch)
  }

  // ---------------------------------------------------------------------
  // mark_delete_vpc and deploy_vpc

  /** A module-params entry: the CSV row it came from, its vPC id and the
      `A~B` serial pair the controller reported. */
  datatype Entry = Entry(row: CsvRows.Row, vpcId: string, vpcPair: string)

  /** What `mark_delete_vpc` asks to delete: the interface `vpc<id>` on the
      pair's serial. */
  function MarkDeleteTarget(entry: Entry): (t: (string, string))
    ensures t.0 == entry.vpcPair
    ensures |t.1| == 3 + |entry.vpcId| && t.1[..3] == "vpc" && t.1[3..] == entry.vpcId
  {
    (entry.vpcPair, "vpc" + entry.vpcId)
  }

  /** `mark_delete_vpc`: true iff the delete is answered with code 200. */
  function MarkDeleteVpc(entry: Entry, reply: (string, string) -> Result<Dict, Error>): (r: Result<bool, Error>)
    ensures var answer := reply(MarkDeleteTarget(entry).0, MarkDeleteTarget(entry).1);
      (r == Ok(true) <==> answer.Ok? && Http.ReturnCode(answer.value) == Some(200)) &&
      (answer.Err? ==> r == Err(answer.error))
  {
    var t := MarkDeleteTarget(entry);
    Actions.PutInterface(reply(t.0, t.1))
  }

  /** The session timeout `deploy_vpc` sets for its call. */
  const VpcDeployTimeout := 300

  /** The `deploy_vpc` payload: one record or a list of them. */
  datatype VpcPayload = PayloadOne(u: Unit) | PayloadMany(us: seq<Unit>)

  /** `deploy_vpc`: a single record is wrapped in a list, the call runs
      under a 300-second timeout, and the saved timeout is put back whether
      or not the deploy succeeded; an exception leaves the 300 in place.
      Returns the outcome and the session timeout afterwards. */
  function DeployVpc(payload: VpcPayload, timeout: int, post: (seq<Unit>, int) -> Result<Dict, Error>)
    : (r: (Result<bool, Error>, int))
    ensures var answer := post(if payload.PayloadOne? then [payload.u] else payload.us, VpcDeployTimeout);
      (r.0 == Ok(true) <==> answer.Ok? && Http.ReturnCode(answer.value) == Some(200))
    ensures r.0.Ok? ==> r.1 == timeout
    ensures r.0.Err? ==> r.1 == VpcDeployTimeout
  {
    var list := if payload.PayloadOne? then [payload.u] else payload.us;
    var outcome := Actions.PutInterface(post(list, VpcDeployTimeout));
    if outcome.Err? then (outcome, VpcDeployTimeout) else (outcome, timeout)
  }

  // ---------------------------------------------------------------------
  // vpc_decision

  /** The calls that change the controller, in the order made. */
  datatype Call = MarkDelete(serial: string, ifName: string) | Create(unit: Unit) | CreatePti(unit: Unit)

  /** What a decision consults. */
  datatype Env = Env(
    fetch: (string, string) -> Result<Fetched, Error>,
    // what fetching a fabric's inventory for `get_switch_name` raises
    nameFetch: string -> Option<Error>,
    deleteReply: (string, string) -> Result<Dict, Error>,
    createReply: Unit -> Result<Dict, Error>,
    ptiReply: Unit -> Result<Dict, Error>)

  predicate DryRun(mode: string) {
    Text.Lower(mode) == "dryrun"
  }

  /** `f` applied to each element in order, stopping at the first
      exception, which is raised. */
  function Traverse<A, B>(xs: seq<A>, f: A -> Result<B, Error>): (r: Result<seq<B>, Error>)
    ensures r.Ok? <==> forall j :: 0 <= j < |xs| ==> f(xs[j]).Ok?
    ensures r.Ok? ==> |r.value| == |xs| && forall j :: 0 <= j < |xs| ==> f(xs[j]) == Ok(r.value[j])
    ensures r.Err? ==> exists j :: 0 <= j < |xs| && f(xs[j]) == Err(r.error) &&
                                   forall l :: 0 <= l < j ==> f(xs[l]).Ok?
    decreases |xs|
  {
    if |xs| == 0 then Ok([])
    else
      var first := f(xs[0]);
      if first.Err? then Err(first.error)
      else
        var rest := Traverse(xs[1..], f);
        if rest.Err? then
          assert exists j :: (1 <= j < |xs| && f(xs[j]) == Err(rest.error) &&
                              forall m :: 0 <= m < j ==> f(xs[m]).Ok?) by {
            var l :| 0 <= l < |xs[1..]| && f(xs[1..][l]) == Err(rest.error) &&
                     forall m :: 0 <= m < l ==> f(xs[1..][m]).Ok?;
            assert xs[l + 1] == xs[1..][l];
            forall m | 0 <= m < l + 1 ensures f(xs[m]).Ok? {
              if m > 0 {
                assert xs[m] == xs[1..][m - 1];
              }
            }
          }
          Err(rest.error)
        else
          assert forall j :: 1 <= j < |xs| ==> xs[j] == xs[1..][j - 1];
          Ok([first.value] + rest.value)
  }

  /** `correct_int_description` over every fetched member; the first
      member that cannot be corrected raises. */
  function CorrectAll(descs: seq<seq<Unit>>): (r: Result<seq<seq<Unit>>, Error>)
    requires forall j :: 0 <= j < |descs| ==> |descs[j]| > 0
    ensures r.Ok? <==> forall j :: 0 <= j < |descs| ==> CorrectIntDescription(descs[j]).Ok?
    ensures r.Ok? ==> |r.value| == |descs| && forall j :: 0 <= j < |descs| ==>
      CorrectIntDescription(descs[j]) == Ok(r.value[j]) && |r.value[j]| > 0
    ensures r.Err? ==> exists j :: 0 <= j < |descs| && CorrectIntDescription(descs[j]) == Err(r.error) &&
                                   forall l :: 0 <= l < j ==> CorrectIntDescription(descs[l]).Ok?
  {
    Traverse(descs, CorrectIntDescription)
  }

  /** `create_interface_pti` for every corrected member: a refusal is only
      logged, an exception ends the run. */
  function CreateAll(descs: seq<seq<Unit>>, reply: Unit -> Result<Dict, Error>): (r: Result<(), Error>)
    requires forall j :: 0 <= j < |descs| ==> |descs[j]| > 0
    ensures r.Ok? <==> forall j :: 0 <= j < |descs| ==> Actions.PutInterface(reply(descs[j][0])).Ok?
    decreases |descs|
  {
    if |descs| == 0 then Ok(())
    else
      var first := Actions.PutInterface(reply(descs[0][0]));
      if first.Err? then Err(first.error)
      else
        var rest := CreateAll(descs[1..], reply);
        assert forall j :: 1 <= j < |descs| ==> descs[j] == descs[1..][j - 1];
        rest
  }

  /** The creations of the member records, in order. */
  function PtiCalls(descs: seq<seq<Unit>>): (r: seq<Call>)
    requires forall j :: 0 <= j < |descs| ==> |descs[j]| > 0
    ensures |r| == |descs|
    ensures forall j :: 0 <= j < |descs| ==> r[j] == CreatePti(descs[j][0])
  {
    seq(|descs|, j requires 0 <= j < |descs| => CreatePti(descs[j][0]))
  }

  /** The serial `vpc_decision` asks about: the first of the `A~B`
      pair. */
  function VpcSerial(entry: Entry): string {
    Text.Split(entry.vpcPair, '~')[0]
  }

  /** The vPC interface as first fetched: `vPC<id>` on that serial. */
  function Existing(entry: Entry, env: Env): Result<Option<seq<Unit>>, Error> {
    GetInterface(env.fetch(VpcSerial(entry), "vPC" + entry.vpcId))
  }

  /** The repair after the mark-delete: rewrite the vPC and its members,
      then (unless dry run) create the vPC and, once it is accepted, each
      member. False when the creation of the vPC is refused; a member's
      refusal is only logged. */
  function Rebuild(mode: string, ei: seq<Unit>, descs: seq<seq<Unit>>, env: Env): (r: Result<(bool, seq<Call>), Error>)
    requires forall j :: 0 <= j < |descs| ==> |descs[j]| > 0
    ensures r.Ok? ==> CorrectVpcInterface(ei).Ok? && CorrectAll(descs).Ok?
    ensures DryRun(mode) ==> (r.Ok? <==> CorrectVpcInterface(ei).Ok? && CorrectAll(descs).Ok?)
    ensures DryRun(mode) && r.Ok? ==> r.value == (true, [])
    ensures !DryRun(mode) && r.Ok? ==> |r.value.1| > 0 && r.value.1[0] == Create(CorrectVpcInterface(ei).value[0])
    ensures !DryRun(mode) && r.Ok? && r.value.0 ==>
      r.value.1 == [Create(CorrectVpcInterface(ei).value[0])] + PtiCalls(CorrectAll(descs).value) &&
      |r.value.1| == 1 + |descs|
  {
    var fixed :- CorrectVpcInterface(ei);
    var fixedDescs :- CorrectAll(descs);
    if DryRun(mode) then Ok((true, []))
    else
      var created :- Actions.PutInterface(env.createReply(fixed[0]));
      if !created then Ok((false, [Create(fixed[0])]))
      else
        var _ :- CreateAll(fixedDescs, env.ptiReply);
        Ok((true, [Create(fixed[0])] + PtiCalls(fixedDescs)))
  }

  /** The repair of a misnamed vPC `ei`: fetch its members' records, mark
      it deleted (unless dry run), and rebuild it. False when the
      mark-delete is refused, with nothing rebuilt. */
  function Recreate(mode: string, entry: Entry, ei: seq<Unit>, env: Env): (r: Result<(bool, seq<Call>), Error>)
    requires |ei| > 0
    ensures GetIntDescriptions(ei[0], env.fetch, env.nameFetch).Err? ==> r == Err(GetIntDescriptions(ei[0], env.fetch, env.nameFetch).error)
    ensures DryRun(mode) && GetIntDescriptions(ei[0], env.fetch, env.nameFetch).Ok? ==>
      r == Rebuild(mode, ei, GetIntDescriptions(ei[0], env.fetch, env.nameFetch).value, env)
    ensures !DryRun(mode) && GetIntDescriptions(ei[0], env.fetch, env.nameFetch).Ok? ==>
      var mark := MarkDeleteVpc(entry, env.deleteReply);
      var first := MarkDelete(MarkDeleteTarget(entry).0, MarkDeleteTarget(entry).1);
      var rebuilt := Rebuild(mode, ei, GetIntDescriptions(ei[0], env.fetch, env.nameFetch).value, env);
      (mark.Err? ==> r == Err(mark.error)) &&
      (mark == Ok(false) ==> r == Ok((false, [first]))) &&
      (mark == Ok(true) ==> (r.Ok? <==> rebuilt.Ok?) && (r.Ok? ==> r.value == (rebuilt.value.0, [first] + rebuilt.value.1)))
  {
    var descs :- GetIntDescriptions(ei[0], env.fetch, env.nameFetch);
    if DryRun(mode) then Rebuild(mode, ei, descs, env)
    else
      var marked :- MarkDeleteVpc(entry, env.deleteReply);
      var t := MarkDeleteTarget(entry);
      if !marked then Ok((false, [MarkDelete(t.0, t.1)]))
      else
        var rebuilt :- Rebuild(mode, ei, descs, env);
        Ok((rebuilt.0, [MarkDelete(t.0, t.1)] + rebuilt.1))
  }

  /** `vpc_decision`: false when the vPC cannot be fetched, `None` when it
      is correctly named (nothing is changed), otherwise the outcome of the
      repair; with the calls that changed the controller. */
  function VpcDecision(mode: string, entry: Entry, env: Env): (r: Result<(Option<bool>, seq<Call>), Error>)
    ensures Existing(entry, env).Err? ==> r == Err(Existing(entry, env).error)
    ensures Existing(entry, env).Ok? && Falsy(Existing(entry, env).value) ==> r == Ok((Some(false), []))
    ensures r.Ok? && r.value.0.None? <==>
      Existing(entry, env).Ok? && !Falsy(Existing(entry, env).value) && CheckVpc(Existing(entry, env).value.value) == Ok(false)
    ensures r.Ok? && r.value.0.None? ==> r.value.1 == []
    ensures DryRun(mode) && r.Ok? ==> r.value.1 == []
    ensures Existing(entry, env).Ok? && !Falsy(Existing(entry, env).value) && CheckVpc(Existing(entry, env).value.value) == Ok(true) ==>
      var repaired := Recreate(mode, entry, Existing(entry, env).value.value, env);
      (r.Ok? <==> repaired.Ok?) && (r.Ok? ==> r.value == (Some(repaired.value.0), repaired.value.1))
  {
    var existing :- Existing(entry, env);
    if Falsy(existing) then Ok((Some(false), []))
    else
      var ei := existing.value;
      var bad :- CheckVpc(ei);
      if !bad then Ok((None, []))
      else
        var repaired :- Recreate(mode, entry, ei, env);
        Ok((Some(repaired.0), repaired.1))
  }

  /** A dry run predicts a real run's success: when a real run recreates
      the vPC, a dry run over the same answers reports it recreated too. */
  lemma DryRunPredictsSuccess(mode: string, dry: string, entry: Entry, env: Env)
    requires !DryRun(mode) && DryRun(dry)
    requires VpcDecision(mode, entry, env).Ok? && VpcDecision(mode, entry, env).value.0 == Some(true)
    ensures VpcDecision(dry, entry, env) == Ok((Some(true), []))
  {
  }
}
