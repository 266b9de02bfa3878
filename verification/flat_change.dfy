/** The flat generation's command-line tool (`change_interfaces.py` of the
    interfaces package): it builds the list of change predicates the
    options select, runs them over every stored interface, pushes and
    deploys the changes, and verifies them; a backout run pushes the saved
    snapshot back instead. The controller's replies, the files and the
    switch inventory come in through `Env`. */
module FlatChange {
  import opened Wrappers
  import opened Json
  import opened Errors
  import opened Records
  import HierUtils
  import Actions
  import Predicates
  import Runner
  import Cli
  import Files
  import DescTable
  import Deploy

  /** The uplinks file the orphan-port predicate reads. */
  const UplinksFile := "uplinks.yaml"

  /** Everything a run consults besides the options. */
  datatype Env = Env(
    // `_read_serials_from_file`'s outcome
    serialsFile: Result<seq<string>, Error>,
    // `get_interfaces_nvpairs` for the run's serials
    interfaces: Result<ODict<Key, Unit>, Error>,
    // whether `get_all_switches` / `get_switches_by_serial_number` raised
    switchesFailure: Option<Error>,
    // the description set-up
    policies: (string, string) -> Result<seq<(string, seq<Policy>)>, Error>,
    findall: HierUtils.FindAll,
    listIds: set<string> -> seq<string>,
    deleteReply: string -> Result<Dict, Error>,
    sheet: Result<map<Key, string>, Error>,
    // the orphan-port set-up
    details: map<string, SwitchRec>,
    detailsFetch: Result<map<string, SwitchRec>, Error>,
    uplinksIsFile: bool,
    uplinksLoaded: Result<seq<(string, seq<string>)>, Error>,
    // the pickled snapshot and the pickled description policies
    icpickleIsFile: bool,
    icpickle: Result<ODict<Key, Unit>, Error>,
    pickleIsFile: bool,
    pickle: Result<seq<(string, seq<Policy>)>, Error>,
    postReply: Policy -> Result<Dict, Error>,
    // push, deploy and verify
    stub: Deploy.Env)

  /** The leaf switches the run knows. */
  function Leafs(env: Env): set<string> {
    Deploy.SetOf(env.stub.leaf)
  }

  // ---------------------------------------------------------------------
  // the three change predicates

  /** The policy route of `get_desc_changes` (taken when no sheet is
      named): the switches' free-form description policies are fetched,
      their matched entries merged into the table, and their ids deleted. */
  function PolicyRoute(env: Env): (r: Result<DescTable.Ready, Error>)
    ensures env.policies(DescTable.DescTemplate, DescTable.DescConfigFilter).Err? ==>
      r == Err(env.policies(DescTable.DescTemplate, DescTable.DescConfigFilter).error)
    ensures r.Ok? ==> env.policies(DescTable.DescTemplate, DescTable.DescConfigFilter).Ok?
    ensures r.Ok? ==>
      var info := DescTable.FlatGetInfo(env.findall, DescTable.DescPattern,
                                        env.policies(DescTable.DescTemplate, DescTable.DescConfigFilter).value,
                                        DescTable.KeyIdx, DescTable.ValueIdx);
      info.Ok? && DescTable.FromPolicies(info.value, env.listIds, env.deleteReply) == r
  {
    var groups :- env.policies(DescTable.DescTemplate, DescTable.DescConfigFilter);
    var info :- DescTable.FlatGetInfo(env.findall, DescTable.DescPattern, groups, DescTable.KeyIdx, DescTable.ValueIdx);
    DescTable.FromPolicies(info, env.listIds, env.deleteReply)
  }

  /** `get_orphanport_change`: the switch details (fetched when none are
      held yet) and the uplink table of the uplinks file. */
  function GetOrphanportChange(env: Env): (r: Result<(map<string, SwitchRec>, Predicates.Uplinks), Error>)
    ensures env.details == map[] && env.detailsFetch.Err? ==> r == Err(env.detailsFetch.error)
    ensures r.Ok? ==> r.value.0 == (if env.details == map[] then env.detailsFetch.value else env.details)
    ensures r.Ok? ==> env.uplinksIsFile && env.uplinksLoaded.Ok? && |env.uplinksLoaded.value| > 0
    ensures r.Ok? && env.uplinksLoaded.Ok? ==> Cli.GetUplinks(env.uplinksLoaded.value) == Ok(r.value.1)
    ensures !env.uplinksIsFile ==> r.Err?
  {
    var details :- if env.details == map[] then env.detailsFetch else Ok(env.details);
    var loaded :- Files.FileCheck(UplinksFile, env.uplinksIsFile, env.uplinksLoaded,
                                  (l: seq<(string, seq<string>)>) => |l| > 0);
    var uplinks :- Cli.GetUplinks(loaded);
    Ok((details, uplinks))
  }

  /** The selected predicates, in the order the tool lists them: the
      description change, the CDP change with the `mgmt` option, and the
      leaf-only orphan-port change. Each is prepared as it is added. */
  function ChangesToMake(a: Cli.Args, env: Env): (r: Result<seq<Runner.Entry>, Error>)
    ensures Cli.FlatNamespace(a) && r.Ok? ==>
      |r.value| == (if a.description.value then 1 else 0) + (if a.cdp.value then 1 else 0) + (if a.orphan.value then 1 else 0)
    ensures r.Ok? ==> forall k :: 0 <= k < |r.value| ==> (r.value[k].leafOnly <==> k == |r.value| - 1 && a.orphan == Some(true))
    ensures Cli.FlatNamespace(a) && !a.description.value && !a.cdp.value && !a.orphan.value ==> r == Ok([])
  {
    var d :- DescEntries(a, env);
    var c :- CdpEntries(a, env);
    var o :- OrphanEntries(a, env);
    LastOnlyLeaf(d, c, o);
    Ok(d + c + o)
  }

  /** The description predicate, when `-d` is set. */
  function DescEntries(a: Cli.Args, env: Env): (r: Result<seq<Runner.Entry>, Error>)
    ensures r.Ok? ==> a.description.Some? && |r.value| == (if a.description.value then 1 else 0)
    ensures r.Ok? ==> forall k :: 0 <= k < |r.value| ==> !r.value[k].leafOnly
    ensures a.description == Some(false) ==> r == Ok([])
  {
    var desc :- Cli.Flag("description", a.description);
    if desc then
      var ready :- DescTable.Prepare(a.excel, env.sheet, PolicyRoute(env));
      Ok([Runner.Entry((k: Key, u: Unit) => Predicates.DescChange(ready.table, k, u), false)])
    else Ok([])
  }

  /** The CDP predicate with the `mgmt` option, when `-c` is set. */
  function CdpEntries(a: Cli.Args, env: Env): (r: Result<seq<Runner.Entry>, Error>)
    ensures r.Ok? ==> a.cdp.Some? && |r.value| == (if a.cdp.value then 1 else 0)
    ensures r.Ok? ==> forall k :: 0 <= k < |r.value| ==> !r.value[k].leafOnly
    ensures a.cdp == Some(false) ==> r == Ok([])
  {
    var cdp :- Cli.Flag("cdp", a.cdp);
    if cdp then
      var mgmt :- Cli.Flag("mgmt", a.mgmt);
      var leafs := Leafs(env);
      Ok([Runner.Entry((k: Key, u: Unit) => Predicates.CdpChange(mgmt, leafs, k, u), false)])
    else Ok([])
  }

  /** The leaf-only orphan-port predicate, when `-o` is set. */
  function OrphanEntries(a: Cli.Args, env: Env): (r: Result<seq<Runner.Entry>, Error>)
    ensures r.Ok? ==> a.orphan.Some? && |r.value| == (if a.orphan.value then 1 else 0)
    ensures r.Ok? ==> forall k :: 0 <= k < |r.value| ==> r.value[k].leafOnly
    ensures a.orphan == Some(false) ==> r == Ok([])
  {
    var orphan :- Cli.Flag("orphan", a.orphan);
    if orphan then
      var prepared :- GetOrphanportChange(env);
      Ok([Runner.Entry((k: Key, u: Unit) => Predicates.OrphanFlat(prepared.0, prepared.1, k, u), true)])
    else Ok([])
  }

  /** Appending at most one leaf-only entry after entries that are not
      leaf-only leaves that entry, and only it, leaf-only and last. */
  lemma LastOnlyLeaf(d: seq<Runner.Entry>, c: seq<Runner.Entry>, o: seq<Runner.Entry>)
    requires |o| <= 1
    requires forall k :: 0 <= k < |d| ==> !d[k].leafOnly
    requires forall k :: 0 <= k < |c| ==> !c[k].leafOnly
    requires forall k :: 0 <= k < |o| ==> o[k].leafOnly
    ensures var r := d + c + o;
      forall k :: 0 <= k < |r| ==> (r[k].leafOnly <==> k == |r| - 1 && |o| == 1)
  {
    var r := d + c + o;
    forall k | 0 <= k < |r| ensures r[k].leafOnly <==> k == |r| - 1 && |o| == 1 {
      if k < |d| { assert r[k] == d[k]; }
      else if k < |d| + |c| { assert r[k] == c[k - |d|]; }
      else { assert r[k] == o[k - |d| - |c|]; }
    }
  }

  // ---------------------------------------------------------------------
  // _normal_deploy and _fallback

  /** What a normal run did: the interfaces it changed with their snapshot
      (the snapshot is what the tool pickles), and the push-deploy-verify
      outcome. */
  datatype NormalRun = NormalRun(serials: Option<seq<string>>, toChange: Runner.ToChange, stub: Deploy.Stub)

  /** `_normal_deploy`. No policy ids are passed on, so a normal run never
      deploys policies. */
  function NormalDeploy(a: Cli.Args, env: Env): (r: Result<NormalRun, Error>)
    requires env.interfaces.Ok? ==> WellFormed(env.interfaces.value)
    ensures r.Ok? ==> Cli.GetSerialNumbers(a, env.serialsFile) == Ok(r.value.serials)
    ensures r.Ok? ==> env.interfaces.Ok? && env.switchesFailure.None?
    ensures r.Ok? ==> r.value.stub.pushed + r.value.stub.failed == r.value.toChange.changes.m.Keys
    ensures r.Ok? ==> r.value.toChange.changes.m.Keys <= env.interfaces.value.m.Keys
    ensures r.Ok? ==> r.value.toChange.originals.m.Keys == r.value.toChange.changes.m.Keys
    ensures r.Ok? ==> forall k :: k in r.value.toChange.originals.m ==> r.value.toChange.originals.m[k] == env.interfaces.value.m[k]
    ensures r.Ok? && r.value.stub.deployment.ByInterface? ==> r.value.stub.deployment.run.policies.None?
  {
    var serials :- Cli.GetSerialNumbers(a, env.serialsFile);
    var d :- env.interfaces;
    var _ :- if env.switchesFailure.Some? then Err(env.switchesFailure.value) else Ok(());
    var entries :- ChangesToMake(a, env);
    var toChange :- Runner.GetInterfacesToChange(d, entries, Leafs(env));
    var stub :- Deploy.DeployStub(toChange.changes, Deploy.PolNone, serials, a.switchDeploy, a.backout, a.timeout, env.stub, false);
    Ok(NormalRun(serials, toChange, stub))
  }

  /** What a backout run did: the snapshot it restored, the policy ids it
      re-created (when the description option was set without a sheet),
      and the push-deploy-verify outcome. */
  datatype FallbackRun = FallbackRun(restored: ODict<Key, Unit>, policyIds: Option<seq<string>>, stub: Deploy.Stub)

  /** `_fallback`: the inventory is fetched only for a switch deploy; the
      pickled snapshot is pushed back, and with `-d` and no sheet the
      pickled description policies are posted again and deployed. */
  function Fallback(a: Cli.Args, env: Env): (r: Result<FallbackRun, Error>)
    requires env.icpickle.Ok? ==> WellFormed(env.icpickle.value)
    ensures r.Ok? ==> env.icpickleIsFile && env.icpickle.Ok? && r.value.restored == env.icpickle.value
    ensures r.Ok? ==> r.value.stub.pushed + r.value.stub.failed == env.icpickle.value.m.Keys
    ensures r.Ok? ==> (r.value.policyIds.Some? <==> a.description == Some(true) && !Cli.ExcelGiven(a))
    ensures r.Ok? && r.value.policyIds.Some? ==>
      env.pickle.Ok? && Actions.PostAll(HierUtils.Flatten(env.pickle.value), env.postReply).Ok? &&
      r.value.policyIds.value == env.listIds(Actions.PostAll(HierUtils.Flatten(env.pickle.value), env.postReply).value)
    ensures r.Ok? && a.switchDeploy ==> env.switchesFailure.None?
  {
    var serials :- Cli.GetSerialNumbers(a, env.serialsFile);
    var _ :- if a.switchDeploy && env.switchesFailure.Some? then Err(env.switchesFailure.value) else Ok(());
    var restored :- Files.FileCheck(a.icpickle, env.icpickleIsFile, env.icpickle, (d: ODict<Key, Unit>) => d.m != map[]);
    var desc :- Cli.Flag("description", a.description);
    var ids :- if desc && !Cli.ExcelGiven(a) then
        var groups :- Files.FileCheck(a.pickle, env.pickleIsFile, env.pickle, (g: seq<(string, seq<Policy>)>) => |g| > 0);
        var posted :- Actions.PostAll(HierUtils.Flatten(groups), env.postReply);
        Ok(Some(env.listIds(posted)))
      else Ok(None);
    var policies := if ids.Some? then Deploy.PolList(ids.value) else Deploy.PolNone;
    var stub :- Deploy.DeployStub(restored, policies, serials, a.switchDeploy, a.backout, a.timeout, env.stub, false);
    Ok(FallbackRun(restored, ids, stub))
  }

  /** A backout that reads back the snapshot a normal run pickled pushes
      every changed interface's original configuration, and nothing
      else. */
  lemma FallbackRestoresSnapshot(a: Cli.Args, env: Env, normal: NormalRun)
    requires env.interfaces.Ok? ==> WellFormed(env.interfaces.value)
    requires NormalDeploy(a, env) == Ok(normal)
    requires env.icpickle == Ok(normal.toChange.originals)
    requires Fallback(a, env).Ok?
    ensures var back := Fallback(a, env).value;
      back.stub.pushed + back.stub.failed == normal.toChange.changes.m.Keys &&
      forall k :: k in normal.toChange.changes.m ==> back.restored.m[k] == env.interfaces.value.m[k]
  {
  }

  /** The tool's entry point after logging in: a normal run, or a backout
      run under `--backout`. */
  datatype Outcome = Normal(normal: NormalRun) | Backout(backout: FallbackRun)

  function ChangeInterfaces(a: Cli.Args, env: Env): (r: Result<Outcome, Error>)
    requires env.interfaces.Ok? ==> WellFormed(env.interfaces.value)
    requires env.icpickle.Ok? ==> WellFormed(env.icpickle.value)
    ensures r.Ok? ==> (r.value.Backout? <==> a.backout)
    ensures r.Ok? && !a.backout ==> NormalDeploy(a, env) == Ok(r.value.normal)
    ensures r.Ok? && a.backout ==> Fallback(a, env) == Ok(r.value.backout)
    ensures r.Err? ==> (if a.backout then Fallback(a, env) == Err(r.error) else NormalDeploy(a, env) == Err(r.error))
    ensures r.Ok? && !a.backout ==>
      env.interfaces.Ok? && r.value.normal.toChange.changes.m.Keys <= env.interfaces.value.m.Keys &&
      r.value.normal.stub.pushed + r.value.normal.stub.failed == r.value.normal.toChange.changes.m.Keys
    ensures r.Ok? && a.backout ==>
      env.icpickle == Ok(r.value.backout.restored) &&
      r.value.backout.stub.pushed + r.value.backout.stub.failed == r.value.backout.restored.m.Keys
  {
    if !a.backout then
      var n :- NormalDeploy(a, env);
      Ok(Normal(n))
    else
      var b :- Fallback(a, env);
      Ok(Backout(b))
  }

  /** A normal run followed by a backout run that reads back the snapshot
      the normal run pickled: the backout pushes exactly the interfaces the
      normal run changed, each with the configuration it had before. */
  lemma ChangeThenBackout(a: Cli.Args, env: Env, n: NormalRun, back: FallbackRun)
    requires env.interfaces.Ok? ==> WellFormed(env.interfaces.value)
    requires env.icpickle.Ok? ==> WellFormed(env.icpickle.value)
    requires ChangeInterfaces(a, env) == Ok(Normal(n))
    requires env.icpickle == Ok(n.toChange.originals)
    requires ChangeInterfaces(a.(backout := true), env) == Ok(Backout(back))
    ensures back.stub.pushed + back.stub.failed == n.toChange.changes.m.Keys
    ensures back.restored.m.Keys == n.toChange.changes.m.Keys
    ensures forall k :: k in n.toChange.changes.m ==> back.restored.m[k] == env.interfaces.value.m[k]
  {
  }
}
