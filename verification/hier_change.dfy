/** The hierarchy generation's command-line tool (`change_interfaces.py` of
    the hierarchy package) and its `get_interfaces_to_change`: the plugins
    named with `-P` are selected, initialised and run over every stored
    interface; the changes are pushed, deployed and verified; a backout run
    pushes the saved snapshot back instead. The controller's replies, the
    files and the switch inventory come in through `Env`. */
module HierChange {
  import opened Wrappers
  import opened Json
  import opened Errors
  import opened Records
  import HierUtils
  import Runner
  import Cli
  import Files
  import Deploy
  import HierPlugins
  import Actions

  /** Everything a run consults besides the options. */
  datatype Env = Env(
    // `_read_serials_from_file`'s outcome
    serialsFile: Result<seq<string>, Error>,
    // `get_interfaces_nvpairs` for the run's serials
    interfaces: Result<ODict<Key, Unit>, Error>,
    // whether `get_all_switches` / `get_switches_by_serial_number` raised
    switchesFailure: Option<Error>,
    // what the plugins' `initialize` methods consult
    init: HierPlugins.InitEnv,
    // the pickled snapshot and the pickled description policies
    icpickleIsFile: bool,
    icpickle: Result<ODict<Key, Unit>, Error>,
    pickleIsFile: bool,
    pickle: Result<seq<(string, seq<Policy>)>, Error>,
    postReply: Policy -> Result<Dict, Error>,
    listIds: set<string> -> seq<string>,
    // push, deploy and verify
    stub: Deploy.Env)

  /** Every name in `order` is a registered plugin. */
  predicate Registered(order: seq<string>) {
    forall i :: 0 <= i < |order| ==> HierPlugins.Lookup(order[i]).Some?
  }

  /** `order` lists the selected set, each name once. */
  predicate Lists(order: seq<string>, selected: set<string>) {
    Distinct(order) && Deploy.SetOf(order) == selected
  }

  /** `get_interfaces_to_change`: the selected plugins are initialised, then
      every stored unit is run through them, the leaf flag taken from the
      leaf switches; a key is changed iff the run reported a change. */
  function GetInterfacesToChange(d: ODict<Key, Unit>, order: seq<string>, a: Cli.Args,
                                 init: HierPlugins.InitEnv, corrected: bool): (r: Result<Runner.ToChange, Error>)
    requires WellFormed(d) && Registered(order)
    ensures HierPlugins.InitializeSelected(order, a, init, corrected).Err? ==>
      r == Err(HierPlugins.InitializeSelected(order, a, init, corrected).error)
    ensures r.Ok? ==> HierPlugins.InitializeSelected(order, a, init, corrected).Ok?
    ensures r.Ok? ==> WellFormed(r.value.changes) && WellFormed(r.value.originals) && r.value.changes.m.Keys <= d.m.Keys
    ensures r.Ok? ==> r.value.originals.keys == r.value.changes.keys && r.value.originals.m.Keys == r.value.changes.m.Keys
    ensures r.Ok? ==>
      var configured := HierPlugins.InitializeSelected(order, a, init, corrected).value;
      forall k :: k in d.m ==>
        var ran := HierPlugins.RunSelected(order, configured, k, d.m[k], k.1 in Deploy.SetOf(init.leafs));
        ran.Ok? && (k in r.value.changes.m <==> ran.value.changed) &&
        (k in r.value.changes.m ==> r.value.changes.m[k] == ran.value.unit && r.value.originals.m[k] == d.m[k])
  {
    var configured :- HierPlugins.InitializeSelected(order, a, init, corrected);
    HierPlugins.RunSelectedIsRun(order, configured);
    Runner.GetInterfacesToChange(d, HierPlugins.Entries(order, configured), Deploy.SetOf(init.leafs))
  }

  /** With no plugin selected nothing changes. */
  lemma NoPluginNoChange(d: ODict<Key, Unit>, a: Cli.Args, init: HierPlugins.InitEnv, corrected: bool)
    requires WellFormed(d)
    ensures GetInterfacesToChange(d, [], a, init, corrected).Ok?
    ensures GetInterfacesToChange(d, [], a, init, corrected).value.changes.m == map[]
  {
    assert HierPlugins.InitializeSelected([], a, init, corrected) == Ok(map[]);
    assert HierPlugins.Entries([], map[]) == [];
    Runner.NothingSelected(d, Deploy.SetOf(init.leafs));
  }

  // ---------------------------------------------------------------------
  // _normal_deploy and _fallback

  /** What a normal run did: the interfaces it changed with their snapshot
      (the snapshot is what the tool pickles), and the push-deploy-verify
      outcome. */
  datatype NormalRun = NormalRun(serials: Option<seq<string>>, toChange: Runner.ToChange, stub: Deploy.Stub)

  /** `_normal_deploy`. No policy ids are passed on, so a normal run never
      deploys policies. */
  function NormalDeploy(a: Cli.Args, order: seq<string>, env: Env, corrected: bool): (r: Result<NormalRun, Error>)
    requires Registered(order)
    requires env.interfaces.Ok? ==> WellFormed(env.interfaces.value)
    ensures r.Ok? ==> Cli.GetSerialNumbers(a, env.serialsFile) == Ok(r.value.serials)
    ensures r.Ok? ==> env.interfaces.Ok? && env.switchesFailure.None?
    ensures r.Ok? ==> HierPlugins.InitializeSelected(order, a, env.init.(serials := r.value.serials), corrected).Ok?
    ensures r.Ok? ==> r.value.stub.pushed + r.value.stub.failed == r.value.toChange.changes.m.Keys
    ensures r.Ok? ==> r.value.toChange.changes.m.Keys <= env.interfaces.value.m.Keys
    ensures r.Ok? ==> r.value.toChange.originals.m.Keys == r.value.toChange.changes.m.Keys
    ensures r.Ok? ==> WellFormed(r.value.toChange.originals)
    ensures r.Ok? ==> forall k :: k in r.value.toChange.changes.m ==> r.value.toChange.originals.m[k] == env.interfaces.value.m[k]
    ensures r.Ok? && r.value.stub.deployment.ByInterface? ==> r.value.stub.deployment.run.policies.None?
  {
    var serials :- Cli.GetSerialNumbers(a, env.serialsFile);
    var d :- env.interfaces;
    var _ :- if env.switchesFailure.Some? then Err(env.switchesFailure.value) else Ok(());
    var toChange :- GetInterfacesToChange(d, order, a, env.init.(serials := serials), corrected);
    var stub :- Deploy.DeployStub(toChange.changes, Deploy.PolNone, serials, a.switchDeploy, a.backout, a.timeout, env.stub, true);
    Ok(NormalRun(serials, toChange, stub))
  }

  /** What a backout run did: the snapshot it restored, the policy ids it
      re-created, and the push-deploy-verify outcome. */
  datatype FallbackRun = FallbackRun(restored: ODict<Key, Unit>, policyIds: Option<seq<string>>, stub: Deploy.Stub)

  /** Whether a backout re-creates the description policies. As written the
      tool reads the `description` option, which the hierarchy parser does
      not define; corrected, it asks whether the description plugin was
      named with `-P`. */
  function DescriptionSelected(a: Cli.Args, corrected: bool): (r: Result<bool, Error>)
    ensures !corrected ==> r == Cli.Flag("description", a.description)
    ensures corrected ==> (r.Ok? <==> a.plugins.Some?)
    ensures corrected && r.Ok? ==> (r.value <==> "desc" in HierPlugins.SetPlugins(a.plugins.value))
  {
    if !corrected then Cli.Flag("description", a.description)
    else if a.plugins.None? then Err(AttributeError("plugins"))
    else Ok("desc" in HierPlugins.SetPlugins(a.plugins.value))
  }

  /** `_fallback`: the inventory is fetched only for a switch deploy; the
      pickled snapshot is pushed back, and when descriptions were changed
      without a sheet the pickled description policies are posted again and
      deployed. */
  function Fallback(a: Cli.Args, env: Env, corrected: bool): (r: Result<FallbackRun, Error>)
    requires env.icpickle.Ok? ==> WellFormed(env.icpickle.value)
    ensures r.Ok? ==> env.icpickleIsFile && env.icpickle.Ok? && r.value.restored == env.icpickle.value
    ensures r.Ok? ==> r.value.stub.pushed + r.value.stub.failed == env.icpickle.value.m.Keys
    ensures r.Ok? ==> DescriptionSelected(a, corrected).Ok?
    ensures r.Ok? ==> (r.value.policyIds.Some? <==> DescriptionSelected(a, corrected).value && !Cli.ExcelGiven(a))
    ensures r.Ok? && r.value.policyIds.Some? ==>
      env.pickle.Ok? && Actions.PostAll(HierUtils.Flatten(env.pickle.value), env.postReply).Ok? &&
      r.value.policyIds.value == env.listIds(Actions.PostAll(HierUtils.Flatten(env.pickle.value), env.postReply).value)
    ensures r.Ok? && a.switchDeploy ==> env.switchesFailure.None?
  {
    var serials :- Cli.GetSerialNumbers(a, env.serialsFile);
    var _ :- if a.switchDeploy && env.switchesFailure.Some? then Err(env.switchesFailure.value) else Ok(());
    var restored :- Files.FileCheck(a.icpickle, env.icpickleIsFile, env.icpickle, (d: ODict<Key, Unit>) => d.m != map[]);
    var desc :- DescriptionSelected(a, corrected);
    var ids :- if desc && !Cli.ExcelGiven(a) then
        var groups :- Files.FileCheck(a.pickle, env.pickleIsFile, env.pickle, (g: seq<(string, seq<Policy>)>) => |g| > 0);
        var posted :- Actions.PostAll(HierUtils.Flatten(groups), env.postReply);
        Ok(Some(env.listIds(posted)))
      else Ok(None);
    var policies := if ids.Some? then Deploy.PolList(ids.value) else Deploy.PolNone;
    var stub :- Deploy.DeployStub(restored, policies, serials, a.switchDeploy, a.backout, a.timeout, env.stub, true);
    Ok(FallbackRun(restored, ids, stub))
  }

  /** As written, no backout run of the hierarchy tool can complete: it
      always stops at the `description` option. */
  lemma BackoutNeverCompletes(a: Cli.Args, env: Env)
    requires Cli.HierNamespace(a)
    requires env.icpickle.Ok? ==> WellFormed(env.icpickle.value)
    ensures Fallback(a, env, false).Err?
  {
  }

  /** Corrected, a backout re-creates the description policies exactly when
      the description plugin was selected and no sheet was named. */
  lemma BackoutCorrected(a: Cli.Args, env: Env)
    requires Cli.HierNamespace(a)
    requires env.icpickle.Ok? ==> WellFormed(env.icpickle.value)
    requires Fallback(a, env, true).Ok?
    ensures Fallback(a, env, true).value.policyIds.Some? <==>
      "desc" in a.plugins.value && !Cli.ExcelGiven(a)
  {
  }

  /** A corrected backout that reads back the snapshot a normal run pickled
      pushes every changed interface's original configuration, and nothing
      else. */
  lemma FallbackRestoresSnapshot(a: Cli.Args, order: seq<string>, env: Env, normal: NormalRun)
    requires Registered(order)
    requires env.interfaces.Ok? ==> WellFormed(env.interfaces.value)
    requires NormalDeploy(a, order, env, true) == Ok(normal)
    requires env.icpickle == Ok(normal.toChange.originals)
    requires Fallback(a, env, true).Ok?
    ensures var back := Fallback(a, env, true).value;
      back.stub.pushed + back.stub.failed == normal.toChange.changes.m.Keys &&
      forall k :: k in normal.toChange.changes.m ==> back.restored.m[k] == env.interfaces.value.m[k]
  {
  }

  // ---------------------------------------------------------------------
  // the entry point

  /** The tool's entry point after logging in: the `-P` names select the
      plugins (`order` is the iteration order of the selected set), then a
      normal run, or a backout run under `--backout`. */
  datatype Outcome = Normal(normal: NormalRun) | Backout(backout: FallbackRun)

  function ChangeInterfaces(a: Cli.Args, order: seq<string>, env: Env, corrected: bool): (r: Result<Outcome, Error>)
    requires a.plugins.Some? ==> Lists(order, HierPlugins.SetPlugins(a.plugins.value))
    requires env.interfaces.Ok? ==> WellFormed(env.interfaces.value)
    requires env.icpickle.Ok? ==> WellFormed(env.icpickle.value)
    ensures a.plugins.None? ==> r == Err(AttributeError("plugins"))
    ensures r.Ok? ==> (r.value.Backout? <==> a.backout)
    ensures r.Ok? && !a.backout ==> NormalDeploy(a, order, env, corrected) == Ok(r.value.normal)
    ensures r.Ok? && a.backout ==> Fallback(a, env, corrected) == Ok(r.value.backout)
    ensures r.Ok? && !a.backout ==> forall i :: 0 <= i < |order| ==> order[i] in a.plugins.value
  {
    if a.plugins.None? then Err(AttributeError("plugins"))
    else
      assert Registered(order) by {
        forall i | 0 <= i < |order| ensures HierPlugins.Lookup(order[i]).Some? {
          assert order[i] in Deploy.SetOf(order);
        }
      }
      if !a.backout then
        var n :- NormalDeploy(a, order, env, corrected);
        assert forall i :: 0 <= i < |order| ==> order[i] in Deploy.SetOf(order);
        Ok(Normal(n))
      else
        var b :- Fallback(a, env, corrected);
        Ok(Backout(b))
  }
}
