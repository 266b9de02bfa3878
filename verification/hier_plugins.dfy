/** The hierarchy generation's plugins (`plugins.py`) and the engine that
    registers, selects, initialises and runs them (`plugin_utils.py`). The
    three plugins wrap the same change predicates as the flat generation's
    closures; what each one's `initialize` gathers is held in `Configured`.
    What the controller and the files answer comes in through `InitEnv`. */
module HierPlugins {
  import opened Wrappers
  import opened Json
  import opened Errors
  import opened Records
  import HierUtils
  import Predicates
  import Runner
  import Cli
  import Files
  import DescTable
  import Deploy

  // ---------------------------------------------------------------------
  // the registry

  /** The plugin classes of the plugins module. */
  datatype Kind = CdpKind | DescKind | OrphanKind

  /** The key a class is registered under: the name given to
      `RegisterPlugin` when it was decorated, else the class name. */
  function RegistryName(k: Kind): string {
    match k
    case CdpKind => "GetCdpChange"
    case DescKind => "desc"
    case OrphanKind => "GetOrphanportChange"
  }

  /** The registered plugin with this key, if any. */
  function Lookup(name: string): (r: Option<Kind>)
    ensures r.Some? ==> RegistryName(r.value) == name
    ensures r.None? ==> forall k :: RegistryName(k) != name
  {
    if name == "GetCdpChange" then Some(CdpKind)
    else if name == "desc" then Some(DescKind)
    else if name == "GetOrphanportChange" then Some(OrphanKind)
    else None
  }

  /** Every plugin is found under its own key, so no two share one. */
  lemma LookupRegistryName(k: Kind)
    ensures Lookup(RegistryName(k)) == Some(k)
  {
  }

  /** `set_plugins`: the requested names the registry knows, as a set;
      repeats and order are lost. */
  function SetPlugins(requested: seq<string>): (r: set<string>)
    ensures forall n :: n in r <==> n in requested && Lookup(n).Some?
  {
    set k | 0 <= k < |requested| && Lookup(requested[k]).Some? :: requested[k]
  }

  /** Selecting the same names in another order or with repeats selects
      the same plugins. */
  lemma SetPluginsIgnoresOrder(a: seq<string>, b: seq<string>)
    requires forall n :: n in a <==> n in b
    ensures SetPlugins(a) == SetPlugins(b)
  {
  }

  // ---------------------------------------------------------------------
  // initialize and __call__

  /** What `initialize` leaves in a plugin: the description table; the
      `mgmt` option and the leaf switches; the switch details and the
      uplink table. `OrphanFlag` is the orphan-port plugin as written after
      an initialisation that got through: what it keeps as the switch
      details is the handler's `all_switches_details` flag, `True`. */
  datatype Configured =
    | Desc(table: map<Key, string>)
    | Cdp(mgmt: bool, leafs: set<string>)
    | Orphan(details: map<string, SwitchRec>, uplinks: Predicates.Uplinks)
    | OrphanFlag(uplinks: Predicates.Uplinks)

  /** `leaf_only` after `initialize`: only the orphan-port plugin sets it. */
  function LeafOnly(c: Configured): bool {
    c.Orphan? || c.OrphanFlag?
  }

  /** A configured plugin's `__call__`. */
  function Call(c: Configured, key: Key, u: Unit): (r: Result<(bool, Unit), Error>)
    ensures r.Ok? && c.Desc? ==> (r.value.0 <==> r.value.1 != u)
    ensures r.Ok? && c.Cdp? ==> (r.value.0 <==> r.value.1 != u)
    ensures c.Desc? && key !in c.table ==> r == Ok((false, u))
  {
    match c
    case Desc(table) => Predicates.DescChange(table, key, u)
    case Cdp(mgmt, leafs) => Predicates.CdpChange(mgmt, leafs, key, u)
    case Orphan(details, uplinks) => Predicates.OrphanHier(details, uplinks, key, u)
    case OrphanFlag(_) => Err(TypeError(StrKeyMsg(JBool(true))))
  }

  /** What the plugins' `initialize` methods consult. */
  datatype InitEnv = InitEnv(
    // the serial numbers the run passes on (None under `--all`) and the
    // serial numbers of the switch inventory, in order
    serials: Option<seq<string>>,
    inventory: seq<string>,
    // the description plugin
    policies: (string, string) -> Result<seq<(string, seq<Policy>)>, Error>,
    findall: HierUtils.FindAll,
    listIds: set<string> -> seq<string>,
    deleteReply: string -> Result<Dict, Error>,
    sheet: Result<map<Key, string>, Error>,
    // the CDP plugin
    leafs: seq<string>,
    // the orphan-port plugin: the details already held and the outcome of
    // fetching the fabrics' switch details
    details: map<string, SwitchRec>,
    detailsFetch: Result<map<string, SwitchRec>, Error>,
    uplinksIsFile: bool,
    uplinksLoaded: Result<seq<(string, seq<string>)>, Error>)

  /** The policy route of the description plugin: every policy of every
      switch yields an entry, and every entry's id is deleted. */
  function DescPolicyRoute(env: InitEnv): (r: Result<DescTable.Ready, Error>)
    ensures env.policies(DescTable.DescTemplate, DescTable.DescConfigFilter).Err? ==>
      r == Err(env.policies(DescTable.DescTemplate, DescTable.DescConfigFilter).error)
    ensures r.Ok? ==> env.policies(DescTable.DescTemplate, DescTable.DescConfigFilter).Ok?
    ensures r.Ok? ==>
      var info := HierUtils.GetInfoFromPoliciesConfig(env.findall, DescTable.DescPattern,
                                                      env.policies(DescTable.DescTemplate, DescTable.DescConfigFilter).value,
                                                      DescTable.KeyIdx, DescTable.ValueIdx);
      info.Ok? && DescTable.FromPolicies(info.value, env.listIds, env.deleteReply) == r
  {
    var groups :- env.policies(DescTable.DescTemplate, DescTable.DescConfigFilter);
    var info :- HierUtils.GetInfoFromPoliciesConfig(env.findall, DescTable.DescPattern, groups, DescTable.KeyIdx, DescTable.ValueIdx);
    DescTable.FromPolicies(info, env.listIds, env.deleteReply)
  }

  /** As written, the description plugin passes the config regex to
      `get_switches_policies` under the keyword `config`, which that method
      does not take (its parameter is `generatedConfig`): the call raises
      TypeError before anything is fetched. */
  function DescPolicyRouteAsWritten(): (r: Result<DescTable.Ready, Error>)
    ensures r == Err(TypeError(UnexpectedKeywordMsg("get_switches_policies", "config")))
  {
    Err(TypeError(UnexpectedKeywordMsg("get_switches_policies", "config")))
  }

  /** The policy route as written, or corrected to pass `generatedConfig`. */
  function DescRoute(env: InitEnv, corrected: bool): (r: Result<DescTable.Ready, Error>)
    ensures corrected ==> r == DescPolicyRoute(env)
    ensures !corrected ==> r.Err? && r.error.TypeError?
  {
    if corrected then DescPolicyRoute(env) else DescPolicyRouteAsWritten()
  }

  /** The uplinks file named by `-U`. */
  function UplinksFile(a: Cli.Args): (r: Result<string, Error>)
    ensures a.uplinks.None? <==> r == Err(AttributeError("uplinks"))
    ensures a.uplinks.Some? ==> r == Ok(a.uplinks.value)
  {
    if a.uplinks.None? then Err(AttributeError("uplinks")) else Ok(a.uplinks.value)
  }

  /** The orphan-port plugin's `initialize`: the switch details (fetched
      when none are held yet) and the uplink table of the `-U` file. */
  function OrphanInit(a: Cli.Args, env: InitEnv): (r: Result<Configured, Error>)
    ensures r.Ok? ==> r.value.Orphan?
    ensures env.details == map[] && env.detailsFetch.Err? ==> r == Err(env.detailsFetch.error)
    ensures r.Ok? ==> r.value.details == (if env.details == map[] then env.detailsFetch.value else env.details)
    ensures r.Ok? ==> a.uplinks.Some? && env.uplinksIsFile && env.uplinksLoaded.Ok? && |env.uplinksLoaded.value| > 0
    ensures r.Ok? && env.uplinksLoaded.Ok? ==> Cli.GetUplinks(env.uplinksLoaded.value) == Ok(r.value.uplinks)
  {
    var details :- if env.details == map[] then env.detailsFetch else Ok(env.details);
    var file :- UplinksFile(a);
    var loaded :- Files.FileCheck(file, env.uplinksIsFile, env.uplinksLoaded, (l: seq<(string, seq<string>)>) => |l| > 0);
    var uplinks :- Cli.GetUplinks(loaded);
    Ok(Orphan(details, uplinks))
  }

  const DetailsSerialsMsg := "get_switches_details: something went wrong. Unable to complete."

  /** The hierarchy's `get_switches_details` as the orphan-port plugin calls
      it, with the run's serial numbers. Its argument checks let through only
      a string or None, so any list raises. Under `--all` it fetches the
      details of the inventory's fabrics and then iterates the inventory
      dictionary as if it yielded pairs: each serial number, a string, is
      unpacked into two names, which fails on the first one (a two-letter
      serial unpacks and then has no `add_details`). Only an empty inventory
      gets through. */
  function SwitchesDetailsAsWritten(serials: Option<seq<string>>, inventory: seq<string>,
                                    fetch: Result<map<string, SwitchRec>, Error>): (r: Result<(), Error>)
    ensures r.Ok? <==> serials.None? && inventory == []
    ensures serials.Some? ==> r == Err(SwitchesSwitchesParameter(DetailsSerialsMsg))
    ensures serials.None? && inventory != [] && fetch.Err? ==> r == Err(fetch.error)
    ensures serials.None? && inventory != [] && fetch.Ok? && |inventory[0]| != 2 ==>
      r == Err(ValueError(UnpackMsg(|inventory[0]|)))
  {
    if serials.Some? then Err(SwitchesSwitchesParameter(DetailsSerialsMsg))
    else if inventory == [] then Ok(())
    else if fetch.Err? then Err(fetch.error)
    else if |inventory[0]| != 2 then Err(ValueError(UnpackMsg(|inventory[0]|)))
    else Err(AttributeError("add_details"))
  }

  /** The orphan-port plugin's `initialize` as written: the handler's
      details flag is never set before it runs, so the details are fetched
      with the run's serial numbers; what the plugin keeps is the flag. */
  function OrphanInitAsWritten(a: Cli.Args, env: InitEnv): (r: Result<Configured, Error>)
    ensures r.Ok? ==> r.value.OrphanFlag? && env.serials.None? && env.inventory == []
    ensures env.serials.Some? ==> r == Err(SwitchesSwitchesParameter(DetailsSerialsMsg))
    ensures env.serials.None? && env.inventory != [] ==> r == Err(SwitchesDetailsAsWritten(None, env.inventory, env.detailsFetch).error)
    ensures env.serials.None? && env.inventory == [] && OrphanInit(a, env).Ok? ==>
      r == Ok(OrphanFlag(OrphanInit(a, env).value.uplinks))
    ensures r.Ok? && (env.details != map[] || env.detailsFetch.Ok?) ==>
      OrphanInit(a, env).Ok? && OrphanInit(a, env).value.uplinks == r.value.uplinks
  {
    var _ :- SwitchesDetailsAsWritten(env.serials, env.inventory, env.detailsFetch);
    var file :- UplinksFile(a);
    var loaded :- Files.FileCheck(file, env.uplinksIsFile, env.uplinksLoaded, (l: seq<(string, seq<string>)>) => |l| > 0);
    var uplinks :- Cli.GetUplinks(loaded);
    Ok(OrphanFlag(uplinks))
  }

  /** The `mgmt` option the CDP plugin reads: as written it is read from
      the options, which the hierarchy parser does not define; corrected,
      an absent option means `False`. */
  function MgmtOption(a: Cli.Args, corrected: bool): (r: Result<bool, Error>)
    ensures !corrected ==> r == Cli.Flag("mgmt", a.mgmt)
    ensures corrected ==> r == Ok(a.mgmt == Some(true))
  {
    if corrected then Ok(a.mgmt == Some(true)) else Cli.Flag("mgmt", a.mgmt)
  }

  /** A plugin's `initialize`. */
  function Initialize(k: Kind, a: Cli.Args, env: InitEnv, corrected: bool): (r: Result<Configured, Error>)
    ensures r.Ok? ==> (r.value.Desc? <==> k.DescKind?) && (r.value.Cdp? <==> k.CdpKind?) && (LeafOnly(r.value) <==> k.OrphanKind?)
    ensures r.Ok? && k.CdpKind? ==> MgmtOption(a, corrected) == Ok(r.value.mgmt) && r.value.leafs == Deploy.SetOf(env.leafs)
    ensures k.CdpKind? ==> (r.Ok? <==> MgmtOption(a, corrected).Ok?)
    ensures k.DescKind? ==>
      var p := DescTable.Prepare(a.excel, env.sheet, DescRoute(env, corrected));
      (r.Ok? <==> p.Ok?) && (r.Ok? ==> r.value == Desc(p.value.table))
    ensures k.OrphanKind? && corrected ==> r == OrphanInit(a, env)
    ensures k.OrphanKind? && !corrected ==> r == OrphanInitAsWritten(a, env)
  {
    match k
    case DescKind =>
      var ready :- DescTable.Prepare(a.excel, env.sheet, DescRoute(env, corrected));
      Ok(Desc(ready.table))
    case CdpKind =>
      var mgmt :- MgmtOption(a, corrected);
      Ok(Cdp(mgmt, Deploy.SetOf(env.leafs)))
    case OrphanKind => if corrected then OrphanInit(a, env) else OrphanInitAsWritten(a, env)
  }

  const InitFailureMsg := "Error Initializing Plugin "

  /** The loop of `initialize_selected_plugins` over names in order, with
      `init` giving each name's `initialize` outcome: the first exception
      becomes PlugInInitializationError naming the plugin. */
  function InitAll(order: seq<string>, init: string -> Result<Configured, Error>)
    : (r: Result<map<string, Configured>, Error>)
    ensures r.Ok? <==> forall i :: 0 <= i < |order| ==> init(order[i]).Ok?
    ensures r.Ok? ==> forall i :: 0 <= i < |order| ==> order[i] in r.value && init(order[i]) == Ok(r.value[order[i]])
    ensures r.Ok? ==> forall n :: n in r.value ==> n in order
    ensures r.Err? ==> exists i :: (0 <= i < |order| && r.error == PlugInInitialization(InitFailureMsg + order[i]) &&
                                    init(order[i]).Err? && forall j :: 0 <= j < i ==> init(order[j]).Ok?)
    decreases |order|
  {
    if |order| == 0 then Ok(map[])
    else
      var first := init(order[0]);
      if first.Err? then Err(PlugInInitialization(InitFailureMsg + order[0]))
      else
        var rest := InitAll(order[1..], init);
        if rest.Err? then
          assert exists i :: (1 <= i < |order| && rest.error == PlugInInitialization(InitFailureMsg + order[i]) &&
                              init(order[i]).Err? && forall j :: 0 <= j < i ==> init(order[j]).Ok?) by {
            var j :| 0 <= j < |order[1..]| && rest.error == PlugInInitialization(InitFailureMsg + order[1..][j]) &&
              init(order[1..][j]).Err? && forall l :: 0 <= l < j ==> init(order[1..][l]).Ok?;
            assert order[j + 1] == order[1..][j];
            forall l | 0 <= l < j + 1 ensures init(order[l]).Ok? {
              if l > 0 {
                assert order[l] == order[1..][l - 1];
              }
            }
          }
          Err(rest.error)
        else
          assert forall i :: 1 <= i < |order| ==> order[i] == order[1..][i - 1];
          Ok(rest.value[order[0] := first.value])
  }

  /** `initialize_selected_plugins`: each selected plugin, in set order, is
      initialised; any exception becomes PlugInInitializationError naming
      the plugin being initialised. */
  function InitializeSelected(order: seq<string>, a: Cli.Args, env: InitEnv, corrected: bool)
    : (r: Result<map<string, Configured>, Error>)
    requires forall i :: 0 <= i < |order| ==> Lookup(order[i]).Some?
    ensures r.Ok? <==> forall i :: 0 <= i < |order| ==> Initialize(Lookup(order[i]).value, a, env, corrected).Ok?
    ensures r.Ok? ==> forall i :: 0 <= i < |order| ==>
      order[i] in r.value && Initialize(Lookup(order[i]).value, a, env, corrected) == Ok(r.value[order[i]])
    ensures r.Ok? ==> forall n :: n in r.value ==> n in order
    ensures r.Err? ==> exists i :: (0 <= i < |order| && r.error == PlugInInitialization(InitFailureMsg + order[i]) &&
                                    Initialize(Lookup(order[i]).value, a, env, corrected).Err? &&
                                    forall j :: 0 <= j < i ==> Initialize(Lookup(order[j]).value, a, env, corrected).Ok?)
  {
    InitAll(order, n => if Lookup(n).Some? then Initialize(Lookup(n).value, a, env, corrected) else Err(KeyError(n)))
  }

  /** With a hierarchy command line, selecting the CDP plugin alone always
      fails: its `initialize` reads the undefined `mgmt` option. */
  lemma CdpPluginFails(a: Cli.Args, env: InitEnv)
    requires Cli.HierNamespace(a)
    ensures InitializeSelected(["GetCdpChange"], a, env, false) == Err(PlugInInitialization(InitFailureMsg + "GetCdpChange"))
  {
    assert Initialize(CdpKind, a, env, false) == Err(AttributeError("mgmt"));
  }

  /** Corrected, the CDP plugin initialises with `mgmt` off. */
  lemma CdpPluginCorrected(a: Cli.Args, env: InitEnv)
    requires Cli.HierNamespace(a)
    ensures InitializeSelected(["GetCdpChange"], a, env, true) == Ok(map["GetCdpChange" := Cdp(false, Deploy.SetOf(env.leafs))])
  {
    assert ["GetCdpChange"][1..] == [];
  }

  /** As written, selecting the description plugin without a spreadsheet
      always fails to initialise: the policy fetch raises TypeError on its
      keyword. With a spreadsheet the policies are never fetched. */
  lemma DescPluginFails(a: Cli.Args, env: InitEnv)
    requires !(a.excel.Some? && a.excel.value != "")
    ensures Initialize(DescKind, a, env, false) == Err(TypeError(UnexpectedKeywordMsg("get_switches_policies", "config")))
    ensures InitializeSelected(["desc"], a, env, false) == Err(PlugInInitialization(InitFailureMsg + "desc"))
  {
  }

  /** Corrected, the description plugin without a spreadsheet initialises
      exactly when the policy route succeeds, with the route's table; as
      written and corrected agree whenever a spreadsheet is given. */
  lemma DescPluginCorrected(a: Cli.Args, env: InitEnv)
    ensures !(a.excel.Some? && a.excel.value != "") ==>
      (Initialize(DescKind, a, env, true).Ok? <==> DescPolicyRoute(env).Ok?) &&
      (DescPolicyRoute(env).Ok? ==> Initialize(DescKind, a, env, true) == Ok(Desc(DescPolicyRoute(env).value.table)))
    ensures a.excel.Some? && a.excel.value != "" ==> Initialize(DescKind, a, env, true) == Initialize(DescKind, a, env, false)
  {
  }

  /** As written, the orphan-port plugin never initialises for a list of
      serial numbers, and under `--all` it fails as soon as the inventory
      holds a switch. */
  lemma OrphanPluginFails(a: Cli.Args, env: InitEnv)
    requires env.serials.Some? || env.inventory != []
    ensures Initialize(OrphanKind, a, env, false).Err?
    ensures env.serials.Some? ==> Initialize(OrphanKind, a, env, false) == Err(SwitchesSwitchesParameter(DetailsSerialsMsg))
    ensures InitializeSelected(["GetOrphanportChange"], a, env, false) ==
      Err(PlugInInitialization(InitFailureMsg + "GetOrphanportChange"))
  {
  }

  /** Where it does initialise, it raises TypeError on the first leaf
      interface it is called on: the details it subscripts are a bool. */
  lemma OrphanFlagRaises(uplinks: Predicates.Uplinks, key: Key, u: Unit)
    ensures RunSelected(["GetOrphanportChange"], map["GetOrphanportChange" := OrphanFlag(uplinks)], key, u, true)
      == Err(TypeError("'bool' object is not subscriptable"))
  {
    var e := TypeError("'bool' object is not subscriptable");
    BoolKeyMsg();
    var c := OrphanFlag(uplinks);
    assert Call(c, key, u) == Err(e);
    var entries := Entries(["GetOrphanportChange"], map["GetOrphanportChange" := c]);
    assert |entries| == 1 && Runner.Applies(entries[0], true) && entries[0].check(key, u) == Err(e);
    assert Runner.Run(entries, key, u, true) == Err(e);
  }

  lemma BoolKeyMsg()
    ensures StrKeyMsg(JBool(true)) == "'bool' object is not subscriptable"
  {
    assert StrKeyMsg(JBool(true)) == "'" + "bool" + "' object is not subscriptable";
  }

  /** Corrected, the orphan-port plugin initialises exactly when the
      details are held or fetched and the uplink table loads, and keeps
      both. */
  lemma OrphanPluginCorrected(a: Cli.Args, env: InitEnv)
    ensures InitializeSelected(["GetOrphanportChange"], a, env, true).Ok? <==>
      (env.details != map[] || env.detailsFetch.Ok?) && a.uplinks.Some? && env.uplinksIsFile &&
      env.uplinksLoaded.Ok? && |env.uplinksLoaded.value| > 0 && Cli.GetUplinks(env.uplinksLoaded.value).Ok?
    ensures InitializeSelected(["GetOrphanportChange"], a, env, true).Ok? ==>
      InitializeSelected(["GetOrphanportChange"], a, env, true) ==
        Ok(map["GetOrphanportChange" := Orphan(if env.details == map[] then env.detailsFetch.value else env.details,
                                               Cli.GetUplinks(env.uplinksLoaded.value).value)])
  {
    assert ["GetOrphanportChange"][1..] == [];
  }

  // ---------------------------------------------------------------------
  // run_selected_plugins

  /** The selected plugins as runner entries, in set order. */
  function Entries(order: seq<string>, configured: map<string, Configured>): (r: seq<Runner.Entry>)
    requires forall i :: 0 <= i < |order| ==> order[i] in configured
    ensures |r| == |order|
    ensures forall i :: 0 <= i < |order| ==> r[i].leafOnly == LeafOnly(configured[order[i]])
    ensures forall i, key, u :: 0 <= i < |order| ==> r[i].check(key, u) == Call(configured[order[i]], key, u)
  {
    seq(|order|, i requires 0 <= i < |order| => Entry(configured[order[i]]))
  }

  function Entry(c: Configured): (e: Runner.Entry)
    ensures e.leafOnly == LeafOnly(c)
    ensures forall key, u :: e.check(key, u) == Call(c, key, u)
  {
    Runner.Entry((key: Key, u: Unit) => Call(c, key, u), LeafOnly(c))
  }

  /** `run_selected_plugins`: every selected plugin that applies is
      called, in set order, and the verdicts are OR-ed. */
  function RunSelected(order: seq<string>, configured: map<string, Configured>, key: Key, u: Unit, leaf: bool)
    : (r: Result<Runner.Ran, Error>)
    requires forall i :: 0 <= i < |order| ==> order[i] in configured
    ensures r.Ok? ==> (r.value.changed <==> true in r.value.verdicts)
    ensures !leaf && (forall i :: 0 <= i < |order| ==> LeafOnly(configured[order[i]])) ==> r == Ok(Runner.Ran(false, u, []))
  {
    var entries := Entries(order, configured);
    if !leaf && (forall i :: 0 <= i < |order| ==> LeafOnly(configured[order[i]])) then
      NoneApplicable(entries, leaf);
      Runner.Run(entries, key, u, leaf)
    else Runner.Run(entries, key, u, leaf)
  }

  /** Running the selected plugins is running their entries. */
  lemma RunSelectedIsRun(order: seq<string>, configured: map<string, Configured>)
    requires forall i :: 0 <= i < |order| ==> order[i] in configured
    ensures forall key, u, leaf :: RunSelected(order, configured, key, u, leaf) == Runner.Run(Entries(order, configured), key, u, leaf)
  {
  }

  lemma NoneApplicable(entries: seq<Runner.Entry>, leaf: bool)
    requires !leaf && forall i :: 0 <= i < |entries| ==> entries[i].leafOnly
    ensures Runner.Applicable(entries, leaf) == []
  {
    assert forall i :: 0 <= i < |entries| ==> !Runner.Applies(entries[i], leaf);
  }

  /** The orphan-port plugin leaves interfaces of non-leaf switches
      alone. */
  lemma OrphanSkipsNonLeaf(details: map<string, SwitchRec>, uplinks: Predicates.Uplinks, key: Key, u: Unit)
    ensures RunSelected(["GetOrphanportChange"], map["GetOrphanportChange" := Orphan(details, uplinks)], key, u, false)
      == Ok(Runner.Ran(false, u, []))
  {
  }

  // ---------------------------------------------------------------------
  // the engine instance

  /** `singleton`: the first call builds the instance (`make`), every later
      call returns it. Returns the instance and the cached one. */
  function Singleton<T>(cached: Option<T>, make: T): (r: (T, Option<T>))
    ensures cached.Some? ==> r == (cached.value, cached)
    ensures cached.None? ==> r == (make, Some(make))
    ensures r.1 == Some(r.0)
  {
    if cached.Some? then (cached.value, cached) else (make, Some(make))
  }

  /** Two calls return the same instance, whatever the second would have
      built. */
  lemma SingletonOnce<T>(cached: Option<T>, first: T, second: T)
    ensures Singleton(Singleton(cached, first).1, second).0 == Singleton(cached, first).0
  {
  }
}
