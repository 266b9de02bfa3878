/** Policy and interface filtering of the flat generation
    (dcnm/interfaces/dcnm_interfaces.py): `get_switches_policies`,
    `get_filtered_interfaces_nvpairs` and `get_filtered_interfaces_details`. */
module IfPolicies {
  import opened Wrappers
  import opened Json
  import opened Errors
  import opened Records
  import opened Patterns
  import Text
  import HierUtils
  import PolicyFilter
  import IfSwitches
  import Units

  /** The flat copy of `_check_patterns` words its collection error
      differently. */
  const PatternsTypeMsg := "patterns must be a string or a list or tuple"

  function Check(search: Search, a: FilterArg, subject: Subject): Result<bool, Error> {
    CheckPatterns(search, AsPatterns(a), subject, PatternsTypeMsg)
  }

  // ---------------------------------------------------------------------
  // get_switches_policies

  /** The filters `get_switches_policies` accepts, before wrapping. */
  datatype PolicyFilters = PolicyFilters(
    fabric: Option<string>,
    description: FilterArg,
    entityName: Option<string>,
    entityType: Option<string>,
    templateName: FilterArg,
    config: FilterArg)

  predicate Truthy(s: Option<string>) {
    s.Some? && |s.value| > 0
  }

  const NoSerialsMsg := "Provide either a list of serial numbers or first run eitherget_all_switches or get_switches_by_serial_numbers"
  const TemplateTypeMsg := "templateName parameter must be a list or tuple"
  const ConfigTypeMsg := "config parameter must be a list or tuple"
  const FilterTypesMsg := "description must be a string or a list of strings\ntemplateName must be a string or a list of strings\nconfig must be a string or a list of strings"

  /** The `serialNumber` query parameter: the given serials comma-joined, or
      every discovered serial, leaf ones first. */
  function Params(arg: SerialArg, roles: IfSwitches.Roles): (r: Result<string, Error>)
    ensures arg.SerialList? && Given(arg) ==> r == Ok(Text.Join(arg.items, ","))
    ensures arg.OneSerial? && Given(arg) ==> r == Ok(arg.s)
    ensures !Given(arg) ==> (r.Err? <==> |roles.leaf.m| == 0 && |roles.notleaf.m| == 0)
    ensures !Given(arg) && r.Ok? ==> r.value == Text.Join(roles.leaf.keys + roles.notleaf.keys, ",")
    ensures r.Err? ==> r.error == SwitchesPoliciesParameter(NoSerialsMsg)
  {
    if Given(arg) then (if arg.SerialList? then Ok(Text.Join(arg.items, ",")) else Ok(arg.s))
    else if |roles.leaf.m| == 0 && |roles.notleaf.m| == 0 then Err(SwitchesPoliciesParameter(NoSerialsMsg))
    else Ok(Text.Join(roles.leaf.keys + roles.notleaf.keys, ","))
  }

  /** A list-valued filter: `_check_patterns` when it is a list, a
      parameter error when it is set to anything else. */
  function ListFilter(search: Search, a: FilterArg, subject: string, typeMsg: string): (r: Result<bool, Error>)
    requires Active(a)
    ensures !a.FList? ==> r == Err(SwitchesPoliciesParameter(typeMsg))
    ensures a.FList? ==> r == Check(search, a, SStr(subject))
  {
    if a.FList? then Check(search, a, SStr(subject)) else Err(SwitchesPoliciesParameter(typeMsg))
  }

  /** Whether one policy survives the filters (already wrapped), checked in
      the code's order: description, entity name, entity type, template
      name, generated config. A policy without a description raises
      KeyError when that filter is set. */
  function PassesRaw(search: Search, f: PolicyFilters, p: Policy): (r: Result<bool, Error>)
    ensures r == Ok(true) ==>
      (Active(f.description) ==> p.description.Some? && Check(search, f.description, SStr(p.description.value)) == Ok(true)) &&
      (Truthy(f.entityName) ==> search(f.entityName.value, p.entityName)) &&
      (Truthy(f.entityType) ==> search(f.entityType.value, p.entityType)) &&
      (Active(f.templateName) ==> f.templateName.FList? && Check(search, f.templateName, SStr(p.templateName)) == Ok(true)) &&
      (Active(f.config) ==> f.config.FList? && Check(search, f.config, SStr(p.generatedConfig)) == Ok(true))
    ensures (!Active(f.description) && !Truthy(f.entityName) && !Truthy(f.entityType) &&
             !Active(f.templateName) && !Active(f.config)) ==> r == Ok(true)
  {
    var d :- if !Active(f.description) then Ok(true)
      else if p.description.None? then Err(KeyError("description"))
      else Check(search, f.description, SStr(p.description.value));
    if !d then Ok(false)
    else if Truthy(f.entityName) && !search(f.entityName.value, p.entityName) then Ok(false)
    else if Truthy(f.entityType) && !search(f.entityType.value, p.entityType) then Ok(false)
    else
      var t :- if Active(f.templateName) then ListFilter(search, f.templateName, p.templateName, TemplateTypeMsg) else Ok(true);
      if !t then Ok(false)
      else if Active(f.config) then ListFilter(search, f.config, p.generatedConfig, ConfigTypeMsg)
      else Ok(true)
  }

  /** The verdict with the `except DCNMParamaterError` translation applied,
      reading the misspelled name as the parameter error it means (as
      written the module does not import; see `Imports`). */
  function Passes(search: Search, f: PolicyFilters, p: Policy): (r: Result<bool, Error>)
    ensures PassesRaw(search, f, p).Ok? ==> r == PassesRaw(search, f, p)
    ensures r.Err? ==> !r.error.ParameterError?
  {
    match PassesRaw(search, f, p)
    case Err(ParameterError(_)) => Err(SwitchesPoliciesParameter(FilterTypesMsg))
    case other => other
  }

  function Wrap(f: PolicyFilters): PolicyFilters {
    f.(description := Wrapped(f.description), templateName := Wrapped(f.templateName), config := Wrapped(f.config))
  }

  /** The fabric filter: with a fabric given, a serial stays when the leaf
      or the not-leaf map files it under that fabric. */
  predicate FabricOk(roles: IfSwitches.Roles, fabric: Option<string>, sn: string) {
    !Truthy(fabric) ||
    (sn in roles.leaf.m && roles.leaf.m[sn] == fabric.value) ||
    (sn in roles.notleaf.m && roles.notleaf.m[sn] == fabric.value)
  }

  /** The policy cache and its saved copy. */
  datatype Cache = Cache(cur: PolicyFilter.Groups, prev: PolicyFilter.Groups)

  /** `get_switches_policies`: fetches the policies of the requested
      serials and keeps, grouped by serial, exactly those whose serial
      passes the fabric filter and which pass every other filter; no
      serial is left with an empty list. With `save_prev` a non-empty
      cache is saved first. */
  function GetSwitchesPolicies(search: Search, arg: SerialArg, f: PolicyFilters, savePrev: bool, roles: IfSwitches.Roles,
                               cache: Cache, fetch: string -> Result<Dict, Error>, items: seq<Policy>)
    : (r: Result<Cache, Error>)
    ensures !Given(arg) && |roles.leaf.m| == 0 && |roles.notleaf.m| == 0 ==> r == Err(SwitchesPoliciesParameter(NoSerialsMsg))
    ensures r.Ok? ==> r.value.prev == (if savePrev && |cache.cur.m| > 0 then cache.cur else cache.prev)
    ensures r.Ok? ==> PolicyFilter.Grouped(r.value.cur)
    ensures r.Ok? ==> forall sn :: sn in r.value.cur.m ==> (FabricOk(roles, f.fabric, sn) &&
      forall p :: p in r.value.cur.m[sn] ==> p in items && p.serialNumber == sn && Passes(search, Wrap(f), p) == Ok(true))
    ensures r.Ok? ==> forall k :: (0 <= k < |items| && FabricOk(roles, f.fabric, items[k].serialNumber) &&
                                   Passes(search, Wrap(f), items[k]) == Ok(true)) ==>
      items[k].serialNumber in r.value.cur.m && items[k] in r.value.cur.m[items[k].serialNumber]
  {
    HierUtils.ErrorHandler(
      var prev := if savePrev && |cache.cur.m| > 0 then cache.cur else cache.prev;
      var params :- Params(arg, roles);
      var reply :- fetch(params);
      var _ :- HierUtils.CheckResponse(reply);
      var cur :- PolicyFilter.Select(items, sn => FabricOk(roles, f.fabric, sn), p => Passes(search, Wrap(f), p));
      Ok(Cache(cur, prev)))
  }

  /** With no filter at all, every listed policy is kept under its
      serial. */
  lemma NoFiltersKeepAll(search: Search, arg: SerialArg, savePrev: bool, roles: IfSwitches.Roles,
                         cache: Cache, fetch: string -> Result<Dict, Error>, items: seq<Policy>)
    requires GetSwitchesPolicies(search, arg, PolicyFilters(None, FNone, None, None, FNone, FNone), savePrev, roles, cache, fetch, items).Ok?
    ensures var cur := GetSwitchesPolicies(search, arg, PolicyFilters(None, FNone, None, None, FNone, FNone), savePrev, roles, cache, fetch, items).value.cur;
      forall k :: 0 <= k < |items| ==> items[k].serialNumber in cur.m && items[k] in cur.m[items[k].serialNumber]
  {
    var f := PolicyFilters(None, FNone, None, None, FNone, FNone);
    forall k | 0 <= k < |items| ensures Passes(search, Wrap(f), items[k]) == Ok(true) {
    }
  }

  // ---------------------------------------------------------------------
  // get_filtered_interfaces_nvpairs / get_filtered_interfaces_details

  /** Keeps, in order, the entries whose verdict is True; the first failing
      verdict aborts. The input is not changed. */
  function FilterEntries<V>(keys: seq<Key>, d: map<Key, V>, verdict: V -> Result<bool, Error>): (r: Result<ODict<Key, V>, Error>)
    requires forall k :: 0 <= k < |keys| ==> keys[k] in d
    requires Distinct(keys)
    ensures r.Ok? ==> WellFormed(r.value)
    ensures r.Ok? ==> forall key :: key in r.value.m ==> key in keys && r.value.m[key] == d[key] && verdict(d[key]) == Ok(true)
    ensures r.Ok? ==> forall k :: 0 <= k < |keys| && verdict(d[keys[k]]) == Ok(true) ==> keys[k] in r.value.m
    ensures r.Ok? ==> forall k :: 0 <= k < |r.value.keys| ==> r.value.keys[k] in keys
    ensures r.Ok? <==> forall k :: 0 <= k < |keys| ==> verdict(d[keys[k]]).Ok?
    ensures r.Err? ==> exists k :: 0 <= k < |keys| && verdict(d[keys[k]]) == Err(r.error)
    decreases |keys|
  {
    if |keys| == 0 then Ok(EmptyDict())
    else
      var keep :- verdict(d[keys[0]]);
      var rest :- FilterEntries(keys[1..], d, verdict);
      assert forall k :: 1 <= k < |keys| ==> keys[k] == keys[1..][k - 1];
      if keep then
        assert keys[0] !in rest.m;
        Ok(ODict([keys[0]] + rest.keys, rest.m[keys[0] := d[keys[0]]]))
      else Ok(rest)
  }

  /** The filters `get_filtered_interfaces_nvpairs` accepts. */
  datatype NvFilters = NvFilters(policy: FilterArg, config: FilterArg, nonConfig: FilterArg, nvPairs: FilterArg)

  /** The single pattern `[config]` makes of the (wrapped) config argument:
      a list (the parameter's declared type) becomes a sequence pattern,
      anything else an invalid one. */
  function Nest(a: FilterArg): Pattern {
    match a
    case FList(ps) => PSeq(seq(|ps|, k requires 0 <= k < |ps| => if ps[k].PStr? then ps[k].p else ""), false)
    case _ => PBad
  }

  /** The config filter after the wrapping lines: a string `non_config`
      replaces `config` by `[config]`, and `non_config` itself is never
      used again. */
  function ConfigAsWritten(f: NvFilters): (r: FilterArg)
    ensures !f.nonConfig.FStr? ==> r == Wrapped(f.config)
    ensures f.nonConfig.FStr? ==> Active(r)
  {
    if f.nonConfig.FStr? then FList([Nest(Wrapped(f.config))]) else Wrapped(f.config)
  }

  /** One entry's verdict as written: the policy filter, the nv-pair filter,
      then the config filter twice, first dropping the entries that do not
      match and then the ones that do, so nothing survives an active config
      filter. */
  function NvVerdictRaw(search: Search, f: NvFilters, u: Unit): (r: Result<bool, Error>)
    ensures Active(ConfigAsWritten(f)) ==> r != Ok(true)
  {
    var policy := Wrapped(f.policy);
    var config := ConfigAsWritten(f);
    var p :- if Active(policy) then Check(search, policy, SStr(u.policy)) else Ok(true);
    if !p then Ok(false)
    else
      var nv :- if Active(f.nvPairs) then (var m :- Units.FirstNvPairs(u); Check(search, f.nvPairs, SDict(m))) else Ok(true);
      if !nv then Ok(false)
      else if !Active(config) then Ok(true)
      else
        var conf :- Units.NvGet(u, "CONF");
        // the second test repeats the first on the same inputs, so an entry
        // the first keeps is dropped by the second
        var first :- Check(search, config, SStr(conf));
        Ok(false)
  }

  const NvFilterTypesMsg := "serial_numbers must be a string or a list of strings\npolicy must be a string or a list of strings\nnv_pairs must be a list of tuples of two strings\nconfig must be a string or a list of strings"

  function NvVerdict(search: Search, f: NvFilters, u: Unit): (r: Result<bool, Error>)
    ensures NvVerdictRaw(search, f, u).Ok? ==> r == NvVerdictRaw(search, f, u)
    ensures r.Err? ==> !r.error.ParameterError?
  {
    match NvVerdictRaw(search, f, u)
    case Err(ParameterError(_)) => Err(InterfacesParameter(NvFilterTypesMsg))
    case other => other
  }

  /** `get_filtered_interfaces_nvpairs` as written: a subset of the input
      entries, each unchanged. */
  function GetFilteredInterfacesNvpairs(search: Search, d: ODict<Key, Unit>, f: NvFilters): (r: Result<ODict<Key, Unit>, Error>)
    requires WellFormed(d)
    ensures r.Ok? ==> WellFormed(r.value)
    ensures r.Ok? ==> forall key :: key in r.value.m ==> key in d.m && r.value.m[key] == d.m[key]
    ensures r.Ok? ==> forall key :: key in d.m && NvVerdict(search, f, d.m[key]) == Ok(true) ==> key in r.value.m
  {
    FilterEntries(d.keys, d.m, u => NvVerdict(search, f, u))
  }

  /** As written, any config filter (or a string `non_config`) removes every
      entry. */
  lemma ConfigFilterEmptiesAll(search: Search, d: ODict<Key, Unit>, f: NvFilters)
    requires WellFormed(d)
    requires Active(ConfigAsWritten(f))
    requires GetFilteredInterfacesNvpairs(search, d, f).Ok?
    ensures GetFilteredInterfacesNvpairs(search, d, f).value.m == map[]
  {
  }

  /** The verdict as the parameters describe it: `config` keeps the
      entries whose CONF matches, `non_config` drops the ones whose CONF
      matches, and `(key, regex)` nv-pair patterns are matched against the
      named nv-pair. */
  function NvVerdictCorrected(search: Search, f: NvFilters, u: Unit): (r: Result<bool, Error>)
    ensures r == Ok(true) && Active(Wrapped(f.config)) ==>
      Units.NvGet(u, "CONF").Ok? &&
      CheckPatternsCorrected(search, AsPatterns(Wrapped(f.config)), SStr(Units.NvGet(u, "CONF").value), PatternsTypeMsg) == Ok(true)
    ensures r == Ok(true) && Active(Wrapped(f.nonConfig)) ==>
      Units.NvGet(u, "CONF").Ok? &&
      CheckPatternsCorrected(search, AsPatterns(Wrapped(f.nonConfig)), SStr(Units.NvGet(u, "CONF").value), PatternsTypeMsg) == Ok(false)
    ensures r == Ok(true) && Active(Wrapped(f.policy)) ==>
      CheckPatternsCorrected(search, AsPatterns(Wrapped(f.policy)), SStr(u.policy), PatternsTypeMsg) == Ok(true)
  {
    var policy := Wrapped(f.policy);
    var config := Wrapped(f.config);
    var nonConfig := Wrapped(f.nonConfig);
    var p :- if Active(policy) then CheckPatternsCorrected(search, AsPatterns(policy), SStr(u.policy), PatternsTypeMsg) else Ok(true);
    if !p then Ok(false)
    else
      var nv :- if Active(f.nvPairs) then (var m :- Units.FirstNvPairs(u); CheckPatternsCorrected(search, AsPatterns(f.nvPairs), SDict(m), PatternsTypeMsg)) else Ok(true);
      if !nv then Ok(false)
      else
        var c :- if Active(config) then (var conf :- Units.NvGet(u, "CONF"); CheckPatternsCorrected(search, AsPatterns(config), SStr(conf), PatternsTypeMsg)) else Ok(true);
        if !c then Ok(false)
        else if !Active(nonConfig) then Ok(true)
        else
          var conf :- Units.NvGet(u, "CONF");
          var n :- CheckPatternsCorrected(search, AsPatterns(nonConfig), SStr(conf), PatternsTypeMsg);
          Ok(!n)
  }

  /** With only a config regex list, the corrected filter keeps an entry
      exactly when one regex is found in its CONF. */
  lemma CorrectedConfigKeepsMatches(search: Search, ps: seq<Pattern>, u: Unit)
    requires |ps| > 0 && AllStr(ps)
    requires |u.interfaces| > 0 && "CONF" in u.interfaces[0].nvPairs
    ensures NvVerdictCorrected(search, NvFilters(FNone, FList(ps), FNone, FNone), u)
      == Ok(exists k :: 0 <= k < |ps| && search(ps[k].p, u.interfaces[0].nvPairs["CONF"]))
  {
    var conf := u.interfaces[0].nvPairs["CONF"];
    StrPatternsExist(search, ps, conf, PatternsTypeMsg);
    CorrectedAgreesOnStr(search, ps, SStr(conf), PatternsTypeMsg);
  }

  /** With only a non-config regex list, the corrected filter drops an
      entry exactly when one regex is found in its CONF. */
  lemma CorrectedNonConfigDropsMatches(search: Search, ps: seq<Pattern>, u: Unit)
    requires |ps| > 0 && AllStr(ps)
    requires |u.interfaces| > 0 && "CONF" in u.interfaces[0].nvPairs
    ensures NvVerdictCorrected(search, NvFilters(FNone, FNone, FList(ps), FNone), u)
      == Ok(!exists k :: 0 <= k < |ps| && search(ps[k].p, u.interfaces[0].nvPairs["CONF"]))
  {
    var conf := u.interfaces[0].nvPairs["CONF"];
    StrPatternsExist(search, ps, conf, PatternsTypeMsg);
    CorrectedAgreesOnStr(search, ps, SStr(conf), PatternsTypeMsg);
  }

  function GetFilteredInterfacesNvpairsCorrected(search: Search, d: ODict<Key, Unit>, f: NvFilters)
    : (r: Result<ODict<Key, Unit>, Error>)
    requires WellFormed(d)
    ensures r.Ok? ==> WellFormed(r.value)
    ensures r.Ok? ==> forall key :: key in r.value.m ==>
      (key in d.m && r.value.m[key] == d.m[key] && NvVerdictCorrected(search, f, d.m[key]) == Ok(true))
    ensures r.Ok? ==> forall key :: key in d.m && NvVerdictCorrected(search, f, d.m[key]) == Ok(true) ==> key in r.value.m
  {
    FilterEntries(d.keys, d.m, u => NvVerdictCorrected(search, f, u))
  }

  /** An interface as `get_all_interfaces_details` records it. */
  datatype Detail = Detail(interfacePolicy: string, operStatus: string, isPhysical: bool)

  const DetailFilterTypesMsg := "serial_numbers must be a string or a list of strings\npolicy must be a string or a list of strings\noper must be a string or a list of strings"

  /** One entry's verdict: the policy filter, the operational-status
      filter, then the physical flag when one is given. */
  function DetailVerdictRaw(search: Search, policy: FilterArg, oper: FilterArg, physical: Option<bool>, d: Detail)
    : (r: Result<bool, Error>)
    ensures r == Ok(true) <==>
      (Active(Wrapped(policy)) ==> Check(search, Wrapped(policy), SStr(d.interfacePolicy)) == Ok(true)) &&
      (Active(Wrapped(oper)) ==> Check(search, Wrapped(oper), SStr(d.operStatus)) == Ok(true)) &&
      (physical.Some? ==> d.isPhysical == physical.value)
    ensures r.Err? ==>
      (Active(Wrapped(policy)) && Check(search, Wrapped(policy), SStr(d.interfacePolicy)) == Err(r.error)) ||
      (Active(Wrapped(oper)) && Check(search, Wrapped(oper), SStr(d.operStatus)) == Err(r.error))
  {
    var p :- if Active(Wrapped(policy)) then Check(search, Wrapped(policy), SStr(d.interfacePolicy)) else Ok(true);
    if !p then Ok(false)
    else
      var o :- if Active(Wrapped(oper)) then Check(search, Wrapped(oper), SStr(d.operStatus)) else Ok(true);
      if !o then Ok(false)
      else Ok(physical.None? || d.isPhysical == physical.value)
  }

  /** The verdict with the `except DCNMParamaterError` translation applied
      (the misspelled name read as the parameter error it means; see
      `Imports`): only a parameter error is reworded; any other exception of the
      pattern check leaves unchanged. */
  function DetailVerdict(search: Search, policy: FilterArg, oper: FilterArg, physical: Option<bool>, d: Detail)
    : (r: Result<bool, Error>)
    ensures DetailVerdictRaw(search, policy, oper, physical, d).Ok? ==> r == DetailVerdictRaw(search, policy, oper, physical, d)
    ensures r.Err? <==> DetailVerdictRaw(search, policy, oper, physical, d).Err?
    ensures r.Err? && DetailVerdictRaw(search, policy, oper, physical, d).error.ParameterError? ==>
      r.error == InterfacesParameter(DetailFilterTypesMsg)
    ensures r.Err? && !DetailVerdictRaw(search, policy, oper, physical, d).error.ParameterError? ==>
      r == DetailVerdictRaw(search, policy, oper, physical, d)
    ensures r == Ok(true) && physical.Some? ==> d.isPhysical == physical.value
    ensures !Active(Wrapped(policy)) && !Active(Wrapped(oper)) ==> r == Ok(physical.None? || d.isPhysical == physical.value)
  {
    match DetailVerdictRaw(search, policy, oper, physical, d)
    case Err(ParameterError(_)) => Err(InterfacesParameter(DetailFilterTypesMsg))
    case other => other
  }

  /** A tuple policy pattern is not a parameter error: the TypeError of
      subscripting the compiled regex leaves the verdict unchanged. */
  lemma DetailTupleEscapes(search: Search, a: string, b: string, rest: seq<Pattern>, oper: FilterArg,
                           physical: Option<bool>, d: Detail)
    ensures DetailVerdict(search, FList([PSeq([a, b], true)] + rest), oper, physical, d) == Err(TypeError(CompiledKeyMsg))
  {
    var pol := FList([PSeq([a, b], true)] + rest);
    assert Wrapped(pol) == pol;
    assert Check(search, pol, SStr(d.interfacePolicy)) == Err(TypeError(CompiledKeyMsg));
  }

  /** `get_filtered_interfaces_details`: the entries passing every given
      filter, unchanged. */
  function GetFilteredInterfacesDetails(search: Search, d: ODict<Key, Detail>, policy: FilterArg, oper: FilterArg, physical: Option<bool>)
    : (r: Result<ODict<Key, Detail>, Error>)
    requires WellFormed(d)
    ensures r.Ok? ==> WellFormed(r.value)
    ensures r.Ok? ==> forall key :: key in r.value.m ==>
      (key in d.m && r.value.m[key] == d.m[key] && DetailVerdict(search, policy, oper, physical, d.m[key]) == Ok(true))
    ensures r.Ok? ==> forall key :: key in d.m && DetailVerdict(search, policy, oper, physical, d.m[key]) == Ok(true) ==> key in r.value.m
    ensures r.Err? ==> exists key :: key in d.m && DetailVerdict(search, policy, oper, physical, d.m[key]) == Err(r.error)
    ensures r.Err? ==> r.error == InterfacesParameter(DetailFilterTypesMsg) || r.error.TypeError? || r.error.IndexError?
  {
    FilterEntries(d.keys, d.m, x => DetailVerdict(search, policy, oper, physical, x))
  }
}
