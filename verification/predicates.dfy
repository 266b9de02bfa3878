/** The per-interface change predicates of the interface tool: the
    description rewrite, the CDP switch-off and the orphan-port suspend.
    The flat generation writes them as closures, the hierarchy generation
    as plugin classes; the decisions are the same. Each takes an
    `(ifName, serialNumber)` key and its configuration unit and returns
    whether it edited the unit, together with the unit after the edit (the
    source edits the unit in place). */
module Predicates {
  import opened Wrappers
  import opened Errors
  import opened Records
  import Text
  import Units

  const NoCdp := "no cdp enable"
  const OrphanSuspend := "vpc orphan-port suspend"
  const OrphanEnable := "vpc orphan-port enable"
  const NoUplinkMsg := "No uplink data for model "

  /** `'{}\n{}'.format(conf, line)`, or `line` alone when `conf` is empty. */
  function AppendLine(conf: string, line: string): (r: string)
    ensures conf == "" ==> r == line
    ensures conf != "" ==> |r| == |conf| + 1 + |line| && r[..|conf|] == conf && r[|conf|] == '\n' && r[|conf| + 1..] == line
  {
    if conf == "" then line else conf + "\n" + line
  }

  /** The appended line can be found in the result. */
  lemma AppendLineContains(conf: string, line: string)
    ensures Text.Contains(AppendLine(conf, line), line)
  {
    if conf == "" {
      assert line == [] + line;
      Text.ContainsSuffix([], line);
    } else {
      assert AppendLine(conf, line) == (conf + "\n") + line;
      Text.ContainsSuffix(conf + "\n", line);
    }
  }

  /** Joining two texts without `t` by a newline does not create `t` when
      `t` itself spans no newline. */
  lemma AppendLineKeepsOut(conf: string, line: string, t: string)
    requires |t| > 0 && '\n' !in t
    requires !Text.Contains(conf, t) && !Text.Contains(line, t)
    ensures !Text.Contains(AppendLine(conf, line), t)
  {
    if conf != "" {
      assert AppendLine(conf, line) == conf + ['\n'] + line;
      Text.NoStraddle(conf, '\n', line, t);
    }
  }

  // ---------------------------------------------------------------------
  // description

  /** A non-vPC interface that has a wanted description gets it, unless it
      already carries it. */
  function DescChange(table: map<Key, string>, key: Key, u: Unit): (r: Result<(bool, Unit), Error>)
    ensures key !in table || Text.Contains(Text.Lower(key.0), "vpc") ==> r == Ok((false, u))
    ensures key in table && !Text.Contains(Text.Lower(key.0), "vpc") ==>
      (r.Ok? <==> Units.NvGet(u, "DESC").Ok?) &&
      (r.Err? ==> r.error == Units.NvGet(u, "DESC").error)
    ensures r.Ok? ==> (r.value.0 <==> r.value.1 != u)
    ensures r.Ok? && r.value.0 ==>
      key in table && Units.NvGet(u, "DESC").Ok? && Units.NvGet(u, "DESC").value != table[key] &&
      Units.NvGet(r.value.1, "DESC") == Ok(table[key])
    ensures r.Ok? && !r.value.0 && key in table && !Text.Contains(Text.Lower(key.0), "vpc") ==>
      Units.NvGet(u, "DESC") == Ok(table[key])
  {
    if key in table && !Text.Contains(Text.Lower(key.0), "vpc") then
      var desc :- Units.NvGet(u, "DESC");
      if desc != table[key] then Ok((true, Units.SetNv(u, "DESC", table[key]))) else Ok((false, u))
    else
      Ok((false, u))
  }

  /** Running the description predicate on its own output changes nothing. */
  lemma DescIdempotent(table: map<Key, string>, key: Key, u: Unit)
    requires DescChange(table, key, u).Ok?
    ensures var u' := DescChange(table, key, u).value.1;
      DescChange(table, key, u') == Ok((false, u'))
  {
  }

  // ---------------------------------------------------------------------
  // CDP

  /** The mgmt branch fires: the flag is set, the name has `mgmt` and CDP
      is on. Reads `CDP_ENABLE` only when the first two hold. */
  function MgmtCdpOn(mgmt: bool, key: Key, u: Unit): (r: Result<bool, Error>)
    ensures mgmt && Text.Contains(key.0, "mgmt") ==>
      (r.Ok? <==> Units.NvGet(u, "CDP_ENABLE").Ok?) &&
      (r.Err? ==> r.error == Units.NvGet(u, "CDP_ENABLE").error) &&
      (r.Ok? ==> (r.value <==> Units.NvGet(u, "CDP_ENABLE").value == "true"))
    ensures !(mgmt && Text.Contains(key.0, "mgmt")) ==> r == Ok(false)
  {
    if mgmt && Text.Contains(key.0, "mgmt") then
      var cdp :- Units.NvGet(u, "CDP_ENABLE");
      Ok(cdp == "true")
    else
      Ok(false)
  }

  /** A leaf switch's ethernet interface that is not a fabric link. */
  predicate HostPort(leafs: set<string>, key: Key, u: Unit) {
    key.1 in leafs && Text.Contains(Text.Lower(key.0), "ethernet") && !Text.Contains(u.policy, "fabric")
  }

  /** Switch CDP off: on a mgmt interface (when `mgmt` is set) by clearing
      `CDP_ENABLE`, otherwise on a leaf host port by adding `no cdp enable`
      to its free-form config. */
  function CdpChange(mgmt: bool, leafs: set<string>, key: Key, u: Unit): (r: Result<(bool, Unit), Error>)
    ensures r.Ok? ==> (r.value.0 <==> r.value.1 != u)
    ensures MgmtCdpOn(mgmt, key, u).Err? ==> r == Err(MgmtCdpOn(mgmt, key, u).error)
    ensures MgmtCdpOn(mgmt, key, u) == Ok(true) ==>
      r.Ok? && r.value.0 && Units.NvGet(r.value.1, "CDP_ENABLE") == Ok("false") &&
      r.value.1.policy == u.policy && Units.NvGet(r.value.1, "CONF") == Units.NvGet(u, "CONF")
    ensures MgmtCdpOn(mgmt, key, u) == Ok(false) && !HostPort(leafs, key, u) ==> r == Ok((false, u))
    ensures MgmtCdpOn(mgmt, key, u) == Ok(false) && HostPort(leafs, key, u) ==>
      (r.Ok? <==> Units.NvGet(u, "CONF").Ok?) &&
      (r.Err? ==> r.error == Units.NvGet(u, "CONF").error) &&
      (r.Ok? ==> (r.value.0 <==> !Text.Contains(Units.NvGet(u, "CONF").value, NoCdp))) &&
      (r.Ok? && r.value.0 ==> Units.NvGet(r.value.1, "CONF") == Ok(AppendLine(Units.NvGet(u, "CONF").value, NoCdp)))
  {
    var on :- MgmtCdpOn(mgmt, key, u);
    if on then
      Ok((true, Units.SetNv(u, "CDP_ENABLE", "false")))
    else if HostPort(leafs, key, u) then
      var conf :- Units.NvGet(u, "CONF");
      if Text.Contains(conf, NoCdp) then Ok((false, u))
      else Ok((true, Units.SetNv(u, "CONF", AppendLine(conf, NoCdp))))
    else
      Ok((false, u))
  }

  /** Running the CDP predicate on its own output changes nothing, for an
      interface whose name is not both a mgmt and an ethernet name (a mgmt
      port that is also a leaf host port is fixed in two passes). */
  lemma CdpIdempotent(mgmt: bool, leafs: set<string>, key: Key, u: Unit)
    requires !(Text.Contains(key.0, "mgmt") && Text.Contains(Text.Lower(key.0), "ethernet"))
    requires CdpChange(mgmt, leafs, key, u).Ok?
    ensures var u' := CdpChange(mgmt, leafs, key, u).value.1;
      CdpChange(mgmt, leafs, key, u') == Ok((false, u'))
  {
    var u' := CdpChange(mgmt, leafs, key, u).value.1;
    if MgmtCdpOn(mgmt, key, u) == Ok(false) && HostPort(leafs, key, u) && CdpChange(mgmt, leafs, key, u).value.0 {
      AppendLineContains(Units.NvGet(u, "CONF").value, NoCdp);
    }
  }

  // ---------------------------------------------------------------------
  // orphan port

  /** The uplink table as loaded: each switch model name with the uplink
      interface names of that model, in file order. */
  type Uplinks = seq<(string, seq<string>)>

  /** `[uplinks[m] for m in uplinks if m in model][0]`: the uplinks of the
      first model name, in file order, that occurs in `model`. */
  function FirstUplinks(uplinks: Uplinks, model: string): (r: Result<seq<string>, Error>)
    ensures r.Err? <==> forall i :: 0 <= i < |uplinks| ==> !Text.Contains(model, uplinks[i].0)
    ensures r.Err? ==> r.error == IndexError(ListIndexMsg)
    ensures r.Ok? ==> exists i :: 0 <= i < |uplinks| && Text.Contains(model, uplinks[i].0) && r.value == uplinks[i].1 &&
                                (forall j :: 0 <= j < i ==> !Text.Contains(model, uplinks[j].0))
  {
    if uplinks == [] then Err(IndexError(ListIndexMsg))
    else if Text.Contains(model, uplinks[0].0) then Ok(uplinks[0].1)
    else
      var r := FirstUplinks(uplinks[1..], model);
      assert forall i :: 1 <= i < |uplinks| ==> uplinks[i] == uplinks[1..][i - 1];
      if r.Ok? then
        var i :| 0 <= i < |uplinks[1..]| && Text.Contains(model, uplinks[1..][i].0) && r.value == uplinks[1..][i].1 &&
          (forall j :: 0 <= j < i ==> !Text.Contains(model, uplinks[1..][j].0));
        assert forall j :: 0 <= j < i + 1 ==> !Text.Contains(model, uplinks[j].0) by {
          forall j | 0 <= j < i + 1 ensures !Text.Contains(model, uplinks[j].0) {
            if j > 0 { assert uplinks[j] == uplinks[1..][j - 1]; }
          }
        }
        r
      else
        r
  }

  /** A host-facing (trunk or access) port that is neither a mgmt port
      nor one of the model's uplinks. */
  predicate OrphanCandidate(ups: seq<string>, key: Key, u: Unit) {
    !Text.Contains(key.0, "mgmt") && key.0 !in ups &&
    (Text.Contains(u.policy, "int_trunk_host") || Text.Contains(u.policy, "int_access_host"))
  }

  /** Add `vpc orphan-port suspend` to a leaf host port's free-form config
      unless the config already holds `guard`. The switch's model selects
      the uplinks; a switch without details is a `KeyError`, a model no
      uplink entry matches an `IndexError`, an empty uplink list a
      `DCNMValueError`. */
  function OrphanChange(guard: string, details: map<string, SwitchRec>, uplinks: Uplinks,
                        key: Key, u: Unit): (r: Result<(bool, Unit), Error>)
    ensures key.1 !in details ==> r == Err(KeyError(key.1))
    ensures r.Ok? ==> (r.value.0 <==> r.value.1 != u)
    ensures key.1 in details ==>
      var ups := FirstUplinks(uplinks, details[key.1].model);
      (ups.Err? ==> r == Err(IndexError(ListIndexMsg))) &&
      (ups == Ok([]) ==> r == Err(DcnmValue(NoUplinkMsg + details[key.1].model))) &&
      (ups.Ok? && ups.value != [] && !OrphanCandidate(ups.value, key, u) ==> r == Ok((false, u))) &&
      (ups.Ok? && ups.value != [] && OrphanCandidate(ups.value, key, u) ==>
        (r.Ok? <==> Units.NvGet(u, "CONF").Ok?) &&
        (r.Err? ==> r.error == Units.NvGet(u, "CONF").error) &&
        (r.Ok? ==> (r.value.0 <==> !Text.Contains(Units.NvGet(u, "CONF").value, guard))) &&
        (r.Ok? && r.value.0 ==>
          Units.NvGet(r.value.1, "CONF") == Ok(AppendLine(Units.NvGet(u, "CONF").value, OrphanSuspend))))
  {
    if key.1 !in details then Err(KeyError(key.1))
    else
      var model := details[key.1].model;
      var ups :- FirstUplinks(uplinks, model);
      if ups == [] then Err(DcnmValue(NoUplinkMsg + model))
      else if OrphanCandidate(ups, key, u) then
        var conf :- Units.NvGet(u, "CONF");
        if Text.Contains(conf, guard) then Ok((false, u))
        else Ok((true, Units.SetNv(u, "CONF", AppendLine(conf, OrphanSuspend))))
      else
        Ok((false, u))
  }

  /** The flat generation's orphan-port closure tests for the line it writes. */
  function OrphanFlat(details: map<string, SwitchRec>, uplinks: Uplinks, key: Key, u: Unit)
    : (r: Result<(bool, Unit), Error>)
    ensures r.Ok? && r.value.0 ==>
      Units.NvGet(r.value.1, "CONF").Ok? && Text.Contains(Units.NvGet(r.value.1, "CONF").value, OrphanSuspend)
  {
    var r := OrphanChange(OrphanSuspend, details, uplinks, key, u);
    if r.Ok? && r.value.0 then
      AppendLineContains(Units.NvGet(u, "CONF").value, OrphanSuspend);
      r
    else
      r
  }

  /** The hierarchy generation's orphan-port plugin tests for
      `vpc orphan-port enable` but writes `vpc orphan-port suspend`. */
  function OrphanHier(details: map<string, SwitchRec>, uplinks: Uplinks, key: Key, u: Unit)
    : (r: Result<(bool, Unit), Error>)
    ensures r.Ok? && r.value.0 ==>
      Units.NvGet(u, "CONF").Ok? && !Text.Contains(Units.NvGet(u, "CONF").value, OrphanEnable)
  {
    OrphanChange(OrphanEnable, details, uplinks, key, u)
  }

  /** A string one character longer than `t` that differs from `t` at
      offset `k` and whose second character is not `t`'s first does not
      contain `t`. */
  lemma OneLonger(s: string, t: string, k: nat)
    requires |s| == |t| + 1 && k < |t| && s[k] != t[k] && s[1] != t[0]
    ensures !Text.Contains(s, t)
  {
    Text.ContainsIffOffset(s, t);
    assert s[0..|t|][k] != t[k];
    assert s[1..1 + |t|][0] != t[0];
  }

  /** After a run that edited the unit, a second run sees the same switch,
      uplinks and policy, and decides on the extended config alone. */
  lemma OrphanAgain(guard: string, details: map<string, SwitchRec>, uplinks: Uplinks,
                    key: Key, u: Unit)
    requires OrphanChange(guard, details, uplinks, key, u).Ok? && OrphanChange(guard, details, uplinks, key, u).value.0
    ensures Units.NvGet(u, "CONF").Ok?
    ensures var u' := OrphanChange(guard, details, uplinks, key, u).value.1;
      var r := OrphanChange(guard, details, uplinks, key, u');
      r.Ok? && (r.value.0 <==> !Text.Contains(AppendLine(Units.NvGet(u, "CONF").value, OrphanSuspend), guard))
  {
    var u' := OrphanChange(guard, details, uplinks, key, u).value.1;
    var ups := FirstUplinks(uplinks, details[key.1].model);
    assert ups.Ok? && ups.value != [] && OrphanCandidate(ups.value, key, u);
    assert u'.policy == u.policy;
    assert OrphanCandidate(ups.value, key, u');
  }

  /** The flat closure is idempotent: a second run over its output
      reports no change. */
  lemma OrphanFlatIdempotent(details: map<string, SwitchRec>, uplinks: Uplinks, key: Key, u: Unit)
    requires OrphanFlat(details, uplinks, key, u).Ok?
    ensures var u' := OrphanFlat(details, uplinks, key, u).value.1;
      OrphanFlat(details, uplinks, key, u') == Ok((false, u'))
  {
    if OrphanFlat(details, uplinks, key, u).value.0 {
      OrphanAgain(OrphanSuspend, details, uplinks, key, u);
      AppendLineContains(Units.NvGet(u, "CONF").value, OrphanSuspend);
    }
  }

  /** The hierarchy plugin is not idempotent: once it has added the suspend
      line to a config without the enable line, every further run over the
      result adds it again and reports a change. */
  lemma OrphanHierRepeats(details: map<string, SwitchRec>, uplinks: Uplinks, key: Key, u: Unit)
    requires OrphanHier(details, uplinks, key, u).Ok? && OrphanHier(details, uplinks, key, u).value.0
    ensures var u' := OrphanHier(details, uplinks, key, u).value.1;
      OrphanHier(details, uplinks, key, u').Ok? && OrphanHier(details, uplinks, key, u').value.0
  {
    OrphanAgain(OrphanEnable, details, uplinks, key, u);
    var conf := Units.NvGet(u, "CONF").value;
    SuspendAfter(conf);
  }

  /** Appending the suspend line to a config without the enable line does
      not create one. */
  lemma SuspendAfter(conf: string)
    requires !Text.Contains(conf, OrphanEnable)
    ensures !Text.Contains(AppendLine(conf, OrphanSuspend), OrphanEnable)
  {
    AppendOneLonger(conf, OrphanSuspend, OrphanEnable, 16);
  }

  /** `AppendLineKeepsOut` for a line that `OneLonger` rules out. */
  lemma AppendOneLonger(conf: string, line: string, t: string, k: nat)
    requires |line| == |t| + 1 && k < |t| && line[k] != t[k] && line[1] != t[0] && '\n' !in t
    requires !Text.Contains(conf, t)
    ensures !Text.Contains(AppendLine(conf, line), t)
  {
    OneLonger(line, t, k);
    AppendLineKeepsOut(conf, line, t);
  }
}
