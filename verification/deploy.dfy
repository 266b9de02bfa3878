/** Push, deploy and verify, as both generations' interface utilities do
    them: `verify_interface_change`, `push_to_dcnm`,
    `deploy_to_fabric_using_interface_deploy` (with the hierarchy's
    `fallback_policy_deploy`) and `deploy_to_fabric_using_switch_deploy`.
    The two copies differ only in where a switch's vPC peer is looked up,
    which comes in here as a peer map. */
module Deploy {
  import opened Wrappers
  import opened Json
  import opened Errors
  import HierUtils
  import opened Records
  import Actions
  import Units

  // ---------------------------------------------------------------------
  // partitions

  function SetOf<T>(s: seq<T>): set<T> {
    set k | 0 <= k < |s| :: s[k]
  }

  /** Each key in order gets a verdict: true puts it in the first set, false
      in the second; the first exception ends the loop. */
  function Partition(keys: seq<Key>, verdict: Key -> Result<bool, Error>): (r: Result<(set<Key>, set<Key>), Error>)
    ensures r.Ok? <==> forall k :: 0 <= k < |keys| ==> verdict(keys[k]).Ok?
    ensures r.Ok? ==> r.value.0 + r.value.1 == SetOf(keys)
    ensures r.Ok? ==> r.value.0 * r.value.1 == {}
    ensures r.Ok? ==> forall k :: 0 <= k < |keys| ==> (keys[k] in r.value.0 <==> verdict(keys[k]) == Ok(true))
    decreases |keys|
  {
    if |keys| == 0 then Ok(({}, {}))
    else
      var ok :- verdict(keys[0]);
      var rest :- Partition(keys[1..], verdict);
      assert forall k :: 1 <= k < |keys| ==> keys[k] == keys[1..][k - 1];
      assert SetOf(keys) == {keys[0]} + SetOf(keys[1..]);
      if ok then Ok((rest.0 + {keys[0]}, rest.1 - {keys[0]}))
      else Ok((rest.0 - {keys[0]}, rest.1 + {keys[0]}))
  }

  // ---------------------------------------------------------------------
  // verify_interface_change

  /** The template variables the controller rewrites on its own. */
  const Volatile: set<string> := {"PRIORITY", "FABRIC_NAME"}

  /** A unit with `PRIORITY` and `FABRIC_NAME` popped from its first
      interface's variables; a unit without interfaces is an IndexError. */
  function Strip(u: Unit): (r: Result<Unit, Error>)
    ensures r.Ok? <==> |u.interfaces| > 0
    ensures r.Err? ==> r.error == IndexError(ListIndexMsg)
    ensures r.Ok? ==> r.value.policy == u.policy && r.value.attrs == u.attrs
    ensures r.Ok? ==> |r.value.interfaces| == |u.interfaces| && r.value.interfaces[1..] == u.interfaces[1..]
    ensures r.Ok? ==> r.value.interfaces[0].nvPairs.Keys == u.interfaces[0].nvPairs.Keys - Volatile
    ensures r.Ok? ==> forall n :: n in r.value.interfaces[0].nvPairs ==> r.value.interfaces[0].nvPairs[n] == u.interfaces[0].nvPairs[n]
  {
    if |u.interfaces| == 0 then Err(IndexError(ListIndexMsg))
    else
      var i := u.interfaces[0];
      Ok(u.(interfaces := [i.(nvPairs := i.nvPairs - Volatile)] + u.interfaces[1..]))
  }

  /** A new priority or fabric name does not count as a difference. */
  lemma StripIgnoresVolatile(u: Unit, name: string, v: string)
    requires |u.interfaces| > 0 && name in Volatile
    ensures Strip(Units.SetNv(u, name, v)) == Strip(u)
  {
    var a := Strip(Units.SetNv(u, name, v)).value;
    var b := Strip(u).value;
    assert a.interfaces[0].nvPairs == b.interfaces[0].nvPairs;
    assert a.interfaces[0] == b.interfaces[0];
    assert a.interfaces == [a.interfaces[0]] + a.interfaces[1..];
    assert b.interfaces == [b.interfaces[0]] + b.interfaces[1..];
  }

  /** Any other variable that differs is a difference. */
  lemma StripSeesOthers(u: Unit, name: string, v: string)
    requires |u.interfaces| > 0 && name !in Volatile
    requires name !in u.interfaces[0].nvPairs || u.interfaces[0].nvPairs[name] != v
    ensures Strip(Units.SetNv(u, name, v)) != Strip(u)
  {
    var a := Strip(Units.SetNv(u, name, v)).value;
    assert name in a.interfaces[0].nvPairs && a.interfaces[0].nvPairs[name] == v;
  }

  /** Whether the key's unit as pulled again from the controller matches
      the desired unit once the volatile variables are dropped. The desired
      side is stripped first; a key the controller no longer lists is a
      KeyError. */
  function VerifyKey(will: map<Key, Unit>, pulled: map<Key, Unit>, k: Key): (r: Result<bool, Error>)
    ensures k in will && k in pulled && Strip(will[k]).Ok? && Strip(pulled[k]).Ok? ==>
      r == Ok(Strip(will[k]) == Strip(pulled[k]))
    ensures k in will && Strip(will[k]).Ok? && k !in pulled ==> r == Err(InterfaceKeyError(k.0, k.1))
    ensures r.Ok? ==> k in will && k in pulled
  {
    if k !in will then Err(InterfaceKeyError(k.0, k.1))
    else
      var a :- Strip(will[k]);
      if k !in pulled then Err(InterfaceKeyError(k.0, k.1))
      else
        var b :- Strip(pulled[k]);
        Ok(a == b)
  }

  /** `verify_interface_change`: every desired key lands in exactly one of
      the verified and the failed set. `pulled` is the controller's
      interfaces as pulled again after the deploy. */
  function Verify(will: ODict<Key, Unit>, pulled: map<Key, Unit>): (r: Result<(set<Key>, set<Key>), Error>)
    requires WellFormed(will)
    ensures r.Ok? <==> forall k :: k in will.m ==> VerifyKey(will.m, pulled, k).Ok?
    ensures r.Ok? ==> r.value.0 + r.value.1 == will.m.Keys && r.value.0 * r.value.1 == {}
    ensures r.Ok? ==> forall k :: k in will.m ==> (k in r.value.0 <==> Strip(will.m[k]) == Strip(pulled[k]))
  {
    assert forall k :: k in will.m ==> exists i :: 0 <= i < |will.keys| && will.keys[i] == k;
    assert SetOf(will.keys) == will.m.Keys;
    Partition(will.keys, k => VerifyKey(will.m, pulled, k))
  }

  /** Pulling back exactly what was pushed verifies every key. */
  lemma VerifySelf(will: ODict<Key, Unit>)
    requires WellFormed(will)
    requires forall k :: k in will.m ==> |will.m[k].interfaces| > 0
    ensures Verify(will, will.m) == Ok((will.m.Keys, {}))
  {
    forall k | k in will.m ensures VerifyKey(will.m, will.m, k) == Ok(true) { }
    var r := Verify(will, will.m);
    assert r.Ok?;
    assert r.value.0 == will.m.Keys;
    assert r.value.1 == {};
  }

  // ---------------------------------------------------------------------
  // interface deploy

  /** The policies argument: none, one id, or a list or tuple of ids. */
  datatype Policies = PolNone | PolStr(id: string) | PolList(ids: seq<string>) | PolTuple(items: seq<string>)

  /** Python truthiness of the policies argument. */
  predicate PoliciesGiven(p: Policies) {
    match p
    case PolNone => false
    case PolStr(s) => s != ""
    case PolList(ids) => ids != []
    case PolTuple(items) => items != []
  }

  /** The argument `deploy_policies` receives: a single id is wrapped into
      a list. */
  function PolicyArg(p: Policies): (r: Actions.PolicyList)
    requires !p.PolNone?
    ensures p.PolStr? ==> r == Actions.PolList([p.id])
    ensures p.PolList? ==> r == Actions.PolList(p.ids)
    ensures p.PolTuple? ==> r == Actions.PolTuple(p.items)
  {
    match p
    case PolStr(s) => Actions.PolList([s])
    case PolList(ids) => Actions.PolList(ids)
    case PolTuple(items) => Actions.PolTuple(items)
  }

  /** What an interface deploy sent: the deploy list, the policy ids
      deployed (when any were), and the session timeout afterwards. */
  datatype IfDeployed = IfDeployed(list: seq<Actions.Iface>, policies: Option<seq<string>>, timeout: int)

  /** `deploy_to_fabric_using_interface_deploy`: deploys the keys (a set,
      enumerated in `order`) as one interface deploy, then, only when there
      are policies and this is a fallback run, deploys the policies. A
      failed deploy is only logged; an exception ends the run. */
  function InterfaceDeploy(order: seq<Key>, policies: Policies, fallback: bool, timeout: int, deployTimeout: int,
                           ifReply: seq<Actions.Iface> -> Result<Dict, Error>,
                           polReply: seq<string> -> Result<Dict, Error>): (r: Result<IfDeployed, Error>)
    ensures r.Ok? ==> r.value.list == Actions.CreateDeployList(order)
    ensures r.Ok? ==> (r.value.policies.Some? <==> PoliciesGiven(policies) && fallback)
    ensures r.Ok? && r.value.policies.Some? ==>
      r.value.policies.value == match policies
        case PolStr(s) => [s]
        case PolList(ids) => ids
        case PolTuple(items) => items
        case PolNone => []
    ensures r.Ok? ==> r.value.timeout == timeout
    ensures Actions.DeployInterfaces(Actions.PayMany(Actions.CreateDeployList(order)), timeout, deployTimeout, ifReply).r.Err? ==>
      r.Err?
  {
    var list := Actions.CreateDeployList(order);
    var d := Actions.DeployInterfaces(Actions.PayMany(list), timeout, deployTimeout, ifReply);
    var _ :- d.r;
    if PoliciesGiven(policies) && fallback then
      var arg := PolicyArg(policies);
      var p := Actions.DeployPolicies(arg, d.timeout, deployTimeout, polReply);
      var _ :- p.r;
      Ok(IfDeployed(list, Some(if arg.PolList? then arg.ids else arg.items), p.timeout))
    else
      Ok(IfDeployed(list, None, d.timeout))
  }

  // ---------------------------------------------------------------------
  // switch deploy

  /** The serial-numbers argument: none, one serial, a list, or a tuple
      (which has no `copy` method). */
  datatype Serials = SnNone | SnStr(s: string) | SnList(items: seq<string>) | SnTuple(items: seq<string>)

  const NoSwitchesMsg := "serial numbers must be either a string or a list\nalternatively, the get_all_switches or get_switches_by_serial_number\nmust be called before using this function"

  /** The serials to deploy: a single serial is wrapped into a list, no
      serials means every known leaf then every other switch, and with no
      switches known at all the call fails. */
  function DeploySerials(a: Serials, leaf: seq<string>, notleaf: seq<string>): (r: Result<seq<string>, Error>)
    ensures a.SnStr? ==> r == Ok([a.s])
    ensures a.SnList? ==> r == Ok(a.items)
    ensures a.SnTuple? ==> r == Err(AttributeError("copy"))
    ensures a.SnNone? ==> r == if leaf == [] && notleaf == [] then Err(PolicyDeploy(NoSwitchesMsg)) else Ok(leaf + notleaf)
  {
    match a
    case SnStr(s) => Ok([s])
    case SnList(items) => Ok(items)
    case SnTuple(_) => Err(AttributeError("copy"))
    case SnNone => if leaf == [] && notleaf == [] then Err(PolicyDeploy(NoSwitchesMsg)) else Ok(leaf + notleaf)
  }

  /** A switch's known vPC peer, if it has one. */
  function PeerOf(peers: map<string, Option<string>>, sn: string): Option<string> {
    if sn in peers then peers[sn] else None
  }

  /** The serials a deploy of `calls` accounts for: each deployed serial,
      and with more than one serial to deploy, its known peer. */
  function Covered(calls: seq<string>, multi: bool, peers: map<string, Option<string>>): (c: set<string>)
    ensures SetOf(calls) <= c
    decreases |calls|
  {
    if |calls| == 0 then {}
    else
      var p := PeerOf(peers, calls[0]);
      assert SetOf(calls) == {calls[0]} + SetOf(calls[1..]);
      {calls[0]} + (if multi && p.Some? then {p.value} else {}) + Covered(calls[1..], multi, peers)
  }

  /** The deploy loop: each serial not yet accounted for is deployed (the
      deploy's verdict is only logged), then it and, with more than one
      serial, its peer are accounted for. Returns the serials deployed, in
      order. */
  function DeployLoop(rest: seq<string>, done: set<string>, multi: bool, peers: map<string, Option<string>>,
                      deployOne: string -> Result<bool, Error>): (r: Result<seq<string>, Error>)
    ensures r.Ok? ==> Distinct(r.value)
    ensures r.Ok? ==> forall i :: 0 <= i < |r.value| ==> r.value[i] in rest && r.value[i] !in done
    ensures r.Ok? ==> forall i :: 0 <= i < |rest| ==> rest[i] in done || rest[i] in Covered(r.value, multi, peers)
    ensures r.Ok? ==> forall i, j :: 0 <= i < j < |r.value| ==> !(multi && PeerOf(peers, r.value[i]) == Some(r.value[j]))
    decreases |rest|
  {
    if |rest| == 0 then Ok([])
    else if rest[0] in done then
      var tail :- DeployLoop(rest[1..], done, multi, peers, deployOne);
      assert forall i :: 0 <= i < |tail| ==> tail[i] in rest;
      Ok(tail)
    else
      var _ :- deployOne(rest[0]);
      var p := PeerOf(peers, rest[0]);
      var done' := done + {rest[0]} + (if multi && p.Some? then {p.value} else {});
      var tail :- DeployLoop(rest[1..], done', multi, peers, deployOne);
      var calls := [rest[0]] + tail;
      assert calls[1..] == tail;
      assert forall i :: 0 <= i < |tail| ==> tail[i] in rest;
      Ok(calls)
  }

  /** With only one serial to deploy, or none, nothing is skipped. */
  lemma DeployLoopSingle(rest: seq<string>, peers: map<string, Option<string>>, deployOne: string -> Result<bool, Error>)
    requires |rest| <= 1
    requires DeployLoop(rest, {}, |rest| > 1, peers, deployOne).Ok?
    ensures DeployLoop(rest, {}, |rest| > 1, peers, deployOne).value == rest
  {
    if |rest| == 1 {
      assert rest[1..] == [];
    }
  }

  /** Without peer skipping every distinct serial is deployed exactly
      once, in order. */
  lemma {:induction false} DeployLoopNoPeers(rest: seq<string>, done: set<string>, peers: map<string, Option<string>>,
                                             deployOne: string -> Result<bool, Error>)
    requires Distinct(rest) && forall i :: 0 <= i < |rest| ==> rest[i] !in done
    requires DeployLoop(rest, done, false, peers, deployOne).Ok?
    ensures DeployLoop(rest, done, false, peers, deployOne).value == rest
    decreases |rest|
  {
    if |rest| > 0 {
      assert rest[0] !in done;
      assert deployOne(rest[0]).Ok?;
      var done' := done + {rest[0]};
      assert done + {rest[0]} + {} == done';
      assert forall i :: 1 <= i < |rest| ==> rest[i] != rest[0];
      assert forall i :: 0 <= i < |rest[1..]| ==> rest[1..][i] == rest[i + 1];
      assert DeployLoop(rest[1..], done', false, peers, deployOne).Ok?;
      assert DeployLoop(rest, done, false, peers, deployOne).value ==
        [rest[0]] + DeployLoop(rest[1..], done', false, peers, deployOne).value;
      DeployLoopNoPeers(rest[1..], done', peers, deployOne);
      assert rest == [rest[0]] + rest[1..];
    }
  }

  /** What a switch deploy did: the serials deployed in order, and the
      serials it then waited on. */
  datatype SwDeployed = SwDeployed(calls: seq<string>, waited: seq<string>)

  /** `deploy_to_fabric_using_switch_deploy`. With more than one serial
      the vPC pairs are fetched first unless already known (`fetchPairs`
      gives the peer map after fetching); then the deploy loop, then the
      status wait over the whole list (`wait` gives the exception it
      raises, if any). */
  function SwitchDeploy(a: Serials, leaf: seq<string>, notleaf: seq<string>,
                        peers: map<string, Option<string>>, pairsKnown: bool,
                        fetchPairs: Result<map<string, Option<string>>, Error>,
                        deployOne: string -> Result<bool, Error>,
                        wait: seq<string> -> Option<Error>): (r: Result<SwDeployed, Error>)
    ensures DeploySerials(a, leaf, notleaf).Err? ==> r == Err(DeploySerials(a, leaf, notleaf).error)
    ensures r.Ok? ==> DeploySerials(a, leaf, notleaf).Ok? && r.value.waited == DeploySerials(a, leaf, notleaf).value
    ensures r.Ok? ==> Distinct(r.value.calls) && SetOf(r.value.calls) <= SetOf(r.value.waited)
    ensures r.Ok? ==> |r.value.waited| <= 1 ==> r.value.calls == r.value.waited
    ensures r.Ok? && |r.value.waited| > 1 ==>
      var pm := if pairsKnown || fetchPairs.Err? then peers else fetchPairs.value;
      (forall i :: 0 <= i < |r.value.waited| ==> r.value.waited[i] in Covered(r.value.calls, true, pm)) &&
      (forall i, j :: 0 <= i < j < |r.value.calls| ==> PeerOf(pm, r.value.calls[i]) != Some(r.value.calls[j]))
  {
    var serials :- DeploySerials(a, leaf, notleaf);
    var multi := |serials| > 1;
    var pm :- if multi && !pairsKnown then fetchPairs else Ok(peers);
    var calls :- DeployLoop(serials, {}, multi, pm, deployOne);
    if !multi then DeployLoopSingle(serials, pm, deployOne); Finish(calls, serials, wait)
    else Finish(calls, serials, wait)
  }

  function Finish(calls: seq<string>, serials: seq<string>, wait: seq<string> -> Option<Error>): (r: Result<SwDeployed, Error>)
    ensures r.Ok? <==> wait(serials).None?
    ensures r.Ok? ==> r.value == SwDeployed(calls, serials)
    ensures r.Err? ==> r.error == wait(serials).value
  {
    if wait(serials).Some? then Err(wait(serials).value) else Ok(SwDeployed(calls, serials))
  }

  // ---------------------------------------------------------------------
  // _deploy_stub

  /** An iteration order of a Python set: every element exactly once. */
  ghost predicate Enumerates(l: set<Key> -> seq<Key>) {
    forall s :: Distinct(l(s)) && SetOf(l(s)) == s
  }

  /** What a push-deploy-verify run consults: the controller's replies,
      the switch inventory, the iteration order of the pushed set, and the
      interfaces pulled again for the verification. */
  datatype Env = Env(
    putReply: (Key, Unit) -> Result<Dict, Error>,
    listKeys: set<Key> -> seq<Key>,
    ifReply: seq<Actions.Iface> -> Result<Dict, Error>,
    polReply: seq<string> -> Result<Dict, Error>,
    leaf: seq<string>,
    notleaf: seq<string>,
    peers: map<string, Option<string>>,
    pairsKnown: bool,
    fetchPairs: Result<map<string, Option<string>>, Error>,
    deployOne: string -> Result<bool, Error>,
    wait: seq<string> -> Option<Error>,
    pulled: Result<map<Key, Unit>, Error>,
    sessionTimeout: int)

  datatype Deployment = ByInterface(run: IfDeployed) | BySwitch(sw: SwDeployed)

  /** The pushed and failed keys, how the fabric was deployed, and the
      verified and unverified keys. */
  datatype Stub = Stub(pushed: set<Key>, failed: set<Key>, deployment: Deployment, verified: set<Key>, unverified: set<Key>)

  /** The serials argument a switch deploy gets: the run's serials, or
      `None` under `--all`. */
  function SerialsArg(serials: Option<seq<string>>): (a: Serials)
    ensures serials.None? <==> a.SnNone?
    ensures serials.Some? ==> a == SnList(serials.value)
  {
    if serials.None? then SnNone else SnList(serials.value)
  }

  /** `_deploy_stub`: push every interface to change, deploy either the
      switches or the pushed interfaces (with the policies on a backout
      run), then verify every interface to change. `spunPut` says whether
      `put_interface_changes` carries the `spinner` decorator, as the
      hierarchy's copy does and the flat one does not. */
  function DeployStub(d: ODict<Key, Unit>, policies: Policies, serials: Option<seq<string>>,
                      switchDeploy: bool, backout: bool, timeout: int, env: Env, spunPut: bool): (r: Result<Stub, Error>)
    requires WellFormed(d)
    ensures Actions.PutInterfaceChanges(d, env.putReply).Err? ==>
      r == Err(if spunPut then UnboundLocal("value") else Actions.PutInterfaceChanges(d, env.putReply).error)
    ensures r.Ok? ==> r.value.pushed + r.value.failed == d.m.Keys && r.value.pushed * r.value.failed == {}
    ensures r.Ok? ==> forall k :: k in d.m ==> (k in r.value.pushed <==> Actions.PutOf(d.m, env.putReply, k) == Ok(true))
    ensures r.Ok? ==> (r.value.deployment.BySwitch? <==> switchDeploy)
    ensures r.Ok? && r.value.deployment.ByInterface? ==>
      r.value.deployment.run.list == Actions.CreateDeployList(env.listKeys(r.value.pushed)) &&
      (r.value.deployment.run.policies.Some? <==> PoliciesGiven(policies) && backout)
    ensures r.Ok? && r.value.deployment.BySwitch? ==>
      DeploySerials(SerialsArg(serials), env.leaf, env.notleaf) == Ok(r.value.deployment.sw.waited)
    ensures r.Ok? ==> r.value.verified + r.value.unverified == d.m.Keys && r.value.verified * r.value.unverified == {}
    ensures r.Ok? ==> env.pulled.Ok? && forall k :: k in d.m ==>
      k in env.pulled.value && (k in r.value.verified <==> Strip(d.m[k]) == Strip(env.pulled.value[k]))
  {
    var put :- (if spunPut then HierUtils.Spinner(Actions.PutInterfaceChanges(d, env.putReply))
                else Actions.PutInterfaceChanges(d, env.putReply));
    var deployment :- if switchDeploy then
        var sw :- SwitchDeploy(SerialsArg(serials), env.leaf, env.notleaf, env.peers, env.pairsKnown, env.fetchPairs, env.deployOne, env.wait);
        Ok(BySwitch(sw))
      else
        var run :- InterfaceDeploy(env.listKeys(put.0), policies, backout, env.sessionTimeout, timeout, env.ifReply, env.polReply);
        Ok(ByInterface(run));
    var pulled :- env.pulled;
    var checked :- Verify(d, pulled);
    Ok(Stub(put.0, put.1, deployment, checked.0, checked.1))
  }

  /** With a faithful set order, an interface deploy covers exactly the
      pushed interfaces, each once. */
  lemma DeployListIsPushed(d: ODict<Key, Unit>, policies: Policies, serials: Option<seq<string>>,
                           backout: bool, timeout: int, env: Env, spunPut: bool)
    requires WellFormed(d) && Enumerates(env.listKeys)
    requires DeployStub(d, policies, serials, false, backout, timeout, env, spunPut).Ok?
    ensures var s := DeployStub(d, policies, serials, false, backout, timeout, env, spunPut).value;
      |s.deployment.run.list| == |s.pushed| &&
      (forall k :: k in s.pushed <==> exists i :: 0 <= i < |s.deployment.run.list| && Actions.KeyOf(s.deployment.run.list[i]) == k)
  {
    var s := DeployStub(d, policies, serials, false, backout, timeout, env, spunPut).value;
    var order := env.listKeys(s.pushed);
    assert Distinct(order) && SetOf(order) == s.pushed;
    DistinctLength(order);
    Actions.CreateDeployListInverse(order);
    forall k | k in s.pushed
      ensures exists i :: 0 <= i < |s.deployment.run.list| && Actions.KeyOf(s.deployment.run.list[i]) == k
    {
      var i :| 0 <= i < |order| && order[i] == k;
      assert Actions.KeyOf(s.deployment.run.list[i]) == k;
    }
  }

  /** A duplicate-free sequence is as long as its set of elements. */
  lemma {:induction false} DistinctLength<T>(s: seq<T>)
    requires Distinct(s)
    ensures |SetOf(s)| == |s|
    decreases |s|
  {
    if |s| > 0 {
      assert forall k :: 1 <= k < |s| ==> s[k] == s[1..][k - 1] && s[k] != s[0];
      assert SetOf(s) == {s[0]} + SetOf(s[1..]);
      assert s[0] !in SetOf(s[1..]);
      DistinctLength(s[1..]);
    }
  }
}
