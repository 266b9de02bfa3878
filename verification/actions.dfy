/** The controller actions both generations perform the same way: putting
    changed interfaces, posting and deleting policies, and the deploy calls
    that override the session timeout for their one request. The reply to
    each request comes in as a parameter: `Ok(info)` is the info dictionary
    the connection layer returned, `Err(e)` the exception it raised. */
module Actions {
  import opened Wrappers
  import opened Json
  import opened Errors
  import opened Records
  import Http
  import Text
  import HierUtils

  /** `put_interface`: a reply succeeds only with code 200. */
  function PutInterface(reply: Result<Dict, Error>): (r: Result<bool, Error>)
    ensures r == Ok(true) <==> reply.Ok? && Http.ReturnCode(reply.value) == Some(200)
    ensures reply.Err? ==> r == Err(reply.error)
    ensures reply.Ok? ==> (r.Err? <==> "RETURN_CODE" !in reply.value)
  {
    var resp :- reply;
    HierUtils.CheckActionResponse(resp)
  }

  /** The verdict of putting the entry under `key`. */
  function PutOf(d: map<Key, Unit>, reply: (Key, Unit) -> Result<Dict, Error>, key: Key): Result<bool, Error>
    requires key in d
  {
    PutInterface(reply(key, d[key]))
  }

  /** `put_interface_changes`: puts every entry in dictionary order and
      sorts its key into the success or the failed set. The first exception
      aborts the loop. */
  function PutAll(keys: seq<Key>, d: map<Key, Unit>, reply: (Key, Unit) -> Result<Dict, Error>)
    : (r: Result<(set<Key>, set<Key>), Error>)
    requires forall k :: 0 <= k < |keys| ==> keys[k] in d
    ensures r.Ok? <==> forall k :: 0 <= k < |keys| ==> PutOf(d, reply, keys[k]).Ok?
    ensures r.Ok? ==> r.value.0 + r.value.1 == set k | 0 <= k < |keys| :: keys[k]
    ensures r.Ok? ==> r.value.0 * r.value.1 == {}
    ensures r.Ok? ==> forall k :: 0 <= k < |keys| ==> (keys[k] in r.value.0 <==> PutOf(d, reply, keys[k]) == Ok(true))
    decreases |keys|
  {
    if |keys| == 0 then Ok(({}, {}))
    else
      var ok :- PutOf(d, reply, keys[0]);
      var rest :- PutAll(keys[1..], d, reply);
      assert forall k :: 1 <= k < |keys| ==> keys[k] == keys[1..][k - 1];
      assert (set k | 0 <= k < |keys| :: keys[k]) == {keys[0]} + (set k | 0 <= k < |keys[1..]| :: keys[1..][k]);
      if ok then
        Ok((rest.0 + {keys[0]}, rest.1 - {keys[0]}))
      else
        Ok((rest.0 - {keys[0]}, rest.1 + {keys[0]}))
  }

  /** `put_interface_changes` over the whole dictionary: every key lands in
      exactly one of the two sets, and in the success set exactly when its
      put was answered with code 200. */
  function PutInterfaceChanges(d: ODict<Key, Unit>, reply: (Key, Unit) -> Result<Dict, Error>)
    : (r: Result<(set<Key>, set<Key>), Error>)
    requires WellFormed(d)
    ensures r.Ok? <==> forall key :: key in d.m ==> PutOf(d.m, reply, key).Ok?
    ensures r.Ok? ==> r.value.0 + r.value.1 == d.m.Keys
    ensures r.Ok? ==> r.value.0 * r.value.1 == {}
    ensures r.Ok? ==> forall key :: key in d.m ==> (key in r.value.0 <==> PutOf(d.m, reply, key) == Ok(true))
  {
    assert forall key :: key in d.m ==> exists k :: 0 <= k < |d.keys| && d.keys[k] == key;
    PutAll(d.keys, d.m, reply)
  }

  /** A put answered with 201 lands in the failed set. */
  lemma CreatedPutFails(d: ODict<Key, Unit>, reply: (Key, Unit) -> Result<Dict, Error>, key: Key)
    requires WellFormed(d) && key in d.m
    requires PutInterfaceChanges(d, reply).Ok?
    requires reply(key, d.m[key]).Ok? && Http.ReturnCode(reply(key, d.m[key]).value) == Some(201)
    ensures key in PutInterfaceChanges(d, reply).value.1
  {
  }

  /** `post_new_policy`. */
  function PostNewPolicy(reply: Result<Dict, Error>): (r: Result<bool, Error>)
    ensures r == Ok(true) <==> reply.Ok? && Http.ReturnCode(reply.value) == Some(200)
    ensures reply.Err? ==> r == Err(reply.error)
  {
    PutInterface(reply)
  }

  /** The backout loop of both tools' `_fallback`: `post_new_policy` for every
      pickled policy in order, collecting the
      ids; the first exception ends the loop. */
  function PostAll(flat: seq<(string, Policy)>, reply: Policy -> Result<Dict, Error>): (r: Result<set<string>, Error>)
    ensures r.Ok? <==> forall k :: 0 <= k < |flat| ==> PostNewPolicy(reply(flat[k].1)).Ok?
    ensures r.Ok? ==> r.value == set k | 0 <= k < |flat| :: flat[k].1.policyId
    decreases |flat|
  {
    if |flat| == 0 then Ok({})
    else
      var _ :- PostNewPolicy(reply(flat[0].1));
      var rest :- PostAll(flat[1..], reply);
      assert forall k :: 1 <= k < |flat| ==> flat[k] == flat[1..][k - 1];
      assert (set k | 0 <= k < |flat| :: flat[k].1.policyId) == {flat[0].1.policyId} + (set k | 0 <= k < |flat[1..]| :: flat[1..][k].1.policyId);
      Ok({flat[0].1.policyId} + rest)
  }

  // ---------------------------------------------------------------------
  // delete_switch_policies

  /** The policy-id argument: a string, a list or tuple of strings, or
      anything else. */
  datatype PolicyIds = IdOne(id: string) | IdMany(ids: seq<string>) | IdOther

  const PoliciesPath := "/control/policies/"
  const BatchPath := "/control/policies/policyIds?policyIds="

  /** The DELETE path; another type leaves `path` unbound. */
  function DeletePath(a: PolicyIds): (r: Result<string, Error>)
    ensures a.IdOther? <==> r.Err?
    ensures r.Err? ==> r.error == UnboundLocal("path")
    ensures a.IdOne? ==> r == Ok(PoliciesPath + a.id)
    ensures a.IdMany? ==> r.Ok? && |r.value| >= |BatchPath| && r.value[..|BatchPath|] == BatchPath
  {
    match a
    case IdOne(id) => Ok(PoliciesPath + id)
    case IdMany(ids) => Ok(BatchPath + Text.Join(ids, ","))
    case IdOther => Err(UnboundLocal("path"))
  }

  /** A batched delete names exactly the ids it was given: splitting the
      query value at the commas recovers them. */
  lemma DeletePathIds(ids: seq<string>)
    requires |ids| >= 1
    requires forall k :: 0 <= k < |ids| ==> Text.NoChar(ids[k], ',')
    ensures DeletePath(IdMany(ids)).Ok?
    ensures Text.Split(DeletePath(IdMany(ids)).value[|BatchPath|..], ',') == ids
  {
    var path := DeletePath(IdMany(ids)).value;
    assert path[|BatchPath|..] == Text.Join(ids, ",");
    Text.JoinSplit(ids, ',');
  }

  /** `delete_switch_policies`: one DELETE request whose reply decides
      the outcome; `reply` is consulted only when a path was built. */
  function DeleteSwitchPolicies(a: PolicyIds, reply: string -> Result<Dict, Error>): (r: Result<bool, Error>)
    ensures a.IdOther? ==> r == Err(UnboundLocal("path"))
    ensures a.IdOne? ==> r == PutInterface(reply(PoliciesPath + a.id))
    ensures !a.IdOther? ==> (r == Ok(true) <==>
      reply(DeletePath(a).value).Ok? && Http.ReturnCode(reply(DeletePath(a).value).value) == Some(200))
  {
    var path :- DeletePath(a);
    PutInterface(reply(path))
  }

  // ---------------------------------------------------------------------
  // deploys: each overrides the session timeout for its request and
  // restores it only when the action returns normally

  /** One entry of a deploy payload. */
  datatype Iface = Iface(serialNumber: string, ifName: string)

  /** The payload argument of `deploy_interfaces`: one dictionary or a
      list of them. */
  datatype DeployPayload = PayOne(one: Iface) | PayMany(many: seq<Iface>)

  /** The outcome of a deploy and the session timeout afterwards. */
  datatype Deployed = Deployed(r: Result<bool, Error>, timeout: int)

  /** The payload sent: a single dictionary is wrapped into a list. */
  function PayloadList(p: DeployPayload): (l: seq<Iface>)
    ensures p.PayOne? ==> l == [p.one]
    ensures p.PayMany? ==> l == p.many
  {
    match p
    case PayOne(i) => [i]
    case PayMany(items) => items
  }

  /** The common tail of the deploy calls: the request was answered with
      `reply` under `deployTimeout`, and the saved `timeout` is restored only
      when checking the reply did not raise. */
  function Finish(reply: Result<Dict, Error>, timeout: int, deployTimeout: int): (o: Deployed)
    ensures o.r == PutInterface(reply)
    ensures o.timeout == if o.r.Ok? then timeout else deployTimeout
  {
    var r := PutInterface(reply);
    Deployed(r, if r.Ok? then timeout else deployTimeout)
  }

  /** A deploy call seen through its `spinner` decorator. */
  function Spun(d: Deployed): (o: Deployed)
    ensures o.timeout == d.timeout
    ensures o.r == HierUtils.Spinner(d.r)
  {
    d.(r := HierUtils.Spinner(d.r))
  }

  /** `deploy_interfaces`: `reply` answers the POST of the payload list. */
  function DeployInterfaces(p: DeployPayload, timeout: int, deployTimeout: int, reply: seq<Iface> -> Result<Dict, Error>)
    : (o: Deployed)
    ensures o.r == Ok(true) <==> reply(PayloadList(p)).Ok? && Http.ReturnCode(reply(PayloadList(p)).value) == Some(200)
    ensures o.r.Ok? ==> o.timeout == timeout
    ensures o.r.Err? ==> o.timeout == deployTimeout && o.r.error == UnboundLocal("value")
  {
    Spun(Finish(reply(PayloadList(p)), timeout, deployTimeout))
  }

  /** A single dictionary deploys exactly like the one-element list. */
  lemma DeployOneIsList(i: Iface, timeout: int, deployTimeout: int, reply: seq<Iface> -> Result<Dict, Error>)
    ensures DeployInterfaces(PayOne(i), timeout, deployTimeout, reply) == DeployInterfaces(PayMany([i]), timeout, deployTimeout, reply)
  {
  }

  /** The path `deploy_fabric_config` posts to. */
  function FabricDeployPath(fabric: string): (p: string)
    ensures |p| == |fabric| + 31
    ensures p[..17] == "/control/fabrics/" && p[17..17 + |fabric|] == fabric && p[17 + |fabric|..] == "/config-deploy"
  {
    "/control/fabrics/" + fabric + "/config-deploy"
  }

  /** Different fabrics are deployed through different paths. */
  lemma FabricDeployPathInjective(a: string, b: string)
    requires FabricDeployPath(a) == FabricDeployPath(b)
    ensures a == b
  {
    assert a == FabricDeployPath(a)[17..17 + |a|];
  }

  /** `deploy_fabric_config`: `reply` answers the POST to the fabric's
      config-deploy path. */
  function DeployFabricConfig(fabric: string, timeout: int, deployTimeout: int, reply: string -> Result<Dict, Error>)
    : (o: Deployed)
    ensures o.r == Ok(true) <==>
      reply(FabricDeployPath(fabric)).Ok? && Http.ReturnCode(reply(FabricDeployPath(fabric)).value) == Some(200)
    ensures o.timeout == if o.r.Ok? then timeout else deployTimeout
    ensures o.r.Err? ==> o.r.error == UnboundLocal("value")
  {
    Spun(Finish(reply(FabricDeployPath(fabric)), timeout, deployTimeout))
  }

  /** The policies argument of `deploy_policies`. */
  datatype PolicyList = PolList(ids: seq<string>) | PolTuple(items: seq<string>) | PolOther

  const PolicyListMsg := "must provide a list of policy ids"

  /** The body of `deploy_policies`: a tuple is turned into a list;
      anything else raises after the timeout was overridden, so it stays
      overridden. */
  function DeployPoliciesCorrected(p: PolicyList, timeout: int, deployTimeout: int, reply: seq<string> -> Result<Dict, Error>)
    : (o: Deployed)
    ensures p.PolOther? ==> o == Deployed(Err(PolicyDeploy(PolicyListMsg)), deployTimeout)
    ensures p.PolList? ==> (o.r == Ok(true) <==> reply(p.ids).Ok? && Http.ReturnCode(reply(p.ids).value) == Some(200))
    ensures p.PolList? && reply(p.ids).Err? ==> o.r == Err(reply(p.ids).error)
    ensures o.timeout == if o.r.Ok? then timeout else deployTimeout
  {
    match p
    case PolList(ids) => Finish(reply(ids), timeout, deployTimeout)
    case PolTuple(items) => Finish(reply(items), timeout, deployTimeout)
    case PolOther => Deployed(Err(PolicyDeploy(PolicyListMsg)), deployTimeout)
  }

  /** `deploy_policies` as decorated: the same verdicts, but the policy
      deploy error for a bad argument, like every other exception, leaves
      as UnboundLocalError. */
  function DeployPolicies(p: PolicyList, timeout: int, deployTimeout: int, reply: seq<string> -> Result<Dict, Error>)
    : (o: Deployed)
    ensures p.PolOther? ==> o == Deployed(Err(UnboundLocal("value")), deployTimeout)
    ensures p.PolList? ==> (o.r == Ok(true) <==> reply(p.ids).Ok? && Http.ReturnCode(reply(p.ids).value) == Some(200))
    ensures o.timeout == if o.r.Ok? then timeout else deployTimeout
    ensures o.r.Err? ==> o.r.error == UnboundLocal("value")
  {
    Spun(DeployPoliciesCorrected(p, timeout, deployTimeout, reply))
  }

  /** The decorator changes only which exception a failed deploy raises:
      the decorated call succeeds exactly when the body does, with the
      same verdict and the same timeout left behind. */
  lemma DeployPoliciesSpun(p: PolicyList, timeout: int, deployTimeout: int, reply: seq<string> -> Result<Dict, Error>)
    ensures DeployPolicies(p, timeout, deployTimeout, reply).r.Ok? <==>
            DeployPoliciesCorrected(p, timeout, deployTimeout, reply).r.Ok?
    ensures DeployPolicies(p, timeout, deployTimeout, reply).r.Ok? ==>
            DeployPolicies(p, timeout, deployTimeout, reply) == DeployPoliciesCorrected(p, timeout, deployTimeout, reply)
    ensures DeployPolicies(p, timeout, deployTimeout, reply).timeout ==
            DeployPoliciesCorrected(p, timeout, deployTimeout, reply).timeout
  {
  }

  /** A tuple of ids deploys exactly like the list of the same ids. */
  lemma DeployTupleIsList(ids: seq<string>, timeout: int, deployTimeout: int, reply: seq<string> -> Result<Dict, Error>)
    ensures DeployPolicies(PolTuple(ids), timeout, deployTimeout, reply) == DeployPolicies(PolList(ids), timeout, deployTimeout, reply)
  {
  }

  // ---------------------------------------------------------------------
  // create_deploy_list

  /** `create_deploy_list`: each `(ifName, serial)` key becomes a deploy
      entry, in order. */
  function CreateDeployList(keys: seq<Key>): (l: seq<Iface>)
    ensures |l| == |keys|
    ensures forall k :: 0 <= k < |keys| ==> l[k] == Iface(keys[k].1, keys[k].0)
  {
    seq(|keys|, k requires 0 <= k < |keys| => Iface(keys[k].1, keys[k].0))
  }

  /** The key a deploy entry was made from. */
  function KeyOf(i: Iface): Key {
    (i.ifName, i.serialNumber)
  }

  /** The deploy list loses nothing: reading the keys back gives the
      input. */
  lemma CreateDeployListInverse(keys: seq<Key>)
    ensures |CreateDeployList(keys)| == |keys|
    ensures forall k :: 0 <= k < |keys| ==> KeyOf(CreateDeployList(keys)[k]) == keys[k]
  {
  }
}
