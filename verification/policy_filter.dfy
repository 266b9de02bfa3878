/** Grouping switch policies by serial and filtering them, the part of
    `get_switches_policies` both generations share
    (dcnm/interfaces/dcnm_interfaces.py, dcnm/heirarchy/dcnm_switches.py).
    Each generation supplies its own per-policy verdict and its own fabric
    test. */
module PolicyFilter {
  import opened Wrappers
  import opened Errors
  import opened Records

  /** Policies grouped by serial number. */
  type Groups = ODict<string, seq<Policy>>

  /** Every group is non-empty and holds only policies of its serial. */
  predicate Grouped(g: Groups) {
    WellFormed(g) &&
    forall sn :: sn in g.m ==> |g.m[sn]| > 0 && forall k :: 0 <= k < |g.m[sn]| ==> g.m[sn][k].serialNumber == sn
  }

  /** `all_switches_policies[p['serialNumber']].append(p)`. */
  function Append(g: Groups, p: Policy): (r: Groups)
    requires Grouped(g)
    ensures Grouped(r)
    ensures r.m.Keys == g.m.Keys + {p.serialNumber}
    ensures forall sn :: sn in g.m && sn != p.serialNumber ==> r.m[sn] == g.m[sn]
    ensures p.serialNumber in g.m ==> r.m[p.serialNumber] == g.m[p.serialNumber] + [p]
    ensures p.serialNumber !in g.m ==> r.m[p.serialNumber] == [p]
  {
    var group := if p.serialNumber in g.m then g.m[p.serialNumber] + [p] else [p];
    Put(g, p.serialNumber, group)
  }

  /** `all_switches_policies[policy['serialNumber']].append(policy)` for
      each policy of the reply, in order. */
  function Group(items: seq<Policy>): (g: Groups)
    ensures Grouped(g)
    ensures forall sn :: sn in g.m ==> forall p :: p in g.m[sn] ==> p in items
    ensures forall k :: 0 <= k < |items| ==> items[k].serialNumber in g.m && items[k] in g.m[items[k].serialNumber]
    decreases |items|
  {
    if |items| == 0 then EmptyDict()
    else
      var front := items[..|items| - 1];
      var p := items[|items| - 1];
      var prev := Group(front);
      var r := Append(prev, p);
      AppendMembers(prev, p, front, items);
      r
  }

  /** Appending the last policy keeps `Group`'s membership facts. */
  lemma AppendMembers(prev: Groups, p: Policy, front: seq<Policy>, items: seq<Policy>)
    requires Grouped(prev)
    requires items == front + [p]
    requires forall sn :: sn in prev.m ==> forall q :: q in prev.m[sn] ==> q in front
    requires forall k :: 0 <= k < |front| ==> front[k].serialNumber in prev.m && front[k] in prev.m[front[k].serialNumber]
    ensures var r := Append(prev, p);
      (forall sn :: sn in r.m ==> forall q :: q in r.m[sn] ==> q in items) &&
      (forall k :: 0 <= k < |items| ==> items[k].serialNumber in r.m && items[k] in r.m[items[k].serialNumber])
  {
    var r := Append(prev, p);
    forall sn, q | sn in r.m && q in r.m[sn] ensures q in items {
      if sn == p.serialNumber && q == p {
      } else if sn in prev.m {
        assert q in prev.m[sn];
      }
    }
    forall k | 0 <= k < |items| ensures items[k].serialNumber in r.m && items[k] in r.m[items[k].serialNumber] {
      if k < |front| {
        assert items[k] == front[k];
      }
    }
  }

  /** The policies of `ps` whose verdict is True, in order; the first
      failing verdict aborts. */
  function Keep(ps: seq<Policy>, verdict: Policy -> Result<bool, Error>): (r: Result<seq<Policy>, Error>)
    ensures r.Ok? <==> forall k :: 0 <= k < |ps| ==> verdict(ps[k]).Ok?
    ensures r.Ok? ==> forall p :: p in r.value ==> p in ps && verdict(p) == Ok(true)
    ensures r.Ok? ==> forall p :: p in ps && verdict(p) == Ok(true) ==> p in r.value
    ensures r.Err? ==> exists k :: 0 <= k < |ps| && verdict(ps[k]) == Err(r.error)
    decreases |ps|
  {
    if |ps| == 0 then Ok([])
    else
      var keep :- verdict(ps[0]);
      var rest :- Keep(ps[1..], verdict);
      assert forall k :: 1 <= k < |ps| ==> ps[k] == ps[1..][k - 1];
      Ok(if keep then [ps[0]] + rest else rest)
  }

  /** Walks the groups in order: a serial failing the fabric test is
      dropped, the others keep their passing policies, and a group left
      empty is dropped. */
  function FilterGroups(keys: seq<string>, g: Groups, fabricOk: string -> bool,
                        verdict: Policy -> Result<bool, Error>, acc: Groups): (r: Result<Groups, Error>)
    requires Grouped(g) && Grouped(acc)
    requires forall k :: 0 <= k < |keys| ==> keys[k] in g.m && keys[k] !in acc.m
    requires Distinct(keys)
    ensures r.Ok? ==> Grouped(r.value)
    ensures r.Ok? ==> forall sn :: sn in r.value.m ==> sn in acc.m || (sn in keys && fabricOk(sn))
    ensures r.Ok? ==> forall sn :: sn in r.value.m && sn !in acc.m ==>
      forall p :: p in r.value.m[sn] ==> p in g.m[sn] && verdict(p) == Ok(true)
    ensures r.Ok? ==> forall sn :: sn in acc.m ==> sn in r.value.m && r.value.m[sn] == acc.m[sn]
    ensures r.Ok? ==> forall k, p :: 0 <= k < |keys| && fabricOk(keys[k]) && p in g.m[keys[k]] && verdict(p) == Ok(true) ==>
      keys[k] in r.value.m && p in r.value.m[keys[k]]
    decreases |keys|
  {
    if |keys| == 0 then Ok(acc)
    else
      var sn := keys[0];
      assert forall k :: 1 <= k < |keys| ==> keys[k] == keys[1..][k - 1];
      var next :- FilterOne(sn, g, fabricOk, verdict, acc);
      FilterGroups(keys[1..], g, fabricOk, verdict, next)
  }

  /** One serial's turn: dropped when it fails the fabric test, otherwise
      its passing policies are added unless none passes. */
  function FilterOne(sn: string, g: Groups, fabricOk: string -> bool,
                     verdict: Policy -> Result<bool, Error>, acc: Groups): (r: Result<Groups, Error>)
    requires Grouped(g) && Grouped(acc) && sn in g.m && sn !in acc.m
    ensures r.Ok? ==> Grouped(r.value)
    ensures r.Ok? ==> r.value.m.Keys <= acc.m.Keys + {sn}
    ensures r.Ok? ==> forall s :: s in acc.m ==> s in r.value.m && r.value.m[s] == acc.m[s]
    ensures r.Ok? && sn in r.value.m ==> fabricOk(sn) && forall p :: p in r.value.m[sn] ==> p in g.m[sn] && verdict(p) == Ok(true)
    ensures r.Ok? && fabricOk(sn) ==> forall p :: p in g.m[sn] && verdict(p) == Ok(true) ==> sn in r.value.m && p in r.value.m[sn]
  {
    if !fabricOk(sn) then Ok(acc)
    else
      var kept :- Keep(g.m[sn], verdict);
      if |kept| == 0 then Ok(acc)
      else
        assert forall k :: 0 <= k < |kept| ==> kept[k] in g.m[sn];
        Ok(Put(acc, sn, kept))
  }

  /** The filtered, pruned groups of a policy listing: a policy is kept
      exactly when its serial passes the fabric test and its verdict is
      True, and no serial is left without policies. */
  function Select(items: seq<Policy>, fabricOk: string -> bool, verdict: Policy -> Result<bool, Error>): (r: Result<Groups, Error>)
    ensures r.Ok? ==> Grouped(r.value)
    ensures r.Ok? ==> forall sn :: sn in r.value.m ==> (fabricOk(sn) &&
      forall p :: p in r.value.m[sn] ==> p in items && p.serialNumber == sn && verdict(p) == Ok(true))
    ensures r.Ok? ==> forall k :: 0 <= k < |items| && fabricOk(items[k].serialNumber) && verdict(items[k]) == Ok(true) ==>
      items[k].serialNumber in r.value.m && items[k] in r.value.m[items[k].serialNumber]
  {
    var g := Group(items);
    var r := FilterGroups(g.keys, g, fabricOk, verdict, EmptyDict());
    assert r.Ok? ==> forall k :: 0 <= k < |items| && fabricOk(items[k].serialNumber) && verdict(items[k]) == Ok(true) ==>
      items[k].serialNumber in r.value.m && items[k] in r.value.m[items[k].serialNumber] by {
      if r.Ok? {
        forall k | 0 <= k < |items| && fabricOk(items[k].serialNumber) && verdict(items[k]) == Ok(true)
          ensures items[k].serialNumber in r.value.m && items[k] in r.value.m[items[k].serialNumber]
        {
          var sn := items[k].serialNumber;
          var i :| 0 <= i < |g.keys| && g.keys[i] == sn;
        }
      }
    }
    r
  }
}
