/** The walk every `get_interfaces_to_change` performs: each stored unit,
    in dictionary order, is handed to a check that reports whether it
    changed the unit and returns the unit as it left it. */
module ChangeSet {
  import opened Wrappers
  import opened Errors
  import opened Records

  /** A check: changed or not, and the unit afterwards. */
  type Check = (Key, Unit) -> Result<(bool, Unit), Error>

  /** The keys among `keys` whose check reported a change, with the units
      as the check left them, in dictionary order. The first exception
      ends the walk. */
  function Walk(keys: seq<Key>, d: map<Key, Unit>, check: Check): (r: Result<ODict<Key, Unit>, Error>)
    requires Distinct(keys) && forall i :: 0 <= i < |keys| ==> keys[i] in d
    ensures r.Ok? <==> forall i :: 0 <= i < |keys| ==> check(keys[i], d[keys[i]]).Ok?
    ensures r.Ok? ==> WellFormed(r.value)
    ensures r.Ok? ==> forall k :: k in r.value.m ==> k in keys
    ensures r.Ok? ==> forall i :: 0 <= i < |keys| ==>
      (keys[i] in r.value.m <==> check(keys[i], d[keys[i]]).value.0) &&
      (keys[i] in r.value.m ==> r.value.m[keys[i]] == check(keys[i], d[keys[i]]).value.1)
    decreases |keys|
  {
    if |keys| == 0 then Ok(EmptyDict())
    else
      var last := keys[|keys| - 1];
      var init := keys[..|keys| - 1];
      assert forall i :: 0 <= i < |init| ==> init[i] == keys[i];
      assert Distinct(init);
      var prev :- Walk(init, d, check);
      var turn :- check(last, d[last]);
      WalkStep(keys, d, check, prev, turn);
      Ok(if turn.0 then Put(prev, last, turn.1) else prev)
  }

  /** Handling the last key extends what the walk over the others found. */
  lemma WalkStep(keys: seq<Key>, d: map<Key, Unit>, check: Check, prev: ODict<Key, Unit>, turn: (bool, Unit))
    requires |keys| > 0 && Distinct(keys) && forall i :: 0 <= i < |keys| ==> keys[i] in d
    requires check(keys[|keys| - 1], d[keys[|keys| - 1]]) == Ok(turn)
    requires WellFormed(prev)
    requires forall k :: k in prev.m ==> k in keys[..|keys| - 1]
    requires forall i :: 0 <= i < |keys| - 1 ==>
      check(keys[i], d[keys[i]]).Ok? &&
      (keys[i] in prev.m <==> check(keys[i], d[keys[i]]).value.0) &&
      (keys[i] in prev.m ==> prev.m[keys[i]] == check(keys[i], d[keys[i]]).value.1)
    ensures var last := keys[|keys| - 1];
      var r := if turn.0 then Put(prev, last, turn.1) else prev;
      WellFormed(r) && (forall k :: k in r.m ==> k in keys) &&
      forall i :: 0 <= i < |keys| ==>
        (keys[i] in r.m <==> check(keys[i], d[keys[i]]).value.0) &&
        (keys[i] in r.m ==> r.m[keys[i]] == check(keys[i], d[keys[i]]).value.1)
  {
  }

  /** The walk over a whole dictionary. */
  function Changes(d: ODict<Key, Unit>, check: Check): (r: Result<ODict<Key, Unit>, Error>)
    requires WellFormed(d)
    ensures r.Ok? <==> forall k :: k in d.m ==> check(k, d.m[k]).Ok?
    ensures r.Ok? ==> WellFormed(r.value) && r.value.m.Keys <= d.m.Keys
    ensures r.Ok? ==> forall k :: k in d.m ==>
      (k in r.value.m <==> check(k, d.m[k]).value.0) &&
      (k in r.value.m ==> r.value.m[k] == check(k, d.m[k]).value.1)
  {
    assert forall k :: k in d.m ==> exists i :: 0 <= i < |d.keys| && d.keys[i] == k;
    Walk(d.keys, d.m, check)
  }
}
