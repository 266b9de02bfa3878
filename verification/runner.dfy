/** Running the selected change predicates over one interface, and over
    every stored interface: the flat generation's `_run_functions` and
    `get_interfaces_to_change`, and the hierarchy generation's
    `run_selected_plugins` and `get_interfaces_to_change`. Both walk the
    predicates in order, hand each applicable one the unit as the previous
    ones left it (the source edits one dictionary in place), call it before
    OR-ing its verdict in, and skip a leaf-only predicate off a leaf. */
module Runner {
  import opened Wrappers
  import opened Errors
  import opened Records
  import ChangeSet

  /** A predicate and whether it runs on leaf switches only. */
  datatype Entry = Entry(check: ChangeSet.Check, leafOnly: bool)

  /** `(function[2] and leaf) or not function[2]`. */
  predicate Applies(e: Entry, leaf: bool) {
    (e.leafOnly && leaf) || !e.leafOnly
  }

  /** The entries that run for a unit on a leaf (or non-leaf) switch. */
  function Applicable(entries: seq<Entry>, leaf: bool): (r: seq<Entry>)
    ensures |r| <= |entries|
    ensures forall k :: 0 <= k < |r| ==> Applies(r[k], leaf)
    ensures leaf ==> r == entries
    ensures (forall k :: 0 <= k < |entries| ==> !Applies(entries[k], leaf)) ==> r == []
  {
    if |entries| == 0 then []
    else if Applies(entries[0], leaf) then [entries[0]] + Applicable(entries[1..], leaf)
    else Applicable(entries[1..], leaf)
  }

  /** The outcome of one run: the OR of the verdicts, the unit as the last
      predicate left it, and each called predicate's verdict in order. */
  datatype Ran = Ran(changed: bool, unit: Unit, verdicts: seq<bool>)

  /** The unit threaded through every applicable predicate in order. The
      first exception ends the run. */
  function Run(entries: seq<Entry>, key: Key, u: Unit, leaf: bool): (r: Result<Ran, Error>)
    ensures r.Ok? ==> |r.value.verdicts| == |Applicable(entries, leaf)|
    ensures r.Ok? ==> (r.value.changed <==> true in r.value.verdicts)
    ensures Applicable(entries, leaf) == [] ==> r == Ok(Ran(false, u, []))
    decreases |entries|
  {
    if |entries| == 0 then Ok(Ran(false, u, []))
    else if Applies(entries[0], leaf) then
      var first :- entries[0].check(key, u);
      var rest :- Run(entries[1..], key, first.1, leaf);
      Ok(Ran(first.0 || rest.changed, rest.unit, [first.0] + rest.verdicts))
    else
      Run(entries[1..], key, u, leaf)
  }

  /** Predicates that do not apply are never called: the run is the run of
      the applicable ones alone. */
  lemma {:induction false} RunApplicable(entries: seq<Entry>, key: Key, u: Unit, leaf: bool)
    ensures Run(entries, key, u, leaf) == Run(Applicable(entries, leaf), key, u, leaf)
    decreases |entries|
  {
    if |entries| > 0 {
      var a := Applicable(entries, leaf);
      if Applies(entries[0], leaf) {
        assert a[0] == entries[0] && a[1..] == Applicable(entries[1..], leaf);
        var first := entries[0].check(key, u);
        if first.Ok? {
          RunApplicable(entries[1..], key, first.value.1, leaf);
        }
      } else {
        RunApplicable(entries[1..], key, u, leaf);
      }
    }
  }

  /** A predicate that reports a change exactly when it edited the unit. */
  ghost predicate Honest(e: Entry, key: Key, u: Unit) {
    e.check(key, u).Ok? ==> (e.check(key, u).value.0 <==> e.check(key, u).value.1 != u)
  }

  /** A unit that comes out of a run edited was reported as changed, when
      every predicate reports its own edits. */
  lemma {:induction false} RunReportsEdits(entries: seq<Entry>, key: Key, u: Unit, leaf: bool)
    requires forall e, v :: e in entries ==> Honest(e, key, v)
    requires Run(entries, key, u, leaf).Ok?
    ensures Run(entries, key, u, leaf).value.unit != u ==> Run(entries, key, u, leaf).value.changed
    decreases |entries|
  {
    if |entries| > 0 {
      assert forall e :: e in entries[1..] ==> e in entries;
      if Applies(entries[0], leaf) {
        var first := entries[0].check(key, u).value;
        assert Honest(entries[0], key, u);
        RunReportsEdits(entries[1..], key, first.1, leaf);
      } else {
        RunReportsEdits(entries[1..], key, u, leaf);
      }
    }
  }

  /** A unit off a leaf switch sees exactly the predicates that are not
      leaf-only. */
  lemma OffLeafSkipsLeafOnly(entries: seq<Entry>, key: Key, u: Unit)
    ensures Run(entries, key, u, false) == Run(Applicable(entries, false), key, u, true)
    ensures forall k :: 0 <= k < |Applicable(entries, false)| ==> !Applicable(entries, false)[k].leafOnly
  {
    RunApplicable(entries, key, u, false);
    AllApplyOnLeaf(Applicable(entries, false), key, u);
  }

  /** On a leaf every predicate applies, and the leaf flag is irrelevant for
      a list of predicates that all apply off a leaf. */
  lemma {:induction false} AllApplyOnLeaf(entries: seq<Entry>, key: Key, u: Unit)
    requires forall k :: 0 <= k < |entries| ==> Applies(entries[k], false)
    ensures Run(entries, key, u, false) == Run(entries, key, u, true)
    decreases |entries|
  {
    if |entries| > 0 {
      assert Applies(entries[0], false);
      var first := entries[0].check(key, u);
      if first.Ok? {
        AllApplyOnLeaf(entries[1..], key, first.value.1);
      }
    }
  }

  /** The check one unit gets: the run, reduced to its verdict and unit. */
  function RunCheck(entries: seq<Entry>, leafs: set<string>, key: Key, u: Unit): (r: Result<(bool, Unit), Error>)
    ensures r.Ok? <==> Run(entries, key, u, key.1 in leafs).Ok?
    ensures r.Ok? ==> r.value == (Run(entries, key, u, key.1 in leafs).value.changed, Run(entries, key, u, key.1 in leafs).value.unit)
  {
    var ran :- Run(entries, key, u, key.1 in leafs);
    Ok((ran.changed, ran.unit))
  }

  /** The interfaces to change and the snapshot of their stored
      configuration. */
  datatype ToChange = ToChange(changes: ODict<Key, Unit>, originals: ODict<Key, Unit>)

  /** The stored units of the changed keys, in the same order. */
  function Originals(d: ODict<Key, Unit>, changes: ODict<Key, Unit>): (r: ODict<Key, Unit>)
    requires WellFormed(changes) && changes.m.Keys <= d.m.Keys
    ensures WellFormed(r) && r.keys == changes.keys && r.m.Keys == changes.m.Keys
    ensures forall k :: k in r.m ==> r.m[k] == d.m[k]
  {
    ODict(changes.keys, map k | k in changes.m :: d.m[k])
  }

  /** `get_interfaces_to_change`: every stored unit is run (on a copy) with
      the leaf flag taken from `leafs`; a key enters both results iff the
      run reported a change, the change set holding the edited unit and the
      snapshot the stored one. */
  function GetInterfacesToChange(d: ODict<Key, Unit>, entries: seq<Entry>, leafs: set<string>)
    : (r: Result<ToChange, Error>)
    requires WellFormed(d)
    ensures r.Ok? <==> forall k :: k in d.m ==> Run(entries, k, d.m[k], k.1 in leafs).Ok?
    ensures r.Ok? ==> WellFormed(r.value.changes) && WellFormed(r.value.originals)
    ensures r.Ok? ==> r.value.changes.keys == r.value.originals.keys
    ensures r.Ok? ==> r.value.changes.m.Keys <= d.m.Keys
    ensures r.Ok? ==> forall k :: k in d.m ==>
      var ran := Run(entries, k, d.m[k], k.1 in leafs).value;
      (k in r.value.changes.m <==> ran.changed) &&
      (k in r.value.changes.m ==> r.value.changes.m[k] == ran.unit && r.value.originals.m[k] == d.m[k])
  {
    var changes :- ChangeSet.Changes(d, (k: Key, v: Unit) => RunCheck(entries, leafs, k, v));
    Ok(ToChange(changes, Originals(d, changes)))
  }

  /** With no predicate selected nothing changes. */
  lemma NothingSelected(d: ODict<Key, Unit>, leafs: set<string>)
    requires WellFormed(d)
    ensures GetInterfacesToChange(d, [], leafs).Ok?
    ensures GetInterfacesToChange(d, [], leafs).value.changes.m == map[]
  {
    var r := GetInterfacesToChange(d, [], leafs);
    forall k | k in d.m ensures Run([], k, d.m[k], k.1 in leafs) == Ok(Ran(false, d.m[k], [])) { }
    assert r.Ok?;
    forall k | k in d.m ensures k !in r.value.changes.m { }
  }
}
