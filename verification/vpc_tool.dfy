/** The main loop of the vPC repair tool: validate the CSV rows, build the
    module parameters, decide each vPC in dictionary order, and sort every
    entry into exactly one of the skipped, failed and succeeded sets. */
module VpcTool {
  import opened Wrappers
  import opened Errors
  import opened Records
  import Text
  import CsvRows
  import VpcRepair
  import VpcParams

  /** The columns every vPC row must fill in. */
  const CsvRequiredKeys := ["fabric", "switchName"]

  /** The run mode the command line's `--dryrun` flag selects. */
  function Mode(dryrun: bool): (m: string)
    ensures VpcRepair.DryRun(m) <==> dryrun
  {
    if dryrun then
      var l := Text.Lower("DRYRUN");
      assert l[0] == 'd' && l[1] == 'r' && l[2] == 'y' && l[3] == 'r' && l[4] == 'u' && l[5] == 'n';
      assert l == "dryrun";
      "DRYRUN"
    else
      assert Text.Lower("DEPLOY")[1] == 'e';
      "DEPLOY"
  }

  /** The three sets the run reports. */
  datatype Tally = Tally(skipped: set<VpcParams.Idx>, failed: set<VpcParams.Idx>, success: set<VpcParams.Idx>)

  /** The decision for one module-params entry. */
  function Decision(dryrun: bool, p: ODict<VpcParams.Idx, VpcRepair.Entry>, key: VpcParams.Idx, env: VpcRepair.Env)
    : (r: Result<(Option<bool>, seq<VpcRepair.Call>), Error>)
    requires key in p.m
    ensures dryrun && r.Ok? ==> r.value.1 == []
  {
    VpcRepair.VpcDecision(Mode(dryrun), p.m[key], env)
  }

  /** Files `key` under the set its outcome selects. */
  function File(t: Tally, key: VpcParams.Idx, o: Option<bool>): (r: Tally)
    ensures key in r.skipped <==> key in t.skipped || o.None?
    ensures key in r.success <==> key in t.success || o == Some(true)
    ensures r.skipped + r.failed + r.success == t.skipped + t.failed + t.success + {key}
    ensures forall x :: x != key ==>
      (x in r.skipped <==> x in t.skipped) && (x in r.failed <==> x in t.failed) && (x in r.success <==> x in t.success)
  {
    if o.None? then t.(skipped := t.skipped + {key})
    else if !o.value then t.(failed := t.failed + {key})
    else t.(success := t.success + {key})
  }

  /** The three sets are pairwise disjoint. */
  predicate Disjoint(t: Tally) {
    t.skipped * t.failed == {} && t.skipped * t.success == {} && t.failed * t.success == {}
  }

  /** Filing a key not yet filed keeps the sets disjoint. */
  lemma FileDisjoint(t: Tally, key: VpcParams.Idx, o: Option<bool>)
    requires Disjoint(t) && key !in t.skipped + t.failed + t.success
    ensures Disjoint(File(t, key, o))
  {
  }

  /** What a decision says about one entry: the repair's verdict (None when
      the entry is skipped) and the calls it makes. */
  type Decide = VpcParams.Idx -> Result<(Option<bool>, seq<VpcRepair.Call>), Error>

  /** The key's decision succeeded and its outcome picked its set. */
  predicate Filed(decide: Decide, key: VpcParams.Idx, t: Tally) {
    decide(key).Ok? &&
    (key in t.skipped <==> decide(key).value.0.None?) &&
    (key in t.success <==> decide(key).value.0 == Some(true))
  }

  /** The loop of the tool over distinct keys with any decision: the first
      exception ends it; otherwise every key is filed by its outcome. When
      `quiet`, no decision makes a call and neither does the loop. */
  method TallyKeys(keys: seq<VpcParams.Idx>, decide: Decide, quiet: bool)
    returns (r: Result<(Tally, seq<VpcRepair.Call>), Error>)
    requires Distinct(keys)
    requires quiet ==> forall k :: decide(k).Ok? ==> decide(k).value.1 == []
    ensures r.Ok? <==> forall k :: 0 <= k < |keys| ==> decide(keys[k]).Ok?
    ensures r.Ok? ==>
      var t := r.value.0;
      t.skipped + t.failed + t.success == (set k | 0 <= k < |keys| :: keys[k]) && Disjoint(t) &&
      forall k :: 0 <= k < |keys| ==> Filed(decide, keys[k], t)
    ensures r.Ok? && quiet ==> r.value.1 == []
  {
    var t := Tally({}, {}, {});
    var calls := [];
    var i := 0;
    while i < |keys|
      invariant 0 <= i <= |keys|
      invariant t.skipped + t.failed + t.success == set k | 0 <= k < i :: keys[k]
      invariant Disjoint(t)
      invariant forall k :: 0 <= k < i ==> Filed(decide, keys[k], t)
      invariant forall k :: 0 <= k < i ==> decide(keys[k]).Ok?
      invariant quiet ==> calls == []
    {
      var key := keys[i];
      assert key !in t.skipped + t.failed + t.success;
      var result := decide(key);
      if result.Err? {
        return Err(result.error);
      }
      FileDisjoint(t, key, result.value.0);
      var t' := File(t, key, result.value.0);
      assert forall k :: 0 <= k < i ==> keys[k] != key;
      t := t';
      calls := calls + result.value.1;
      i := i + 1;
    }
    return Ok((t, calls));
  }

  /** The loop over the module parameters in dictionary order: the first
      exception ends it; otherwise each entry is skipped when correctly
      named, failed when its repair reported false and succeeded when it
      reported true. A dry run changes nothing on the controller. */
  method TallyAll(dryrun: bool, p: ODict<VpcParams.Idx, VpcRepair.Entry>, env: VpcRepair.Env)
    returns (r: Result<(Tally, seq<VpcRepair.Call>), Error>)
    requires WellFormed(p)
    ensures r.Ok? <==> forall key :: key in p.m ==> Decision(dryrun, p, key, env).Ok?
    ensures r.Ok? ==>
      var t := r.value.0;
      t.skipped + t.failed + t.success == p.m.Keys &&
      t.skipped * t.failed == {} && t.skipped * t.success == {} && t.failed * t.success == {} &&
      forall key :: key in p.m ==>
        (key in t.skipped <==> Decision(dryrun, p, key, env).value.0.None?) &&
        (key in t.success <==> Decision(dryrun, p, key, env).value.0 == Some(true))
    ensures r.Ok? && dryrun ==> r.value.1 == []
  {
    var decide: Decide := key => if key in p.m then Decision(dryrun, p, key, env) else Err(KeyError(""));
    assert forall key :: key in p.m ==> decide(key) == Decision(dryrun, p, key, env);
    assert (set k | 0 <= k < |p.keys| :: p.keys[k]) == p.m.Keys;
    r := TallyKeys(p.keys, decide, dryrun);
    if r.Ok? {
      forall key | key in p.m ensures Filed(decide, key, r.value.0) {
        var k :| 0 <= k < |p.keys| && p.keys[k] == key;
      }
    } else {
      var k :| 0 <= k < |p.keys| && decide(p.keys[k]).Err?;
      assert p.keys[k] in p.m;
    }
  }

  /** The run after the CSV rows are read: an invalid file or a failed
      lookup raises before any vPC is touched; then every entry is
      decided and tallied. */
  method RepairAll(dryrun: bool, rows: seq<CsvRows.Row>, look: VpcParams.Lookup, env: VpcRepair.Env)
    returns (r: Result<(Tally, seq<VpcRepair.Call>), Error>)
    ensures !CsvRows.Accepts(CsvRequiredKeys, rows) ==> r.Err? && r.error.CsvInput?
    ensures CsvRows.Accepts(CsvRequiredKeys, rows) && VpcParams.CsvToModuleParams(rows, look).Err? ==>
      r == Err(VpcParams.CsvToModuleParams(rows, look).error)
    ensures r.Ok? ==> CsvRows.Accepts(CsvRequiredKeys, rows) && VpcParams.CsvToModuleParams(rows, look).Ok?
    ensures r.Ok? ==>
      var p := VpcParams.CsvToModuleParams(rows, look).value;
      var t := r.value.0;
      t.skipped + t.failed + t.success == p.m.Keys &&
      forall key :: key in p.m ==>
        Decision(dryrun, p, key, env).Ok? &&
        (key in t.skipped <==> Decision(dryrun, p, key, env).value.0.None?) &&
        (key in t.success <==> Decision(dryrun, p, key, env).value.0 == Some(true))
    ensures r.Ok? && dryrun ==> r.value.1 == []
  {
    var valid := CsvRows.ValidateCsvRows(CsvRequiredKeys, rows);
    if valid.Err? {
      return Err(valid.error);
    }
    var params := VpcParams.CsvToModuleParams(rows, look);
    if params.Err? {
      return Err(params.error);
    }
    r := TallyAll(dryrun, params.value, env);
  }
}
