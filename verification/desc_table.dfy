/** The table of desired interface descriptions both generations build
    before the description predicate runs: either from the switches'
    free-form policies (whose ids are then deleted) or from an Excel sheet.
    Also the flat generation's `get_info_from_policies_config`, which keeps
    only the policies whose configuration matched. */
module DescTable {
  import opened Wrappers
  import opened Errors
  import opened Records
  import Text
  import opened Json
  import HierUtils
  import Files
  import Actions

  /** The policy filters and the description pattern both generations
      use. */
  const DescTemplate := "switch_freeform\\Z"
  const DescConfigFilter := "interface\\s+[a-zA-Z]+\\d+/?\\d*\\n\\s+[Dd]escription\\s+"
  const DescPattern := "interface\\s+([a-zA-Z]+\\d+/?\\d*)\\n\\s+[dD]escription\\s+(.*)"

  /** Group 0 (the interface name) keys, group 1 (the description) is the
      value. */
  const KeyIdx: Option<seq<int>> := Some([0])
  const ValueIdx: Option<seq<int>> := Some([1])

  // ---------------------------------------------------------------------
  // the flat generation's get_info_from_policies_config

  /** The flattened policies whose configuration the pattern matches, in
      their order. */
  function Matched(findall: HierUtils.FindAll, config: string, flat: seq<(string, Policy)>): (r: seq<(string, Policy)>)
    ensures |r| <= |flat|
    ensures forall k :: 0 <= k < |r| ==> findall(config, r[k].1.generatedConfig) != []
    ensures forall k :: 0 <= k < |flat| && findall(config, flat[k].1.generatedConfig) != [] ==> flat[k] in r
    ensures (forall k :: 0 <= k < |flat| ==> findall(config, flat[k].1.generatedConfig) != []) ==> r == flat
    decreases |flat|
  {
    if |flat| == 0 then []
    else
      var rest := Matched(findall, config, flat[1..]);
      assert forall k :: 1 <= k < |flat| ==> flat[k] == flat[1..][k - 1];
      if findall(config, flat[0].1.generatedConfig) != [] then [flat[0]] + rest
      else rest
  }

  /** The positions in `flat` the matched policies were taken from: strictly
      increasing, and exactly the positions whose configuration matched, so
      the result is `flat` with the unmatched policies removed. */
  lemma {:induction false} MatchedPositions(findall: HierUtils.FindAll, config: string, flat: seq<(string, Policy)>)
    returns (idx: seq<nat>)
    ensures |idx| == |Matched(findall, config, flat)|
    ensures forall k :: 0 <= k < |idx| ==> idx[k] < |flat| && Matched(findall, config, flat)[k] == flat[idx[k]]
    ensures forall k, l :: 0 <= k < l < |idx| ==> idx[k] < idx[l]
    ensures forall i :: 0 <= i < |flat| ==> (i in idx <==> MatchesAt(findall, config, flat, i))
    decreases |flat|
  {
    if |flat| == 0 {
      idx := [];
    } else {
      var sub := MatchedPositions(findall, config, flat[1..]);
      var shifted := Shift(sub);
      ShiftedPositions(findall, config, flat, sub);
      var m := Matched(findall, config, flat);
      var ms := Matched(findall, config, flat[1..]);
      if findall(config, flat[0].1.generatedConfig) != [] {
        assert m == [flat[0]] + ms;
        ConsPositions(findall, config, flat, ms, shifted);
        idx := [0] + shifted;
      } else {
        assert m == ms;
        idx := shifted;
      }
    }
  }

  /** The policy at position `i` has a matching configuration. */
  predicate MatchesAt(findall: HierUtils.FindAll, config: string, flat: seq<(string, Policy)>, i: nat)
    requires i < |flat|
  {
    findall(config, flat[i].1.generatedConfig) != []
  }

  /** A matching head in front of the tail's matches: position 0 goes in
      front of the tail's positions. */
  lemma ConsPositions(findall: HierUtils.FindAll, config: string, flat: seq<(string, Policy)>,
                      ms: seq<(string, Policy)>, shifted: seq<nat>)
    requires |flat| > 0 && MatchesAt(findall, config, flat, 0)
    requires |shifted| == |ms|
    requires forall k :: 0 <= k < |ms| ==> 0 < shifted[k] < |flat| && ms[k] == flat[shifted[k]]
    requires forall k, l :: 0 <= k < l < |ms| ==> shifted[k] < shifted[l]
    requires forall i :: 0 <= i < |flat| ==> (i in shifted <==> i > 0 && MatchesAt(findall, config, flat, i))
    ensures forall k :: 0 <= k < |[0] + shifted| ==> ([0] + shifted)[k] < |flat| && ([flat[0]] + ms)[k] == flat[([0] + shifted)[k]]
    ensures forall k, l :: 0 <= k < l < |[0] + shifted| ==> ([0] + shifted)[k] < ([0] + shifted)[l]
    ensures forall i :: 0 <= i < |flat| ==> (i in [0] + shifted <==> MatchesAt(findall, config, flat, i))
  {
    var idx := [0] + shifted;
    var m := [flat[0]] + ms;
    forall k | 0 <= k < |idx| ensures idx[k] < |flat| && m[k] == flat[idx[k]] {
      if k > 0 {
        assert idx[k] == shifted[k - 1] && m[k] == ms[k - 1];
      }
    }
    forall k, l | 0 <= k < l < |idx| ensures idx[k] < idx[l] {
      assert idx[l] == shifted[l - 1];
      if k > 0 {
        assert idx[k] == shifted[k - 1];
      }
    }
    forall i | 0 <= i < |flat| ensures i in idx <==> MatchesAt(findall, config, flat, i) {
      if i > 0 {
        assert i in idx <==> i in shifted;
      }
    }
  }

  /** Every position one further on. */
  function Shift(sub: seq<nat>): (r: seq<nat>)
    ensures |r| == |sub| && forall k :: 0 <= k < |sub| ==> r[k] == sub[k] + 1
  {
    seq(|sub|, k requires 0 <= k < |sub| => sub[k] + 1)
  }

  /** The positions of the tail's matches, moved one on, are the
      positions of the matches after the head. */
  lemma ShiftedPositions(findall: HierUtils.FindAll, config: string, flat: seq<(string, Policy)>, sub: seq<nat>)
    requires |flat| > 0
    requires |sub| == |Matched(findall, config, flat[1..])|
    requires forall k :: 0 <= k < |sub| ==> sub[k] < |flat[1..]| && Matched(findall, config, flat[1..])[k] == flat[1..][sub[k]]
    requires forall k, l :: 0 <= k < l < |sub| ==> sub[k] < sub[l]
    requires forall i :: 0 <= i < |flat[1..]| ==> (i in sub <==> MatchesAt(findall, config, flat[1..], i))
    ensures forall k :: 0 <= k < |sub| ==> 0 < Shift(sub)[k] < |flat| && Matched(findall, config, flat[1..])[k] == flat[Shift(sub)[k]]
    ensures forall k, l :: 0 <= k < l < |sub| ==> Shift(sub)[k] < Shift(sub)[l]
    ensures forall i :: 0 <= i < |flat| ==> (i in Shift(sub) <==> i > 0 && MatchesAt(findall, config, flat, i))
  {
    var shifted := Shift(sub);
    forall k | 0 <= k < |sub| ensures Matched(findall, config, flat[1..])[k] == flat[shifted[k]] {
      assert flat[1..][sub[k]] == flat[sub[k] + 1];
    }
    forall i | 0 <= i < |flat| ensures i in shifted <==> i > 0 && MatchesAt(findall, config, flat, i) {
      if i in shifted {
        var k :| 0 <= k < |sub| && shifted[k] == i;
        assert sub[k] in sub;
        assert flat[1..][i - 1] == flat[i];
      }
      if i > 0 && MatchesAt(findall, config, flat, i) {
        assert flat[1..][i - 1] == flat[i];
        assert i - 1 in sub;
        var k :| 0 <= k < |sub| && sub[k] == i - 1;
        assert shifted[k] == i;
      }
    }
  }

  /** `DcnmInterfaces.get_info_from_policies_config`: one entry per policy
      whose configuration matched, `None` when none did. */
  function FlatGetInfo(findall: HierUtils.FindAll, config: string, groups: seq<(string, seq<Policy>)>,
                       keyIdx: Option<seq<int>>, valueIdx: Option<seq<int>>)
    : (r: Result<Option<seq<HierUtils.Info>>, Error>)
    ensures r.Ok? ==> (r.value.None? <==> Matched(findall, config, HierUtils.Flatten(groups)) == [])
    ensures r.Ok? && r.value.Some? ==> |r.value.value| == |Matched(findall, config, HierUtils.Flatten(groups))|
    ensures r.Ok? && r.value.Some? ==> forall k :: 0 <= k < |r.value.value| ==>
      r.value.value[k].policyId == Matched(findall, config, HierUtils.Flatten(groups))[k].1.policyId
  {
    var infos :- HierUtils.Infos(findall, config, Matched(findall, config, HierUtils.Flatten(groups)), keyIdx, valueIdx, false);
    if |infos| == 0 then Ok(None) else Ok(Some(infos))
  }

  // ---------------------------------------------------------------------
  // merging the entries

  /** `{k: v for c in infos for k, v in c.info.items()}` on top of `acc`:
      a later entry wins. */
  function MergeInto(acc: map<HierUtils.DKey, HierUtils.DVal>, infos: seq<HierUtils.Info>): (r: map<HierUtils.DKey, HierUtils.DVal>)
    ensures acc.Keys <= r.Keys
    ensures forall i :: 0 <= i < |infos| ==> infos[i].table.Keys <= r.Keys
    ensures |infos| > 0 ==> forall k :: k in infos[|infos| - 1].table ==> r[k] == infos[|infos| - 1].table[k]
    ensures forall i, k :: 0 <= i < |infos| && k in infos[i].table && Last(infos, i, k) ==> r[k] == infos[i].table[k]
    ensures forall k :: k in acc && Untouched(infos, k) ==> r[k] == acc[k]
    decreases |infos|
  {
    if |infos| == 0 then acc
    else
      var r := MergeInto(acc + infos[0].table, infos[1..]);
      assert forall i :: 1 <= i < |infos| ==> infos[i] == infos[1..][i - 1];
      forall k | k in infos[0].table && Last(infos, 0, k) ensures r[k] == infos[0].table[k] {
        assert Untouched(infos[1..], k);
      }
      forall i, k | 1 <= i < |infos| && k in infos[i].table && Last(infos, i, k) ensures r[k] == infos[i].table[k] {
        assert Last(infos[1..], i - 1, k);
      }
      forall k | k in acc && Untouched(infos, k) ensures r[k] == acc[k] {
        assert Untouched(infos[1..], k);
      }
      r
  }

  /** No entry after the `i`th holds `k`. */
  predicate Last(infos: seq<HierUtils.Info>, i: nat, k: HierUtils.DKey) {
    forall j :: i < j < |infos| ==> k !in infos[j].table
  }

  /** No entry holds `k`. */
  predicate Untouched(infos: seq<HierUtils.Info>, k: HierUtils.DKey) {
    forall j :: 0 <= j < |infos| ==> k !in infos[j].table
  }

  function Merge(infos: seq<HierUtils.Info>): (r: map<HierUtils.DKey, HierUtils.DVal>)
    ensures forall i :: 0 <= i < |infos| ==> infos[i].table.Keys <= r.Keys
  {
    MergeInto(map[], infos)
  }

  /** Every merged key comes from some entry. */
  lemma {:induction false} MergeIntoKeys(acc: map<HierUtils.DKey, HierUtils.DVal>, infos: seq<HierUtils.Info>, k: HierUtils.DKey)
    requires k in MergeInto(acc, infos)
    ensures k in acc || exists i :: 0 <= i < |infos| && k in infos[i].table
    decreases |infos|
  {
    if |infos| > 0 && k !in acc && k !in infos[0].table {
      MergeIntoKeys(acc + infos[0].table, infos[1..], k);
      var i :| 0 <= i < |infos[1..]| && k in infos[1..][i].table;
      assert infos[i + 1] == infos[1..][i];
    }
  }

  /** The `(interface, serial)` to description table: the derived keys of
      two parts whose value is one group. */
  function TableOf(m: map<HierUtils.DKey, HierUtils.DVal>): (r: map<Key, string>)
    ensures forall k: Key :: k in r <==> HierUtils.KTuple([k.0, k.1]) in m && m[HierUtils.KTuple([k.0, k.1])].DOne?
    ensures forall k :: k in r ==> r[k] == m[HierUtils.KTuple([k.0, k.1])].v
  {
    var pairs := set d | d in m && d.KTuple? && |d.parts| == 2 && m[d].DOne? :: (d.parts[0], d.parts[1]);
    forall k: Key | k in pairs
      ensures HierUtils.KTuple([k.0, k.1]) in m && m[HierUtils.KTuple([k.0, k.1])].DOne?
    {
      var d :| d in m && d.KTuple? && |d.parts| == 2 && m[d].DOne? && (d.parts[0], d.parts[1]) == k;
      assert d.parts == [k.0, k.1];
    }
    forall k: Key | HierUtils.KTuple([k.0, k.1]) in m && m[HierUtils.KTuple([k.0, k.1])].DOne?
      ensures k in pairs
    {
      var d := HierUtils.KTuple([k.0, k.1]);
      assert (d.parts[0], d.parts[1]) == k;
    }
    map k | k in pairs :: m[HierUtils.KTuple([k.0, k.1])].v
  }

  /** The ids of the entries, as a set. */
  function Ids(infos: seq<HierUtils.Info>): (r: set<string>)
    ensures forall i :: 0 <= i < |infos| ==> infos[i].policyId in r
    ensures forall id :: id in r ==> exists i :: 0 <= i < |infos| && infos[i].policyId == id
  {
    set i | 0 <= i < |infos| :: infos[i].policyId
  }

  /** An unmatched policy contributes nothing to the merge, so keeping
      only the matched ones merges to the same table. */
  lemma {:induction false} MatchedMergesSame(findall: HierUtils.FindAll, config: string, flat: seq<(string, Policy)>,
                                             acc: map<HierUtils.DKey, HierUtils.DVal>)
    requires HierUtils.Infos(findall, config, flat, KeyIdx, ValueIdx, false).Ok?
    ensures HierUtils.Infos(findall, config, Matched(findall, config, flat), KeyIdx, ValueIdx, false).Ok?
    ensures MergeInto(acc, HierUtils.Infos(findall, config, Matched(findall, config, flat), KeyIdx, ValueIdx, false).value)
         == MergeInto(acc, HierUtils.Infos(findall, config, flat, KeyIdx, ValueIdx, false).value)
    decreases |flat|
  {
    if |flat| > 0 {
      var all := HierUtils.Infos(findall, config, flat, KeyIdx, ValueIdx, false).value;
      var items := findall(config, flat[0].1.generatedConfig);
      var t := HierUtils.Table(items, KeyIdx, ValueIdx, flat[0].0, false, map[]).value;
      assert all[0].table == t;
      assert all[1..] == HierUtils.Infos(findall, config, flat[1..], KeyIdx, ValueIdx, false).value;
      if items != [] {
        MatchedMergesSame(findall, config, flat[1..], acc + t);
        var m := HierUtils.Infos(findall, config, Matched(findall, config, flat), KeyIdx, ValueIdx, false).value;
        assert m[0].table == t;
        assert m[1..] == HierUtils.Infos(findall, config, Matched(findall, config, flat[1..]), KeyIdx, ValueIdx, false).value;
      } else {
        assert t == map[];
        assert acc + t == acc;
        MatchedMergesSame(findall, config, flat[1..], acc);
      }
    }
  }

  // ---------------------------------------------------------------------
  // the table from the switch policies

  /** The prepared description predicate: its table, and the policy ids
      deleted while preparing it (none when the table came from a sheet). */
  datatype Ready = Ready(table: map<Key, string>, deleted: Option<seq<string>>)

  /** The common tail of both generations' description set-up: `None`
      from `get_info_from_policies_config` is a TypeError; otherwise the
      entries' policy ids, listed in set order, are deleted in one request,
      and the merged entries become the table. */
  function FromPolicies(info: Option<seq<HierUtils.Info>>, listIds: set<string> -> seq<string>,
                        deleteReply: string -> Result<Dict, Error>): (r: Result<Ready, Error>)
    ensures info.None? ==> r == Err(TypeError(NotIterableMsg("NoneType")))
    ensures info.Some? ==>
      (r.Ok? <==> Actions.DeleteSwitchPolicies(Actions.IdMany(listIds(Ids(info.value))), deleteReply).Ok?)
    ensures r.Ok? ==> r.value.deleted == Some(listIds(Ids(info.value)))
    ensures r.Ok? ==> forall i, k :: 0 <= i < |info.value| && k in info.value[i].table ==> k in Merge(info.value)
    ensures r.Ok? ==> r.value.table == TableOf(Merge(info.value))
  {
    if info.None? then Err(TypeError(NotIterableMsg("NoneType")))
    else
      var ids := listIds(Ids(info.value));
      var _ :- Actions.DeleteSwitchPolicies(Actions.IdMany(ids), deleteReply);
      Ok(Ready(TableOf(Merge(info.value)), Some(ids)))
  }

  /** With a faithful set order, every entry's policy is deleted, and only
      those. */
  lemma DeletesEveryEntry(info: seq<HierUtils.Info>, listIds: set<string> -> seq<string>,
                          deleteReply: string -> Result<Dict, Error>)
    requires forall s :: SetOfIds(listIds(s)) == s
    requires FromPolicies(Some(info), listIds, deleteReply).Ok?
    ensures var deleted := FromPolicies(Some(info), listIds, deleteReply).value.deleted.value;
      (forall i :: 0 <= i < |info| ==> info[i].policyId in deleted) &&
      (forall j :: 0 <= j < |deleted| ==> exists i :: 0 <= i < |info| && info[i].policyId == deleted[j])
  {
    var deleted := listIds(Ids(info));
    assert SetOfIds(deleted) == Ids(info);
    forall i | 0 <= i < |info| ensures info[i].policyId in deleted {
      assert info[i].policyId in SetOfIds(deleted);
    }
    forall j | 0 <= j < |deleted| ensures exists i :: 0 <= i < |info| && info[i].policyId == deleted[j] {
      assert deleted[j] in SetOfIds(deleted);
    }
  }

  function SetOfIds(s: seq<string>): set<string> {
    set k | 0 <= k < |s| :: s[k]
  }

  /** The description set-up both generations share: the sheet when one
      is named, else the switch policies. `fromPolicies` is the outcome of
      the policy route. */
  function Prepare(excel: Option<string>, sheet: Result<map<Key, string>, Error>, fromPolicies: Result<Ready, Error>)
    : (r: Result<Ready, Error>)
    ensures excel.Some? && excel.value != "" ==> r == (if sheet.Ok? then Ok(Ready(sheet.value, None)) else Err(sheet.error))
    ensures !(excel.Some? && excel.value != "") ==> r == fromPolicies
  {
    if excel.Some? && excel.value != "" then
      var table :- sheet;
      Ok(Ready(table, None))
    else fromPolicies
  }

  // ---------------------------------------------------------------------
  // the Excel sheet

  /** One row of the sheet: the interface, switch and description
      columns. */
  datatype Row = Row(ifName: string, switch: string, description: string)

  const ColumnsMissingMsg := "One or more columns missing"

  /** The sheet's rows as a table, a later row winning. */
  function RowsTable(rows: seq<Row>): (r: map<Key, string>)
    ensures forall k :: 0 <= k < |rows| ==> (rows[k].ifName, rows[k].switch) in r
    ensures |rows| > 0 ==> r[(rows[|rows| - 1].ifName, rows[|rows| - 1].switch)] == rows[|rows| - 1].description
    decreases |rows|
  {
    if |rows| == 0 then map[]
    else
      var last := rows[|rows| - 1];
      RowsTable(rows[..|rows| - 1])[(last.ifName, last.switch) := last.description]
  }

  /** `read_existing_descriptions`: the file must exist and, once its
      column names are lower-cased, have `description`, `interface` and
      `switch` columns. */
  function ReadExistingDescriptions(file: string, isFile: bool, columns: seq<string>, rows: seq<Row>)
    : (r: Result<map<Key, string>, Error>)
    ensures !isFile ==> r == Err(FileError(Files.NotFoundMsg(file)))
    ensures isFile ==> (r.Ok? <==> "description" in LowerAll(columns) && "interface" in LowerAll(columns) && "switch" in LowerAll(columns))
    ensures isFile && r.Err? ==> r.error == ExcelFile(ColumnsMissingMsg)
    ensures r.Ok? ==> r.value == RowsTable(rows)
  {
    var _ :- Files.FileExists(file, isFile);
    var cols := LowerAll(columns);
    if "description" !in cols || "interface" !in cols || "switch" !in cols then Err(ExcelFile(ColumnsMissingMsg))
    else Ok(RowsTable(rows))
  }

  function LowerAll(columns: seq<string>): (r: seq<string>)
    ensures |r| == |columns|
    ensures forall k :: 0 <= k < |columns| ==> r[k] == Text.Lower(columns[k])
  {
    seq(|columns|, k requires 0 <= k < |columns| => Text.Lower(columns[k]))
  }
}
