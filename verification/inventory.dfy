/** The first, script-style inventory of the flat generation
    (dcnm/interfaces/inventory.py): per-fabric name and serial maps, the
    leaf and not-leaf lists, and the description and CDP changes it applies
    to interface configuration units in place. The script's inventory
    replies come in as parameters: the decoded `DATA` records of a fabric,
    or the exception the request raised. */
module IfInventory {
  import opened Wrappers
  import opened Errors
  import opened Records
  import Text
  import Units
  import ChangeSet

  // ---------------------------------------------------------------------
  // get_fabric_inventory_details

  /** `{key(d): val(d) for d in data}`: a later record overwrites an
      earlier one with the same key. */
  function Comprehension<K(==), V>(data: seq<SwitchRec>, key: SwitchRec -> K, val: SwitchRec -> V): (r: map<K, V>)
    ensures r.Keys == set i | 0 <= i < |data| :: key(data[i])
    decreases |data|
  {
    if |data| == 0 then map[]
    else
      var init := data[..|data| - 1];
      var rest := Comprehension(init, key, val);
      assert forall i :: 0 <= i < |init| ==> init[i] == data[i];
      assert (set i | 0 <= i < |data| :: key(data[i])) == (set i | 0 <= i < |init| :: key(init[i])) + {key(data[|data| - 1])};
      rest[key(data[|data| - 1]) := val(data[|data| - 1])]
  }

  /** A record whose key no later record repeats keeps its value. */
  lemma {:induction false} ComprehensionAt<K, V>(data: seq<SwitchRec>, key: SwitchRec -> K, val: SwitchRec -> V, i: nat)
    requires i < |data|
    requires forall j :: i < j < |data| ==> key(data[j]) != key(data[i])
    ensures Comprehension(data, key, val)[key(data[i])] == val(data[i])
    decreases |data|
  {
    if i < |data| - 1 {
      var init := data[..|data| - 1];
      assert forall j :: 0 <= j < |init| ==> init[j] == data[j];
      ComprehensionAt(init, key, val, i);
    }
  }

  function NameOf(d: SwitchRec): string { d.logicalName }
  function SerialOf(d: SwitchRec): string { d.serialNumber }
  function PairOf(d: SwitchRec): (string, string) { (d.logicalName, d.serialNumber) }
  function RecOf(d: SwitchRec): SwitchRec { d }

  /** The three per-fabric caches the inventory keeps. */
  datatype Fabrics = Fabrics(
    switchNames: map<string, map<string, string>>,
    serialNumbers: map<string, map<string, string>>,
    inventory: map<string, map<(string, string), SwitchRec>>)

  /** The caches are filled together, so they know the same fabrics. */
  predicate Valid(st: Fabrics) {
    st.switchNames.Keys == st.serialNumbers.Keys == st.inventory.Keys
  }

  /** `get_fabric_inventory_details`: the fabric's three maps are rebuilt
      from the same records; the other fabrics are untouched. */
  function GetFabricInventoryDetails(st: Fabrics, fabric: string, data: Result<seq<SwitchRec>, Error>): (r: Result<Fabrics, Error>)
    ensures data.Err? ==> r == Err(data.error)
    ensures data.Ok? ==> r.Ok?
    ensures r.Ok? && Valid(st) ==> Valid(r.value)
    ensures r.Ok? ==> fabric in r.value.switchNames && fabric in r.value.serialNumbers && fabric in r.value.inventory
    ensures r.Ok? ==> r.value.switchNames[fabric].Keys == set i | 0 <= i < |data.value| :: data.value[i].logicalName
    ensures r.Ok? ==> r.value.serialNumbers[fabric].Keys == set i | 0 <= i < |data.value| :: data.value[i].serialNumber
    ensures r.Ok? ==> forall f :: f != fabric ==>
      (f in r.value.switchNames <==> f in st.switchNames) && (f in st.switchNames ==> r.value.switchNames[f] == st.switchNames[f])
    ensures r.Ok? ==> forall f :: f != fabric ==>
      (f in r.value.serialNumbers <==> f in st.serialNumbers) && (f in st.serialNumbers ==> r.value.serialNumbers[f] == st.serialNumbers[f])
  {
    var recs :- data;
    Ok(Fabrics(
      st.switchNames[fabric := Comprehension(recs, NameOf, SerialOf)],
      st.serialNumbers[fabric := Comprehension(recs, SerialOf, NameOf)],
      st.inventory[fabric := Comprehension(recs, PairOf, RecOf)]))
  }

  /** With unique names and unique serials the name-to-serial and
      serial-to-name maps of a fabric are inverse to each other. */
  lemma DetailsInverse(st: Fabrics, fabric: string, recs: seq<SwitchRec>)
    requires forall i, j :: 0 <= i < j < |recs| ==> recs[i].logicalName != recs[j].logicalName
    requires forall i, j :: 0 <= i < j < |recs| ==> recs[i].serialNumber != recs[j].serialNumber
    ensures var r := GetFabricInventoryDetails(st, fabric, Ok(recs)).value;
      var names := r.switchNames[fabric];
      var serials := r.serialNumbers[fabric];
      (forall n :: n in names ==> names[n] in serials && serials[names[n]] == n) &&
      (forall s :: s in serials ==> serials[s] in names && names[serials[s]] == s)
  {
    var names := Comprehension(recs, NameOf, SerialOf);
    var serials := Comprehension(recs, SerialOf, NameOf);
    forall i | 0 <= i < |recs|
      ensures names[recs[i].logicalName] == recs[i].serialNumber
      ensures serials[recs[i].serialNumber] == recs[i].logicalName
    {
      ComprehensionAt(recs, NameOf, SerialOf, i);
      ComprehensionAt(recs, SerialOf, NameOf, i);
    }
  }

  /** `dict.get(key, None)`. */
  function Get(m: map<string, string>, key: string): (r: Option<string>)
    ensures r.Some? <==> key in m
    ensures r.Some? ==> r.value == m[key]
  {
    if key in m then Some(m[key]) else None
  }

  /** `get_switch_serial`: the fabric's records are fetched only when the
      fabric is not cached yet; an unknown name gives `None`. */
  function GetSwitchSerial(st: Fabrics, fabric: string, name: string, fetch: string -> Result<seq<SwitchRec>, Error>)
    : (r: Result<(Option<string>, Fabrics), Error>)
    ensures fabric in st.switchNames ==> r == Ok((Get(st.switchNames[fabric], name), st))
    ensures fabric !in st.switchNames ==> (r.Ok? <==> fetch(fabric).Ok?)
    ensures r.Ok? && fabric !in st.switchNames ==>
      (r.value.0.Some? <==> name in set i | 0 <= i < |fetch(fabric).value| :: fetch(fabric).value[i].logicalName)
    ensures r.Ok? && Valid(st) ==> Valid(r.value.1)
  {
    if fabric in st.switchNames then Ok((Get(st.switchNames[fabric], name), st))
    else
      var st' :- GetFabricInventoryDetails(st, fabric, fetch(fabric));
      Ok((Get(st'.switchNames[fabric], name), st'))
  }

  /** `get_switch_name`: like `get_switch_serial`, but the cache test looks
      at the name map and the answer comes from the serial map, so a state
      that knows a fabric in one map only raises a KeyError. */
  function GetSwitchName(st: Fabrics, fabric: string, serial: string, fetch: string -> Result<seq<SwitchRec>, Error>)
    : (r: Result<(Option<string>, Fabrics), Error>)
    ensures fabric in st.switchNames && fabric in st.serialNumbers ==> r == Ok((Get(st.serialNumbers[fabric], serial), st))
    ensures Valid(st) && fabric in st.switchNames ==> r.Ok?
    ensures fabric !in st.switchNames ==> (r.Ok? <==> fetch(fabric).Ok?)
    ensures r.Ok? && fabric !in st.switchNames ==>
      (r.value.0.Some? <==> serial in set i | 0 <= i < |fetch(fabric).value| :: fetch(fabric).value[i].serialNumber)
    ensures r.Ok? && Valid(st) ==> Valid(r.value.1)
  {
    if fabric in st.switchNames then
      if fabric in st.serialNumbers then Ok((Get(st.serialNumbers[fabric], serial), st)) else Err(KeyError(fabric))
    else
      var st' :- GetFabricInventoryDetails(st, fabric, fetch(fabric));
      Ok((Get(st'.serialNumbers[fabric], serial), st'))
  }

  /** A cached fabric is answered without consulting the controller. */
  lemma CachedIgnoresFetch(st: Fabrics, fabric: string, name: string, f: string -> Result<seq<SwitchRec>, Error>,
                           g: string -> Result<seq<SwitchRec>, Error>)
    requires fabric in st.switchNames
    ensures GetSwitchSerial(st, fabric, name, f) == GetSwitchSerial(st, fabric, name, g)
    ensures GetSwitchName(st, fabric, name, f) == GetSwitchName(st, fabric, name, g)
  {
  }

  // ---------------------------------------------------------------------
  // get_all_switches

  /** The serials of the leaf records, in order. */
  function LeafSerials(switches: seq<SwitchRec>): seq<string>
    decreases |switches|
  {
    if |switches| == 0 then []
    else (if switches[0].switchRole == Some("leaf") then [switches[0].serialNumber] else []) + LeafSerials(switches[1..])
  }

  /** The serials of the other records, in order. */
  function NotLeafSerials(switches: seq<SwitchRec>): seq<string>
    decreases |switches|
  {
    if |switches| == 0 then []
    else (if switches[0].switchRole == Some("leaf") then [] else [switches[0].serialNumber]) + NotLeafSerials(switches[1..])
  }

  function Serials(switches: seq<SwitchRec>): seq<string>
    decreases |switches|
  {
    if |switches| == 0 then [] else [switches[0].serialNumber] + Serials(switches[1..])
  }

  /** `get_all_switches`: appends each listed serial to the leaf list or
      the not-leaf list without clearing either; `switch['switchRole']`
      raises a KeyError on a record without a role. */
  function AppendSwitches(leaf: seq<string>, notleaf: seq<string>, switches: seq<SwitchRec>)
    : (r: Result<(seq<string>, seq<string>), Error>)
    ensures r.Ok? <==> forall i :: 0 <= i < |switches| ==> switches[i].switchRole.Some?
    ensures r.Ok? ==> |r.value.0| + |r.value.1| == |leaf| + |notleaf| + |switches|
    ensures r.Err? ==> r.error == KeyError("switchRole")
    decreases |switches|
  {
    if |switches| == 0 then Ok((leaf, notleaf))
    else
      var s := switches[0];
      if s.switchRole.None? then Err(KeyError("switchRole"))
      else
        var next := if s.switchRole == Some("leaf") then (leaf + [s.serialNumber], notleaf) else (leaf, notleaf + [s.serialNumber]);
        var r := AppendSwitches(next.0, next.1, switches[1..]);
        assert forall i :: 1 <= i < |switches| ==> switches[i] == switches[1..][i - 1];
        r
  }

  /** `get_all_switches`: `response` is the decoded switch list, or the
      exception the request or the decoding raised. */
  function GetAllSwitches(leaf: seq<string>, notleaf: seq<string>, response: Result<seq<SwitchRec>, Error>)
    : (r: Result<(seq<string>, seq<string>), Error>)
    ensures response.Err? ==> r == Err(response.error)
    ensures response.Ok? ==> r == AppendSwitches(leaf, notleaf, response.value)
  {
    var switches :- response;
    AppendSwitches(leaf, notleaf, switches)
  }

  /** The appended parts are the leaf serials and the other serials in
      listing order. */
  lemma {:induction false} AppendSwitchesParts(leaf: seq<string>, notleaf: seq<string>, switches: seq<SwitchRec>)
    requires AppendSwitches(leaf, notleaf, switches).Ok?
    ensures AppendSwitches(leaf, notleaf, switches).value == (leaf + LeafSerials(switches), notleaf + NotLeafSerials(switches))
    decreases |switches|
  {
    if |switches| == 0 {
      assert leaf + [] == leaf && notleaf + [] == notleaf;
    } else {
      var s := switches[0];
      var rest := switches[1..];
      if s.switchRole == Some("leaf") {
        assert AppendSwitches(leaf, notleaf, switches) == AppendSwitches(leaf + [s.serialNumber], notleaf, rest);
        AppendSwitchesParts(leaf + [s.serialNumber], notleaf, rest);
        assert LeafSerials(switches) == [s.serialNumber] + LeafSerials(rest);
        assert NotLeafSerials(switches) == NotLeafSerials(rest);
        assert leaf + [s.serialNumber] + LeafSerials(rest) == leaf + LeafSerials(switches);
      } else {
        assert s.switchRole.Some?;
        assert AppendSwitches(leaf, notleaf, switches) == AppendSwitches(leaf, notleaf + [s.serialNumber], rest);
        AppendSwitchesParts(leaf, notleaf + [s.serialNumber], rest);
        assert LeafSerials(switches) == LeafSerials(rest);
        assert NotLeafSerials(switches) == [s.serialNumber] + NotLeafSerials(rest);
        assert notleaf + [s.serialNumber] + NotLeafSerials(rest) == notleaf + NotLeafSerials(switches);
      }
    }
  }

  /** Every listed switch is in exactly one of the two parts. */
  lemma {:induction false} SerialsSplit(switches: seq<SwitchRec>)
    ensures multiset(LeafSerials(switches)) + multiset(NotLeafSerials(switches)) == multiset(Serials(switches))
    decreases |switches|
  {
    if |switches| > 0 {
      SerialsSplit(switches[1..]);
    }
  }

  /** Calling `get_all_switches` twice lists every switch twice. */
  lemma AppendTwice(switches: seq<SwitchRec>)
    requires AppendSwitches([], [], switches).Ok?
    ensures var once := AppendSwitches([], [], switches).value;
      AppendSwitches(once.0, once.1, switches).Ok? &&
      AppendSwitches(once.0, once.1, switches).value == (once.0 + once.0, once.1 + once.1)
  {
    AppendSwitchesParts([], [], switches);
    var once := AppendSwitches([], [], switches).value;
    assert [] + LeafSerials(switches) == LeafSerials(switches);
    assert [] + NotLeafSerials(switches) == NotLeafSerials(switches);
    assert once == (LeafSerials(switches), NotLeafSerials(switches));
    AppendSwitchesParts(once.0, once.1, switches);
  }

  // ---------------------------------------------------------------------
  // the description and CDP changes

  const NoCdp := "no cdp enable"

  /** `get_desc_change`: a key in the table gets the table's description
      and counts as a change even when the description was already that
      one; the old `DESC` is read for the debug message first. */
  function GetDescChange(key: Key, u: Unit, table: map<Key, string>): (r: Result<(bool, Unit), Error>)
    ensures key !in table ==> r == Ok((false, u))
    ensures key in table ==> (r.Ok? <==> Units.NvGet(u, "DESC").Ok?)
    ensures r.Ok? && key in table ==> r.value.0 && Units.NvGet(r.value.1, "DESC") == Ok(table[key])
  {
    if key !in table then Ok((false, u))
    else
      var current :- Units.NvGet(u, "DESC");
      Ok((true, Units.SetNv(u, "DESC", table[key])))
  }

  /** Applying the description change again reports a change again and
      leaves the unit as it is. */
  lemma DescRepeats(key: Key, u: Unit, table: map<Key, string>)
    requires key in table && GetDescChange(key, u, table).Ok?
    ensures var u' := GetDescChange(key, u, table).value.1;
      GetDescChange(key, u', table) == Ok((true, u'))
  {
    Units.SetNvTwice(u, "DESC", table[key], table[key]);
  }

  /** `get_cdp_change`: a mgmt interface with CDP enabled gets it disabled;
      any other interface whose `CONF` lacks `no cdp enable` gets it, set
      alone on an empty `CONF` and otherwise appended after the two
      characters backslash and `n`. */
  function GetCdpChange(key: Key, u: Unit): (r: Result<(bool, Unit), Error>)
    ensures r.Ok? && !r.value.0 ==> r.value.1 == u
    ensures Text.Contains(key.0, "mgmt") ==> (r.Ok? <==> Units.NvGet(u, "CDP_ENABLE").Ok?)
    ensures Text.Contains(key.0, "mgmt") && r.Ok? ==>
      (r.value.0 <==> Units.NvGet(u, "CDP_ENABLE") == Ok("true")) &&
      (r.value.0 ==> Units.NvGet(r.value.1, "CDP_ENABLE") == Ok("false"))
    ensures !Text.Contains(key.0, "mgmt") ==> (r.Ok? <==> Units.NvGet(u, "CONF").Ok?)
    ensures !Text.Contains(key.0, "mgmt") && r.Ok? ==>
      (r.value.0 <==> !Text.Contains(Units.NvGet(u, "CONF").value, NoCdp)) &&
      (r.value.0 && Units.NvGet(u, "CONF") == Ok("") ==> Units.NvGet(r.value.1, "CONF") == Ok(NoCdp)) &&
      (r.value.0 && Units.NvGet(u, "CONF") != Ok("") ==>
        Units.NvGet(r.value.1, "CONF") == Ok(Units.NvGet(u, "CONF").value + "\\n" + NoCdp))
  {
    if Text.Contains(key.0, "mgmt") then
      var cdp :- Units.NvGet(u, "CDP_ENABLE");
      if cdp == "true" then Ok((true, Units.SetNv(u, "CDP_ENABLE", "false"))) else Ok((false, u))
    else
      var conf :- Units.NvGet(u, "CONF");
      if Text.Contains(conf, NoCdp) then Ok((false, u))
      else if conf == "" then Ok((true, Units.SetNv(u, "CONF", NoCdp)))
      else Ok((true, Units.SetNv(u, "CONF", conf + "\\n" + NoCdp)))
  }

  /** After a change, a second call finds nothing to change. */
  lemma CdpIdempotent(key: Key, u: Unit)
    requires GetCdpChange(key, u).Ok?
    ensures var u' := GetCdpChange(key, u).value.1;
      GetCdpChange(key, u') == Ok((false, u'))
  {
    var u' := GetCdpChange(key, u).value.1;
    if !Text.Contains(key.0, "mgmt") && GetCdpChange(key, u).value.0 {
      var conf := Units.NvGet(u, "CONF").value;
      if conf == "" {
        assert NoCdp == [] + NoCdp;
        Text.ContainsSuffix([], NoCdp);
      } else {
        Text.ContainsSuffix(conf + "\\n", NoCdp);
      }
    }
  }

  // ---------------------------------------------------------------------
  // get_interfaces_to_change

  /** One stored unit's turn in `get_interfaces_to_change`: on a leaf
      switch an ethernet or mgmt interface outside a fabric policy is
      checked for both changes (both checks run); on any other switch only
      a mgmt interface is checked, for CDP. */
  function Examine(key: Key, u: Unit, leafs: seq<string>, table: map<Key, string>): (r: Result<(bool, Unit), Error>)
    ensures r.Ok? && !r.value.0 ==> r.value.1 == u
    ensures key.1 !in leafs && !Text.Contains(key.0, "mgmt") ==> r == Ok((false, u))
    ensures key.1 !in leafs && Text.Contains(key.0, "mgmt") ==> r == GetCdpChange(key, u)
    ensures key.1 in leafs && |u.interfaces| == 0 ==> r == Err(IndexError(ListIndexMsg))
    ensures key.1 in leafs && |u.interfaces| > 0 && Text.Contains(u.policy, "fabric") ==> r == Ok((false, u))
    ensures (key.1 in leafs && |u.interfaces| > 0 &&
             !Text.Contains(Text.Lower(u.interfaces[0].ifName), "ethernet") &&
             !Text.Contains(Text.Lower(u.interfaces[0].ifName), "mgmt")) ==> r == Ok((false, u))
    ensures r.Ok? && r.value.0 && key.1 in leafs ==> key in table || (GetCdpChange(key, u).Ok? && GetCdpChange(key, u).value.0)
  {
    if key.1 in leafs then
      var name :- Units.FirstIfName(u);
      var lower := Text.Lower(name);
      if (Text.Contains(lower, "ethernet") || Text.Contains(lower, "mgmt")) && !Text.Contains(u.policy, "fabric") then
        var desc :- GetDescChange(key, u, table);
        var cdp :- GetCdpChange(key, desc.1);
        if key !in table then Ok(cdp) else Ok((true, cdp.1))
      else Ok((false, u))
    else if !Text.Contains(key.0, "mgmt") then Ok((false, u))
    else GetCdpChange(key, u)
  }

  /** The stored dictionary after the walk: the changed units were edited
      in place, so their stored records are the changed ones. */
  function Stored(d: map<Key, Unit>, changes: map<Key, Unit>): (r: map<Key, Unit>)
    ensures r.Keys == d.Keys
  {
    map k | k in d :: if k in changes then changes[k] else d[k]
  }

  /** `get_interfaces_to_change`: the changed units and the stored
      dictionary afterwards. No copy is taken, so every stored unit that is
      reported changed now holds its changed value. */
  function GetInterfacesToChange(d: ODict<Key, Unit>, leafs: seq<string>, table: map<Key, string>)
    : (r: Result<(ODict<Key, Unit>, map<Key, Unit>), Error>)
    requires WellFormed(d)
    ensures r.Ok? <==> forall k :: k in d.m ==> Examine(k, d.m[k], leafs, table).Ok?
    ensures r.Ok? ==> WellFormed(r.value.0) && r.value.0.m.Keys <= d.m.Keys
    ensures r.Ok? ==> forall k :: k in d.m ==>
      (k in r.value.0.m <==> Examine(k, d.m[k], leafs, table).value.0) &&
      (k in r.value.0.m ==> r.value.0.m[k] == Examine(k, d.m[k], leafs, table).value.1)
    ensures r.Ok? ==> r.value.1.Keys == d.m.Keys
    ensures r.Ok? ==> forall k :: k in d.m ==> r.value.1[k] == Examine(k, d.m[k], leafs, table).value.1
  {
    var changes :- ChangeSet.Changes(d, (k, u) => Examine(k, u, leafs, table));
    Ok((changes, Stored(d.m, changes.m)))
  }

  /** A unit on a switch that is neither a leaf nor named mgmt is never
      reported or touched. */
  lemma OtherSwitchUntouched(d: ODict<Key, Unit>, leafs: seq<string>, table: map<Key, string>, k: Key)
    requires WellFormed(d) && k in d.m && k.1 !in leafs && !Text.Contains(k.0, "mgmt")
    requires GetInterfacesToChange(d, leafs, table).Ok?
    ensures k !in GetInterfacesToChange(d, leafs, table).value.0.m
    ensures GetInterfacesToChange(d, leafs, table).value.1[k] == d.m[k]
  {
  }
}
