/** `get_vpc_pair` and `csv_to_module_params` of the vPC repair tool: each
    CSV row naming a vPC is turned into one entry per `(fabric, pair, vPC
    id)`, with the switch's serial and its vPC pair asked of the
    controller. */
module VpcParams {
  import opened Wrappers
  import opened Json
  import opened Errors
  import opened Records
  import Text
  import CsvRows
  import VpcRepair

  // ---------------------------------------------------------------------
  // get_vpc_pair

  const PairKey := "vpc_pair_sn"

  /** `'vpc_pair_sn' in data["DATA"]` followed by
      `data['DATA']['vpc_pair_sn']`: Python's `in` looks up a key of a
      dictionary, an element of a list and a substring of a string, and
      raises TypeError on anything else; indexing a list or a string with a
      string raises TypeError too. */
  function GetVpcPair(reply: Result<Dict, Error>): (r: Result<Option<Value>, Error>)
    ensures reply.Err? ==> r == Err(reply.error)
    ensures reply.Ok? && "DATA" !in reply.value ==> r == Err(KeyError("DATA"))
    ensures reply.Ok? && "DATA" in reply.value && reply.value["DATA"].JObj? ==>
      var fields := reply.value["DATA"].fields;
      r.Ok? && (r.value.Some? <==> PairKey in fields) && (r.value.Some? ==> r.value.value == fields[PairKey])
    ensures r.Ok? && r.value.Some? ==> reply.Ok? && "DATA" in reply.value && reply.value["DATA"].JObj?
    ensures reply.Ok? && "DATA" in reply.value && reply.value["DATA"].JList? ==>
      (r == Ok(None) <==> JStr(PairKey) !in reply.value["DATA"].items) &&
      (r.Err? <==> JStr(PairKey) in reply.value["DATA"].items)
    ensures reply.Ok? && "DATA" in reply.value && reply.value["DATA"].JStr? ==>
      (r == Ok(None) <==> !Text.Contains(reply.value["DATA"].s, PairKey))
    ensures reply.Ok? && "DATA" in reply.value && (reply.value["DATA"].JNull? || reply.value["DATA"].JBool? || reply.value["DATA"].JInt?) ==>
      r == Err(TypeError(InMsg(reply.value["DATA"])))
  {
    var d :- reply;
    if "DATA" !in d then Err(KeyError("DATA"))
    else
      match d["DATA"]
      case JObj(fields) => if PairKey in fields then Ok(Some(fields[PairKey])) else Ok(None)
      case JList(items) => if JStr(PairKey) in items then Err(TypeError(StrKeyMsg(d["DATA"]))) else Ok(None)
      case JStr(s) => if Text.Contains(s, PairKey) then Err(TypeError(StrKeyMsg(d["DATA"]))) else Ok(None)
      case _ => Err(TypeError(InMsg(d["DATA"])))
  }

  // ---------------------------------------------------------------------
  // csv_to_module_params

  /** The index of a module-params entry: fabric, vPC pair, vPC id. */
  type Idx = (string, string, string)

  /** What the controller answers: the serial of a switch named in a
      fabric (`get_switch_serial`), and the reply to the vPC-pair query for
      a serial. */
  datatype Lookup = Lookup(
    serialOf: (string, string) -> Result<Option<string>, Error>,
    pairReply: string -> Result<Dict, Error>)

  const NoPairMsg := "no vpc pair found"

  /** `not serialNumber`. */
  predicate NoSerial(serial: Option<string>) {
    serial.None? || serial.value == ""
  }

  /** The serial of the row's switch, once the row is known to name a
      fabric and a switch. */
  function SerialOfRow(row: CsvRows.Row, look: Lookup): Result<Option<string>, Error>
    requires "fabric" in row && "switchName" in row
  {
    look.serialOf(row["fabric"], row["switchName"])
  }

  /** One pass of the loop over a row: nothing for a row with an empty
      `vpcId` or a switch without a serial, otherwise the row's index and
      entry. A switch without a vPC pair raises. */
  function Contribution(row: CsvRows.Row, look: Lookup): (r: Result<Option<(Idx, VpcRepair.Entry)>, Error>)
    ensures "vpcId" !in row ==> r == Err(KeyError("vpcId"))
    ensures "vpcId" in row && row["vpcId"] == "" ==> r == Ok(None)
    ensures "vpcId" in row && row["vpcId"] != "" && "fabric" !in row ==> r == Err(KeyError("fabric"))
    ensures "vpcId" in row && row["vpcId"] != "" && "fabric" in row && "switchName" !in row ==> r == Err(KeyError("switchName"))
    ensures r.Ok? && r.value.None? ==>
      "vpcId" in row && (row["vpcId"] == "" ||
        ("fabric" in row && "switchName" in row && SerialOfRow(row, look).Ok? && NoSerial(SerialOfRow(row, look).value)))
    ensures r.Ok? && r.value.Some? ==>
      var (idx, e) := r.value.value;
      "vpcId" in row && "fabric" in row && "switchName" in row &&
      row["vpcId"] != "" && e.row == row && e.vpcId == row["vpcId"] && e.vpcPair != "" &&
      idx == (row["fabric"], e.vpcPair, e.vpcId) &&
      SerialOfRow(row, look).Ok? && !NoSerial(SerialOfRow(row, look).value) &&
      GetVpcPair(look.pairReply(SerialOfRow(row, look).value.value)) == Ok(Some(JStr(e.vpcPair)))
    ensures "vpcId" in row && row["vpcId"] != "" && "fabric" in row && "switchName" in row &&
            SerialOfRow(row, look).Ok? && !NoSerial(SerialOfRow(row, look).value) &&
            GetVpcPair(look.pairReply(SerialOfRow(row, look).value.value)).Ok? &&
            !(GetVpcPair(look.pairReply(SerialOfRow(row, look).value.value)).value.Some? &&
              Truthy(GetVpcPair(look.pairReply(SerialOfRow(row, look).value.value)).value.value)) ==>
      r == Err(PlainException(NoPairMsg))
  {
    var vpcId :- VpcRepair.Get(row, "vpcId");
    if vpcId == "" then Ok(None)
    else
      var fabric :- VpcRepair.Get(row, "fabric");
      var switchName :- VpcRepair.Get(row, "switchName");
      var serial :- look.serialOf(fabric, switchName);
      if NoSerial(serial) then Ok(None)
      else
        var pair :- GetVpcPair(look.pairReply(serial.value));
        if pair.None? || !Truthy(pair.value) then Err(PlainException(NoPairMsg))
        else if !pair.value.JStr? then Err(TypeError(UnhashableMsg(TypeName(pair.value))))
        else
          var p := pair.value.s;
          Ok(Some(((fabric, p, vpcId), VpcRepair.Entry(row, vpcId, p))))
  }

  /** The outcome of one row's pass. */
  type Step = Result<Option<(Idx, VpcRepair.Entry)>, Error>

  /** The pass yields an entry under `idx`. */
  predicate Yields<K(==), V, E>(c: Result<Option<(K, V)>, E>, idx: K) {
    c.Ok? && c.value.Some? && c.value.value.0 == idx
  }

  /** The loop of `csv_to_module_params` over the rows' passes in order:
      the first exception ends it; otherwise every index some pass yields is
      present, holding the entry of the FIRST pass that yields it, in order
      of first appearance. */
  function FirstWins<K(==,!new), V, E>(cs: seq<Result<Option<(K, V)>, E>>): (r: Result<ODict<K, V>, E>)
    ensures r.Ok? <==> forall k :: 0 <= k < |cs| ==> cs[k].Ok?
    ensures r.Err? ==> exists k :: (0 <= k < |cs| && cs[k] == Err(r.error) &&
                                    forall l :: 0 <= l < k ==> cs[l].Ok?)
    ensures r.Ok? ==> WellFormed(r.value)
    ensures r.Ok? ==> forall idx :: idx in r.value.m <==> exists k :: 0 <= k < |cs| && Yields(cs[k], idx)
    ensures r.Ok? ==> forall k, idx :: (0 <= k < |cs| && Yields(cs[k], idx) &&
                                        forall l :: 0 <= l < k ==> !Yields(cs[l], idx)) ==>
      idx in r.value.m && r.value.m[idx] == cs[k].value.value.1
    decreases |cs|
  {
    if |cs| == 0 then Ok(EmptyDict())
    else
      var n := |cs| - 1;
      var init := cs[..n];
      assert forall k :: 0 <= k < n ==> init[k] == cs[k];
      var prev := FirstWins(init);
      if prev.Err? then Err(prev.error)
      else if cs[n].Err? then Err(cs[n].error)
      else
        FirstWinsStep(cs, prev.value);
        Ok(Extend(prev.value, cs[n].value))
  }

  /** The dictionary after one more pass: an index not yet present is
      added, anything else leaves the dictionary as it was. */
  function Extend<K(==), V>(d: ODict<K, V>, c: Option<(K, V)>): ODict<K, V>
    requires WellFormed(d)
  {
    if c.None? || c.value.0 in d.m then d else Put(d, c.value.0, c.value.1)
  }

  /** One more successful pass keeps `FirstWins`'s facts about the
      dictionary. */
  lemma FirstWinsStep<K(!new), V, E>(cs: seq<Result<Option<(K, V)>, E>>, prev: ODict<K, V>)
    requires |cs| > 0 && cs[|cs| - 1].Ok? && WellFormed(prev)
    requires forall idx :: idx in prev.m <==> exists k :: 0 <= k < |cs| - 1 && Yields(cs[k], idx)
    requires forall k, idx :: (0 <= k < |cs| - 1 && Yields(cs[k], idx) &&
                               forall l :: 0 <= l < k ==> !Yields(cs[l], idx)) ==>
      idx in prev.m && prev.m[idx] == cs[k].value.value.1
    ensures var r := Extend(prev, cs[|cs| - 1].value);
      WellFormed(r) &&
      (forall idx :: idx in r.m <==> exists k :: 0 <= k < |cs| && Yields(cs[k], idx)) &&
      (forall k, idx :: (0 <= k < |cs| && Yields(cs[k], idx) && forall l :: 0 <= l < k ==> !Yields(cs[l], idx)) ==>
        idx in r.m && r.m[idx] == cs[k].value.value.1)
  {
    var n := |cs| - 1;
    var r := Extend(prev, cs[n].value);
    forall idx ensures idx in r.m <==> exists k :: 0 <= k < |cs| && Yields(cs[k], idx) {
      if Yields(cs[n], idx) {
        assert idx in r.m;
      }
    }
    forall k, idx | 0 <= k < |cs| && Yields(cs[k], idx) && forall l :: 0 <= l < k ==> !Yields(cs[l], idx)
      ensures idx in r.m && r.m[idx] == cs[k].value.value.1
    {
    }
  }

  /** Each row's pass, in file order. */
  function Steps(rows: seq<CsvRows.Row>, look: Lookup): (cs: seq<Step>)
    ensures |cs| == |rows|
    ensures forall k :: 0 <= k < |rows| ==> cs[k] == Contribution(rows[k], look)
  {
    seq(|rows|, k requires 0 <= k < |rows| => Contribution(rows[k], look))
  }

  /** `csv_to_module_params`: the first row whose pass raises ends it;
      otherwise it holds an entry for every index some row's pass yields,
      the entry of the first such row (each row's pass is
      `Steps(rows, look)[k] == Contribution(rows[k], look)`). */
  function CsvToModuleParams(rows: seq<CsvRows.Row>, look: Lookup): (r: Result<ODict<Idx, VpcRepair.Entry>, Error>)
    ensures var cs := Steps(rows, look);
      (r.Ok? <==> forall k :: 0 <= k < |cs| ==> cs[k].Ok?) &&
      (r.Err? ==> exists k :: 0 <= k < |cs| && cs[k] == Err(r.error) && forall l :: 0 <= l < k ==> cs[l].Ok?) &&
      (r.Ok? ==> WellFormed(r.value)) &&
      (r.Ok? ==> forall idx :: idx in r.value.m <==> exists k :: 0 <= k < |cs| && Yields(cs[k], idx)) &&
      (r.Ok? ==> forall k, idx :: (0 <= k < |cs| && Yields(cs[k], idx) && forall l :: 0 <= l < k ==> !Yields(cs[l], idx)) ==>
        idx in r.value.m && r.value.m[idx] == cs[k].value.value.1)
  {
    FirstWins(Steps(rows, look))
  }

  /** A pass that yields nothing changes nothing: dropping it gives the
      same dictionary, in the same order. */
  lemma {:induction false} SkippedStepChangesNothing<K(!new), V, E>(a: seq<Result<Option<(K, V)>, E>>, b: seq<Result<Option<(K, V)>, E>>)
    ensures FirstWins(a + [Ok(None)] + b) == FirstWins(a + b)
    decreases |b|
  {
    var long := a + [Ok(None)] + b;
    var short := a + b;
    if |b| == 0 {
      assert long[..|long| - 1] == a && long[|long| - 1] == Ok(None);
      assert short == a;
      SkipLast(long);
    } else {
      var b' := b[..|b| - 1];
      SkippedStepChangesNothing(a, b');
      assert long[..|long| - 1] == a + [Ok(None)] + b';
      assert short[..|short| - 1] == a + b';
      assert long[|long| - 1] == b[|b| - 1] == short[|short| - 1];
      SameLast(long, short);
    }
  }

  /** A last pass that yields nothing leaves the result as before it. */
  lemma SkipLast<K(!new), V, E>(cs: seq<Result<Option<(K, V)>, E>>)
    requires |cs| > 0 && cs[|cs| - 1] == Ok(None)
    ensures FirstWins(cs) == FirstWins(cs[..|cs| - 1])
  {
  }

  /** Two pass lists with the same last pass and equal results before it
      have equal results. */
  lemma SameLast<K(!new), V, E>(xs: seq<Result<Option<(K, V)>, E>>, ys: seq<Result<Option<(K, V)>, E>>)
    requires |xs| > 0 && |ys| > 0 && xs[|xs| - 1] == ys[|ys| - 1]
    requires FirstWins(xs[..|xs| - 1]) == FirstWins(ys[..|ys| - 1])
    ensures FirstWins(xs) == FirstWins(ys)
  {
  }

  /** A row with an empty `vpcId` (or naming a switch the controller does
      not know) changes nothing: dropping it from the file gives the same
      parameters, in the same order. */
  lemma IgnoredRowChangesNothing(a: seq<CsvRows.Row>, x: CsvRows.Row, b: seq<CsvRows.Row>, look: Lookup)
    requires Contribution(x, look) == Ok(None)
    ensures CsvToModuleParams(a + [x] + b, look) == CsvToModuleParams(a + b, look)
  {
    StepsAppend(a + [x], b, look);
    StepsAppend(a, [x], look);
    StepsAppend(a, b, look);
    assert Steps([x], look) == [Ok(None)];
    SkippedStepChangesNothing(Steps(a, look), Steps(b, look));
  }

  /** Each row's pass depends on that row only. */
  lemma StepsAppend(xs: seq<CsvRows.Row>, ys: seq<CsvRows.Row>, look: Lookup)
    ensures Steps(xs + ys, look) == Steps(xs, look) + Steps(ys, look)
  {
    var l := Steps(xs + ys, look);
    var r := Steps(xs, look) + Steps(ys, look);
    forall k | 0 <= k < |l| ensures l[k] == r[k] {
      if k < |xs| {
        assert (xs + ys)[k] == xs[k];
      } else {
        assert (xs + ys)[k] == ys[k - |xs|];
      }
    }
  }
}
