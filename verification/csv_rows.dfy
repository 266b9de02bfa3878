/** `validate_csv_rows` of the flat generation's utilities: the check the
    vPC repair tool runs over its CSV rows before it contacts the
    controller. */
module CsvRows {
  import opened Wrappers
  import opened Errors
  import Text

  /** A CSV row as `csv.DictReader` yields it: column name to cell text. */
  type Row = map<string, string>

  const NoVpcRowsMsg := "no vpc rows found in csv"

  /** The message naming a row by its 1-based number. */
  function MissingMsg(rownum: nat): string {
    "key missing in row " + Text.NatToString(rownum)
  }

  /** Only rows with a `vpcId` column are checked. */
  predicate IsVpcRow(row: Row) {
    "vpcId" in row
  }

  /** `key not in row or not row[key]`. */
  predicate Missing(row: Row, key: string) {
    key !in row || row[key] == ""
  }

  /** A row passes when it is not a vPC row or has every required key
      filled in. */
  predicate RowValid(required: seq<string>, row: Row) {
    IsVpcRow(row) ==> forall k :: 0 <= k < |required| ==> !Missing(row, required[k])
  }

  /** The rows the check accepts: at least one vPC row, and every row
      valid. */
  predicate Accepts(required: seq<string>, rows: seq<Row>) {
    (exists i :: 0 <= i < |rows| && IsVpcRow(rows[i])) &&
    forall i :: 0 <= i < |rows| ==> RowValid(required, rows[i])
  }

  /** `validate_csv_rows`: the first vPC row missing a required key (the
      first such key) raises CSVInputError naming the row's number and the
      key; without any vPC row the error says so. */
  method ValidateCsvRows(required: seq<string>, rows: seq<Row>) returns (r: Result<(), Error>)
    ensures r.Ok? <==> Accepts(required, rows)
    ensures (forall i :: 0 <= i < |rows| ==> !IsVpcRow(rows[i])) ==> r == Err(CsvInput(NoVpcRowsMsg, None))
    ensures r.Err? && (exists i :: 0 <= i < |rows| && IsVpcRow(rows[i])) ==>
      exists i, k :: 0 <= i < |rows| && 0 <= k < |required| &&
        (forall j :: 0 <= j < i ==> RowValid(required, rows[j])) &&
        IsVpcRow(rows[i]) && Missing(rows[i], required[k]) &&
        (forall l :: 0 <= l < k ==> !Missing(rows[i], required[l])) &&
        r.error == CsvInput(MissingMsg(i + 1), Some(required[k]))
  {
    var vpcRow := false;
    var i := 0;
    while i < |rows|
      invariant 0 <= i <= |rows|
      invariant vpcRow <==> exists j :: 0 <= j < i && IsVpcRow(rows[j])
      invariant forall j :: 0 <= j < i ==> RowValid(required, rows[j])
    {
      if IsVpcRow(rows[i]) {
        vpcRow := true;
        var k := 0;
        while k < |required|
          invariant 0 <= k <= |required|
          invariant forall l :: 0 <= l < k ==> !Missing(rows[i], required[l])
        {
          if Missing(rows[i], required[k]) {
            return Err(CsvInput(MissingMsg(i + 1), Some(required[k])));
          }
          k := k + 1;
        }
      }
      i := i + 1;
    }
    if !vpcRow {
      return Err(CsvInput(NoVpcRowsMsg, None));
    }
    return Ok(());
  }

  /** Rows without a `vpcId` column never change the verdict, wherever they
      stand. */
  lemma OtherRowsIgnored(required: seq<string>, rows: seq<Row>, row: Row, p: nat)
    requires p <= |rows| && !IsVpcRow(row)
    ensures Accepts(required, rows[..p] + [row] + rows[p..]) <==> Accepts(required, rows)
  {
    var longer := rows[..p] + [row] + rows[p..];
    assert forall i :: 0 <= i < p ==> longer[i] == rows[i];
    assert forall i :: p < i < |longer| ==> longer[i] == rows[i - 1];
    if Accepts(required, rows) {
      var i :| 0 <= i < |rows| && IsVpcRow(rows[i]);
      if i < p {
        assert IsVpcRow(longer[i]);
      } else {
        assert IsVpcRow(longer[i + 1]);
      }
      forall j | 0 <= j < |longer| ensures RowValid(required, longer[j]) {
        if j < p {
        } else if j > p {
          assert RowValid(required, rows[j - 1]);
        }
      }
    }
    if Accepts(required, longer) {
      var i :| 0 <= i < |longer| && IsVpcRow(longer[i]);
      assert i != p;
      if i < p {
        assert IsVpcRow(rows[i]);
      } else {
        assert IsVpcRow(rows[i - 1]);
      }
      forall j | 0 <= j < |rows| ensures RowValid(required, rows[j]) {
        if j < p {
          assert RowValid(required, longer[j]);
        } else {
          assert RowValid(required, longer[j + 1]);
        }
      }
    }
  }
}
