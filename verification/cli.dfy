/** The command-line side of both generations: the options each parser
    defines, the serial numbers a run works on, and the uplink table read
    from the uplinks file. Parsing the command line and reading the files
    are left out; their results come in as values. */
module Cli {
  import opened Wrappers
  import opened Errors
  import Text

  // ---------------------------------------------------------------------
  // the parsed options

  /** The parsed options. An option the generation's parser does not
      define is `None`: reading it raises AttributeError. */
  datatype Args = Args(
    all: bool,
    serials: seq<string>,
    inputFile: string,
    excel: Option<string>,
    cdp: Option<bool>,
    mgmt: Option<bool>,
    description: Option<bool>,
    orphan: Option<bool>,
    plugins: Option<seq<string>>,
    uplinks: Option<string>,
    pickle: string,
    icpickle: string,
    switchDeploy: bool,
    backout: bool,
    timeout: int)

  /** The options the flat generation's parser defines: `-c`, `-m`, `-d`
      and `-o` select the predicates, and there is no plugin list and no
      uplinks-file option. */
  predicate FlatNamespace(a: Args) {
    a.cdp.Some? && a.mgmt.Some? && a.description.Some? && a.orphan.Some? &&
    a.plugins.None? && a.uplinks.None?
  }

  /** The options the hierarchy generation's parser defines: `-P` selects
      plugins and `-U` names the uplinks file; there is no `-c`, `-m`, `-d`
      or `-o`. */
  predicate HierNamespace(a: Args) {
    a.cdp.None? && a.mgmt.None? && a.description.None? && a.orphan.None? &&
    a.plugins.Some? && a.uplinks.Some?
  }

  /** Reading a flag the parser may not define. */
  function Flag(name: string, v: Option<bool>): (r: Result<bool, Error>)
    ensures v.None? <==> r == Err(AttributeError(name))
    ensures v.Some? ==> r == Ok(v.value)
  {
    if v.None? then Err(AttributeError(name)) else Ok(v.value)
  }

  /** Python truthiness of the optional Excel file name. */
  predicate ExcelGiven(a: Args) {
    a.excel.Some? && a.excel.value != ""
  }

  // ---------------------------------------------------------------------
  // serial numbers

  const NoSerialsMsg := "No Serial Numbers Provided!"

  /** `_get_serial_numbers`: nothing under `--all`; otherwise the serials
      given on the command line followed by those read from the serials
      file when one is named, and DCNMValueError when that leaves none.
      `fileRead` is the outcome of reading the file. */
  function GetSerialNumbers(a: Args, fileRead: Result<seq<string>, Error>): (r: Result<Option<seq<string>>, Error>)
    ensures a.all ==> r == Ok(None)
    ensures !a.all && a.inputFile == "" ==>
      r == (if a.serials == [] then Err(DcnmValue(NoSerialsMsg)) else Ok(Some(a.serials)))
    ensures !a.all && a.inputFile != "" && fileRead.Err? ==> r == Err(fileRead.error)
    ensures !a.all && a.inputFile != "" && fileRead.Ok? ==>
      r == (if a.serials + fileRead.value == [] then Err(DcnmValue(NoSerialsMsg))
            else Ok(Some(a.serials + fileRead.value)))
    ensures r.Ok? && r.value.Some? ==> |r.value.value| > 0
  {
    if a.all then Ok(None)
    else
      var fromFile :- if a.inputFile != "" then fileRead else Ok([]);
      var serials := a.serials + fromFile;
      assert a.serials + [] == a.serials;
      if serials == [] then Err(DcnmValue(NoSerialsMsg)) else Ok(Some(serials))
  }

  /** The command-line serials always come first, in the order given. */
  lemma SerialsKeepOrder(a: Args, fileRead: Result<seq<string>, Error>)
    requires GetSerialNumbers(a, fileRead).Ok? && !a.all
    ensures var s := GetSerialNumbers(a, fileRead).value;
      s.Some? && s.value[..|a.serials|] == a.serials &&
      (a.inputFile != "" ==> s.value[|a.serials|..] == fileRead.value)
  {
  }

  // ---------------------------------------------------------------------
  // int()

  function DigitValue(c: char): int {
    c as int - '0' as int
  }

  predicate AllDigits(s: string) {
    forall i :: 0 <= i < |s| ==> '0' <= s[i] <= '9'
  }

  /** The value of a string of decimal digits. */
  function DigitsValue(s: string): (n: nat)
    requires AllDigits(s)
    decreases |s|
  {
    if |s| == 0 then 0 else DigitsValue(s[..|s| - 1]) * 10 + DigitValue(s[|s| - 1])
  }

  /** Python's `int(s)` for an optional sign followed by decimal digits;
      anything else is a ValueError. */
  function ParseInt(s: string): (r: Result<int, Error>)
    ensures r.Err? ==> r.error == ValueError(IntLiteralMsg(s))
    ensures r.Ok? <==> (|s| > 0 && AllDigits(s)) ||
                       (|s| > 1 && (s[0] == '-' || s[0] == '+') && AllDigits(s[1..]))
    ensures |s| > 0 && AllDigits(s) ==> r == Ok(DigitsValue(s))
  {
    if |s| > 0 && AllDigits(s) then Ok(DigitsValue(s))
    else if |s| > 1 && s[0] == '-' && AllDigits(s[1..]) then Ok(0 - DigitsValue(s[1..]))
    else if |s| > 1 && s[0] == '+' && AllDigits(s[1..]) then Ok(DigitsValue(s[1..]))
    else Err(ValueError(IntLiteralMsg(s)))
  }

  lemma DigitCharValue(d: nat)
    requires d < 10
    ensures DigitValue(Text.DigitChar(d)) == d
  {
  }

  /** Reading back the decimal notation of a natural number gives it. */
  lemma {:induction false} NatToStringValue(n: nat)
    ensures AllDigits(Text.NatToString(n))
    ensures DigitsValue(Text.NatToString(n)) == n
    decreases n
  {
    var s := Text.NatToString(n);
    if n < 10 {
      DigitCharValue(n);
      assert s[..0] == [];
    } else {
      NatToStringValue(n / 10);
      DigitCharValue(n % 10);
      assert s[..|s| - 1] == Text.NatToString(n / 10);
    }
  }

  /** `int(str(i)) == i`. */
  lemma ParseIntToString(i: int)
    ensures ParseInt(Text.IntToString(i)) == Ok(i)
  {
    if i >= 0 {
      NatToStringValue(i);
    } else {
      NatToStringValue(-i);
      var s := Text.IntToString(i);
      assert s[1..] == Text.NatToString(-i);
      assert !AllDigits(s) by { assert s[0] == '-'; }
    }
  }

  // ---------------------------------------------------------------------
  // uplinks

  /** `f'Ethernet{prefix}/{i}'`. */
  function UplinkName(prefix: string, i: int): string {
    "Ethernet" + prefix + "/" + Text.IntToString(i)
  }

  /** `[f'Ethernet{prefix}/{i}' for i in range(a, b + 1)]`. */
  function Range(prefix: string, a: int, b: int): (r: seq<string>)
    ensures |r| == if b < a then 0 else b - a + 1
    ensures forall k :: 0 <= k < |r| ==> r[k] == UplinkName(prefix, a + k)
  {
    if b < a then [] else seq(b - a + 1, k requires 0 <= k < b - a + 1 => UplinkName(prefix, a + k))
  }

  /** `int(x.split('/')[1])`. */
  function PortOf(x: string): (r: Result<int, Error>)
    ensures |Text.Split(x, '/')| < 2 ==> r == Err(IndexError(ListIndexMsg))
    ensures |Text.Split(x, '/')| >= 2 ==> r == ParseInt(Text.Split(x, '/')[1])
  {
    var parts := Text.Split(x, '/');
    if |parts| < 2 then Err(IndexError(ListIndexMsg)) else ParseInt(parts[1])
  }

  /** The uplinks of one model: the first and last interface of the
      entry, say `1/49` and `1/54`, give every Ethernet interface between
      them inclusive, named with the first one's module. A missing first or
      last entry, or one without a `/`, is an IndexError; a port that is not
      a number a ValueError. */
  function ModelUplinks(ends: seq<string>): (r: Result<seq<string>, Error>)
    ensures |ends| < 2 ==> r == Err(IndexError(ListIndexMsg))
    ensures |ends| >= 2 && PortOf(ends[0]).Err? ==> r == Err(PortOf(ends[0]).error)
    ensures |ends| >= 2 && PortOf(ends[0]).Ok? && PortOf(ends[1]).Err? ==> r == Err(PortOf(ends[1]).error)
    ensures r.Ok? ==> (|ends| >= 2 && PortOf(ends[0]).Ok? && PortOf(ends[1]).Ok? &&
      r.value == Range(Text.Split(ends[0], '/')[0], PortOf(ends[0]).value, PortOf(ends[1]).value))
  {
    if |ends| < 2 then Err(IndexError(ListIndexMsg))
    else
      var a :- PortOf(ends[0]);
      var b :- PortOf(ends[1]);
      Ok(Range(Text.Split(ends[0], '/')[0], a, b))
  }

  /** `_get_uplinks`: the table of every model in the uplinks file, in file
      order. `loaded` is the file as loaded, each model with its list of
      interface ends. */
  function GetUplinks(loaded: seq<(string, seq<string>)>): (r: Result<seq<(string, seq<string>)>, Error>)
    ensures r.Ok? <==> forall k :: 0 <= k < |loaded| ==> ModelUplinks(loaded[k].1).Ok?
    ensures r.Ok? ==> |r.value| == |loaded|
    ensures r.Ok? ==> forall k :: 0 <= k < |loaded| ==> r.value[k] == (loaded[k].0, ModelUplinks(loaded[k].1).value)
    ensures r.Err? ==> exists k :: 0 <= k < |loaded| && ModelUplinks(loaded[k].1) == Err(r.error) &&
                                   forall j :: 0 <= j < k ==> ModelUplinks(loaded[j].1).Ok?
    decreases |loaded|
  {
    if |loaded| == 0 then Ok([])
    else
      var first := ModelUplinks(loaded[0].1);
      if first.Err? then Err(first.error)
      else
        var rest := GetUplinks(loaded[1..]);
        if rest.Err? then
          assert exists k :: 1 <= k < |loaded| && ModelUplinks(loaded[k].1) == Err(rest.error) &&
                             forall j :: 0 <= j < k ==> ModelUplinks(loaded[j].1).Ok? by {
            var j :| 0 <= j < |loaded[1..]| && ModelUplinks(loaded[1..][j].1) == Err(rest.error) &&
                     forall l :: 0 <= l < j ==> ModelUplinks(loaded[1..][l].1).Ok?;
            assert loaded[j + 1] == loaded[1..][j];
            forall l | 0 <= l < j + 1 ensures ModelUplinks(loaded[l].1).Ok? {
              if l > 0 {
                assert loaded[l] == loaded[1..][l - 1];
              }
            }
          }
          Err(rest.error)
        else
          assert forall k :: 1 <= k < |loaded| ==> loaded[k] == loaded[1..][k - 1];
          Ok([(loaded[0].0, first.value)] + rest.value)
  }

  /** An expanded uplink name splits back into its module and its port, and
      the port reads back as the number it was built from. */
  lemma UplinkNameParses(prefix: string, i: int)
    requires Text.NoChar(prefix, '/')
    ensures Text.Split(UplinkName(prefix, i), '/') == ["Ethernet" + prefix, Text.IntToString(i)]
    ensures PortOf(UplinkName(prefix, i)) == Ok(i)
  {
    var head := "Ethernet" + prefix;
    var n := Text.IntToString(i);
    assert Text.NoChar(head, '/');
    assert Text.NoChar(n, '/') by {
      if i >= 0 {
      } else {
        assert n == "-" + Text.NatToString(-i);
      }
    }
    assert UplinkName(prefix, i) == head + ['/'] + n;
    Text.SplitTwo(head, n, '/');
    ParseIntToString(i);
  }

  /** Expanding the ends `m/a` and `m/b` lists ports `a` to `b` of module
      `m`, each of which reads back as its own port number. */
  lemma ModelUplinksPorts(m: string, a: int, b: int)
    requires Text.NoChar(m, '/')
    ensures var r := ModelUplinks([m + "/" + Text.IntToString(a), m + "/" + Text.IntToString(b)]);
      r.Ok? && |r.value| == (if b < a then 0 else b - a + 1) &&
      forall k :: 0 <= k < |r.value| ==> PortOf(r.value[k]) == Ok(a + k)
  {
    var ends := [m + "/" + Text.IntToString(a), m + "/" + Text.IntToString(b)];
    PortEnd(m, a);
    PortEnd(m, b);
    assert ModelUplinks(ends) == Ok(Range(m, a, b));
    var r := ModelUplinks(ends);
    forall k | 0 <= k < |r.value| ensures PortOf(r.value[k]) == Ok(a + k) {
      UplinkNameParses(m, a + k);
    }
  }

  /** `m/i` splits into `m` and the notation of `i`, which reads back. */
  lemma PortEnd(m: string, i: int)
    requires Text.NoChar(m, '/')
    ensures Text.Split(m + "/" + Text.IntToString(i), '/')[0] == m
    ensures PortOf(m + "/" + Text.IntToString(i)) == Ok(i)
  {
    var n := Text.IntToString(i);
    assert Text.NoChar(n, '/') by {
      if i < 0 {
        assert n == "-" + Text.NatToString(-i);
      }
    }
    assert m + "/" + n == m + ['/'] + n;
    Text.SplitTwo(m, n, '/');
    ParseIntToString(i);
  }
}
