/** Reading and writing the template variables of an interface
    configuration unit: every predicate of both generations works on
    `unit['interfaces'][0]['nvPairs']`. */
module Units {
  import opened Wrappers
  import opened Errors
  import opened Records

  /** `unit['interfaces'][0]['nvPairs']`. */
  function FirstNvPairs(u: Unit): (r: Result<map<string, string>, Error>)
    ensures r.Ok? <==> |u.interfaces| > 0
    ensures r.Ok? ==> r.value == u.interfaces[0].nvPairs
    ensures r.Err? ==> r.error == IndexError(ListIndexMsg)
  {
    if |u.interfaces| == 0 then Err(IndexError(ListIndexMsg)) else Ok(u.interfaces[0].nvPairs)
  }

  /** `unit['interfaces'][0]['nvPairs'][name]`. */
  function NvGet(u: Unit, name: string): (r: Result<string, Error>)
    ensures r.Ok? <==> |u.interfaces| > 0 && name in u.interfaces[0].nvPairs
    ensures r.Ok? ==> r.value == u.interfaces[0].nvPairs[name]
    ensures |u.interfaces| == 0 ==> r == Err(IndexError(ListIndexMsg))
    ensures |u.interfaces| > 0 && name !in u.interfaces[0].nvPairs ==> r == Err(KeyError(name))
  {
    var nv :- FirstNvPairs(u);
    if name in nv then Ok(nv[name]) else Err(KeyError(name))
  }

  /** `unit['interfaces'][0]['nvPairs'][name] = v`: nothing else in the
      unit changes. */
  function SetNv(u: Unit, name: string, v: string): (r: Unit)
    requires |u.interfaces| > 0
    ensures r.policy == u.policy && r.attrs == u.attrs
    ensures |r.interfaces| == |u.interfaces| && r.interfaces[1..] == u.interfaces[1..]
    ensures r.interfaces[0].nvPairs == u.interfaces[0].nvPairs[name := v]
    ensures r.interfaces[0].ifName == u.interfaces[0].ifName
    ensures r.interfaces[0].serialNumber == u.interfaces[0].serialNumber
    ensures r.interfaces[0].attrs == u.interfaces[0].attrs
  {
    var i := u.interfaces[0];
    u.(interfaces := [i.(nvPairs := i.nvPairs[name := v])] + u.interfaces[1..])
  }

  /** Writing back the value just read leaves the unit as it was. */
  lemma SetNvSame(u: Unit, name: string)
    requires |u.interfaces| > 0 && name in u.interfaces[0].nvPairs
    ensures SetNv(u, name, u.interfaces[0].nvPairs[name]) == u
  {
    var r := SetNv(u, name, u.interfaces[0].nvPairs[name]);
    assert r.interfaces[0] == u.interfaces[0];
    assert r.interfaces == [r.interfaces[0]] + r.interfaces[1..];
    assert u.interfaces == [u.interfaces[0]] + u.interfaces[1..];
  }

  /** A second write to the same variable replaces the first. */
  lemma SetNvTwice(u: Unit, name: string, v: string, w: string)
    requires |u.interfaces| > 0
    ensures SetNv(SetNv(u, name, v), name, w) == SetNv(u, name, w)
  {
    var a := SetNv(SetNv(u, name, v), name, w);
    var b := SetNv(u, name, w);
    assert a.interfaces[0] == b.interfaces[0];
    assert a.interfaces == [a.interfaces[0]] + a.interfaces[1..];
    assert b.interfaces == [b.interfaces[0]] + b.interfaces[1..];
  }

  /** The first interface's name, `unit['interfaces'][0]['ifName']`. */
  function FirstIfName(u: Unit): (r: Result<string, Error>)
    ensures r.Ok? <==> |u.interfaces| > 0
    ensures r.Ok? ==> r.value == u.interfaces[0].ifName
    ensures r.Err? ==> r.error == IndexError(ListIndexMsg)
  {
    if |u.interfaces| == 0 then Err(IndexError(ListIndexMsg)) else Ok(u.interfaces[0].ifName)
  }
}
