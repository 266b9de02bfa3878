/** The controller's records, as far as the tool reads them: switches,
    policies and interface configuration units. Fields whose absence the
    code distinguishes are optional. */
module Records {
  import opened Wrappers

  /** A switch as the inventory endpoints list it. */
  datatype SwitchRec = SwitchRec(
    serialNumber: string,
    switchRole: Option<string>,
    role: Option<string>,
    fabricName: Option<string>,
    logicalName: string,
    model: string)

  /** A switch policy as `/control/policies/switches` lists it. */
  datatype Policy = Policy(
    policyId: string,
    serialNumber: string,
    description: Option<string>,
    entityName: string,
    entityType: string,
    templateName: string,
    generatedConfig: string)

  /** One interface inside an interface configuration unit: its name, the
      switch serial it lives on, its template variables, and any other
      top-level fields (`interfaceType`, `fabricName`). */
  datatype Intf = Intf(ifName: string, serialNumber: string, nvPairs: map<string, string>, attrs: map<string, string>)

  /** An interface configuration unit as `/interface` returns it: a policy
      name, its interfaces, and other top-level fields
      (`interfaceType`, `skipResourceCheck`). */
  datatype Unit = Unit(policy: string, interfaces: seq<Intf>, attrs: map<string, string>)

  /** Interfaces are keyed by `(ifName, serialNumber)`. */
  type Key = (string, string)

  /** A Python dict with insertion order: the keys in order and the map. */
  datatype ODict<K, V> = ODict(keys: seq<K>, m: map<K, V>)

  predicate Distinct<T(==)>(s: seq<T>) {
    forall i, j :: 0 <= i < j < |s| ==> s[i] != s[j]
  }

  /** The keys list each map entry exactly once. */
  predicate WellFormed<K(==), V>(d: ODict<K, V>) {
    Distinct(d.keys) && (forall k :: k in d.m ==> k in d.keys) && (forall i :: 0 <= i < |d.keys| ==> d.keys[i] in d.m)
  }

  function EmptyDict<K, V>(): (r: ODict<K, V>)
    ensures WellFormed(r) && r.m == map[]
  {
    ODict([], map[])
  }

  /** `d[k] = v`: a new key goes to the end, an existing one keeps its
      place. */
  function Put<K(==), V>(d: ODict<K, V>, k: K, v: V): (r: ODict<K, V>)
    requires WellFormed(d)
    ensures WellFormed(r)
    ensures r.m == d.m[k := v]
    ensures k in d.m ==> r.keys == d.keys
    ensures k !in d.m ==> r.keys == d.keys + [k]
  {
    if k in d.m then ODict(d.keys, d.m[k := v]) else ODict(d.keys + [k], d.m[k := v])
  }

  /** The keys of `d` in order, minus `k`. */
  function Without<K(==)>(keys: seq<K>, k: K): (r: seq<K>)
    ensures forall i :: 0 <= i < |r| ==> r[i] in keys && r[i] != k
    ensures forall i :: 0 <= i < |keys| && keys[i] != k ==> keys[i] in r
    ensures Distinct(keys) ==> Distinct(r)
    ensures |r| <= |keys|
  {
    if |keys| == 0 then []
    else if keys[0] == k then Without(keys[1..], k)
    else [keys[0]] + Without(keys[1..], k)
  }

  /** `del d[k]`. */
  function Del<K(==), V>(d: ODict<K, V>, k: K): (r: ODict<K, V>)
    requires WellFormed(d)
    ensures WellFormed(r)
    ensures r.m == d.m - {k}
  {
    ODict(Without(d.keys, k), d.m - {k})
  }

  /** A `serial_numbers` argument: absent, one serial, or a list or tuple
      of serials. */
  datatype SerialArg = NoSerials | OneSerial(s: string) | SerialList(items: seq<string>)

  /** Python truthiness of the argument. */
  predicate Given(a: SerialArg) {
    match a
    case NoSerials => false
    case OneSerial(s) => |s| > 0
    case SerialList(items) => |items| > 0
  }
}
