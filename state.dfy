/** The parsed Terraform state the engine reads, and the JSON values it writes.

    A resource table maps a resource key (`<type>.<name>`) to a resource whose
    `primary` holds the instance id, the flat attribute dictionary (keys such
    as `name`, `network.#`, `network.0.uuid`, `security_groups.1`), `meta` and
    `tainted`. Dictionary iteration order drives the order of every list the
    engine builds, so each dictionary carries its key order explicitly. */
module State {
  import opened Util

  /** A JSON value of the inventory document. */
  datatype Value =
    | Str(s: string)
    | Bool(b: bool)
    | Int(i: int)
    | Null
    | List(items: seq<Value>)
    | Obj(fields: map<string, Value>)

  /** A flat attribute dictionary: values by key, and the keys in iteration order. */
  datatype Attrs = Attrs(keys: seq<string>, vals: map<string, string>)

  ghost predicate AttrsWF(a: Attrs) {
    Distinct(a.keys) && forall k :: k in a.keys <==> k in a.vals
  }

  datatype Primary = Primary(id: string, attributes: Attrs, meta: Value, tainted: bool)

  datatype Resource = Resource(primary: Primary)

  /** `modules[0].resources` of the state document. */
  datatype Table = Table(keys: seq<string>, res: map<string, Resource>)

  ghost predicate WellFormed(t: Table) {
    && Distinct(t.keys)
    && (forall k :: k in t.keys <==> k in t.res)
    && (forall k :: k in t.res ==> AttrsWF(t.res[k].primary.attributes))
  }

  function AttrsOf(t: Table, k: string): Attrs
    requires k in t.res
  {
    t.res[k].primary.attributes
  }

  /** Resource `k` exists and has attribute `a` (otherwise the source's
      attribute access raises). */
  predicate HasAttr(t: Table, k: string, a: string) {
    k in t.res && a in AttrsOf(t, k).vals
  }

  function Attr(t: Table, k: string, a: string): string
    requires HasAttr(t, k, a)
  {
    AttrsOf(t, k).vals[a]
  }

  /** Resource `k` has attribute `a` and its value is `v`. */
  predicate AttrIs(t: Table, k: string, a: string, v: string) {
    HasAttr(t, k, a) && Attr(t, k, a) == v
  }

  /** Every resource listed in `ks` has attribute `a`. */
  predicate AllHave(t: Table, ks: seq<string>, a: string) {
    forall k :: k in ks ==> HasAttr(t, k, a)
  }

  /** A dictionary of strings as a JSON object. */
  function StrMap(m: map<string, string>): (r: map<string, Value>)
    ensures r.Keys == m.Keys
    ensures forall k :: k in m ==> r[k] == Str(m[k])
  {
    map k | k in m :: Str(m[k])
  }
}
