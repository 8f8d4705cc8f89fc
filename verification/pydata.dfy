/**
  The Python values the helpers handle, and record types ("dataclasses") described by an
  explicit schema instead of runtime reflection.
*/
module PyData {
  import opened Wrappers

  datatype Primitive = Bool(b: bool) | Int(i: int) | Str(s: string)

  /** A Python value. `Null` is Python's None. Dict entries and record fields are kept in
      insertion order, as Python dicts and dataclass fields are. */
  datatype Value =
    | Null
    | Prim(p: Primitive)
    | List(items: seq<Value>)
    | Dict(entries: seq<(string, Value)>)
    | Instance(cls: string, fields: seq<(string, Value)>)

  /** The items of a dict, or the keyword arguments of a call, in order. */
  type Entries = seq<(string, Value)>

  /** The declared type of a field: another record type, or anything else. */
  datatype FieldType = Plain | Rec(schema: Schema)

  /** A declared field; `default` is None when the field is required. */
  datatype Field = Field(name: string, ty: FieldType, default: Option<Value>)

  /** A record type: its name, its fields in declaration order, and whether the class is
      decorated with `nested_dataclass` (otherwise it is a plain `@dataclass`). */
  datatype Schema = Schema(name: string, fields: seq<Field>, nested: bool)

  function Keys(d: Entries): (ks: seq<string>)
    ensures |ks| == |d|
    ensures forall i :: 0 <= i < |d| ==> ks[i] == d[i].0
  {
    if d == [] then [] else [d[0].0] + Keys(d[1..])
  }

  /** Python dicts and keyword arguments never repeat a key. */
  ghost predicate IsDict(d: Entries) {
    forall i, j :: 0 <= i < j < |d| ==> d[i].0 != d[j].0
  }

  /** `d.get(k)`. */
  function Lookup(d: Entries, k: string): (r: Option<Value>)
    ensures r.None? <==> k !in Keys(d)
    ensures r.Some? ==> (k, r.value) in d
  {
    if d == [] then None
    else if d[0].0 == k then Some(d[0].1)
    else Lookup(d[1..], k)
  }

  /** In a dict the entry at position `i` is the one `get` finds. */
  lemma LookupAt(d: Entries, i: nat)
    requires IsDict(d) && i < |d|
    ensures Lookup(d, d[i].0) == Some(d[i].1)
  {
  }

  function FieldNames(s: Schema): (ns: seq<string>)
    ensures |ns| == |s.fields|
    ensures forall j :: 0 <= j < |s.fields| ==> ns[j] == s.fields[j].name
  {
    seq(|s.fields|, j requires 0 <= j < |s.fields| => s.fields[j].name)
  }

  /** Python refuses a class body that declares the same field twice. */
  ghost predicate DistinctNames(s: Schema) {
    forall i, j :: 0 <= i < j < |s.fields| ==> s.fields[i].name != s.fields[j].name
  }

  /** Position of the first occurrence of `k` in `names`. */
  function IndexOf(names: seq<string>, k: string): (i: nat)
    requires k in names
    ensures i < |names| && names[i] == k && k !in names[..i]
  {
    if names[0] == k then 0 else 1 + IndexOf(names[1..], k)
  }
}
