/**
  `ExtraDataclass`: the mixin that builds a record from a dict, ignoring keys the record
  does not declare (`from_dict`), builds a list of records from a list of dicts
  (`from_list`), and turns a record back into a dict without its None-valued fields
  (`to_dict`).
*/
module Extra {
  import opened Wrappers
  import opened PyData
  import opened Dataclasses
  import opened Nested

  /** `d[k] = v` on a Python dict: replaces the value of an existing key, else appends. */
  function Put(d: Entries, k: string, v: Value): (r: Entries)
    ensures k !in Keys(d) ==> r == d + [(k, v)]
    ensures k in Keys(d) ==> Keys(r) == Keys(d) && Lookup(r, k) == Some(v)
    ensures forall k' :: k' != k ==> Lookup(r, k') == Lookup(d, k')
  {
    if d == [] then [(k, v)]
    else if d[0].0 == k then [(k, v)] + d[1..]
    else [d[0]] + Put(d[1..], k, v)
  }

  /** `cl_fields`: the set of declared field names. */
  function FieldSet(s: Schema): (ns: set<string>)
    ensures forall k :: k in ns <==> k in FieldNames(s)
  {
    set j | 0 <= j < |s.fields| :: s.fields[j].name
  }

  /** The entries of `data` whose key is in `names`, in their original order. */
  function Restrict(data: Entries, names: set<string>): Entries
  {
    if data == [] then []
    else if data[|data| - 1].0 in names then Restrict(data[..|data| - 1], names) + [data[|data| - 1]]
    else Restrict(data[..|data| - 1], names)
  }

  /** The filtered dict holds exactly the input's keys that are field names, with the
      input's values, and is still a dict. */
  lemma RestrictSpec(data: Entries, names: set<string>, k: string)
    requires IsDict(data)
    ensures IsDict(Restrict(data, names))
    ensures k in Keys(Restrict(data, names)) <==> k in Keys(data) && k in names
    ensures k in names ==> Lookup(Restrict(data, names), k) == Lookup(data, k)
  {
    RestrictIsDict(data, names);
    RestrictKeys(data, names, k);
    if k in names {
      RestrictLookup(data, names, k);
    }
  }

  lemma KeysAppend(d: Entries, e: (string, Value))
    ensures Keys(d + [e]) == Keys(d) + [e.0]
  {
  }

  /** Dropping the last entry of a dict leaves a dict without that key. */
  lemma InitOfDict(data: Entries)
    requires IsDict(data) && data != []
    ensures IsDict(data[..|data| - 1])
    ensures data[|data| - 1].0 !in Keys(data[..|data| - 1])
  {
  }

  lemma {:induction false} RestrictKeys(data: Entries, names: set<string>, k: string)
    ensures k in Keys(Restrict(data, names)) <==> k in Keys(data) && k in names
    decreases |data|
  {
    if data != [] {
      var init, last := data[..|data| - 1], data[|data| - 1];
      assert data == init + [last];
      RestrictKeys(init, names, k);
      KeysAppend(init, last);
      KeysAppend(Restrict(init, names), last);
    }
  }

  lemma {:induction false} RestrictIsDict(data: Entries, names: set<string>)
    requires IsDict(data)
    ensures IsDict(Restrict(data, names))
    decreases |data|
  {
    if data != [] {
      var init, last := data[..|data| - 1], data[|data| - 1];
      InitOfDict(data);
      RestrictIsDict(init, names);
      if last.0 in names {
        var r := Restrict(init, names);
        RestrictKeys(init, names, last.0);
        forall i | 0 <= i < |r| ensures r[i].0 != last.0 {
          assert Keys(r)[i] == r[i].0;
        }
      }
    }
  }

  lemma {:induction false} RestrictLookup(data: Entries, names: set<string>, k: string)
    requires IsDict(data) && k in names
    ensures Lookup(Restrict(data, names), k) == Lookup(data, k)
    decreases |data|
  {
    if data != [] {
      var init, last := data[..|data| - 1], data[|data| - 1];
      assert data == init + [last];
      InitOfDict(data);
      RestrictLookup(init, names, k);
      LookupAppend(init, last, k);
      if last.0 in names {
        RestrictKeys(init, names, last.0);
        RestrictKeys(init, names, k);
        LookupAppend(Restrict(init, names), last, k);
      }
    }
  }

  /** `get` on a dict extended by one new key. */
  lemma {:induction false} LookupAppend(d: Entries, e: (string, Value), k: string)
    requires e.0 !in Keys(d)
    ensures Lookup(d + [e], k) == if k in Keys(d) then Lookup(d, k) else if k == e.0 then Some(e.1) else None
  {
    if d != [] {
      assert (d + [e])[1..] == d[1..] + [e];
      assert Keys(d) == [d[0].0] + Keys(d[1..]);
      LookupAppend(d[1..], e, k);
    }
  }

  /** `cls.from_dict(data)`: the class called with the filtered dict as keyword arguments. */
  function FromDictResult(s: Schema, data: Entries): Result<Value, Error>
  {
    Instantiate(s, [], Restrict(data, FieldSet(s)))
  }

  /** `from_dict` as the source writes it: copy the entries whose key is a field name into
      a new dict, then call the class on it. */
  method FromDict(s: Schema, data: Entries) returns (r: Result<Value, Error>)
    requires IsDict(data)
    ensures r == FromDictResult(s, data)
  {
    var clFields := FieldSet(s);
    var filtered: Entries := [];
    for i := 0 to |data|
      invariant filtered == Restrict(data[..i], clFields)
    {
      var (k, v) := data[i];
      assert data[..i + 1] == data[..i] + [data[i]];
      if k in clFields {
        assert IsDict(data[..i]) by {
          assert forall a, b :: 0 <= a < b < i ==> data[..i][a] == data[a] && data[..i][b] == data[b];
        }
        RestrictSpec(data[..i], clFields, k);
        filtered := Put(filtered, k, v);
      }
    }
    assert data[..|data|] == data;
    r := Call(s, [], filtered);
  }

  /** Keys outside the declared fields never reach the class: appending them to the input
      changes nothing. */
  lemma {:induction false} ExtraKeysIgnored(s: Schema, data: Entries, extra: Entries)
    requires forall k :: k in Keys(extra) ==> k !in FieldNames(s)
    ensures FromDictResult(s, data + extra) == FromDictResult(s, data)
    decreases |extra|
  {
    if extra != [] {
      var init := extra[..|extra| - 1];
      assert (data + extra)[..|data + extra| - 1] == data + init;
      assert Keys(extra) == Keys(init) + [extra[|extra| - 1].0];
      ExtraKeysIgnored(s, data, init);
    } else {
      assert data + extra == data;
    }
  }

  /** When `from_dict` raises: exactly when a required field is absent from the input, or,
      for a `nested_dataclass`, when the record declares a field `self` that the input
      supplies (it clashes with the wrapper's own `self`) or building a nested record
      raises. For a plain dataclass the error is always the missing-arguments one, never one
      about an extra key. */
  lemma FromDictOutcome(s: Schema, data: Entries)
    requires IsDict(data)
    ensures FromDictResult(s, data).Failure? <==>
      || (s.nested && (("self" in FieldNames(s) && "self" in Keys(data)) || Promoted(s, Restrict(data, FieldSet(s))).Failure?))
      || !RequiredGiven(s, data)
    ensures !s.nested && FromDictResult(s, data).Failure? ==> FromDictResult(s, data).error.MissingArguments?
  {
    var f := Restrict(data, FieldSet(s));
    RestrictSpec(data, FieldSet(s), "self");
    if s.nested && "self" in Keys(f) {
      assert FromDictResult(s, data) == NestedInitResult(s, [], f);
    } else if s.nested && Promoted(s, f).Success? {
      PromotedKeys(s, f);
      InitOnFiltered(s, data, Promoted(s, f).value);
      assert FromDictResult(s, data) == NestedInitResult(s, [], f) == Init(s, [], Promoted(s, f).value);
    } else if !s.nested {
      InitOnFiltered(s, data, f);
      assert FromDictResult(s, data) == Init(s, [], f);
    } else {
      assert FromDictResult(s, data) == NestedInitResult(s, [], f);
    }
  }

  /** Every field without a default has a key in `data`. */
  ghost predicate RequiredGiven(s: Schema, data: Entries) {
    forall j :: 0 <= j < |s.fields| && s.fields[j].default.None? ==> s.fields[j].name in Keys(data)
  }

  /** The generated `__init__` called with the filtered keys (possibly promoted) fails only
      for a missing required field. */
  lemma InitOnFiltered(s: Schema, data: Entries, kw: Entries)
    requires IsDict(data)
    requires Keys(kw) == Keys(Restrict(data, FieldSet(s)))
    ensures Init(s, [], kw).Success? <==> RequiredGiven(s, data)
    ensures Init(s, [], kw).Failure? ==> Init(s, [], kw).error.MissingArguments?
  {
    var f := Restrict(data, FieldSet(s));
    forall k | k in Keys(kw) ensures k in FieldNames(s) {
      RestrictSpec(data, FieldSet(s), k);
    }
    forall j | 0 <= j < |s.fields| ensures s.fields[j].name in Keys(kw) <==> s.fields[j].name in Keys(data) {
      RestrictSpec(data, FieldSet(s), s.fields[j].name);
    }
    BadKeywordNone(FieldNames(s), 0, kw);
    InitOutcome(s, [], kw);
  }

  /** What a successful `from_dict` of a plain dataclass holds: every declared field, in
      order, with the input's value for it, or its default when the input lacks it. */
  lemma FromDictFields(s: Schema, data: Entries)
    requires IsDict(data) && !s.nested
    requires FromDictResult(s, data).Success?
    ensures var r := FromDictResult(s, data).value;
      && r.Instance? && r.cls == s.name && |r.fields| == |s.fields|
      && forall j :: 0 <= j < |s.fields| ==>
           && r.fields[j].0 == s.fields[j].name
           && Some(r.fields[j].1) == (if s.fields[j].name in Keys(data) then Lookup(data, s.fields[j].name) else s.fields[j].default)
  {
    var f := Restrict(data, FieldSet(s));
    InitInstance(s, [], f);
    forall j | 0 <= j < |s.fields|
      ensures s.fields[j].name in Keys(f) <==> s.fields[j].name in Keys(data)
      ensures Lookup(f, s.fields[j].name) == Lookup(data, s.fields[j].name)
    {
      RestrictSpec(data, FieldSet(s), s.fields[j].name);
    }
  }

  /** `cls.from_list(ent_list)`: `from_dict` of each dict, in order; the first that raises
      stops the list comprehension. */
  function FromList(s: Schema, ents: seq<Entries>): (r: Result<seq<Value>, Error>)
    ensures r.Success? ==>
      |r.value| == |ents| && forall i :: 0 <= i < |ents| ==> FromDictResult(s, ents[i]) == Success(r.value[i])
    ensures r.Failure? ==>
      exists i :: 0 <= i < |ents| && FromDictResult(s, ents[i]) == Failure(r.error)
        && forall i' :: 0 <= i' < i ==> FromDictResult(s, ents[i']).Success?
    ensures r.Success? <==> forall i :: 0 <= i < |ents| ==> FromDictResult(s, ents[i]).Success?
  {
    if ents == [] then Success([])
    else match FromDictResult(s, ents[0])
      case Failure(e) => Failure(e)
      case Success(x) =>
        match FromList(s, ents[1..])
        case Failure(e) =>
          assert forall i :: 1 <= i < |ents| ==> ents[1..][i - 1] == ents[i];
          Failure(e)
        case Success(xs) =>
          assert forall i :: 1 <= i < |ents| ==> ents[1..][i - 1] == ents[i];
          Success([x] + xs)
  }

  /** No record survives conversion: it becomes a dict. */
  predicate NoInstance(v: Value)
  {
    match v
    case Instance(_, _) => false
    case List(xs) => forall i :: 0 <= i < |xs| ==> NoInstance(xs[i])
    case Dict(es) => forall i :: 0 <= i < |es| ==> NoInstance(es[i].1)
    case _ => true
  }

  /** The `dict_factory` of `to_dict`: `{k: v for k, v in d if v is not None}`. */
  function DropNull(es: Entries): (r: Entries)
    ensures forall i :: 0 <= i < |r| ==> r[i].1 != Null
    ensures forall e :: e in r ==> e in es
  {
    if es == [] then []
    else if es[0].1 == Null then DropNull(es[1..])
    else [es[0]] + DropNull(es[1..])
  }

  /** `asdict`'s recursive conversion with that factory: records become dicts without their
      None fields; lists and dicts are converted element by element; anything else is
      copied. Only None itself converts to None, and no record is left in the result. */
  function AsDict(v: Value): (r: Value)
    ensures r == Null <==> v == Null
    ensures NoInstance(r)
    decreases v
  {
    match v
    case Instance(_, fs) =>
      var conv := seq(|fs|, i requires 0 <= i < |fs| => (fs[i].0, AsDict(fs[i].1)));
      assert forall e :: e in conv ==> NoInstance(e.1);
      Dict(DropNull(conv))
    case List(xs) => List(seq(|xs|, i requires 0 <= i < |xs| => AsDict(xs[i])))
    case Dict(es) => Dict(seq(|es|, i requires 0 <= i < |es| => (es[i].0, AsDict(es[i].1))))
    case _ => v
  }

  /** `self.to_dict()`: no key of the result maps to None, and no record is left in it. */
  function ToDict(self: Value): (r: Entries)
    requires self.Instance?
    ensures forall i :: 0 <= i < |r| ==> r[i].1 != Null && NoInstance(r[i].1)
  {
    AsDict(self).entries
  }

  /** Dropping None entries keeps every other entry, so `get` answers as before except for
      the keys whose value was None. */
  lemma {:induction false} DropNullLookup(es: Entries, k: string)
    requires IsDict(es)
    ensures IsDict(DropNull(es))
    ensures Lookup(DropNull(es), k) == if Lookup(es, k) == Some(Null) then None else Lookup(es, k)
  {
    DropNullIsDict(es);
    if es != [] {
      var rest := es[1..];
      TailIsDict(es);
      DropNullLookup(rest, k);
      if es[0].1 != Null {
        assert DropNull(es) == [es[0]] + DropNull(rest);
        assert ([es[0]] + DropNull(rest))[1..] == DropNull(rest);
      } else if es[0].0 == k {
        HeadNotInTail(es);
      }
    }
  }

  lemma TailIsDict(es: Entries)
    requires IsDict(es) && es != []
    ensures IsDict(es[1..])
  {
  }

  lemma HeadNotInTail(es: Entries)
    requires IsDict(es) && es != []
    ensures es[0].0 !in Keys(es[1..])
  {
  }

  lemma {:induction false} DropNullIsDict(es: Entries)
    requires IsDict(es)
    ensures IsDict(DropNull(es))
  {
    if es != [] {
      var rest := es[1..];
      TailIsDict(es);
      DropNullIsDict(rest);
      var r := DropNull(rest);
      if es[0].1 != Null {
        forall e | e in r ensures e.0 != es[0].0 {
          var i :| 0 <= i < |rest| && rest[i] == e;
          assert es[i + 1] == e;
        }
        var d := [es[0]] + r;
        forall a, b | 0 <= a < b < |d| ensures d[a].0 != d[b].0 {
          assert d[b] == r[b - 1] && r[b - 1] in r;
          if a > 0 {
            assert d[a] == r[a - 1];
          }
        }
      }
    }
  }

  /** The fields `to_dict` keeps: a field is in the result exactly when its value is not
      None, and then it holds its converted value; falsy values such as 0, "" and [] are
      kept. */
  lemma ToDictFields(self: Value, k: string)
    requires self.Instance? && IsDict(self.fields)
    ensures var f := Lookup(self.fields, k);
      && (k in Keys(ToDict(self)) <==> f.Some? && f.value != Null)
      && (f.Some? && f.value != Null ==> Lookup(ToDict(self), k) == Some(AsDict(f.value)))
  {
    var fs := self.fields;
    var conv := seq(|fs|, i requires 0 <= i < |fs| => (fs[i].0, AsDict(fs[i].1)));
    assert IsDict(conv);
    ConvertedLookup(fs, conv, k);
    DropNullLookup(conv, k);
  }

  /** Converting each value of a dict, keys unchanged, converts what `get` finds. */
  lemma {:induction false} ConvertedLookup(fs: Entries, conv: Entries, k: string)
    requires |conv| == |fs|
    requires forall i :: 0 <= i < |fs| ==> conv[i] == (fs[i].0, AsDict(fs[i].1))
    ensures Lookup(conv, k) == match Lookup(fs, k) case Some(v) => Some(AsDict(v)) case None => None
  {
    if fs != [] {
      ConvertedLookup(fs[1..], conv[1..], k);
    }
  }

  /** A value whose plain lists and dicts hold no None (records may have None fields). */
  ghost predicate CollectionsNullFree(v: Value)
  {
    match v
    case List(xs) => forall i :: 0 <= i < |xs| ==> xs[i] != Null && CollectionsNullFree(xs[i])
    case Dict(es) => forall i :: 0 <= i < |es| ==> es[i].1 != Null && CollectionsNullFree(es[i].1)
    case Instance(_, fs) => forall i :: 0 <= i < |fs| ==> CollectionsNullFree(fs[i].1)
    case _ => true
  }

  /** A value with no None anywhere inside it. */
  ghost predicate NullFree(v: Value)
  {
    match v
    case List(xs) => forall i :: 0 <= i < |xs| ==> xs[i] != Null && NullFree(xs[i])
    case Dict(es) => forall i :: 0 <= i < |es| ==> es[i].1 != Null && NullFree(es[i].1)
    case Instance(_, fs) => forall i :: 0 <= i < |fs| ==> fs[i].1 != Null && NullFree(fs[i].1)
    case _ => true
  }

  /** `to_dict` drops None at every record level, including records nested in fields, lists
      and dicts: unless a plain list or dict of the input holds None itself, no None is left
      anywhere in the result. */
  lemma {:induction false} AsDictNullFree(v: Value)
    requires CollectionsNullFree(v)
    ensures NullFree(AsDict(v))
    decreases v
  {
    match v
    case Instance(_, fs) =>
      var conv := seq(|fs|, i requires 0 <= i < |fs| => (fs[i].0, AsDict(fs[i].1)));
      forall i | 0 <= i < |fs| ensures NullFree(conv[i].1) {
        AsDictNullFree(fs[i].1);
      }
      var r := DropNull(conv);
      forall i | 0 <= i < |r| ensures NullFree(r[i].1) {
        assert r[i] in conv;
        var i' :| 0 <= i' < |conv| && conv[i'] == r[i];
      }
    case List(xs) =>
      forall i | 0 <= i < |xs| ensures NullFree(AsDict(xs[i])) {
        AsDictNullFree(xs[i]);
      }
    case Dict(es) =>
      forall i | 0 <= i < |es| ensures NullFree(AsDict(es[i].1)) {
        AsDictNullFree(es[i].1);
      }
    case _ =>
  }

  /** A value holding no record converts to itself. */
  lemma {:induction false} AsDictPlain(v: Value)
    requires NoInstance(v)
    ensures AsDict(v) == v
    decreases v
  {
    match v
    case List(xs) =>
      forall i | 0 <= i < |xs| ensures AsDict(xs[i]) == xs[i] {
        AsDictPlain(xs[i]);
      }
      assert AsDict(v).items == xs;
    case Dict(es) =>
      forall i | 0 <= i < |es| ensures AsDict(es[i].1) == es[i].1 {
        AsDictPlain(es[i].1);
      }
      assert AsDict(v).entries == es;
    case _ =>
  }

  /** Round trip: for a plain dataclass whose field values hold no records and whose None
      fields default to None, `from_dict(x.to_dict())` rebuilds `x`. */
  lemma ToDictFromDict(s: Schema, self: Value)
    requires !s.nested && DistinctNames(s)
    requires self.Instance? && self.cls == s.name && |self.fields| == |s.fields|
    requires forall j :: 0 <= j < |s.fields| ==> self.fields[j].0 == s.fields[j].name && NoInstance(self.fields[j].1)
    requires forall j :: 0 <= j < |s.fields| && self.fields[j].1 == Null ==> s.fields[j].default == Some(Null)
    ensures FromDictResult(s, ToDict(self)) == Success(self)
  {
    var fs := self.fields;
    var d := ToDict(self);
    PlainToDict(self);
    assert IsDict(fs);
    DropNullIsDict(fs);
    forall e | e in d ensures e.0 in FieldSet(s) {
      var i :| 0 <= i < |fs| && fs[i] == e;
      assert e.0 == FieldNames(s)[i];
    }
    RestrictAll(d, FieldSet(s));
    forall j | 0 <= j < |s.fields|
      ensures Lookup(d, s.fields[j].name) == if fs[j].1 == Null then None else Some(fs[j].1)
    {
      LookupAt(fs, j);
      DropNullLookup(fs, s.fields[j].name);
    }
    FromDictOutcome(s, d);
    FromDictFields(s, d);
    var r := FromDictResult(s, d).value;
    assert r.fields == fs;
  }

  /** Without records inside its fields, `to_dict` only drops the None fields. */
  lemma PlainToDict(self: Value)
    requires self.Instance?
    requires forall j :: 0 <= j < |self.fields| ==> NoInstance(self.fields[j].1)
    ensures ToDict(self) == DropNull(self.fields)
  {
    var fs := self.fields;
    var conv := seq(|fs|, i requires 0 <= i < |fs| => (fs[i].0, AsDict(fs[i].1)));
    forall i | 0 <= i < |fs| ensures conv[i] == fs[i] {
      AsDictPlain(fs[i].1);
    }
    assert conv == fs;
  }

  /** Restricting a dict to a superset of its keys leaves it unchanged. */
  lemma {:induction false} RestrictAll(d: Entries, names: set<string>)
    requires forall e :: e in d ==> e.0 in names
    ensures Restrict(d, names) == d
    decreases |d|
  {
    if d != [] {
      RestrictAll(d[..|d| - 1], names);
      assert d[..|d| - 1] + [d[|d| - 1]] == d;
    }
  }
}
