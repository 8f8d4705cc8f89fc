/**
  `nested_dataclass`: the class's `__init__` is wrapped so that a keyword argument whose
  annotated type is itself a dataclass and whose value is a dict is first turned into an
  instance of that dataclass, built from the dict as keyword arguments; then the generated
  `__init__` runs on the positional arguments and the rewritten keyword arguments.
*/
module Nested {
  import opened Wrappers
  import opened PyData
  import opened Dataclasses

  /** `cls.__annotations__.get(name)`: the index of the field annotated under `name`. */
  function Annotation(s: Schema, name: string): (j: Option<nat>)
    ensures j.Some? ==> j.value < |s.fields| && s.fields[j.value].name == name
    ensures j.None? ==> name !in FieldNames(s)
  {
    if name in FieldNames(s) then Some(IndexOf(FieldNames(s), name)) else None
  }

  /** The promotion rule: the annotated type is a dataclass and the value is a dict. */
  predicate Promotes(s: Schema, name: string, v: Value) {
    var j := Annotation(s, name);
    j.Some? && s.fields[j.value].ty.Rec? && v.Dict?
  }

  /** The record type a promoted keyword argument is built as. */
  function Target(s: Schema, name: string, v: Value): Schema
    requires Promotes(s, name, v)
  {
    s.fields[Annotation(s, name).value].ty.schema
  }

  /** Calling the class: `cls(*args, **kwargs)`, through the wrapped `__init__` when the
      class is decorated with `nested_dataclass`. */
  function Instantiate(s: Schema, args: seq<Value>, kwargs: Entries): Result<Value, Error>
    decreases s, 2, 0
  {
    if s.nested then NestedInitResult(s, args, kwargs) else Init(s, args, kwargs)
  }

  /** The wrapped `__init__` of a `nested_dataclass`. Its own instance parameter is `self`,
      so a keyword argument `self` is refused before any promotion. */
  function NestedInitResult(s: Schema, args: seq<Value>, kwargs: Entries): Result<Value, Error>
    decreases s, 1, |kwargs| + 1
  {
    if "self" in Keys(kwargs) then Failure(MultipleValues("self"))
    else match Promoted(s, kwargs)
    case Failure(e) => Failure(e)
    case Success(kw) => Init(s, args, kw)
  }

  /** A `nested_dataclass` refuses a keyword argument `self` whatever its fields are and
      whatever the other arguments: its wrapper already binds `self`. */
  lemma NestedSelfKeyword(s: Schema, args: seq<Value>, kwargs: Entries)
    requires s.nested && "self" in Keys(kwargs)
    ensures Instantiate(s, args, kwargs) == Failure(MultipleValues("self"))
  {
  }

  /** One keyword argument after promotion, or the error building it raised. */
  function PromoteArg(s: Schema, name: string, v: Value): Result<Value, Error>
    decreases s, 0, 0
  {
    var j := Annotation(s, name);
    if j.Some? && s.fields[j.value].ty.Rec? && v.Dict? then
      Instantiate(s.fields[j.value].ty.schema, [], v.entries)
    else Success(v)
  }

  /** The keyword arguments after the loop has rewritten every promoted one, in call order;
      the first error raised stops the loop. */
  function Promoted(s: Schema, kwargs: Entries): Result<Entries, Error>
    decreases s, 1, |kwargs|
  {
    if kwargs == [] then Success([])
    else
      match Promoted(s, kwargs[..|kwargs| - 1])
      case Failure(e) => Failure(e)
      case Success(done) =>
        var (k, v) := kwargs[|kwargs| - 1];
        match PromoteArg(s, k, v)
        case Failure(e) => Failure(e)
        case Success(v') => Success(done + [(k, v')])
  }

  /** Once building some keyword argument has raised, the whole call raises that error. */
  lemma {:induction false} PromotedFailurePersists(s: Schema, kwargs: Entries, n: nat)
    requires n <= |kwargs| && Promoted(s, kwargs[..n]).Failure?
    ensures Promoted(s, kwargs) == Promoted(s, kwargs[..n])
    decreases |kwargs|
  {
    if n < |kwargs| {
      var init := kwargs[..|kwargs| - 1];
      assert init[..n] == kwargs[..n];
      PromotedFailurePersists(s, init, n);
    } else {
      assert kwargs[..n] == kwargs;
    }
  }

  /** What promotion does to the keyword arguments: the same names in the same order, each
      value replaced by the record built from it exactly when the rule applies, every other
      value unchanged. */
  lemma {:induction false} PromotedEntries(s: Schema, kwargs: Entries)
    requires Promoted(s, kwargs).Success?
    ensures var p := Promoted(s, kwargs).value;
      && |p| == |kwargs|
      && forall i :: 0 <= i < |kwargs| ==>
           && p[i].0 == kwargs[i].0
           && (Promotes(s, kwargs[i].0, kwargs[i].1) ==>
                 Success(p[i].1) == Instantiate(Target(s, kwargs[i].0, kwargs[i].1), [], kwargs[i].1.entries))
           && (!Promotes(s, kwargs[i].0, kwargs[i].1) ==> p[i].1 == kwargs[i].1)
    decreases |kwargs|
  {
    if kwargs != [] {
      var init := kwargs[..|kwargs| - 1];
      PromotedEntries(s, init);
      assert forall i :: 0 <= i < |init| ==> init[i] == kwargs[i];
    }
  }

  /** Promotion keeps the keyword names. */
  lemma PromotedKeys(s: Schema, kwargs: Entries)
    requires Promoted(s, kwargs).Success?
    ensures Keys(Promoted(s, kwargs).value) == Keys(kwargs)
  {
  }

  /** Promotion raises exactly when building some promoted keyword argument raises, and then
      it raises the error of the first such argument. */
  lemma {:induction false} PromotedFailure(s: Schema, kwargs: Entries)
    ensures Promoted(s, kwargs).Failure? <==>
      exists i :: 0 <= i < |kwargs| && PromoteArg(s, kwargs[i].0, kwargs[i].1).Failure?
    ensures Promoted(s, kwargs).Failure? ==>
      exists i :: 0 <= i < |kwargs| && Promotes(s, kwargs[i].0, kwargs[i].1)
        && PromoteArg(s, kwargs[i].0, kwargs[i].1) == Failure(Promoted(s, kwargs).error)
        && forall i' :: 0 <= i' < i ==> PromoteArg(s, kwargs[i'].0, kwargs[i'].1).Success?
    decreases |kwargs|
  {
    if kwargs != [] {
      var init := kwargs[..|kwargs| - 1];
      PromotedFailure(s, init);
      assert forall i :: 0 <= i < |init| ==> init[i] == kwargs[i];
    }
  }

  /** A dict passed for a record-typed field must not carry a key that record does not
      declare: the nested call raises (it is not filtered). */
  lemma UnknownKeyFails(t: Schema, args: seq<Value>, d: Entries, k: string)
    requires k in Keys(d) && k !in FieldNames(t)
    ensures Instantiate(t, args, d).Failure?
  {
    if t.nested && Promoted(t, d).Success? {
      var p := Promoted(t, d).value;
      PromotedEntries(t, d);
      var i :| 0 <= i < |d| && d[i].0 == k;
      assert p[i].0 == k;
      InitOutcome(t, args, p);
    } else if !t.nested {
      InitOutcome(t, args, d);
    }
  }

  /** A successful call yields an instance of the called record type. */
  lemma InstantiateInstance(s: Schema, args: seq<Value>, kwargs: Entries)
    requires Instantiate(s, args, kwargs).Success?
    ensures var r := Instantiate(s, args, kwargs).value;
      r.Instance? && r.cls == s.name && |r.fields| == |s.fields| &&
      forall j :: 0 <= j < |s.fields| ==> r.fields[j].0 == s.fields[j].name
  {
  }

  /** What a successful call of a `nested_dataclass` stores: positional arguments unchanged,
      and for each keyword argument, in the field it names, either the record built from its
      dict (an instance of the annotated type) or, when the rule does not apply, the value as
      passed. */
  lemma NestedFields(s: Schema, args: seq<Value>, kwargs: Entries, i: nat)
    requires s.nested && DistinctNames(s) && IsDict(kwargs)
    requires Instantiate(s, args, kwargs).Success?
    requires i < |kwargs|
    ensures var r := Instantiate(s, args, kwargs).value;
      var name := kwargs[i].0;
      var v := kwargs[i].1;
      && r.Instance? && |r.fields| == |s.fields| && |args| <= |s.fields|
      && (forall j :: 0 <= j < |args| ==> r.fields[j].1 == args[j])
      && name in FieldNames(s)
      && var j := IndexOf(FieldNames(s), name);
         && j >= |args|
         && r.fields[j].0 == name
         && (Promotes(s, name, v) ==>
               Success(r.fields[j].1) == Instantiate(Target(s, name, v), [], v.entries)
               && r.fields[j].1.Instance? && r.fields[j].1.cls == Target(s, name, v).name)
         && (!Promotes(s, name, v) ==> r.fields[j].1 == v)
  {
    var p := Promoted(s, kwargs).value;
    PromotedEntries(s, kwargs);
    assert Keys(p) == Keys(kwargs);
    assert IsDict(p);
    InitOutcome(s, args, p);
    InitInstance(s, args, p);
    var name := kwargs[i].0;
    assert name in Keys(kwargs);
    var j := IndexOf(FieldNames(s), name);
    LookupAt(p, i);
    if Promotes(s, name, kwargs[i].1) {
      InstantiateInstance(Target(s, name, kwargs[i].1), [], kwargs[i].1.entries);
    }
  }

  /** The call the decorator installs, as the loop in the wrapped `__init__` runs it. */
  method Call(s: Schema, args: seq<Value>, kwargs: Entries) returns (r: Result<Value, Error>)
    ensures r == Instantiate(s, args, kwargs)
    decreases s, 2, 0
  {
    if s.nested {
      r := NestedInit(s, args, kwargs);
    } else {
      r := Init(s, args, kwargs);
    }
  }

  /** The wrapped `__init__`: refuses a keyword argument `self`, rewrites the promoted
      keyword arguments in place, in call order, then calls the generated `__init__`. */
  method NestedInit(s: Schema, args: seq<Value>, kwargs: Entries) returns (r: Result<Value, Error>)
    ensures r == NestedInitResult(s, args, kwargs)
    decreases s, 1, |kwargs| + 1
  {
    if "self" in Keys(kwargs) {
      return Failure(MultipleValues("self"));
    }
    var kw := kwargs;
    for i := 0 to |kwargs|
      invariant |kw| == |kwargs|
      invariant kw[i..] == kwargs[i..]
      invariant Promoted(s, kwargs[..i]) == Success(kw[..i])
    {
      var name, value := kw[i].0, kw[i].1;
      assert kwargs[..i + 1][..i] == kwargs[..i] && kwargs[..i + 1][i] == (name, value);
      var j := Annotation(s, name);
      if j.Some? && s.fields[j.value].ty.Rec? && value.Dict? {
        var newObj := Call(s.fields[j.value].ty.schema, [], value.entries);
        if newObj.Failure? {
          PromotedFailurePersists(s, kwargs, i + 1);
          return Failure(newObj.error);
        }
        kw := kw[i := (name, newObj.value)];
      }
      assert kw[..i + 1] == kw[..i] + [kw[i]];
    }
    assert kwargs[..|kwargs|] == kwargs && kw[..|kw|] == kw;
    r := Init(s, args, kw);
  }
}
