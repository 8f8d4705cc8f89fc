/**
  The `__init__` that Python's `@dataclass` generates for a record type, called with
  positional arguments and keyword arguments. Its errors are the `TypeError`s CPython
  raises, in the order CPython checks them.
*/
module Dataclasses {
  import opened Wrappers
  import opened PyData

  /** The `TypeError`s a call to a generated `__init__` can raise. */
  datatype Error =
    | UnexpectedKeyword(name: string)
    | MultipleValues(name: string)
    | TooManyPositional(expected: nat, given: nat)
    | MissingArguments(names: seq<string>)

  /** The name of the generated `__init__`'s instance parameter: `self`, unless a field is
      itself called `self`. */
  function SelfParam(names: seq<string>): string
  {
    if "self" in names then "__dataclass_self__" else "self"
  }

  /** The first keyword argument, in call order, that names no parameter, or names the
      instance parameter or a field already filled positionally. */
  function BadKeyword(names: seq<string>, positional: nat, kwargs: Entries): Option<Error>
  {
    if kwargs == [] then None
    else
      var k := kwargs[0].0;
      if k !in names then
        if k == SelfParam(names) then Some(MultipleValues(k)) else Some(UnexpectedKeyword(k))
      else if IndexOf(names, k) < positional then Some(MultipleValues(k))
      else BadKeyword(names, positional, kwargs[1..])
  }

  /** Names of the required fields among `fs` that no keyword argument supplies. */
  function Missing(fs: seq<Field>, kwargs: Entries): seq<string>
  {
    if fs == [] then []
    else if fs[0].default.None? && fs[0].name !in Keys(kwargs) then [fs[0].name] + Missing(fs[1..], kwargs)
    else Missing(fs[1..], kwargs)
  }

  /** The value field `j` receives: its positional argument, else its keyword argument,
      else its default. */
  function Bound(s: Schema, j: nat, args: seq<Value>, kwargs: Entries): Value
    requires j < |s.fields|
  {
    if j < |args| then args[j]
    else match Lookup(kwargs, s.fields[j].name)
      case Some(v) => v
      // Null is never reached: Init binds only when no required field is missing
      case None => if s.fields[j].default.Some? then s.fields[j].default.value else Null
  }

  /** `cls(*args, **kwargs)` for a plain `@dataclass`. */
  function Init(s: Schema, args: seq<Value>, kwargs: Entries): Result<Value, Error>
  {
    match BadKeyword(FieldNames(s), |args|, kwargs)
    case Some(e) => Failure(e)
    case None =>
      if |args| > |s.fields| then Failure(TooManyPositional(|s.fields|, |args|))
      else
        var missing := Missing(s.fields[|args|..], kwargs);
        if missing != [] then Failure(MissingArguments(missing))
        else Success(Instance(s.name, seq(|s.fields|, j requires 0 <= j < |s.fields| => (s.fields[j].name, Bound(s, j, args, kwargs)))))
  }

  /** Every keyword argument is accepted exactly when each names a field that no positional
      argument has filled. */
  lemma {:induction false} BadKeywordNone(names: seq<string>, positional: nat, kwargs: Entries)
    ensures BadKeyword(names, positional, kwargs).None? <==>
      forall k :: k in Keys(kwargs) ==> k in names && IndexOf(names, k) >= positional
  {
    if kwargs != [] {
      BadKeywordNone(names, positional, kwargs[1..]);
      assert Keys(kwargs) == [kwargs[0].0] + Keys(kwargs[1..]);
    }
  }

  /** The keywords before position `i` all being accepted, the scan goes on from `i`. */
  lemma {:induction false} BadKeywordFrom(names: seq<string>, positional: nat, kwargs: Entries, i: nat)
    requires i <= |kwargs| && BadKeyword(names, positional, kwargs[..i]).None?
    ensures BadKeyword(names, positional, kwargs) == BadKeyword(names, positional, kwargs[i..])
  {
    if i > 0 {
      assert kwargs[..i][0] == kwargs[0] && kwargs[..i][1..] == kwargs[1..][..i - 1];
      BadKeywordFrom(names, positional, kwargs[1..], i - 1);
      assert kwargs[1..][i - 1..] == kwargs[i..];
    }
  }

  /** A keyword argument `self` on a record with no field `self` is the instance parameter
      passed a second time: the call raises, and once every earlier keyword is accepted the
      error is the multiple-values one for `self`, never the unexpected-keyword one. */
  lemma SelfKeywordRefused(s: Schema, args: seq<Value>, kwargs: Entries, i: nat)
    requires i < |kwargs| && kwargs[i].0 == "self" && "self" !in FieldNames(s)
    ensures Init(s, args, kwargs).Failure?
    ensures BadKeyword(FieldNames(s), |args|, kwargs[..i]).None? ==>
      Init(s, args, kwargs) == Failure(MultipleValues("self"))
  {
    assert "self" in Keys(kwargs) by { assert Keys(kwargs)[i] == "self"; }
    BadKeywordNone(FieldNames(s), |args|, kwargs);
    if BadKeyword(FieldNames(s), |args|, kwargs[..i]).None? {
      BadKeywordFrom(FieldNames(s), |args|, kwargs, i);
    }
  }

  /** A required field is reported missing exactly when no keyword argument supplies it. */
  lemma {:induction false} MissingEmpty(fs: seq<Field>, kwargs: Entries)
    ensures Missing(fs, kwargs) == [] <==>
      forall j :: 0 <= j < |fs| && fs[j].default.None? ==> fs[j].name in Keys(kwargs)
  {
    if fs != [] {
      MissingEmpty(fs[1..], kwargs);
      assert forall j :: 1 <= j < |fs| ==> fs[1..][j - 1] == fs[j];
    }
  }

  /** When the generated `__init__` succeeds and when it raises: the call succeeds exactly
      when every keyword names a field not filled positionally, there are no more positional
      arguments than fields, and every required field past the positional ones is given by
      keyword. */
  lemma InitOutcome(s: Schema, args: seq<Value>, kwargs: Entries)
    ensures Init(s, args, kwargs).Success? <==>
      && (forall k :: k in Keys(kwargs) ==> k in FieldNames(s) && IndexOf(FieldNames(s), k) >= |args|)
      && |args| <= |s.fields|
      && (forall j :: |args| <= j < |s.fields| && s.fields[j].default.None? ==> s.fields[j].name in Keys(kwargs))
  {
    BadKeywordNone(FieldNames(s), |args|, kwargs);
    if |args| <= |s.fields| {
      var rest := s.fields[|args|..];
      MissingEmpty(rest, kwargs);
      assert forall j :: |args| <= j < |s.fields| ==> rest[j - |args|] == s.fields[j];
    }
  }

  /** A successful call builds an instance of the record type, one field per declared field,
      in declaration order, holding the positional argument, the keyword argument or the
      default, in that order of preference. */
  lemma InitInstance(s: Schema, args: seq<Value>, kwargs: Entries)
    requires Init(s, args, kwargs).Success?
    ensures var r := Init(s, args, kwargs).value;
      && r.Instance? && r.cls == s.name && |r.fields| == |s.fields|
      && (forall j :: 0 <= j < |args| ==> r.fields[j] == (s.fields[j].name, args[j]))
      && (forall j :: |args| <= j < |s.fields| && s.fields[j].name in Keys(kwargs) ==>
            Some(r.fields[j].1) == Lookup(kwargs, s.fields[j].name) && r.fields[j].0 == s.fields[j].name)
      && (forall j :: |args| <= j < |s.fields| && s.fields[j].name !in Keys(kwargs) ==>
            Some(r.fields[j].1) == s.fields[j].default && r.fields[j].0 == s.fields[j].name)
  {
    InitOutcome(s, args, kwargs);
  }
}
