/**
  `ConstEnum`: a `str` enumeration whose `auto()` members (and every member created with
  the functional API) take their own name as value, and whose `str()` and `repr()` are the
  member's name.
*/
module ConstEnum {
  import opened Wrappers

  /** How a member is declared in the class body: `auto()`, or an explicit string value. */
  datatype Decl = Auto | Explicit(value: string)

  datatype Member = Member(name: string, value: string)

  /** The TypeError the enum namespace raises for a name declared twice. */
  datatype EnumError = ReusedKey(name: string)

  function Names(ms: seq<Member>): (ns: seq<string>)
    ensures |ns| == |ms| && forall i :: 0 <= i < |ms| ==> ns[i] == ms[i].name
  {
    seq(|ms|, i requires 0 <= i < |ms| => ms[i].name)
  }

  function Values(ms: seq<Member>): (vs: seq<string>)
    ensures |vs| == |ms| && forall i :: 0 <= i < |ms| ==> vs[i] == ms[i].value
  {
    seq(|ms|, i requires 0 <= i < |ms| => ms[i].value)
  }

  /** `_generate_next_value_`: the value chosen for an `auto()` member. */
  function GenerateNextValue(name: string, start: int, count: nat, lastValues: seq<string>): string
  {
    name
  }

  /** The class body read in declaration order: every name with its value. An `auto()`
      value is asked of `_generate_next_value_` with start 1, the number of members so far
      and their values; a name declared again raises. */
  function Declare(decls: seq<(string, Decl)>): (r: Result<seq<Member>, EnumError>)
    ensures r.Success? <==> forall i, j :: 0 <= i < j < |decls| ==> decls[i].0 != decls[j].0
    ensures r.Success? ==>
      && |r.value| == |decls|
      && forall i :: 0 <= i < |decls| ==>
           && r.value[i].name == decls[i].0
           && r.value[i].value == (if decls[i].1.Auto? then decls[i].0 else decls[i].1.value)
    decreases |decls|
  {
    if decls == [] then Success([])
    else
      var init := decls[..|decls| - 1];
      match Declare(init)
      case Failure(e) => Failure(e)
      case Success(ms) =>
        var (name, d) := decls[|decls| - 1];
        if name in Names(ms) then
          Failure(ReusedKey(name))
        else
          var v := match d
            case Auto => GenerateNextValue(name, 1, |ms|, Values(ms))
            case Explicit(x) => x;
          Success(ms + [Member(name, v)])
  }

  /** The functional API `ConstEnum(cls_name, names)`: every name is an `auto()` member. */
  function Functional(names: seq<string>): Result<seq<Member>, EnumError>
  {
    Declare(seq(|names|, i requires 0 <= i < |names| => (names[i], Auto)))
  }

  /** Position of the first member holding `value`: the canonical member for that value. */
  function FirstWithValue(ms: seq<Member>, value: string): (i: nat)
    requires value in Values(ms)
    ensures i < |ms| && ms[i].value == value
    ensures forall j :: 0 <= j < i ==> ms[j].value != value
  {
    if ms[0].value == value then 0 else 1 + FirstWithValue(ms[1..], value)
  }

  /** `Cls.<name>` for the member declared at position `i`: a member whose value an earlier
      member already holds is an alias of that earlier member. */
  function Attribute(ms: seq<Member>, i: nat): (m: Member)
    requires i < |ms|
  {
    ms[FirstWithValue(ms, ms[i].value)]
  }

  /** `str(member)` and `repr(member)`: the member's name. */
  function Str(m: Member): string { m.name }

  function Repr(m: Member): string { m.name }

  /** The members iteration yields: the declared ones that are not aliases, in order. */
  function Canonical(ms: seq<Member>): seq<Member>
  {
    if ms == [] then []
    else
      var init := ms[..|ms| - 1];
      if ms[|ms| - 1].value in Values(init) then Canonical(init) else Canonical(init) + [ms[|ms| - 1]]
  }

  /** Every `auto()` member has its name as value. */
  lemma AutoValueIsName(decls: seq<(string, Decl)>, i: nat)
    requires Declare(decls).Success? && i < |decls| && decls[i].1.Auto?
    ensures Declare(decls).value[i] == Member(decls[i].0, decls[i].0)
  {
  }

  /** With the functional API (or `auto()` throughout) and distinct names, each name denotes
      its own member, and that member's value, `str()` and `repr()` all equal the name;
      iteration yields every member, in order. */
  lemma {:induction false} FunctionalInvariant(names: seq<string>, i: nat)
    requires forall a, b :: 0 <= a < b < |names| ==> names[a] != names[b]
    requires i < |names|
    ensures Functional(names).Success?
    ensures var ms := Functional(names).value;
      && |ms| == |names|
      && Attribute(ms, i) == ms[i]
      && ms[i].name == ms[i].value == Str(ms[i]) == Repr(ms[i]) == names[i]
      && Canonical(ms) == ms
  {
    var decls := seq(|names|, i requires 0 <= i < |names| => (names[i], Auto));
    var ms := Functional(names).value;
    assert forall j :: 0 <= j < |ms| ==> ms[j] == Member(names[j], names[j]);
    assert FirstWithValue(ms, ms[i].value) == i;
    DistinctValuesCanonical(ms);
  }

  /** Without repeated values there is no alias. */
  lemma {:induction false} DistinctValuesCanonical(ms: seq<Member>)
    requires forall a, b :: 0 <= a < b < |ms| ==> ms[a].value != ms[b].value
    ensures Canonical(ms) == ms
    decreases |ms|
  {
    if ms != [] {
      var init := ms[..|ms| - 1];
      DistinctValuesCanonical(init);
      assert ms[|ms| - 1].value !in Values(init) by {
        forall j | 0 <= j < |init| ensures Values(init)[j] != ms[|ms| - 1].value {
          assert init[j] == ms[j];
        }
      }
      assert init + [ms[|ms| - 1]] == ms;
    }
  }

  /** Whatever the declarations, a canonical member prints as its own name, and an alias
      prints as the name of the member it aliases. */
  lemma AttributeStr(ms: seq<Member>, i: nat)
    requires i < |ms|
    ensures Str(Attribute(ms, i)) == Repr(Attribute(ms, i))
    ensures (forall j :: 0 <= j < i ==> ms[j].value != ms[i].value) ==> Str(Attribute(ms, i)) == ms[i].name
    ensures Attribute(ms, i).value == ms[i].value
  {
  }
}
