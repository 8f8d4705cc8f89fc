# kieran helpers — a Dafny model

This project models the helpers of the `spqr.kieran` package:

- `nested_dataclass`, a decorator that wraps a dataclass's `__init__`. A keyword argument
  whose annotated type is itself a dataclass and whose value is a dict is first turned into
  an instance of that dataclass, built from the dict as keyword arguments.
- `ExtraDataclass`, a mixin with three operations. `from_dict` filters a dict down to the
  declared fields and calls the class. `from_list` maps `from_dict` over a list.
  `to_dict` converts a record to a dict and drops its None-valued fields.
- `singleton`, a decorator that memoises the first instance of a class.
- `ConstEnum`, a `str` enumeration whose generated values are the member names and whose
  `str()`/`repr()` is the name.
- `HttpFormatter`, a logging formatter. It renders headers as `key: value` lines and
  appends a request/response block to records of the `httplogger` channel.

Python's reflection is replaced by an explicit schema. A record type (`PyData.Schema`) is
its name, its ordered fields and a flag saying whether it is decorated with
`nested_dataclass`. Each field has a name, a declared type and an optional default. The
declared type is either another record schema or anything else. Values (`PyData.Value`)
are None, a primitive, a list, a dict or a record instance. Dicts and keyword arguments are
ordered lists of entries with distinct keys, as Python dicts are.

The generated dataclass `__init__` is modelled in `Dataclasses.Init`. It raises the errors
CPython raises, checked in CPython's order: first an unexpected keyword or a repeated
argument, keyword by keyword; then too many positional arguments; then all missing
required arguments at once. The instance parameter counts as an argument: a keyword
`self` on a record without a field `self` is a repeated argument, not an unexpected one
(with a field `self`, the generated `__init__` names its instance parameter
`__dataclass_self__`). The wrapper that `nested_dataclass` installs takes `self` itself, so
for a decorated class a keyword `self` raises the repeated-argument error before any
keyword argument is promoted.

Modules: `Wrappers` (Option, Result), `PyData` (values and schemas), `Dataclasses`
(generated `__init__`), `Nested` (`nested_dataclass`), `Extra` (`ExtraDataclass`),
`Singleton`, `ConstEnum`, `HttpLog`.

## Model

| member | source | states |
|---|---|---|
| `Dataclasses.InitOutcome` | spqr/kieran/helpers.py:17 | The class call succeeds exactly when each keyword names a field that no positional argument filled, there are no more positional arguments than fields, and every later required field is given by keyword. |
| `Dataclasses.SelfKeywordRefused` | spqr/kieran/helpers.py:17 | A keyword `self` on a record with no field `self` makes the call raise. When every earlier keyword is accepted, the error is the repeated-argument one for `self`. |
| `Dataclasses.InitInstance` | spqr/kieran/helpers.py:17 | A successful call gives an instance of the class with one field per declared field, in order. Each field holds its positional argument, else its keyword argument, else its default. |
| `Nested.Annotation` | spqr/kieran/helpers.py:13 | `__annotations__.get(name)`: the index of the field with that name, or None exactly when no field has that name. |
| `Nested.Call` | spqr/kieran/helpers.py:11-17 | Calling a class (through the wrapped `__init__` when it is decorated) gives the result of the specification `Instantiate`. |
| `Nested.NestedInit` | spqr/kieran/helpers.py:11-17 | The wrapper, which refuses a keyword `self` and otherwise runs the loop that rewrites keyword arguments in place, then calls the original `__init__`, gives the specification's result. That includes stopping at the first nested construction that raises. |
| `Nested.PromotedEntries` | spqr/kieran/helpers.py:12-16 | Promotion keeps the keyword names and their order. A value is replaced by the record built from its dict exactly when the annotated type is a dataclass and the value is a dict. Every other value is unchanged, including an instance that is already built. |
| `Nested.PromotedFailure` | spqr/kieran/helpers.py:12-16 | Promotion raises exactly when building some promoted argument raises. The error is that of the first such argument in call order. |
| `Nested.NestedSelfKeyword` | spqr/kieran/helpers.py:11 | A decorated class raises the repeated-argument error for `self` whenever a keyword `self` is passed, whatever its fields and other arguments. |
| `Nested.PromotedFailurePersists` | spqr/kieran/helpers.py:15 | An error raised while building one keyword argument ends the promotion loop with that error. |
| `Nested.PromotedKeys` | spqr/kieran/helpers.py:16 | Promotion rewrites values only; the keyword names are unchanged. |
| `Nested.UnknownKeyFails` | spqr/kieran/helpers.py:15 | A dict passed for a record-typed field that holds a key the record does not declare makes the construction raise. No filtering happens at this layer. |
| `Nested.InstantiateInstance` | spqr/kieran/helpers.py:15-17 | A successful construction is an instance of the called record type, with its declared field names in order. |
| `Nested.NestedFields` | spqr/kieran/helpers.py:11-17 | After a successful call of a decorated class, positional arguments are stored unchanged. Each keyword argument's field holds either the record built from the dict (an instance of the annotated type) or the value as passed. |
| `Extra.Put` | spqr/kieran/helpers.py:34 | `d[k] = v` on a dict without key `k` appends the entry. With key `k` it keeps the keys and their order and `k` maps to `v`. Every other key keeps its value. |
| `Extra.FieldSet` | spqr/kieran/helpers.py:30 | `cl_fields` is exactly the set of declared field names. |
| `Extra.RestrictSpec` | spqr/kieran/helpers.py:31-34 | The filtered dict is a dict. Its keys are exactly the input's keys that are field names. For each of those keys it holds the input's value. |
| `Extra.FromDict` | spqr/kieran/helpers.py:28-35 | The loop that copies matching entries into `filtered_data` and calls the class gives `Instantiate` of the class on the filtered input. |
| `Extra.ExtraKeysIgnored` | spqr/kieran/helpers.py:32-35 | Appending entries whose keys are not fields does not change the result of `from_dict`. |
| `Extra.FromDictOutcome` | spqr/kieran/helpers.py:35 | `from_dict` raises exactly when a field without a default is absent from the input, or, for a `nested_dataclass`, when the input supplies a declared field `self` or building a nested record raises. For a plain dataclass the error is always the missing-arguments one. |
| `Extra.FromDictFields` | spqr/kieran/helpers.py:35 | A successful `from_dict` of a plain dataclass holds every declared field in order. Each field has the input's value, or its default when the input lacks the key. |
| `Extra.FromList` | spqr/kieran/helpers.py:38-40 | On success the list has the input's length and element `i` is `from_dict` of input `i`. It fails exactly when some element fails, and then with the error of the first failing element. |
| `Extra.DropNull` | spqr/kieran/helpers.py:45 | The dict factory leaves no None value, and every entry it keeps comes from its input. |
| `Extra.DropNullLookup` | spqr/kieran/helpers.py:45 | After the factory, `get` answers as before, except that keys whose value was None are gone. |
| `Extra.AsDict` | spqr/kieran/helpers.py:44-46 | The conversion gives None only for None. No record instance is left anywhere in its result. |
| `Extra.ToDict` | spqr/kieran/helpers.py:42-46 | No key of `to_dict()` maps to None, and no value in it holds a record. |
| `Extra.ToDictFields` | spqr/kieran/helpers.py:42-46 | A field is in `to_dict()` exactly when its value is not None (so 0, "" and [] are kept). It then holds the converted value. |
| `Extra.AsDictNullFree` | spqr/kieran/helpers.py:44-46 | None fields are dropped at every record level, including records inside fields, lists and dicts. If no plain list or dict of the input holds None, the result holds no None anywhere. |
| `Extra.AsDictPlain` | spqr/kieran/helpers.py:44-46 | A value that holds no record converts to itself. |
| `Extra.PlainToDict` | spqr/kieran/helpers.py:42-46 | For a record whose fields hold no records, `to_dict` only drops the None fields. |
| `Extra.ToDictFromDict` | spqr/kieran/helpers.py:28-46 | Round trip: `from_dict(x.to_dict())` rebuilds `x`. This holds for a plain dataclass whose field values hold no records and whose None fields default to None. |
| `Singleton.Registry.constructor` | spqr/kieran/helpers.py:49-50 | Each decoration starts with its own empty `instances` dict, and the class has not been called. |
| `Singleton.Registry.GetInstance` | spqr/kieran/helpers.py:52-55 | The first call that succeeds calls the class with its arguments and stores the instance. Every later call returns that stored instance unchanged, whatever its arguments, without calling the class. A call that raises stores nothing. |
| `ConstEnum.Declare` | spqr/kieran/helpers.py:88-89 | Declaring members succeeds exactly when no name repeats. Members are kept in declaration order. An `auto()` member's value is its name and an explicit value is kept. |
| `ConstEnum.AutoValueIsName` | spqr/kieran/helpers.py:88-89 | Every `auto()` member has its own name as its value. |
| `ConstEnum.FunctionalInvariant` | spqr/kieran/helpers.py:67-75 | With the functional API and distinct names, each name denotes its own member. That member's value, `str()` and `repr()` all equal the name, and iteration yields every member in order. |
| `ConstEnum.DistinctValuesCanonical` | spqr/kieran/helpers.py:67-73 | When no value repeats there are no aliases, and iteration yields every declared member. |
| `ConstEnum.AttributeStr` | spqr/kieran/helpers.py:91-95 | `str()` and `repr()` agree. A member with no earlier member of the same value prints as its own name. An alias has the aliased member's value. |
| `HttpLog.FormatHeaders` | spqr/kieran/httplog.py:33-34 | `_formatHeaders` is empty exactly for an empty mapping. |
| `HttpLog.HeadersRecovered` | spqr/kieran/httplog.py:33-34 | Splitting the output at newlines gives exactly one `key: value` line per header, in mapping order, with no trailing newline. |
| `HttpLog.Decimal` | spqr/kieran/httplog.py:46 | A status code renders as decimal digits, at least one, with no leading zero unless the code is 0, and no newline. It is one digit exactly for codes below 10. |
| `HttpLog.DecimalValue` | spqr/kieran/httplog.py:46 | The printed digits read back as the status code. |
| `HttpLog.DecimalOfValue` | spqr/kieran/httplog.py:46 | Every digit string without a leading zero is what the code it denotes prints as, so the rendering is one-to-one onto those strings. |
| `HttpLog.FormatMessage` | spqr/kieran/httplog.py:36-57 | A record of any channel other than `httplogger` is returned exactly as the base formatter gives it. For `httplogger` the result starts with the base output, and it raises exactly when the record carries no request/response. |
| `HttpLog.BlockLayout` | spqr/kieran/httplog.py:39-55 | The appended block's lines, in order: blank, request rule, `method url`, request headers, blank, body, response rule, `status reason url`, response headers, blank, text, and a final newline. |
| `HttpLog.ChannelMessage` | spqr/kieran/httplog.py:37-55 | An `httplogger` record gives the base output followed by the block, and the block splits into the lines `BlockLayout` lists. |

## Left out

- `logRoundtrip` (`httplog.py:25-28`) only emits a log event through the `logging` module. The
  formatter's input record models what it attaches: `req`/`res`, or nothing.
- The base `logging.Formatter.formatMessage` is a function parameter of `HttpLog.FormatMessage`.
  Its output (asctime, level name and so on) is not modelled.
- Request bodies of type `bytes` and header values that are not strings are not modelled.
  Bodies are text or None, and None prints as `None`.
- `HttpLog.BlockLayout`, `HttpLog.ChannelMessage`, `HttpLog.HeadersRecovered`: proved only for
  headers, URLs, methods, reasons, bodies and texts without newlines. A newline inside one of
  them would add lines to the split.
- How Python discovers fields is not modelled: `__annotations__`, `fields()`, inherited fields,
  string annotations, `Optional[...]`. A field's type is given in the schema. An annotation
  that is not a dataclass type is `Plain`.
- The dataclass options that `nested_dataclass` forwards to `dataclass()` are not modelled:
  frozen, order, `kw_only`, `init=False`, and whether a `default_factory` value is fresh. The
  bare-decorator versus decorator-factory forms (`helpers.py:22`) are not modelled either; both
  yield the same wrapped `__init__`, which is the model's `nested` flag.
- `asdict` deep-copies non-record values; the model copies by value, which is the same for
  values. Tuples, named tuples and non-string dict keys are not modelled.
- `Extra.ToDictFromDict` is stated only for plain dataclasses whose field values hold no
  records. With nested records `to_dict` yields dicts, which only a `nested_dataclass` turns
  back into records.
- `Singleton.Registry`: the unsynchronised first-call race between threads is not modelled.
  Calls are sequential. The decorated class's constructor is the function parameter `make`.
- `ConstEnum`: the functional API's splitting of a names string (`"Whiskey Beer Vodka"`) is
  not modelled; names arrive as a list. Lookup by value (`Cls("Beer")`) is not modelled, nor
  the rest of the Enum metaclass beyond value generation, repeated-name errors and aliases.
- `setup.py` holds packaging metadata only.

## Notes on `to_dict`

`to_dict` (`helpers.py:42-46`) promises a dict with no None values. It passes its dict
factory to `asdict`, which applies the factory to every record it converts, not only to
the outer one. So None fields are dropped from records at any depth, including records
inside fields, lists and dicts. A None stored directly in a plain list or dict is not a
record field, and it is kept. `Extra.AsDict` and `Extra.AsDictNullFree` state this.
