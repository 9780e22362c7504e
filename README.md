# Fluent runtime `utils`: a verified model

This project models the helper module `fluent.runtime/fluent/runtime/utils.py` of a
Python implementation of the Fluent localization system. The module has four parts:

- `reference_to_id` turns a message or term reference node into its canonical id:
  `name`, `-name`, `name.attr` or `-name.attr`.
- `unknown_reference_error_obj` builds the "Unknown attribute / term / message" diagnostic
  for an id that did not resolve. The attribute test comes first, so `-term.attr` is
  reported as an attribute.
- `native_to_fluent` converts a host value to a Fluent value by an ordered chain of
  `isinstance` tests.
- `VariantsType` stores the triple `(str(v), str(v).lower(), str(v).upper())`. It compares
  equal to any string in the triple and to another `VariantsType` with the same triple.
  Its `format` returns the original text.

The constants `TERM_SIGIL` and `ATTRIBUTE_SEPARATOR` (lines 13-14) are `Utils.TermSigil`
(`'-'`) and `Utils.AttributeSeparator` (`'.'`). Python's one-character strings are modelled as
characters, so `ATTRIBUTE_SEPARATOR in ref_id` is character membership.

Everything is pure, so the model is datatypes, functions and lemmas in one module, `Utils`
(`utils.dfy`). It uses the `Option` type of the small helper module `Wrappers`
(`wrappers.dfy`).

The main results:

- `ReferenceToId` has a total inverse, `ParseId`. It splits the id at the first `.` and
  reads a leading `-` as the term sigil. Parsing the id of a well-formed reference gives the
  reference back, and every string is the id of the reference parsed from it. A reference
  is well-formed when its name has no `.` and a message name does not start with `-`.
- The diagnostic classifies an id exactly as the reference parsed from it. For the id of a
  well-formed reference, it says "attribute" iff the reference has an attribute, and
  otherwise "term" iff the reference is a term. Every id gets exactly one of the three
  messages, and the message determines the id.
- In `native_to_fluent`, `int` is tested before `bool`. A boolean is an `int` in Python, so
  booleans become `FluentInt` and the `bool` branch can never run. The model keeps the
  branches in the source's order, so it has this behaviour too. `datetime` is tested
  before `date`, so a date-time always goes to the date-time factory.
- `VariantsType` matching is not case-insensitive. `"nOne"` lowers to the same text as
  `"None"`, yet it does not match `VariantsType(None)`. What is proved is the weaker fact,
  for the ASCII case maps of the model: every string that matches has the same lowercase
  form as the original text.

Three details of the code that the model keeps as written:

- The `bool` branch at line 68 and the `True`/`False` keys of `types_map` (lines 46-50)
  look meant for booleans. But `isinstance(val, int)` at line 57 catches booleans first, so
  they become `FluentInt`.
- `VariantsType` does not fold case. It stores the triple of original, lower-case and
  upper-case forms and compares a string against that triple (lines 33-37).
- `if ref.attribute:` at line 96 tests the attribute node, not its name. So an attribute
  with an empty name still gets the `.`.

## Model

| member | source | states |
|---|---|---|
| `Utils.ReferenceToId` | fluent.runtime/fluent/runtime/utils.py:79-98 | a term id starts with the sigil; the id contains `.` iff the name does or an attribute is present |
| `Utils.ParseId` | fluent.runtime/fluent/runtime/utils.py:84-89 | reading an id by the four forms of the docstring always gives a well-formed reference |
| `Utils.ParseReferenceToId` | fluent.runtime/fluent/runtime/utils.py:79-98 | the id of a well-formed reference reads back as that reference |
| `Utils.ReferenceToIdOfParse` | fluent.runtime/fluent/runtime/utils.py:84-98 | every string is the id of the reference read from it |
| `Utils.ReferenceToIdInjective` | fluent.runtime/fluent/runtime/utils.py:79-98 | two well-formed references have the same id iff they are equal |
| `Utils.ReferenceToIdForms` | fluent.runtime/fluent/runtime/utils.py:84-98 | a message without attribute gives `name`, with one `name.attr`; a term gives `-name` or `-name.attr` |
| `Utils.StartsWithSigil` | fluent.runtime/fluent/runtime/utils.py:104 | `startswith(TERM_SIGIL)` holds iff the text is non-empty and its first character is the sigil `-` |
| `Utils.UnknownReferenceErrorObj` | fluent.runtime/fluent/runtime/utils.py:101-106 | an id with `.` gives "Unknown attribute: " + id even if it starts with `-`; else a leading `-` gives "Unknown term: " + id; else "Unknown message: " + id |
| `Utils.TextsDiffer` | fluent.runtime/fluent/runtime/utils.py:103-106 | no attribute, term or message text followed by an id equals another of the three followed by an id |
| `Utils.ExactlyOneMessage` | fluent.runtime/fluent/runtime/utils.py:101-106 | each of the three messages is produced iff its condition holds, so every id gets exactly one |
| `Utils.UnknownReferenceErrorInjective` | fluent.runtime/fluent/runtime/utils.py:101-106 | two ids give the same error iff they are equal |
| `Utils.UnknownReferenceErrorReadsRef` | fluent.runtime/fluent/runtime/utils.py:84-106 | the message is "attribute" iff the parsed reference has an attribute, else "term" iff it is a term, else "message" |
| `Utils.UnknownReferenceErrorOfId` | fluent.runtime/fluent/runtime/utils.py:79-106 | for a well-formed reference, the error of its id is "attribute" iff it has an attribute, else "term" iff it is a term reference |
| `Utils.UnknownReferenceErrorExamples` | fluent.runtime/fluent/runtime/utils.py:101-106 | the diagnostics of `greeting.formal`, `-brand`, `greeting` and `-brand.short` (an attribute, not a term) |
| `Utils.Lower` | fluent.runtime/fluent/runtime/utils.py:33 | `lower()` keeps the length and lowers each character in place |
| `Utils.Upper` | fluent.runtime/fluent/runtime/utils.py:33 | `upper()` keeps the length and raises each character in place |
| `Utils.LowerForgetsCase` | fluent.runtime/fluent/runtime/utils.py:33 | for the ASCII case maps, lowering a lowered or raised text gives the lowered original |
| `Utils.VariantsType.New` | fluent.runtime/fluent/runtime/utils.py:32-33 | the new value formats to the text in every locale and equals the text, its lowered and its raised form |
| `Utils.VariantsType.Equals` | fluent.runtime/fluent/runtime/utils.py:35-40 | a string matches iff it is in the triple; another `VariantsType` matches iff it is the same value (same triple); anything else never matches |
| `Utils.VariantsType.Format` | fluent.runtime/fluent/runtime/utils.py:42-43 | gives the original form, the first of the triple, whatever the locale, and that text matches the value |
| `Utils.VariantsEqualsString` | fluent.runtime/fluent/runtime/utils.py:35-37 | a string equals `VariantsType(x)` iff it is `str(x)`, its lower-case or its upper-case form |
| `Utils.VariantsMatchIsCaseVariant` | fluent.runtime/fluent/runtime/utils.py:33-37 | under the ASCII case maps, every string that equals `VariantsType(x)` lowers to the same text as `str(x)` |
| `Utils.VariantsMatchIsNotCaseInsensitive` | fluent.runtime/fluent/runtime/utils.py:33-37 | `"nOne"` lowers like `"None"`, yet it does not equal `VariantsType(None)` |
| `Utils.VariantsEqualsVariants` | fluent.runtime/fluent/runtime/utils.py:38-39 | two values built from texts are equal iff the texts are |
| `Utils.VariantsEqualityIsEquivalence` | fluent.runtime/fluent/runtime/utils.py:38-39 | equality of two `VariantsType` values is reflexive, symmetric and transitive |
| `Utils.FormatIgnoresLocale` | fluent.runtime/fluent/runtime/utils.py:42-43 | `format` gives the same text for every locale, and that text equals the value |
| `Utils.TypeOf` | fluent.runtime/fluent/runtime/utils.py:57-71 | only `None` has class `NoneType`, only booleans have class `bool`, and only unrecognised values have none of the tested classes |
| `Utils.IsSubclass` | fluent.runtime/fluent/runtime/utils.py:57-69 | every class is its own subclass; `bool` is a subclass of `int` and `datetime` of `date`; there are no other subclass pairs |
| `Utils.IsInstance` | fluent.runtime/fluent/runtime/utils.py:57-69 | a boolean is an instance of `bool` and `int` only; a `datetime` of `datetime` and `date` only; an `int` of `int`, a `date` of `date` and `None` of `NoneType` only |
| `Utils.PyStr` | fluent.runtime/fluent/runtime/utils.py:33 | `str()` of `True`/`False` is `"True"`/`"False"`, of `None` is `"None"`; of an `int`, a non-empty text that starts with `-` iff the integer is negative |
| `Utils.SubclassIsPartialOrder` | fluent.runtime/fluent/runtime/utils.py:57-69 | the subclass relation, with `bool` under `int` and `datetime` under `date`, is a partial order |
| `Utils.NativeToFluent` | fluent.runtime/fluent/runtime/utils.py:53-76 | `FluentInt` iff an `int` instance (booleans included); float and decimal by their class; `FluentDateTime` iff a `datetime`; `FluentDate` iff a `date` that is not a `datetime`; `VariantsType("None")` iff `None`; unchanged iff none of these; the wrappers carry the value |
| `Utils.BoolTestUnreachable` | fluent.runtime/fluent/runtime/utils.py:57-69 | every `bool` instance is an `int` instance, so it converts to `FluentInt` before the `bool` test |
| `Utils.BoolsAndIntsBecomeFluentInt` | fluent.runtime/fluent/runtime/utils.py:57-58 | booleans and integers both become `FluentInt`; a boolean never becomes a `VariantsType` |
| `Utils.DatesAndDateTimes` | fluent.runtime/fluent/runtime/utils.py:64-67 | a date-time goes to `from_date_time` and never to `from_date`; a plain date goes to `from_date` |
| `Utils.NoneAndOthers` | fluent.runtime/fluent/runtime/utils.py:70-76 | `None` becomes `VariantsType(None)`, which equals `"none"`; an unrecognised value comes back unchanged |

## Left out

- `FluentInt`, `FluentFloat`, `FluentDecimal`, `FluentDate`, `FluentDateTime` and
  `FluentType` come from the `types` module, which is not part of this model. Each is a tag
  around the host value it wraps, with no locale formatting.
- `FluentReferenceError` comes from the `errors` module, which is not part of this model.
  Only the message it carries is modelled.
- `babel.core.Locale` is an external type. It is an opaque value, and `format` never reads it.
- The `fluent.syntax.ast` nodes are reduced to the `Ref` datatype: kind, name and optional
  attribute name.
- The abstract base `NewFluentType` has no behaviour. The unused `types_map` and the
  commented-out lookup are dead code. None of the three is modelled.
- `Utils.Lower`, `Utils.Upper`: only ASCII letters change case. Python's full Unicode case
  mapping, which can change the length of a text, is not modelled.
- `Utils.LowerForgetsCase`, `Utils.VariantsMatchIsCaseVariant`: both hold only for the
  ASCII case maps. In Python `VariantsType("ß")` stores `("ß", "ß", "SS")`, so `"SS"`
  matches, yet `"SS".lower()` is `"ss"` while `"ß".lower()` is `"ß"`.
- `Utils.NativeToFluent`: each wrapper keeps the host value it wraps, so the model's
  `FluentInt(Bool(true))` differs from `FluentInt(Int(1))`. The program hands a boolean
  to `FluentInt` as an `int`, and `True == 1` in Python. Whether `FluentInt(True)` and
  `FluentInt(1)` differ depends on the `types` module, which is not part of this model.
- `Utils.PyStr`: `str()` is exact for booleans, integers and `None`. For floats, decimals,
  dates, date-times and other objects, the text is carried by the value. Those values only
  reach `str()` through `VariantsType`, which `native_to_fluent` never builds from them.
- Float, decimal and date values are only wrapped, so they carry no number or date. Nothing
  numeric about them is modelled.
- Python's `==` between a string and a `VariantsType` can also be asked from the string's
  side. The model has only `VariantsType.__eq__` with its argument on the right.
