/**
 * The helpers of the Fluent runtime's `utils` module: the canonical id of a
 * message or term reference, the "unknown reference" diagnostic, the
 * conversion of host values to Fluent values, and the `VariantsType` value
 * that compares against the case variants of its text.
 */
module Utils {
  import opened Wrappers

  // ---------------------------------------------------------------------------
  // Constants of the id format
  // ---------------------------------------------------------------------------

  /** `TERM_SIGIL`: the character that opens a term id. */
  const TermSigil: char := '-'

  /** `ATTRIBUTE_SEPARATOR`: the character between a name and its attribute. */
  const AttributeSeparator: char := '.'

  /** `s.startswith(TERM_SIGIL)`. */
  predicate StartsWithSigil(s: string)
    ensures StartsWithSigil(s) <==> |s| > 0 && s[0] == TermSigil
  {
    [TermSigil] <= s
  }

  // ---------------------------------------------------------------------------
  // References and their canonical ids
  // ---------------------------------------------------------------------------

  /** Which AST node a reference is: a `MessageReference` or a `TermReference`. */
  datatype RefKind = Message | Term

  /** A reference node: its kind, `ref.id.name`, and `ref.attribute.name` if an attribute is present. */
  datatype Ref = Ref(kind: RefKind, name: string, attribute: Option<string>)

  /**
   * The references whose ids can be read back: no name contains the separator
   * and no message name looks like a term. Fluent identifiers always are.
   */
  predicate WellFormed(r: Ref) {
    && AttributeSeparator !in r.name
    && (r.kind == Message ==> !StartsWithSigil(r.name))
  }

  /** `reference_to_id`: `name`, `-name`, `name.attr` or `-name.attr`. */
  function ReferenceToId(r: Ref): (id: string)
    ensures r.kind == Term ==> StartsWithSigil(id)
    ensures AttributeSeparator in id <==> AttributeSeparator in r.name || r.attribute.Some?
  {
    var start := if r.kind == Term then [TermSigil] + r.name else r.name;
    match r.attribute
    case Some(attribute) => start + [AttributeSeparator] + attribute
    case None => start
  }

  /** The position of the first `c` in `s`, if there is one. */
  function IndexOf(s: string, c: char): (k: Option<nat>)
    ensures k.None? <==> c !in s
    ensures k.Some? ==> k.value < |s| && s[k.value] == c && c !in s[..k.value]
  {
    if s == [] then None
    else if s[0] == c then Some(0)
    else match IndexOf(s[1..], c)
      case None => None
      case Some(j) =>
        assert s[..j + 1] == [s[0]] + s[1..][..j];
        Some(j + 1)
  }

  /**
   * The reference an id stands for: everything after the first separator is
   * the attribute, and a leading sigil makes it a term. This is the inverse of
   * `ReferenceToId` on well-formed references.
   */
  function ParseId(id: string): (r: Ref)
    ensures WellFormed(r)
  {
    match IndexOf(id, AttributeSeparator)
    case None => ParseHead(id, None)
    case Some(k) => ParseHead(id[..k], Some(id[k + 1..]))
  }

  /** The part of `ParseId` that reads the text before the separator. */
  function ParseHead(head: string, attribute: Option<string>): (r: Ref)
    requires AttributeSeparator !in head
    ensures WellFormed(r) && r.attribute == attribute
    ensures ReferenceToId(r) == if attribute.Some? then head + [AttributeSeparator] + attribute.value else head
  {
    if StartsWithSigil(head) then
      assert head == [TermSigil] + head[1..];
      Ref(Term, head[1..], attribute)
    else
      Ref(Message, head, attribute)
  }

  /** If `c` does not occur in `p`, the first `c` of `p + [c] + q` is the one after `p`. */
  lemma IndexOfAfterPrefix(p: string, c: char, q: string)
    requires c !in p
    ensures IndexOf(p + [c] + q, c) == Some(|p|)
  {
    var s := p + [c] + q;
    assert s[|p|] == c;
  }

  /** Reading back the id of a well-formed reference gives the reference itself. */
  lemma ParseReferenceToId(r: Ref)
    requires WellFormed(r)
    ensures ParseId(ReferenceToId(r)) == r
  {
    var start := if r.kind == Term then [TermSigil] + r.name else r.name;
    assert AttributeSeparator !in start;
    match r.attribute
    case None =>
      if r.kind == Term {
        assert StartsWithSigil(start) && start[1..] == r.name;
      }
    case Some(attribute) =>
      var id := start + [AttributeSeparator] + attribute;
      IndexOfAfterPrefix(start, AttributeSeparator, attribute);
      assert id[..|start|] == start;
      assert id[|start| + 1..] == attribute;
      if r.kind == Term {
        assert StartsWithSigil(start) && start[1..] == r.name;
      }
  }

  /** Every string is the id of the reference `ParseId` reads from it. */
  lemma ReferenceToIdOfParse(id: string)
    ensures ReferenceToId(ParseId(id)) == id
  {
    match IndexOf(id, AttributeSeparator)
    case None =>
    case Some(k) =>
      assert id == id[..k] + [AttributeSeparator] + id[k + 1..];
  }

  /** Distinct well-formed references have distinct ids. */
  lemma ReferenceToIdInjective(r1: Ref, r2: Ref)
    requires WellFormed(r1) && WellFormed(r2)
    ensures ReferenceToId(r1) == ReferenceToId(r2) <==> r1 == r2
  {
    if ReferenceToId(r1) == ReferenceToId(r2) {
      ParseReferenceToId(r1);
      ParseReferenceToId(r2);
    }
  }

  /** The forms listed in the documentation of `reference_to_id`. */
  lemma ReferenceToIdForms(name: string, attribute: string)
    ensures ReferenceToId(Ref(Message, name, None)) == name
    ensures ReferenceToId(Ref(Message, name, Some(attribute))) == name + "." + attribute
    ensures ReferenceToId(Ref(Term, name, None)) == "-" + name
    ensures ReferenceToId(Ref(Term, name, Some(attribute))) == "-" + name + "." + attribute
  {
  }

  // ---------------------------------------------------------------------------
  // The "unknown reference" diagnostic
  // ---------------------------------------------------------------------------

  /** A `FluentReferenceError`, reduced to the message it carries. */
  datatype FluentReferenceError = FluentReferenceError(message: string)

  const UnknownAttributeText: string := "Unknown attribute: "
  const UnknownTermText: string := "Unknown term: "
  const UnknownMessageText: string := "Unknown message: "

  /** `unknown_reference_error_obj`: the attribute test comes before the term test. */
  function UnknownReferenceErrorObj(id: string): (e: FluentReferenceError)
    ensures AttributeSeparator in id ==> e.message == UnknownAttributeText + id
    ensures AttributeSeparator !in id && StartsWithSigil(id) ==> e.message == UnknownTermText + id
    ensures AttributeSeparator !in id && !StartsWithSigil(id) ==> e.message == UnknownMessageText + id
  {
    if AttributeSeparator in id then FluentReferenceError(UnknownAttributeText + id)
    else if StartsWithSigil(id) then FluentReferenceError(UnknownTermText + id)
    else FluentReferenceError(UnknownMessageText + id)
  }

  /** No two of the three texts followed by ids make the same message. */
  lemma TextsDiffer(x: string, y: string)
    ensures UnknownAttributeText + x != UnknownTermText + y
    ensures UnknownAttributeText + x != UnknownMessageText + y
    ensures UnknownTermText + x != UnknownMessageText + y
  {
    assert (UnknownAttributeText + x)[8] == 'a';
    assert (UnknownTermText + y)[8] == 't';
    assert (UnknownTermText + x)[8] == 't';
    assert (UnknownMessageText + y)[8] == 'm';
  }

  /** Every id gets exactly one of the three messages. */
  lemma ExactlyOneMessage(id: string)
    ensures UnknownReferenceErrorObj(id).message == UnknownAttributeText + id <==> AttributeSeparator in id
    ensures UnknownReferenceErrorObj(id).message == UnknownTermText + id <==> AttributeSeparator !in id && StartsWithSigil(id)
    ensures UnknownReferenceErrorObj(id).message == UnknownMessageText + id <==> AttributeSeparator !in id && !StartsWithSigil(id)
  {
  }

  /** The message names the id it was built from. */
  lemma UnknownReferenceErrorInjective(a: string, b: string)
    ensures UnknownReferenceErrorObj(a) == UnknownReferenceErrorObj(b) <==> a == b
  {
    if UnknownReferenceErrorObj(a) == UnknownReferenceErrorObj(b) {
      TextsDiffer(a, b);
      TextsDiffer(b, a);
      var ma, mb := UnknownReferenceErrorObj(a).message, UnknownReferenceErrorObj(b).message;
      var n := |ma| - |a|;
      assert a == ma[n..];
      assert b == mb[n..];
    }
  }

  /** The diagnostic classifies an id exactly as the reference the id stands for. */
  lemma UnknownReferenceErrorReadsRef(id: string)
    ensures var r, m := ParseId(id), UnknownReferenceErrorObj(id).message;
      && (m == UnknownAttributeText + id <==> r.attribute.Some?)
      && (m == UnknownTermText + id <==> r.attribute.None? && r.kind == Term)
      && (m == UnknownMessageText + id <==> r.attribute.None? && r.kind == Message)
  {
  }

  /**
   * Encode, then classify: the diagnostic for the id of a well-formed reference
   * says "attribute" iff it has one, and otherwise "term" iff it is a term.
   */
  lemma UnknownReferenceErrorOfId(r: Ref)
    requires WellFormed(r)
    ensures var id := ReferenceToId(r); var m := UnknownReferenceErrorObj(id).message;
      && (m == UnknownAttributeText + id <==> r.attribute.Some?)
      && (m == UnknownTermText + id <==> r.attribute.None? && r.kind == Term)
      && (m == UnknownMessageText + id <==> r.attribute.None? && r.kind == Message)
  {
  }

  /** Examples, among them an attribute of a term. */
  lemma UnknownReferenceErrorExamples()
    ensures UnknownReferenceErrorObj("greeting.formal").message == "Unknown attribute: greeting.formal"
    ensures UnknownReferenceErrorObj("-brand").message == "Unknown term: -brand"
    ensures UnknownReferenceErrorObj("greeting").message == "Unknown message: greeting"
    ensures UnknownReferenceErrorObj("-brand.short").message == "Unknown attribute: -brand.short"
  {
    assert "greeting.formal"[8] == AttributeSeparator;
    assert "-brand.short"[6] == AttributeSeparator;
    assert "greeting"[0] != TermSigil;
  }

  // ---------------------------------------------------------------------------
  // Case maps and VariantsType
  // ---------------------------------------------------------------------------

  /** `str.lower` on one character, ASCII letters only. */
  function LowerChar(c: char): char {
    if 'A' <= c <= 'Z' then (c as int + 32) as char else c
  }

  /** `str.upper` on one character, ASCII letters only. */
  function UpperChar(c: char): char {
    if 'a' <= c <= 'z' then (c as int - 32) as char else c
  }

  /** `str.lower`: every character mapped in place. */
  function Lower(s: string): (r: string)
    ensures |r| == |s|
    ensures forall i :: 0 <= i < |s| ==> r[i] == LowerChar(s[i])
  {
    if s == [] then [] else [LowerChar(s[0])] + Lower(s[1..])
  }

  /** `str.upper`: every character mapped in place. */
  function Upper(s: string): (r: string)
    ensures |r| == |s|
    ensures forall i :: 0 <= i < |s| ==> r[i] == UpperChar(s[i])
  {
    if s == [] then [] else [UpperChar(s[0])] + Upper(s[1..])
  }

  /** For the ASCII case maps, lowering forgets whether a string was lowered or raised before. */
  lemma LowerForgetsCase(s: string)
    ensures Lower(Lower(s)) == Lower(s)
    ensures Lower(Upper(s)) == Lower(s)
  {
  }

  /** An opaque `babel.core.Locale`; `format` never looks at it. */
  datatype Locale = Locale(identifier: string)

  /** What `VariantsType.__eq__` may be compared with. */
  datatype Comparand = StrValue(s: string) | VariantsValue(v: VariantsType) | OtherValue

  /** `VariantsType`: `values` is `(str(value), str(value).lower(), str(value).upper())`. */
  datatype VariantsType = VariantsType(values: (string, string, string)) {

    /** `__init__`, given `str(value)`. */
    static function New(text: string): (v: VariantsType)
      ensures forall l: Locale :: v.Format(l) == text
      ensures v.Equals(StrValue(text)) && v.Equals(StrValue(Lower(text))) && v.Equals(StrValue(Upper(text)))
    {
      VariantsType((text, Lower(text), Upper(text)))
    }

    /** `__eq__`: a string matches one of the three forms; another value matches the triple. */
    function Equals(other: Comparand): (r: bool)
      ensures other.StrValue? ==> (r <==> other.s in [values.0, values.1, values.2])
      ensures other.VariantsValue? ==> (r <==> other.v == this)
      ensures other.OtherValue? ==> !r
    {
      match other
      case StrValue(s) => s == values.0 || s == values.1 || s == values.2
      case VariantsValue(v) => values == v.values
      case OtherValue => false
    }

    /** `format`: the original form, whatever the locale. */
    function Format(locale: Locale): (r: string)
      ensures r == values.0 && Equals(StrValue(r))
    {
      values.0
    }
  }

  /** A string equals `VariantsType(x)` iff it is `str(x)`, or that text lowered or raised. */
  lemma VariantsEqualsString(text: string, s: string)
    ensures VariantsType.New(text).Equals(StrValue(s)) <==> s == text || s == Lower(text) || s == Upper(text)
  {
  }

  /** Under the ASCII case maps, every string that matches is a case variant of the text. */
  lemma VariantsMatchIsCaseVariant(text: string, s: string)
    requires VariantsType.New(text).Equals(StrValue(s))
    ensures Lower(s) == Lower(text)
  {
    LowerForgetsCase(text);
  }

  /** Matching is not case-insensitive: a mixed-case variant of "None" does not match. */
  lemma VariantsMatchIsNotCaseInsensitive()
    ensures Lower("nOne") == Lower("None")
    ensures !VariantsType.New("None").Equals(StrValue("nOne"))
  {
  }

  /** Two values made from texts are equal iff the texts are. */
  lemma VariantsEqualsVariants(a: string, b: string)
    ensures VariantsType.New(a).Equals(VariantsValue(VariantsType.New(b))) <==> a == b
  {
  }

  /** Equality between two `VariantsType` values is an equivalence. */
  lemma VariantsEqualityIsEquivalence(u: VariantsType, v: VariantsType, w: VariantsType)
    ensures u.Equals(VariantsValue(u))
    ensures u.Equals(VariantsValue(v)) ==> v.Equals(VariantsValue(u))
    ensures u.Equals(VariantsValue(v)) && v.Equals(VariantsValue(w)) ==> u.Equals(VariantsValue(w))
  {
  }

  /** `format` ignores the locale, and the text it gives matches the value. */
  lemma FormatIgnoresLocale(v: VariantsType, l1: Locale, l2: Locale)
    ensures v.Format(l1) == v.Format(l2)
    ensures v.Equals(StrValue(v.Format(l1)))
  {
  }

  // ---------------------------------------------------------------------------
  // Host values and their conversion
  // ---------------------------------------------------------------------------

  /**
   * A host value, by its class. Only integers and booleans are kept as values;
   * the others carry their `str()` text, since they are only ever wrapped.
   */
  datatype NativeValue =
    | Bool(b: bool)
    | Int(i: int)
    | Float(text: string)
    | Decimal(text: string)
    | Date(text: string)
    | DateTime(text: string)
    | NoneValue
    | Other(text: string)

  /** The classes `native_to_fluent` tests for, and the class of everything else. */
  datatype PyType = BoolType | IntType | FloatType | DecimalType | DateType | DateTimeType | NoneType | OtherType

  /** `type(v)`. */
  function TypeOf(v: NativeValue): (t: PyType)
    ensures t == NoneType <==> v.NoneValue?
    ensures t == OtherType <==> v.Other?
    ensures t == BoolType <==> v.Bool?
  {
    match v
    case Bool(_) => BoolType
    case Int(_) => IntType
    case Float(_) => FloatType
    case Decimal(_) => DecimalType
    case Date(_) => DateType
    case DateTime(_) => DateTimeType
    case NoneValue => NoneType
    case Other(_) => OtherType
  }

  /** `issubclass(a, b)`: `bool` derives from `int`, `datetime` from `date`. */
  predicate IsSubclass(a: PyType, b: PyType)
    ensures a == b ==> IsSubclass(a, b)
    ensures (a, b) == (BoolType, IntType) ==> IsSubclass(a, b)
    ensures (a, b) == (DateTimeType, DateType) ==> IsSubclass(a, b)
    ensures IsSubclass(a, b) && a != b ==> (a, b) == (BoolType, IntType) || (a, b) == (DateTimeType, DateType)
  {
    a == b || (a == BoolType && b == IntType) || (a == DateTimeType && b == DateType)
  }

  /** `isinstance(v, t)`. */
  predicate IsInstance(v: NativeValue, t: PyType)
    ensures v.Bool? ==> (IsInstance(v, t) <==> t == BoolType || t == IntType)
    ensures v.DateTime? ==> (IsInstance(v, t) <==> t == DateTimeType || t == DateType)
    ensures v.Int? ==> (IsInstance(v, t) <==> t == IntType)
    ensures v.Date? ==> (IsInstance(v, t) <==> t == DateType)
    ensures v.NoneValue? ==> (IsInstance(v, t) <==> t == NoneType)
  {
    IsSubclass(TypeOf(v), t)
  }

  /** `issubclass` is a partial order on these classes. */
  lemma SubclassIsPartialOrder(a: PyType, b: PyType, c: PyType)
    ensures IsSubclass(a, a)
    ensures IsSubclass(a, b) && IsSubclass(b, a) ==> a == b
    ensures IsSubclass(a, b) && IsSubclass(b, c) ==> IsSubclass(a, c)
  {
  }

  /** The decimal digits of `n`, as `str()` writes a non-negative `int`. */
  function Digits(n: nat): (r: string)
    ensures |r| > 0 && forall k :: 0 <= k < |r| ==> '0' <= r[k] <= '9'
    decreases n
  {
    (if n < 10 then "" else Digits(n / 10)) + [('0' as int + n % 10) as char]
  }

  /**
   * `str(v)`, total over host values. `utils.py` applies it (inside
   * `VariantsType`) only to `None` and, in the unreachable `bool` branch, to a
   * boolean; being total, that dead branch carries no proof obligation. The
   * integer case is Python's decimal form of an `int`.
   */
  function PyStr(v: NativeValue): (r: string)
    ensures v.Bool? ==> r == if v.b then "True" else "False"
    ensures v.NoneValue? ==> r == "None"
    ensures v.Int? ==> |r| > 0 && (v.i < 0 <==> r[0] == '-')
  {
    match v
    case Bool(b) => if b then "True" else "False"
    case Int(i) => if i < 0 then "-" + Digits(-i) else Digits(i)
    case NoneValue => "None"
    case Float(text) => text
    case Decimal(text) => text
    case Date(text) => text
    case DateTime(text) => text
    case Other(text) => text
  }

  /**
   * What `native_to_fluent` returns: a Fluent value wrapping the host value
   * (the date and date-time ones made by `from_date` and `from_date_time`),
   * a `VariantsType`, or the host value itself.
   */
  datatype FluentValue =
    | FluentInt(wrapped: NativeValue)
    | FluentFloat(wrapped: NativeValue)
    | FluentDecimal(wrapped: NativeValue)
    | FluentDate(wrapped: NativeValue)
    | FluentDateTime(wrapped: NativeValue)
    | Variants(variants: VariantsType)
    | Unconverted(wrapped: NativeValue)

  /**
   * `native_to_fluent`: the first matching test wins. `int` is tested before
   * `bool`, so a boolean becomes a `FluentInt` and the `bool` test is never
   * reached; `datetime` is tested before `date`.
   */
  function NativeToFluent(v: NativeValue): (r: FluentValue)
    ensures r.FluentInt? <==> IsInstance(v, IntType)
    ensures r.FluentFloat? <==> IsInstance(v, FloatType)
    ensures r.FluentDecimal? <==> IsInstance(v, DecimalType)
    ensures r.FluentDateTime? <==> IsInstance(v, DateTimeType)
    ensures r.FluentDate? <==> IsInstance(v, DateType) && !IsInstance(v, DateTimeType)
    ensures r.Variants? <==> v.NoneValue?
    ensures r.Variants? ==> r.variants == VariantsType.New("None")
    ensures r.Unconverted? <==> TypeOf(v) == OtherType
    ensures !r.Variants? ==> r.wrapped == v
  {
    if IsInstance(v, IntType) then FluentInt(v)
    else if IsInstance(v, FloatType) then FluentFloat(v)
    else if IsInstance(v, DecimalType) then FluentDecimal(v)
    else if IsInstance(v, DateTimeType) then FluentDateTime(v)
    else if IsInstance(v, DateType) then FluentDate(v)
    else if IsInstance(v, BoolType) then Variants(VariantsType.New(PyStr(v)))
    else if v.NoneValue? then Variants(VariantsType.New(PyStr(v)))
    else Unconverted(v)
  }

  /** The `bool` test is dead: every instance of `bool` is an instance of `int`. */
  lemma BoolTestUnreachable(v: NativeValue)
    ensures IsInstance(v, BoolType) ==> IsInstance(v, IntType)
    ensures IsInstance(v, BoolType) ==> NativeToFluent(v) == FluentInt(v)
  {
  }

  /** Booleans and integers both become `FluentInt`; a boolean never becomes a `VariantsType`. */
  lemma BoolsAndIntsBecomeFluentInt(b: bool, i: int)
    ensures NativeToFluent(Bool(b)) == FluentInt(Bool(b))
    ensures NativeToFluent(Int(i)) == FluentInt(Int(i))
    ensures !NativeToFluent(Bool(b)).Variants?
  {
  }

  /** A date-time goes to the date-time factory, never the date one; a plain date to the date one. */
  lemma DatesAndDateTimes(text: string)
    ensures NativeToFluent(DateTime(text)) == FluentDateTime(DateTime(text))
    ensures !NativeToFluent(DateTime(text)).FluentDate?
    ensures NativeToFluent(Date(text)) == FluentDate(Date(text))
  {
  }

  /** `None` becomes the `VariantsType` of "None"; anything unrecognised comes back unchanged. */
  lemma NoneAndOthers(text: string)
    ensures NativeToFluent(NoneValue) == Variants(VariantsType.New("None"))
    ensures NativeToFluent(NoneValue).variants.Equals(StrValue("none"))
    ensures NativeToFluent(Other(text)) == Unconverted(Other(text))
  {
  }
}
