/**
 * The runtime value of include/value.h: a tag (`ValueType`) together with a
 * payload that is a boolean, nothing, or a double.  The datatype below keeps
 * exactly the tag/payload pairs that the constructor macros BOOL_VAL,
 * NULL_VAL and NUMBER_VAL can build.
 */
module Values {

  /**
   * A double-precision payload.  Its bit layout and the `strtod` conversion
   * that produces it are not modelled: a number is identified by the literal
   * text it was read from.
   */
  datatype Number = Number(literal: string)

  /** The tag, `ValueType` (VAL_BOOL, VAL_NULL, VAL_NUMBER). */
  datatype ValueType = ValBool | ValNull | ValNumber

  datatype Value =
    | BoolValue(boolean: bool)
    | NullValue
    | NumberValue(number: Number)

  /** The `type` field of the struct. */
  function TypeOf(v: Value): ValueType
  {
    match v
    case BoolValue(_) => ValBool
    case NullValue => ValNull
    case NumberValue(_) => ValNumber
  }

  // IS_BOOL, IS_NULL, IS_NUMBER: compare the tag.
  predicate IsBool(v: Value) { TypeOf(v) == ValBool }
  predicate IsNull(v: Value) { TypeOf(v) == ValNull }
  predicate IsNumber(v: Value) { TypeOf(v) == ValNumber }

  // AS_BOOL, AS_NUMBER: read the union member.  Reading the member that the
  // tag does not select is not meaningful, so these require the tag.
  function AsBool(v: Value): bool
    requires IsBool(v)
  {
    v.boolean
  }

  function AsNumber(v: Value): Number
    requires IsNumber(v)
  {
    v.number
  }

  /** BOOL_VAL(b): the value it builds is a boolean that reads back as `b`. */
  function BoolVal(b: bool): (v: Value)
    ensures IsBool(v) && !IsNull(v) && !IsNumber(v)
    ensures AsBool(v) == b
  {
    BoolValue(b)
  }

  /** NULL_VAL: tagged VAL_NULL. */
  function NullVal(): (v: Value)
    ensures TypeOf(v) == ValNull
    ensures IsNull(v) && !IsBool(v) && !IsNumber(v)
  {
    NullValue
  }

  /** NUMBER_VAL(x): the value it builds is a number that reads back as `x`. */
  function NumberVal(x: Number): (v: Value)
    ensures IsNumber(v) && !IsBool(v) && !IsNull(v)
    ensures AsNumber(v) == x
  {
    NumberValue(x)
  }

  /** Two values built from different payloads never compare equal. */
  lemma BoolValInjective(a: bool, b: bool)
    ensures BoolVal(a) == BoolVal(b) <==> a == b
  {
  }

  lemma NumberValInjective(x: Number, y: Number)
    ensures NumberVal(x) == NumberVal(y) <==> x == y
  {
  }

  /** Every value satisfies exactly one of IS_BOOL, IS_NULL and IS_NUMBER. */
  lemma ExactlyOneTag(v: Value)
    ensures (if IsBool(v) then 1 else 0) + (if IsNull(v) then 1 else 0) + (if IsNumber(v) then 1 else 0) == 1
  {
  }

  /** Every value is one that a constructor macro builds. */
  lemma EveryValueIsConstructed(v: Value)
    ensures IsBool(v) ==> v == BoolVal(AsBool(v))
    ensures IsNumber(v) ==> v == NumberVal(AsNumber(v))
    ensures IsNull(v) ==> v == NullVal()
  {
  }
}
