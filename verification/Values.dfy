/** Endpoint values, and how a value of one type becomes one of another. */
module Values {

  datatype ValueType = INTEGER | FLOAT | STRING

  datatype Value =
    | IntegerValue(i: int)
    | FloatValue(r: real)
    | StringValue(s: string)
  {
    function Type(): ValueType {
      match this
      case IntegerValue(_) => INTEGER
      case FloatValue(_) => FLOAT
      case StringValue(_) => STRING
    }
  }

  // ---------------------------------------------------------------- conversion

  /** Conversion to and from text, as the C library does it. */
  datatype Texts = Texts(printInteger: int -> string, printFloat: real -> string,
                         readInteger: string -> int, readFloat: string -> real)

  /** Conversion from float to integer truncates toward zero. */
  function Truncated(r: real): int {
    if r >= 0.0 then r.Floor else -((-r).Floor)
  }

  function Converted(v: Value, t: ValueType, texts: Texts): (u: Value)
    ensures u.Type() == t
    ensures v.Type() == t ==> u == v
  {
    match (v, t)
    case (IntegerValue(i), INTEGER) => v
    case (IntegerValue(i), FLOAT) => FloatValue(i as real)
    case (IntegerValue(i), STRING) => StringValue(texts.printInteger(i))
    case (FloatValue(r), INTEGER) => IntegerValue(Truncated(r))
    case (FloatValue(r), FLOAT) => v
    case (FloatValue(r), STRING) => StringValue(texts.printFloat(r))
    case (StringValue(s), INTEGER) => IntegerValue(texts.readInteger(s))
    case (StringValue(s), FLOAT) => FloatValue(texts.readFloat(s))
    case (StringValue(s), STRING) => v
  }

  /** Truncation loses less than one, toward zero; integers survive the way to float and back. */
  lemma TruncatedIsNear(r: real, i: int)
    ensures r >= 0.0 ==> Truncated(r) as real <= r < Truncated(r) as real + 1.0
    ensures r <= 0.0 ==> Truncated(r) as real - 1.0 < r <= Truncated(r) as real
    ensures Truncated(i as real) == i
  {
  }

  /** What conversion comes to, type by type. */
  lemma ConversionMeans(v: Value, t: ValueType, texts: Texts)
    ensures v.IntegerValue? && t == FLOAT ==> Converted(v, t, texts) == FloatValue(v.i as real)
    ensures v.FloatValue? && t == INTEGER ==>
              && Converted(v, t, texts).IntegerValue?
              && var n := Converted(v, t, texts).i as real;
                 if v.r >= 0.0 then 0.0 <= n <= v.r < n + 1.0 else n - 1.0 < v.r <= n <= 0.0
    ensures v.IntegerValue? && t == STRING ==> Converted(v, t, texts) == StringValue(texts.printInteger(v.i))
    ensures v.FloatValue? && t == STRING ==> Converted(v, t, texts) == StringValue(texts.printFloat(v.r))
    ensures v.StringValue? && t == INTEGER ==> Converted(v, t, texts) == IntegerValue(texts.readInteger(v.s))
    ensures v.StringValue? && t == FLOAT ==> Converted(v, t, texts) == FloatValue(texts.readFloat(v.s))
    ensures v.Type() == t ==> Converted(v, t, texts) == v
  {
  }

  /** What meets a constraint: a listed state, a number within its bounds, or a text that is no shorter and
      no longer than they say. */
  lemma SatisfiedMeans(info: StateInfo, v: Value)
    requires info.Valid() && v.Type() == info.valueType
    ensures info.constraint.Allowed? ==> (info.Satisfied(v) <==> v in info.constraint.states)
    ensures info.constraint.Range? && v.StringValue? ==>
              (info.Satisfied(v) <==> !(|v.s| < info.constraint.minimum.i) && !(|v.s| > info.constraint.maximum.i))
    ensures info.constraint.Range? && v.IntegerValue? ==>
              (info.Satisfied(v) <==> !(v.i < info.constraint.minimum.i) && !(v.i > info.constraint.maximum.i))
    ensures info.constraint.Range? && v.FloatValue? ==>
              (info.Satisfied(v) <==> !(v.r < info.constraint.minimum.r) && !(v.r > info.constraint.maximum.r))
  {
  }

  /** The value an endpoint has before it is set for the first time. */
  function Zero(t: ValueType): (v: Value)
    ensures v.Type() == t
  {
    match t
    case INTEGER => IntegerValue(0)
    case FLOAT => FloatValue(0.0)
    case STRING => StringValue("")
  }

  /** Bounds are given in the endpoint's type; for texts they bound the length. */
  datatype Constraint = Range(minimum: Value, maximum: Value) | Allowed(states: seq<Value>)

  datatype StateInfo = StateInfo(valueType: ValueType, constraint: Constraint, initial: Value)
  {
    predicate Valid() {
      && initial.Type() == valueType
      && (constraint.Range? ==>
            var t := if valueType == STRING then INTEGER else valueType;
            constraint.minimum.Type() == t && constraint.maximum.Type() == t)
    }

    /** A value of the endpoint's type meets the constraint. */
    predicate Satisfied(v: Value)
      requires Valid() && v.Type() == valueType
    {
      match constraint
      case Allowed(states) => v in states
      case Range(minimum, maximum) =>
        match v
        case StringValue(s) => minimum.i <= |s| <= maximum.i
        case IntegerValue(i) => minimum.i <= i <= maximum.i
        case FloatValue(r) => minimum.r <= r <= maximum.r
    }
  }
}
