/** Values as the JSON decoder hands them over, and facts: a value that was read, or the reason
    it was not. */
module Facts {

  /** A Python float: finite, or one of the three values a double adds to the reals. */
  datatype Number = Finite(r: real) | PosInf | NegInf | NaN

  /** Python's `<=` between two numbers. Every comparison against NaN is false. */
  predicate AtMost(a: Number, b: Number) {
    match (a, b)
    case (NaN, _) => false
    case (_, NaN) => false
    case (NegInf, _) => true
    case (_, PosInf) => true
    case (Finite(x), Finite(y)) => x <= y
    case _ => false
  }

  /** Python's `==` between two numbers: NaN is not even equal to itself. */
  predicate SameNumber(a: Number, b: Number) {
    a == b && a != NaN
  }

  datatype Value =
    | Null
    | Bool(b: bool)
    | Int(i: int)
    | Float(n: Number)
    | Str(s: string)
    | List(items: seq<Value>)
    | Dict(entries: map<string, Value>)

  /** `isinstance(v, (int, float)) and not isinstance(v, bool)`. */
  predicate IsNumber(v: Value) {
    v.Int? || v.Float?
  }

  /** The number a numeric value stands for; an int compares with a float exactly. */
  function NumberOf(v: Value): Number
    requires IsNumber(v)
  {
    if v.Int? then Finite(v.i as real) else v.n
  }

  /** Python's truth value of a decoded JSON value. */
  predicate Truthy(v: Value) {
    match v
    case Null => false
    case Bool(b) => b
    case Int(i) => i != 0
    case Float(n) => n != Finite(0.0)
    case Str(s) => s != ""
    case List(items) => items != []
    case Dict(entries) => entries != map[]
  }

  /** What is false: seven values, and no others. */
  lemma FalsyValues(v: Value)
    ensures !Truthy(v) <==>
      v in {Null, Bool(false), Int(0), Float(Finite(0.0)), Str(""), List([]), Dict(map[])}
  {}

  /** NaN aside, `<=` is the order of the reals between the two infinities. */
  lemma AtMostIsTheOrder(a: Number, b: Number, c: Number)
    ensures a == NaN || b == NaN ==> !AtMost(a, b) && !SameNumber(a, b)
    ensures a != NaN ==> AtMost(NegInf, a) && AtMost(a, PosInf) && AtMost(a, a) && SameNumber(a, a)
    ensures a != NaN && b != NaN ==> AtMost(a, b) || AtMost(b, a)
    ensures AtMost(a, b) && AtMost(b, a) ==> a == b
    ensures AtMost(a, b) && AtMost(b, c) ==> AtMost(a, c)
    ensures a.Finite? && b.Finite? ==> (AtMost(a, b) <==> a.r <= b.r)
    ensures SameNumber(a, b) <==> AtMost(a, b) && AtMost(b, a)
  {}

  datatype UnknownReason = ServiceAbsent | FieldAbsent | InsufficientPermission

  datatype Fact = Known(value: Value) | Unknown(reason: UnknownReason)

  /** A present key is Known even when its value is null; a missing one is field-absent. */
  function Read(payload: map<string, Value>, key: string): Fact {
    if key in payload then Known(payload[key]) else Unknown(FieldAbsent)
  }
}
