/** Filter expressions: what they mean on a record, and how they print. */
module Filters {
  import opened Wrappers
  import opened Types

  datatype Op = Eq | NotEq | Gt | Lt | GtEq | LtEq | In | StartsWith | Contains | EndsWith | Between

  datatype FilterExpr =
    | Simple(field: string, op: Op, value: DataValue)
    | And(left: FilterExpr, right: FilterExpr)
    | Or(left: FilterExpr, right: FilterExpr)
    | Not(expr: FilterExpr)

  // ---------- Evaluation ----------

  /**
   * What evaluation takes from outside: rounding an integer to `f64`, the value of a float, looking a
   * field up inside a record's value, and the order of values that are not both numbers.
   */
  datatype Env = Env(
    round: int -> real,
    float: (int, int) -> real,
    extract: (DataValue, string) -> Option<DataValue>,
    less: (DataValue, DataValue) -> bool)

  function RecordField(env: Env, r: Record, field: string): Option<DataValue>
  {
    if field == "key" then Some(String(r.key))
    else if field == "timestamp" then Some(Int(r.timestamp))
    else if field == "sequence_id" then Some(UInt(r.seqId))
    else if field == "stream" then Some(String(r.stream))
    else if field == "value" then Some(r.value)
    else env.extract(r.value, field)
  }

  function ToF64(env: Env, v: DataValue): Option<real>
  {
    match v
    case Int(i) => Some(env.round(i))
    case UInt(u) => Some(env.round(u))
    case Float(m, e) => Some(env.float(m, e))
    case _ => None
  }

  predicate SameValue(env: Env, a: DataValue, b: DataValue)
  {
    var x, y := ToF64(env, a), ToF64(env, b);
    if x.Some? && y.Some? then x == y else a == b
  }

  predicate HasSubstring(s: string, t: string)
  {
    exists i :: 0 <= i <= |s| && t <= s[i..]
  }

  predicate CompareNumbers(x: real, op: Op, y: real)
  {
    if op == Eq then x == y
    else if op == NotEq then x != y
    else if op == Gt then x > y
    else if op == Lt then x < y
    else if op == GtEq then x >= y
    else op == LtEq && x <= y
  }

  predicate CompareOthers(env: Env, a: DataValue, op: Op, b: DataValue)
  {
    if op == Eq then a == b
    else if op == NotEq then a != b
    else if op == Gt then env.less(b, a)
    else if op == Lt then env.less(a, b)
    else if op == GtEq then a == b || env.less(b, a)
    else op == LtEq && (a == b || env.less(a, b))
  }

  predicate CompareValues(env: Env, a: DataValue, op: Op, b: DataValue)
  {
    match op
    case In => b.Array? && exists i :: 0 <= i < |b.items| && SameValue(env, a, b.items[i])
    case StartsWith => a.String? && b.String? && b.s <= a.s
    case Contains => a.String? && b.String? && HasSubstring(a.s, b.s)
    case EndsWith => a.String? && b.String? && |b.s| <= |a.s| && a.s[|a.s| - |b.s|..] == b.s
    case Between =>
      && b.Array? && |b.items| == 2
      && var lo, hi, v := ToF64(env, b.items[0]), ToF64(env, b.items[1]), ToF64(env, a);
         lo.Some? && hi.Some? && v.Some? && lo.value <= v.value <= hi.value
    case _ =>
      var x, y := ToF64(env, a), ToF64(env, b);
      if x.Some? && y.Some? then CompareNumbers(x.value, op, y.value) else CompareOthers(env, a, op, b)
  }

  predicate Evaluate(env: Env, r: Record, e: FilterExpr)
  {
    match e
    case Simple(field, op, value) =>
      var v := RecordField(env, r, field);
      v.Some? && CompareValues(env, v.value, op, value)
    case And(left, right) => Evaluate(env, r, left) && Evaluate(env, r, right)
    case Or(left, right) => Evaluate(env, r, left) || Evaluate(env, r, right)
    case Not(inner) => !Evaluate(env, r, inner)
  }

  predicate Numeric(env: Env, v: DataValue)
  {
    ToF64(env, v).Some?
  }

  /** Equality and "less" are those of the numbers between two numbers, and the values' own otherwise. */
  predicate Equal(env: Env, a: DataValue, b: DataValue)
  {
    if Numeric(env, a) && Numeric(env, b) then ToF64(env, a).value == ToF64(env, b).value else a == b
  }

  predicate Less(env: Env, a: DataValue, b: DataValue)
  {
    if Numeric(env, a) && Numeric(env, b) then ToF64(env, a).value < ToF64(env, b).value else env.less(a, b)
  }

  /** All six comparisons are those of one equality and one order. */
  lemma {:induction false} OrderOperators(env: Env, a: DataValue, op: Op, b: DataValue)
    requires op in {Eq, NotEq, Gt, Lt, GtEq, LtEq}
    ensures CompareValues(env, a, op, b) <==>
      match op
      case Eq => Equal(env, a, b)
      case NotEq => !Equal(env, a, b)
      case Lt => Less(env, a, b)
      case Gt => Less(env, b, a)
      case LtEq => Less(env, a, b) || Equal(env, a, b)
      case _ => Less(env, b, a) || Equal(env, a, b)
  {
    Ordered(env, a, op, b);
    hide CompareValues, ToF64, Numeric;
    match op {
      case Eq =>
      case NotEq =>
      case Lt =>
      case Gt =>
      case LtEq =>
      case GtEq =>
    }
  }

  lemma {:induction false} Ordered(env: Env, a: DataValue, op: Op, b: DataValue)
    requires op in {Eq, NotEq, Gt, Lt, GtEq, LtEq}
    ensures CompareValues(env, a, op, b) <==>
      if Numeric(env, a) && Numeric(env, b) then CompareNumbers(ToF64(env, a).value, op, ToF64(env, b).value)
      else CompareOthers(env, a, op, b)
  {
    hide ToF64, CompareNumbers, CompareOthers;
  }

  /** Prefix, suffix and substring, membership and interval, each by what it says. */
  lemma {:induction false} OtherOperators(env: Env, a: DataValue, b: DataValue)
    ensures CompareValues(env, a, StartsWith, b) <==> a.String? && b.String? && exists rest :: a.s == b.s + rest
    ensures CompareValues(env, a, EndsWith, b) <==> a.String? && b.String? && exists init :: a.s == init + b.s
    ensures CompareValues(env, a, Contains, b) <==> a.String? && b.String? && exists init, rest :: a.s == init + b.s + rest
    ensures CompareValues(env, a, In, b) <==> b.Array? && exists x :: x in b.items && Equal(env, a, x)
    ensures CompareValues(env, a, Between, b) <==>
      && b.Array? && |b.items| == 2 && Numeric(env, a) && Numeric(env, b.items[0]) && Numeric(env, b.items[1])
      && !Less(env, a, b.items[0]) && !Less(env, b.items[1], a)
  {
    if a.String? && b.String? {
      PrefixMeans(a.s, b.s);
      SuffixMeans(a.s, b.s);
      SubstringMeans(a.s, b.s);
    }
    if b.Array? {
      forall i | 0 <= i < |b.items|
        ensures SameValue(env, a, b.items[i]) <==> Equal(env, a, b.items[i])
      {
      }
      hide SameValue, Equal;
      if i :| 0 <= i < |b.items| && SameValue(env, a, b.items[i]) {
        assert b.items[i] in b.items;
      }
    }
  }

  lemma {:induction false} PrefixMeans(s: string, t: string)
    ensures t <= s <==> exists rest :: s == t + rest
  {
    if t <= s {
      assert s == t + s[|t|..];
    }
  }

  lemma {:induction false} SuffixMeans(s: string, t: string)
    ensures |t| <= |s| && s[|s| - |t|..] == t <==> exists init :: s == init + t
  {
    if |t| <= |s| && s[|s| - |t|..] == t {
      assert s == s[..|s| - |t|] + t;
    }
    if init :| s == init + t {
      assert s[|init|..] == t;
    }
  }

  lemma {:induction false} SubstringMeans(s: string, t: string)
    ensures HasSubstring(s, t) <==> exists init, rest :: s == init + t + rest
  {
    hide HasSubstring;
    if HasSubstring(s, t) {
      var i := SubstringAt(s, t);
    }
    if init, rest :| s == init + t + rest {
      SubstringFound(init, t, rest);
    }
  }

  lemma {:induction false} SubstringAt(s: string, t: string) returns (i: nat)
    requires HasSubstring(s, t)
    ensures i + |t| <= |s| && s == s[..i] + t + s[i + |t|..]
  {
    i :| 0 <= i <= |s| && t <= s[i..];
    assert s[i..][..|t|] == t;
    assert s[i..i + |t|] == t;
  }

  lemma {:induction false} SubstringFound(init: string, t: string, rest: string)
    ensures HasSubstring(init + t + rest, t)
  {
    var s := init + t + rest;
    assert s[|init|..] == t + rest;
  }

  // ---------- Printing ----------

  function OpText(op: Op): string
  {
    match op
    case Eq => "=="
    case NotEq => "!="
    case Gt => ">"
    case Lt => "<"
    case GtEq => ">="
    case LtEq => "<="
    case In => "in"
    case StartsWith => "startsWith"
    case Contains => "contains"
    case EndsWith => "endsWith"
    case Between => "between"
  }

  function DigitChar(d: nat): char
    requires d < 10
  {
    "0123456789"[d]
  }

  function NatText(n: nat): (s: string)
    ensures s != []
  {
    (if n < 10 then [] else NatText(n / 10)) + [DigitChar(n % 10)]
  }

  function IntText(i: int): string
  {
    if i < 0 then "-" + NatText(-i) else NatText(i)
  }

  /** Values outside the parser's language (floats, binaries, objects, vectors) print as `other` says. */
  function ValueText(other: DataValue -> string, v: DataValue): string
  {
    match v
    case Null => "null"
    case Bool(b) => if b then "true" else "false"
    case Int(i) => IntText(i)
    case UInt(u) => NatText(u)
    case String(s) => "\"" + s + "\""
    case Array(items) => "[" + ItemsText(other, items) + "]"
    case _ => other(v)
  }

  function ItemsText(other: DataValue -> string, items: seq<DataValue>): string
  {
    if items == [] then ""
    else if |items| == 1 then ValueText(other, items[0])
    else ValueText(other, items[0]) + ", " + ItemsText(other, items[1..])
  }

  /** `to_dsl_string`: parentheses only after `not`. */
  function Print(other: DataValue -> string, e: FilterExpr): string
  {
    match e
    case Simple(field, op, value) => field + " " + OpText(op) + " " + ValueText(other, value)
    case And(left, right) => Print(other, left) + " and " + Print(other, right)
    case Or(left, right) => Print(other, left) + " or " + Print(other, right)
    case Not(inner) => "not(" + Print(other, inner) + ")"
  }
}
