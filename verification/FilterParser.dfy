/** The filter parser: combinators over the rest of the input, with the three loops of the original. */
module FilterParser {
  import opened Wrappers
  import opened Bytes
  import opened Types
  import opened Filters
  import opened VectorSearch

  datatype Parsed<T> = Fail | Done(rest: string, value: T)

  /** How a decimal literal becomes a float value. */
  type FloatReader = string -> DataValue

  // ---------- Lexical combinators ----------

  predicate IsSpace(c: char)
  {
    c == ' ' || c == '\t' || c == '\r' || c == '\n'
  }

  predicate IsAlphabetic(c: char)
  {
    'a' <= c <= 'z' || 'A' <= c <= 'Z'
  }

  predicate IsDigit(c: char)
  {
    '0' <= c <= '9'
  }

  predicate IsIdentHead(c: char) { IsAlphabetic(c) || c == '_' }

  predicate IsIdentTail(c: char) { IsAlphabetic(c) || IsDigit(c) || c == '_' }

  function SkipSpace(s: string): (r: string)
    ensures |r| <= |s|
    ensures r != [] ==> !IsSpace(r[0])
  {
    if s != [] && IsSpace(s[0]) then SkipSpace(s[1..]) else s
  }

  /** How many leading characters satisfy `p`. */
  function Span(p: char -> bool, s: string): (n: nat)
    ensures n <= |s| && (forall i :: 0 <= i < n ==> p(s[i])) && (n < |s| ==> !p(s[n]))
  {
    if s != [] && p(s[0]) then
      var n := Span(p, s[1..]);
      assert forall i :: 0 < i < n + 1 ==> s[i] == s[1..][i - 1];
      n + 1
    else 0
  }

  function ParseIdentifier(s: string): (r: Parsed<string>)
    ensures r.Done? ==> |r.rest| < |s|
  {
    var head := Span(IsIdentHead, s);
    if head == 0 then Fail else
    var tail := Span(IsIdentTail, s[head..]);
    Done(s[head + tail..], s[..head] + s[head..head + tail])
  }

  function ParseOp(s: string): (r: Parsed<Op>)
    ensures r.Done? ==> |r.rest| < |s|
  {
    if "==" <= s then Done(s[2..], Eq)
    else if "!=" <= s then Done(s[2..], NotEq)
    else if ">=" <= s then Done(s[2..], GtEq)
    else if "<=" <= s then Done(s[2..], LtEq)
    else if ">" <= s then Done(s[1..], Gt)
    else if "<" <= s then Done(s[1..], Lt)
    else if "in" <= s then Done(s[2..], In)
    else if "startsWith" <= s then Done(s[10..], StartsWith)
    else if "contains" <= s then Done(s[8..], Contains)
    else if "endsWith" <= s then Done(s[8..], EndsWith)
    else if "between" <= s then Done(s[7..], Between)
    else Fail
  }

  // ---------- Values ----------

  function Unescape(c: char): string
  {
    if c == '"' then "\"" else if c == '\\' then "\\" else if c == 'n' then "\n"
    else if c == 't' then "\t" else if c == 'r' then "\r" else ['\\', c]
  }

  /** The rest of a string literal after its opening quote, `acc` being what was read so far. */
  function StringBody(s: string, acc: string): (r: Parsed<string>)
    ensures r.Done? ==> |r.rest| < |s|
  {
    if s == [] then Fail
    else if s[0] == '"' then Done(s[1..], acc)
    else if s[0] == '\\' then
      if |s| == 1 then Fail else StringBody(s[2..], acc + Unescape(s[1]))
    else StringBody(s[1..], acc + [s[0]])
  }

  function ParseStringLiteral(s: string): (r: Parsed<string>)
    ensures r.Done? ==> |r.rest| < |s|
  {
    if "\"" <= s then StringBody(s[1..], "") else Fail
  }

  /** The loop over the characters of a literal. */
  method ReadStringLiteral(s: string) returns (r: Parsed<string>)
    ensures r == ParseStringLiteral(s)
  {
    if s == [] || s[0] != '"' {
      return Fail;
    }
    var i, result := 1, "";
    while i < |s|
      invariant 1 <= i <= |s|
      invariant StringBody(s[1..], "") == StringBody(s[i..], result)
    {
      var c := s[i];
      assert s[i..][1..] == s[i + 1..];
      if c == '\\' {
        if i + 1 < |s| {
          assert s[i..][2..] == s[i + 2..];
          result := result + Unescape(s[i + 1]);
          i := i + 2;
        } else {
          i := i + 1;
          return Fail;
        }
      } else if c == '"' {
        return Done(s[i + 1..], result);
      } else {
        result := result + [c];
        i := i + 1;
      }
    }
    return Fail;
  }

  function DigitValue(c: char): nat
    requires IsDigit(c)
  {
    c as int - '0' as int
  }

  function NatOf(s: string): nat
    requires forall i :: 0 <= i < |s| ==> IsDigit(s[i])
  {
    if s == [] then 0 else NatOf(s[..|s| - 1]) * 10 + DigitValue(s[|s| - 1])
  }

  function ParseNumber(f: FloatReader, s: string): (r: Parsed<DataValue>)
    ensures r.Done? ==> |r.rest| < |s|
  {
    if "-" <= s then ParseDigits(f, true, s[1..]) else ParseDigits(f, false, s)
  }

  function ParseDigits(f: FloatReader, negative: bool, s1: string): (r: Parsed<DataValue>)
    ensures r.Done? ==> |r.rest| < |s1|
  {
    var whole := Span(IsDigit, s1);
    if whole == 0 then Fail else
    var s2 := s1[whole..];
    var decimals := if "." <= s2 then Span(IsDigit, s2[1..]) else 0;
    if decimals > 0 then
      Done(s2[1 + decimals..], f((if negative then "-" else "") + s1[..whole] + "." + s2[1..1 + decimals]))
    else
      var n: int := NatOf(s1[..whole]);
      if negative then (if n <= I64_MAX + 1 then Done(s2, Int(-n)) else Fail)
      else if n < U64 then Done(s2, UInt(n)) else Fail
  }

  function ParseValue(f: FloatReader, s: string): (r: Parsed<DataValue>)
    ensures r.Done? ==> |r.rest| < |s|
    decreases |s|, 1
  {
    var vec := ParseVec(f, s);
    if vec.Done? then vec else
    var str := ParseStringLiteral(s);
    if str.Done? then Done(str.rest, String(str.value))
    else if "null" <= s then Done(s[4..], Null)
    else if "true" <= s then Done(s[4..], Bool(true))
    else if "false" <= s then Done(s[5..], Bool(false))
    else
      var num := ParseNumber(f, s);
      if num.Done? then num else ParseArray(f, s)
  }

  /** `vec([...])`: every element must be an int8. */
  function ParseVec(f: FloatReader, s: string): (r: Parsed<DataValue>)
    ensures r.Done? ==> |r.rest| < |s|
    decreases |s|, 0
  {
    if !("vec(" <= s) then Fail else
    var arr := ParseArray(f, SkipSpace(s[4..]));
    if arr.Fail? || !(")" <= SkipSpace(arr.rest)) then Fail else
    var v := ToVectorStrict(arr.value);
    if v.None? then Fail else Done(SkipSpace(arr.rest)[1..], Vector(v.value))
  }

  function ParseArray(f: FloatReader, s: string): (r: Parsed<DataValue>)
    ensures r.Done? ==> |r.rest| < |s|
    decreases |s|, 0
  {
    if !("[" <= s) then Fail else
    var items := ParseItems(f, SkipSpace(s[1..]));
    var end := SkipSpace(items.rest);
    if "]" <= end then Done(end[1..], Array(items.value)) else Fail
  }

  /** `separated_list0`: a separator that no element follows is left in the input. */
  function ParseItems(f: FloatReader, s: string): (r: Parsed<seq<DataValue>>)
    ensures r.Done? && |r.rest| <= |s|
    decreases |s|, 2
  {
    var first := ParseValue(f, s);
    if first.Fail? then Done(s, []) else ParseMoreItems(f, first.rest, [first.value])
  }

  function ParseMoreItems(f: FloatReader, s: string, got: seq<DataValue>): (r: Parsed<seq<DataValue>>)
    ensures r.Done? && |r.rest| <= |s|
    decreases |s|, 2
  {
    var sep := SkipSpace(s);
    if !("," <= sep) then Done(s, got) else
    var item := ParseValue(f, SkipSpace(sep[1..]));
    if item.Fail? then Done(s, got) else ParseMoreItems(f, item.rest, got + [item.value])
  }

  // ---------- Expressions ----------

  function ParseSimple(f: FloatReader, s: string): (r: Parsed<FilterExpr>)
    ensures r.Done? ==> |r.rest| < |s|
  {
    var field := ParseIdentifier(SkipSpace(s));
    if field.Fail? then Fail else
    var op := ParseOp(SkipSpace(field.rest));
    if op.Fail? then Fail else
    var v := ParseValue(f, SkipSpace(op.rest));
    if v.Fail? then Fail else Done(SkipSpace(v.rest), Simple(field.value, op.value, v.value))
  }

  function ParsePrimary(f: FloatReader, s: string): (r: Parsed<FilterExpr>)
    ensures r.Done? ==> |r.rest| < |s|
    decreases |s|, 0
  {
    var negated := if "not" <= s then ParsePrimary(f, SkipSpace(s[3..])) else Fail;
    if negated.Done? then Done(negated.rest, Not(negated.value)) else
    var inner := if "(" <= s then ParseOr(f, SkipSpace(s[1..])) else Fail;
    if inner.Done? && ")" <= SkipSpace(inner.rest) then Done(SkipSpace(inner.rest)[1..], inner.value)
    else ParseSimple(f, s)
  }

  function ParseAnd(f: FloatReader, s: string): (r: Parsed<FilterExpr>)
    ensures r.Done? ==> |r.rest| < |s|
    decreases |s|, 1
  {
    var first := ParsePrimary(f, s);
    if first.Fail? then Fail else AndTail(f, first.rest, first.value)
  }

  /** The loop of `parse_and_expr`: `left` grows to the left; a dangling `and` is an error. */
  function AndTail(f: FloatReader, s: string, left: FilterExpr): (r: Parsed<FilterExpr>)
    ensures r.Done? ==> |r.rest| <= |s|
    decreases |s|, 1
  {
    var next := SkipSpace(s);
    if !("and" <= next) then Done(s, left) else
    var right := ParsePrimary(f, SkipSpace(next[3..]));
    if right.Fail? then Fail else AndTail(f, right.rest, And(left, right.value))
  }

  function ParseOr(f: FloatReader, s: string): (r: Parsed<FilterExpr>)
    ensures r.Done? ==> |r.rest| < |s|
    decreases |s|, 2
  {
    var first := ParseAnd(f, s);
    if first.Fail? then Fail else OrTail(f, first.rest, first.value)
  }

  function OrTail(f: FloatReader, s: string, left: FilterExpr): (r: Parsed<FilterExpr>)
    ensures r.Done? ==> |r.rest| <= |s|
    decreases |s|, 2
  {
    var next := SkipSpace(s);
    if !("or" <= next) then Done(s, left) else
    var right := ParseAnd(f, SkipSpace(next[2..]));
    if right.Fail? then Fail else OrTail(f, right.rest, Or(left, right.value))
  }

  method ParseAndExpr(f: FloatReader, input: string) returns (r: Parsed<FilterExpr>)
    ensures r == ParseAnd(f, input)
  {
    var first := ParsePrimary(f, input);
    if first.Fail? {
      return Fail;
    }
    var rest, left := first.rest, first.value;
    while "and" <= SkipSpace(rest)
      invariant ParseAnd(f, input) == AndTail(f, rest, left)
      decreases |rest|
    {
      var right := ParsePrimary(f, SkipSpace(SkipSpace(rest)[3..]));
      if right.Fail? {
        return Fail;
      }
      left := And(left, right.value);
      rest := right.rest;
    }
    return Done(rest, left);
  }

  method ParseOrExpr(f: FloatReader, input: string) returns (r: Parsed<FilterExpr>)
    ensures r == ParseOr(f, input)
  {
    var first := ParseAndExpr(f, input);
    if first.Fail? {
      return Fail;
    }
    var rest, left := first.rest, first.value;
    while "or" <= SkipSpace(rest)
      invariant ParseOr(f, input) == OrTail(f, rest, left)
      decreases |rest|
    {
      var right := ParseAndExpr(f, SkipSpace(SkipSpace(rest)[2..]));
      if right.Fail? {
        return Fail;
      }
      left := Or(left, right.value);
      rest := right.rest;
    }
    return Done(rest, left);
  }

  /** `parse_filter_stage`. */
  function ParseFilterStage(f: FloatReader, s: string): Parsed<FilterExpr>
  {
    if !("filter(" <= s) then Fail else
    var e := ParseOr(f, SkipSpace(s[7..]));
    if e.Done? && ")" <= SkipSpace(e.rest) then Done(SkipSpace(e.rest)[1..], e.value) else Fail
  }
}
