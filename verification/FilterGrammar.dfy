/**
 * The grammar of filters, as the trees a text can be written from: what is between two tokens may be any
 * blanks, and parentheses may be anywhere. The parser accepts exactly the texts of these trees.
 */
module FilterGrammar {
  import opened Wrappers
  import opened Bytes
  import opened Types
  import opened Filters
  import opened VectorSearch
  import opened FilterParser

  // ---------- Values as written ----------

  predicate Blank(s: string)
  {
    forall i :: 0 <= i < |s| ==> s[i] == ' ' || s[i] == '\t' || s[i] == '\r' || s[i] == '\n'
  }

  predicate Digits(s: string)
  {
    s != [] && forall i :: 0 <= i < |s| ==> '0' <= s[i] <= '9'
  }

  /** What the characters between two quotes stand for, if the text between them is whole. */
  function Unquoted(s: string): Option<string>
  {
    if s == [] then Some("")
    else if s[0] == '"' || (s[0] == '\\' && |s| == 1) then None
    else
      var n := if s[0] == '\\' then 2 else 1;
      var more := Unquoted(s[n..]);
      if more.None? then None else Some((if n == 2 then Unescape(s[1]) else [s[0]]) + more.value)
  }

  datatype Spelling =
    | Word(text: string)
    | Quoted(body: string)
    | Number(negative: bool, whole: string, decimals: string)
    | Empty(gap: string)
    | List(open: string, first: Spelling, more: More, close: string)
    | Vec(open: string, list: Spelling, close: string)
  {
    /** Its text, and `rest` behind that. */
    function Before(rest: string): string
    {
      match this
      case Word(text) => text + rest
      case Quoted(body) => "\"" + (body + ("\"" + rest))
      case Number(negative, whole, decimals) =>
        (if negative then "-" else "") + (whole + (if decimals == "" then rest else "." + (decimals + rest)))
      case Empty(gap) => "[" + (gap + ("]" + rest))
      case List(open, first, more, close) => "[" + (open + first.Before(more.Before(close + ("]" + rest))))
      case Vec(open, list, close) => "vec(" + (open + list.Before(close + (")" + rest)))
    }

    /** The value it stands for; none if it is no spelling of a value. */
    function Value(f: FloatReader): Option<DataValue>
    {
      match this
      case Word(text) =>
        if text == "null" then Some(Null)
        else if text == "true" then Some(Bool(true))
        else if text == "false" then Some(Bool(false)) else None
      case Quoted(body) =>
        var s := Unquoted(body);
        if s.Some? then Some(String(s.value)) else None
      case Number(negative, whole, decimals) =>
        var sign := if negative then "-" else "";
        if !Digits(whole) then None
        else if decimals != "" then if Digits(decimals) then Some(f(sign + whole + "." + decimals)) else None
        else
          var n := NatOf(whole);
          if negative then (if n <= I64_MAX + 1 then Some(Int(0 - n)) else None)
          else if n < U64 then Some(UInt(n)) else None
      case Empty(gap) => if Blank(gap) then Some(Array([])) else None
      case List(open, first, more, close) =>
        var v, vs := first.Value(f), more.Values(f);
        if Blank(open) && Blank(close) && v.Some? && vs.Some? then Some(Array([v.value] + vs.value)) else None
      case Vec(open, list, close) =>
        var v := list.Value(f);
        if !Blank(open) || !Blank(close) || !(list.Empty? || list.List?) || v.None? then None else
        var elems := ToVectorStrict(v.value);
        if elems.Some? then Some(Vector(elems.value)) else None
    }
  }

  datatype More = End | Comma(before: string, after: string, item: Spelling, more: More)
  {
    function Before(rest: string): string
    {
      if End? then rest else before + ("," + (after + item.Before(more.Before(rest))))
    }

    function Values(f: FloatReader): Option<seq<DataValue>>
    {
      if End? then Some([]) else
      var v, vs := item.Value(f), more.Values(f);
      if Blank(before) && Blank(after) && v.Some? && vs.Some? then Some([v.value] + vs.value) else None
    }
  }

  // ---------- Filters as written ----------

  predicate Letter(c: char)
  {
    'a' <= c <= 'z' || 'A' <= c <= 'Z' || c == '_'
  }

  predicate Identifier(s: string)
  {
    s != [] && Letter(s[0]) && forall i :: 0 <= i < |s| ==> Letter(s[i]) || '0' <= s[i] <= '9'
  }

  predicate IsWord(op: Op)
  {
    IsIdentTail(OpText(op)[0])
  }

  datatype Tree =
    | Leaf(field: string, before: string, op: Op, after: string, value: Spelling)
    | Negation(after: string, inner: Tree)
    | Group(open: string, inner: Tree, close: string)
    | Conj(left: Tree, before: string, after: string, right: Tree)
    | Disj(left: Tree, before: string, after: string, right: Tree)
  {
    function Before(rest: string): string
    {
      match this
      case Leaf(field, before, op, after, value) => field + (before + (OpText(op) + (after + value.Before(rest))))
      case Negation(after, inner) => "not" + (after + inner.Before(rest))
      case Group(open, inner, close) => "(" + (open + inner.Before(close + (")" + rest)))
      case Conj(left, before, after, right) => left.Before(before + ("and" + (after + right.Before(rest))))
      case Disj(left, before, after, right) => left.Before(before + ("or" + (after + right.Before(rest))))
    }

    /**
     * `and` binds before `or`, and both group to the left. A field that starts with "not" would be read as a
     * negation, unless a digit follows; an operator that is a word needs a blank before it.
     */
    predicate WellFormed(f: FloatReader)
    {
      match this
      case Leaf(field, before, op, after, value) =>
        && Identifier(field) && Blank(before) && Blank(after) && value.Value(f).Some?
        && (IsWord(op) ==> before != "")
        && ("not" <= field && |field| > 3 ==> IsDigit(field[3]))
      case Negation(after, inner) => Blank(after) && inner.WellFormed(f) && inner.Primary()
      case Group(open, inner, close) => Blank(open) && Blank(close) && inner.WellFormed(f)
      case Conj(left, before, after, right) =>
        Blank(before) && Blank(after) && left.WellFormed(f) && right.WellFormed(f) && !left.Disj? && right.Primary()
      case Disj(left, before, after, right) =>
        Blank(before) && Blank(after) && left.WellFormed(f) && right.WellFormed(f) && !right.Disj?
    }

    predicate Primary() { Leaf? || Negation? || Group? }

    function Meaning(f: FloatReader): FilterExpr
      requires WellFormed(f)
    {
      match this
      case Leaf(field, _, op, _, value) => Simple(field, op, value.Value(f).value)
      case Negation(_, inner) => Not(inner.Meaning(f))
      case Group(_, inner, _) => inner.Meaning(f)
      case Conj(left, _, _, right) => And(left.Meaning(f), right.Meaning(f))
      case Disj(left, _, _, right) => Or(left.Meaning(f), right.Meaning(f))
    }
  }

  // ---------- Blanks, names and operators ----------

  lemma {:induction false} Regroup<T>(a: seq<T>, b: seq<T>, c: seq<T>)
    ensures (a + b) + c == a + (b + c)
  {
  }

  lemma {:induction false} AfterPrefix(p: string, s: string)
    requires p <= s
    ensures s == p + s[|p|..]
  {
  }

  lemma {:induction false} SkipBlank(w: string, s: string)
    requires Blank(w)
    ensures SkipSpace(w + s) == SkipSpace(s)
  {
    if w == [] {
      assert w + s == s;
    } else {
      assert (w + s)[1..] == w[1..] + s;
      SkipBlank(w[1..], s);
    }
  }

  lemma {:induction false} NoSpace(s: string)
    requires s == [] || !IsSpace(s[0])
    ensures SkipSpace(s) == s
  {
  }

  /** The blanks a text starts with. */
  lemma {:induction false} LeadingBlank(s: string) returns (w: string)
    ensures Blank(w) && s == w + SkipSpace(s)
  {
    if s != [] && IsSpace(s[0]) {
      var w' := LeadingBlank(s[1..]);
      w := [s[0]] + w';
      Regroup([s[0]], w', SkipSpace(s[1..]));
      assert s == [s[0]] + s[1..];
    } else {
      w := [];
    }
  }

  lemma {:induction false} SpanPrefix(p: char -> bool, s: string, rest: string)
    requires (forall i :: 0 <= i < |s| ==> p(s[i])) && (rest == [] || !p(rest[0]))
    ensures Span(p, s + rest) == |s|
  {
    if s == [] {
      assert s + rest == rest;
    } else {
      assert (s + rest)[1..] == s[1..] + rest;
      SpanPrefix(p, s[1..], rest);
    }
  }

  lemma {:induction false} IdentifierReads(field: string, rest: string)
    requires Identifier(field) && (rest == [] || !IsIdentTail(rest[0]))
    ensures ParseIdentifier(field + rest) == Done(rest, field)
  {
    var s := field + rest;
    var head := Span(IsIdentHead, s);
    assert s[0] == field[0];
    assert rest != [] ==> s[|field|] == rest[0] && !IsIdentHead(s[|field|]);
    assert s[head..] == field[head..] + rest;
    SpanPrefix(IsIdentTail, field[head..], rest);
    assert s[..head] + s[head..|field|] == field;
  }

  lemma {:induction false} IdentifierSound(s: string)
    requires ParseIdentifier(s).Done?
    ensures
      var p := ParseIdentifier(s);
      s == p.value + p.rest && Identifier(p.value) && (p.rest == [] || !IsIdentTail(p.rest[0]))
  {
    var head := Span(IsIdentHead, s);
    var tail := Span(IsIdentTail, s[head..]);
    var name := s[..head + tail];
    assert s[..head] + s[head..head + tail] == name;
    forall i | 0 <= i < |name|
      ensures IsIdentTail(name[i])
    {
      if i >= head {
        assert name[i] == s[head..][i - head];
      } else {
        assert IsIdentHead(s[i]);
      }
    }
    assert head + tail < |s| ==> s[head..][tail] == s[head + tail];
    hide Span;
  }

  lemma {:induction false} OpReads(op: Op, rest: string)
    requires rest == [] || rest[0] != '='
    ensures ParseOp(OpText(op) + rest) == Done(rest, op)
  {
    var s := OpText(op) + rest;
    assert s[|OpText(op)|..] == rest;
    assert s[..|OpText(op)|] == OpText(op);
    match op
    case Gt =>
      assert s[0] == '>' && !(">=" <= s);
    case Lt =>
      assert s[0] == '<' && !("<=" <= s);
    case _ =>
      assert s[0] == OpText(op)[0] && s[1] == OpText(op)[1];
  }

  lemma {:induction false} OpSound(s: string)
    requires ParseOp(s).Done?
    ensures s == OpText(ParseOp(s).value) + ParseOp(s).rest
  {
    var text := OpText(ParseOp(s).value);
    assert text <= s && ParseOp(s).rest == s[|text|..];
    hide ParseOp, OpText;
    AfterPrefix(text, s);
  }

  // ---------- Reading values ----------

  /** What may stand behind a value: no digit and no point. */
  predicate Follow(rest: string)
  {
    rest != [] ==> !IsDigit(rest[0]) && rest[0] != '.'
  }

  lemma {:induction false} FollowBlank(w: string, rest: string)
    requires Blank(w) && Follow(rest)
    ensures Follow(w + rest)
  {
  }

  lemma {:induction false} FollowMore(f: FloatReader, m: More, rest: string)
    requires m.Values(f).Some? && Follow(rest)
    ensures Follow(m.Before(rest))
  {
    if m.Comma? {
      FollowBlank(m.before, "," + (m.after + m.item.Before(m.more.Before(rest))));
    }
  }

  /** Alternatives that the first character rules out. */
  lemma {:induction false} Mismatches(f: FloatReader, s: string)
    requires s != []
    ensures s[0] != 'v' ==> ParseVec(f, s).Fail?
    ensures s[0] != '"' ==> ParseStringLiteral(s).Fail?
    ensures s[0] != 'n' ==> !("null" <= s)
    ensures s[0] != 't' ==> !("true" <= s)
    ensures s[0] != 'f' ==> !("false" <= s)
    ensures s[0] != '-' && !IsDigit(s[0]) ==> ParseNumber(f, s).Fail?
    ensures s[0] != '[' ==> ParseArray(f, s).Fail?
  {
    hide ParseItems;
    assert "vec("[0] == 'v' && "null"[0] == 'n' && "true"[0] == 't' && "false"[0] == 'f';
  }

  lemma {:induction false} ValueHead(f: FloatReader, v: Spelling, rest: string)
    requires v.Value(f).Some?
    ensures
      var s := v.Before(rest);
      && s != []
      && match v
         case Word(text) => s[0] == text[0] && text[0] in "ntf"
         case Quoted(_) => s[0] == '"'
         case Number(negative, whole, _) => if negative then s[0] == '-' else IsDigit(s[0])
         case Vec(_, _, _) => s[0] == 'v'
         case _ => s[0] == '['
  {
  }

  lemma {:induction false} BodyReads(body: string, acc: string, rest: string)
    requires Unquoted(body).Some?
    ensures StringBody(body + ("\"" + rest), acc) == Done(rest, acc + Unquoted(body).value)
    decreases |body|
  {
    var s := body + ("\"" + rest);
    if body == [] {
      assert s == "\"" + rest && s[1..] == rest && acc + "" == acc;
    } else {
      var n := if body[0] == '\\' then 2 else 1;
      var piece := if n == 2 then Unescape(body[1]) else [body[0]];
      assert s[0] == body[0] && s[n..] == body[n..] + ("\"" + rest);
      if n == 2 {
        assert s[1] == body[1];
      }
      BodyReads(body[n..], acc + piece, rest);
      assert acc + piece + Unquoted(body[n..]).value == acc + Unquoted(body).value;
    }
  }

  lemma {:induction false} NumberReads(f: FloatReader, v: Spelling, rest: string)
    requires v.Number? && v.Value(f).Some? && Follow(rest)
    ensures ParseNumber(f, v.Before(rest)) == Done(rest, v.Value(f).value)
  {
    hide ParseNumber, NatOf, Span;
    var behind := if v.decimals == "" then rest else "." + (v.decimals + rest);
    var d := v.whole + behind;
    WholePart(v.whole, behind);
    assert v.Before(rest) == (if v.negative then "-" else "") + d;
    SignedNumber(f, v.negative, d);
    DigitsRead(f, v, rest);
  }

  lemma {:induction false} DecimalPart(decimals: string, rest: string)
    requires Digits(decimals) && Follow(rest)
    ensures
      var behind, m := "." + (decimals + rest), |decimals|;
      Span(IsDigit, behind[1..]) == m && behind[1..1 + m] == decimals && behind[1 + m..] == rest
  {
    var behind := "." + (decimals + rest);
    assert behind[1..] == decimals + rest;
    SpanPrefix(IsDigit, decimals, rest);
    hide Span;
  }

  lemma {:induction false} DigitsRead(f: FloatReader, v: Spelling, rest: string)
    requires v.Number? && v.Value(f).Some? && Follow(rest)
    ensures
      var behind := if v.decimals == "" then rest else "." + (v.decimals + rest);
      ParseDigits(f, v.negative, v.whole + behind) == Done(rest, v.Value(f).value)
  {
    hide ParseDigits, NatOf, Span, Digits;
    if v.decimals == "" {
      WholeRead(f, v.negative, v.whole, rest);
    } else {
      DecimalRead(f, v.negative, v.whole, v.decimals, rest);
    }
  }

  lemma {:induction false} WholeRead(f: FloatReader, negative: bool, whole: string, rest: string)
    requires Digits(whole) && Follow(rest)
    ensures ParseDigits(f, negative, whole + rest) ==
      if negative then (if NatOf(whole) <= I64_MAX + 1 then Done(rest, Int(0 - NatOf(whole))) else Fail)
      else if NatOf(whole) < U64 then Done(rest, UInt(NatOf(whole))) else Fail
  {
    assert whole != "";
    hide NatOf, Span, Digits;
    WholePart(whole, rest);
  }

  lemma {:induction false} DecimalRead(f: FloatReader, negative: bool, whole: string, decimals: string, rest: string)
    requires Digits(whole) && Digits(decimals) && Follow(rest)
    ensures
      var sign := if negative then "-" else "";
      ParseDigits(f, negative, whole + ("." + (decimals + rest))) == Done(rest, f(sign + whole + "." + decimals))
  {
    hide NatOf, Span;
    WholePart(whole, "." + (decimals + rest));
    DecimalPart(decimals, rest);
    hide Digits;
  }

  lemma {:induction false} WholePart(whole: string, behind: string)
    requires Digits(whole) && (behind == [] || !IsDigit(behind[0]))
    ensures
      var d := whole + behind;
      Span(IsDigit, d) == |whole| && d[..|whole|] == whole && d[|whole|..] == behind && IsDigit(d[0])
  {
    SpanPrefix(IsDigit, whole, behind);
  }

  lemma {:induction false} SignedNumber(f: FloatReader, negative: bool, d: string)
    requires d != [] && IsDigit(d[0])
    ensures ParseNumber(f, (if negative then "-" else "") + d) == ParseDigits(f, negative, d)
  {
    hide ParseDigits;
    if negative {
      assert ("-" + d)[1..] == d;
    } else {
      assert "" + d == d;
    }
  }

  lemma {:induction false} ValueReads(f: FloatReader, v: Spelling, rest: string)
    requires v.Value(f).Some? && Follow(rest)
    ensures ParseValue(f, v.Before(rest)) == Done(rest, v.Value(f).value)
    decreases v, 1
  {
    hide ParseVec, ParseArray, ParseNumber, ParseStringLiteral;
    var s := v.Before(rest);
    ValueHead(f, v, rest);
    Mismatches(f, s);
    match v
    case Word(text) =>
      assert s[|text|..] == rest;
    case Quoted(body) =>
      QuotedReads(body, rest);
    case Number(_, _, _) =>
      NumberReads(f, v, rest);
    case Vec(_, _, _) =>
      VecReads(f, v, rest);
    case _ =>
      ListReads(f, v, rest);
  }

  lemma {:induction false} QuotedReads(body: string, rest: string)
    requires Unquoted(body).Some?
    ensures ParseStringLiteral("\"" + (body + ("\"" + rest))) == Done(rest, Unquoted(body).value)
  {
    var s := "\"" + (body + ("\"" + rest));
    assert s[1..] == body + ("\"" + rest);
    BodyReads(body, "", rest);
    assert "" + Unquoted(body).value == Unquoted(body).value;
  }

  lemma {:induction false} VecReads(f: FloatReader, v: Spelling, rest: string)
    requires v.Vec? && v.Value(f).Some?
    ensures ParseVec(f, v.Before(rest)) == Done(rest, v.Value(f).value)
    decreases v, 0
  {
    hide ParseArray, ToVectorStrict;
    var close := v.close + (")" + rest);
    var s := v.Before(rest);
    assert s[4..] == v.open + v.list.Before(close);
    SkipBlank(v.open, v.list.Before(close));
    ValueHead(f, v.list, close);
    NoSpace(v.list.Before(close));
    ListReads(f, v.list, close);
    SkipBlank(v.close, ")" + rest);
    NoSpace(")" + rest);
    assert (")" + rest)[1..] == rest;
  }

  lemma {:induction false} ListReads(f: FloatReader, v: Spelling, rest: string)
    requires (v.Empty? || v.List?) && v.Value(f).Some?
    ensures ParseArray(f, v.Before(rest)) == Done(rest, v.Value(f).value)
    decreases v, 0
  {
    hide ParseItems, Unquoted, NatOf, ToVectorStrict;
    var s, end := v.Before(rest), "]" + rest;
    NoSpace(end);
    assert end[1..] == rest;
    if v.Empty? {
      assert s[1..] == v.gap + end;
      SkipBlank(v.gap, end);
      Mismatches(f, end);
      ItemsStep(f, end);
    } else {
      var tail := v.close + end;
      var more := v.more.Before(tail);
      assert s[1..] == v.open + v.first.Before(more);
      SkipBlank(v.open, v.first.Before(more));
      ValueHead(f, v.first, more);
      NoSpace(v.first.Before(more));
      SkipBlank(v.close, end);
      FollowBlank(v.close, end);
      FollowMore(f, v.more, tail);
      ValueReads(f, v.first, more);
      MoreReads(f, v.more, tail, [v.first.Value(f).value]);
      ItemsStep(f, v.first.Before(more));
    }
  }

  lemma {:induction false} ItemsStep(f: FloatReader, s: string)
    ensures
      var first := ParseValue(f, s);
      ParseItems(f, s) == if first.Fail? then Done(s, []) else ParseMoreItems(f, first.rest, [first.value])
  {
    hide ParseValue, ParseMoreItems;
  }

  lemma {:induction false} MoreReads(f: FloatReader, m: More, rest: string, got: seq<DataValue>)
    requires m.Values(f).Some? && Follow(rest) && !("," <= SkipSpace(rest))
    ensures ParseMoreItems(f, m.Before(rest), got) == Done(rest, got + m.Values(f).value)
    decreases m, 0
  {
    hide ParseValue, Spelling.Before, Spelling.Value;
    if m.End? {
      assert got + [] == got;
    } else {
      var more := m.more.Before(rest);
      var item := m.after + m.item.Before(more);
      SkipBlank(m.before, "," + item);
      NoSpace("," + item);
      assert ("," + item)[1..] == item;
      SkipBlank(m.after, m.item.Before(more));
      ValueHead(f, m.item, more);
      NoSpace(m.item.Before(more));
      FollowMore(f, m.more, rest);
      ValueReads(f, m.item, more);
      MoreReads(f, m.more, rest, got + [m.item.Value(f).value]);
      Regroup(got, [m.item.Value(f).value], m.more.Values(f).value);
    }
  }

  // ---------- What was read, as it was written ----------

  lemma {:induction false} BodySound(s: string, acc: string) returns (body: string)
    requires StringBody(s, acc).Done?
    ensures
      var p := StringBody(s, acc);
      && Unquoted(body).Some? && p.value == acc + Unquoted(body).value
      && s == body + ("\"" + p.rest)
    decreases |s|
  {
    BodyStep(s, acc);
    assert Unquoted("") == Some("");
    hide Unquoted, StringBody, Unescape;
    if s[0] == '"' {
      body := "";
      assert acc + "" == acc && s == "" + s;
    } else {
      var n := if s[0] == '\\' then 2 else 1;
      var piece := if n == 2 then Unescape(s[1]) else [s[0]];
      var more := BodySound(s[n..], acc + piece);
      body := s[..n] + more;
      Prefixed(s[..n], more, piece);
      Regroup(acc, piece, Unquoted(more).value);
      Regroup(s[..n], more, "\"" + StringBody(s, acc).rest);
      assert s == s[..n] + s[n..];
    }
  }

  lemma {:induction false} BodyStep(s: string, acc: string)
    requires StringBody(s, acc).Done?
    ensures
      var p := StringBody(s, acc);
      && s != []
      && if s[0] == '"' then s == "\"" + p.rest && p.value == acc
         else
           var n := if s[0] == '\\' then 2 else 1;
           n <= |s| && p == StringBody(s[n..], acc + if n == 2 then Unescape(s[1]) else [s[0]])
  {
    hide Unescape;
  }

  lemma {:induction false} Prefixed(head: string, more: string, piece: string)
    requires Unquoted(more).Some?
    requires
      || (|head| == 1 && head[0] != '"' && head[0] != '\\' && piece == head)
      || (|head| == 2 && head[0] == '\\' && piece == Unescape(head[1]))
    ensures Unquoted(head + more) == Some(piece + Unquoted(more).value)
  {
    hide Unescape;
    var s := head + more;
    assert s[0] == head[0] && s[|head|..] == more && (|head| == 2 ==> s[1] == head[1]);
    assert |head| == 1 ==> [head[0]] == head;
  }

  lemma {:induction false} NumberSound(f: FloatReader, s: string) returns (v: Spelling)
    requires ParseNumber(f, s).Done?
    ensures v.Value(f) == Some(ParseNumber(f, s).value) && s == v.Before(ParseNumber(f, s).rest)
  {
    hide ParseDigits, Spelling.Before, Spelling.Value;
    var negative := "-" <= s;
    var d := if negative then s[1..] else s;
    assert s == (if negative then "-" else "") + d;
    v := DigitsSound(f, negative, d);
  }

  lemma {:induction false} DigitsSound(f: FloatReader, negative: bool, d: string) returns (v: Spelling)
    requires ParseDigits(f, negative, d).Done?
    ensures
      var p := ParseDigits(f, negative, d);
      v.Value(f) == Some(p.value) && (if negative then "-" else "") + d == v.Before(p.rest)
  {
    hide NatOf, Span, Digits, Spelling.Before, Spelling.Value;
    var n := Span(IsDigit, d);
    SpanDigits(d);
    var behind := d[n..];
    var m := if "." <= behind then Span(IsDigit, behind[1..]) else 0;
    if m > 0 {
      DecimalDigits(behind);
      DecimalSpelled(f, negative, d, n, m);
      v := Number(negative, d[..n], behind[1..1 + m]);
    } else {
      WholeSpelled(f, negative, d, n);
      v := Number(negative, d[..n], "");
    }
  }

  lemma {:induction false} WholeSpelled(f: FloatReader, negative: bool, d: string, n: nat)
    requires n <= |d| && Digits(d[..n]) && if negative then NatOf(d[..n]) <= I64_MAX + 1 else NatOf(d[..n]) < U64
    ensures
      var v, sign := Number(negative, d[..n], ""), if negative then "-" else "";
      && v.Before(d[n..]) == sign + d
      && v.Value(f) == Some(if negative then Int(0 - NatOf(d[..n])) else UInt(NatOf(d[..n])))
  {
    hide NatOf, Digits;
    assert d == d[..n] + d[n..];
  }

  lemma {:induction false} DecimalSpelled(f: FloatReader, negative: bool, d: string, n: nat, m: nat)
    requires n <= |d| && Digits(d[..n]) && "." <= d[n..] && m < |d[n..]| && Digits(d[n..][1..1 + m])
    ensures
      var v, sign := Number(negative, d[..n], d[n..][1..1 + m]), if negative then "-" else "";
      && v.Before(d[n..][1 + m..]) == sign + d
      && v.Value(f) == Some(f(sign + d[..n] + "." + d[n..][1..1 + m]))
  {
    var behind := d[n..];
    assert behind == "." + (behind[1..1 + m] + behind[1 + m..]);
    assert d == d[..n] + behind;
  }

  lemma {:induction false} SpanDigits(s: string)
    ensures Span(IsDigit, s) > 0 ==> Digits(s[..Span(IsDigit, s)])
  {
  }

  lemma {:induction false} DecimalDigits(behind: string)
    requires "." <= behind && Span(IsDigit, behind[1..]) > 0
    ensures
      var m := Span(IsDigit, behind[1..]);
      m < |behind| && Digits(behind[1..1 + m])
  {
    SpanDigits(behind[1..]);
    assert behind[1..][..Span(IsDigit, behind[1..])] == behind[1..1 + Span(IsDigit, behind[1..])];
  }

  lemma {:induction false} ValueSound(f: FloatReader, s: string) returns (v: Spelling)
    requires ParseValue(f, s).Done?
    ensures v.Value(f) == Some(ParseValue(f, s).value) && s == v.Before(ParseValue(f, s).rest)
    decreases |s|, 1
  {
    hide ParseVec, ParseArray, ParseNumber, StringBody;
    var p := ParseValue(f, s);
    if ParseVec(f, s).Done? {
      v := VecSound(f, s);
    } else if ParseStringLiteral(s).Done? {
      var body := BodySound(s[1..], "");
      v := Quoted(body);
      assert "" + Unquoted(body).value == Unquoted(body).value;
      assert s == "\"" + s[1..];
    } else if "null" <= s || "true" <= s || "false" <= s {
      var n := if "false" <= s && !("null" <= s) && !("true" <= s) then 5 else 4;
      v := Word(s[..n]);
      assert s == s[..n] + s[n..];
    } else if ParseNumber(f, s).Done? {
      v := NumberSound(f, s);
    } else {
      v := ListSound(f, s);
    }
  }

  lemma {:induction false} VecSound(f: FloatReader, s: string) returns (v: Spelling)
    requires ParseVec(f, s).Done?
    ensures v.Value(f) == Some(ParseVec(f, s).value) && s == v.Before(ParseVec(f, s).rest)
    decreases |s|, 0
  {
    hide ParseArray, ToVectorStrict;
    var open := LeadingBlank(s[4..]);
    var list := ListSound(f, SkipSpace(s[4..]));
    var behind := ParseArray(f, SkipSpace(s[4..])).rest;
    var close := LeadingBlank(behind);
    v := Vec(open, list, close);
    assert SkipSpace(behind) == ")" + SkipSpace(behind)[1..];
    assert s == "vec(" + s[4..];
  }

  lemma {:induction false} ListSound(f: FloatReader, s: string) returns (v: Spelling)
    requires ParseArray(f, s).Done?
    ensures v.Empty? || v.List?
    ensures v.Value(f) == Some(ParseArray(f, s).value) && s == v.Before(ParseArray(f, s).rest)
    decreases |s|, 0
  {
    hide Spelling.Before, Spelling.Value, ParseItems;
    var s1 := SkipSpace(s[1..]);
    var open := LeadingBlank(s[1..]);
    var items := ParseItems(f, s1);
    var close := LeadingBlank(items.rest);
    var p := ParseArray(f, s);
    assert s == "[" + s[1..] && p.value == Array(items.value);
    assert SkipSpace(items.rest) == "]" + p.rest;
    ItemsStep(f, s1);
    hide ParseArray;
    if ParseValue(f, s1).Fail? {
      EmptySpelled(f, open, close, p.rest);
      v := Empty(open + close);
    } else {
      var first := ValueSound(f, s1);
      var got := ParseValue(f, s1);
      var more := MoreSound(f, got.rest, [got.value]);
      v := List(open, first, more, close);
      ListSpelled(f, open, first, more, close, p.rest);
    }
  }

  lemma {:induction false} EmptySpelled(f: FloatReader, open: string, close: string, rest: string)
    requires Blank(open) && Blank(close)
    ensures
      var v := Empty(open + close);
      v.Before(rest) == "[" + (open + (close + ("]" + rest))) && v.Value(f) == Some(Array([]))
  {
    assert open + (close + ("]" + rest)) == (open + close) + ("]" + rest);
  }

  lemma {:induction false} ListSpelled(f: FloatReader, open: string, first: Spelling, more: More, close: string, rest: string)
    requires Blank(open) && Blank(close) && first.Value(f).Some? && more.Values(f).Some?
    ensures
      var v := List(open, first, more, close);
      && v.Before(rest) == "[" + (open + first.Before(more.Before(close + ("]" + rest))))
      && v.Value(f) == Some(Array([first.Value(f).value] + more.Values(f).value))
  {
  }

  lemma {:induction false} MoreSound(f: FloatReader, s: string, got: seq<DataValue>) returns (m: More)
    ensures
      var p := ParseMoreItems(f, s, got);
      m.Values(f).Some? && p.value == got + m.Values(f).value && s == m.Before(p.rest)
    decreases |s|, 2
  {
    hide ParseValue, Blank, Spelling.Before, Spelling.Value;
    var sep := SkipSpace(s);
    if "," <= sep && ParseValue(f, SkipSpace(sep[1..])).Done? {
      var before := LeadingBlank(s);
      var after := LeadingBlank(sep[1..]);
      var item := ValueSound(f, SkipSpace(sep[1..]));
      var p := ParseValue(f, SkipSpace(sep[1..]));
      var more := MoreSound(f, p.rest, got + [p.value]);
      m := Comma(before, after, item, more);
      AfterPrefix(",", sep);
      Regroup(got, [p.value], more.Values(f).value);
      assert ParseMoreItems(f, s, got) == ParseMoreItems(f, p.rest, got + [p.value]);
      hide ParseMoreItems;
    } else {
      m := End;
      assert got + [] == got;
    }
  }

  // ---------- Reading filters ----------

  /** Parsing stopped in front of `rest`, give or take blanks. */
  predicate Reads(p: Parsed<FilterExpr>, rest: string, e: FilterExpr)
  {
    p.Done? && SkipSpace(p.rest) == SkipSpace(rest) && p.value == e
  }

  /** A field named `not` is told from a negation only if its operator is a symbol. */
  predicate Sayable(e: FilterExpr)
  {
    match e
    case Simple(field, op, _) => field == "not" ==> !IsWord(op)
    case And(left, right) => Sayable(left) && Sayable(right)
    case Or(left, right) => Sayable(left) && Sayable(right)
    case Not(inner) => Sayable(inner)
  }

  lemma {:induction false} TreeHead(f: FloatReader, t: Tree, rest: string)
    requires t.WellFormed(f)
    ensures t.Before(rest) != [] && !IsSpace(t.Before(rest)[0])
  {
    match t
    case Conj(left, before, after, right) =>
      TreeHead(f, left, before + ("and" + (after + right.Before(rest))));
    case Disj(left, before, after, right) =>
      TreeHead(f, left, before + ("or" + (after + right.Before(rest))));
    case Leaf(field, _, _, _, _) =>
      assert t.Before(rest)[0] == field[0];
    case _ =>
  }

  lemma {:induction false} SimpleReads(f: FloatReader, t: Tree, rest: string)
    requires t.Leaf? && t.WellFormed(f) && Follow(rest)
    ensures ParseSimple(f, t.Before(rest)) == Done(SkipSpace(rest), t.Meaning(f))
  {
    var s := t.Before(rest);
    var value := t.value.Before(rest);
    assert s[0] == t.field[0];
    NoSpace(s);
    ValueHead(f, t.value, rest);
    OperationReads(t.before, t.op, t.after, value);
    ValueReads(f, t.value, rest);
    hide ParseIdentifier, ParseOp, ParseValue, Spelling.Before, Spelling.Value, OpText;
    IdentifierReads(t.field, t.before + (OpText(t.op) + (t.after + value)));
  }

  /** The operator, and what stands around it. */
  lemma {:induction false} OperationReads(before: string, op: Op, after: string, value: string)
    requires Blank(before) && Blank(after) && value != [] && !IsSpace(value[0]) && value[0] != '='
    requires IsWord(op) ==> before != ""
    ensures
      var s := before + (OpText(op) + (after + value));
      && !IsIdentTail(s[0])
      && ParseOp(SkipSpace(s)) == Done(after + value, op)
      && SkipSpace(after + value) == value
  {
    var operation := OpText(op) + (after + value);
    AfterField(before, op, after + value);
    OpHead(op, after + value);
    OpReads(op, after + value);
    hide ParseOp, OpText;
    SkipBlank(before, operation);
    NoSpace(operation);
    SkipBlank(after, value);
    NoSpace(value);
  }

  lemma {:induction false} OpHead(op: Op, rest: string)
    ensures
      var s := OpText(op) + rest;
      && s != [] && s[0] == OpText(op)[0] && !IsSpace(s[0])
      && (IsWord(op) <==> IsIdentHead(s[0])) && (!IsWord(op) ==> s[0] in "=!<>")
  {
  }

  lemma {:induction false} AfterField(before: string, op: Op, rest: string)
    requires Blank(before) && (IsWord(op) ==> before != "")
    ensures
      var s := before + (OpText(op) + rest);
      s != [] && !IsIdentTail(s[0])
  {
    OpHead(op, rest);
  }

  /** Why a well-formed leaf is not taken for a negation. */
  lemma {:induction false} NotNegated(f: FloatReader, t: Tree, rest: string)
    requires t.Leaf? && t.WellFormed(f) && Sayable(t.Meaning(f))
    ensures
      var s := t.Before(rest);
      "not" <= s ==> ParsePrimary(f, SkipSpace(s[3..])).Fail?
  {
    var s, behind := t.Before(rest), t.before + (OpText(t.op) + (t.after + t.value.Before(rest)));
    AfterField(t.before, t.op, t.after + t.value.Before(rest));
    assert s == t.field + behind && s[|t.field|] == behind[0];
    if "not" <= s {
      if |t.field| < 3 {
        assert false;
      } else if |t.field| == 3 {
        assert t.field == s[..3] == "not" && s[3..] == behind;
        OpHead(t.op, t.after + t.value.Before(rest));
        SkipBlank(t.before, OpText(t.op) + (t.after + t.value.Before(rest)));
        NoSpace(OpText(t.op) + (t.after + t.value.Before(rest)));
        NoPrimary(f, OpText(t.op) + (t.after + t.value.Before(rest)));
      } else {
        assert t.field[..3] == s[..3] && s[3..][0] == t.field[3];
        NoSpace(s[3..]);
        NoPrimary(f, s[3..]);
      }
    }
  }

  lemma {:induction false} NoPrimary(f: FloatReader, s: string)
    requires s != [] && !IsSpace(s[0]) && !IsIdentHead(s[0]) && s[0] != '('
    ensures ParsePrimary(f, s).Fail?
  {
    NoSpace(s);
    assert Span(IsIdentHead, s) == 0;
  }

  lemma {:induction false} PrimaryReads(f: FloatReader, t: Tree, rest: string)
    requires t.WellFormed(f) && t.Primary() && Sayable(t.Meaning(f)) && Follow(rest)
    ensures Reads(ParsePrimary(f, t.Before(rest)), rest, t.Meaning(f))
    decreases t, 0
  {
    hide ParsePrimary, ParseOr, OrTail;
    match t
    case Leaf(_, _, _, _, _) =>
      LeafReads(f, t, rest);
    case Negation(after, inner) =>
      PrimaryReads(f, inner, rest);
      TreeHead(f, inner, rest);
      SkipBlank(after, inner.Before(rest));
      NoSpace(inner.Before(rest));
      NegationReads(f, after, inner.Before(rest), rest, inner.Meaning(f));
    case Group(open, inner, close) =>
      var end := close + (")" + rest);
      FollowBlank(close, ")" + rest);
      SkipBlank(close, ")" + rest);
      NoSpace(")" + rest);
      var r := OrReads(f, inner, end);
      OrStops(f, r, inner.Meaning(f));
      TreeHead(f, inner, end);
      SkipBlank(open, inner.Before(end));
      NoSpace(inner.Before(end));
      GroupReads(f, open, inner.Before(end), rest);
  }

  lemma {:induction false} LeafReads(f: FloatReader, t: Tree, rest: string)
    requires t.Leaf? && t.WellFormed(f) && Sayable(t.Meaning(f)) && Follow(rest)
    ensures Reads(ParsePrimary(f, t.Before(rest)), rest, t.Meaning(f))
  {
    NotNegated(f, t, rest);
    SimpleReads(f, t, rest);
    assert t.Before(rest)[0] == t.field[0];
    SkipTwice(rest);
    hide ParseSimple, ParseOr, Tree.Before, Tree.Meaning;
  }

  lemma {:induction false} NegationReads(f: FloatReader, after: string, body: string, rest: string, e: FilterExpr)
    requires SkipSpace(after + body) == body && Reads(ParsePrimary(f, body), rest, e)
    ensures Reads(ParsePrimary(f, "not" + (after + body)), rest, Not(e))
  {
    hide ParseSimple, ParseOr;
    assert ("not" + (after + body))[3..] == after + body;
  }

  lemma {:induction false} SkipTwice(s: string)
    ensures SkipSpace(SkipSpace(s)) == SkipSpace(s)
  {
    NoSpace(SkipSpace(s));
  }

  lemma {:induction false} OrStops(f: FloatReader, s: string, e: FilterExpr)
    requires !("or" <= SkipSpace(s))
    ensures OrTail(f, s, e) == Done(s, e)
  {
  }

  lemma {:induction false} GroupReads(f: FloatReader, open: string, body: string, rest: string)
    requires SkipSpace(open + body) == body && ParseOr(f, body).Done? && SkipSpace(ParseOr(f, body).rest) == ")" + rest
    ensures ParsePrimary(f, "(" + (open + body)) == Done(rest, ParseOr(f, body).value)
  {
    hide ParseOr, ParseSimple;
    var s := "(" + (open + body);
    assert s[1..] == open + body && s[0] == '(';
    assert (")" + rest)[1..] == rest;
  }

  /** The loop over conjuncts arrives behind `t` with its meaning. */
  lemma {:induction false} AndReads(f: FloatReader, t: Tree, rest: string) returns (r: string)
    requires t.WellFormed(f) && !t.Disj? && Sayable(t.Meaning(f)) && Follow(rest)
    ensures SkipSpace(r) == SkipSpace(rest) && ParseAnd(f, t.Before(rest)) == AndTail(f, r, t.Meaning(f))
    decreases t, 1
  {
    if t.Conj? {
      var second := t.right.Before(rest);
      var behind := "and" + (t.after + second);
      FollowBlank(t.before, behind);
      var r1 := AndReads(f, t.left, t.before + behind);
      PrimaryReads(f, t.right, rest);
      TreeHead(f, t.right, rest);
      SkipBlank(t.before, behind);
      NoSpace(behind);
      SkipBlank(t.after, second);
      NoSpace(second);
      r := ParsePrimary(f, second).rest;
      AndStep(f, r1, t.after, second, t.left.Meaning(f));
    } else {
      PrimaryReads(f, t, rest);
      r := ParsePrimary(f, t.Before(rest)).rest;
      hide ParsePrimary, AndTail, Tree.Before, Tree.Meaning;
    }
  }

  lemma {:induction false} AndStep(f: FloatReader, s: string, after: string, second: string, left: FilterExpr)
    requires SkipSpace(s) == "and" + (after + second) && SkipSpace(after + second) == second && ParsePrimary(f, second).Done?
    ensures AndTail(f, s, left) == AndTail(f, ParsePrimary(f, second).rest, And(left, ParsePrimary(f, second).value))
  {
    hide ParsePrimary;
    assert SkipSpace(s)[3..] == after + second;
  }

  /** The loop over disjuncts arrives behind `t` with its meaning, if no conjunct follows. */
  lemma {:induction false} OrReads(f: FloatReader, t: Tree, rest: string) returns (r: string)
    requires t.WellFormed(f) && Sayable(t.Meaning(f)) && Follow(rest) && !("and" <= SkipSpace(rest))
    ensures SkipSpace(r) == SkipSpace(rest) && ParseOr(f, t.Before(rest)) == OrTail(f, r, t.Meaning(f))
    decreases t, 2
  {
    if t.Disj? {
      var second := t.right.Before(rest);
      var behind := "or" + (t.after + second);
      FollowBlank(t.before, behind);
      SkipBlank(t.before, behind);
      NoSpace(behind);
      var r1 := OrReads(f, t.left, t.before + behind);
      r := AndReads(f, t.right, rest);
      TreeHead(f, t.right, rest);
      SkipBlank(t.after, second);
      NoSpace(second);
      OrStep(f, r1, t.after, second, t.left.Meaning(f));
    } else {
      r := AndReads(f, t, rest);
      hide ParsePrimary, OrTail, Tree.Before, Tree.Meaning;
    }
  }

  lemma {:induction false} OrStep(f: FloatReader, s: string, after: string, second: string, left: FilterExpr)
    requires SkipSpace(s) == "or" + (after + second) && SkipSpace(after + second) == second && ParseAnd(f, second).Done?
    ensures OrTail(f, s, left) == OrTail(f, ParseAnd(f, second).rest, Or(left, ParseAnd(f, second).value))
  {
    hide ParseAnd;
    assert SkipSpace(s)[2..] == after + second;
  }

  // ---------- Filters that were read, as they were written ----------

  lemma {:induction false} LeafSound(f: FloatReader, s: string) returns (t: Tree, w: string)
    requires ParseSimple(f, s).Done? && (s == [] || !IsSpace(s[0]))
    requires "not" <= s ==> ParsePrimary(f, SkipSpace(s[3..])).Fail?
    ensures t.WellFormed(f) && t.Leaf? && t.Meaning(f) == ParseSimple(f, s).value
    ensures Blank(w) && s == t.Before(w + ParseSimple(f, s).rest)
  {
    NoSpace(s);
    FieldEnds(f, s);
    hide ParseIdentifier, ParseOp, ParseValue, ParsePrimary, Identifier, OpText, IsWord, Blank, Spelling.Before, Spelling.Value;
    var field := ParseIdentifier(s);
    var before := LeadingBlank(field.rest);
    var op := ParseOp(SkipSpace(field.rest));
    OpSound(SkipSpace(field.rest));
    var after := LeadingBlank(op.rest);
    var v := ParseValue(f, SkipSpace(op.rest));
    var value := ValueSound(f, SkipSpace(op.rest));
    w := LeadingBlank(v.rest);
    t := Leaf(field.value, before, op.value, after, value);
  }

  lemma {:induction false} FieldEnds(f: FloatReader, s: string)
    requires ParseSimple(f, s).Done? && (s == [] || !IsSpace(s[0]))
    requires "not" <= s ==> ParsePrimary(f, SkipSpace(s[3..])).Fail?
    ensures
      var field := ParseIdentifier(s);
      && s == field.value + field.rest && Identifier(field.value)
      && ("not" <= field.value && |field.value| > 3 ==> IsDigit(field.value[3]))
      && (IsWord(ParseOp(SkipSpace(field.rest)).value) ==> SkipSpace(field.rest) != field.rest)
  {
    NoSpace(s);
    IdentifierSound(s);
    var field := ParseIdentifier(s);
    OpSound(SkipSpace(field.rest));
    var op := ParseOp(SkipSpace(field.rest));
    OpHead(op.value, op.rest);
    if |field.value| > 3 && IsIdentHead(field.value[3]) {
      ShorterField(f, s, 3);
    }
    hide ParseIdentifier, ParseOp, ParseValue, ParsePrimary, OpText;
  }

  /** A comparison is one still when its field loses some letters at the front: a field "notx" is read as a negation. */
  lemma {:induction false} ShorterField(f: FloatReader, s: string, n: nat)
    requires ParseSimple(f, s).Done? && (s == [] || !IsSpace(s[0]))
    requires n < |ParseIdentifier(s).value| && IsIdentHead(ParseIdentifier(s).value[n])
    ensures n < |s| && s[n] == ParseIdentifier(s).value[n] && SkipSpace(s[n..]) == s[n..] && ParsePrimary(f, s[n..]).Done?
  {
    hide ParseIdentifier, ParseOp, ParseValue, ParsePrimary, SkipSpace;
    NoSpace(s);
    ShorterIdentifier(s, n);
    NoSpace(s[n..]);
    assert ParseSimple(f, s[n..]).Done?;
    SimpleIsPrimary(f, s[n..]);
  }

  lemma {:induction false} SimpleIsPrimary(f: FloatReader, s: string)
    requires ParseSimple(f, s).Done?
    ensures ParsePrimary(f, s).Done?
  {
    hide ParseSimple, ParseOr;
  }

  lemma {:induction false} ShorterIdentifier(s: string, n: nat)
    requires ParseIdentifier(s).Done? && n < |ParseIdentifier(s).value| && IsIdentHead(ParseIdentifier(s).value[n])
    ensures
      var p := ParseIdentifier(s);
      n < |s| && s[n] == p.value[n] && ParseIdentifier(s[n..]) == Done(p.rest, p.value[n..])
  {
    IdentifierSound(s);
    var p := ParseIdentifier(s);
    hide ParseIdentifier;
    assert s[n..] == p.value[n..] + p.rest;
    IdentifierReads(p.value[n..], p.rest);
  }

  lemma {:induction false} PrimarySound(f: FloatReader, s: string) returns (t: Tree, w: string)
    requires ParsePrimary(f, s).Done? && (s == [] || !IsSpace(s[0]))
    ensures t.WellFormed(f) && t.Primary() && t.Meaning(f) == ParsePrimary(f, s).value
    ensures Blank(w) && s == t.Before(w + ParsePrimary(f, s).rest)
    decreases |s|, 0
  {
    hide ParseSimple, ParseOr, Blank;
    var p := ParsePrimary(f, s);
    if "not" <= s && ParsePrimary(f, SkipSpace(s[3..])).Done? {
      var after := LeadingBlank(s[3..]);
      var inner: Tree;
      inner, w := PrimarySound(f, SkipSpace(s[3..]));
      t := Negation(after, inner);
      AfterPrefix("not", s);
    } else if "(" <= s && ParseOr(f, SkipSpace(s[1..])).Done? && ")" <= SkipSpace(ParseOr(f, SkipSpace(s[1..])).rest) {
      var open := LeadingBlank(s[1..]);
      var inner, w1 := OrSound(f, SkipSpace(s[1..]));
      var behind := ParseOr(f, SkipSpace(s[1..])).rest;
      var w2 := LeadingBlank(behind);
      t, w := Group(open, inner, w1 + w2), "";
      AfterPrefix("(", s);
      AfterPrefix(")", SkipSpace(behind));
      GroupText(f, open, inner, w1, w2, p.rest);
    } else {
      t, w := LeafSound(f, s);
    }
  }

  lemma {:induction false} GroupText(f: FloatReader, open: string, inner: Tree, w1: string, w2: string, rest: string)
    requires inner.WellFormed(f) && Blank(open) && Blank(w1) && Blank(w2)
    ensures
      var t := Group(open, inner, w1 + w2);
      && t.WellFormed(f) && t.Primary() && t.Meaning(f) == inner.Meaning(f) && Blank("")
      && t.Before("" + rest) == "(" + (open + inner.Before(w1 + (w2 + (")" + rest))))
  {
    Regroup(w1, w2, ")" + rest);
    assert "" + rest == rest;
  }

  lemma {:induction false} AndSound(f: FloatReader, s: string) returns (t: Tree, w: string)
    requires ParseAnd(f, s).Done? && (s == [] || !IsSpace(s[0]))
    ensures t.WellFormed(f) && !t.Disj? && t.Meaning(f) == ParseAnd(f, s).value
    ensures Blank(w) && s == t.Before(w + ParseAnd(f, s).rest)
    decreases |s|, 1
  {
    hide ParsePrimary, AndTail;
    t, w := PrimarySound(f, s);
    t, w := AndTailSound(f, ParsePrimary(f, s).rest, t, w);
  }

  lemma {:induction false} AndTailSound(f: FloatReader, s: string, left: Tree, w0: string) returns (t: Tree, w: string)
    requires left.WellFormed(f) && !left.Disj? && Blank(w0) && AndTail(f, s, left.Meaning(f)).Done?
    ensures
      var p := AndTail(f, s, left.Meaning(f));
      && t.WellFormed(f) && !t.Disj? && t.Meaning(f) == p.value
      && Blank(w) && left.Before(w0 + s) == t.Before(w + p.rest)
    decreases |s|, 1
  {
    hide ParsePrimary;
    var next := SkipSpace(s);
    if "and" <= next {
      var before := LeadingBlank(s);
      var after := LeadingBlank(next[3..]);
      var second := SkipSpace(next[3..]);
      var right, w1 := PrimarySound(f, second);
      var p := ParsePrimary(f, second);
      AfterPrefix("and", next);
      AndStep(f, s, after, second, left.Meaning(f));
      Regroup(w0, before, next);
      hide AndTail;
      t, w := AndTailSound(f, p.rest, Conj(left, w0 + before, after, right), w1);
    } else {
      t, w := left, w0;
    }
  }

  lemma {:induction false} OrSound(f: FloatReader, s: string) returns (t: Tree, w: string)
    requires ParseOr(f, s).Done? && (s == [] || !IsSpace(s[0]))
    ensures t.WellFormed(f) && t.Meaning(f) == ParseOr(f, s).value
    ensures Blank(w) && s == t.Before(w + ParseOr(f, s).rest)
    decreases |s|, 2
  {
    hide ParseAnd, OrTail;
    t, w := AndSound(f, s);
    t, w := OrTailSound(f, ParseAnd(f, s).rest, t, w);
  }

  lemma {:induction false} OrTailSound(f: FloatReader, s: string, left: Tree, w0: string) returns (t: Tree, w: string)
    requires left.WellFormed(f) && Blank(w0) && OrTail(f, s, left.Meaning(f)).Done?
    ensures
      var p := OrTail(f, s, left.Meaning(f));
      && t.WellFormed(f) && t.Meaning(f) == p.value
      && Blank(w) && left.Before(w0 + s) == t.Before(w + p.rest)
    decreases |s|, 2
  {
    hide ParseAnd;
    var next := SkipSpace(s);
    if "or" <= next {
      var before := LeadingBlank(s);
      var after := LeadingBlank(next[2..]);
      var second := SkipSpace(next[2..]);
      var right, w1 := AndSound(f, second);
      var p := ParseAnd(f, second);
      AfterPrefix("or", next);
      OrStep(f, s, after, second, left.Meaning(f));
      Regroup(w0, before, next);
      hide OrTail;
      t, w := OrTailSound(f, p.rest, Disj(left, w0 + before, after, right), w1);
    } else {
      t, w := left, w0;
    }
  }

  // ---------- Main result ----------

  /** The text is a filter stage with `e`, written in one way or another, and `rest` behind it. */
  ghost predicate Written(f: FloatReader, e: FilterExpr, s: string, rest: string)
  {
    exists t: Tree, open, close ::
      && t.WellFormed(f) && t.Meaning(f) == e && Blank(open) && Blank(close)
      && s == "filter(" + (open + t.Before(close + (")" + rest)))
  }

  lemma {:induction false} StageReads(f: FloatReader, t: Tree, open: string, close: string, rest: string)
    requires t.WellFormed(f) && Sayable(t.Meaning(f)) && Blank(open) && Blank(close)
    ensures ParseFilterStage(f, "filter(" + (open + t.Before(close + (")" + rest)))) == Done(rest, t.Meaning(f))
  {
    hide ParseOr;
    var end := close + (")" + rest);
    var body := t.Before(end);
    var s := "filter(" + (open + body);
    FollowBlank(close, ")" + rest);
    SkipBlank(close, ")" + rest);
    NoSpace(")" + rest);
    assert (")" + rest)[1..] == rest;
    TreeHead(f, t, end);
    SkipBlank(open, body);
    NoSpace(body);
    var r := OrReads(f, t, end);
    OrStops(f, r, t.Meaning(f));
    assert s[7..] == open + body;
    hide OrTail, Tree.Before, Tree.Meaning;
  }

  lemma {:induction false} StageSound(f: FloatReader, s: string)
    requires ParseFilterStage(f, s).Done?
    ensures Written(f, ParseFilterStage(f, s).value, s, ParseFilterStage(f, s).rest)
  {
    hide ParseOr;
    var p := ParseFilterStage(f, s);
    var body := SkipSpace(s[7..]);
    var open := LeadingBlank(s[7..]);
    var t, w := OrSound(f, body);
    var behind := ParseOr(f, body).rest;
    var close := LeadingBlank(behind);
    assert SkipSpace(behind) == ")" + p.rest;
    Regroup(w, close, ")" + p.rest);
    assert s == "filter(" + s[7..];
    assert s == "filter(" + (open + t.Before((w + close) + (")" + p.rest)));
  }

  /** The parser accepts the texts of a filter, and nothing else. */
  lemma {:induction false} FilterExact(f: FloatReader, s: string, rest: string, e: FilterExpr)
    requires Sayable(e)
    ensures ParseFilterStage(f, s) == Done(rest, e) <==> Written(f, e, s, rest)
  {
    if ParseFilterStage(f, s) == Done(rest, e) {
      StageSound(f, s);
    }
    if Written(f, e, s, rest) {
      var t: Tree, open, close :|
        && t.WellFormed(f) && t.Meaning(f) == e && Blank(open) && Blank(close)
        && s == "filter(" + (open + t.Before(close + (")" + rest)));
      StageReads(f, t, open, close, rest);
    }
  }

  /** Hence a text says one filter only, however it is taken apart. */
  lemma {:induction false} Unambiguous(f: FloatReader, s: string, rest: string, e: FilterExpr, rest': string, e': FilterExpr)
    requires Sayable(e) && Sayable(e') && Written(f, e, s, rest) && Written(f, e', s, rest')
    ensures e == e' && rest == rest'
  {
    hide Written, ParseFilterStage;
    FilterExact(f, s, rest, e);
    FilterExact(f, s, rest', e');
  }
}
