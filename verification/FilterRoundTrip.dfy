/**
 * Printing a filter drops its parentheses, so parsing the text back gives another tree. On the fragment
 * stated here it is the left-nested form of the same filter, which means the same on every record.
 */
module FilterRoundTrip {
  import opened Wrappers
  import opened Bytes
  import opened Types
  import opened Filters
  import opened FilterParser
  import opened FilterGrammar

  // ---------- The fragment ----------

  predicate IsEscape(c: char)
  {
    c == '"' || c == '\\' || c == 'n' || c == 't' || c == 'r'
  }

  /** No quote, and every backslash, taken in turn, stands before a character that it does not escape. */
  predicate Verbatim(s: string)
  {
    s != [] ==>
      && s[0] != '"'
      && if s[0] == '\\' then |s| > 1 && !IsEscape(s[1]) && Verbatim(s[2..]) else Verbatim(s[1..])
  }

  predicate PrintableValue(v: DataValue)
  {
    match v
    case Null => true
    case Bool(_) => true
    case Int(i) => -I64_MAX - 1 <= i < 0
    case UInt(u) => u < U64
    case String(s) => Verbatim(s)
    case Array(items) => forall i :: 0 <= i < |items| ==> PrintableValue(items[i])
    case _ => false
  }

  predicate PrintableField(s: string)
  {
    && s != [] && IsIdentHead(s[0]) && (forall i :: 0 <= i < |s| ==> IsIdentTail(s[i]))
    && !("not" <= s)
  }

  /** No `Or` directly under an `And`; fields are identifiers that do not start with "not". */
  predicate Printable(e: FilterExpr)
  {
    match e
    case Simple(field, _, value) => PrintableField(field) && PrintableValue(value)
    case And(left, right) => !left.Or? && !right.Or? && Printable(left) && Printable(right)
    case Or(left, right) => Printable(left) && Printable(right)
    case Not(inner) => Printable(inner)
  }

  // ---------- The left-nested form ----------

  function AndLast(left: FilterExpr, right: FilterExpr): FilterExpr
  {
    if right.And? then And(AndLast(left, right.left), right.right) else And(left, right)
  }

  function OrLast(left: FilterExpr, right: FilterExpr): FilterExpr
  {
    if right.Or? then Or(OrLast(left, right.left), right.right) else Or(left, right)
  }

  /** Conjunctions and disjunctions regrouped to the left, inside negations too. */
  function LeftNested(e: FilterExpr): FilterExpr
  {
    match e
    case Simple(_, _, _) => e
    case Not(inner) => Not(LeftNested(inner))
    case And(left, right) => AndLast(LeftNested(left), LeftNested(right))
    case Or(left, right) => OrLast(LeftNested(left), LeftNested(right))
  }

  predicate LeansLeft(e: FilterExpr)
  {
    match e
    case Simple(_, _, _) => true
    case Not(inner) => LeansLeft(inner)
    case And(left, right) => !right.And? && LeansLeft(left) && LeansLeft(right)
    case Or(left, right) => !right.Or? && LeansLeft(left) && LeansLeft(right)
  }

  lemma {:induction false} AndLastMeans(env: Env, r: Record, left: FilterExpr, right: FilterExpr)
    ensures Evaluate(env, r, AndLast(left, right)) <==> Evaluate(env, r, left) && Evaluate(env, r, right)
    ensures LeansLeft(AndLast(left, right)) <==> LeansLeft(left) && LeansLeft(right)
  {
    if right.And? {
      AndLastMeans(env, r, left, right.left);
    }
  }

  lemma {:induction false} OrLastMeans(env: Env, r: Record, left: FilterExpr, right: FilterExpr)
    ensures Evaluate(env, r, OrLast(left, right)) <==> Evaluate(env, r, left) || Evaluate(env, r, right)
    ensures LeansLeft(OrLast(left, right)) <==> LeansLeft(left) && LeansLeft(right)
  {
    if right.Or? {
      OrLastMeans(env, r, left, right.left);
    }
  }

  /** Regrouping changes the tree, so that nothing groups to the right, and never the meaning. */
  lemma {:induction false} LeftNestedMeans(env: Env, r: Record, e: FilterExpr)
    ensures Evaluate(env, r, LeftNested(e)) <==> Evaluate(env, r, e)
    ensures LeansLeft(LeftNested(e))
  {
    match e
    case Simple(_, _, _) =>
    case Not(inner) =>
      LeftNestedMeans(env, r, inner);
    case And(left, right) =>
      LeftNestedMeans(env, r, left);
      LeftNestedMeans(env, r, right);
      AndLastMeans(env, r, LeftNested(left), LeftNested(right));
    case Or(left, right) =>
      LeftNestedMeans(env, r, left);
      LeftNestedMeans(env, r, right);
      OrLastMeans(env, r, LeftNested(left), LeftNested(right));
  }

  // ---------- Numbers and literals ----------

  lemma {:induction false} NatRoundTrip(n: nat)
    ensures forall i :: 0 <= i < |NatText(n)| ==> IsDigit(NatText(n)[i])
    ensures NatOf(NatText(n)) == n
  {
    var s := NatText(n);
    if n >= 10 {
      NatRoundTrip(n / 10);
      assert s[..|s| - 1] == NatText(n / 10);
    } else {
      assert s[..|s| - 1] == [];
      assert NatOf([]) == 0;
    }
  }

  /** The printed digits of a number, with a minus or without: read as that number, or rejected beyond 64 bits. */
  lemma {:induction false} NumberRoundTrip(f: FloatReader, n: nat, negative: bool, rest: string)
    requires Follow(rest)
    ensures
      ParseNumber(f, (if negative then "-" else "") + (NatText(n) + rest)) ==
        if negative then (if n <= I64_MAX + 1 then Done(rest, Int(0 - n)) else Fail)
        else if n < U64 then Done(rest, UInt(n)) else Fail
  {
    NatRoundTrip(n);
    WholePart(NatText(n), rest);
    WholeRead(f, negative, NatText(n), rest);
    hide ParseNumber, ParseDigits, NatText, NatOf, Span;
    SignedNumber(f, negative, NatText(n) + rest);
  }

  lemma {:induction false} VerbatimIs(s: string)
    ensures Unquoted(s).Some? ==> |Unquoted(s).value| <= |s|
    ensures Unquoted(s) == Some(s) <==> Verbatim(s)
  {
    if s != [] && s[0] != '"' && !(s[0] == '\\' && |s| == 1) {
      var n := if s[0] == '\\' then 2 else 1;
      VerbatimIs(s[n..]);
      assert s == s[..n] + s[n..];
      if Unquoted(s).Some? {
        var piece := if n == 2 then Unescape(s[1]) else [s[0]];
        assert if n == 2 && IsEscape(s[1]) then |piece| == 1 else piece == s[..n];
        assert Unquoted(s).value[..|piece|] == piece && Unquoted(s).value[|piece|..] == Unquoted(s[n..]).value;
      }
    }
  }

  /** A text in quotes reads back as itself if and only if it has no quote and escapes nothing. */
  lemma {:induction false} LiteralExact(s: string, rest: string)
    ensures ParseStringLiteral("\"" + (s + ("\"" + rest))) == Done(rest, s) <==> Verbatim(s)
  {
    VerbatimIs(s);
    hide Unquoted, Verbatim, StringBody;
    var inner := s + ("\"" + rest);
    assert ("\"" + inner)[1..] == inner;
    if StringBody(inner, "") == Done(rest, s) {
      var body := BodySound(inner, "");
      Cancelled(s, body, "\"" + rest);
    }
    if Unquoted(s).Some? {
      QuotedReads(s, rest);
    }
  }

  lemma {:induction false} Cancelled(a: string, b: string, end: string)
    requires a + end == b + end
    ensures a == b
  {
    assert a == (a + end)[..|a|] && b == (b + end)[..|b|];
  }

  function EscapeOf(c: char): string
  {
    if c == '"' then "\\\"" else if c == '\\' then "\\\\" else if c == '\n' then "\\n"
    else if c == '\t' then "\\t" else if c == '\r' then "\\r" else [c]
  }

  function Escaped(s: string): string
  {
    if s == [] then [] else EscapeOf(s[0]) + Escaped(s[1..])
  }

  lemma {:induction false} EscapedMeans(s: string)
    ensures Unquoted(Escaped(s)) == Some(s)
  {
    if s != [] {
      EscapedMeans(s[1..]);
      Prefixed(EscapeOf(s[0]), Escaped(s[1..]), [s[0]]);
      assert s == [s[0]] + s[1..];
    }
  }

  /** Every text can be written as a literal, by escaping quotes, backslashes, line ends and tabs. */
  lemma {:induction false} EscapedRoundTrip(s: string, rest: string)
    ensures ParseStringLiteral("\"" + (Escaped(s) + ("\"" + rest))) == Done(rest, s)
  {
    EscapedMeans(s);
    QuotedReads(Escaped(s), rest);
  }

  // ---------- Printed values ----------

  function PrintedValue(v: DataValue): Spelling
    requires PrintableValue(v)
  {
    match v
    case Null => Word("null")
    case Bool(b) => Word(if b then "true" else "false")
    case Int(i) => Number(true, NatText(0 - i), "")
    case UInt(u) => Number(false, NatText(u), "")
    case String(s) => Quoted(s)
    case Array(items) => if items == [] then Empty("") else List("", PrintedValue(items[0]), PrintedMore(items[1..]), "")
  }

  function PrintedMore(items: seq<DataValue>): More
    requires forall i :: 0 <= i < |items| ==> PrintableValue(items[i])
  {
    if items == [] then End else Comma("", " ", PrintedValue(items[0]), PrintedMore(items[1..]))
  }

  lemma {:induction false} ValuePrinted(f: FloatReader, other: DataValue -> string, v: DataValue, rest: string)
    requires PrintableValue(v)
    ensures PrintedValue(v).Value(f) == Some(v) && PrintedValue(v).Before(rest) == ValueText(other, v) + rest
    decreases v, 1
  {
    match v
    case Array(items) =>
      ListPrinted(f, other, items, rest);
    case _ =>
      AtomPrinted(f, other, v, rest);
  }

  lemma {:induction false} AtomPrinted(f: FloatReader, other: DataValue -> string, v: DataValue, rest: string)
    requires PrintableValue(v) && !v.Array?
    ensures PrintedValue(v).Value(f) == Some(v) && PrintedValue(v).Before(rest) == ValueText(other, v) + rest
  {
    hide NatText, NatOf, Unquoted;
    match v
    case Null =>
    case Bool(_) =>
    case Int(i) =>
      NatRoundTrip(0 - i);
      assert "-" + (NatText(0 - i) + rest) == "-" + NatText(0 - i) + rest;
    case UInt(u) =>
      NatRoundTrip(u);
      assert "" + (NatText(u) + rest) == NatText(u) + rest;
    case String(s) =>
      VerbatimIs(s);
      assert "\"" + (s + ("\"" + rest)) == "\"" + s + "\"" + rest;
  }

  lemma {:induction false} ListText(a: string, b: string, rest: string)
    ensures "[" + ("" + (a + (b + ("" + ("]" + rest))))) == "[" + (a + b) + "]" + rest
  {
  }

  lemma {:induction false} CommaText(a: string, b: string, rest: string)
    ensures "" + ("," + (" " + (a + (b + rest)))) == ", " + (a + b) + rest
  {
  }

  /** What is printed behind the first item. */
  function ItemsTail(other: DataValue -> string, items: seq<DataValue>): string
  {
    if items == [] then "" else ", " + ItemsText(other, items)
  }

  lemma {:induction false} ItemsSplit(other: DataValue -> string, items: seq<DataValue>)
    requires items != []
    ensures ItemsText(other, items) == ValueText(other, items[0]) + ItemsTail(other, items[1..])
    ensures items == [items[0]] + items[1..]
  {
  }

  lemma {:induction false} ListPrinted(f: FloatReader, other: DataValue -> string, items: seq<DataValue>, rest: string)
    requires forall i :: 0 <= i < |items| ==> PrintableValue(items[i])
    ensures
      var v := Array(items);
      PrintedValue(v).Value(f) == Some(v) && PrintedValue(v).Before(rest) == "[" + ItemsText(other, items) + "]" + rest
    decreases items, 0
  {
    if items == [] {
      assert "[" + ("" + ("]" + rest)) == "[" + "" + "]" + rest;
    } else {
      hide ValueText, ItemsText, ItemsTail, PrintedMore;
      var end := "" + ("]" + rest);
      var more := PrintedMore(items[1..]).Before(end);
      MorePrinted(f, other, items[1..], end);
      ValuePrinted(f, other, items[0], more);
      ItemsSplit(other, items);
      ListText(ValueText(other, items[0]), ItemsTail(other, items[1..]), rest);
    }
  }

  lemma {:induction false} MorePrinted(f: FloatReader, other: DataValue -> string, items: seq<DataValue>, rest: string)
    requires forall i :: 0 <= i < |items| ==> PrintableValue(items[i])
    ensures PrintedMore(items).Values(f) == Some(items)
    ensures PrintedMore(items).Before(rest) == ItemsTail(other, items) + rest
    decreases items, 0
  {
    hide ValueText, ItemsText;
    if items != [] {
      ValuePrinted(f, other, items[0], PrintedMore(items[1..]).Before(rest));
      MorePrinted(f, other, items[1..], rest);
      ItemsSplit(other, items);
      CommaText(ValueText(other, items[0]), ItemsTail(other, items[1..]), rest);
    }
  }

  lemma {:induction false} ValueRoundTrip(f: FloatReader, other: DataValue -> string, v: DataValue, rest: string)
    requires PrintableValue(v) && Follow(rest)
    ensures ParseValue(f, ValueText(other, v) + rest) == Done(rest, v)
  {
    ValuePrinted(f, other, v, rest);
    ValueReads(f, PrintedValue(v), rest);
  }

  // ---------- Printed filters ----------

  function ConjLast(left: Tree, right: Tree): Tree
  {
    if right.Conj? then Conj(ConjLast(left, right.left), right.before, right.after, right.right) else Conj(left, " ", " ", right)
  }

  function DisjLast(left: Tree, right: Tree): Tree
  {
    if right.Disj? then Disj(DisjLast(left, right.left), right.before, right.after, right.right) else Disj(left, " ", " ", right)
  }

  function PrintedTree(e: FilterExpr): Tree
    requires Printable(e)
  {
    match e
    case Simple(field, op, value) => Leaf(field, " ", op, " ", PrintedValue(value))
    case Not(inner) => Negation("", Group("", PrintedTree(inner), ""))
    case And(left, right) => ConjLast(PrintedTree(left), PrintedTree(right))
    case Or(left, right) => DisjLast(PrintedTree(left), PrintedTree(right))
  }

  /** No parentheses but those after `not`. */
  predicate Bare(t: Tree)
  {
    match t
    case Leaf(_, _, _, _, _) => true
    case Negation(_, _) => true
    case Group(_, _, _) => false
    case Conj(left, _, _, right) => Bare(left) && Bare(right)
    case Disj(left, _, _, right) => Bare(left) && Bare(right)
  }

  lemma {:induction false} AndText(rest: string)
    ensures " " + ("and" + (" " + rest)) == " and " + rest
  {
  }

  lemma {:induction false} OrText(rest: string)
    ensures " " + ("or" + (" " + rest)) == " or " + rest
  {
  }

  lemma {:induction false} ConjLastPrints(f: FloatReader, left: Tree, right: Tree, rest: string)
    requires left.WellFormed(f) && right.WellFormed(f) && !left.Disj? && !right.Disj? && Bare(left) && Bare(right)
    ensures
      var t := ConjLast(left, right);
      && t.WellFormed(f) && Bare(t) && t.Conj?
      && t.Meaning(f) == AndLast(left.Meaning(f), right.Meaning(f))
      && t.Before(rest) == left.Before(" and " + right.Before(rest))
  {
    if right.Conj? {
      ConjLastPrints(f, left, right.left, right.before + ("and" + (right.after + right.right.Before(rest))));
    } else {
      AndText(right.Before(rest));
    }
  }

  lemma {:induction false} DisjLastPrints(f: FloatReader, left: Tree, right: Tree, rest: string)
    requires left.WellFormed(f) && right.WellFormed(f) && Bare(left) && Bare(right)
    ensures
      var t := DisjLast(left, right);
      && t.WellFormed(f) && Bare(t) && t.Disj?
      && t.Meaning(f) == OrLast(left.Meaning(f), right.Meaning(f))
      && t.Before(rest) == left.Before(" or " + right.Before(rest))
  {
    if right.Disj? {
      DisjLastPrints(f, left, right.left, right.before + ("or" + (right.after + right.right.Before(rest))));
    } else {
      OrText(right.Before(rest));
    }
  }

  /** The text of a filter is that of a tree which means its left-nested form. */
  lemma {:induction false} TreePrinted(f: FloatReader, other: DataValue -> string, e: FilterExpr, rest: string)
    requires Printable(e)
    ensures
      var t := PrintedTree(e);
      && t.WellFormed(f) && Bare(t) && (t.Disj? <==> e.Or?)
      && t.Meaning(f) == LeftNested(e)
      && t.Before(rest) == Print(other, e) + rest
  {
    hide Spelling.Before, Spelling.Value;
    match e
    case Simple(_, _, value) =>
      ValuePrinted(f, other, value, rest);
      SimpleText(other, e, PrintedValue(value).Before(rest), rest);
    case Not(inner) =>
      TreePrinted(f, other, inner, "" + (")" + rest));
      NotText(Print(other, inner), rest);
    case And(left, right) =>
      TreePrinted(f, other, right, rest);
      TreePrinted(f, other, left, " and " + (Print(other, right) + rest));
      ConjLastPrints(f, PrintedTree(left), PrintedTree(right), rest);
      InfixText(Print(other, left), " and ", Print(other, right), rest);
    case Or(left, right) =>
      TreePrinted(f, other, right, rest);
      TreePrinted(f, other, left, " or " + (Print(other, right) + rest));
      DisjLastPrints(f, PrintedTree(left), PrintedTree(right), rest);
      InfixText(Print(other, left), " or ", Print(other, right), rest);
  }

  lemma {:induction false} NotText(inner: string, rest: string)
    ensures "not" + ("" + ("(" + ("" + (inner + ("" + (")" + rest)))))) == "not(" + inner + ")" + rest
  {
  }

  lemma {:induction false} InfixText(left: string, word: string, right: string, rest: string)
    ensures left + (word + (right + rest)) == left + word + right + rest
  {
  }

  lemma {:induction false} SimpleText(other: DataValue -> string, e: FilterExpr, value: string, rest: string)
    requires e.Simple? && value == ValueText(other, e.value) + rest
    ensures e.field + (" " + (OpText(e.op) + (" " + value))) == Print(other, e) + rest
  {
    hide ValueText, OpText;
    assert Print(other, e) == e.field + " " + OpText(e.op) + " " + ValueText(other, e.value);
  }

  lemma {:induction false} PrintableSayable(e: FilterExpr)
    requires PrintableLeaves(e)
    ensures Sayable(e)
  {
    match e
    case Simple(_, _, _) =>
    case And(left, right) =>
      PrintableSayable(left);
      PrintableSayable(right);
    case Or(left, right) =>
      PrintableSayable(left);
      PrintableSayable(right);
    case Not(inner) =>
      PrintableSayable(inner);
  }

  lemma {:induction false} LeftNestedLeaves(e: FilterExpr)
    requires PrintableLeaves(e)
    ensures PrintableLeaves(LeftNested(e))
  {
    match e
    case Simple(_, _, _) =>
    case Not(inner) =>
      LeftNestedLeaves(inner);
    case And(left, right) =>
      LeftNestedLeaves(left);
      LeftNestedLeaves(right);
      LastLeaves(LeftNested(left), LeftNested(right));
    case Or(left, right) =>
      LeftNestedLeaves(left);
      LeftNestedLeaves(right);
      LastLeaves(LeftNested(left), LeftNested(right));
  }

  lemma {:induction false} LastLeaves(left: FilterExpr, right: FilterExpr)
    requires PrintableLeaves(left) && PrintableLeaves(right)
    ensures PrintableLeaves(AndLast(left, right)) && PrintableLeaves(OrLast(left, right))
  {
    if right.And? || right.Or? {
      LastLeaves(left, right.left);
    }
  }

  /** Printing and parsing a filter of the fragment gives its left-nested form, which means the same. */
  lemma {:induction false} PrintParseKeepsMeaning(f: FloatReader, other: DataValue -> string, e: FilterExpr, rest: string)
    requires Printable(e)
    ensures
      var p := ParseFilterStage(f, "filter(" + (Print(other, e) + (")" + rest)));
      && p == Done(rest, LeftNested(e))
      && forall env, r :: Evaluate(env, r, p.value) <==> Evaluate(env, r, e)
  {
    hide ParseFilterStage, Print, LeftNested, Evaluate, Printable, PrintableLeaves;
    var t := PrintedTree(e);
    TreePrinted(f, other, e, "" + (")" + rest));
    PrintableIs(e);
    LeftNestedLeaves(e);
    PrintableSayable(LeftNested(e));
    StageReads(f, t, "", "", rest);
    assert "" + (")" + rest) == ")" + rest && "" + t.Before(")" + rest) == t.Before(")" + rest);
    forall env: Env, r: Record
      ensures Evaluate(env, r, LeftNested(e)) <==> Evaluate(env, r, e)
    {
      LeftNestedMeans(env, r, e);
    }
  }

  // ---------- Outside the fragment ----------

  /** Fields and values as in the fragment; any nesting. */
  predicate PrintableLeaves(e: FilterExpr)
  {
    match e
    case Simple(field, _, value) => PrintableField(field) && PrintableValue(value)
    case And(left, right) => PrintableLeaves(left) && PrintableLeaves(right)
    case Or(left, right) => PrintableLeaves(left) && PrintableLeaves(right)
    case Not(inner) => PrintableLeaves(inner)
  }

  predicate NoOrUnderAnd(e: FilterExpr)
  {
    match e
    case Simple(_, _, _) => true
    case And(left, right) => !left.Or? && !right.Or? && NoOrUnderAnd(left) && NoOrUnderAnd(right)
    case Or(left, right) => NoOrUnderAnd(left) && NoOrUnderAnd(right)
    case Not(inner) => NoOrUnderAnd(inner)
  }

  lemma {:induction false} PrintableIs(e: FilterExpr)
    ensures Printable(e) <==> PrintableLeaves(e) && NoOrUnderAnd(e)
  {
    match e
    case Simple(_, _, _) =>
    case And(left, right) =>
      PrintableIs(left);
      PrintableIs(right);
    case Or(left, right) =>
      PrintableIs(left);
      PrintableIs(right);
    case Not(inner) =>
      PrintableIs(inner);
  }

  function Size(e: FilterExpr): nat
  {
    match e
    case Simple(_, _, _) => 1
    case Not(inner) => 1 + Size(inner)
    case And(left, right) => 1 + Size(left) + Size(right)
    case Or(left, right) => 1 + Size(left) + Size(right)
  }

  /** What "`left` and `right`" is without parentheses: `and` binds the last disjunct of one to the first of the other. */
  function Join(left: FilterExpr, right: FilterExpr): FilterExpr
    decreases Size(left) + Size(right)
  {
    if right.Or? then Or(Join(left, right.left), right.right)
    else if left.Or? then Or(left.left, Join(left.right, right))
    else And(left, right)
  }

  /** The filter of the fragment that prints like `e`. */
  function Regrouped(e: FilterExpr): FilterExpr
  {
    match e
    case Simple(_, _, _) => e
    case And(left, right) => Join(Regrouped(left), Regrouped(right))
    case Or(left, right) => Or(Regrouped(left), Regrouped(right))
    case Not(inner) => Not(Regrouped(inner))
  }

  lemma {:induction false} JoinPrints(other: DataValue -> string, left: FilterExpr, right: FilterExpr)
    requires Printable(left) && Printable(right)
    ensures Printable(Join(left, right)) && Print(other, Join(left, right)) == Print(other, left) + " and " + Print(other, right)
    decreases Size(left) + Size(right)
  {
    if right.Or? {
      JoinPrints(other, left, right.left);
      OrBehind(Print(other, left) + " and ", Print(other, right.left), Print(other, right.right));
    } else if left.Or? {
      JoinPrints(other, left.right, right);
    }
  }

  lemma {:induction false} OrBehind(x: string, y: string, z: string)
    ensures (x + y) + " or " + z == x + (y + " or " + z)
  {
  }

  lemma {:induction false} RegroupedPrints(other: DataValue -> string, e: FilterExpr)
    requires PrintableLeaves(e)
    ensures Printable(Regrouped(e)) && Print(other, Regrouped(e)) == Print(other, e)
  {
    match e
    case Simple(_, _, _) =>
    case And(left, right) =>
      RegroupedPrints(other, left);
      RegroupedPrints(other, right);
      JoinPrints(other, Regrouped(left), Regrouped(right));
    case Or(left, right) =>
      RegroupedPrints(other, left);
      RegroupedPrints(other, right);
    case Not(inner) =>
      RegroupedPrints(other, inner);
  }

  lemma {:induction false} LastClean(left: FilterExpr, right: FilterExpr)
    ensures NoOrUnderAnd(AndLast(left, right)) <==> !left.Or? && !right.Or? && NoOrUnderAnd(left) && NoOrUnderAnd(right)
    ensures NoOrUnderAnd(OrLast(left, right)) <==> NoOrUnderAnd(left) && NoOrUnderAnd(right)
  {
    if right.And? || right.Or? {
      LastClean(left, right.left);
    }
  }

  /** Regrouping to the left neither makes nor removes an `Or` directly under an `And`. */
  lemma {:induction false} LeftNestedClean(e: FilterExpr)
    ensures NoOrUnderAnd(LeftNested(e)) <==> NoOrUnderAnd(e)
    ensures LeftNested(e).Or? <==> e.Or?
  {
    match e
    case Simple(_, _, _) =>
    case Not(inner) =>
      LeftNestedClean(inner);
    case And(left, right) =>
      LeftNestedClean(left);
      LeftNestedClean(right);
      LastClean(LeftNested(left), LeftNested(right));
    case Or(left, right) =>
      LeftNestedClean(left);
      LeftNestedClean(right);
      LastClean(LeftNested(left), LeftNested(right));
  }

  /**
   * Any filter with printable leaves: its text reads back, as the left-nested form of the filter in which `and`
   * took what stood next to it. That is the left-nested form of the filter itself if and only if no `Or` is
   * directly under an `And`.
   */
  lemma {:induction false} ParensLost(f: FloatReader, other: DataValue -> string, e: FilterExpr, rest: string)
    requires PrintableLeaves(e)
    ensures
      var p := ParseFilterStage(f, "filter(" + (Print(other, e) + (")" + rest)));
      && p == Done(rest, LeftNested(Regrouped(e)))
      && (p.value == LeftNested(e) <==> NoOrUnderAnd(e))
  {
    RegroupedPrints(other, e);
    PrintParseKeepsMeaning(f, other, Regrouped(e), rest);
    PrintableIs(Regrouped(e));
    PrintableIs(e);
    hide ParseFilterStage, Print, LeftNested, Regrouped, PrintableLeaves, NoOrUnderAnd, Printable;
    LeftNestedClean(Regrouped(e));
    LeftNestedClean(e);
    if Printable(e) {
      PrintParseKeepsMeaning(f, other, e, rest);
    }
  }

  predicate Primary(e: FilterExpr)
  {
    e.Simple? || e.Not?
  }

  /** What that does to the meaning of `a and (b or d)`: it survives on a record unless `a` fails and `d` holds. */
  lemma {:induction false} MeaningLost(f: FloatReader, other: DataValue -> string, a: FilterExpr, b: FilterExpr, d: FilterExpr, rest: string)
    requires Printable(a) && Printable(b) && Printable(d) && Primary(a) && Primary(b) && Primary(d)
    ensures
      var e := And(a, Or(b, d));
      var p := ParseFilterStage(f, "filter(" + (Print(other, e) + (")" + rest)));
      && p == Done(rest, Or(And(LeftNested(a), LeftNested(b)), LeftNested(d)))
      && forall env, r ::
           (Evaluate(env, r, p.value) <==> Evaluate(env, r, e)) <==> !(!Evaluate(env, r, a) && Evaluate(env, r, d))
  {
    var e, read := And(a, Or(b, d)), Or(And(a, b), d);
    SameText(other, a, b, d);
    PrintParseKeepsMeaning(f, other, read, rest);
    forall env: Env, r: Record
      ensures (Evaluate(env, r, LeftNested(read)) <==> Evaluate(env, r, e)) <==> !(!Evaluate(env, r, a) && Evaluate(env, r, d))
    {
      LeftNestedMeans(env, r, read);
    }
  }

  lemma {:induction false} SameText(other: DataValue -> string, a: FilterExpr, b: FilterExpr, d: FilterExpr)
    ensures Print(other, And(a, Or(b, d))) == Print(other, Or(And(a, b), d))
  {
    var x, y, z := Print(other, a), Print(other, b), Print(other, d);
    assert x + " and " + (y + " or " + z) == x + " and " + y + " or " + z;
  }

  /** A field that starts with "not" is read as a negation of a shorter field, when that is one. */
  lemma {:induction false} NotIsTakenFromTheField(f: FloatReader, other: DataValue -> string, field: string, op: Op, v: DataValue, rest: string)
    requires PrintableField(field) && PrintableValue(v)
    ensures
      var e := Simple("not" + field, op, v);
      ParseFilterStage(f, "filter(" + (Print(other, e) + (")" + rest))) == Done(rest, Not(Simple(field, op, v)))
  {
    var e := Simple(field, op, v);
    var inner, end := PrintedTree(e), "" + (")" + rest);
    TreePrinted(f, other, e, end);
    assert Sayable(e) && LeftNested(e) == e && inner.Primary();
    NotFieldText(other, field, op, v);
    hide ParseFilterStage, PrintedTree, Print, LeftNested;
    NegationPrinted(f, inner, e, Print(other, e), end);
    StageReads(f, Negation("", inner), "", "", rest);
    assert end == ")" + rest;
  }

  lemma {:induction false} NegationPrinted(f: FloatReader, inner: Tree, e: FilterExpr, text: string, rest: string)
    requires inner.WellFormed(f) && inner.Primary() && inner.Meaning(f) == e && Sayable(e) && inner.Before(rest) == text + rest
    ensures
      var t := Negation("", inner);
      t.WellFormed(f) && t.Meaning(f) == Not(e) && Sayable(Not(e)) && "" + t.Before(rest) == "not" + text + rest
  {
    assert "" + ("not" + ("" + (text + rest))) == "not" + text + rest;
  }

  lemma {:induction false} NotFieldText(other: DataValue -> string, field: string, op: Op, v: DataValue)
    ensures Print(other, Simple("not" + field, op, v)) == "not" + Print(other, Simple(field, op, v))
  {
    hide OpText, ValueText;
  }

  // ---------- With all parentheses ----------

  /** The text of a filter with every conjunction and disjunction in parentheses. */
  function FullText(other: DataValue -> string, e: FilterExpr): string
  {
    match e
    case Simple(_, _, _) => Print(other, e)
    case And(left, right) => "(" + FullText(other, left) + " and " + FullText(other, right) + ")"
    case Or(left, right) => "(" + FullText(other, left) + " or " + FullText(other, right) + ")"
    case Not(inner) => "not " + FullText(other, inner)
  }

  function FullTree(e: FilterExpr): Tree
    requires PrintableLeaves(e)
  {
    match e
    case Simple(_, _, _) => PrintedTree(e)
    case And(left, right) => Group("", Conj(FullTree(left), " ", " ", FullTree(right)), "")
    case Or(left, right) => Group("", Disj(FullTree(left), " ", " ", FullTree(right)), "")
    case Not(inner) => Negation(" ", FullTree(inner))
  }

  lemma {:induction false} FullPrinted(f: FloatReader, other: DataValue -> string, e: FilterExpr, rest: string)
    requires PrintableLeaves(e)
    ensures
      var t := FullTree(e);
      t.WellFormed(f) && t.Primary() && t.Meaning(f) == e && t.Before(rest) == FullText(other, e) + rest
  {
    hide Spelling.Before, Spelling.Value, Print, OpText;
    match e
    case Simple(_, _, _) =>
      TreePrinted(f, other, e, rest);
    case Not(inner) =>
      FullPrinted(f, other, inner, rest);
      NotSpaced(FullText(other, inner), rest);
    case And(left, right) =>
      var end := "" + (")" + rest);
      var r := FullText(other, right);
      FullPrinted(f, other, right, end);
      FullPrinted(f, other, left, " and " + (r + end));
      PairPrinted(f, Conj(FullTree(left), " ", " ", FullTree(right)), FullText(other, left), r, rest);
    case Or(left, right) =>
      var end := "" + (")" + rest);
      var r := FullText(other, right);
      FullPrinted(f, other, right, end);
      FullPrinted(f, other, left, " or " + (r + end));
      PairPrinted(f, Disj(FullTree(left), " ", " ", FullTree(right)), FullText(other, left), r, rest);
  }

  lemma {:induction false} NotSpaced(inner: string, rest: string)
    ensures "not" + (" " + (inner + rest)) == "not " + inner + rest
  {
  }

  lemma {:induction false} PairPrinted(f: FloatReader, t: Tree, l: string, r: string, rest: string)
    requires (t.Conj? || t.Disj?) && t.before == " " && t.after == " "
    requires t.left.WellFormed(f) && t.left.Primary() && t.right.WellFormed(f) && t.right.Primary()
    requires t.right.Before("" + (")" + rest)) == r + ("" + (")" + rest))
    requires
      var end := (if t.Conj? then " and " else " or ") + (r + ("" + (")" + rest)));
      t.left.Before(end) == l + end
    ensures
      var g := Group("", t, "");
      && g.WellFormed(f) && g.Meaning(f) == t.Meaning(f)
      && g.Before(rest) == "(" + l + (if t.Conj? then " and " else " or ") + r + ")" + rest
  {
    AndText(r + ("" + (")" + rest)));
    OrText(r + ("" + (")" + rest)));
    PairText(l, if t.Conj? then " and " else " or ", r, rest);
  }

  lemma {:induction false} PairText(l: string, word: string, r: string, rest: string)
    ensures "(" + ("" + (l + (word + (r + ("" + (")" + rest)))))) == "(" + l + word + r + ")" + rest
  {
  }

  /** With all its parentheses the text of any filter with printable leaves reads back as that very filter. */
  lemma {:induction false} FullFilterRoundTrip(f: FloatReader, other: DataValue -> string, e: FilterExpr, rest: string)
    requires PrintableLeaves(e)
    ensures ParseFilterStage(f, "filter(" + (FullText(other, e) + (")" + rest))) == Done(rest, e)
  {
    hide ParseFilterStage, PrintableLeaves, FullText, FullTree;
    FullPrinted(f, other, e, ")" + rest);
    PrintableSayable(e);
    hide Sayable, Tree.WellFormed, Tree.Meaning, Tree.Before, Tree.Primary;
    StageReads(f, FullTree(e), "", "", rest);
    assert "" + (")" + rest) == ")" + rest;
    assert "" + FullTree(e).Before(")" + rest) == FullTree(e).Before(")" + rest);
  }
}
