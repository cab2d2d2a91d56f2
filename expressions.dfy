/**
 * Expression capture (`expression_t` and the `expression` helpers of
 * Automation/Core.hpp and include/Eightest/Core.hpp, with the `bool` and
 * `nullptr` overloads of src/Automation/Core.cpp): a value paired with a text
 * describing the expression that produced it, and the operators `!`, `==`,
 * `!=`, `<`, `<=`, `>`, `>=`, `&&`, `||` lifted so that they build the
 * combined value and the combined text together.
 */
module Expressions {
  import opened Wrappers
  import opened Decimal

  /** The values modelled: integers, `bool` and `nullptr`. */
  datatype Value = Int(i: int) | Bool(b: bool) | Null

  /** `expression_t<T>`: the captured value and its text (`string_value`). */
  datatype Expr = Expr(value: Value, text: string)

  /** The eight lifted binary operators. */
  datatype Op = Eq | Ne | Lt | Le | Gt | Ge | And | Or

  /** The operator's spelling, which the text repeats between the operands. */
  function Symbol(op: Op): string {
    match op
    case Eq => "=="
    case Ne => "!="
    case Lt => "<"
    case Le => "<="
    case Gt => ">"
    case Ge => ">="
    case And => "&&"
    case Or => "||"
  }

  /** `&&` and `||`, whose text is bracketed. */
  predicate IsLogical(op: Op) {
    op == And || op == Or
  }

  /** `static_cast<bool>(v)`: non-zero integers and `true` convert to `true`, `nullptr` to `false`. */
  function Truth(v: Value): bool {
    match v
    case Int(i) => i != 0
    case Bool(b) => b
    case Null => false
  }

  /** Integral promotion: in a comparison a `bool` takes part as 0 or 1. */
  function Promoted(v: Value): int
    requires !v.Null?
  {
    match v
    case Int(i) => i
    case Bool(b) => if b then 1 else 0
  }

  /**
   * The operand pairs for which `lhs.value op rhs.value` compiles: `nullptr`
   * compares only with `nullptr`, and only by `==` and `!=`; `&&` and `||`
   * accept every value through its conversion to `bool`.
   */
  predicate Comparable(op: Op, a: Value, b: Value) {
    IsLogical(op) || (a.Null? == b.Null? && (a.Null? ==> op == Eq || op == Ne))
  }

  /** The built-in operator applied to the two captured values. */
  function Apply(op: Op, a: Value, b: Value): bool
    requires Comparable(op, a, b)
  {
    if op == And then Truth(a) && Truth(b)
    else if op == Or then Truth(a) || Truth(b)
    else if a.Null? then op == Eq
    else
      var x, y := Promoted(a), Promoted(b);
      match op
      case Eq => x == y
      case Ne => x != y
      case Lt => x < y
      case Le => x <= y
      case Gt => x > y
      case Ge => x >= y
  }

  /** `expression(v, s)`: the value and the caller's text, both kept as given. */
  function Labeled(v: Value, s: string): (e: Expr)
    ensures e.value == v && e.text == s
  {
    Expr(v, s)
  }

  /** The characters `std::isspace` accepts in the "C" locale. */
  predicate IsSpace(c: char) {
    c == ' ' || c == '\t' || c == '\n' || c == '\r' || c == '\U{000B}' || c == '\U{000C}'
  }

  /** The characters up to the first whitespace. */
  function Word(s: string): string
    decreases |s|
  {
    if s == [] || IsSpace(s[0]) then [] else [s[0]] + Word(s[1..])
  }

  /** What `stream >> std::string` extracts: leading whitespace is skipped, then one word is read. */
  function FirstToken(s: string): string
    decreases |s|
  {
    if s == [] then [] else if IsSpace(s[0]) then FirstToken(s[1..]) else Word(s)
  }

  /**
   * `expression(v)`: `bool` and `nullptr` have fixed texts; any other value
   * takes the first token of its stream rendering, for an integer its
   * decimal form.
   */
  function Capture(v: Value): Expr {
    match v
    case Bool(b) => Expr(v, if b then "true" else "false")
    case Null => Expr(v, "nullptr")
    case Int(i) => Labeled(v, FirstToken(IntText(i)))
  }

  /** `expression_t<T>::operator!`. */
  function Not(e: Expr): Expr {
    Labeled(Bool(!Truth(e.value)), "!(" + e.text + ")")
  }

  /** The all-expression overload of a lifted binary operator. */
  function Binary(op: Op, l: Expr, r: Expr): Expr
    requires Comparable(op, l.value, r.value)
  {
    Labeled(Bool(Apply(op, l.value, r.value)), Joined(op, l.text, r.text))
  }

  /** The text of `lhs op rhs`: brackets around it for `&&` and `||` only. */
  function Joined(op: Op, a: string, b: string): string {
    var open := if IsLogical(op) then "(" else "";
    var close := if IsLogical(op) then ")" else "";
    open + a + " " + Symbol(op) + " " + b + close
  }

  /** `lhs op rhs` where only the left operand is an `expression_t`. */
  function BinaryRawRight(op: Op, l: Expr, v: Value): Expr
    requires Comparable(op, l.value, v)
  {
    Binary(op, l, Capture(v))
  }

  /** `lhs op rhs` where only the right operand is an `expression_t`. */
  function BinaryRawLeft(op: Op, v: Value, r: Expr): Expr
    requires Comparable(op, v, r.value)
  {
    Binary(op, Capture(v), r)
  }

  // ---------------------------------------------------------------------
  // Captured texts of single values

  lemma {:induction false} WordOfWord(s: string)
    requires forall k :: 0 <= k < |s| ==> !IsSpace(s[k])
    ensures Word(s) == s
    decreases |s|
  {
    if s != [] {
      WordOfWord(s[1..]);
    }
  }

  lemma {:induction false} WordStops(a: string, rest: string)
    requires forall k :: 0 <= k < |a| ==> !IsSpace(a[k])
    requires rest == [] || IsSpace(rest[0])
    ensures Word(a + rest) == a
    decreases |a|
  {
    if a != [] {
      assert (a + rest)[1..] == a[1..] + rest;
      WordStops(a[1..], rest);
    }
  }

  /**
   * `stream >> std::string` skips leading whitespace and stops at the next:
   * a rendering with inner whitespace is cut to its first word.
   */
  lemma {:induction false} FirstTokenOf(lead: string, a: string, rest: string)
    requires forall k :: 0 <= k < |lead| ==> IsSpace(lead[k])
    requires a != [] && forall k :: 0 <= k < |a| ==> !IsSpace(a[k])
    requires rest == [] || IsSpace(rest[0])
    ensures FirstToken(lead + a + rest) == a
    decreases |lead|
  {
    if lead == [] {
      assert lead + a + rest == a + rest;
      WordStops(a, rest);
    } else {
      assert (lead + a + rest)[1..] == lead[1..] + a + rest;
      FirstTokenOf(lead[1..], a, rest);
    }
  }

  /** `expression(v)` keeps `v` and gives it the text the source fixes for its kind. */
  lemma CaptureText(v: Value)
    ensures Capture(v).value == v
    ensures v.Int? ==> Capture(v).text == IntText(v.i)
    ensures v.Bool? ==> Capture(v).text == (if v.b then "true" else "false")
    ensures v.Null? ==> Capture(v).text == "nullptr"
  {
    if v.Int? {
      IntTextChars(v.i);
      FirstTokenOf([], IntText(v.i), []);
      assert [] + IntText(v.i) + [] == IntText(v.i);
    }
  }

  /** Reads a captured single-value text back into the value. */
  function ReadValue(s: string): Option<Value> {
    if s == "true" then Some(Bool(true))
    else if s == "false" then Some(Bool(false))
    else if s == "nullptr" then Some(Null)
    else match ParseInt(s)
      case Some(i) => Some(Int(i))
      case None => None
  }

  /** The text `expression(v)` gives a value identifies that value: no two values share a text. */
  lemma CaptureReadBack(v: Value)
    ensures ReadValue(Capture(v).text) == Some(v)
  {
    CaptureText(v);
    if v.Int? {
      ParseIntText(v.i);
      IntTextChars(v.i);
      var s := IntText(v.i);
      assert s != "true" && s != "false" && s != "nullptr" by {
        assert IsDigit(s[0]) || s[0] == '-';
      }
    }
  }

  // ---------------------------------------------------------------------
  // Texts of composite expressions

  /** `!e` negates the converted value and brackets the operand's text behind `!`. */
  lemma NotShape(e: Expr)
    ensures Not(e).value == Bool(!Truth(e.value))
    ensures Not(e).text == "!(" + e.text + ")"
  {
  }

  /**
   * A comparison joins the operand texts around the operator without
   * brackets; `&&` and `||` bracket the joined text. The value is the
   * operator applied to the operand values.
   */
  lemma BinaryShape(op: Op, l: Expr, r: Expr)
    requires Comparable(op, l.value, r.value)
    ensures Binary(op, l, r).value == Bool(Apply(op, l.value, r.value))
    ensures !IsLogical(op) ==> Binary(op, l, r).text == l.text + " " + Symbol(op) + " " + r.text
    ensures IsLogical(op) ==> Binary(op, l, r).text == "(" + l.text + " " + Symbol(op) + " " + r.text + ")"
  {
    if !IsLogical(op) {
      assert "" + l.text + " " + Symbol(op) + " " + r.text + "" == l.text + " " + Symbol(op) + " " + r.text;
    }
  }

  /**
   * A raw operand is wrapped exactly once by `expression(v)`: its part of the
   * text is the value's own captured text, as if the caller had wrapped it.
   */
  lemma RawOperandWrappedOnce(op: Op, e: Expr, v: Value)
    requires Comparable(op, e.value, v) && Comparable(op, v, e.value)
    ensures BinaryRawRight(op, e, v) == Binary(op, e, Capture(v))
    ensures BinaryRawLeft(op, v, e) == Binary(op, Capture(v), e)
    ensures v.Int? && !IsLogical(op) ==>
      BinaryRawRight(op, e, v).text == e.text + " " + Symbol(op) + " " + IntText(v.i) &&
      BinaryRawLeft(op, v, e).text == IntText(v.i) + " " + Symbol(op) + " " + e.text
  {
    CaptureText(v);
    BinaryShape(op, e, Capture(v));
    BinaryShape(op, Capture(v), e);
  }

  /** The text of a result depends on the operand texts and the operator only, never on values. */
  lemma TextIgnoresValues(op: Op, l: Expr, r: Expr, l': Expr, r': Expr)
    requires Comparable(op, l.value, r.value) && Comparable(op, l'.value, r'.value)
    requires l.text == l'.text && r.text == r'.text
    ensures Binary(op, l, r).text == Binary(op, l', r').text
    ensures Not(l).text == Not(l').text
  {
  }

  // ---------------------------------------------------------------------
  // Grouping: brackets in composite texts

  /** Opening minus closing brackets in `s`. */
  function Depth(s: string): int
    decreases |s|
  {
    if s == [] then 0
    else Depth(s[..|s| - 1]) + (if s[|s| - 1] == '(' then 1 else if s[|s| - 1] == ')' then -1 else 0)
  }

  /** Every bracket in `s` is closed, and none is closed before it is opened. */
  predicate Balanced(s: string) {
    Depth(s) == 0 && forall k :: 0 <= k <= |s| ==> Depth(s[..k]) >= 0
  }

  /** `s` is one bracketed group: its first bracket closes at its last character. */
  predicate Enclosed(s: string) {
    |s| >= 2 && s[0] == '(' && Balanced(s) && forall k :: 1 <= k < |s| ==> Depth(s[..k]) >= 1
  }

  predicate NoBrackets(s: string) {
    forall k :: 0 <= k < |s| ==> s[k] != '(' && s[k] != ')'
  }

  lemma {:induction false} DepthAppend(a: string, b: string)
    ensures Depth(a + b) == Depth(a) + Depth(b)
    decreases |b|
  {
    if b != [] {
      var b' := b[..|b| - 1];
      assert (a + b)[..|a + b| - 1] == a + b';
      DepthAppend(a, b');
    } else {
      assert a + b == a;
    }
  }

  lemma {:induction false} NoBracketsBalanced(s: string)
    requires NoBrackets(s)
    ensures Balanced(s)
    ensures forall k :: 0 <= k <= |s| ==> Depth(s[..k]) == 0
    decreases |s|
  {
    if s != [] {
      var s' := s[..|s| - 1];
      NoBracketsBalanced(s');
      forall k | 0 <= k <= |s|
        ensures Depth(s[..k]) == 0
      {
        if k < |s| {
          assert s[..k] == s'[..k];
        } else {
          assert s[..k] == s;
        }
      }
    }
  }

  lemma BalancedAppend(a: string, b: string)
    requires Balanced(a) && Balanced(b)
    ensures Balanced(a + b)
  {
    DepthAppend(a, b);
    forall k | 0 <= k <= |a + b|
      ensures Depth((a + b)[..k]) >= 0
    {
      if k <= |a| {
        assert (a + b)[..k] == a[..k];
      } else {
        assert (a + b)[..k] == a + b[..k - |a|];
        DepthAppend(a, b[..k - |a|]);
      }
    }
  }

  lemma BracketEncloses(x: string)
    requires Balanced(x)
    ensures Enclosed("(" + x + ")")
  {
    var s := "(" + x + ")";
    DepthAppend("(" + x, ")");
    DepthAppend("(", x);
    assert Depth("(") == 1 by { assert "("[..0] == []; }
    assert Depth(")") == -1 by { assert ")"[..0] == []; }
    forall k | 1 <= k < |s|
      ensures Depth(s[..k]) >= 1
    {
      assert s[..k] == "(" + x[..k - 1];
      DepthAppend("(", x[..k - 1]);
    }
    assert s[..0] == [];
    assert s[..|s|] == s;
  }

  /**
   * Bracketing keeps grouping: balanced operand texts give a balanced result,
   * and an `&&` or `||` result is one bracketed group.
   */
  lemma GroupingKept(op: Op, l: Expr, r: Expr)
    requires Comparable(op, l.value, r.value)
    requires Balanced(l.text) && Balanced(r.text)
    ensures Balanced(Binary(op, l, r).text)
    ensures IsLogical(op) ==> Enclosed(Binary(op, l, r).text)
  {
    JoinedGrouping(op, l.text, r.text);
  }

  lemma JoinedGrouping(op: Op, a: string, b: string)
    requires Balanced(a) && Balanced(b)
    ensures Balanced(Joined(op, a, b))
    ensures IsLogical(op) ==> Enclosed(Joined(op, a, b))
  {
    assert NoBrackets(Symbol(op));
    InfixGrouping(a, Symbol(op), b, IsLogical(op));
  }

  /** `a sym b`, bracketed or not, from balanced operands and a bracket-free symbol. */
  lemma InfixGrouping(a: string, sym: string, b: string, bracket: bool)
    requires Balanced(a) && Balanced(b) && NoBrackets(sym)
    ensures var s := (if bracket then "(" else "") + a + " " + sym + " " + b + (if bracket then ")" else "");
      Balanced(s) && (bracket ==> Enclosed(s))
  {
    var s := (if bracket then "(" else "") + a + " " + sym + " " + b + (if bracket then ")" else "");
    var inner := a + " " + sym + " " + b;
    InnerBalanced(a, sym, b);
    if bracket {
      assert s == "(" + inner + ")";
      BracketEncloses(inner);
    } else {
      assert s == inner;
    }
  }

  lemma InnerBalanced(a: string, sym: string, b: string)
    requires Balanced(a) && Balanced(b) && NoBrackets(sym)
    ensures Balanced(a + " " + sym + " " + b)
  {
    assert NoBrackets(" ");
    NoBracketsBalanced(" ");
    NoBracketsBalanced(sym);
    BalancedAppend(a, " ");
    BalancedAppend(a + " ", sym);
    BalancedAppend(a + " " + sym, " ");
    BalancedAppend(a + " " + sym + " ", b);
  }

  /** `!` keeps a balanced operand text balanced and brackets it as one group. */
  lemma NotGroupingKept(e: Expr)
    requires Balanced(e.text)
    ensures Balanced(Not(e).text) && Not(e).text[0] == '!' && Enclosed(Not(e).text[1..])
  {
    var group := "(" + e.text + ")";
    BracketEncloses(e.text);
    assert NoBrackets("!");
    NoBracketsBalanced("!");
    BalancedAppend("!", group);
    assert Not(e).text == "!" + group;
    assert Not(e).text[1..] == group;
  }

  /** The texts `expression(v)` gives contain no brackets. */
  lemma CaptureNoBrackets(v: Value)
    ensures NoBrackets(Capture(v).text)
  {
    CaptureText(v);
    if v.Int? {
      IntTextChars(v.i);
    }
  }

  // ---------------------------------------------------------------------
  // Expression trees, as written inside an `EXPECT` or `ASSERT`

  /**
   * The shape of a C++ expression over captured operands: `EXPR(v)`,
   * `expression(v, s)`, `!e`, and a lifted binary operator.
   */
  datatype Tree = Leaf(v: Value) | Text(v: Value, s: string) | Negate(t: Tree) | Combine(op: Op, l: Tree, r: Tree)

  /** The captured expression the C++ operators build, or `None` where the expression would not compile. */
  function Build(t: Tree): Option<Expr> {
    match t
    case Leaf(v) => Some(Capture(v))
    case Text(v, s) => Some(Labeled(v, s))
    case Negate(u) =>
      (match Build(u)
       case Some(e) => Some(Not(e))
       case None => None)
    case Combine(op, l, r) =>
      (match Build(l)
       case None => None
       case Some(a) =>
         match Build(r)
         case None => None
         case Some(b) => if Comparable(op, a.value, b.value) then Some(Binary(op, a, b)) else None)
  }

  /** Every caller-supplied text in the tree is balanced. */
  predicate LabelsBalanced(t: Tree) {
    match t
    case Leaf(_) => true
    case Text(_, s) => Balanced(s)
    case Negate(u) => LabelsBalanced(u)
    case Combine(_, l, r) => LabelsBalanced(l) && LabelsBalanced(r)
  }

  /**
   * However deeply the operators nest, the built text is balanced, and a
   * tree whose top operator is `&&` or `||` is rendered as one bracketed group.
   */
  lemma {:induction false} BuildKeepsGrouping(t: Tree)
    requires LabelsBalanced(t) && Build(t).Some?
    ensures Balanced(Build(t).value.text)
    ensures t.Combine? && IsLogical(t.op) ==> Enclosed(Build(t).value.text)
  {
    match t
    case Leaf(v) =>
      CaptureNoBrackets(v);
      NoBracketsBalanced(Capture(v).text);
    case Text(_, _) =>
    case Negate(u) =>
      BuildKeepsGrouping(u);
      NotGroupingKept(Build(u).value);
    case Combine(op, l, r) =>
      BuildKeepsGrouping(l);
      BuildKeepsGrouping(r);
      GroupingKept(op, Build(l).value, Build(r).value);
  }

  // ---------------------------------------------------------------------
  // Exact texts

  /** `expression(2) < expression(3)` is `true` with text `2 < 3`. */
  lemma LessExample()
    ensures Binary(Lt, Capture(Int(2)), Capture(Int(3))) == Expr(Bool(true), "2 < 3")
  {
    CaptureText(Int(2));
    CaptureText(Int(3));
    assert IntText(2) == "2" && IntText(3) == "3";
  }

  /** `expression(4) > expression(5)` is `false` with text `4 > 5`. */
  lemma GreaterExample()
    ensures Binary(Gt, Capture(Int(4)), Capture(Int(5))) == Expr(Bool(false), "4 > 5")
  {
    CaptureText(Int(4));
    CaptureText(Int(5));
    assert IntText(4) == "4" && IntText(5) == "5";
  }

  /** `(2 < 3) && (4 > 5)` is `false` with text `(2 < 3 && 4 > 5)`. */
  lemma AndExample()
    ensures Build(Combine(And, Combine(Lt, Leaf(Int(2)), Leaf(Int(3))), Combine(Gt, Leaf(Int(4)), Leaf(Int(5)))))
         == Some(Expr(Bool(false), "(2 < 3 && 4 > 5)"))
  {
    LessExample();
    GreaterExample();
    var lt := Expr(Bool(true), "2 < 3");
    var gt := Expr(Bool(false), "4 > 5");
    assert Build(Combine(Lt, Leaf(Int(2)), Leaf(Int(3)))) == Some(lt);
    assert Build(Combine(Gt, Leaf(Int(4)), Leaf(Int(5)))) == Some(gt);
    assert Joined(And, lt.text, gt.text) == "(2 < 3 && 4 > 5)";
  }

  /** `!expression(true, "x")` is `false` with text `!(x)`. */
  lemma NotExample()
    ensures Not(Labeled(Bool(true), "x")) == Expr(Bool(false), "!(x)")
  {
  }
}
