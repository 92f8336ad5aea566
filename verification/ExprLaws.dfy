// What expr promises about its operators, in plain strings and integers: precedence, arithmetic, comparisons, logic and
// keywords.
module ExprLaws {
  import opened Lz77
  import opened ExprSpec
  import opened ExprEval
  import opened ExprPrint

  // How tightly an operator binds; 0 if the string is none.
  function Rank(op: string): nat
  {
    if op == "|" then 1
    else if op == "&" then 2
    else if op == "<" || op == "<=" || op == "=" || op == "==" || op == "!=" || op == ">=" || op == ">" then 3
    else if op == "+" || op == "-" then 4
    else if op == "*" || op == "/" || op == "%" then 5
    else if op == ":" then 6
    else 0
  }

  // A string that stands for itself as an operand.
  predicate Plain(s: string)
  {
    s != "(" && s != ")" && s != "quote" && s != "length" && s != "match" && s != "index" && s != "substr"
  }

  lemma {:induction false} RankLevel(op: string)
    requires Rank(op) > 0
    ensures op in Ops(Rank(op) - 1) && Rank(op) <= 6
  {
  }

  lemma {:induction false} PlainLegal(s: string)
    requires Plain(s)
    ensures Legal(Operand(s)) && s !in KEYWORDS && s != "(" && s != ")"
  {
  }

  // ---- parentheses change nothing where the operators already group that way ----

  // What has been read at level 7 has been read at every level that nothing continues.
  lemma {:induction false} Outward(args: seq<string>, i: nat, e: Expr, j: nat, k: nat, re: Regex)
    requires i < |args| && j <= |args| && k <= 7 && args[i] !in KEYWORDS && Quiet(args, j, k)
    requires EvalAt(args, i, 7, re) == Expected(e, j, re)
    ensures EvalAt(args, i, k, re) == Expected(e, j, re)
    decreases 7 - k
  {
    if k == 6 {
      assert EvalAt(args, i, 6, re) == KeywordAt(args, i, re);
      assert KeywordAt(args, i, re) == EvalAt(args, i, 7, re);
    } else if k < 6 {
      hide EvalAt;
      Outward(args, i, e, j, k + 1, re);
      OneLevel(args, i, e, j, k, re);
      LoopStops(args, e, j, k, re);
    }
  }

  lemma {:induction false} OperandAt(args: seq<string>, i: nat, k: nat, re: Regex)
    requires i < |args| && k <= 7 && Plain(args[i]) && Quiet(args, i + 1, k)
    ensures EvalAt(args, i, k, re) == Expected(Operand(args[i]), i + 1, re)
  {
    PlainLegal(args[i]);
    assert EvalAt(args, i, 7, re) == Done(Str(args[i]), i + 1);
    hide EvalAt;
    Outward(args, i, Operand(args[i]), i + 1, k, re);
  }

  lemma {:induction false} ParenAt(args: seq<string>, i: nat, e: Expr, j: nat, k: nat, re: Regex)
    requires i < j < |args| && k <= 7 && args[i] == "(" && args[j] == ")" && Quiet(args, j + 1, k)
    requires EvalAt(args, i + 1, 0, re) == Expected(e, j, re)
    ensures EvalAt(args, i, k, re) == Expected(e, j + 1, re)
  {
    ParenEval(args, i, e, j, re);
    hide EvalAt;
    Outward(args, i, e, j + 1, k, re);
  }

  // A level further out changes nothing where nothing goes on.
  lemma {:induction false} Widen(args: seq<string>, i: nat, e: Expr, j: nat, k: nat, m: nat, re: Regex)
    requires i <= |args| && j <= |args| && m <= k <= 6 && Quiet(args, j, m) && EvalAt(args, i, k, re) == Expected(e, j, re)
    ensures EvalAt(args, i, m, re) == Expected(e, j, re)
    decreases k - m
  {
    hide EvalAt;
    if m < k {
      Widen(args, i, e, j, k, m + 1, re);
      OneLevel(args, i, e, j, m, re);
      LoopStops(args, e, j, m, re);
    }
  }

  // An operator of level k between operands already read, at every level up to k.
  lemma {:induction false} OperatorAt(args: seq<string>, i: nat, l: Expr, p: nat, r: Expr, j: nat, k: nat, m: nat, re: Regex)
    requires i < p < j <= |args| && m <= k <= 5 && args[p] in Ops(k) && Quiet(args, j, m)
    requires EvalAt(args, i, k + 1, re) == Expected(l, p, re) && EvalAt(args, p + 1, k + 1, re) == Expected(r, j, re)
    ensures EvalAt(args, i, m, re) == Expected(Bin(k, args[p], l, r), j, re)
  {
    hide EvalAt, Ops;
    var e := Bin(k, args[p], l, r);
    OneLevel(args, i, l, p, k, re);
    OneOperator(args, e, p, j, re);
    LoopStops(args, e, j, k, re);
    Widen(args, i, e, j, k, m, re);
  }

  lemma {:induction false} RunsTo(args: seq<string>, e: Expr, re: Regex)
    requires EvalAt(args, 0, 0, re) == Expected(e, |args|, re)
    ensures Run(args, re) == Val(e, re)
  {
    hide EvalAt, Val;
  }

  lemma {:induction false} OneOp(a: string, p: string, b: string, re: Regex)
    requires Plain(a) && Plain(b) && Rank(p) > 0
    ensures Run([a, p, b], re) == Val(Bin(Rank(p) - 1, p, Operand(a), Operand(b)), re)
  {
    hide EvalAt, Ops, Val, Rank, Plain;
    var args, k := [a, p, b], Rank(p) - 1;
    RankLevel(p);
    QuietAfterOp(args, 1, k);
    OperandAt(args, 0, k + 1, re);
    OperandAt(args, 2, k + 1, re);
    OperatorAt(args, 0, Operand(a), 1, Operand(b), 3, k, 0, re);
    RunsTo(args, Bin(k, p, Operand(a), Operand(b)), re);
  }

  lemma {:induction false} RightTree(a: string, p: string, b: string, q: string, c: string, re: Regex)
    requires Plain(a) && Plain(b) && Plain(c) && 0 < Rank(p) < Rank(q)
    ensures Run([a, p, b, q, c], re) == Val(Bin(Rank(p) - 1, p, Operand(a), Bin(Rank(q) - 1, q, Operand(b), Operand(c))), re)
  {
    hide EvalAt, Ops, Val, Rank, Plain;
    var args, k, m := [a, p, b, q, c], Rank(p) - 1, Rank(q) - 1;
    var inner := Bin(m, q, Operand(b), Operand(c));
    RankLevel(p);
    RankLevel(q);
    QuietAfterOp(args, 1, k);
    QuietAfterOp(args, 3, m);
    OperandAt(args, 0, k + 1, re);
    OperandAt(args, 2, m + 1, re);
    OperandAt(args, 4, m + 1, re);
    OperatorAt(args, 2, Operand(b), 3, Operand(c), 5, m, k + 1, re);
    OperatorAt(args, 0, Operand(a), 1, inner, 5, k, 0, re);
    RunsTo(args, Bin(k, p, Operand(a), inner), re);
  }

  lemma {:induction false} LeftTree(a: string, p: string, b: string, q: string, c: string, re: Regex)
    requires Plain(a) && Plain(b) && Plain(c) && 0 < Rank(q) <= Rank(p)
    ensures Run([a, p, b, q, c], re) == Val(Bin(Rank(q) - 1, q, Bin(Rank(p) - 1, p, Operand(a), Operand(b)), Operand(c)), re)
  {
    hide EvalAt, Ops, Val, Rank, Plain;
    var args, k, m := [a, p, b, q, c], Rank(q) - 1, Rank(p) - 1;
    var inner := Bin(m, p, Operand(a), Operand(b));
    var e := Bin(k, q, inner, Operand(c));
    RankLevel(p);
    RankLevel(q);
    QuietAfterOp(args, 1, m);
    QuietAfterOp(args, 3, k);
    OperandAt(args, 0, m + 1, re);
    QuietFrom(args, 3, k + 1, m + 1);
    OperandAt(args, 2, m + 1, re);
    OperandAt(args, 4, k + 1, re);
    if k < m {
      OperatorAt(args, 0, Operand(a), 1, Operand(b), 3, m, k + 1, re);
      OperatorAt(args, 0, inner, 3, Operand(c), 5, k, 0, re);
    } else {
      OneLevel(args, 0, Operand(a), 1, k, re);
      OneOperator(args, inner, 1, 3, re);
      OneOperator(args, e, 3, 5, re);
      LoopStops(args, e, 5, k, re);
      Widen(args, 0, e, 5, k, 0, re);
    }
    RunsTo(args, e, re);
  }

  lemma {:induction false} QuietFrom(args: seq<string>, j: nat, m: nat, n: nat)
    requires Quiet(args, j, m) && m <= n
    ensures Quiet(args, j, n)
  {
  }

  lemma {:induction false} QuietParen(args: seq<string>, j: nat, m: nat)
    requires j < |args| && args[j] == ")"
    ensures Quiet(args, j, m)
  {
  }

  lemma {:induction false} QuietEnd(args: seq<string>, m: nat)
    ensures Quiet(args, |args|, m)
  {
  }

  lemma {:induction false} RightParens(a: string, p: string, b: string, q: string, c: string, re: Regex)
    requires Plain(a) && Plain(b) && Plain(c) && Rank(p) > 0 && Rank(q) > 0
    ensures Run([a, p, "(", b, q, c, ")"], re) == Val(Bin(Rank(p) - 1, p, Operand(a), Bin(Rank(q) - 1, q, Operand(b), Operand(c))), re)
  {
    hide EvalAt, Val, Plain, Ops, Rank, Quiet;
    var args, k, m := [a, p, "(", b, q, c, ")"], Rank(p) - 1, Rank(q) - 1;
    var inner := Bin(m, q, Operand(b), Operand(c));
    RankLevel(p);
    RankLevel(q);
    QuietParen(args, 6, 0);
    QuietParen(args, 6, m + 1);
    QuietEnd(args, 0);
    QuietEnd(args, k + 1);
    QuietAfterOp(args, 1, k);
    QuietAfterOp(args, 4, m);
    OperandAt(args, 0, k + 1, re);
    OperandAt(args, 3, m + 1, re);
    OperandAt(args, 5, m + 1, re);
    OperatorAt(args, 3, Operand(b), 4, Operand(c), 6, m, 0, re);
    ParenAt(args, 2, inner, 6, k + 1, re);
    OperatorAt(args, 0, Operand(a), 1, inner, 7, k, 0, re);
    RunsTo(args, Bin(k, p, Operand(a), inner), re);
  }

  lemma {:induction false} LeftParens(a: string, p: string, b: string, q: string, c: string, re: Regex)
    requires Plain(a) && Plain(b) && Plain(c) && Rank(p) > 0 && Rank(q) > 0
    ensures Run(["(", a, p, b, ")", q, c], re) == Val(Bin(Rank(q) - 1, q, Bin(Rank(p) - 1, p, Operand(a), Operand(b)), Operand(c)), re)
  {
    hide EvalAt, Val, Plain, Ops, Rank, Quiet;
    var args, k, m := ["(", a, p, b, ")", q, c], Rank(q) - 1, Rank(p) - 1;
    var inner := Bin(m, p, Operand(a), Operand(b));
    RankLevel(p);
    RankLevel(q);
    QuietParen(args, 4, 0);
    QuietParen(args, 4, m + 1);
    QuietEnd(args, 0);
    QuietEnd(args, k + 1);
    QuietAfterOp(args, 2, m);
    QuietAfterOp(args, 5, k);
    OperandAt(args, 1, m + 1, re);
    OperandAt(args, 3, m + 1, re);
    OperandAt(args, 6, k + 1, re);
    OperatorAt(args, 1, Operand(a), 2, Operand(b), 4, m, 0, re);
    ParenAt(args, 0, inner, 4, k + 1, re);
    OperatorAt(args, 0, inner, 5, Operand(c), 7, k, 0, re);
    RunsTo(args, Bin(k, q, inner, Operand(c)), re);
  }

  // The operator that binds tighter goes first; of two that bind equally, the left one.
  lemma {:induction false} Precedence(a: string, p: string, b: string, q: string, c: string, re: Regex)
    requires Plain(a) && Plain(b) && Plain(c) && Rank(p) > 0 && Rank(q) > 0
    ensures Run([a, p, b, q, c], re) ==
            if Rank(q) > Rank(p) then Run([a, p, "(", b, q, c, ")"], re) else Run(["(", a, p, b, ")", q, c], re)
  {
    hide Run, Rank, Plain, Val;
    if Rank(q) > Rank(p) {
      RightTree(a, p, b, q, c, re);
      RightParens(a, p, b, q, c, re);
    } else {
      LeftTree(a, p, b, q, c, re);
      LeftParens(a, p, b, q, c, re);
    }
  }

  // ---- numbers ----

  lemma {:induction false} ShownPlain(i: int)
    ensures Plain(Show(i)) && ToArith(Str(Show(i))) == Some(i)
  {
    ShowReads(i);
    hide ToArith;
    ShowNatReads(if i < 0 then -i else i);
    hide ShowNat;
    var t := Show(i);
    assert t[0] == '-' || IsDigit(t[0]) by { if i >= 0 { assert t[0] in ShowNat(i); } }
  }

  lemma {:induction false} SumDifferenceProduct(a: int, b: int, re: Regex)
    ensures Run([Show(a), "+", Show(b)], re) == Some(Int(a + b))
    ensures Run([Show(a), "-", Show(b)], re) == Some(Int(a - b))
    ensures Run([Show(a), "*", Show(b)], re) == Some(Int(a * b))
  {
    hide Show, ToArith, Run;
    ShownPlain(a);
    ShownPlain(b);
    OneOp(Show(a), "+", Show(b), re);
    OneOp(Show(a), "-", Show(b), re);
    OneOp(Show(a), "*", Show(b), re);
  }

  // / truncates toward zero, and % has the sign of the dividend; dividing by zero is an error.
  lemma {:induction false} Quotient(a: int, b: int, re: Regex) returns (q: int, r: int)
    requires b != 0
    ensures Run([Show(a), "/", Show(b)], re) == Some(Int(q)) && Run([Show(a), "%", Show(b)], re) == Some(Int(r))
    ensures a == q * b + r && (if b > 0 then -b < r < b else b < r < -b) && (a >= 0 ==> r >= 0) && (a <= 0 ==> r <= 0)
  {
    hide Show, ToArith, Run;
    ShownPlain(a);
    ShownPlain(b);
    OneOp(Show(a), "/", Show(b), re);
    OneOp(Show(a), "%", Show(b), re);
    q, r := Div(a, b), Mod(a, b);
    Truncates(a, b);
  }

  lemma {:induction false} Truncates(a: int, b: int)
    requires b != 0
    ensures var q, r := Div(a, b), Mod(a, b);
            && a == q * b + r && (if b > 0 then -b < r < b else b < r < -b) && (a >= 0 ==> r >= 0) && (a <= 0 ==> r <= 0)
  {
    var x: nat, y: nat := Abs(a), Abs(b);
    assert x == (x / y) * y + x % y;
  }

  lemma {:induction false} DivideByZero(a: int, re: Regex)
    ensures Run([Show(a), "/", Show(0)], re) == None && Run([Show(a), "%", Show(0)], re) == None
  {
    hide Show, ToArith, Run;
    ShownPlain(a);
    ShownPlain(0);
    OneOp(Show(a), "/", Show(0), re);
    OneOp(Show(a), "%", Show(0), re);
  }

  // Products before sums, and differences from the left.
  lemma {:induction false} SumOfProduct(a: int, b: int, c: int, re: Regex)
    ensures Run([Show(a), "+", Show(b), "*", Show(c)], re) == Some(Int(a + b * c))
    ensures Run([Show(a), "*", Show(b), "+", Show(c)], re) == Some(Int(a * b + c))
    ensures Run([Show(a), "-", Show(b), "-", Show(c)], re) == Some(Int(a - b - c))
    ensures Run([Show(a), "*", "(", Show(b), "+", Show(c), ")"], re) == Some(Int(a * (b + c)))
  {
    hide Show, ToArith, Run, Val;
    ShownPlain(a);
    ShownPlain(b);
    ShownPlain(c);
    RightTree(Show(a), "+", Show(b), "*", Show(c), re);
    LeftTree(Show(a), "*", Show(b), "+", Show(c), re);
    LeftTree(Show(a), "-", Show(b), "-", Show(c), re);
    RightParens(Show(a), "*", Show(b), "+", Show(c), re);
    var x, y, z := Operand(Show(a)), Operand(Show(b)), Operand(Show(c));
    Arithmetic(4, "*", y, z, Show(b), Show(c), b, c, re);
    Arithmetic(4, "*", x, y, Show(a), Show(b), a, b, re);
    Arithmetic(3, "-", x, y, Show(a), Show(b), a, b, re);
    Arithmetic(3, "+", y, z, Show(b), Show(c), b, c, re);
    Nested(3, "+", x, Bin(4, "*", y, z), a, b * c, re);
    Nested(3, "+", Bin(4, "*", x, y), z, a * b, c, re);
    Nested(3, "-", Bin(3, "-", x, y), z, a - b, c, re);
    Nested(4, "*", x, Bin(3, "+", y, z), a, b + c, re);
  }

  lemma {:induction false} Arithmetic(k: nat, op: string, x: Expr, y: Expr, s: string, t: string, a: int, b: int, re: Regex)
    requires x == Operand(s) && y == Operand(t) && ToArith(Str(s)) == Some(a) && ToArith(Str(t)) == Some(b)
    requires (k == 3 && op in ["+", "-"]) || (k == 4 && op == "*")
    ensures Val(Bin(k, op, x, y), re) == Some(Int(if op == "+" then a + b else if op == "-" then a - b else a * b))
    ensures Number(x, a, re) && Number(y, b, re)
  {
    hide ToArith;
    assert Val(x, re) == Some(Str(s)) && Val(y, re) == Some(Str(t));
    assert Val(Bin(k, op, x, y), re) == Combine(k, op, Str(s), Str(t), re);
  }

  // e has a value that is the number i.
  ghost predicate Number(e: Expr, i: int, re: Regex)
  {
    Val(e, re).Some? && ToArith(Val(e, re).value) == Some(i)
  }

  lemma {:induction false} Nested(k: nat, op: string, x: Expr, y: Expr, a: int, b: int, re: Regex)
    requires Number(x, a, re) || Val(x, re) == Some(Int(a))
    requires Number(y, b, re) || Val(y, re) == Some(Int(b))
    requires (k == 3 && op in ["+", "-"]) || (k == 4 && op == "*")
    ensures Val(Bin(k, op, x, y), re) == Some(Int(if op == "+" then a + b else if op == "-" then a - b else a * b))
  {
    IntArith();
    hide ToArith;
    assert Val(Bin(k, op, x, y), re) == Combine(k, op, Val(x, re).value, Val(y, re).value, re);
  }

  lemma {:induction false} IntArith()
    ensures forall i: int :: ToArith(Int(i)) == Some(i)
  {
  }

  function Truth(b: bool): Option<Value>
  {
    Some(Int(if b then 1 else 0))
  }

  // Comparisons of numbers are those of the integers,
  lemma {:induction false} NumbersCompare(a: int, b: int, re: Regex)
    ensures Run([Show(a), "<", Show(b)], re) == Truth(a < b) && Run([Show(a), "<=", Show(b)], re) == Truth(a <= b)
    ensures Run([Show(a), "=", Show(b)], re) == Truth(a == b) && Run([Show(a), "==", Show(b)], re) == Truth(a == b)
    ensures Run([Show(a), "!=", Show(b)], re) == Truth(a != b)
    ensures Run([Show(a), ">=", Show(b)], re) == Truth(a >= b) && Run([Show(a), ">", Show(b)], re) == Truth(a > b)
  {
    hide Show, ToArith, Run;
    ShownPlain(a);
    ShownPlain(b);
    OneOp(Show(a), "<", Show(b), re);
    OneOp(Show(a), "<=", Show(b), re);
    OneOp(Show(a), "=", Show(b), re);
    OneOp(Show(a), "==", Show(b), re);
    OneOp(Show(a), "!=", Show(b), re);
    OneOp(Show(a), ">=", Show(b), re);
    OneOp(Show(a), ">", Show(b), re);
  }

  // A string that is no number, or a number as expr prints it.
  ghost predicate Own(s: string)
  {
    ReadInt(s) == None || exists i: int :: s == Show(i)
  }

  // those of other strings go by the first character that differs,
  lemma {:induction false} StringsCompare(x: string, c: char, u: string, d: char, v: string, re: Regex)
    requires c < d && Plain(x + [c] + u) && Plain(x + [d] + v) && Own(x + [c] + u) && Own(x + [d] + v)
    requires ReadInt(x + [c] + u) == None || ReadInt(x + [d] + v) == None
    ensures Run([x + [c] + u, "<", x + [d] + v], re) == Run([x + [d] + v, ">", x + [c] + u], re) == Truth(true)
    ensures Run([x + [d] + v, "<", x + [c] + u], re) == Run([x + [d] + v, "=", x + [c] + u], re) == Truth(false)
  {
    var s, t := x + [c] + u, x + [d] + v;
    Differs(x, c, u, d, v);
    hide Run, Plain, Own, ReadInt;
    StringOp(s, "<", t, re);
    StringOp(t, ">", s, re);
    StringOp(t, "<", s, re);
    StringOp(t, "=", s, re);
  }

  // and a string comes before its continuations.
  lemma {:induction false} PrefixCompares(x: string, c: char, u: string, re: Regex)
    requires Plain(x) && Plain(x + [c] + u) && Own(x) && Own(x + [c] + u)
    requires ReadInt(x) == None || ReadInt(x + [c] + u) == None
    ensures Run([x, "<", x + [c] + u], re) == Run([x, "!=", x + [c] + u], re) == Truth(true)
    ensures ReadInt(x) == None ==> Run([x, "=", x], re) == Truth(true)
  {
    var t := x + [c] + u;
    Continues(x, c, u);
    hide Run, Plain, Own, ReadInt;
    StringOp(x, "<", t, re);
    StringOp(x, "!=", t, re);
    if ReadInt(x) == None { StringOp(x, "=", x, re); }
  }

  lemma {:induction false} Differs(x: string, c: char, u: string, d: char, v: string)
    requires c < d
    ensures Strcmp(x + [c] + u, x + [d] + v) < 0 && Strcmp(x + [d] + v, x + [c] + u) > 0
  {
    if x != "" {
      Differs(x[1..], c, u, d, v);
      assert (x + [c] + u)[1..] == x[1..] + [c] + u && (x + [d] + v)[1..] == x[1..] + [d] + v;
    }
  }

  lemma {:induction false} Continues(x: string, c: char, u: string)
    ensures Strcmp(x, x + [c] + u) < 0 && Strcmp(x, x) == 0
  {
    if x != "" {
      Continues(x[1..], c, u);
      assert (x + [c] + u)[1..] == x[1..] + [c] + u;
    }
  }

  // A string of its own keeps its spelling through the coercion.
  lemma {:induction false} OwnKept(s: string)
    requires Own(s)
    ensures ToString(Coerced(Str(s))) == s && (Coerced(Str(s)).Int? <==> ReadInt(s) != None)
  {
    if ReadInt(s) != None {
      var i: int :| s == Show(i);
      ShownPlain(i);
    }
  }

  lemma {:induction false} StringOp(s: string, op: string, t: string, re: Regex)
    requires Plain(s) && Plain(t) && Own(s) && Own(t) && (ReadInt(s) == None || ReadInt(t) == None) && Rank(op) == 3
    ensures Run([s, op, t], re) == Truth(var c := Strcmp(s, t); if op == "<" then c < 0 else if op == "<=" then c <= 0
              else if op == "=" || op == "==" then c == 0 else if op == "!=" then c != 0 else if op == ">" then c > 0 else c >= 0)
  {
    OwnKept(s);
    OwnKept(t);
    OneOp(s, op, t, re);
    hide Run, ToArith, Strcmp, Own, ReadInt, Coerced, Plain;
  }

  // ---- what counts as a number ----

  // The value of decimal digits.
  function Decimal(d: string): int
  {
    if d == "" then 0 else 10 * Decimal(d[..|d| - 1]) + (d[|d| - 1] as int - 48)
  }

  ghost predicate Blanks(w: string)
  {
    forall c | c in w :: c == ' ' || c == '\t' || c == '\n' || c == '\r' || c as int == 11 || c as int == 12
  }

  // Blanks, a sign and decimal digits are a number.
  lemma {:induction false} Numbers(w: string, sign: string, d: string)
    requires Blanks(w) && sign in ["", "+", "-"] && d != "" && forall c | c in d :: '0' <= c <= '9'
    ensures ToArith(Str(w + sign + d)) == Some(if sign == "-" then -Decimal(d) else Decimal(d))
  {
    hide ReadNat, SkipBlanks, Decimal;
    DigitsRead(d);
    assert d[0] in d;
    BlanksSkipped(w, sign + d);
    assert w + sign + d == w + (sign + d);
    Signed(w + sign + d, sign, d);
  }

  lemma {:induction false} Signed(s: string, sign: string, d: string)
    requires SkipBlanks(s) == sign + d && sign in ["", "+", "-"] && d != "" && '0' <= d[0] <= '9' && ReadNat(d) == Some(Decimal(d))
    ensures ReadInt(s) == Some(if sign == "-" then -Decimal(d) else Decimal(d))
  {
    hide ReadNat, SkipBlanks, Decimal;
    if sign == "" { assert sign + d == d; } else { assert (sign + d)[1..] == d; }
  }

  lemma {:induction false} DigitsRead(d: string)
    requires d != "" && forall c | c in d :: '0' <= c <= '9'
    ensures ReadNat(d) == Some(Decimal(d))
  {
    assert d[|d| - 1] in d;
    var e := d[..|d| - 1];
    assert forall c | c in e :: c in d;
    if |d| > 1 { DigitsRead(e); } else { assert d[..0] == ""; }
  }

  lemma {:induction false} BlanksSkipped(w: string, t: string)
    requires Blanks(w) && t != "" && (t[0] == '+' || t[0] == '-' || '0' <= t[0] <= '9')
    ensures SkipBlanks(w + t) == t
  {
    if w == "" {
      assert w + t == t;
    } else {
      assert w[0] in w && forall c | c in w[1..] :: c in w;
      BlanksSkipped(w[1..], t);
      assert (w + t)[1..] == w[1..] + t;
    }
  }

  // Nothing with another character, and nothing without a digit, is one.
  lemma {:induction false} NoNumbers(s: string)
    requires (forall c | c in s :: !('0' <= c <= '9'))
             || exists c :: c in s && c != '+' && c != '-' && !('0' <= c <= '9') && !Blanks([c])
    ensures ToArith(Str(s)) == None
  {
    SkipKeeps(s);
    var t := SkipBlanks(s);
    var u := if t != "" && (t[0] == '-' || t[0] == '+') then t[1..] else t;
    assert forall c | c in u :: c in t;
    assert forall c | c in t && c != '+' && c != '-' :: c in u;
    if ReadNat(u) != None { ReadDigits(u); OneDigit(u, s); }
  }

  lemma {:induction false} OneDigit(u: string, s: string)
    requires u != "" && forall c | c in u :: '0' <= c <= '9' && c in s
    ensures exists c :: c in s && '0' <= c <= '9'
  {
    assert u[0] in u;
  }

  lemma {:induction false} ReadDigits(u: string)
    requires ReadNat(u) != None
    ensures u != "" && forall c | c in u :: '0' <= c <= '9'
  {
    if |u| > 1 { ReadDigits(u[..|u| - 1]); }
    assert u == u[..|u| - 1] + [u[|u| - 1]];
  }

  // Only blanks are skipped.
  lemma {:induction false} SkipKeeps(s: string)
    ensures forall c | c in SkipBlanks(s) :: c in s
    ensures forall c | c in s && !Blanks([c]) :: c in SkipBlanks(s)
  {
    if s != "" && IsBlank(s[0]) {
      SkipKeeps(s[1..]);
      assert forall c | c in [s[0]] :: c == s[0];
      assert s == [s[0]] + s[1..];
    }
  }

  // ---- logic, strings and the pattern operator ----

  // "" and numbers spelled "0" are false; | gives its first true operand, & its first if both are true, else 0.
  lemma {:induction false} Logic(a: string, b: string, re: Regex)
    requires Plain(a) && Plain(b)
    ensures Run([a, "|", b], re) == Some(Str(if a == "" || a == "0" then b else a))
    ensures Run([a, "&", b], re) == Some(if a == "" || a == "0" || b == "" || b == "0" then Int(0) else Str(a))
  {
    hide Run, Plain;
    OneOp(a, "|", b, re);
    OneOp(a, "&", b, re);
  }

  // The number 0 is false as well.
  lemma {:induction false} NumberLogic(a: int, b: int, c: string, re: Regex)
    requires Plain(c)
    ensures Run([Show(a), "-", Show(b), "|", c], re) == Some(if a == b then Str(c) else Int(a - b))
    ensures Run([Show(a), "-", Show(b), "&", c], re) == Some(if a == b || c == "" || c == "0" then Int(0) else Int(a - b))
  {
    hide Show, ToArith, Run, Val, Plain;
    ShownPlain(a);
    ShownPlain(b);
    LeftTree(Show(a), "-", Show(b), "|", c, re);
    LeftTree(Show(a), "-", Show(b), "&", c, re);
    Arithmetic(3, "-", Operand(Show(a)), Operand(Show(b)), Show(a), Show(b), a, b, re);
    LogicVal(Bin(3, "-", Operand(Show(a)), Operand(Show(b))), a - b, c, re);
  }

  lemma {:induction false} LogicVal(e: Expr, i: int, c: string, re: Regex)
    requires Val(e, re) == Some(Int(i))
    ensures Val(Bin(0, "|", e, Operand(c)), re) == Some(if i == 0 then Str(c) else Int(i))
    ensures Val(Bin(1, "&", e, Operand(c)), re) == Some(if i == 0 || c == "" || c == "0" then Int(0) else Int(i))
  {
  }

  lemma {:induction false} Pattern(a: string, b: string, re: Regex)
    requires Plain(a) && Plain(b)
    ensures Run([a, ":", b], re) == Run(["match", a, b], re) == re(a, b)
  {
    OneOp(a, ":", b, re);
    PlainLegal(a);
    PlainLegal(b);
    OperandPrints(a);
    OperandPrints(b);
    KeywordRun(Matched(Operand(a), Operand(b)), ["match", a, b], re);
    hide Run, Plain;
  }

  lemma {:induction false} Lengths(a: string, re: Regex)
    ensures Plain(a) ==> Run(["length", a], re) == Some(Int(|a|))
    ensures Run(["quote", a], re) == Some(Str(a))
  {
    if Plain(a) {
      PlainLegal(a);
      OperandPrints(a);
      KeywordRun(Length(Operand(a)), ["length", a], re);
    }
    KeywordRun(Quote(a), ["quote", a], re);
    hide Run, Plain;
  }

  lemma {:induction false} OperandPrints(a: string)
    ensures Print(Operand(a), 6) == [a]
  {
  }

  lemma {:induction false} KeywordRun(e: Expr, tokens: seq<string>, re: Regex)
    requires Legal(e) && tokens == Print(e, 0)
    ensures Run(tokens, re) == Val(e, re)
  {
    PrintThenEval(e, re);
  }

  // index: where the first of the characters of b stands in a, counted from 1; 0 if none does.
  lemma {:induction false} IndexMeans(a: string, b: string, re: Regex) returns (n: nat)
    requires Plain(a) && Plain(b)
    ensures Run(["index", a, b], re) == Some(Int(n)) && n <= |a|
    ensures if n == 0 then forall i | 0 <= i < |a| :: a[i] !in b
            else a[n - 1] in b && forall i | 0 <= i < n - 1 :: a[i] !in b
  {
    PlainLegal(a);
    PlainLegal(b);
    OperandPrints(a);
    OperandPrints(b);
    KeywordRun(Index(Operand(a), Operand(b)), ["index", a, b], re);
    hide Run, Plain;
    var k := FirstIn(a, b);
    FirstFound(a, b);
    n := if k == |a| then 0 else k + 1;
  }

  lemma {:induction false} FirstFound(s: string, b: string)
    ensures var n := FirstIn(s, b); (n < |s| ==> s[n] in b) && forall i | 0 <= i < n :: s[i] !in b
  {
    if s != "" && s[0] !in b {
      FirstFound(s[1..], b);
      var n := FirstIn(s, b);
      forall i | 0 <= i < n ensures s[i] !in b { if i > 0 { assert s[i] == s[1..][i - 1]; } }
    }
  }

  // substr: n characters from position i on, counted from 1, as far as there are any.
  lemma {:induction false} SubstrMeans(x: string, y: string, z: string, n: int, re: Regex)
    requires Plain(x + y + z) && y != "" && (n == |y| || (n > |y| && z == ""))
    ensures Run(["substr", x + y + z, Show(|x| + 1), Show(n)], re) == Some(Str(y))
  {
    hide Show, ToArith, Run, Plain;
    var s, i := x + y + z, |x| + 1;
    PlainLegal(s);
    ShownPlain(i);
    ShownPlain(n);
    PlainLegal(Show(i));
    PlainLegal(Show(n));
    OperandPrints(s);
    OperandPrints(Show(i));
    OperandPrints(Show(n));
    KeywordRun(Substr(Operand(s), Operand(Show(i)), Operand(Show(n))), ["substr", s, Show(i), Show(n)], re);
    assert s[|x|..|x| + |y|] == y;
    assert z == "" ==> s[|x|..] == y;
  }

  // With a position outside the string, or no length, there is nothing.
  lemma {:induction false} SubstrNothing(s: string, i: int, n: int, re: Regex)
    requires Plain(s) && (i <= 0 || i > |s| || n <= 0)
    ensures Run(["substr", s, Show(i), Show(n)], re) == Some(Str(""))
  {
    hide Show, ToArith, Run, Plain;
    PlainLegal(s);
    ShownPlain(i);
    ShownPlain(n);
    PlainLegal(Show(i));
    PlainLegal(Show(n));
    OperandPrints(s);
    OperandPrints(Show(i));
    OperandPrints(Show(n));
    KeywordRun(Substr(Operand(s), Operand(Show(i)), Operand(Show(n))), ["substr", s, Show(i), Show(n)], re);
  }
}
