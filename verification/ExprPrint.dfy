// Printing an expression tree and evaluating the tokens gives the value of the tree.
module ExprPrint {
  import opened Lz77
  import opened ExprSpec
  import opened ExprEval

  // tokens stand at position i of args
  ghost predicate Stands(args: seq<string>, i: nat, tokens: seq<string>)
  {
    i + |tokens| <= |args| && args[i..i + |tokens|] == tokens
  }

  lemma {:induction false} StandsSplit(args: seq<string>, i: nat, a: seq<string>, b: seq<string>)
    requires Stands(args, i, a + b)
    ensures Stands(args, i, a) && Stands(args, i + |a|, b)
  {
    var t := args[i..i + |a + b|];
    assert args[i..i + |a|] == t[..|a|] == a;
    assert args[i + |a|..i + |a| + |b|] == t[|a|..] == b;
  }

  lemma {:induction false} StandsOne(args: seq<string>, i: nat, s: string)
    requires Stands(args, i, [s])
    ensures i < |args| && args[i] == s
  {
    assert args[i] == args[i..i + 1][0];
  }

  // No operator of level k or higher follows at j.
  ghost predicate Quiet(args: seq<string>, j: nat, k: nat)
  {
    j <= |args| && (j < |args| ==> forall m | k <= m <= 5 :: args[j] !in Ops(m))
  }

  // Operators of different levels are different, and no operator is a parenthesis or a keyword.
  lemma {:induction false} OpsApart(k: nat, m: nat, s: string)
    requires s in Ops(k) && s in Ops(m)
    ensures k == m
  {
  }

  lemma {:induction false} QuietAfterOp(args: seq<string>, j: nat, k: nat)
    requires j < |args| && args[j] in Ops(k)
    ensures Quiet(args, j, k + 1)
  {
    forall m | k + 1 <= m <= 5 ensures args[j] !in Ops(m) {
      if args[j] in Ops(m) { OpsApart(k, m, args[j]); }
    }
  }

  // The result for e, with the cursor at j after it.
  ghost function Expected(e: Expr, j: nat, re: Regex): Res
  {
    match Val(e, re)
    case None => Fail
    case Some(v) => Done(v, j)
  }

  // The result for e, continued by the loop of level k.
  ghost function Continued(args: seq<string>, e: Expr, j: nat, k: nat, re: Regex): Res
    requires j <= |args| && k <= 5
  {
    match Val(e, re)
    case None => Fail
    case Some(v) => LoopAt(args, j, k, v, re)
  }

  lemma {:induction false} LoopStops(args: seq<string>, e: Expr, j: nat, k: nat, re: Regex)
    requires Quiet(args, j, k) && k <= 5
    ensures Continued(args, e, j, k, re) == Expected(e, j, re)
  {
  }

  // One level further out, when the operand of level k + 1 has been read.
  lemma {:induction false} OneLevel(args: seq<string>, i: nat, e: Expr, j: nat, k: nat, re: Regex)
    requires i <= |args| && j <= |args| && k <= 5 && EvalAt(args, i, k + 1, re) == Expected(e, j, re)
    ensures EvalAt(args, i, k, re) == Continued(args, e, j, k, re)
  {
  }

  // An operator applied to a left operand already read and a right operand still to be read.
  lemma {:induction false} OneOperator(args: seq<string>, e: Expr, p: nat, j: nat, re: Regex)
    requires e.Bin? && e.k <= 5 && e.op in Ops(e.k) && p < |args| && args[p] == e.op && j <= |args|
    requires EvalAt(args, p + 1, e.k + 1, re) == Expected(e.r, j, re)
    ensures Continued(args, e.l, p, e.k, re) == Continued(args, e, j, e.k, re)
  {
    hide Combine, Ops;
  }

  // Where the parts of a printed operator expression stand.
  lemma {:induction false} BinStands(args: seq<string>, i: nat, e: Expr)
    requires e.Bin? && Stands(args, i, Body(e))
    ensures var a, b := Print(e.l, e.k), Print(e.r, e.k + 1);
            && Stands(args, i, a) && i + |a| < |args| && args[i + |a|] == e.op && Stands(args, i + |a| + 1, b)
            && |Body(e)| == |a| + 1 + |b| && i + |Body(e)| <= |args|
  {
    var a, b := Print(e.l, e.k), Print(e.r, e.k + 1);
    assert Body(e) == a + ([e.op] + b);
    hide Print, Body;
    StandsSplit(args, i, a, [e.op] + b);
    StandsSplit(args, i + |a|, [e.op], b);
    StandsOne(args, i + |a|, e.op);
  }

  // The printed operator expression, read at its own level.
  lemma {:induction false} BinReads(args: seq<string>, i: nat, e: Expr, re: Regex)
    requires Legal(e) && e.Bin? && Stands(args, i, Body(e)) && Quiet(args, i + |Body(e)|, e.k + 1)
    ensures EvalAt(args, i, e.k, re) == Continued(args, e, i + |Body(e)|, e.k, re)
    decreases e, 0
  {
    hide EvalAt, Combine, Stands, Quiet, Continued, Expected, Body, Print, Ops;
    BinStands(args, i, e);
    var p := i + |Print(e.l, e.k)|;
    QuietAfterOp(args, p, e.k);
    LeftReads(args, i, e.l, e.k, p, re);
    PrintReads(args, p + 1, e.r, e.k + 1, re);
    OneOperator(args, e, p, i + |Body(e)|, re);
  }

  // The left operand of an operator of level k.
  lemma {:induction false} LeftReads(args: seq<string>, i: nat, l: Expr, k: nat, p: nat, re: Regex)
    requires Legal(l) && k <= 5 && Stands(args, i, Print(l, k)) && p == i + |Print(l, k)| && Quiet(args, p, k + 1)
    ensures EvalAt(args, i, k, re) == Continued(args, l, p, k, re)
    decreases l, 30
  {
    hide EvalAt;
    if Level(l) == k {
      BinReads(args, i, l, re);
    } else {
      assert Print(l, k) == Print(l, k + 1);
      PrintReads(args, i, l, k + 1, re);
      OneLevel(args, i, l, p, k, re);
    }
  }

  // A printed expression, with nothing after it that could go on at its level, evaluates to its value and is used up.
  lemma {:induction false} PrintReads(args: seq<string>, i: nat, e: Expr, k: nat, re: Regex)
    requires Legal(e) && k <= 7 && Stands(args, i, Print(e, k)) && Quiet(args, i + |Print(e, k)|, k)
    ensures EvalAt(args, i, k, re) == Expected(e, i + |Print(e, k)|, re)
    decreases e, if Level(e) < k then 28 - k else 18 - k
  {
    hide EvalAt, Body, Ops, Expected, Continued;
    var j := i + |Print(e, k)|;
    if k <= 5 && Level(e) == k {
      BinReads(args, i, e, re);
      LoopStops(args, e, j, k, re);
    } else if k <= 5 {
      assert Print(e, k) == Print(e, k + 1);
      PrintReads(args, i, e, k + 1, re);
      OneLevel(args, i, e, j, k, re);
      LoopStops(args, e, j, k, re);
    } else if k == 6 && Level(e) == 6 {
      KeywordReads(args, i, e, re);
    } else if k == 6 {
      assert Print(e, 6) == Print(e, 7);
      PrintReads(args, i, e, 7, re);
      NoKeyword(args, i, e, re);
    } else if Level(e) < 7 {
      ParenReads(args, i, e, re);
    } else {
      OperandReads(args, i, e, re);
    }
  }

  lemma {:induction false} OperandReads(args: seq<string>, i: nat, e: Expr, re: Regex)
    requires Legal(e) && e.Operand? && Stands(args, i, Print(e, 7))
    ensures EvalAt(args, i, 7, re) == Expected(e, i + |Print(e, 7)|, re)
  {
    assert Print(e, 7) == [e.s];
    StandsOne(args, i, e.s);
  }

  // Where no keyword stands, level 6 is level 7.
  lemma {:induction false} NoKeyword(args: seq<string>, i: nat, e: Expr, re: Regex)
    requires Legal(e) && Level(e) != 6 && Stands(args, i, Print(e, 7))
    ensures i <= |args| && EvalAt(args, i, 6, re) == EvalAt(args, i, 7, re)
  {
    hide Body;
    if Level(e) < 7 {
      StandsSplit(args, i, ["("], Body(e) + [")"]);
      assert ["("] + Body(e) + [")"] == ["("] + (Body(e) + [")"]);
      StandsOne(args, i, "(");
    } else {
      assert Body(e) == [e.s] by { OperandBody(e); }
      StandsOne(args, i, e.s);
    }
    assert args[i] !in KEYWORDS;
    assert EvalAt(args, i, 6, re) == KeywordAt(args, i, re);
    assert KeywordAt(args, i, re) == EvalAt(args, i, 7, re);
  }

  lemma {:induction false} OperandBody(e: Expr)
    requires Level(e) == 7
    ensures e.Bin? || (e.Operand? && Body(e) == [e.s])
  {
  }

  lemma {:induction false} ParenStands(args: seq<string>, i: nat, b: seq<string>)
    requires Stands(args, i, ["("] + b + [")"])
    ensures Stands(args, i + 1, b) && i + 1 + |b| < |args| && args[i] == "(" && args[i + 1 + |b|] == ")"
    ensures Quiet(args, i + 1 + |b|, 0)
  {
    assert ["("] + b + [")"] == ["("] + (b + [")"]);
    StandsSplit(args, i, ["("], b + [")"]);
    StandsSplit(args, i + 1, b, [")"]);
    StandsOne(args, i, "(");
    StandsOne(args, i + 1 + |b|, ")");
  }

  lemma {:induction false} ParenEval(args: seq<string>, i: nat, e: Expr, j: nat, re: Regex)
    requires i < j < |args| && args[i] == "(" && args[j] == ")" && EvalAt(args, i + 1, 0, re) == Expected(e, j, re)
    ensures EvalAt(args, i, 7, re) == Expected(e, j + 1, re)
  {
    hide Val;
  }

  // ( e )
  lemma {:induction false} ParenReads(args: seq<string>, i: nat, e: Expr, re: Regex)
    requires Legal(e) && Level(e) < 7 && Stands(args, i, Print(e, 7))
    ensures EvalAt(args, i, 7, re) == Expected(e, i + |Print(e, 7)|, re)
    decreases e, 20
  {
    hide EvalAt, Body, Expected, Quiet, Stands;
    ParenStands(args, i, Body(e));
    PrintReads(args, i + 1, e, 0, re);
    ParenEval(args, i, e, i + 1 + |Body(e)|, re);
  }

  // An operand of a keyword.
  lemma {:induction false} ArgumentReads(args: seq<string>, i: nat, a: Expr, rest: seq<string>, re: Regex)
    requires Legal(a) && Stands(args, i, Print(a, 6) + rest)
    ensures i <= |args| && EvalAt(args, i, 6, re) == Expected(a, i + |Print(a, 6)|, re) && Stands(args, i + |Print(a, 6)|, rest)
    decreases a, 40
  {
    hide EvalAt, Print, Expected;
    StandsSplit(args, i, Print(a, 6), rest);
    PrintReads(args, i, a, 6, re);
  }

  // The keyword at the head of e, and what follows it.
  lemma {:induction false} KeywordStands(args: seq<string>, i: nat, key: string, rest: seq<string>)
    requires Stands(args, i, [key] + rest)
    ensures i < |args| && args[i] == key && Stands(args, i + 1, rest)
  {
    StandsSplit(args, i, [key], rest);
    StandsOne(args, i, key);
  }

  lemma {:induction false} QuoteReads(args: seq<string>, i: nat, e: Expr, re: Regex)
    requires e.Quote? && Stands(args, i, Body(e))
    ensures EvalAt(args, i, 6, re) == Expected(e, i + |Body(e)|, re)
  {
    assert Body(e) == ["quote"] + [e.s];
    KeywordStands(args, i, "quote", [e.s]);
    StandsOne(args, i + 1, e.s);
    assert EvalAt(args, i, 6, re) == KeywordAt(args, i, re);
  }

  lemma {:induction false} LengthBody(e: Expr)
    requires e.Length?
    ensures Body(e) == ["length"] + (Print(e.e, 6) + [])
  {
    hide Print;
  }

  lemma {:induction false} PairBody(e: Expr)
    requires e.Matched? || e.Index?
    ensures Body(e) == [Pair(e).0] + (Print(Pair(e).1, 6) + (Print(Pair(e).2, 6) + []))
  {
    hide Print;
  }

  lemma {:induction false} SubstrBody(e: Expr)
    requires e.Substr?
    ensures Body(e) == ["substr"] + (Print(e.l, 6) + (Print(e.i1, 6) + (Print(e.i2, 6) + [])))
  {
    hide Print;
    var x, y, z := Print(e.l, 6), Print(e.i1, 6), Print(e.i2, 6);
    assert Body(e) == ["substr"] + x + y + z;
    hide Body;
    assert ["substr"] + x + y + z == ["substr"] + (x + (y + (z + [])));
  }

  lemma {:induction false} LengthEval(args: seq<string>, i: nat, e: Expr, j: nat, re: Regex)
    requires e.Length? && i < |args| && args[i] == "length" && EvalAt(args, i + 1, 6, re) == Expected(e.e, j, re)
    ensures EvalAt(args, i, 6, re) == Expected(e, j, re)
  {
    assert EvalAt(args, i, 6, re) == KeywordAt(args, i, re);
  }

  lemma {:induction false} LengthReads(args: seq<string>, i: nat, e: Expr, re: Regex)
    requires Legal(e) && e.Length? && Stands(args, i, Body(e))
    ensures EvalAt(args, i, 6, re) == Expected(e, i + |Body(e)|, re)
    decreases e, 5
  {
    hide EvalAt, Expected, Print, Body, Stands;
    var x := Print(e.e, 6);
    LengthBody(e);
    KeywordStands(args, i, "length", x + []);
    ArgumentReads(args, i + 1, e.e, [], re);
    LengthEval(args, i, e, i + 1 + |x|, re);
  }

  // The keyword and the operands of match and index.
  ghost function Pair(e: Expr): (r: (string, Expr, Expr))
    requires e.Matched? || e.Index?
  {
    match e
    case Matched(a, b) => ("match", a, b)
    case Index(a, b) => ("index", a, b)
  }

  // The second operand of match and index.
  lemma {:induction false} RestPair(args: seq<string>, p: nat, e: Expr, j: nat, x: Value, re: Regex)
    requires (e.Matched? || e.Index?) && p <= |args| && Val(Pair(e).1, re) == Some(x)
    requires EvalAt(args, p, 6, re) == Expected(Pair(e).2, j, re)
    ensures RestAt(args, p, Pair(e).0, x, re) == Expected(e, j, re)
  {
    hide EvalAt, IndexOf, ToString;
  }

  lemma {:induction false} PairEval(args: seq<string>, i: nat, e: Expr, p: nat, j: nat, re: Regex)
    requires (e.Matched? || e.Index?) && i < |args| && args[i] == Pair(e).0 && p <= |args|
    requires EvalAt(args, i + 1, 6, re) == Expected(Pair(e).1, p, re) && EvalAt(args, p, 6, re) == Expected(Pair(e).2, j, re)
    ensures EvalAt(args, i, 6, re) == Expected(e, j, re)
  {
    assert EvalAt(args, i, 6, re) == KeywordAt(args, i, re);
    hide EvalAt, RestAt, IndexOf, ToString;
    var x := Val(Pair(e).1, re);
    if x.Some? { RestPair(args, p, e, j, x.value, re); }
  }

  lemma {:induction false} PairReads(args: seq<string>, i: nat, e: Expr, re: Regex)
    requires Legal(e) && (e.Matched? || e.Index?) && Stands(args, i, Body(e))
    ensures EvalAt(args, i, 6, re) == Expected(e, i + |Body(e)|, re)
    decreases e, 5
  {
    hide EvalAt, Expected, Print, Body, Stands;
    var (key, a, b) := Pair(e);
    var x, y := Print(a, 6), Print(b, 6);
    PairBody(e);
    KeywordStands(args, i, key, x + (y + []));
    ArgumentReads(args, i + 1, a, y + [], re);
    ArgumentReads(args, i + 1 + |x|, b, [], re);
    PairEval(args, i, e, i + 1 + |x|, i + 1 + |x| + |y|, re);
  }

  // The second and third operand of substr.
  lemma {:induction false} RestSubstr(args: seq<string>, p: nat, e: Expr, q: nat, j: nat, x: Value, re: Regex)
    requires e.Substr? && p <= |args| && q <= |args| && Val(e.l, re) == Some(x)
    requires EvalAt(args, p, 6, re) == Expected(e.i1, q, re) && EvalAt(args, q, 6, re) == Expected(e.i2, j, re)
    ensures RestAt(args, p, "substr", x, re) == Expected(e, j, re)
  {
    hide EvalAt, SubStr;
  }

  lemma {:induction false} SubstrEval(args: seq<string>, i: nat, e: Expr, p: nat, q: nat, j: nat, re: Regex)
    requires e.Substr? && i < |args| && args[i] == "substr" && p <= |args| && q <= |args|
    requires EvalAt(args, i + 1, 6, re) == Expected(e.l, p, re) && EvalAt(args, p, 6, re) == Expected(e.i1, q, re)
    requires EvalAt(args, q, 6, re) == Expected(e.i2, j, re)
    ensures EvalAt(args, i, 6, re) == Expected(e, j, re)
  {
    assert EvalAt(args, i, 6, re) == KeywordAt(args, i, re);
    hide EvalAt, RestAt, SubStr, ToString;
    var x := Val(e.l, re);
    if x.Some? { RestSubstr(args, p, e, q, j, x.value, re); }
  }

  lemma {:induction false} SubstrReads(args: seq<string>, i: nat, e: Expr, re: Regex)
    requires Legal(e) && e.Substr? && Stands(args, i, Body(e))
    ensures EvalAt(args, i, 6, re) == Expected(e, i + |Body(e)|, re)
    decreases e, 5
  {
    hide EvalAt, Expected, Print, Body, Stands;
    var x, y, z := Print(e.l, 6), Print(e.i1, 6), Print(e.i2, 6);
    SubstrBody(e);
    KeywordStands(args, i, "substr", x + (y + (z + [])));
    ArgumentReads(args, i + 1, e.l, y + (z + []), re);
    ArgumentReads(args, i + 1 + |x|, e.i1, z + [], re);
    ArgumentReads(args, i + 1 + |x| + |y|, e.i2, [], re);
    SubstrEval(args, i, e, i + 1 + |x|, i + 1 + |x| + |y|, i + 1 + |x| + |y| + |z|, re);
  }

  // quote, length, match, index and substr
  lemma {:induction false} KeywordReads(args: seq<string>, i: nat, e: Expr, re: Regex)
    requires Legal(e) && Level(e) == 6 && Stands(args, i, Body(e))
    ensures EvalAt(args, i, 6, re) == Expected(e, i + |Body(e)|, re)
    decreases e, 6
  {
    hide EvalAt, Expected, Body, Stands;
    match e
    case Quote(_) => QuoteReads(args, i, e, re);
    case Length(_) => LengthReads(args, i, e, re);
    case Substr(_, _, _) => SubstrReads(args, i, e, re);
    case Matched(_, _) => PairReads(args, i, e, re);
    case Index(_, _) => PairReads(args, i, e, re);
    case Bin(_, _, _, _) =>
  }

  // For every legal tree, evaluating its printed tokens uses all of them and gives the value of the tree.
  lemma {:induction false} PrintThenEval(e: Expr, re: Regex)
    requires Legal(e)
    ensures Run(Print(e, 0), re) == Val(e, re)
  {
    hide EvalAt, Print, Val;
    var args := Print(e, 0);
    assert args[0..0 + |args|] == args;
    PrintReads(args, 0, e, 0, re);
  }
}
