// The evaluator of expr.c: eval to eval7, which parse and evaluate in one pass over the arguments.
module ExprEval {
  import opened Lz77
  import opened ExprSpec

  // Gives up, or a value and the position after the tokens used.
  datatype Res = Fail | Done(v: Value, pos: nat)

  predicate Is(args: seq<string>, pos: nat, s: string)
  {
    pos < |args| && args[pos] == s
  }

  // ---- the evaluator as a function of the arguments ----

  // Level k from position pos: the binary operators for k <= 5, keywords for 6, operands and parentheses for 7.
  function EvalAt(args: seq<string>, pos: nat, k: nat, re: Regex): (r: Res)
    requires pos <= |args| && k <= 7
    ensures r.Done? ==> pos < r.pos <= |args|
    decreases |args| - pos, 8 - k
  {
    if k <= 5 then
      match EvalAt(args, pos, k + 1, re)
      case Fail => Fail
      case Done(l, p) => LoopAt(args, p, k, l, re)
    else if k == 6 then KeywordAt(args, pos, re)
    else if pos == |args| then Fail
    else if args[pos] == "(" then
      match EvalAt(args, pos + 1, 0, re)
      case Fail => Fail
      case Done(v, p) => if Is(args, p, ")") then Done(v, p + 1) else Fail
    else if args[pos] == ")" then Fail
    else Done(Str(args[pos]), pos + 1)
  }

  // The loop of level k, with l on its left.
  function LoopAt(args: seq<string>, pos: nat, k: nat, l: Value, re: Regex): (r: Res)
    requires pos <= |args| && k <= 5
    ensures r.Done? ==> pos <= r.pos <= |args|
    decreases |args| - pos, 9
  {
    if pos < |args| && args[pos] in Ops(k) then
      match EvalAt(args, pos + 1, k + 1, re)
      case Fail => Fail
      case Done(r, p) =>
        match Combine(k, args[pos], l, r, re)
        case None => Fail
        case Some(v) => LoopAt(args, p, k, v, re)
    else Done(l, pos)
  }

  function KeywordAt(args: seq<string>, pos: nat, re: Regex): (r: Res)
    requires pos <= |args|
    ensures r.Done? ==> pos < r.pos <= |args|
    decreases |args| - pos, 2, 0
  {
    if pos == |args| || args[pos] !in KEYWORDS then EvalAt(args, pos, 7, re)
    else if args[pos] == "quote" then
      if pos + 1 == |args| then Fail else Done(Str(args[pos + 1]), pos + 2)
    else
      match EvalAt(args, pos + 1, 6, re)
      case Fail => Fail
      case Done(a, p) =>
        if args[pos] == "length" then Done(Int(|ToString(a)|), p) else RestAt(args, p, args[pos], a, re)
  }

  // match, index and substr after their first operand
  function RestAt(args: seq<string>, pos: nat, key: string, l: Value, re: Regex): (r: Res)
    requires pos <= |args|
    ensures r.Done? ==> pos < r.pos <= |args|
    decreases |args| - pos, 9
  {
    match EvalAt(args, pos, 6, re)
    case Fail => Fail
    case Done(b, q) =>
      if key == "match" then
        match re(ToString(l), ToString(b))
        case None => Fail
        case Some(v) => Done(v, q)
      else if key == "index" then Done(IndexOf(l, b), q)
      else
        match EvalAt(args, q, 6, re)
        case Fail => Fail
        case Done(c, z) => Done(SubStr(l, b, c), z)
  }

  // ---- the evaluator with its shared cursor ----

  class Evaluator {
    const args: seq<string>
    const re: Regex
    var pos: nat                  // G.args

    constructor (args: seq<string>, re: Regex)
      ensures this.args == args && this.re == re && pos == 0
    {
      this.args, this.re, pos := args, re, 0;
    }

    ghost predicate Valid()
      reads this
    {
      pos <= |args|
    }

    // v and the cursor are what r says.
    ghost predicate Got(r: Res, v: Option<Value>)
      reads this
    {
      match r
      case Fail => v == None
      case Done(x, p) => v == Some(x) && pos == p
    }

    // nextarg
    predicate NextArg(s: string)
      reads this
    {
      pos < |args| && args[pos] == s
    }

    // The operator of level k that comes next, or ""
    method NextOp(k: nat) returns (op: string)
      requires k <= 5
      ensures if pos < |args| && args[pos] in Ops(k) then op == args[pos] && op != "" else op == ""
    {
      op := "";
      for i := 0 to |Ops(k)|
        invariant forall j | 0 <= j < i :: !NextArg(Ops(k)[j])
      {
        if NextArg(Ops(k)[i]) {
          return Ops(k)[i];
        }
      }
    }

    method Eval7() returns (v: Option<Value>)
      requires Valid()
      modifies this`pos
      ensures Valid() && Got(EvalAt(args, old(pos), 7, re), v)
      decreases |args| - pos, 1
    {
      if pos == |args| {
        return None;
      }
      if NextArg("(") {
        pos := pos + 1;
        v := Eval();
        if v == None || !NextArg(")") {
          return None;
        }
        pos := pos + 1;
        return;
      }
      if NextArg(")") {
        return None;
      }
      v := Some(Str(args[pos]));
      pos := pos + 1;
    }

    method Eval6() returns (v: Option<Value>)
      requires Valid()
      modifies this`pos
      ensures Valid() && Got(EvalAt(args, old(pos), 6, re), v)
      decreases |args| - pos, 2
    {
      assert EvalAt(args, pos, 6, re) == KeywordAt(args, pos, re);
      if pos == |args| || args[pos] !in KEYWORDS {
        assert KeywordAt(args, pos, re) == EvalAt(args, pos, 7, re);
        v := Eval7();
        return;
      }
      var key := args[pos];
      pos := pos + 1;
      if key == "quote" {
        if pos == |args| {
          return None;
        }
        v := Some(Str(args[pos]));
        pos := pos + 1;
        return;
      }
      var l := Eval6();
      if l == None {
        return None;
      }
      if key == "length" {
        return Some(Int(|ToString(l.value)|));
      }
      v := Eval6Rest(key, l.value);
    }

    // match, index and substr after their first operand
    method Eval6Rest(key: string, l: Value) returns (v: Option<Value>)
      requires Valid()
      modifies this`pos
      ensures Valid() && Got(RestAt(args, old(pos), key, l, re), v)
      decreases |args| - pos, 3
    {
      var r := Eval6();
      if r == None {
        return None;
      }
      if key == "match" {
        v := re(ToString(l), ToString(r.value));
      } else if key == "index" {
        v := Some(IndexOf(l, r.value));
      } else {
        var i2 := Eval6();
        if i2 == None {
          return None;
        }
        v := Some(SubStr(l, r.value, i2.value));
      }
    }

    method Eval5() returns (l: Option<Value>)
      requires Valid()
      modifies this`pos
      ensures Valid() && Got(EvalAt(args, old(pos), 5, re), l)
      decreases |args| - pos, 3
    {
      l := Eval6();
      if l == None {
        return;
      }
      while NextArg(":")
        invariant Valid() && pos > old(pos) && l.Some? && EvalAt(args, old(pos), 5, re) == LoopAt(args, pos, 5, l.value, re)
        decreases |args| - pos
      {
        pos := pos + 1;
        var r := Eval6();
        if r == None {
          return None;
        }
        l := re(ToString(l.value), ToString(r.value));
        if l == None {
          return;
        }
      }
    }

    method Eval4() returns (l: Option<Value>)
      requires Valid()
      modifies this`pos
      ensures Valid() && Got(EvalAt(args, old(pos), 4, re), l)
      decreases |args| - pos, 4
    {
      hide Arith, Compare, Ops, KeywordAt;
      l := Eval5();
      if l == None {
        return;
      }
      while true
        invariant Valid() && pos > old(pos) && l.Some? && EvalAt(args, old(pos), 4, re) == LoopAt(args, pos, 4, l.value, re)
        decreases |args| - pos
      {
        var op := NextOp(4);
        if op == "" {
          return;
        }
        pos := pos + 1;
        var r := Eval5();
        if r == None {
          return None;
        }
        l := Arith(l.value, r.value, op);
        if l == None {
          return;
        }
      }
    }

    method Eval3() returns (l: Option<Value>)
      requires Valid()
      modifies this`pos
      ensures Valid() && Got(EvalAt(args, old(pos), 3, re), l)
      decreases |args| - pos, 5
    {
      hide Arith, Compare, Ops, KeywordAt;
      l := Eval4();
      if l == None {
        return;
      }
      while true
        invariant Valid() && pos > old(pos) && l.Some? && EvalAt(args, old(pos), 3, re) == LoopAt(args, pos, 3, l.value, re)
        decreases |args| - pos
      {
        var op := NextOp(3);
        if op == "" {
          return;
        }
        pos := pos + 1;
        var r := Eval4();
        if r == None {
          return None;
        }
        l := Arith(l.value, r.value, op);
        if l == None {
          return;
        }
      }
    }

    method Eval2() returns (l: Option<Value>)
      requires Valid()
      modifies this`pos
      ensures Valid() && Got(EvalAt(args, old(pos), 2, re), l)
      decreases |args| - pos, 6
    {
      hide Arith, Compare, Ops, KeywordAt;
      l := Eval3();
      if l == None {
        return;
      }
      while true
        invariant Valid() && pos > old(pos) && l.Some? && EvalAt(args, old(pos), 2, re) == LoopAt(args, pos, 2, l.value, re)
        decreases |args| - pos
      {
        var op := NextOp(2);
        if op == "" {
          return;
        }
        pos := pos + 1;
        var r := Eval3();
        if r == None {
          return None;
        }
        var yes := Compare(Coerced(l.value), Coerced(r.value), op);
        l := Some(Int(if yes then 1 else 0));
      }
    }

    method Eval1() returns (l: Option<Value>)
      requires Valid()
      modifies this`pos
      ensures Valid() && Got(EvalAt(args, old(pos), 1, re), l)
      decreases |args| - pos, 7
    {
      l := Eval2();
      if l == None {
        return;
      }
      while NextArg("&")
        invariant Valid() && pos > old(pos) && l.Some? && EvalAt(args, old(pos), 1, re) == LoopAt(args, pos, 1, l.value, re)
        decreases |args| - pos
      {
        pos := pos + 1;
        var r := Eval2();
        if r == None {
          return None;
        }
        if Null(l.value) || Null(r.value) {
          l := Some(Int(0));
        }
      }
    }

    method Eval() returns (l: Option<Value>)
      requires Valid()
      modifies this`pos
      ensures Valid() && Got(EvalAt(args, old(pos), 0, re), l)
      decreases |args| - pos, 8
    {
      l := Eval1();
      if l == None {
        return;
      }
      while NextArg("|")
        invariant Valid() && pos > old(pos) && l.Some? && EvalAt(args, old(pos), 0, re) == LoopAt(args, pos, 0, l.value, re)
        decreases |args| - pos
      {
        pos := pos + 1;
        var r := Eval1();
        if r == None {
          return None;
        }
        if Null(l.value) {
          l := r;
        }
      }
    }
  }

  // expr_main: all arguments must be used
  function Run(args: seq<string>, re: Regex): Option<Value>
  {
    match EvalAt(args, 0, 0, re)
    case Fail => None
    case Done(v, p) => if p == |args| then Some(v) else None
  }

  method ExprMain(args: seq<string>, re: Regex) returns (v: Option<Value>)
    ensures v == Run(args, re)
  {
    var e := new Evaluator(args, re);
    v := e.Eval();
    if e.pos != |args| {
      v := None;
    }
  }
}
