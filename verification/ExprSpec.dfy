// Expressions of the expr command (expr.c): values, operators, trees and how they are printed.
module ExprSpec {
  import opened Lz77

  datatype Value = Int(i: int) | Str(s: string)

  // The : operator is left open: what it yields for a string and a pattern, None if the pattern is bad.
  type Regex = (string, string) -> Option<Value>

  predicate Null(v: Value)
  {
    match v
    case Int(i) => i == 0
    case Str(s) => s == "" || s == "0"
  }

  // ---- coercions ----

  function DigitChar(d: nat): char
    requires d < 10
  {
    "0123456789"[d]
  }

  function ShowNat(n: nat): (s: string)
    ensures s != ""
  {
    if n < 10 then [DigitChar(n)] else ShowNat(n / 10) + [DigitChar(n % 10)]
  }

  function Show(i: int): string
  {
    if i < 0 then "-" + ShowNat(-i) else ShowNat(i)
  }

  function ToString(v: Value): string
  {
    match v
    case Int(i) => Show(i)
    case Str(s) => s
  }

  predicate IsDigit(c: char)
  {
    '0' <= c <= '9'
  }

  function DigitVal(c: char): (d: nat)
    requires IsDigit(c)
    ensures d < 10
  {
    c as int - '0' as int
  }

  // All of s as a number.
  function ReadNat(s: string): Option<nat>
  {
    if s == "" then None
    else if !IsDigit(s[|s| - 1]) then None
    else
      var d := DigitVal(s[|s| - 1]);
      if |s| == 1 then Some(d)
      else
        match ReadNat(s[..|s| - 1])
        case None => None
        case Some(n) => Some(10 * n + d)
  }

  // isspace
  predicate IsBlank(c: char)
  {
    c == ' ' || 9 <= c as int <= 13
  }

  function SkipBlanks(s: string): string
  {
    if s != "" && IsBlank(s[0]) then SkipBlanks(s[1..]) else s
  }

  // strtol over the whole string: blanks, a sign, digits
  function ReadInt(s: string): Option<int>
  {
    var t := SkipBlanks(s);
    if t != "" && (t[0] == '-' || t[0] == '+') then
      match ReadNat(t[1..])
      case None => None
      case Some(n) => Some(if t[0] == '-' then 0 - n else n)
    else
      match ReadNat(t)
      case None => None
      case Some(n) => Some(n)
  }

  // toarith
  function ToArith(v: Value): Option<int>
  {
    match v
    case Int(i) => Some(i)
    case Str(s) => ReadInt(s)
  }

  lemma {:induction false} ShowNatReads(n: nat)
    ensures ReadNat(ShowNat(n)) == Some(n) && forall c | c in ShowNat(n) :: IsDigit(c)
  {
    if n >= 10 {
      ShowNatReads(n / 10);
      assert ShowNat(n)[..|ShowNat(n)| - 1] == ShowNat(n / 10);
    }
  }

  // Turning a number into a string and back.
  lemma {:induction false} ShowReads(i: int)
    ensures ToArith(Str(Show(i))) == Some(i)
  {
    hide ShowNat, ReadNat;
    if i < 0 {
      ShowNatReads(-i);
      var t := "-" + ShowNat(-i);
      assert t[0] == '-' && t[1..] == ShowNat(-i);
      NoBlank(t);
    } else {
      ShowNatReads(i);
      var t := ShowNat(i);
      assert t[0] in t;
      NoBlank(t);
    }
  }

  lemma {:induction false} NoBlank(t: string)
    requires t != "" && (t[0] == '-' || IsDigit(t[0]))
    ensures SkipBlanks(t) == t
  {
  }

  // ---- operators ----

  // strcmp
  function Strcmp(a: string, b: string): int
  {
    if a == "" && b == "" then 0
    else if a == "" then -1
    else if b == "" then 1
    else if a[0] < b[0] then -1
    else if a[0] > b[0] then 1
    else Strcmp(a[1..], b[1..])
  }

  // cmp_common: numbers as numbers, anything else as strings
  predicate Compare(l: Value, r: Value, op: string)
  {
    var ll := if l.Int? && r.Int? then l.i else Strcmp(ToString(l), ToString(r));
    var rr := if l.Int? && r.Int? then r.i else 0;
    if op == "<" then ll < rr
    else if op == "<=" then ll <= rr
    else if op == "=" || op == "==" then ll == rr
    else if op == "!=" then ll != rr
    else if op == ">" then ll > rr
    else ll >= rr
  }

  // toarith, where it succeeds
  function Coerced(v: Value): Value
  {
    match ToArith(v)
    case None => v
    case Some(i) => Int(i)
  }

  // C division: toward zero, the remainder with the sign of the dividend
  function Div(a: int, b: int): int
    requires b != 0
  {
    if (a >= 0) == (b > 0) then Abs(a) / Abs(b) else -(Abs(a) / Abs(b))
  }

  function Mod(a: int, b: int): int
    requires b != 0
  {
    if a >= 0 then a % Abs(b) else -((-a) % Abs(b))
  }

  function Abs(a: int): (r: nat)
    ensures r == 0 <==> a == 0
  {
    if a >= 0 then a else -a
  }

  // arithmetic_common; None where it gives up
  function Arith(l: Value, r: Value, op: string): Option<Value>
  {
    match (ToArith(l), ToArith(r))
    case (Some(a), Some(b)) =>
      if op == "+" then Some(Int(a + b))
      else if op == "-" then Some(Int(a - b))
      else if op == "*" then Some(Int(a * b))
      else if b == 0 then None
      else if op == "/" then Some(Int(Div(a, b)))
      else Some(Int(Mod(a, b)))
    case _ => None
  }

  // The operators of each level, from | to :
  function Ops(k: nat): seq<string>
  {
    if k == 0 then ["|"]
    else if k == 1 then ["&"]
    else if k == 2 then ["<", "<=", "=", "==", "!=", ">=", ">"]
    else if k == 3 then ["+", "-"]
    else if k == 4 then ["*", "/", "%"]
    else if k == 5 then [":"]
    else []
  }

  function Combine(k: nat, op: string, l: Value, r: Value, re: Regex): Option<Value>
  {
    if k == 0 then Some(if Null(l) then r else l)
    else if k == 1 then Some(if Null(l) || Null(r) then Int(0) else l)
    else if k == 2 then Some(Int(if Compare(Coerced(l), Coerced(r), op) then 1 else 0))
    else if k <= 4 then Arith(l, r, op)
    else re(ToString(l), ToString(r))
  }

  // strcspn
  function FirstIn(s: string, set': string): (n: nat)
    ensures n <= |s|
  {
    if s == "" || s[0] in set' then 0 else 1 + FirstIn(s[1..], set')
  }

  // index and substr
  function IndexOf(l: Value, r: Value): Value
  {
    var s := ToString(l);
    var n := FirstIn(s, ToString(r));
    Int(if n == |s| then 0 else n + 1)
  }

  function SubStr(l: Value, i1: Value, i2: Value): Value
  {
    var s := ToString(l);
    match (ToArith(i1), ToArith(i2))
    case (Some(a), Some(b)) =>
      if a > |s| || a <= 0 || b <= 0 then Str("")
      else Str(if a - 1 + b <= |s| then s[a - 1..a - 1 + b] else s[a - 1..])
    case _ => Str("")
  }

  // ---- trees ----

  datatype Expr =
    | Operand(s: string)
    | Quote(s: string)
    | Length(e: Expr)
    | Matched(l: Expr, r: Expr)
    | Index(l: Expr, r: Expr)
    | Substr(l: Expr, i1: Expr, i2: Expr)
    | Bin(k: nat, op: string, l: Expr, r: Expr)

  const KEYWORDS := ["quote", "length", "match", "index", "substr"]

  predicate Reserved(s: string)
  {
    s in KEYWORDS || s == "(" || s == ")"
  }

  // Operands are no reserved words, and every operator stands on its own level.
  ghost predicate Legal(e: Expr)
  {
    match e
    case Operand(s) => !Reserved(s)
    case Quote(_) => true
    case Length(a) => Legal(a)
    case Matched(a, b) => Legal(a) && Legal(b)
    case Index(a, b) => Legal(a) && Legal(b)
    case Substr(a, b, c) => Legal(a) && Legal(b) && Legal(c)
    case Bin(k, op, a, b) => k <= 5 && op in Ops(k) && Legal(a) && Legal(b)
  }

  // The value of a tree; None where the program gives up.
  function Val(e: Expr, re: Regex): Option<Value>
  {
    match e
    case Operand(s) => Some(Str(s))
    case Quote(s) => Some(Str(s))
    case Length(a) =>
      (match Val(a, re)
       case None => None
       case Some(x) => Some(Int(|ToString(x)|)))
    case Matched(a, b) =>
      (match (Val(a, re), Val(b, re))
       case (Some(x), Some(y)) => re(ToString(x), ToString(y))
       case _ => None)
    case Index(a, b) =>
      (match (Val(a, re), Val(b, re))
       case (Some(x), Some(y)) => Some(IndexOf(x, y))
       case _ => None)
    case Substr(a, b, c) =>
      (match (Val(a, re), Val(b, re), Val(c, re))
       case (Some(x), Some(y), Some(z)) => Some(SubStr(x, y, z))
       case _ => None)
    case Bin(k, op, a, b) =>
      (match (Val(a, re), Val(b, re))
       case (Some(x), Some(y)) => Combine(k, op, x, y, re)
       case _ => None)
  }

  // How tightly an expression binds.
  function Level(e: Expr): nat
  {
    match e
    case Operand(_) => 7
    case Bin(k, _, _, _) => k
    case _ => 6
  }

  // The tokens of e where level k is expected: in parentheses only if it binds less tightly. The operators
  // associate to the left.
  function Print(e: Expr, k: nat): seq<string>
    decreases e, 1
  {
    if Level(e) < k then ["("] + Body(e) + [")"] else Body(e)
  }

  function Body(e: Expr): seq<string>
    decreases e, 0
  {
    match e
    case Operand(s) => [s]
    case Quote(s) => ["quote", s]
    case Length(a) => ["length"] + Print(a, 6)
    case Matched(a, b) => ["match"] + Print(a, 6) + Print(b, 6)
    case Index(a, b) => ["index"] + Print(a, 6) + Print(b, 6)
    case Substr(a, b, c) => ["substr"] + Print(a, 6) + Print(b, 6) + Print(c, 6)
    case Bin(k, op, a, b) => Print(a, k) + [op] + Print(b, k + 1)
  }
}
