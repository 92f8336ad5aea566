// Debian version numbers: order, version_compare_part and version_compare of dpkg.c
// (section 5.6.12 of the Debian Policy).
module DpkgVersion {
  import opened Lz77

  type Text = seq<Byte>

  predicate IsDigit(c: Byte)
  {
    48 <= c <= 57
  }

  predicate IsAlpha(c: Byte)
  {
    65 <= c <= 90 || 97 <= c <= 122
  }

  const TILDE: Byte := 126

  // order; 0 stands for the end of the string
  function Order(c: Byte): int
  {
    if c == TILDE then -1 else if c == 0 then 0 else if IsDigit(c) then 0 else if IsAlpha(c) then c else c + 256
  }

  // The order of the first character.
  function Head(x: Text): int
  {
    if x == [] then 0 else Order(x[0])
  }

  function Tail(x: Text): (r: Text)
    ensures |r| <= |x| && (x != [] ==> |r| < |x|)
  {
    if x == [] then [] else x[1..]
  }

  function Sign(x: int): int
  {
    if x < 0 then -1 else if x > 0 then 1 else 0
  }

  // ---- the reference: non-digit parts and numbers in turn, padded with ("", 0) ----

  // Non-digit strings, in the order of their characters; the end comes after a tilde and before everything else.
  function CompareText(x: Text, y: Text): int
    decreases |x| + |y|
  {
    if x == [] && y == [] then 0
    else if Head(x) != Head(y) then Sign(Head(x) - Head(y))
    else CompareText(Tail(x), Tail(y))
  }

  function Digit(c: Byte): (d: nat)
    requires IsDigit(c)
    ensures d < 10
  {
    c as int - 48
  }

  function Value(digits: Text): nat
    requires forall c | c in digits :: IsDigit(c)
  {
    if digits == [] then 0
    else
      assert digits[|digits| - 1] in digits;
      10 * Value(digits[..|digits| - 1]) + Digit(digits[|digits| - 1])
  }

  datatype Part = Part(text: Text, num: nat)

  // The length of the non-digits, and of the digits, that s starts with.
  function TextLen(s: Text): (n: nat)
    ensures n <= |s| && forall i | 0 <= i < n :: !IsDigit(s[i])
    ensures n < |s| ==> IsDigit(s[n])
  {
    if s == [] || IsDigit(s[0]) then 0 else 1 + TextLen(s[1..])
  }

  function DigitLen(s: Text): (n: nat)
    ensures n <= |s| && forall i | 0 <= i < n :: IsDigit(s[i])
    ensures n < |s| ==> !IsDigit(s[n])
  {
    if s == [] || !IsDigit(s[0]) then 0 else 1 + DigitLen(s[1..])
  }

  function Digits(s: Text): (d: Text)
    ensures forall c | c in d :: IsDigit(c)
  {
    s[..DigitLen(s)]
  }

  function Parts(s: Text): seq<Part>
    decreases |s|
  {
    if s == [] then []
    else
      var n := TextLen(s);
      var rest := s[n..];
      [Part(s[..n], Value(Digits(rest)))] + Parts(rest[DigitLen(rest)..])
  }

  function ComparePart(p: Part, q: Part): int
  {
    var c := CompareText(p.text, q.text);
    if c != 0 then c else Sign(p.num - q.num)
  }

  function First(ps: seq<Part>): Part
  {
    if ps == [] then Part([], 0) else ps[0]
  }

  function Rest(ps: seq<Part>): (r: seq<Part>)
    ensures |r| <= |ps| && (ps != [] ==> |r| < |ps|)
  {
    if ps == [] then [] else ps[1..]
  }

  function CompareParts(ps: seq<Part>, qs: seq<Part>): int
    decreases |ps| + |qs|
  {
    if ps == [] && qs == [] then 0
    else
      var c := ComparePart(First(ps), First(qs));
      if c != 0 then c else CompareParts(Rest(ps), Rest(qs))
  }

  // ---- the reference is a total preorder ----

  lemma {:induction false} TextFlips(x: Text, y: Text)
    ensures CompareText(y, x) == -CompareText(x, y) && -1 <= CompareText(x, y) <= 1
    decreases |x| + |y|
  {
    if x != [] || y != [] { TextFlips(Tail(x), Tail(y)); }
  }

  // One comparison of three: if both are at most 0 so is the third, and it is below 0 if one of them is.
  ghost predicate Chains(a: int, b: int, c: int)
  {
    a <= 0 && b <= 0 ==> c <= 0 && (a < 0 || b < 0 ==> c < 0)
  }

  lemma {:induction false} TextChains(x: Text, y: Text, z: Text)
    ensures Chains(CompareText(x, y), CompareText(y, z), CompareText(x, z))
    decreases |x| + |y| + |z|
  {
    if x != [] || y != [] || z != [] {
      TextChains(Tail(x), Tail(y), Tail(z));
      TextStep(x, y);
      TextStep(y, z);
      TextStep(x, z);
    }
  }

  // The recursion also holds at the ends.
  lemma {:induction false} TextStep(x: Text, y: Text)
    ensures CompareText(x, y) == if Head(x) != Head(y) then Sign(Head(x) - Head(y)) else CompareText(Tail(x), Tail(y))
  {
  }

  lemma {:induction false} PartFlips(p: Part, q: Part)
    ensures ComparePart(q, p) == -ComparePart(p, q) && -1 <= ComparePart(p, q) <= 1
  {
    TextFlips(p.text, q.text);
  }

  lemma {:induction false} PartChains(p: Part, q: Part, r: Part)
    ensures Chains(ComparePart(p, q), ComparePart(q, r), ComparePart(p, r))
  {
    TextChains(p.text, q.text, r.text);
  }

  lemma {:induction false} PartsStep(ps: seq<Part>, qs: seq<Part>)
    ensures CompareParts(ps, qs) ==
            var c := ComparePart(First(ps), First(qs));
            if c != 0 then c else CompareParts(Rest(ps), Rest(qs))
  {
  }

  // Sign-antisymmetric,
  lemma {:induction false} PartsFlip(ps: seq<Part>, qs: seq<Part>)
    ensures CompareParts(qs, ps) == -CompareParts(ps, qs) && -1 <= CompareParts(ps, qs) <= 1
    decreases |ps| + |qs|
  {
    hide ComparePart;
    if ps != [] || qs != [] {
      PartFlips(First(ps), First(qs));
      PartsFlip(Rest(ps), Rest(qs));
    }
  }

  // and transitive.
  lemma {:induction false} PartsChain(ps: seq<Part>, qs: seq<Part>, rs: seq<Part>)
    ensures Chains(CompareParts(ps, qs), CompareParts(qs, rs), CompareParts(ps, rs))
    decreases |ps| + |qs| + |rs|
  {
    hide ComparePart;
    if ps != [] || qs != [] || rs != [] {
      PartsChain(Rest(ps), Rest(qs), Rest(rs));
      PartChains(First(ps), First(qs), First(rs));
      PartsStep(ps, qs);
      PartsStep(qs, rs);
      PartsStep(ps, rs);
    }
  }

  // ---- numbers ----

  function Pow10(n: nat): (r: nat)
    ensures r >= 1
  {
    if n == 0 then 1 else 10 * Pow10(n - 1)
  }

  ghost predicate AllDigits(x: Text)
  {
    forall c | c in x :: IsDigit(c)
  }

  lemma {:induction false} ValueBelow(x: Text)
    requires AllDigits(x)
    ensures Value(x) < Pow10(|x|)
  {
    if x != [] {
      assert x[|x| - 1] in x;
      ValueBelow(x[..|x| - 1]);
    }
  }

  // A number that does not start with 0 has as many digits as it needs.
  lemma {:induction false} ValueAbove(x: Text)
    requires AllDigits(x) && x != [] && x[0] != 48
    ensures Value(x) >= Pow10(|x| - 1)
  {
    assert x[|x| - 1] in x;
    if |x| > 1 { ValueAbove(x[..|x| - 1]); } else { assert x[..0] == []; }
  }

  lemma {:induction false} Pow10Mono(m: nat, n: nat)
    requires m <= n
    ensures Pow10(m) <= Pow10(n)
  {
    if m < n { Pow10Mono(m, n - 1); }
  }

  // More digits make the larger number.
  lemma {:induction false} LongerIsLarger(x: Text, y: Text)
    requires AllDigits(x) && AllDigits(y) && |x| > |y| && x[0] != 48
    ensures Value(x) > Value(y)
  {
    ValueAbove(x);
    ValueBelow(y);
    Pow10Mono(|y|, |x| - 1);
  }

  lemma {:induction false} ValueCons(c: Byte, x: Text)
    requires AllDigits(x) && c == 48
    ensures AllDigits([c] + x) && Value([c] + x) == Value(x)
  {
    if x == [] {
      assert ([c] + x)[..0] == [];
    } else {
      var k := |x| - 1;
      assert x[k] in x;
      ValueCons(c, x[..k]);
      assert ([c] + x)[..|x|] == [c] + x[..k];
    }
  }

  // One more digit on both sides.
  lemma {:induction false} ValueStep(x: Text, y: Text, n: nat)
    requires AllDigits(x) && AllDigits(y) && n < |x| && n < |y|
    ensures IsDigit(x[n]) && IsDigit(y[n]) && AllDigits(x[..n]) && AllDigits(y[..n]) && AllDigits(x[..n + 1]) && AllDigits(y[..n + 1])
    ensures var d := Value(x[..n]) - Value(y[..n]);
            Sign(Value(x[..n + 1]) - Value(y[..n + 1])) == if d != 0 then Sign(d) else Sign(Digit(x[n]) - Digit(y[n]))
  {
    assert x[n] in x && y[n] in y;
    assert x[..n + 1][..n] == x[..n] && y[..n + 1][..n] == y[..n];
  }

  // ---- the program ----

  // The digits that s has from position i on.
  lemma {:induction false} DigitsFrom(s: Text, i: nat)
    requires i <= |s|
    ensures AllDigits(Digits(s[i..]))
    ensures i < |s| && IsDigit(s[i]) ==> Digits(s[i..]) == [s[i]] + Digits(s[i + 1..]) && DigitLen(s[i..]) == 1 + DigitLen(s[i + 1..])
    ensures i == |s| || !IsDigit(s[i]) ==> Digits(s[i..]) == [] && DigitLen(s[i..]) == 0
  {
    if i < |s| { assert s[i..][1..] == s[i + 1..]; }
  }

  // while (*s == '0') s++;
  method SkipZeros(s: Text, i0: nat) returns (i: nat)
    requires i0 <= |s|
    ensures i0 <= i <= |s| && (i == |s| || s[i] != 48)
    ensures AllDigits(Digits(s[i..])) && Value(Digits(s[i..])) == Value(Digits(s[i0..]))
    ensures i + DigitLen(s[i..]) == i0 + DigitLen(s[i0..])
  {
    hide Digits, DigitLen, Value;
    i := i0;
    while i < |s| && s[i] == 48
      invariant i0 <= i <= |s| && Value(Digits(s[i..])) == Value(Digits(s[i0..]))
      invariant i + DigitLen(s[i..]) == i0 + DigitLen(s[i0..])
    {
      DigitsFrom(s, i);
      DigitsFrom(s, i + 1);
      ValueCons(s[i], Digits(s[i + 1..]));
      i := i + 1;
    }
    DigitsFrom(s, i);
  }

  // The numbers at val[i..] and ref[j..]; a result of 0 says that they are equal.
  method CompareNumbers(val: Text, ref: Text, i0: nat, j0: nat) returns (r: int, i: nat, j: nat)
    requires i0 <= |val| && j0 <= |ref|
    ensures Sign(r) == Sign(Value(Digits(val[i0..])) - Value(Digits(ref[j0..])))
    ensures r == 0 ==> i == i0 + DigitLen(val[i0..]) <= |val| && j == j0 + DigitLen(ref[j0..]) <= |ref|
  {
    hide Value, Sign, DigitLen, Digits;
    i := SkipZeros(val, i0);
    j := SkipZeros(ref, j0);
    ghost var x, y, n := Digits(val[i..]), Digits(ref[j..]), 0;
    var a, b := i, j;
    var firstDiff: int := 0;
    Equal0(x, y);
    RunOf(val, i);
    RunOf(ref, j);
    while i < |val| && IsDigit(val[i]) && j < |ref| && IsDigit(ref[j])
      invariant i == a + n <= |val| && j == b + n <= |ref| && n <= |x| && n <= |y|
      invariant AllDigits(x[..n]) && AllDigits(y[..n])
      invariant Sign(firstDiff) == Sign(Value(x[..n]) - Value(y[..n]))
    {
      assert n < |x| && n < |y| && val[i] == x[n] && ref[j] == y[n];
      ValueStep(x, y, n);
      SignZero(firstDiff, Value(x[..n]) - Value(y[..n]));
      if firstDiff == 0 {
        firstDiff := val[i] as int - ref[j] as int;
      }
      i := i + 1;
      j := j + 1;
      n := n + 1;
    }
    if i < |val| && IsDigit(val[i]) {
      assert n == |y| && |x| > n;
      LongerIsLarger(x, y);
      SignOf(Value(x) - Value(y));
      return 1, i, j;
    }
    if j < |ref| && IsDigit(ref[j]) {
      assert n == |x| && |y| > n;
      LongerIsLarger(y, x);
      SignOf(Value(x) - Value(y));
      return -1, i, j;
    }
    assert x[..n] == x && y[..n] == y;
    r := firstDiff;
  }

  lemma {:induction false} SignOf(x: int)
    ensures x > 0 ==> Sign(x) == Sign(1)
    ensures x < 0 ==> Sign(x) == Sign(-1)
  {
  }

  lemma {:induction false} SignZero(x: int, y: int)
    ensures Sign(x) == Sign(y) ==> (x == 0 <==> y == 0)
  {
  }

  lemma {:induction false} Equal0(x: Text, y: Text)
    ensures x[..0] == [] && y[..0] == [] && Value([]) == 0
  {
  }

  // The run of digits at s[i..], by position.
  lemma {:induction false} RunOf(s: Text, i: nat)
    requires i <= |s|
    ensures var d := Digits(s[i..]);
            && i + |d| <= |s| && |d| == DigitLen(s[i..]) && (forall k | 0 <= k < |d| :: d[k] == s[i + k] && IsDigit(s[i + k]))
            && (i + |d| < |s| ==> !IsDigit(s[i + |d|])) && (d != [] ==> d[0] == s[i])
  {
  }

  function TextAt(s: Text, i: nat): Text
    requires i <= |s|
  {
    s[i..][..TextLen(s[i..])]
  }

  lemma {:induction false} TextFrom(s: Text, i: nat)
    requires i <= |s|
    ensures i < |s| && !IsDigit(s[i]) ==> TextAt(s, i) == [s[i]] + TextAt(s, i + 1) && TextLen(s[i..]) == 1 + TextLen(s[i + 1..])
    ensures i == |s| || IsDigit(s[i]) ==> TextAt(s, i) == [] && TextLen(s[i..]) == 0
  {
    if i < |s| { assert s[i..][1..] == s[i + 1..]; }
  }

  // A C string: no zero byte before its end.
  ghost predicate CString(s: Text)
  {
    forall i | 0 <= i < |s| :: s[i] != 0
  }

  // The next character, or 0 at the end.
  function CharAt(s: Text, i: nat): Byte
  {
    if i < |s| then s[i] else 0
  }

  // The non-digits at val[i..] and ref[j..]; a result of 0 says that they are equal. Neither index passes the end.
  method CompareTexts(val: Text, ref: Text, i0: nat, j0: nat) returns (r: int, i: nat, j: nat)
    requires i0 <= |val| && j0 <= |ref| && CString(val) && CString(ref)
    ensures Sign(r) == CompareText(TextAt(val, i0), TextAt(ref, j0))
    ensures r == 0 ==> i == i0 + TextLen(val[i0..]) <= |val| && j == j0 + TextLen(ref[j0..]) <= |ref|
  {
    hide TextLen, CompareText, TextAt, Order;
    i, j := i0, j0;
    while (i < |val| && !IsDigit(val[i])) || (j < |ref| && !IsDigit(ref[j]))
      invariant i <= |val| && j <= |ref|
      invariant CompareText(TextAt(val, i0), TextAt(ref, j0)) == CompareText(TextAt(val, i), TextAt(ref, j))
      invariant i + TextLen(val[i..]) == i0 + TextLen(val[i0..]) && j + TextLen(ref[j..]) == j0 + TextLen(ref[j0..])
      decreases |val| - i + |ref| - j
    {
      HeadIs(val, i);
      HeadIs(ref, j);
      TextStep(TextAt(val, i), TextAt(ref, j));
      var vc := Order(CharAt(val, i));
      var rc := Order(CharAt(ref, j));
      if vc != rc {
        return vc - rc, i, j;
      }
      BothText(val, i, ref, j);
      TextFrom(val, i);
      TextFrom(ref, j);
      i := i + 1;
      j := j + 1;
    }
    TextFrom(val, i);
    TextFrom(ref, j);
    NoText();
    r := 0;
  }

  lemma {:induction false} NoText()
    ensures CompareText([], []) == 0
  {
  }

  lemma {:induction false} HeadIs(s: Text, i: nat)
    requires i <= |s|
    ensures Head(TextAt(s, i)) == Order(CharAt(s, i))
    ensures i < |s| && !IsDigit(s[i]) ==> Tail(TextAt(s, i)) == TextAt(s, i + 1)
  {
    TextFrom(s, i);
    hide TextAt;
  }

  // Equal orders, one of them of a non-digit: both strings go on with the same non-digit.
  lemma {:induction false} BothText(val: Text, i: nat, ref: Text, j: nat)
    requires i <= |val| && j <= |ref| && CString(val) && CString(ref)
    requires (i < |val| && !IsDigit(val[i])) || (j < |ref| && !IsDigit(ref[j]))
    requires Order(CharAt(val, i)) == Order(CharAt(ref, j))
    ensures i < |val| && j < |ref| && val[i] == ref[j] && !IsDigit(val[i])
  {
  }

  // The parts of s[i..], one after the other.
  lemma {:induction false} PartsAt(s: Text, i: nat)
    requires i <= |s|
    ensures var n := TextLen(s[i..]);
            && i + n <= |s| && i + n + DigitLen(s[i + n..]) <= |s|
            && First(Parts(s[i..])) == Part(TextAt(s, i), Value(Digits(s[i + n..])))
            && Rest(Parts(s[i..])) == Parts(s[i + n + DigitLen(s[i + n..])..])
            && (i < |s| ==> n + DigitLen(s[i + n..]) > 0)
  {
    hide TextLen, DigitLen, Digits, Value, Parts;
    var t := s[i..];
    var n := TextLen(t);
    PartsOf(t);
    Suffix(s, i, n);
    Suffix(s, i + n, DigitLen(t[n..]));
  }

  lemma {:induction false} Suffix(s: Text, i: nat, n: nat)
    requires i + n <= |s|
    ensures s[i..][n..] == s[i + n..]
  {
  }

  lemma {:induction false} PartsOf(t: Text)
    ensures var n := TextLen(t);
            var m := DigitLen(t[n..]);
            && First(Parts(t)) == Part(t[..n], Value(Digits(t[n..]))) && Rest(Parts(t)) == Parts(t[n..][m..])
            && (t != [] ==> n + m > 0)
  {
    hide Value;
    if t == [] {
      EmptyDigits();
      assert t[0..] == [];
    }
  }

  lemma {:induction false} EmptyDigits()
    ensures TextLen([]) == 0 && DigitLen([]) == 0 && Digits([]) == [] && Value([]) == 0 && Parts([]) == []
  {
  }

  // The next part of both; a result of 0 says that the parts are equal.
  method CompareNext(val: Text, ref: Text, i0: nat, j0: nat) returns (r: int, i: nat, j: nat)
    requires i0 <= |val| && j0 <= |ref| && CString(val) && CString(ref) && (i0 < |val| || j0 < |ref|)
    ensures Sign(r) == ComparePart(First(Parts(val[i0..])), First(Parts(ref[j0..])))
    ensures r == 0 ==> i0 <= i <= |val| && j0 <= j <= |ref| && i + j > i0 + j0
                       && Rest(Parts(val[i0..])) == Parts(val[i..]) && Rest(Parts(ref[j0..])) == Parts(ref[j..])
  {
    hide TextLen, CompareText, TextAt, DigitLen, Digits, Value, Parts, Sign, ComparePart, First, Rest;
    PartsAt(val, i0);
    PartsAt(ref, j0);
    PartSign(First(Parts(val[i0..])), First(Parts(ref[j0..])));
    r, i, j := CompareTexts(val, ref, i0, j0);
    SignOf(r);
    if r != 0 {
      return;
    }
    r, i, j := CompareNumbers(val, ref, i, j);
  }

  // version_compare_part: its sign is that of the reference.
  method VersionComparePart(val0: Option<Text>, ref0: Option<Text>) returns (r: int)
    requires (val0.Some? ==> CString(val0.value)) && (ref0.Some? ==> CString(ref0.value))
    ensures Sign(r) == CompareParts(Parts(OrEmpty(val0)), Parts(OrEmpty(ref0)))
  {
    hide TextLen, CompareText, TextAt, DigitLen, Digits, Value, Parts, CompareParts, Sign, ComparePart, First, Rest;
    var val := if val0 == None then [] else val0.value;
    var ref := if ref0 == None then [] else ref0.value;
    var i: nat, j: nat := 0, 0;
    assert val[0..] == val && ref[0..] == ref;
    while i < |val| || j < |ref|
      invariant 0 <= i <= |val| && 0 <= j <= |ref|
      invariant CompareParts(Parts(val), Parts(ref)) == CompareParts(Parts(val[i..]), Parts(ref[j..]))
      decreases |val| - i + |ref| - j
    {
      PartsStep(Parts(val[i..]), Parts(ref[j..]));
      var c;
      c, i, j := CompareNext(val, ref, i, j);
      PartSign(Part([], 0), Part([], 0));
      SignOf(c);
      if c != 0 {
        return c;
      }
    }
    NoParts(val, i);
    NoParts(ref, j);
    r := 0;
  }

  function OrEmpty(s: Option<Text>): Text
  {
    if s.Some? then s.value else []
  }

  lemma {:induction false} NoParts(s: Text, i: nat)
    requires i == |s|
    ensures Parts(s[i..]) == [] && CompareParts([], []) == 0 && Sign(0) == 0
  {
    assert s[i..] == [];
  }

  lemma {:induction false} PartSign(p: Part, q: Part)
    ensures ComparePart(p, q) == if CompareText(p.text, q.text) != 0 then CompareText(p.text, q.text) else Sign(p.num - q.num)
    ensures Sign(0) == 0 && Sign(1) != 0 && Sign(-1) != 0
  {
  }

  // ---- whole versions ----

  const COLON: Byte := 58
  const DASH: Byte := 45

  // strchr and strrchr, as indices; |s| if there is none
  function FirstOf(s: Text, c: Byte): (i: nat)
    ensures i <= |s| && (i < |s| ==> s[i] == c) && forall k | 0 <= k < i :: s[k] != c
  {
    if s == [] || s[0] == c then 0 else 1 + FirstOf(s[1..], c)
  }

  function LastOf(s: Text, c: Byte): (i: nat)
    ensures i <= |s| && (i < |s| ==> s[i] == c && forall k | i < k < |s| :: s[k] != c)
    ensures i == |s| ==> c !in s
  {
    if s == [] then 0
    else if s[|s| - 1] == c then |s| - 1
    else
      var i := LastOf(s[..|s| - 1], c);
      if i == |s| - 1 then |s| else i
  }

  // atoi, stored into an unsigned
  function Atoi(s: Text): nat
  {
    if s == [] then 0
    else if s[0] == 32 || 9 <= s[0] <= 13 then Atoi(s[1..])
    else if s[0] == DASH then (-(Value(Digits(s[1..])) as int)) % 0x1_0000_0000
    else if s[0] == 43 then Value(Digits(s[1..])) % 0x1_0000_0000
    else Value(Digits(s)) % 0x1_0000_0000
  }

  datatype Version = Version(epoch: nat, upstream: Text, revision: Text)

  function EpochOf(s: Text): nat
  {
    if FirstOf(s, COLON) < |s| then Atoi(s) else 0
  }

  function AfterEpoch(s: Text): Text
  {
    var colon := FirstOf(s, COLON);
    if colon < |s| then s[colon + 1..] else s
  }

  // [epoch:]upstream[-revision], the upstream part as long as possible; epoch 0 and revision "" if there is none
  function ParseVersion(s: Text): Version
  {
    var rest := AfterEpoch(s);
    var dash := LastOf(rest, DASH);
    Version(EpochOf(s), rest[..dash], if dash < |rest| then rest[dash + 1..] else [])
  }

  // Epochs, then upstream versions, then revisions.
  function CompareVersions(v: Version, w: Version): int
  {
    if v.epoch != w.epoch then Sign(v.epoch - w.epoch)
    else
      var c := CompareParts(Parts(v.upstream), Parts(w.upstream));
      if c != 0 then c else CompareParts(Parts(v.revision), Parts(w.revision))
  }

  lemma {:induction false} VersionsFlip(v: Version, w: Version)
    ensures CompareVersions(w, v) == -CompareVersions(v, w) && -1 <= CompareVersions(v, w) <= 1
  {
    hide CompareParts, Parts;
    PartsFlip(Parts(v.upstream), Parts(w.upstream));
    PartsFlip(Parts(v.revision), Parts(w.revision));
  }

  lemma {:induction false} VersionsChain(v: Version, w: Version, x: Version)
    ensures Chains(CompareVersions(v, w), CompareVersions(w, x), CompareVersions(v, x))
  {
    hide CompareParts, Parts;
    PartsChain(Parts(v.upstream), Parts(w.upstream), Parts(x.upstream));
    PartsChain(Parts(v.revision), Parts(w.revision), Parts(x.revision));
  }

  // version_compare, on the version strings themselves
  method VersionCompare(ver1: Text, ver2: Text) returns (r: int)
    requires CString(ver1) && CString(ver2)
    ensures Sign(r) == CompareVersions(ParseVersion(ver1), ParseVersion(ver2))
  {
    hide CompareParts, Parts, EpochOf, AfterEpoch;
    var epoch1, ch1 := ChopEpoch(ver1);
    var epoch2, ch2 := ChopEpoch(ver2);
    if epoch1 < epoch2 {
      return -1;
    }
    if epoch1 > epoch2 {
      return 1;
    }
    var up1, deb1 := ChopRevision(ch1);
    var up2, deb2 := ChopRevision(ch2);
    PartsFlip(Parts(up1), Parts(up2));
    PartsFlip(Parts(OrEmpty(deb1)), Parts(OrEmpty(deb2)));
    r := VersionComparePart(Some(up1), Some(up2));
    if r == 0 {
      r := VersionComparePart(deb1, deb2);
    }
  }

  method ChopEpoch(s: Text) returns (epoch: nat, rest: Text)
    requires CString(s)
    ensures epoch == EpochOf(s) && rest == AfterEpoch(s) && CString(rest)
  {
    epoch, rest := 0, s;
    var colon := FirstOf(s, COLON);
    if colon < |s| {
      epoch := Atoi(s);
      rest := s[colon + 1..];
    }
  }

  // Cut the copy of the version at its last dash.
  method ChopRevision(s: Text) returns (upstream: Text, deb: Option<Text>)
    requires CString(s)
    ensures CString(upstream) && (deb.Some? ==> CString(deb.value))
    ensures var dash := LastOf(s, DASH); upstream == s[..dash] && OrEmpty(deb) == if dash < |s| then s[dash + 1..] else []
  {
    var dash := LastOf(s, DASH);
    upstream := s[..dash];
    deb := if dash < |s| then Some(s[dash + 1..]) else None;
  }

  datatype Operator = VerNull | VerEqual | VerLess | VerLessEqual | VerMore | VerMoreEqual | VerAny

  // test_version: the operators say what they are called
  predicate TestVersion(v: Text, w: Text, op: Operator)
  {
    var c := CompareVersions(ParseVersion(v), ParseVersion(w));
    match op
    case VerAny => true
    case VerEqual => c == 0
    case VerLess => c < 0
    case VerLessEqual => c <= 0
    case VerMore => c > 0
    case VerMoreEqual => c >= 0
    case VerNull => false
  }

  // Exactly one of <, = and > holds, and the weak operators are their unions.
  lemma {:induction false} Trichotomy(v: Text, w: Text)
    ensures TestVersion(v, w, VerLessEqual) == (TestVersion(v, w, VerLess) || TestVersion(v, w, VerEqual))
    ensures TestVersion(v, w, VerMore) == TestVersion(w, v, VerLess)
    ensures TestVersion(v, w, VerMoreEqual) == TestVersion(w, v, VerLessEqual) == !TestVersion(v, w, VerLess)
    ensures TestVersion(v, w, VerEqual) == TestVersion(w, v, VerEqual)
  {
    hide CompareVersions, ParseVersion;
    VersionsFlip(ParseVersion(v), ParseVersion(w));
  }
}
