// What section 5.6.12 of the Debian Policy says about versions, in plain character codes, and what the operators of a
// dependency ask for.
module DpkgOrder {
  import opened Lz77
  import opened DpkgVersion

  predicate Letter(c: Byte)
  {
    65 <= c <= 90 || 97 <= c <= 122
  }

  // A character of a version that is no digit.
  predicate NonDigit(c: Byte)
  {
    c != 0 && !(48 <= c <= 57)
  }

  // A tilde comes first, then letters, then everything else; within a class the codes decide.
  predicate Before(c: Byte, d: Byte)
  {
    c != d && (c == 126 || (d != 126 && if Letter(c) == Letter(d) then c < d else Letter(c)))
  }

  // The text starts with no digit.
  predicate NoDigitFirst(s: Text)
  {
    s == [] || NonDigit(s[0])
  }

  // x sorts before y by its first character or by its end: a tilde comes even before the end.
  predicate Earlier(x: Text, y: Text)
  {
    if x == [] then y != [] && NonDigit(y[0]) && y[0] != 126
    else if y == [] then x[0] == 126
    else NonDigit(x[0]) && NonDigit(y[0]) && Before(x[0], y[0])
  }

  // ---- non-digit parts ----

  lemma {:induction false} TextsInOrder(x: Text, y: Text)
    requires Earlier(x, y)
    ensures CompareText(x, y) < 0
  {
  }

  lemma {:induction false} SameStart(p: Text, x: Text, y: Text)
    ensures CompareText(p + x, p + y) == CompareText(x, y)
  {
    if p == [] {
      assert p + x == x && p + y == y;
    } else {
      SameStart(p[1..], x, y);
      assert (p + x)[1..] == p[1..] + x && (p + y)[1..] == p[1..] + y;
    }
  }

  // ---- whole versions with a common beginning ----

  // Where a part of p + s ends in p: there is a digit in p, and no digit goes on behind p.
  ghost predicate Stops(p: Text, s: Text)
  {
    NoDigitFirst(s) || p == [] || NonDigit(p[|p| - 1])
  }

  lemma {:induction false} TextLenAfter(p: Text, s: Text)
    ensures TextLen(p + s) == if TextLen(p) < |p| then TextLen(p) else |p| + TextLen(s)
  {
    if p == [] {
      assert p + s == s;
    } else {
      TextLenAfter(p[1..], s);
      assert (p + s)[1..] == p[1..] + s;
    }
  }

  lemma {:induction false} DigitLenAfter(p: Text, s: Text)
    requires NoDigitFirst(s) || DigitLen(p) < |p|
    ensures DigitLen(p + s) == DigitLen(p)
  {
    if p == [] {
      assert p + s == s;
    } else if IsDigit(p[0]) {
      DigitLenAfter(p[1..], s);
      assert (p + s)[1..] == p[1..] + s;
    }
  }

  lemma {:induction false} DigitsEnd(p: Text)
    requires p != [] && NonDigit(p[|p| - 1])
    ensures DigitLen(p) < |p|
  {
  }

  // A number in p ends in p, because no digit follows.
  lemma {:induction false} FirstPart(p: Text, s: Text)
    requires Stops(p, s) && TextLen(p) < |p|
    ensures var n := TextLen(p);
            var m := DigitLen(p[n..]);
            && n + m <= |p| && m > 0 && First(Parts(p + s)) == First(Parts(p)) && Rest(Parts(p + s)) == Parts(p[n + m..] + s)
            && Stops(p[n + m..], s)
  {
    hide Parts, Value, First, Rest, TextLen, DigitLen, Digits;
    var n := TextLen(p);
    TextLenAfter(p, s);
    if !NoDigitFirst(s) { DigitsEnd(p[n..]); }
    DigitLenAfter(p[n..], s);
    var m := DigitLen(p[n..]);
    PartsOf(p + s);
    PartsOf(p);
    Cut(p, s, n);
    Cut(p[n..], s, m);
    DigitsAfter(p[n..], s);
    assert p[n..][m..] == p[n + m..];
    DigitsThere(p[n..]);
  }

  lemma {:induction false} DigitsAfter(q: Text, s: Text)
    requires DigitLen(q + s) == DigitLen(q)
    ensures Digits(q + s) == Digits(q)
  {
    hide DigitLen;
  }

  lemma {:induction false} Cut(p: Text, s: Text, n: nat)
    requires n <= |p|
    ensures (p + s)[n..] == p[n..] + s && (p + s)[..n] == p[..n]
  {
  }

  lemma {:induction false} DigitsThere(q: Text)
    requires q != [] && IsDigit(q[0])
    ensures DigitLen(q) > 0
  {
  }

  // Without a digit p goes on into the text of s.
  lemma {:induction false} TextPart(p: Text, s: Text)
    requires NoDigitFirst(s) && TextLen(p) == |p|
    ensures First(Parts(p + s)).text == p + s[..TextLen(s)]
  {
    TextLenAfter(p, s);
    PartsOf(p + s);
    hide Parts, Value, First, Rest, TextLen, DigitLen;
    assert (p + s)[..|p| + TextLen(s)] == p + s[..TextLen(s)];
  }

  // After any common beginning the order of the next characters decides.
  lemma {:induction false} PartsInOrder(p: Text, x: Text, y: Text)
    requires NoDigitFirst(x) && NoDigitFirst(y) && Earlier(x, y)
    ensures CompareParts(Parts(p + x), Parts(p + y)) < 0
    decreases |p|
  {
    hide Parts, CompareParts, CompareText, Value, Earlier, First, Rest;
    PartsStep(Parts(p + x), Parts(p + y));
    PartSign(First(Parts(p + x)), First(Parts(p + y)));
    if TextLen(p) < |p| {
      var k := TextLen(p) + DigitLen(p[TextLen(p)..]);
      FirstPart(p, x);
      FirstPart(p, y);
      SamePart(First(Parts(p)));
      PartsInOrder(p[k..], x, y);
    } else {
      TextPart(p, x);
      TextPart(p, y);
      EarlierText(x, y);
      SameStart(p, x[..TextLen(x)], y[..TextLen(y)]);
      TextsInOrder(x[..TextLen(x)], y[..TextLen(y)]);
    }
  }

  lemma {:induction false} SamePart(p: Part)
    ensures CompareText(p.text, p.text) == 0 && Sign(p.num - p.num) == 0
  {
    TextFlips(p.text, p.text);
  }

  lemma {:induction false} EarlierText(x: Text, y: Text)
    requires NoDigitFirst(x) && NoDigitFirst(y) && Earlier(x, y)
    ensures Earlier(x[..TextLen(x)], y[..TextLen(y)])
  {
    assert x != [] ==> x[..TextLen(x)][0] == x[0];
    assert y != [] ==> y[..TextLen(y)][0] == y[0];
  }

  // ---- numbers ----

  ghost predicate Number(x: Text)
  {
    x != [] && forall i | 0 <= i < |x| :: 48 <= x[i] <= 57
  }

  function Decimal(x: Text): int
  {
    if x == [] then 0 else 10 * Decimal(x[..|x| - 1]) + (x[|x| - 1] as int - 48)
  }

  lemma {:induction false} DecimalValue(x: Text)
    requires AllDigits(x)
    ensures Value(x) == Decimal(x)
  {
    if x != [] {
      assert x[|x| - 1] in x;
      DecimalValue(x[..|x| - 1]);
    }
  }

  // The number that follows text without digits.
  lemma {:induction false} NumberPart(p: Text, x: Text, s: Text)
    requires TextLen(p) == |p| && Number(x) && NoDigitFirst(s)
    ensures var f := First(Parts(p + (x + s))); f.text == p && f.num == Decimal(x)
  {
    hide Parts, Value, First, Rest, TextLen, DigitLen, Digits, Decimal;
    StartsNumber(x, s);
    TextLenAfter(p, x + s);
    PartsOf(p + (x + s));
    Cut(p, x + s, |p|);
    assert p[|p|..] + (x + s) == x + s;
    DigitLenAfter(x, s);
    DigitsAfter(x, s);
    DecimalValue(x);
  }

  lemma {:induction false} StartsNumber(x: Text, s: Text)
    requires Number(x)
    ensures TextLen(x + s) == 0 && DigitLen(x) == |x| && Digits(x) == x && AllDigits(x)
  {
    assert (x + s)[0] == x[0];
    AllLen(x);
  }

  lemma {:induction false} AllLen(x: Text)
    requires forall i | 0 <= i < |x| :: 48 <= x[i] <= 57
    ensures DigitLen(x) == |x|
  {
    if x != [] { AllLen(x[1..]); }
  }

  // After any common beginning that does not end in a digit, numbers compare as decimal numbers, leading zeros included.
  lemma {:induction false} NumbersInOrder(p: Text, x: Text, s: Text, y: Text, t: Text)
    requires (p == [] || NonDigit(p[|p| - 1])) && Number(x) && NoDigitFirst(s) && Number(y) && NoDigitFirst(t) && Decimal(x) < Decimal(y)
    ensures CompareParts(Parts(p + (x + s)), Parts(p + (y + t))) < 0
    decreases |p|
  {
    hide Parts, CompareParts, CompareText, Value, First, Rest, Number, Decimal;
    PartsStep(Parts(p + (x + s)), Parts(p + (y + t)));
    PartSign(First(Parts(p + (x + s))), First(Parts(p + (y + t))));
    if TextLen(p) < |p| {
      FirstPart(p, x + s);
      FirstPart(p, y + t);
      SamePart(First(Parts(p)));
      NumbersInOrder(p[TextLen(p) + DigitLen(p[TextLen(p)..])..], x, s, y, t);
    } else {
      NumberPart(p, x, s);
      NumberPart(p, y, t);
      SamePart(Part(p, 0));
    }
  }

  // ---- epoch, upstream version and revision ----

  lemma {:induction false} FirstAt(u: Text, c: Byte, v: Text)
    requires c !in u
    ensures FirstOf(u, c) == |u| && FirstOf(u + [c] + v, c) == |u|
  {
    if u != [] {
      assert forall d | d in u[1..] :: d in u;
      FirstAt(u[1..], c, v);
      assert (u + [c] + v)[1..] == u[1..] + [c] + v;
    }
  }

  lemma {:induction false} LastAt(u: Text, c: Byte, v: Text)
    requires c !in v
    ensures LastOf(u + [c] + v, c) == |u| && LastOf(v, c) == |v|
  {
    if v != [] {
      var k := |v| - 1;
      assert v[k] in v && forall d | d in v[..k] :: d in v;
      LastAt(u, c, v[..k]);
      assert (u + [c] + v)[..|u| + 1 + k] == u + [c] + v[..k];
    }
  }

  // epoch:upstream-revision, cut at the first colon (58) and at the last dash (45) after it.
  lemma {:induction false} VersionParts(e: Text, u: Text, r: Text)
    requires Number(e) && 45 !in r
    ensures ParseVersion(e + [58] + (u + [45] + r)) == Version(Decimal(e) % 0x1_0000_0000, u, r)
    ensures 45 !in u ==> ParseVersion(e + [58] + u) == Version(Decimal(e) % 0x1_0000_0000, u, [])
    ensures 58 !in u + [45] + r ==> ParseVersion(u + [45] + r) == Version(0, u, r)
    ensures 58 !in u && 45 !in u ==> ParseVersion(u) == Version(0, u, [])
  {
    hide Decimal, FirstOf, LastOf, Number, Atoi;
    var w := u + [45] + r;
    LastAt(u, 45, r);
    assert w[..|u|] == u && w[|u| + 1..] == r;
    EpochParts(e, w);
    EpochParts(e, u);
    if 58 !in w { FirstAt(w, 58, []); }
    if 58 !in u { FirstAt(u, 58, []); }
    if 45 !in u { LastAt([], 45, u); }
    assert u[..|u|] == u;
  }

  ghost predicate Blanks(w: Text)
  {
    forall c | c in w :: c == 32 || c == 9 || c == 10 || c == 11 || c == 12 || c == 13
  }

  // An epoch may have blanks and a sign before it; it is stored as an unsigned number of 32 bits.
  lemma {:induction false} EpochNumber(w: Text, sign: Text, e: Text, s: Text)
    requires Blanks(w) && sign in [[], [43], [45]] && Number(e) && NoDigitFirst(s)
    ensures Atoi(w + (sign + (e + s))) == (if sign == [45] then -Decimal(e) else Decimal(e)) % 4294967296
  {
    hide Atoi, Decimal, Number;
    var t := sign + (e + s);
    if w == [] {
      assert w + t == t;
      EpochHere(sign, e, s);
    } else {
      assert w[0] in w && forall c | c in w[1..] :: c in w;
      EpochNumber(w[1..], sign, e, s);
      assert w + t == [w[0]] + (w[1..] + t);
      BlankSkipped(w[0], w[1..] + t);
    }
  }

  lemma {:induction false} BlankSkipped(c: Byte, t: Text)
    requires c == 32 || c == 9 || c == 10 || c == 11 || c == 12 || c == 13
    ensures Atoi([c] + t) == Atoi(t)
  {
    assert ([c] + t)[1..] == t;
  }

  lemma {:induction false} EpochHere(sign: Text, e: Text, s: Text)
    requires sign in [[], [43], [45]] && Number(e) && NoDigitFirst(s)
    ensures Atoi(sign + (e + s)) == (if sign == [45] then -Decimal(e) else Decimal(e)) % 4294967296
  {
    var t := sign + (e + s);
    NumberHere(e, s);
    if sign == [] {
      assert t == e + s && t[0] == e[0];
    } else {
      assert t[0] == sign[0] && t[1..] == e + s;
    }
    hide Digits, Value, Decimal;
  }

  lemma {:induction false} NumberHere(e: Text, s: Text)
    requires Number(e) && NoDigitFirst(s)
    ensures Digits(e + s) == e && Value(Digits(e + s)) == Decimal(e)
  {
    StartsNumber(e, s);
    DigitLenAfter(e, s);
    DigitsAfter(e, s);
    DecimalValue(e);
  }

  lemma {:induction false} EpochParts(e: Text, w: Text)
    requires Number(e)
    ensures EpochOf(e + [58] + w) == Decimal(e) % 0x1_0000_0000 && AfterEpoch(e + [58] + w) == w
  {
    hide Decimal, FirstOf, Digits;
    var s := e + [58] + w;
    assert forall c | c in e :: c != 58;
    FirstAt(e, 58, w);
    assert s[|e| + 1..] == w;
    assert s == e + ([58] + w) && s[0] == e[0];
    StartsNumber(e, []);
    DigitLenAfter(e, [58] + w);
    DigitsAfter(e, [58] + w);
    DecimalValue(e);
  }

  // ---- the operators ----

  // v is older than w: what every operator says about them.
  ghost predicate Older(v: Text, w: Text)
  {
    && TestVersion(v, w, VerLess) && TestVersion(v, w, VerLessEqual)
    && !TestVersion(v, w, VerEqual) && !TestVersion(v, w, VerMore) && !TestVersion(v, w, VerMoreEqual)
    && TestVersion(w, v, VerMore) && TestVersion(w, v, VerMoreEqual)
    && !TestVersion(w, v, VerEqual) && !TestVersion(w, v, VerLess) && !TestVersion(w, v, VerLessEqual)
  }

  // Neither a colon nor a dash.
  predicate Simple(s: Text)
  {
    58 !in s && 45 !in s
  }

  lemma {:induction false} Negative(v: Text, w: Text)
    requires CompareVersions(ParseVersion(v), ParseVersion(w)) < 0
    ensures Older(v, w)
  {
    hide CompareVersions, ParseVersion;
    VersionsFlip(ParseVersion(v), ParseVersion(w));
  }

  lemma {:induction false} SimpleParts(u: Text)
    requires Simple(u)
    ensures ParseVersion(u) == Version(0, u, [])
  {
    hide FirstOf, LastOf;
    FirstAt(u, 58, []);
    LastAt([], 45, u);
    assert u[..|u|] == u;
  }

  // version_compare: after a common beginning a tilde makes a version older than its end, everything else newer; letters
  // come before other characters, and within these classes the codes decide.
  lemma {:induction false} VersionsInOrder(p: Text, x: Text, y: Text)
    requires Simple(p + x) && Simple(p + y) && NoDigitFirst(x) && NoDigitFirst(y) && Earlier(x, y)
    ensures CompareVersions(ParseVersion(p + x), ParseVersion(p + y)) < 0 && Older(p + x, p + y)
  {
    hide ParseVersion, Parts, CompareParts, Older, Earlier;
    SimpleParts(p + x);
    SimpleParts(p + y);
    PartsInOrder(p, x, y);
    Negative(p + x, p + y);
  }

  // Numbers after a common beginning compare by their decimal values.
  lemma {:induction false} NumberedVersions(p: Text, x: Text, s: Text, y: Text, t: Text)
    requires (p == [] || NonDigit(p[|p| - 1])) && Number(x) && NoDigitFirst(s) && Number(y) && NoDigitFirst(t) && Decimal(x) < Decimal(y)
    requires Simple(p + (x + s)) && Simple(p + (y + t))
    ensures CompareVersions(ParseVersion(p + (x + s)), ParseVersion(p + (y + t))) < 0 && Older(p + (x + s), p + (y + t))
  {
    hide ParseVersion, Parts, CompareParts, Older, Number, Decimal;
    SimpleParts(p + (x + s));
    SimpleParts(p + (y + t));
    NumbersInOrder(p, x, s, y, t);
    Negative(p + (x + s), p + (y + t));
  }

  // A smaller epoch makes a version older whatever follows, and of equal upstream versions the revision decides.
  lemma {:induction false} EpochsAndRevisions(e: Text, f: Text, u: Text, r: Text, w: Text, t: Text)
    requires Number(e) && Number(f) && 45 !in r && 45 !in t
    ensures Decimal(e) < Decimal(f) < 0x1_0000_0000 ==> Older(e + [58] + (u + [45] + r), f + [58] + (w + [45] + t))
    ensures CompareParts(Parts(r), Parts(t)) < 0 ==> Older(e + [58] + (u + [45] + r), e + [58] + (u + [45] + t))
    ensures CompareParts(Parts(u), Parts(w)) < 0 ==> Older(e + [58] + (u + [45] + r), e + [58] + (w + [45] + t))
  {
    hide ParseVersion, Parts, CompareParts, Older, Number;
    VersionParts(e, u, r);
    VersionParts(f, w, t);
    VersionParts(e, u, t);
    VersionParts(e, w, t);
    PartsFlip(Parts(u), Parts(u));
    var v1, v2 := e + [58] + (u + [45] + r), f + [58] + (w + [45] + t);
    if Decimal(e) < Decimal(f) < 0x1_0000_0000 {
      DecimalNatural(e);
      Negative(v1, v2);
    }
    if CompareParts(Parts(r), Parts(t)) < 0 { Negative(v1, e + [58] + (u + [45] + t)); }
    if CompareParts(Parts(u), Parts(w)) < 0 { Negative(v1, e + [58] + (w + [45] + t)); }
  }

  lemma {:induction false} DecimalNatural(x: Text)
    requires Number(x)
    ensures Decimal(x) >= 0
  {
    DecimalValue(x);
  }
}
