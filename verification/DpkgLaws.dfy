// Status lines, alternatives and dependency lines of dpkg, in plain character codes.
module DpkgLaws {
  import opened Bits
  import opened Lz77
  import opened DpkgVersion
  import opened DpkgProbe
  import opened DpkgTables
  import opened DpkgDeps
  import opened DpkgEdges

  // ---- status lines ----

  // A word: no spaces, no newlines.
  predicate Plain(a: Text)
  {
    a != [] && 32 !in a && 10 !in a
  }

  lemma {:induction false} SpanNotAt(a: Text, c: Byte, s: Text)
    requires c !in a
    ensures SpanNot(a, c) == |a| && SpanNot(a + [c] + s, c) == |a|
  {
    if a != [] {
      assert forall d | d in a[1..] :: d in a;
      SpanNotAt(a[1..], c, s);
      assert (a + [c] + s)[1..] == a[1..] + [c] + s;
    }
  }

  lemma {:induction false} SpanNotBeyond(a: Text, c: Byte, s: Text)
    requires c !in a
    ensures SpanNot(a + s, c) >= |a|
  {
    if a != [] {
      assert forall d | d in a[1..] :: d in a;
      SpanNotBeyond(a[1..], c, s);
      assert (a + s)[1..] == a[1..] + s;
    }
  }

  lemma {:induction false} OneSpace(s: Text)
    requires s != [] && s[0] != 32
    ensures Span([32] + s, 32) == 1
  {
    assert ([32] + s)[1..] == s;
  }

  // The line after its first word and the space.
  lemma {:induction false} NextWord(a: Text, s: Text, n: nat)
    requires Plain(a) && s != [] && s[0] != 32 && n >= 2
    ensures Word(a + [32] + s, n) == Word(s, n - 1)
  {
    hide SpanNot, Span;
    SpanNotAt(a, 32, s);
    OneSpace(s);
    var line := a + [32] + s;
    assert line[|a|..] == [32] + s;
    assert ([32] + s)[1..] == s;
  }

  lemma {:induction false} FirstWord(a: Text, s: Text)
    requires Plain(a)
    ensures Word(a + [32] + s, 1) == a && Word(a, 1) == a
  {
    hide SpanNot;
    var t := a + [32] + s;
    var k := SpanNot(t, 10);
    assert t == (a + [32]) + s;
    SpanNotBeyond(a + [32], 10, s);
    var line := t[..k];
    assert line == a + [32] + line[|a| + 1..];
    SpanNotAt(a, 32, line[|a| + 1..]);
    SpanNotAt(a, 10, []);
    assert a[..|a|] == a;
  }

  // A status line is three words: what is wanted, a flag, and what is the case.
  lemma {:induction false} StatusWords(a: Text, b: Text, c: Text)
    requires Plain(a) && Plain(b) && Plain(c)
    ensures Word(a + [32] + (b + [32] + c), 1) == a && Word(a + [32] + (b + [32] + c), 3) == c
  {
    hide Word;
    assert b[0] in b && c[0] in c;
    FirstWord(a, b + [32] + c);
    NextWord(a, b + [32] + c, 3);
    NextWord(b, c, 2);
    FirstWord(c, []);
  }

  // Slot q holds the status line "a b c".
  ghost predicate StatusLine(v: View, q: nat, a: Text, b: Text, c: Text)
  {
    && q < STATUS_HASH_PRIME && q < |v.status| && v.status[q].Some? && Plain(a) && Plain(b) && Plain(c)
    && NameAt(v.names, v.status[q].value.status) == a + [32] + (b + [32] + c)
  }

  // The package that the status in slot q is about.
  function About(v: View, q: nat): Text
    requires q < |v.status| && v.status[q].Some?
  {
    PackageName(v.names, v.packages, v.status[q].value.package)
  }

  // A dependency asks for a package whose first status word is "install", a pre-dependency for one whose third is "installed".
  lemma {:induction false} Asked(v: View, q: nat, a: Text, b: Text, c: Text)
    requires v.Valid() && StatusLine(v, q, a, b, c)
    ensures v.Satisfies(About(v, q), Depends) <==> a == [105, 110, 115, 116, 97, 108, 108]
    ensures v.Satisfies(About(v, q), PreDepends) <==> c == [105, 110, 115, 116, 97, 108, 108, 101, 100]
    ensures forall kind: EdgeType | kind != Depends && kind != PreDepends :: !v.Satisfies(About(v, q), kind)
  {
    hide PackagesValid, StatusValid, Word, NameAt;
    StatusWords(a, b, c);
  }

  // Without a status a package satisfies nothing.
  lemma {:induction false} Unasked(v: View, key: Text, kind: EdgeType)
    requires v.Valid() && forall q | 0 <= q < STATUS_HASH_PRIME && v.status[q].Some? :: About(v, q) != key
    ensures !v.Satisfies(key, kind)
  {
    hide PackagesValid, Word, Says;
  }

  // Every status is three words.
  ghost predicate ThreeWords(v: View)
  {
    |v.status| >= STATUS_HASH_PRIME
    && forall q | 0 <= q < STATUS_HASH_PRIME && v.status[q].Some? :: exists a, b, c :: StatusLine(v, q, a, b, c)
  }

  // The package in slot i has a status line whose first word is "install", or whose third word is "installed".
  ghost predicate ToInstall(v: View, i: nat)
  {
    && i < PACKAGE_HASH_PRIME && i < |v.packages| && v.packages[i].Some?
    && exists q, b, c :: StatusLine(v, q, [105, 110, 115, 116, 97, 108, 108], b, c) && About(v, q) == NameAt(v.names, v.packages[i].value.name)
  }

  ghost predicate IsInstalled(v: View, i: nat)
  {
    && i < PACKAGE_HASH_PRIME && i < |v.packages| && v.packages[i].Some?
    && exists q, a, b :: StatusLine(v, q, a, b, [105, 110, 115, 116, 97, 108, 108, 101, 100]) && About(v, q) == NameAt(v.names, v.packages[i].value.name)
  }

  lemma {:induction false} Sizes(v: View)
    requires v.Valid()
    ensures |v.packages| == PACKAGE_HASH_PRIME + 1 && |v.status| == STATUS_HASH_PRIME + 1
  {
  }

  lemma {:induction false} SatisfiesMeans(v: View, i: nat)
    requires v.Valid() && ThreeWords(v) && i < PACKAGE_HASH_PRIME && v.packages[i].Some?
    ensures v.Satisfies(NameAt(v.names, v.packages[i].value.name), Depends) <==> ToInstall(v, i)
    ensures v.Satisfies(NameAt(v.names, v.packages[i].value.name), PreDepends) <==> IsInstalled(v, i)
  {
    Sizes(v);
    hide PackagesValid, StatusValid, StatusUnique, NameAt, StatusLine, v.Satisfies;
    var key := NameAt(v.names, v.packages[i].value.name);
    if q :| 0 <= q < STATUS_HASH_PRIME && v.status[q].Some? && About(v, q) == key {
      var a, b, c :| StatusLine(v, q, a, b, c);
      Asked(v, q, a, b, c);
      OneLine(v, q, a, b, c, i);
    } else {
      Unasked(v, key, Depends);
      Unasked(v, key, PreDepends);
      NoLine(v, i);
    }
  }

  // The status of a package is the only one it has, and its words are the only way to read it.
  lemma {:induction false} OneLine(v: View, q: nat, a: Text, b: Text, c: Text, i: nat)
    requires v.Valid() && StatusLine(v, q, a, b, c) && i < PACKAGE_HASH_PRIME && v.packages[i].Some?
    requires About(v, q) == NameAt(v.names, v.packages[i].value.name)
    ensures ToInstall(v, i) <==> a == [105, 110, 115, 116, 97, 108, 108]
    ensures IsInstalled(v, i) <==> c == [105, 110, 115, 116, 97, 108, 108, 101, 100]
  {
    Sizes(v);
    hide PackagesValid, StatusValid, StatusUnique, NameAt, About, Plain;
    if ToInstall(v, i) {
      var q', b', c' :| StatusLine(v, q', [105, 110, 115, 116, 97, 108, 108], b', c') && About(v, q') == About(v, q);
      SameLine(v, q, a, b, c, q', [105, 110, 115, 116, 97, 108, 108], b', c');
    }
    if IsInstalled(v, i) {
      var q', a', b' :| StatusLine(v, q', a', b', [105, 110, 115, 116, 97, 108, 108, 101, 100]) && About(v, q') == About(v, q);
      SameLine(v, q, a, b, c, q', a', b', [105, 110, 115, 116, 97, 108, 108, 101, 100]);
    }
  }

  lemma {:induction false} SameLine(v: View, q: nat, a: Text, b: Text, c: Text, q': nat, a': Text, b': Text, c': Text)
    requires v.Valid() && StatusLine(v, q, a, b, c) && StatusLine(v, q', a', b', c') && About(v, q) == About(v, q')
    ensures a == a' && c == c'
  {
    hide PackagesValid, StatusValid, NameAt, Word;
    StatusWords(a, b, c);
    StatusWords(a', b', c');
  }

  lemma {:induction false} NoLine(v: View, i: nat)
    requires v.Valid() && i < PACKAGE_HASH_PRIME && v.packages[i].Some?
    requires forall q | 0 <= q < STATUS_HASH_PRIME && v.status[q].Some? :: About(v, q) != NameAt(v.names, v.packages[i].value.name)
    ensures !ToInstall(v, i) && !IsInstalled(v, i)
  {
    hide PackagesValid, StatusValid, NameAt;
  }

  // A package that matches the edge, or provides its name.
  ghost predicate Answers(v: View, i: nat, e: Edge)
  {
    && i < PACKAGE_HASH_PRIME && i < |v.packages| && v.packages[i].Some?
    && (Matches(v.names, v.packages[i].value, e.name, e.version, e.op) || Provided(v.packages[i].value, e.name))
  }

  // A dependency is met by a package that is to be installed, a pre-dependency by one that is installed.
  lemma {:induction false} MetMeans(v: View, e: Edge)
    requires v.Valid() && ThreeWords(v)
    ensures e.kind == Depends ==> (v.Met(e) <==> exists i: nat :: Answers(v, i, e) && ToInstall(v, i))
    ensures e.kind == PreDepends ==> (v.Met(e) <==> exists i: nat :: Answers(v, i, e) && IsInstalled(v, i))
  {
    Sizes(v);
    hide PackagesValid, StatusValid, StatusUnique, NameAt, Matches, Provided, v.Satisfies, ToInstall, IsInstalled, ThreeWords;
    forall i: nat | i < PACKAGE_HASH_PRIME && v.packages[i].Some?
      ensures v.Satisfies(NameAt(v.names, v.packages[i].value.name), Depends) <==> ToInstall(v, i)
      ensures v.Satisfies(NameAt(v.names, v.packages[i].value.name), PreDepends) <==> IsInstalled(v, i) {
      SatisfiesMeans(v, i);
    }
    if e.kind == Depends || e.kind == PreDepends {
      MetIs(v, e);
      ToInstallSlot(v);
    }
  }

  lemma {:induction false} MetIs(v: View, e: Edge)
    requires v.Valid()
    ensures v.Met(e) <==> exists i: nat :: Answers(v, i, e) && v.Satisfies(NameAt(v.names, v.packages[i].value.name), e.kind)
  {
    Sizes(v);
    hide PackagesValid, StatusValid, StatusUnique, NameAt, Matches, Provided, v.Satisfies;
    if v.Direct(e) {
      var q :| 0 <= q < PACKAGE_HASH_PRIME && v.packages[q].Some?
        && Matches(v.names, v.packages[q].value, e.name, e.version, e.op) && v.Satisfies(NameAt(v.names, v.packages[q].value.name), e.kind);
      assert Answers(v, q, e);
    } else if exists q :: v.Provider(e, q) {
      var q :| v.Provider(e, q);
      assert Answers(v, q, e);
    }
    if i: nat :| Answers(v, i, e) && v.Satisfies(NameAt(v.names, v.packages[i].value.name), e.kind) {
      assert v.Direct(e) || v.Provider(e, i);
    }
  }

  lemma {:induction false} ToInstallSlot(v: View)
    requires v.Valid()
    ensures forall i: nat | ToInstall(v, i) || IsInstalled(v, i) :: i < PACKAGE_HASH_PRIME && v.packages[i].Some?
  {
  }

  // check_deps: a package is examined exactly when it is to be installed.
  lemma {:induction false} ConsistentMeans(v: View)
    requires v.Valid() && ThreeWords(v)
    ensures v.Consistent() <==> forall i: nat | ToInstall(v, i) :: AllMet(v.packages[i].value.edges, 0, v.Judge())
  {
    Sizes(v);
    hide PackagesValid, StatusValid, StatusUnique, NameAt, AllMet, v.Satisfies, ThreeWords, ToInstall;
    ToInstallSlot(v);
    forall i: nat | i < PACKAGE_HASH_PRIME && v.packages[i].Some? ensures v.Wanted(i) <==> ToInstall(v, i) {
      SatisfiesMeans(v, i);
    }
  }

  // ---- alternatives: name, or name (operator version) ----

  lemma {:induction false} SpanNoneAt(a: Text, stop: set<Byte>, s: Text)
    requires (forall c | c in a :: c !in stop) && (s == [] || s[0] in stop)
    ensures SpanNone(a + s, stop) == |a|
  {
    if a == [] {
      assert a + s == s;
    } else {
      assert forall d | d in a[1..] :: d in a;
      SpanNoneAt(a[1..], stop, s);
      assert (a + s)[1..] == a[1..] + s;
    }
  }

  lemma {:induction false} SpanAllAt(a: Text, chars: set<Byte>, s: Text)
    requires (forall c | c in a :: c in chars) && (s == [] || s[0] !in chars)
    ensures SpanAll(a + s, chars) == |a|
  {
    if a == [] {
      assert a + s == s;
    } else {
      assert forall d | d in a[1..] :: d in a;
      SpanAllAt(a[1..], chars, s);
      assert (a + s)[1..] == a[1..] + s;
    }
  }

  lemma {:induction false} FirstOfAt(a: Text, c: Byte, s: Text)
    requires c !in a
    ensures FirstOf(a + [c] + s, c) == |a| && FirstOf(a, c) == |a|
  {
    if a != [] {
      assert forall d | d in a[1..] :: d in a;
      FirstOfAt(a[1..], c, s);
      assert (a + [c] + s)[1..] == a[1..] + [c] + s;
    }
  }

  // A name: no spaces, no brackets.
  predicate NameLike(a: Text)
  {
    a != [] && 32 !in a && 40 !in a && 41 !in a
  }

  // "name (ops ver)"
  function Alternative(name: Text, ops: Text, ver: Text): Text
  {
    name + [32, 40] + ops + [32] + ver + [41]
  }

  lemma {:induction false} AlternativeTail(ops: Text, ver: Text)
    requires ops != [] && (forall c | c in ops :: c in {60, 61, 62}) && NameLike(ver)
    ensures var v := ops + ([32] + ver + [41]);
            && SpanAll(v, {60, 61, 62}) == |ops| && v[..|ops|] == ops
            && var w := SkipSpaces(v[|ops|..]); w == ver + [41] && SpanNone(w, {32, 41}) == |ver| && w[..|ver|] == ver
  {
    var v := ops + ([32] + ver + [41]);
    SpanAllAt(ops, {60, 61, 62}, [32] + ver + [41]);
    assert v[|ops|..] == [32] + (ver + [41]);
    assert ver[0] in ver;
    OneSpace(ver + [41]);
    assert ([32] + (ver + [41]))[1..] == ver + [41];
    SpanNoneAt(ver, {32, 41}, [41]);
  }

  lemma {:induction false} BracketsSkipped(s: Text)
    requires s != [] && s[0] != 32 && s[0] != 40
    ensures SpanAll([40] + s, {32, 40}) == 1
  {
    assert ([40] + s)[1..] == s;
  }

  // Name, operator and version of an alternative.
  lemma {:induction false} AlternativeParts(name: Text, ops: Text, ver: Text)
    requires NameLike(name) && ops != [] && (forall c | c in ops :: c in {60, 61, 62}) && NameLike(ver)
    ensures var alt := Alternative(name, ops, ver);
            NameText(alt) == name && OperatorText(alt) == ops && WantedVersion(alt) == ver && VersionText(alt).Some?
  {
    hide SpanNone, SpanAll, FirstOf, SkipSpaces;
    var alt, t := Alternative(name, ops, ver), ops + ([32] + ver + [41]);
    assert alt == name + ([32] + ([40] + t)) && alt == (name + [32]) + [40] + t;
    SpanNoneAt(name, {32, 40}, [32] + ([40] + t));
    assert alt[..|name|] == name;
    FirstOfAt(name + [32], 40, t);
    assert alt[|name| + 1..] == [40] + t;
    assert ops[0] in ops;
    BracketsSkipped(t);
    assert ([40] + t)[1..] == t;
    AlternativeTail(ops, ver);
  }

  // The edge of an alternative with a version: << and < ask for an older one, <= for an older or equal one, = for an equal
  // one, >= for a newer or equal one, >> and > for a newer one; anything else is illegal.
  lemma {:induction false} AlternativeMeans(name: Text, ops: Text, ver: Text, e: Edge, kind: EdgeType, index: Text -> nat)
    requires NameLike(name) && ops != [] && (forall c | c in ops :: c in {60, 61, 62}) && NameLike(ver)
    ensures IllegalOperator(Alternative(name, ops, ver)) <==>
              ops !in {[60], [60, 60], [60, 61], [61], [62, 61], [62], [62, 62]}
    ensures EdgeFor(e, Alternative(name, ops, ver), kind, index) ==>
              && e.kind == kind && e.name == index(name) && e.version == index(ver)
              && e.op == if ops == [60] || ops == [60, 60] then VerLess else if ops == [60, 61] then VerLessEqual
                         else if ops == [61] then VerEqual else if ops == [62, 61] then VerMoreEqual else VerMore
  {
    AlternativeParts(name, ops, ver);
    hide Alternative, NameText, OperatorText, WantedVersion, VersionText;
  }

  // A name on its own asks for any version, and stands for the version "ANY".
  lemma {:induction false} NameMeans(name: Text, e: Edge, kind: EdgeType, index: Text -> nat)
    requires NameLike(name)
    ensures !IllegalOperator(name)
    ensures EdgeFor(e, name, kind, index) ==>
              e.kind == kind && e.name == index(name) && e.version == index([65, 78, 89]) && e.op == VerAny
  {
    hide SpanNone, FirstOf;
    FirstOfAt(name, 40, []);
    SpanNoneAt(name, {32, 40}, []);
    assert name + [] == name && name[..|name|] == name;
  }

  // ---- fields and lines ----

  lemma {:induction false} TokensAt(x: Text, d: Byte, y: Text)
    requires x != [] && d !in x
    ensures Tokens(x + [d] + y, d) == [x] + Tokens([d] + y, d) && Tokens(x, d) == [x] && Tokens([d] + y, d) == Tokens(y, d)
  {
    hide Tokens, SpanNot;
    SpanNotAt(x, d, y);
    var s := x + [d] + y;
    assert x[0] in x && s[0] == x[0] && s[0] != d;
    assert s == x + ([d] + y) && x == x + [];
    OneToken(s, d, x, [d] + y);
    OneToken(x, d, x, []);
    NoToken(d);
    DelimiterSkipped(d, y);
  }

  lemma {:induction false} NoToken(d: Byte)
    ensures Tokens([], d) == []
  {
  }

  lemma {:induction false} DelimiterSkipped(d: Byte, y: Text)
    ensures Tokens([d] + y, d) == Tokens(y, d)
  {
    hide SpanNot;
    assert ([d] + y)[1..] == y;
    assert ([d] + y)[1 + Span(y, d)..] == y[Span(y, d)..];
  }

  lemma {:induction false} OneToken(s: Text, d: Byte, x: Text, t: Text)
    requires s == x + t && x != [] && s[0] != d && SpanNot(s, d) == |x|
    ensures Tokens(s, d) == [x] + Tokens(t, d)
  {
    hide SpanNot;
    assert s[0..] == s && s[..|x|] == x && s[|x|..] == t;
  }

  // Commas (44) separate the fields of a line.
  lemma {:induction false} FieldsApart(x: Text, y: Text)
    requires x != [] && 44 !in x
    ensures Tokens(x + [44] + y, COMMA) == [x] + Tokens(y, COMMA) && Tokens(x, COMMA) == [x]
  {
    TokensAt(x, 44, y);
  }

  // Bars (124) separate the alternatives of a field; a dependency with a bar is a choice, one without is none.
  lemma {:induction false} AlternativesApart(x: Text, y: Text, kind: EdgeType)
    requires x != [] && x[0] != 32 && 124 !in x
    ensures AltsOf(x + [124] + y) == [x] + Tokens(y, BAR) && AltsOf(x) == [x] && (124 !in y && y != [] ==> Tokens(y, BAR) == [y])
    ensures IsChoice(x + [124] + y, kind) <==> kind == Depends || kind == PreDepends
    ensures !IsChoice(x, kind)
  {
    hide Tokens, SkipSpaces;
    var s := x + [124] + y;
    assert s[0] == x[0];
    NoSpace(s);
    NoSpace(x);
    TokensAt(x, 124, y);
    if 124 !in y && y != [] { TokensAt(y, 124, []); }
    assert |s| > |x|;
  }

  lemma {:induction false} NoSpace(s: Text)
    requires s != [] && s[0] != 32
    ensures SkipSpaces(s) == s
  {
  }

  // ---- which packages an edge accepts ----

  // The package must have the name; the operator compares its version with the one asked for.
  lemma {:induction false} MatchMeans(names: seq<Option<Text>>, n: Node, name: nat, version: nat, op: Operator)
    ensures n.name != name ==> !Matches(names, n, name, version, op)
    ensures var c := CompareVersions(ParseVersion(NameAt(names, n.version)), ParseVersion(NameAt(names, version)));
            n.name == name ==>
              && Matches(names, n, name, version, VerAny) && !Matches(names, n, name, version, VerNull)
              && (Matches(names, n, name, version, VerLess) <==> c < 0) && (Matches(names, n, name, version, VerLessEqual) <==> c <= 0)
              && (Matches(names, n, name, version, VerEqual) <==> c == 0)
              && (Matches(names, n, name, version, VerMoreEqual) <==> c >= 0) && (Matches(names, n, name, version, VerMore) <==> c > 0)
  {
    hide CompareVersions, ParseVersion, NameAt;
  }

  // Provides edges, and nothing else, provide a name.
  lemma {:induction false} ProvidesMeans(es: seq<Edge>, n: Node, needle: nat)
    requires n.edges == es
    ensures Provided(n, needle) <==> exists e :: e in es && e.kind == Provides && e.name == needle
  {
    if Provided(n, needle) {
      var j :| 0 <= j < |es| && es[j].kind == Provides && es[j].name == needle;
      assert es[j] in es;
    }
  }

  // ---- hash values ----

  // One character is its own hash value; each further one adds itself and the one before, shifted by its product with its
  // index modulo 24.
  lemma {:induction false} HashMeans(s: Text, a: Byte, b: Byte, p: nat)
    requires p >= 2
    ensures HashNum([]) == 0 && HashNum([a]) == a
    ensures HashNum(s + [a, b]) == HashNum(s + [a]) + Shl(a + b, b * (|s| + 1) % 24)
    ensures HashStart(s, p) == HashNum(s) % 18446744073709551616 % 4294967296 % p
    ensures HashDec(s, p) == 1 + HashNum(s) % 18446744073709551616 % (p - 1)
  {
    assert (s + [a, b])[..|s| + 1] == s + [a];
    hide Shl;
  }
}
