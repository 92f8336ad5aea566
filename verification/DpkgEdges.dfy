// add_split_dependencies of dpkg.c: one edge for every alternative, and an OR edge before every choice.
module DpkgEdges {
  import opened Lz77
  import opened DpkgVersion
  import opened DpkgTables
  import opened DpkgDeps

  // strtok: the maximal non-empty pieces without the delimiter
  function Tokens(s: Text, delim: Byte): seq<Text>
    decreases |s|
  {
    var t := s[Span(s, delim)..];
    if t == [] then []
    else
      var n := SpanNot(t, delim);
      assert n > 0;
      [t[..n]] + Tokens(t[n..], delim)
  }

  // strcspn(s, " (") and the like
  function SpanNone(s: Text, stop: set<Byte>): (n: nat)
    ensures n <= |s|
  {
    if s == [] || s[0] in stop then 0 else 1 + SpanNone(s[1..], stop)
  }

  function SpanAll(s: Text, chars: set<Byte>): (n: nat)
    ensures n <= |s|
  {
    if s == [] || s[0] !in chars then 0 else 1 + SpanAll(s[1..], chars)
  }

  const COMMA: Byte := 44
  const BAR: Byte := 124
  const OPEN: Byte := 40
  const CLOSE: Byte := 41
  const LESS: Byte := 60
  const EQUAL: Byte := 61
  const MORE: Byte := 62

  // "ANY"
  const ANY: Text := [65, 78, 89]

  function SkipSpaces(s: Text): Text
  {
    s[Span(s, SPACE)..]
  }

  // The text after the first bracket, without brackets and spaces; None if there is no bracket
  function VersionText(alt: Text): Option<Text>
  {
    var i := FirstOf(alt, OPEN);
    if i == |alt| then None else Some(alt[i..][SpanAll(alt[i..], {SPACE, OPEN})..])
  }

  // What an alternative names, and the version it asks for.
  function NameText(alt: Text): Text
  {
    alt[..SpanNone(alt, {SPACE, OPEN})]
  }

  function WantedVersion(alt: Text): Text
  {
    match VersionText(alt)
    case None => ANY
    case Some(v) =>
      var w := SkipSpaces(v[SpanAll(v, {LESS, EQUAL, MORE})..]);
      w[..SpanNone(w, {SPACE, CLOSE})]
  }

  // The operator; None for an illegal one
  function OperatorOf(ops: Text): Option<Operator>
  {
    if ops == [EQUAL] then Some(VerEqual)
    else if ops == [LESS] || ops == [LESS, LESS] then Some(VerLess)
    else if ops == [LESS, EQUAL] then Some(VerLessEqual)
    else if ops == [MORE] || ops == [MORE, MORE] then Some(VerMore)
    else if ops == [MORE, EQUAL] then Some(VerMoreEqual)
    else None
  }

  // The operator characters of an alternative with a version.
  function OperatorText(alt: Text): Text
  {
    match VersionText(alt)
    case None => []
    case Some(v) => v[..SpanAll(v, {LESS, EQUAL, MORE})]
  }

  ghost predicate IllegalOperator(alt: Text)
  {
    OperatorText(alt) != [] && OperatorOf(OperatorText(alt)) == None
  }

  // e is the edge of an alternative. With a version but no operator characters its operator is whatever it was.
  ghost predicate EdgeFor(e: Edge, alt: Text, kind: EdgeType, index: Text -> nat)
  {
    && e.kind == kind && e.name == index(NameText(alt)) && e.version == index(WantedVersion(alt)) && !IllegalOperator(alt)
    && (VersionText(alt) == None ==> e.op == VerAny)
    && (OperatorText(alt) != [] ==> Some(e.op) == OperatorOf(OperatorText(alt)))
  }

  // One alternative; None exactly for an illegal operator.
  method MakeEdge(alt: Text, kind: EdgeType, index: Text -> nat) returns (e: Option<Edge>)
    ensures e == None <==> IllegalOperator(alt)
    ensures e.Some? ==> EdgeFor(e.value, alt, kind, index)
  {
    var op: Operator := *;
    match VersionText(alt) {
      case None => op := VerAny;
      case Some(v) =>
        var ops := v[..SpanAll(v, {LESS, EQUAL, MORE})];
        if ops != [] {
          if OperatorOf(ops) == None {
            return None;
          }
          op := OperatorOf(ops).value;
        }
    }
    e := Some(Edge(kind, index(NameText(alt)), index(WantedVersion(alt)), op));
  }

  // ---- one field ----

  // The alternatives of a field.
  function AltsOf(field: Text): seq<Text>
  {
    Tokens(SkipSpaces(field), BAR)
  }

  // A field with more than one alternative, as strcmp(field, field2) tells.
  predicate IsChoice(field: Text, kind: EdgeType)
  {
    (kind == Depends || kind == PreDepends) && AltsOf(field) != [] && SkipSpaces(field) != AltsOf(field)[0]
  }

  // The OR edge of a choice of n alternatives.
  function OrEdge(field: Text, kind: EdgeType, index: Text -> nat, n: nat): Edge
  {
    Edge(if kind == Depends then OrDepends else OrPreDepends, index(SkipSpaces(field)), n, VerNull)
  }

  // One edge for each of the first alternatives of the field.
  ghost predicate AltEdges(alts: seq<Edge>, field: Text, kind: EdgeType, index: Text -> nat)
  {
    |alts| <= |AltsOf(field)| && forall i | 0 <= i < |alts| :: EdgeFor(alts[i], SkipSpaces(AltsOf(field)[i]), kind, index)
  }

  function Headed(alts: seq<Edge>, field: Text, kind: EdgeType, index: Text -> nat): seq<Edge>
  {
    (if IsChoice(field, kind) then [OrEdge(field, kind, index, |alts|)] else []) + alts
  }

  // es are the edges of a field: before a choice an OR edge that counts the alternatives, then one edge for each.
  ghost predicate FieldIs(es: seq<Edge>, field: Text, kind: EdgeType, index: Text -> nat)
  {
    exists alts: seq<Edge> ::
      es == Headed(alts, field, kind, index) && AltEdges(alts, field, kind, index) && |alts| == |AltsOf(field)| > 0
  }

  // Where the source gives up on a field, or has no alternative to look at.
  ghost predicate BadField(field: Text)
  {
    AltsOf(field) == [] || exists i | 0 <= i < |AltsOf(field)| :: IllegalOperator(SkipSpaces(AltsOf(field)[i]))
  }

  // One more alternative: the counter of the OR edge goes up, and the edge is appended.
  lemma {:induction false} HeadedNext(alts: seq<Edge>, field: Text, kind: EdgeType, index: Text -> nat, e: Edge)
    requires AltEdges(alts, field, kind, index) && |alts| < |AltsOf(field)|
    requires EdgeFor(e, SkipSpaces(AltsOf(field)[|alts|]), kind, index)
    ensures AltEdges(alts + [e], field, kind, index)
    ensures var es := Headed(alts, field, kind, index);
            && (IsChoice(field, kind) ==> es != [])
            && Headed(alts + [e], field, kind, index)
               == (if IsChoice(field, kind) then es[0 := es[0].(version := es[0].version + 1)] else es) + [e]
  {
    hide EdgeFor, AltsOf, SkipSpaces;
    var es := Headed(alts, field, kind, index);
    if IsChoice(field, kind) {
      assert es[0 := es[0].(version := es[0].version + 1)] == [OrEdge(field, kind, index, |alts| + 1)] + alts;
    }
  }

  method AddAlternative(es: seq<Edge>, choice: bool, tok: Text, ghost field: Text, kind: EdgeType, index: Text -> nat, ghost alts: seq<Edge>)
    returns (r: Option<seq<Edge>>)
    requires AltEdges(alts, field, kind, index) && |alts| < |AltsOf(field)| && tok == AltsOf(field)[|alts|]
    requires choice == IsChoice(field, kind) && es == Headed(alts, field, kind, index)
    ensures r == None <==> IllegalOperator(SkipSpaces(tok))
    ensures r.Some? ==> r.value != []
    ensures r.Some? ==> var alts' := alts + [r.value[|r.value| - 1]];
                        AltEdges(alts', field, kind, index) && r.value == Headed(alts', field, kind, index)
  {
    hide EdgeFor, IllegalOperator, AltsOf, SkipSpaces, IsChoice, Headed, AltEdges;
    var e := MakeEdge(SkipSpaces(tok), kind, index);
    if e == None {
      return None;
    }
    HeadedNext(alts, field, kind, index, e.value);
    var es' := es;
    if choice {
      es' := es'[0 := es'[0].(version := es'[0].version + 1)];
    }
    r := Some(es' + [e.value]);
  }

  // One field of the line.
  method AddField(es0: seq<Edge>, field: Text, kind: EdgeType, index: Text -> nat) returns (r: Option<seq<Edge>>, ghost es: seq<Edge>)
    ensures r == None <==> BadField(field)
    ensures r.Some? ==> r.value == es0 + es && FieldIs(es, field, kind, index)
  {
    hide EdgeFor, IllegalOperator, AltsOf, SkipSpaces, IsChoice, Headed, AltEdges, FieldIs, BadField, OrEdge, Tokens;
    es := [];
    var toks := Tokens(SkipSpaces(field), BAR);
    AltsAre(field, kind);
    FieldIsBad(field);
    if toks == [] {
      return None, [];
    }
    var choice := (kind == Depends || kind == PreDepends) && SkipSpaces(field) != toks[0];
    var new' := if choice then [OrEdge(field, kind, index, 0)] else [];
    ghost var alts: seq<Edge> := [];
    NoAlternatives(field, kind, index);
    for i := 0 to |toks|
      invariant |alts| == i && AltEdges(alts, field, kind, index) && new' == Headed(alts, field, kind, index)
      invariant forall j | 0 <= j < i :: !IllegalOperator(SkipSpaces(toks[j]))
    {
      var a := AddAlternative(new', choice, toks[i], field, kind, index, alts);
      if a == None {
        return None, [];
      }
      new' := a.value;
      alts := alts + [new'[|new'| - 1]];
    }
    es := new';
    FieldDone(alts, field, kind, index);
    r := Some(es0 + new');
  }

  lemma {:induction false} FieldDone(alts: seq<Edge>, field: Text, kind: EdgeType, index: Text -> nat)
    requires AltEdges(alts, field, kind, index) && |alts| == |AltsOf(field)| > 0
    ensures FieldIs(Headed(alts, field, kind, index), field, kind, index)
  {
  }

  lemma {:induction false} FieldIsBad(field: Text)
    ensures BadField(field) <==> AltsOf(field) == [] || exists i | 0 <= i < |AltsOf(field)| :: IllegalOperator(SkipSpaces(AltsOf(field)[i]))
  {
  }

  lemma {:induction false} AltsAre(field: Text, kind: EdgeType)
    ensures AltsOf(field) == Tokens(SkipSpaces(field), BAR)
    ensures AltsOf(field) != [] ==>
              IsChoice(field, kind) == ((kind == Depends || kind == PreDepends) && SkipSpaces(field) != Tokens(SkipSpaces(field), BAR)[0])
  {
  }

  lemma {:induction false} NoAlternatives(field: Text, kind: EdgeType, index: Text -> nat)
    ensures AltEdges([], field, kind, index)
    ensures Headed([], field, kind, index) == if IsChoice(field, kind) then [OrEdge(field, kind, index, 0)] else []
  {
  }

  // ---- the whole line ----

  function Concat(groups: seq<seq<Edge>>): seq<Edge>
  {
    if groups == [] then [] else Concat(groups[..|groups| - 1]) + groups[|groups| - 1]
  }

  // The edges of the first fields of a line.
  ghost predicate FieldsAre(groups: seq<seq<Edge>>, fields: seq<Text>, kind: EdgeType, index: Text -> nat)
  {
    |groups| <= |fields| && forall i | 0 <= i < |groups| :: FieldIs(groups[i], fields[i], kind, index)
  }

  // add_split_dependencies: the edges of the fields, one field after the other; None exactly where the line has no
  // field or one that the source gives up on. index gives the index of a name.
  method AddSplitDependencies(es0: seq<Edge>, line: Text, kind: EdgeType, index: Text -> nat)
    returns (r: Option<seq<Edge>>, ghost groups: seq<seq<Edge>>)
    ensures r == None <==> Tokens(line, COMMA) == [] || exists i | 0 <= i < |Tokens(line, COMMA)| :: BadField(Tokens(line, COMMA)[i])
    ensures r.Some? ==> r.value == es0 + Concat(groups) && |groups| == |Tokens(line, COMMA)|
                        && FieldsAre(groups, Tokens(line, COMMA), kind, index)
  {
    hide FieldIs, BadField, Tokens;
    var fields := Tokens(line, COMMA);
    groups := [];
    if fields == [] {
      return None, [];
    }
    var es := es0;
    assert es0 + Concat([]) == es0;
    for i := 0 to |fields|
      invariant |groups| == i && es == es0 + Concat(groups) && FieldsAre(groups, fields, kind, index)
      invariant forall j | 0 <= j < i :: !BadField(fields[j])
    {
      var f;
      ghost var g;
      f, g := AddField(es, fields[i], kind, index);
      if f == None {
        return None, [];
      }
      assert (groups + [g])[..i] == groups;
      assert es0 + Concat(groups) + g == es0 + Concat(groups + [g]);
      groups := groups + [g];
      es := f.value;
    }
    r := Some(es);
  }

  // ---- what the edges mean ----

  // Groups do not reach across a seam.
  lemma {:induction false} GroupedAppend(es: seq<Edge>, j: nat, more: seq<Edge>)
    requires Grouped(es, j) && Grouped(es + more, |es|)
    ensures Grouped(es + more, j)
    decreases |es| - j
  {
    if j < |es| {
      if IsOr(es[j]) {
        var n := es[j].version;
        GroupedAppend(es, j + 1 + n, more);
        forall i | j < i <= j + n ensures (es + more)[i].kind == Base((es + more)[j].kind) {
          assert (es + more)[i] == es[i];
        }
      } else {
        GroupedAppend(es, j + 1, more);
      }
    }
  }

  lemma {:induction false} GroupedShift(pre: seq<Edge>, es: seq<Edge>, j: nat)
    requires Grouped(es, j)
    ensures Grouped(pre + es, |pre| + j)
    decreases |es| - j
  {
    var all, k := pre + es, |pre| + j;
    if j < |es| {
      assert all[k] == es[j];
      if IsOr(es[j]) {
        GroupedShift(pre, es, j + 1 + es[j].version);
        forall i | k < i <= k + es[j].version ensures all[i].kind == Base(all[k].kind) {
          assert all[i] == es[i - |pre|];
        }
      } else {
        GroupedShift(pre, es, j + 1);
      }
    }
  }

  lemma {:induction false} GroupedBoth(a: seq<Edge>, b: seq<Edge>)
    requires Grouped(a, 0) && Grouped(b, 0)
    ensures Grouped(a + b, 0)
  {
    GroupedShift(a, b, 0);
    GroupedAppend(a, 0, b);
  }

  lemma {:induction false} MetShift(pre: seq<Edge>, es: seq<Edge>, j: nat, ok: Edge -> bool)
    requires Grouped(es, j)
    ensures AllMet(pre + es, |pre| + j, ok) <==> AllMet(es, j, ok)
    decreases |es| - j
  {
    var all, k := pre + es, |pre| + j;
    if j < |es| {
      assert all[k] == es[j];
      if IsOr(es[j]) {
        var n := es[j].version;
        MetShift(pre, es, j + 1 + n, ok);
        AllMetOr(all, k, ok);
        AllMetOr(es, j, ok);
        OneOfShift(pre, es, j + 1, j + 1 + n, ok);
      } else {
        MetShift(pre, es, j + 1, ok);
      }
    }
  }

  lemma {:induction false} OneOfShift(pre: seq<Edge>, es: seq<Edge>, lo: nat, hi: nat, ok: Edge -> bool)
    requires hi <= |es|
    ensures OneOf(pre + es, |pre| + lo, |pre| + hi, ok) <==> OneOf(es, lo, hi, ok)
  {
    var all, p := pre + es, |pre|;
    if OneOf(all, p + lo, p + hi, ok) {
      var i :| p + lo <= i < p + hi && i < |all| && ok(all[i]);
      assert all[i] == es[i - p];
    }
    if OneOf(es, lo, hi, ok) {
      var i :| lo <= i < hi && i < |es| && ok(es[i]);
      assert all[p + i] == es[i];
    }
  }

  lemma {:induction false} MetAppend(es: seq<Edge>, j: nat, more: seq<Edge>, ok: Edge -> bool)
    requires Grouped(es, j)
    ensures AllMet(es + more, j, ok) <==> AllMet(es, j, ok) && AllMet(es + more, |es|, ok)
    decreases |es| - j
  {
    var all := es + more;
    if j < |es| {
      assert all[j] == es[j];
      if IsOr(es[j]) {
        var n := es[j].version;
        MetAppend(es, j + 1 + n, more, ok);
        AllMetOr(all, j, ok);
        AllMetOr(es, j, ok);
        OneOfPrefix(es, more, j + 1, j + 1 + n, ok);
      } else {
        MetAppend(es, j + 1, more, ok);
      }
    }
  }

  lemma {:induction false} OneOfPrefix(es: seq<Edge>, more: seq<Edge>, lo: nat, hi: nat, ok: Edge -> bool)
    requires hi <= |es|
    ensures OneOf(es + more, lo, hi, ok) <==> OneOf(es, lo, hi, ok)
  {
    var all := es + more;
    if OneOf(all, lo, hi, ok) {
      var i :| lo <= i < hi && i < |all| && ok(all[i]);
      assert all[i] == es[i];
    }
    if OneOf(es, lo, hi, ok) {
      var i :| lo <= i < hi && i < |es| && ok(es[i]);
      assert all[i] == es[i];
    }
  }

  // The groups of two lists are met exactly when those of each are.
  lemma {:induction false} MetBoth(a: seq<Edge>, b: seq<Edge>, ok: Edge -> bool)
    requires Grouped(a, 0) && Grouped(b, 0)
    ensures AllMet(a + b, 0, ok) <==> AllMet(a, 0, ok) && AllMet(b, 0, ok)
  {
    hide AllMet, Grouped;
    MetAppend(a, 0, b, ok);
    MetShift(a, b, 0, ok);
  }

  // Some alternative of a field is met.
  ghost predicate FieldMet(es: seq<Edge>, ok: Edge -> bool)
  {
    exists i | 0 <= i < |es| && !IsOr(es[i]) :: ok(es[i])
  }

  // A field that is its first token has no other.
  lemma {:induction false} OnlyToken(s: Text, delim: Byte)
    requires Tokens(s, delim) != [] && Tokens(s, delim)[0] == s
    ensures |Tokens(s, delim)| == 1
  {
    var t := s[Span(s, delim)..];
    var n := SpanNot(t, delim);
    assert Tokens(s, delim)[0] == t[..n];
    assert t[n..] == [];
  }

  lemma {:induction false} ChoiceMeans(alts: seq<Edge>, o: Edge, ok: Edge -> bool)
    requires IsOr(o) && o.version == |alts| > 0 && forall i | 0 <= i < |alts| :: alts[i].kind == Base(o.kind)
    ensures Grouped([o] + alts, 0) && (AllMet([o] + alts, 0, ok) <==> FieldMet([o] + alts, ok))
  {
    var es := [o] + alts;
    assert forall i | 1 <= i < |es| :: es[i] == alts[i - 1];
    AllMetOr(es, 0, ok);
    if FieldMet(es, ok) {
      var i :| 0 <= i < |es| && !IsOr(es[i]) && ok(es[i]);
      assert OneOf(es, 1, |es|, ok);
    }
  }

  lemma {:induction false} PlainMeans(e: Edge, ok: Edge -> bool)
    requires IsDep(e)
    ensures Grouped([e], 0) && (AllMet([e], 0, ok) <==> FieldMet([e], ok))
  {
    assert FieldMet([e], ok) <==> ok([e][0]);
  }

  // The edges of a dependency field are met exactly when one of its alternatives is.
  lemma {:induction false} FieldMeans(es: seq<Edge>, field: Text, kind: EdgeType, index: Text -> nat, ok: Edge -> bool)
    requires FieldIs(es, field, kind, index) && (kind == Depends || kind == PreDepends)
    ensures Grouped(es, 0) && (AllMet(es, 0, ok) <==> FieldMet(es, ok))
  {
    hide Grouped, AllMet, FieldMet, Tokens, SkipSpaces, NameText, WantedVersion, IllegalOperator, OperatorText, VersionText, OperatorOf;
    var alts: seq<Edge> :| es == Headed(alts, field, kind, index) && AltEdges(alts, field, kind, index) && |alts| == |AltsOf(field)| > 0;
    if IsChoice(field, kind) {
      ChoiceMeans(alts, OrEdge(field, kind, index, |alts|), ok);
    } else {
      OnlyToken(SkipSpaces(field), BAR);
      assert es == [alts[0]];
      PlainMeans(alts[0], ok);
    }
  }

  // Fields of any other kind are no dependencies.
  lemma {:induction false} OtherMeans(es: seq<Edge>, j: nat, ok: Edge -> bool)
    requires j <= |es| && forall i | 0 <= i < |es| :: !IsOr(es[i]) && !IsDep(es[i])
    ensures Grouped(es, j) && AllMet(es, j, ok)
    decreases |es| - j
  {
    if j < |es| { OtherMeans(es, j + 1, ok); }
  }

  lemma {:induction false} FieldGroup(es: seq<Edge>, field: Text, kind: EdgeType, index: Text -> nat, ok: Edge -> bool)
    requires FieldIs(es, field, kind, index) && kind != OrDepends && kind != OrPreDepends
    ensures Grouped(es, 0) && (AllMet(es, 0, ok) <==> (kind == Depends || kind == PreDepends ==> FieldMet(es, ok)))
  {
    if kind == Depends || kind == PreDepends {
      hide FieldIs;
      FieldMeans(es, field, kind, index, ok);
    } else {
      hide Tokens, SkipSpaces, NameText, WantedVersion, IllegalOperator, OperatorText, VersionText, OperatorOf, Grouped, AllMet;
      OtherMeans(es, 0, ok);
    }
  }

  // The edges of a line, after edges es0: every OR edge counts its alternatives, and they are all met exactly when
  // those before are and every field of a dependency line has an alternative that is met.
  lemma {:induction false} LineMeans(es0: seq<Edge>, groups: seq<seq<Edge>>, fields: seq<Text>, kind: EdgeType, index: Text -> nat, ok: Edge -> bool)
    requires Grouped(es0, 0) && FieldsAre(groups, fields, kind, index) && kind != OrDepends && kind != OrPreDepends
    ensures Grouped(es0 + Concat(groups), 0)
    ensures AllMet(es0 + Concat(groups), 0, ok) <==>
              AllMet(es0, 0, ok) && (kind == Depends || kind == PreDepends ==> forall i | 0 <= i < |groups| :: FieldMet(groups[i], ok))
    decreases |groups|
  {
    hide Grouped, AllMet, FieldMet, FieldIs;
    if groups == [] {
      assert es0 + Concat(groups) == es0;
    } else {
      var k := |groups| - 1;
      var gs, g := groups[..k], groups[k];
      LineMeans(es0, gs, fields, kind, index, ok);
      FieldGroup(g, fields[k], kind, index, ok);
      GroupedBoth(es0 + Concat(gs), g);
      MetBoth(es0 + Concat(gs), g, ok);
      assert es0 + Concat(groups) == (es0 + Concat(gs)) + g;
      LastGroup(groups, k, ok);
    }
  }

  lemma {:induction false} LastGroup(groups: seq<seq<Edge>>, k: nat, ok: Edge -> bool)
    requires k + 1 == |groups|
    ensures (forall i | 0 <= i < |groups| :: FieldMet(groups[i], ok))
            <==> (forall i | 0 <= i < k :: FieldMet(groups[..k][i], ok)) && FieldMet(groups[k], ok)
  {
    hide FieldMet;
    assert forall i | 0 <= i < k :: groups[..k][i] == groups[i];
  }
}
