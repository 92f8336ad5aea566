// Dependencies in dpkg.c: the edges of a package, and the pass of check_deps that skips satisfied alternatives.
module DpkgDeps {
  import opened Lz77
  import opened DpkgVersion
  import opened DpkgProbe
  import opened DpkgTables

  // ---- groups of alternatives ----

  predicate IsOr(e: Edge)
  {
    e.kind == OrPreDepends || e.kind == OrDepends
  }

  predicate IsDep(e: Edge)
  {
    e.kind == PreDepends || e.kind == Depends
  }

  // The type of the alternatives that follow an OR edge.
  function Base(kind: EdgeType): EdgeType
  {
    if kind == OrPreDepends then PreDepends else Depends
  }

  // Every OR edge counts the edges that follow it as its alternatives.
  ghost predicate Grouped(es: seq<Edge>, j: nat)
    decreases |es| - j
  {
    if j >= |es| then j == |es|
    else if IsOr(es[j]) then
      var n := es[j].version;
      && n >= 1 && j + 1 + n <= |es| && (forall i | j < i <= j + n :: es[i].kind == Base(es[j].kind))
      && Grouped(es, j + 1 + n)
    else Grouped(es, j + 1)
  }

  // Every group from j on has an alternative that ok accepts; a plain dependency is a group of its own.
  ghost predicate AllMet(es: seq<Edge>, j: nat, ok: Edge -> bool)
    decreases |es| - j
  {
    if j >= |es| then true
    else if IsOr(es[j]) then
      (exists i | j < i <= j + es[j].version && i < |es| :: ok(es[i])) && AllMet(es, j + 1 + es[j].version, ok)
    else if IsDep(es[j]) then ok(es[j]) && AllMet(es, j + 1, ok)
    else AllMet(es, j + 1, ok)
  }

  // Alternatives lo..hi of a group, then the groups after it.
  ghost predicate OneOf(es: seq<Edge>, lo: nat, hi: nat, ok: Edge -> bool)
  {
    exists i | lo <= i < hi && i < |es| :: ok(es[i])
  }

  lemma {:induction false} OneOfNext(es: seq<Edge>, lo: nat, hi: nat, ok: Edge -> bool)
    requires lo < hi <= |es|
    ensures OneOf(es, lo, hi, ok) <==> ok(es[lo]) || OneOf(es, lo + 1, hi, ok)
  {
  }

  lemma {:induction false} AllMetOr(es: seq<Edge>, j: nat, ok: Edge -> bool)
    requires j < |es| && IsOr(es[j])
    ensures AllMet(es, j, ok) <==> OneOf(es, j + 1, j + 1 + es[j].version, ok) && AllMet(es, j + 1 + es[j].version, ok)
  {
    var n := es[j].version;
    if OneOf(es, j + 1, j + 1 + n, ok) {
      var i :| j + 1 <= i < j + 1 + n && i < |es| && ok(es[i]);
      assert j < i <= j + n;
    }
    if exists i | j < i <= j + n && i < |es| :: ok(es[i]) {
      var i :| j < i <= j + n && i < |es| && ok(es[i]);
      assert j + 1 <= i < j + 1 + n;
    }
  }

  // Where the pass stands: between groups, or at alternative j of the group at root, with none met so far.
  ghost predicate At(es: seq<Edge>, j: nat, left: nat, root: Option<nat>, ok: Edge -> bool)
  {
    if root.Some? && left > 0 then
      var r := root.value;
      && r < j && r < |es| && IsOr(es[r]) && j + left == r + 1 + es[r].version <= |es| && Grouped(es, j + left)
      && (forall i | r < i <= r + es[r].version :: es[i].kind == Base(es[r].kind))
      && (AllMet(es, 0, ok) <==> OneOf(es, j, j + left, ok) && AllMet(es, j + left, ok))
    else
      left <= 1 && Grouped(es, j) && (AllMet(es, 0, ok) <==> AllMet(es, j, ok))
  }

  // An OR edge starts a group.
  lemma {:induction false} EnterGroup(es: seq<Edge>, j: nat, left: nat, root: Option<nat>, ok: Edge -> bool)
    requires At(es, j, left, root, ok) && j < |es| && IsOr(es[j])
    ensures At(es, j + 1, es[j].version, Some(j), ok)
  {
    AllMetOr(es, j, ok);
    hide AllMet, OneOf;
  }

  // An edge that is no dependency.
  lemma {:induction false} PassOther(es: seq<Edge>, j: nat, left: nat, root: Option<nat>, ok: Edge -> bool)
    requires At(es, j, left, root, ok) && j < |es| && !IsOr(es[j]) && !IsDep(es[j])
    ensures (root == None || left == 0) && left <= 1 && At(es, j + 1, 1, None, ok)
  {
    hide OneOf;
  }

  // A dependency on its own.
  lemma {:induction false} PassPlain(es: seq<Edge>, j: nat, left: nat, root: Option<nat>, ok: Edge -> bool)
    requires At(es, j, left, root, ok) && (root == None || left == 0) && j < |es| && IsDep(es[j])
    ensures left <= 1 && (if ok(es[j]) then At(es, j + 1, 0, None, ok) else !AllMet(es, 0, ok))
  {
    hide OneOf;
  }

  // An alternative of a group.
  lemma {:induction false} PassAlternative(es: seq<Edge>, j: nat, left: nat, root: Option<nat>, ok: Edge -> bool)
    requires At(es, j, left, root, ok) && root.Some? && left > 0
    ensures root.value < |es| && j < |es| && es[j].kind == Base(es[root.value].kind) && IsDep(es[j])
    ensures if ok(es[j]) then At(es, j + left, 0, root, ok)
            else if left == 1 then !AllMet(es, 0, ok)
            else At(es, j + 1, left - 1, root, ok)
  {
    OneOfNext(es, j, j + left, ok);
    if left == 1 { assert !OneOf(es, j + 1, j + 1, ok); }
    hide AllMet, OneOf, Grouped;
  }

  // ---- what a package and its status say ----

  // strcspn and strspn with a single character, and strcspn(s, " \\n")
  function SpanNot(s: Text, c: Byte): (n: nat)
    ensures n <= |s| && (n < |s| ==> s[n] == c) && forall i | 0 <= i < n :: s[i] != c
  {
    if s == [] || s[0] == c then 0 else 1 + SpanNot(s[1..], c)
  }

  function Span(s: Text, c: Byte): (n: nat)
    ensures n <= |s| && (n < |s| ==> s[n] != c) && forall i | 0 <= i < n :: s[i] == c
  {
    if s == [] || s[0] != c then 0 else 1 + Span(s[1..], c)
  }

  const SPACE: Byte := 32
  const NEWLINE: Byte := 10

  // get_status: word number num of a status line
  function Word(s: Text, num: nat): Text
    requires num >= 1
  {
    if num == 1 then
      var line := s[..SpanNot(s, NEWLINE)];
      line[..SpanNot(line, SPACE)]
    else
      var t := s[SpanNot(s, SPACE)..];
      Word(t[Span(t, SPACE)..], num - 1)
  }

  // "install" and "installed"
  const INSTALL: Text := [105, 110, 115, 116, 97, 108, 108]
  const INSTALLED: Text := [105, 110, 115, 116, 97, 108, 108, 101, 100]

  // A pre-dependency wants an installed package, a dependency one that is to be installed.
  predicate Says(line: Text, kind: EdgeType)
  {
    (kind == PreDepends && Word(line, 3) == INSTALLED) || (kind == Depends && Word(line, 1) == INSTALL)
  }

  // The three tables.
  datatype View = View(names: seq<Option<Text>>, packages: seq<Option<Node>>, status: seq<Option<StatusNode>>) {

    ghost predicate Valid()
    {
      PackagesValid(names, packages) && StatusValid(names, packages, status) && StatusUnique(names, packages, status)
    }

    // The package called key has a status that says what kind asks for.
    ghost predicate Satisfies(key: Text, kind: EdgeType)
      requires Valid()
    {
      exists q | 0 <= q < STATUS_HASH_PRIME && status[q].Some? ::
        PackageName(names, packages, status[q].value.package) == key && Says(NameAt(names, status[q].value.status), kind)
    }

    // A stored package with the right version satisfies the edge directly,
    ghost predicate Direct(e: Edge)
      requires Valid()
    {
      exists q | 0 <= q < PACKAGE_HASH_PRIME && packages[q].Some? ::
        Matches(names, packages[q].value, e.name, e.version, e.op) && Satisfies(NameAt(names, packages[q].value.name), e.kind)
    }

    // or a package that provides its name does.
    ghost predicate Provider(e: Edge, q: int)
      requires Valid()
    {
      && 0 <= q < PACKAGE_HASH_PRIME && packages[q].Some? && Provided(packages[q].value, e.name)
      && Satisfies(NameAt(names, packages[q].value.name), e.kind)
    }

    ghost predicate Met(e: Edge)
    {
      Valid() && (Direct(e) || exists q :: Provider(e, q))
    }

    ghost function Judge(): Edge -> bool
    {
      e => Met(e)
    }

    // The package in slot i is to be installed.
    ghost predicate Wanted(i: nat)
      requires Valid() && i < PACKAGE_HASH_PRIME
    {
      packages[i].Some? && Satisfies(NameAt(names, packages[i].value.name), Depends)
    }

    // Every dependency group of every wanted package has an alternative that is met.
    ghost predicate Consistent()
      requires Valid()
    {
      forall i | 0 <= i < PACKAGE_HASH_PRIME && Wanted(i) :: AllMet(packages[i].value.edges, 0, Judge())
    }

    // Both searched tables have a free slot.
    ghost predicate Roomy()
    {
      && |packages| == PACKAGE_HASH_PRIME + 1 && |status| == STATUS_HASH_PRIME + 1
      && (exists q | 0 <= q < PACKAGE_HASH_PRIME :: packages[q] == None)
      && (exists q | 0 <= q < STATUS_HASH_PRIME :: status[q] == None)
    }

    // What holds of the tables between any two insertions: every name is stored once and is found, every package and
    // every status is found under its name, packages have interned names and grouped edges, every status is that of a
    // stored package, and no package has two.
    ghost predicate Sound()
    {
      && NamesValid(names) && Valid()
      && (forall i | 0 <= i < PACKAGE_HASH_PRIME && packages[i].Some? :: NodeSound(names, packages[i].value))
      && (forall q | 0 <= q < STATUS_HASH_PRIME && status[q].Some? :: StatusSound(names, packages, status[q].value))
    }
  }

  ghost predicate Interned(names: seq<Option<Text>>, i: nat)
  {
    i < NAME_HASH_PRIME && i < |names| && names[i].Some?
  }

  // Names and versions are interned, and every OR edge counts its alternatives.
  ghost predicate NodeSound(names: seq<Option<Text>>, n: Node)
  {
    && Interned(names, n.name) && Interned(names, n.version) && Grouped(n.edges, 0)
    && forall j | 0 <= j < |n.edges| :: Interned(names, n.edges[j].name) && (!IsOr(n.edges[j]) ==> Interned(names, n.edges[j].version))
  }

  ghost predicate StatusSound(names: seq<Option<Text>>, packages: seq<Option<Node>>, st: StatusNode)
  {
    st.package < PACKAGE_HASH_PRIME && st.package < |packages| && packages[st.package].Some? && Interned(names, st.status)
  }

  // The cleared tables.
  lemma {:induction false} EmptySound(v: View)
    requires |v.names| == NAME_HASH_PRIME + 1 && |v.packages| == PACKAGE_HASH_PRIME + 1 && |v.status| == STATUS_HASH_PRIME + 1
    requires forall i | 0 <= i < |v.names| :: v.names[i] == None
    requires forall i | 0 <= i < |v.packages| :: v.packages[i] == None
    requires forall i | 0 <= i < |v.status| :: v.status[i] == None
    ensures v.Sound() && v.Roomy()
  {
    NoNames(v.names);
    hide NamesValid;
    assert v.packages[0] == None && v.status[0] == None;
  }

  // A new name changes no other name, and so leaves packages and status where they are found.
  lemma {:induction false} NameKeeps(v: View, slot: nat, key: Text)
    requires v.Sound() && slot < NAME_HASH_PRIME && (v.names[slot] == None || v.names[slot] == Some(key))
    requires NamesValid(v.names[slot := Some(key)])
    ensures v.(names := v.names[slot := Some(key)]).Sound()
  {
    hide Reached, HashStart, HashDec, NamesValid, Grouped;
    NamesSize(v.names);
    var names' := v.names[slot := Some(key)];
    assert forall i: nat | Interned(v.names, i) :: Interned(names', i) && NameAt(names', i) == NameAt(v.names, i);
  }

  lemma {:induction false} StatusKeeps(v: View, num: nat, node: StatusNode)
    requires v.Sound() && num < STATUS_HASH_PRIME && StatusSound(v.names, v.packages, node)
    requires StatusValid(v.names, v.packages, v.status[num := Some(node)]) && StatusUnique(v.names, v.packages, v.status[num := Some(node)])
    ensures v.(status := v.status[num := Some(node)]).Sound()
  {
    hide Reached, HashStart, HashDec, NamesValid, NodeSound, StatusSound, PackagesValid;
  }

  // A package put into a free slot, or in place of one of the same name, leaves every status where it is found.
  lemma {:induction false} PackageKeeps(v: View, num: nat, node: Node)
    requires v.Sound() && num < PACKAGE_HASH_PRIME && NodeSound(v.names, node)
    requires v.packages[num].Some? ==> v.packages[num].value.name == node.name
    requires PackagesValid(v.names, v.packages[num := Some(node)])
    ensures v.(packages := v.packages[num := Some(node)]).Sound()
  {
    hide Reached, HashStart, HashDec, NamesValid, NodeSound, NameAt;
    var packages' := v.packages[num := Some(node)];
    forall q | 0 <= q < STATUS_HASH_PRIME && v.status[q].Some?
      ensures PackageName(v.names, packages', v.status[q].value.package) == PackageName(v.names, v.packages, v.status[q].value.package) {
      assert StatusSound(v.names, v.packages, v.status[q].value);
    }
  }

  class Database {
    const names: array<Option<Text>>
    const packages: array<Option<Node>>
    const status: array<Option<StatusNode>>

    // The cleared globals of dpkg_main.
    constructor ()
      ensures V().Sound() && V().Roomy() && fresh(names) && fresh(packages) && fresh(status)
    {
      names := new Option<Text>[NAME_HASH_PRIME + 1](_ => None);
      packages := new Option<Node>[PACKAGE_HASH_PRIME + 1](_ => None);
      status := new Option<StatusNode>[STATUS_HASH_PRIME + 1](_ => None);
      new;
      EmptySound(V());
    }

    ghost function V(): View
      reads names, packages, status
    {
      View(names[..], packages[..], status[..])
    }

    ghost predicate Valid()
      reads names, packages, status
    {
      V().Valid() && V().Roomy()
    }

    // search_name_hashtable keeps all three tables sound.
    method AddName(key: Text, ghost stop: nat) returns (slot: nat)
      requires V().Sound() && stop < NAME_HASH_PRIME && (names[stop] == None || names[stop] == Some(key))
      modifies names
      ensures V().Sound() && Interned(names[..], slot) && names[..] == old(names[..])[slot := Some(key)]
      ensures old(names[slot]) == None || old(names[slot]) == Some(key)
    {
      hide NamesValid, PackagesValid, StatusValid, StatusUnique, NodeSound, StatusSound;
      ghost var v := V();
      NamesSize(v.names);
      slot := Intern(names, key, stop);
      NameKeeps(v, slot, key);
      assert V() == v.(names := v.names[slot := Some(key)]);
    }

    // So does storing a package, which replaces only one of the same name and an equal version.
    method AddPackage(node: Node, ghost stop: nat) returns (num: nat)
      requires V().Sound() && NodeSound(names[..], node) && stop < PACKAGE_HASH_PRIME
      requires packages[stop] == None || Matches(names[..], packages[stop].value, node.name, node.version, VerEqual)
      modifies packages
      ensures V().Sound() && num < PACKAGE_HASH_PRIME && packages[..] == old(packages[..])[num := Some(node)]
      ensures old(packages[num]).Some? ==> Matches(names[..], old(packages[num]).value, node.name, node.version, VerEqual)
      ensures old(packages[num]) == None ==> forall q | 0 <= q < PACKAGE_HASH_PRIME && old(packages[q]).Some? ::
                !Matches(names[..], old(packages[q]).value, node.name, node.version, VerEqual)
    {
      hide NamesValid, StatusValid, StatusUnique, NodeSound, StatusSound, TestVersion, Reached;
      ghost var v := V();
      num := StorePackage(names, packages, node, stop);
      PackageKeeps(v, num, node);
      assert V() == v.(packages := v.packages[num := Some(node)]);
    }

    // And storing a status, which replaces only that of the same package.
    method AddStatus(node: StatusNode, ghost stop: nat) returns (num: nat)
      requires V().Sound() && StatusSound(names[..], packages[..], node) && stop < STATUS_HASH_PRIME
      requires status[stop] == None || PackageName(names[..], packages[..], status[stop].value.package)
                                       == PackageName(names[..], packages[..], node.package)
      modifies status
      ensures V().Sound() && num < STATUS_HASH_PRIME && status[..] == old(status[..])[num := Some(node)]
    {
      hide NamesValid, PackagesValid, StatusValid, NodeSound, StatusSound;
      ghost var v := V();
      num := StoreStatus(names, packages, status, node, stop);
      StatusKeeps(v, num, node);
      assert V() == v.(status := v.status[num := Some(node)]);
    }

    // package_satisfies_dependency
    method PackageSatisfies(package: nat, kind: EdgeType) returns (yes: bool)
      requires Valid() && package < PACKAGE_HASH_PRIME && packages[package].Some?
      ensures yes <==> V().Satisfies(NameAt(names[..], packages[package].value.name), kind)
    {
      hide Reached, StatusValid, Word;
      var key := NameAt(names[..], packages[package].value.name);
      ghost var free :| 0 <= free < STATUS_HASH_PRIME && status[..][free] == None;
      var num := SearchStatus(names, packages, status, key, free);
      if status[num] == None {
        return false;
      }
      var line := NameAt(names[..], status[num].value.status);
      yes := Says(line, kind);
      assert V().status[num] == status[num];
    }

    // search_for_provides
    method SearchForProvides(needle: nat, startAt: int) returns (i: int)
      requires -1 <= startAt && PackagesValid(names[..], packages[..])
      ensures i == -1 || (startAt < i < PACKAGE_HASH_PRIME && packages[i].Some? && Provided(packages[i].value, needle))
      ensures forall q | startAt < q < (if i == -1 then PACKAGE_HASH_PRIME else i) && packages[q].Some? :: !Provided(packages[q].value, needle)
    {
      hide Reached;
      i := startAt + 1;
      while i < PACKAGE_HASH_PRIME
        invariant startAt < i
        invariant forall q | startAt < q < i && q < PACKAGE_HASH_PRIME && packages[q].Some? :: !Provided(packages[q].value, needle)
      {
        if packages[i].Some? {
          var found := HasProvides(packages[i].value, needle);
          if found {
            return;
          }
        }
        i := i + 1;
      }
      i := -1;
    }

    // Is an edge satisfied, directly or by a provider?
    method EvalEdge(e: Edge) returns (met: bool)
      requires Valid()
      ensures met <==> V().Met(e)
    {
      hide Reached, StatusValid, StatusUnique, Word, TestVersion, V().Satisfies;
      ghost var free :| 0 <= free < PACKAGE_HASH_PRIME && packages[..][free] == None;
      var num := SearchPackage(names, packages, e.name, e.version, e.op, free);
      met := false;
      if packages[num].Some? {
        met := PackageSatisfies(num, e.kind);
        DirectAt(V(), e, num);
      } else {
        assert !V().Direct(e);
      }
      if !met {
        met := EvalProviders(e);
      }
    }

    // The loop over the providers of the edge's name; each turn goes on behind the last one found.
    method EvalProviders(e: Edge) returns (met: bool)
      requires Valid()
      ensures met <==> exists q :: V().Provider(e, q)
    {
      hide Reached, StatusValid, StatusUnique, V().Satisfies;
      met := false;
      var provider := SearchForProvides(e.name, -1);
      while provider > -1
        invariant -1 <= provider < PACKAGE_HASH_PRIME
        invariant provider > -1 ==> packages[provider].Some? && Provided(packages[provider].value, e.name)
        invariant forall q | V().Provider(e, q) :: provider > -1 && q >= provider
        decreases if provider == -1 then 0 else PACKAGE_HASH_PRIME - provider
      {
        met := PackageSatisfies(provider, e.kind);
        if met {
          assert V().Provider(e, provider);
          return;
        }
        provider := SearchForProvides(e.name, provider);
      }
    }

    // The edges of one package. A satisfied alternative skips the rest of its group.
    method CheckEdges(es: seq<Edge>) returns (verdict: Verdict)
      requires Valid() && Grouped(es, 0)
      ensures verdict == Fine <==> AllMet(es, 0, V().Judge())
      ensures verdict != Corrupt
    {
      hide V().Met, Grouped, AllMet, OneOf, At, V().Valid;
      ghost var v := V();
      ghost var ok := v.Judge();
      var j, left: nat, root: Option<nat> := 0, 0, None;
      StartAt(es, ok);
      while j < |es|
        invariant At(es, j, left, root, ok)
        decreases |es| - j
      {
        var e := es[j];
        if IsOr(e) {
          EnterGroup(es, j, left, root, ok);
          left := e.version;
          root := Some(j);
          j := j + 1;
          continue;
        }
        if left == 0 {
          ForgetRoot(es, j, root, ok);
          left := 1;
          root := None;
        }
        if IsDep(e) {
          Dependency(es, j, left, root, ok);
          if root.Some? && e.kind != Base(es[root.value].kind) {
            return Corrupt;
          }
          var met := EvalEdge(e);
          left := left - 1;
          if !met && left == 0 {
            return Unsatisfied;
          }
          if met && left != 0 {
            j := j + left;
            left := 0;
          }
        } else {
          PassOther(es, j, left, root, ok);
        }
        j := j + 1;
      }
      EndAt(es, j, left, root, ok);
      return Fine;
    }

    // check_deps, the pass over the dependencies: it accepts exactly the consistent databases.
    method CheckDeps() returns (verdict: Verdict)
      requires V().Sound() && V().Roomy()
      ensures verdict == Fine <==> V().Consistent()
    {
      hide NamesValid, Reached, StatusValid, StatusUnique, Word, Grouped, AllMet, V().Satisfies, V().Met;
      for i := 0 to PACKAGE_HASH_PRIME
        invariant forall k | 0 <= k < i && V().Wanted(k) :: AllMet(packages[k].value.edges, 0, V().Judge())
      {
        if packages[i].Some? {
          var want := PackageSatisfies(i, Depends);
          if want {
            var r := CheckEdges(packages[i].value.edges);
            if r != Fine {
              assert V().Wanted(i) && V().packages[i] == packages[i];
              return r;
            }
          }
        }
      }
      return Fine;
    }
  }

  // Unsatisfied and Corrupt stand for the two ways in which the source gives up.
  datatype Verdict = Fine | Unsatisfied | Corrupt

  lemma {:induction false} StartAt(es: seq<Edge>, ok: Edge -> bool)
    requires Grouped(es, 0)
    ensures At(es, 0, 0, None, ok)
  {
  }

  lemma {:induction false} ForgetRoot(es: seq<Edge>, j: nat, root: Option<nat>, ok: Edge -> bool)
    requires At(es, j, 0, root, ok)
    ensures At(es, j, 1, None, ok)
  {
  }

  // A dependency, on its own or as an alternative; left is at least 1.
  lemma {:induction false} Dependency(es: seq<Edge>, j: nat, left: nat, root: Option<nat>, ok: Edge -> bool)
    requires At(es, j, left, root, ok) && left >= 1 && j < |es| && IsDep(es[j])
    ensures root.Some? ==> root.value < |es| && es[j].kind == Base(es[root.value].kind)
    ensures if ok(es[j]) then At(es, j + left, 0, root, ok)
            else if left == 1 then !AllMet(es, 0, ok)
            else At(es, j + 1, left - 1, root, ok)
  {
    hide Grouped, AllMet, OneOf;
    if root.Some? { PassAlternative(es, j, left, root, ok); } else { PassPlain(es, j, left, root, ok); }
  }

  lemma {:induction false} EndAt(es: seq<Edge>, j: nat, left: nat, root: Option<nat>, ok: Edge -> bool)
    requires At(es, j, left, root, ok) && j >= |es|
    ensures AllMet(es, 0, ok)
  {
    hide OneOf;
  }

  // All packages that match an edge have one name, so the first match found decides.
  lemma {:induction false} DirectAt(v: View, e: Edge, q: nat)
    requires v.Valid() && q < PACKAGE_HASH_PRIME && v.packages[q].Some?
    requires Matches(v.names, v.packages[q].value, e.name, e.version, e.op)
    ensures v.Direct(e) <==> v.Satisfies(NameAt(v.names, v.packages[q].value.name), e.kind)
  {
    hide Reached, StatusValid, StatusUnique, TestVersion, v.Satisfies;
  }

  ghost predicate Provided(n: Node, needle: nat)
  {
    exists j | 0 <= j < |n.edges| :: n.edges[j].kind == Provides && n.edges[j].name == needle
  }

  method HasProvides(n: Node, needle: nat) returns (yes: bool)
    ensures yes <==> Provided(n, needle)
  {
    for j := 0 to |n.edges|
      invariant forall k | 0 <= k < j :: !(n.edges[k].kind == Provides && n.edges[k].name == needle)
    {
      if n.edges[j].kind == Provides && n.edges[j].name == needle {
        return true;
      }
    }
    yes := false;
  }
}
