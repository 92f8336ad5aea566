// The shape of the tree that build_tree grows, and the Kraft sum of its clamped levels.
module HuffTree {
  import opened Bits
  import opened Sums

  // The internal nodes elems, elems + 1, ..., in the order of their creation.
  function Created(elems: nat, k: nat): (r: seq<nat>)
    ensures |r| == k && forall i | 0 <= i < k :: r[i] == elems + i
  {
    if k == 0 then [] else Created(elems, k - 1) + [elems + k - 1]
  }

  // all lists the nodes in the order in which they left the heap: nodes 2q and 2q + 1 of that list are
  // the sons of internal node elems + q, and the last node of the list is the root.
  ghost predicate Grown(all: seq<nat>, elems: nat, leaves: seq<nat>)
  {
    var k := |all| / 2;
    && k >= 1 && |all| == 2 * k + 1 && all[2 * k] == elems + k - 1
    && (forall i | 0 <= i < 2 * k :: all[i] < elems + i / 2)
    && multiset(all) == multiset(leaves) + multiset(Created(elems, k))
    && (forall n | n in leaves :: n < elems)
    && Distinct(leaves)
  }

  ghost predicate Distinct(s: seq<nat>)
  {
    forall i, j | 0 <= i < j < |s| :: s[i] != s[j]
  }

  // Two weights that differ on one node only.
  lemma {:induction false} SumPoint(t: seq<nat>, i: nat, g: nat -> int, h: nat -> int)
    requires Distinct(t) && i < |t| && forall x | x in t && x != t[i] :: h(x) == g(x)
    ensures Sum(t, h) == Sum(t, g) + h(t[i]) - g(t[i])
  {
    if i == 0 {
      assert forall x | x in t[1..] :: x in t && x != t[0];
      SumSame(t[1..], g, h);
    } else {
      assert t[1..][i - 1] == t[i] && t[0] in t && t[0] != t[i];
      assert forall x | x in t[1..] :: x in t;
      SumPoint(t[1..], i - 1, g, h);
    }
  }

  lemma {:induction false} DistinctCount(s: seq<nat>, x: nat)
    requires Distinct(s)
    ensures multiset(s)[x] <= 1
  {
    if s != [] {
      var t := s[..|s| - 1];
      assert s == t + [s[|s| - 1]];
      DistinctCount(t, x);
    }
  }

  lemma {:induction false} RepeatCount(s: seq<nat>, i: nat, j: nat)
    requires i < j < |s| && s[i] == s[j]
    ensures multiset(s)[s[i]] >= 2
  {
    var a, b := s[..j], s[j..];
    assert s == a + b;
    assert a[i] in multiset(a) && b[0] in multiset(b);
  }

  lemma {:induction false} CountDistinct(s: seq<nat>)
    requires forall x: nat :: multiset(s)[x] <= 1
    ensures Distinct(s)
  {
    forall i, j | 0 <= i < j < |s| ensures s[i] != s[j] {
      if s[i] == s[j] { RepeatCount(s, i, j); }
    }
  }

  lemma {:induction false} GrownDistinct(all: seq<nat>, elems: nat, leaves: seq<nat>)
    requires Grown(all, elems, leaves)
    ensures Distinct(all)
    ensures forall n | elems <= n < elems + |all| / 2 :: n in all
    ensures forall n | n in all && n < elems :: n in leaves
    ensures forall n | n in leaves :: n in all
  {
    var c := Created(elems, |all| / 2);
    forall x: nat ensures multiset(all)[x] <= 1 {
      DistinctCount(leaves, x);
      DistinctCount(c, x);
      assert !(x in leaves && x in c);
    }
    CountDistinct(all);
    forall n | elems <= n < elems + |all| / 2 ensures n in all {
      assert c[n - elems] == n && n in multiset(c);
      assert n in multiset(all);
    }
    forall n | n in all && n < elems ensures n in leaves {
      assert n in multiset(all);
      assert n !in c;
      assert n in multiset(leaves);
    }
    forall n | n in leaves ensures n in all {
      assert n in multiset(leaves);
      assert n in multiset(all);
    }
  }

  lemma {:induction false} GrownFacts(all: seq<nat>, elems: nat, leaves: seq<nat>)
    requires Grown(all, elems, leaves)
    ensures Distinct(all) && |all| >= 3 && forall n | n in all && n < elems :: n in leaves
  {
    GrownDistinct(all, elems, leaves);
  }

  function Min(a: nat, b: nat): nat { if a < b then a else b }

  // The level of each node is one below its father's, but never below max.
  ghost predicate Leveled(all: seq<nat>, elems: nat, lens: seq<nat>, max: nat)
  {
    var k := |all| / 2;
    && |all| == 2 * k + 1 && elems + k <= |lens|
    && (forall i | 0 <= i < |all| :: all[i] < |lens|)
    && lens[all[2 * k]] == 0
    && forall i | 0 <= i < 2 * k :: lens[all[i]] == Min(lens[elems + i / 2] + 1, max)
  }

  ghost function Weight(lens: seq<nat>, max: nat): nat -> int
  {
    (n: nat) => if n < |lens| && lens[n] <= max then Pow2(max - lens[n]) else 0
  }

  ghost function AtLevel(lens: seq<nat>, l: nat): nat -> int
  {
    (n: nat) => if n < |lens| && lens[n] == l then 1 else 0
  }

  // The two sons weigh as much as their father, or one unit more if the father is on level max.
  lemma {:induction false} PairSums(all: seq<nat>, elems: nat, lens: seq<nat>, max: nat, q: nat)
    requires Leveled(all, elems, lens, max) && q <= |all| / 2
    requires forall n | elems <= n < elems + |all| / 2 :: lens[n] <= max
    ensures Sum(all[..2 * q], Weight(lens, max))
            == Sum(Created(elems, q), Weight(lens, max)) + Sum(Created(elems, q), AtLevel(lens, max))
    ensures Sum(all[..2 * q], AtLevel(lens, max)) >= 2 * Sum(Created(elems, q), AtLevel(lens, max))
  {
    hide Sum, Weight, AtLevel, Leveled;
    if q != 0 {
      PairSums(all, elems, lens, max, q - 1);
      var p, a, b := elems + q - 1, all[2 * q - 2], all[2 * q - 1];
      PairFather(all, elems, lens, max, q - 1);
      PairSumsStep(lens, max, p, a, b);
      assert all[..2 * q] == all[..2 * (q - 1)] + [a] + [b];
      assert Created(elems, q) == Created(elems, q - 1) + [p];
      PairAdds(all[..2 * (q - 1)], a, b, Created(elems, q - 1), p, Weight(lens, max));
      PairAdds(all[..2 * (q - 1)], a, b, Created(elems, q - 1), p, AtLevel(lens, max));
    } else {
      assert all[..0] == [] == Created(elems, 0);
      SumNothing(Weight(lens, max));
      SumNothing(AtLevel(lens, max));
    }
  }

  lemma {:induction false} SumNothing(f: nat -> int)
    ensures Sum([], f) == 0
  {
  }

  lemma {:induction false} PairFather(all: seq<nat>, elems: nat, lens: seq<nat>, max: nat, q: nat)
    requires Leveled(all, elems, lens, max) && q < |all| / 2
    ensures elems + q < |lens| && all[2 * q] < |lens| && all[2 * q + 1] < |lens|
    ensures lens[all[2 * q]] == lens[all[2 * q + 1]] == Min(lens[elems + q] + 1, max)
  {
    assert (2 * q) / 2 == q && (2 * q + 1) / 2 == q;
  }

  lemma {:induction false} PairAdds(s: seq<nat>, a: nat, b: nat, c: seq<nat>, p: nat, f: nat -> int)
    ensures Sum(s + [a] + [b], f) == Sum(s, f) + f(a) + f(b) && Sum(c + [p], f) == Sum(c, f) + f(p)
  {
    SumTwo(s, a, b, f);
    SumSnoc(c, p, f);
  }

  lemma {:induction false} SumTwo(s: seq<nat>, a: nat, b: nat, f: nat -> int)
    ensures Sum(s + [a] + [b], f) == Sum(s, f) + f(a) + f(b)
  {
    SumSnoc(s, a, f);
    SumSnoc(s + [a], b, f);
  }

  lemma {:induction false} PairSumsStep(lens: seq<nat>, max: nat, p: nat, a: nat, b: nat)
    requires p < |lens| && a < |lens| && b < |lens| && lens[p] <= max
    requires lens[a] == lens[b] == Min(lens[p] + 1, max)
    ensures Weight(lens, max)(a) + Weight(lens, max)(b) == Weight(lens, max)(p) + AtLevel(lens, max)(p)
    ensures AtLevel(lens, max)(a) + AtLevel(lens, max)(b) >= 2 * AtLevel(lens, max)(p)
  {
  }

  // Clamping every level to max makes the leaves too heavy by exactly the number of internal nodes on
  // level max, and leaves at least as many leaves there.
  lemma {:induction false} ClampExcess(all: seq<nat>, elems: nat, leaves: seq<nat>, lens: seq<nat>, max: nat)
    requires Grown(all, elems, leaves) && Leveled(all, elems, lens, max)
    requires forall n | elems <= n < elems + |all| / 2 :: lens[n] <= max
    ensures var c := Created(elems, |all| / 2);
            && Sum(leaves, Weight(lens, max)) == Pow2(max) + Sum(c, AtLevel(lens, max))
            && Sum(leaves, AtLevel(lens, max)) >= Sum(c, AtLevel(lens, max))
  {
    hide Sum, Weight, AtLevel;
    var k := |all| / 2;
    var c := Created(elems, k);
    PairSums(all, elems, lens, max, k);
    assert all == all[..2 * k] + [all[2 * k]];
    var w, m := Weight(lens, max), AtLevel(lens, max);
    RootWeight(lens, max, all[2 * k]);
    SumSnoc(all[..2 * k], all[2 * k], w);
    SumSnoc(all[..2 * k], all[2 * k], m);
    SumSplit(all, leaves, c, w);
    SumSplit(all, leaves, c, m);
  }

  lemma {:induction false} RootWeight(lens: seq<nat>, max: nat, root: nat)
    requires root < |lens| && lens[root] == 0
    ensures Weight(lens, max)(root) == Pow2(max) && AtLevel(lens, max)(root) >= 0
  {
  }

  lemma {:induction false} SumSplit(all: seq<nat>, s: seq<nat>, t: seq<nat>, f: nat -> int)
    requires multiset(all) == multiset(s) + multiset(t)
    ensures Sum(all, f) == Sum(s, f) + Sum(t, f)
  {
    assert multiset(s + t) == multiset(s) + multiset(t);
    SumPermuted(all, s + t, f);
    SumAppend(s, t, f);
  }

  // The forest while the tree grows: live nodes are still in the heap, kids have left it in pairs.
  ghost predicate Growing(live: multiset<nat>, kids: seq<nat>, elems: nat, leaves: seq<nat>)
  {
    && |kids| % 2 == 0
    && live + multiset(kids) == multiset(leaves) + multiset(Created(elems, |kids| / 2))
    && (forall i | 0 <= i < |kids| :: kids[i] < elems + i / 2)
    && (forall n | n in leaves :: n < elems) && Distinct(leaves)
  }

  lemma {:induction false} LiveNode(live: multiset<nat>, kids: seq<nat>, elems: nat, leaves: seq<nat>, n: nat)
    requires Growing(live, kids, elems, leaves) && n in live
    ensures n < elems + |kids| / 2 && n !in kids && live[n] == 1 && (n < elems ==> n in leaves)
  {
    var c: seq<nat> := Created(elems, |kids| / 2);
    DistinctCount(leaves, n);
    DistinctCount(c, n);
    assert !(n in leaves && n in c);
    assert (live + multiset(kids))[n] == (multiset(leaves) + multiset(c))[n];
    assert live[n] + multiset(kids)[n] == multiset(leaves)[n] + multiset(c)[n];
    assert n in multiset(leaves) || n in multiset(c);
  }

  lemma {:induction false} MergePair(live: multiset<nat>, live': multiset<nat>, kids: seq<nat>, elems: nat,
                                     leaves: seq<nat>, n: nat, m: nat)
    requires Growing(live, kids, elems, leaves)
    requires n in live && m in live && n != m
    requires live' + multiset{n} + multiset{m} == live + multiset{elems + |kids| / 2}
    ensures Growing(live', kids + [n, m], elems, leaves)
  {
    hide Created, Distinct;
    assert n < elems + |kids| / 2 && m < elems + |kids| / 2 by {
      LiveNode(live, kids, elems, leaves, n);
      LiveNode(live, kids, elems, leaves, m);
    }
    MergeCounts(live, live', kids, elems, leaves, n, m);
    KidsBelow(kids, elems, n, m);
  }

  lemma {:induction false} KidsBelow(kids: seq<nat>, elems: nat, n: nat, m: nat)
    requires |kids| % 2 == 0 && n < elems + |kids| / 2 && m < elems + |kids| / 2
    requires forall i | 0 <= i < |kids| :: kids[i] < elems + i / 2
    ensures |kids + [n, m]| % 2 == 0 && forall i | 0 <= i < |kids + [n, m]| :: (kids + [n, m])[i] < elems + i / 2
  {
  }

  lemma {:induction false} MergeCounts(live: multiset<nat>, live': multiset<nat>, kids: seq<nat>, elems: nat,
                                       leaves: seq<nat>, n: nat, m: nat)
    requires |kids| % 2 == 0 && live + multiset(kids) == multiset(leaves) + multiset(Created(elems, |kids| / 2))
    requires live' + multiset{n} + multiset{m} == live + multiset{elems + |kids| / 2}
    ensures |kids + [n, m]| / 2 == |kids| / 2 + 1
    ensures live' + multiset(kids + [n, m]) == multiset(leaves) + multiset(Created(elems, |kids| / 2 + 1))
  {
    hide Created;
    CreatedSnoc(elems, |kids| / 2);
    PairAdded(kids, n, m);
    var x: nat := elems + |kids| / 2;
    Shuffle(live, multiset(kids), multiset(leaves), multiset(Created(elems, |kids| / 2)), live', n, m, x);
  }

  lemma {:induction false} CreatedSnoc(elems: nat, q: nat)
    ensures var x: nat := elems + q; multiset(Created(elems, q + 1)) == multiset(Created(elems, q)) + multiset{x}
  {
    var x: nat := elems + q;
    assert Created(elems, q + 1) == Created(elems, q) + [x];
  }

  lemma {:induction false} PairAdded(kids: seq<nat>, n: nat, m: nat)
    ensures multiset(kids + [n, m]) == multiset(kids) + multiset{n} + multiset{m}
    ensures |kids| % 2 == 0 ==> |kids + [n, m]| / 2 == |kids| / 2 + 1
  {
    assert kids + [n, m] == kids + [n] + [m];
  }

  lemma {:induction false} Shuffle(a: multiset<nat>, k: multiset<nat>, l: multiset<nat>, c: multiset<nat>,
                                   a': multiset<nat>, n: nat, m: nat, x: nat)
    requires a + k == l + c && a' + multiset{n} + multiset{m} == a + multiset{x}
    ensures a' + (k + multiset{n} + multiset{m}) == l + (c + multiset{x})
  {
    forall y: nat ensures (a' + (k + multiset{n} + multiset{m}))[y] == (l + (c + multiset{x}))[y] {
      assert (a + k)[y] == (l + c)[y];
      assert (a' + multiset{n} + multiset{m})[y] == (a + multiset{x})[y];
    }
  }

  // One live node is left: it is the root, and the tree is complete.
  lemma {:induction false} GrownAtLast(root: nat, kids: seq<nat>, elems: nat, leaves: seq<nat>)
    requires Growing(multiset{root}, kids, elems, leaves) && |kids| >= 2 && root == elems + |kids| / 2 - 1
    ensures Grown(kids + [root], elems, leaves)
  {
    assert multiset(kids + [root]) == multiset(kids) + multiset{root};
  }
}
