// Why the tree of build_tree is optimal: no lengths with Kraft sum at most 1 cost less (Huffman's theorem).
module Optimal {
  import opened Bits
  import opened Sums
  import opened Canonical
  import opened HuffTree
  import opened BitLengths

  ghost function At(f: seq<nat>): nat -> int
  {
    (n: nat) => if n < |f| then f[n] else 0
  }

  ghost function Times(f: seq<nat>, l: seq<nat>): nat -> int
  {
    (n: nat) => if n < |f| && n < |l| then f[n] * l[n] else 0
  }

  // ---- one change of a length ----

  // Distinct nodes with lengths of at most max.
  ghost predicate Measured(t: seq<nat>, l: seq<nat>, max: nat)
  {
    Distinct(t) && forall i | 0 <= i < |t| :: t[i] < |l| && l[t[i]] <= max
  }

  lemma {:induction false} SetLength(t: seq<nat>, i: nat, f: seq<nat>, l: seq<nat>, c: nat, max: nat)
    requires Measured(t, l, max) && i < |t| && c <= max && |l| <= |f|
    ensures t[i] < |l| && l[t[i]] <= max && Measured(t, l[t[i] := c], max)
    ensures Sum(t, Weight(l[t[i] := c], max)) == Sum(t, Weight(l, max)) - Pow2(max - l[t[i]]) + Pow2(max - c)
    ensures Sum(t, Times(f, l[t[i] := c])) == Sum(t, Times(f, l)) + f[t[i]] * (c - l[t[i]])
  {
    hide Sum, Pow2;
    assert t[i] in t;
    var l' := l[t[i] := c];
    SumPoint(t, i, Weight(l, max), Weight(l', max));
    SumPoint(t, i, Times(f, l), Times(f, l'));
  }

  lemma {:induction false} Rearrange(a: nat, b: nat, x: nat, y: nat)
    requires a <= b && x <= y
    ensures a * (y - x) + b * (x - y) <= 0
  {
    assert (b - a) * (y - x) >= 0;
  }

  // A lighter node takes the greater length of a heavier one.
  lemma {:induction false} Exchange(t: seq<nat>, i: nat, j: nat, f: seq<nat>, l: seq<nat>, max: nat) returns (l': seq<nat>)
    requires Measured(t, l, max) && i < |t| && j < |t| && |l| <= |f|
    requires t[i] < |l| && t[j] < |l| && f[t[i]] <= f[t[j]] && l[t[i]] <= l[t[j]]
    ensures |l'| == |l| && Measured(t, l', max) && l' == l[t[i] := l[t[j]]][t[j] := l[t[i]]]
    ensures Sum(t, Weight(l', max)) == Sum(t, Weight(l, max)) && Sum(t, Times(f, l')) <= Sum(t, Times(f, l))
  {
    hide Sum, Pow2;
    var x, y := l[t[i]], l[t[j]];
    assert t[j] in t;
    SetLength(t, i, f, l, y, max);
    var l1 := l[t[i] := y];
    SetLength(t, j, f, l1, x, max);
    l' := l1[t[j] := x];
    Rearrange(f[t[i]], f[t[j]], x, y);
    if i == j {
      assert l' == l;
    } else {
      assert t[i] != t[j] && l1[t[j]] == y;
    }
  }

  lemma {:induction false} LongestFrom(t: seq<nat>, from: nat, l: seq<nat>) returns (j: nat)
    requires from < |t| && forall i | 0 <= i < |t| :: t[i] < |l|
    ensures from <= j < |t| && forall i | from <= i < |t| :: l[t[i]] <= l[t[j]]
    decreases |t| - from
  {
    j := from;
    if from + 1 < |t| {
      var k := LongestFrom(t, from + 1, l);
      if l[t[k]] > l[t[from]] { j := k; }
    }
  }

  // The two lightest nodes come first.
  ghost predicate LightFirst(t: seq<nat>, f: seq<nat>)
  {
    && |t| >= 2 && (forall i | 0 <= i < |t| :: t[i] < |f|)
    && (forall i | 0 <= i < |t| :: f[t[0]] <= f[t[i]]) && forall i | 1 <= i < |t| :: f[t[1]] <= f[t[i]]
  }

  // Give the two lightest nodes the two greatest lengths.
  lemma {:induction false} Deepen(t: seq<nat>, f: seq<nat>, l: seq<nat>, max: nat) returns (r: seq<nat>)
    requires LightFirst(t, f) && Measured(t, l, max) && |l| == |f|
    ensures |r| == |l| && Measured(t, r, max) && t[0] < |r| && t[1] < |r| && r[t[1]] <= r[t[0]]
    ensures forall i | 1 <= i < |t| :: r[t[i]] <= r[t[1]]
    ensures Sum(t, Weight(r, max)) == Sum(t, Weight(l, max)) && Sum(t, Times(f, r)) <= Sum(t, Times(f, l))
  {
    hide Sum, Pow2;
    assert t[0] in t && t[1] in t;
    var j := LongestFrom(t, 0, l);
    assert t[j] in t;
    var l1 := Exchange(t, 0, j, f, l, max);
    forall i | 0 <= i < |t| ensures t[i] < |l1| && l1[t[i]] <= l1[t[0]] {
      assert t[i] in t && l1[t[0]] == l[t[j]];
    }
    var k := LongestFrom(t, 1, l1);
    assert t[k] in t && t[0] != t[1] && t[0] != t[k];
    r := Exchange(t, 1, k, f, l1, max);
    assert r[t[0]] == l1[t[0]] && r[t[1]] == l1[t[k]];
    forall i | 1 <= i < |t| ensures r[t[i]] <= r[t[1]] {
      assert t[i] in t && l1[t[i]] <= l1[t[k]] && l1[t[1]] <= l1[t[k]];
    }
  }

  // ---- the Kraft sum in coarser units ----

  lemma {:induction false} Pow2Adds(a: nat, b: nat)
    ensures Pow2(a + b) == Pow2(a) * Pow2(b)
  {
    if a != 0 {
      Pow2Adds(a - 1, b);
      Doubles(Pow2(a - 1), Pow2(b));
    }
  }

  lemma {:induction false} Doubles(x: int, y: int)
    ensures 2 * x * y == 2 * (x * y)
  {
  }

  lemma {:induction false} Coarser(s: seq<nat>, l: seq<nat>, c: nat, max: nat)
    requires c <= max && forall i | 0 <= i < |s| :: s[i] < |l| && l[s[i]] <= c
    ensures Sum(s, Weight(l, max)) == Pow2(max - c) * Sum(s, Weight(l, c))
  {
    if s != [] {
      var x := s[0];
      Coarser(s[1..], l, c, max);
      Pow2Adds(max - c, c - l[x]);
      assert max - c + (c - l[x]) == max - l[x];
      Distributes(Pow2(max - c), Pow2(c - l[x]), Sum(s[1..], Weight(l, c)));
    }
  }

  lemma {:induction false} Distributes(p: int, x: int, y: int)
    ensures p * (x + y) == p * x + p * y
  {
  }

  lemma {:induction false} Scales(p: nat, n: int, s: int)
    requires n <= s
    ensures p * n <= p * s
  {
  }

  lemma {:induction false} RoundUp(p: nat, s: int, n: nat, e: nat)
    requires p * s + e <= p * n && e >= 1
    ensures p * s + p <= p * n
  {
    if s < n {
      assert p * (s + 1) <= p * n;
      Distributes(p, s, 1);
    } else {
      Scales(p, n, s);
    }
  }

  // If no other node is deeper than c, the deepest node can be brought up to c.
  lemma {:induction false} Shorten(t: seq<nat>, f: seq<nat>, l: seq<nat>, max: nat) returns (r: seq<nat>)
    requires LightFirst(t, f) && Measured(t, l, max) && |l| == |f| && t[0] < |l| && t[1] < |l| && l[t[1]] <= l[t[0]]
    requires forall i | 1 <= i < |t| :: t[i] < |l| && l[t[i]] <= l[t[1]]
    requires Sum(t, Weight(l, max)) <= Pow2(max)
    ensures r == l[t[0] := l[t[1]]] && Measured(t, r, max) && l[t[1]] >= 1
    ensures Sum(t, Weight(r, max)) <= Pow2(max) && Sum(t, Times(f, r)) <= Sum(t, Times(f, l))
  {
    hide Sum, Pow2;
    assert t[0] in t && t[1] in t;
    var c := l[t[1]];
    r := l[t[0] := c];
    SetLength(t, 0, f, l, c, max);
    TopHeavy(t, l, max);
    Rearrange(0, f[t[0]], c, l[t[0]]);
  }

  lemma {:induction false} TopHeavy(t: seq<nat>, l: seq<nat>, max: nat)
    requires |t| >= 2 && Measured(t, l, max) && t[0] < |l| && t[1] < |l| && l[t[0]] <= max && l[t[1]] <= max
    requires forall i | 1 <= i < |t| :: t[i] < |l| && l[t[i]] <= l[t[1]]
    requires Sum(t, Weight(l, max)) <= Pow2(max)
    ensures l[t[1]] >= 1
    ensures Sum(t, Weight(l, max)) - Pow2(max - l[t[0]]) + Pow2(max - l[t[1]]) <= Pow2(max)
  {
    var s, c := t[1..], l[t[1]];
    var w := Weight(l, max);
    assert Sum(t, w) == w(t[0]) + Sum(s, w);
    assert Sum(s, w) == w(t[1]) + Sum(s[1..], w);
    SumNatural(s[1..], l, max);
    assert c >= 1;
    assert forall i | 0 <= i < |s| :: s[i] == t[i + 1];
    Coarser(s, l, c, max);
    Pow2Adds(max - c, c);
    RoundUp(Pow2(max - c), Sum(s, Weight(l, c)), Pow2(c), Pow2(max - l[t[0]]));
  }

  lemma {:induction false} SumNatural(s: seq<nat>, l: seq<nat>, max: nat)
    ensures Sum(s, Weight(l, max)) >= 0
  {
    if s != [] { SumNatural(s[1..], l, max); }
  }

  lemma {:induction false} TimesNatural(s: seq<nat>, f: seq<nat>, l: seq<nat>)
    ensures Sum(s, Times(f, l)) >= 0
  {
    if s != [] { TimesNatural(s[1..], f, l); }
  }

  // The lengths after the two lightest nodes got a father p of their joint weight: cheaper by that weight.
  lemma {:induction false} Contract(t: seq<nat>, p: nat, f: seq<nat>, l: seq<nat>, max: nat) returns (r: seq<nat>)
    requires LightFirst(t, f) && Measured(t, l, max) && |l| == |f| && Sum(t, Weight(l, max)) <= Pow2(max)
    requires p < |f| && p !in t && f[p] == f[t[0]] + f[t[1]]
    ensures |r| == |f| && r[p] <= max && Measured(t[2..], r, max)
    ensures Sum(t[2..], Weight(r, max)) + Weight(r, max)(p) <= Pow2(max)
    ensures Sum(t[2..], Times(f, r)) + Times(f, r)(p) + f[p] <= Sum(t, Times(f, l))
  {
    hide Pow2, Sum, Weight, Times;
    var l1 := Deepen(t, f, l, max);
    var l2 := Shorten(t, f, l1, max);
    var c := l1[t[1]];
    r := l2[p := c - 1];
    Brothers(t, p, f, l2, max);
  }

  // Two brothers of length c weigh as much as their father of length c - 1.
  lemma {:induction false} Brothers(t: seq<nat>, p: nat, f: seq<nat>, l: seq<nat>, max: nat)
    requires LightFirst(t, f) && Measured(t, l, max) && |l| == |f| && l[t[0]] == l[t[1]] >= 1
    requires p < |f| && p !in t && f[p] == f[t[0]] + f[t[1]]
    ensures var r := l[p := l[t[1]] - 1];
            && Measured(t[2..], r, max)
            && Sum(t[2..], Weight(r, max)) + Weight(r, max)(p) == Sum(t, Weight(l, max))
            && Sum(t[2..], Times(f, r)) + Times(f, r)(p) + f[p] == Sum(t, Times(f, l))
  {
    hide Pow2, Sum;
    var s, c := t[2..], l[t[1]];
    var r := l[p := c - 1];
    assert forall i | 0 <= i < |s| :: s[i] == t[i + 2] && s[i] in t;
    assert forall x | x in s :: x in t && x != p;
    SumSame(s, Weight(l, max), Weight(r, max));
    SumSame(s, Times(f, l), Times(f, r));
    TwoFirst(t, Weight(l, max));
    TwoFirst(t, Times(f, l));
    Halves(max, c);
    JointCost(f[t[0]], f[t[1]], c);
  }

  lemma {:induction false} JointCost(a: nat, b: nat, c: nat)
    requires c >= 1
    ensures a * c + b * c == (a + b) * (c - 1) + (a + b)
  {
  }

  lemma {:induction false} Halves(max: nat, c: nat)
    requires 1 <= c <= max
    ensures Pow2(max - (c - 1)) == 2 * Pow2(max - c)
  {
  }

  lemma {:induction false} TwoFirst(t: seq<nat>, g: nat -> int)
    requires |t| >= 2
    ensures Sum(t, g) == g(t[0]) + g(t[1]) + Sum(t[2..], g)
  {
    assert t[1..][0] == t[1] && t[1..][1..] == t[2..];
  }

  // ---- the live nodes before each merge ----

  // The nodes of s below b.
  ghost function Below(s: seq<nat>, b: nat): seq<nat>
  {
    if s == [] then [] else (if s[0] < b then [s[0]] else []) + Below(s[1..], b)
  }

  lemma {:induction false} BelowIn(s: seq<nat>, b: nat, x: nat)
    ensures x in Below(s, b) <==> x in s && x < b
  {
    if s != [] {
      BelowIn(s[1..], b, x);
      assert s == [s[0]] + s[1..];
    }
  }

  lemma {:induction false} BelowDistinct(s: seq<nat>, b: nat)
    requires Distinct(s)
    ensures Distinct(Below(s, b))
  {
    if s != [] {
      BelowDistinct(s[1..], b);
      BelowIn(s[1..], b, s[0]);
    }
  }

  ghost function Masked(g: nat -> int, b: nat): nat -> int
  {
    (n: nat) => if n < b then g(n) else 0
  }

  lemma {:induction false} BelowSum(s: seq<nat>, b: nat, g: nat -> int)
    ensures Sum(Below(s, b), g) == Sum(s, Masked(g, b))
  {
    if s != [] {
      BelowSum(s[1..], b, g);
      if s[0] < b { assert Below(s, b)[1..] == Below(s[1..], b); } else { assert Below(s, b) == Below(s[1..], b); }
    }
  }

  // One more node, b itself, comes in.
  lemma {:induction false} BelowNext(s: seq<nat>, b: nat, g: nat -> int)
    requires Distinct(s) && b in s
    ensures Sum(Below(s, b + 1), g) == Sum(Below(s, b), g) + g(b)
  {
    BelowSum(s, b, g);
    BelowSum(s, b + 1, g);
    var i :| 0 <= i < |s| && s[i] == b;
    SumPoint(s, i, Masked(g, b), Masked(g, b + 1));
  }

  // Merge q joins the two lightest of the nodes that it finds.
  ghost predicate Lightest(all: seq<nat>, elems: nat, f: seq<nat>, q: nat)
    requires 2 * q + 1 < |all|
  {
    && (forall i | 0 <= i < |all| :: all[i] < |f|)
    && forall i | 2 * q <= i < |all| && all[i] < elems + q :: f[all[2 * q]] <= f[all[i]] && (i > 2 * q ==> f[all[2 * q + 1]] <= f[all[i]])
  }

  // Every merge joins the two lightest nodes, and their father has their joint weight.
  ghost predicate Greedy(all: seq<nat>, elems: nat, f: seq<nat>)
  {
    && elems + |all| / 2 <= |f|
    && forall q | 0 <= q < |all| / 2 && 2 * q + 1 < |all| :: Lightest(all, elems, f, q) && f[elems + q] == f[all[2 * q]] + f[all[2 * q + 1]]
  }

  // The joint weight of the first q merges.
  ghost function Merges(elems: nat, f: seq<nat>, q: nat): int
  {
    Sum(Created(elems, q), At(f))
  }

  ghost function LiveAt(all: seq<nat>, elems: nat, q: nat): seq<nat>
    requires 2 * q <= |all|
  {
    Below(all[2 * q..], elems + q)
  }

  lemma {:induction false} LiveSplit(all: seq<nat>, elems: nat, leaves: seq<nat>, q: nat)
    requires Grown(all, elems, leaves) && q < |all| / 2
    ensures var b := Below(all[2 * q + 2..], elems + q);
            LiveAt(all, elems, q) == [all[2 * q], all[2 * q + 1]] + b
  {
    var s := all[2 * q..];
    assert s[0] == all[2 * q] && s[1..][0] == all[2 * q + 1] && s[1..][1..] == all[2 * q + 2..];
    assert (2 * q) / 2 == q && (2 * q + 1) / 2 == q;
    assert Below(s, elems + q) == [s[0]] + Below(s[1..], elems + q);
    assert Below(s[1..], elems + q) == [s[1]] + Below(s[1..][1..], elems + q);
  }

  lemma {:induction false} LiveNext(all: seq<nat>, elems: nat, leaves: seq<nat>, q: nat, g: nat -> int)
    requires Grown(all, elems, leaves) && q < |all| / 2
    ensures Sum(LiveAt(all, elems, q + 1), g) == Sum(Below(all[2 * q + 2..], elems + q), g) + g(elems + q)
  {
    hide Sum, Below;
    FatherLater(all, elems, leaves, q);
    BelowNext(all[2 * q + 2..], elems + q, g);
  }

  // A father leaves the heap after its sons.
  lemma {:induction false} FatherLater(all: seq<nat>, elems: nat, leaves: seq<nat>, q: nat)
    requires Grown(all, elems, leaves) && q < |all| / 2
    ensures elems + q in all[2 * q + 2..] && Distinct(all[2 * q + 2..])
  {
    GrownDistinct(all, elems, leaves);
    assert elems + q in all;
    var i :| 0 <= i < |all| && all[i] == elems + q;
    assert i >= 2 * q + 2;
    assert all[2 * q + 2..][i - (2 * q + 2)] == elems + q;
  }

  lemma {:induction false} LiveLight(all: seq<nat>, elems: nat, leaves: seq<nat>, f: seq<nat>, q: nat)
    requires Grown(all, elems, leaves) && Greedy(all, elems, f) && q < |all| / 2
    ensures var t := LiveAt(all, elems, q);
            && LightFirst(t, f) && Distinct(t) && elems + q !in t && t[0] == all[2 * q] && t[1] == all[2 * q + 1]
            && t[2..] == Below(all[2 * q + 2..], elems + q)
  {
    hide Below;
    var t := LiveAt(all, elems, q);
    LiveSplit(all, elems, leaves, q);
    GrownDistinct(all, elems, leaves);
    BelowDistinct(all[2 * q..], elems + q);
    BelowIn(all[2 * q..], elems + q, elems + q);
    assert Lightest(all, elems, f, q);
    forall i | 0 <= i < |t| ensures t[i] < |f| && f[t[0]] <= f[t[i]] && (i >= 1 ==> f[t[1]] <= f[t[i]]) {
      BelowIn(all[2 * q..], elems + q, t[i]);
      assert t[i] in t;
      var j :| 0 <= j < |all[2 * q..]| && all[2 * q..][j] == t[i];
      assert all[2 * q + j] == t[i];
      if i >= 1 { assert t[0] != t[i]; }
    }
  }

  // No lengths for the live nodes cost less than the merges still to come.
  lemma {:induction false} MergesCost(all: seq<nat>, elems: nat, leaves: seq<nat>, f: seq<nat>, l: seq<nat>, max: nat, q: nat)
    requires Grown(all, elems, leaves) && Greedy(all, elems, f) && q <= |all| / 2 && |l| == |f|
    requires Measured(LiveAt(all, elems, q), l, max) && Sum(LiveAt(all, elems, q), Weight(l, max)) <= Pow2(max)
    ensures Sum(LiveAt(all, elems, q), Times(f, l)) >= Merges(elems, f, |all| / 2) - Merges(elems, f, q)
    decreases |all| / 2 - q
  {
    hide Sum, Weight, Times, Pow2, LiveAt, Below, Grown, Greedy, LightFirst;
    if q == |all| / 2 {
      TimesNatural(LiveAt(all, elems, q), f, l);
    } else {
      var t, p := LiveAt(all, elems, q), elems + q;
      LiveLight(all, elems, leaves, f, q);
      MergeWeight(all, elems, f, q);
      var r := Contract(t, p, f, l, max);
      LiveNext(all, elems, leaves, q, Weight(r, max));
      LiveNext(all, elems, leaves, q, Times(f, r));
      LiveMeasured(all, elems, leaves, q, r, max);
      SumSnoc(Created(elems, q), p, At(f));
      MergesCost(all, elems, leaves, f, r, max, q + 1);
    }
  }

  lemma {:induction false} MergeWeight(all: seq<nat>, elems: nat, f: seq<nat>, q: nat)
    requires Greedy(all, elems, f) && q < |all| / 2
    ensures elems + q < |f| && 2 * q + 1 < |all| && all[2 * q] < |f| && all[2 * q + 1] < |f| && f[elems + q] == f[all[2 * q]] + f[all[2 * q + 1]]
  {
    assert Lightest(all, elems, f, q);
  }

  lemma {:induction false} LiveMeasured(all: seq<nat>, elems: nat, leaves: seq<nat>, q: nat, l: seq<nat>, max: nat)
    requires Grown(all, elems, leaves) && q < |all| / 2 && elems + q < |l| && l[elems + q] <= max
    requires Measured(Below(all[2 * q + 2..], elems + q), l, max)
    ensures Measured(LiveAt(all, elems, q + 1), l, max)
  {
    hide Below, Grown;
    var s, t, u := all[2 * q + 2..], LiveAt(all, elems, q + 1), Below(all[2 * q + 2..], elems + q);
    FatherLater(all, elems, leaves, q);
    BelowDistinct(s, elems + q + 1);
    forall i | 0 <= i < |t| ensures t[i] < |l| && l[t[i]] <= max {
      BelowIn(s, elems + q + 1, t[i]);
      BelowIn(s, elems + q, t[i]);
      assert t[i] in t;
      if t[i] != elems + q {
        var j :| 0 <= j < |u| && u[j] == t[i];
      }
    }
  }

  // ---- the cost of the tree itself ----

  // No level of the tree had to be clamped.
  ghost predicate Unclamped(all: seq<nat>, elems: nat, lens: seq<nat>)
  {
    var k := |all| / 2;
    && |all| == 2 * k + 1 && elems + k <= |lens| && (forall i | 0 <= i < |all| :: all[i] < |lens|)
    && lens[all[2 * k]] == 0 && forall i | 0 <= i < 2 * k :: lens[all[i]] == lens[elems + i / 2] + 1
  }

  lemma {:induction false} PairsCost(all: seq<nat>, elems: nat, f: seq<nat>, lens: seq<nat>, q: nat)
    requires Greedy(all, elems, f) && Unclamped(all, elems, lens) && q <= |all| / 2
    ensures Sum(all[..2 * q], Times(f, lens)) == Sum(Created(elems, q), Times(f, lens)) + Merges(elems, f, q)
  {
    hide Sum, Greedy, Unclamped, Times, At;
    if q != 0 {
      PairsCost(all, elems, f, lens, q - 1);
      var p, a, b := elems + q - 1, all[2 * q - 2], all[2 * q - 1];
      PairFacts(all, elems, f, lens, q - 1);
      assert all[..2 * q] == all[..2 * (q - 1)] + [a] + [b];
      assert Created(elems, q) == Created(elems, q - 1) + [p];
      PairAdds(all[..2 * (q - 1)], a, b, Created(elems, q - 1), p, Times(f, lens));
      SumSnoc(Created(elems, q - 1), p, At(f));
    } else {
      NoMerges(elems, f);
      assert all[..0] == Created(elems, 0);
    }
  }

  lemma {:induction false} PairFacts(all: seq<nat>, elems: nat, f: seq<nat>, lens: seq<nat>, q: nat)
    requires Greedy(all, elems, f) && Unclamped(all, elems, lens) && q < |all| / 2
    ensures Times(f, lens)(all[2 * q]) + Times(f, lens)(all[2 * q + 1]) == Times(f, lens)(elems + q) + At(f)(elems + q)
  {
    hide Times, At;
    MergeWeight(all, elems, f, q);
    assert (2 * q) / 2 == q && (2 * q + 1) / 2 == q;
    PairCost(f, lens, elems + q, all[2 * q], all[2 * q + 1]);
  }

  lemma {:induction false} PairCost(f: seq<nat>, lens: seq<nat>, p: nat, a: nat, b: nat)
    requires p < |f| && a < |f| && b < |f| && p < |lens| && a < |lens| && b < |lens|
    requires lens[a] == lens[b] == lens[p] + 1 && f[p] == f[a] + f[b]
    ensures Times(f, lens)(a) + Times(f, lens)(b) == Times(f, lens)(p) + At(f)(p)
  {
    JointCost(f[a], f[b], lens[p] + 1);
  }

  // An unclamped tree costs exactly the weights of its merges.
  lemma {:induction false} TreeCost(all: seq<nat>, elems: nat, leaves: seq<nat>, f: seq<nat>, lens: seq<nat>)
    requires Grown(all, elems, leaves) && Greedy(all, elems, f) && Unclamped(all, elems, lens)
    ensures Sum(leaves, Times(f, lens)) == Merges(elems, f, |all| / 2)
  {
    hide Sum, Greedy;
    var k := |all| / 2;
    PairsCost(all, elems, f, lens, k);
    assert all == all[..2 * k] + [all[2 * k]];
    SumSnoc(all[..2 * k], all[2 * k], Times(f, lens));
    SumSplit(all, leaves, Created(elems, k), Times(f, lens));
  }

  // Before the first merge the leaves are live.
  lemma {:induction false} LeavesLive(all: seq<nat>, elems: nat, leaves: seq<nat>, g: nat -> int)
    requires Grown(all, elems, leaves)
    ensures Sum(LiveAt(all, elems, 0), g) == Sum(leaves, g)
  {
    hide Sum;
    assert all[0..] == all;
    BelowSum(all, elems, g);
    LeavesOnly(all, elems, leaves, Masked(g, elems));
    SumSame(leaves, Masked(g, elems), g);
  }

  lemma {:induction false} LeavesMeasured(all: seq<nat>, elems: nat, leaves: seq<nat>, l: seq<nat>, max: nat)
    requires Grown(all, elems, leaves) && forall n | n in leaves :: n < |l| && l[n] <= max
    ensures Measured(LiveAt(all, elems, 0), l, max)
  {
    assert all[0..] == all;
    GrownDistinct(all, elems, leaves);
    BelowDistinct(all, elems);
    var t := LiveAt(all, elems, 0);
    forall i | 0 <= i < |t| ensures t[i] < |l| && l[t[i]] <= max {
      BelowIn(all, elems, t[i]);
      assert t[i] in t;
    }
  }

  // Huffman's theorem: the levels of the leaves cost no more than any lengths with Kraft sum at most 1.
  lemma {:induction false} LeavesOptimal(all: seq<nat>, elems: nat, leaves: seq<nat>, f: seq<nat>, lens: seq<nat>, other: seq<nat>, max: nat)
    requires Grown(all, elems, leaves) && Greedy(all, elems, f) && Unclamped(all, elems, lens)
    requires |other| == |f| && forall n | n in leaves :: n < |other| && other[n] <= max
    requires Sum(leaves, Weight(other, max)) <= Pow2(max)
    ensures Sum(leaves, Times(f, lens)) <= Sum(leaves, Times(f, other))
  {
    hide Sum, Greedy, Grown, Unclamped, Times, Weight;
    TreeCost(all, elems, leaves, f, lens);
    LeavesLive(all, elems, leaves, Weight(other, max));
    LeavesLive(all, elems, leaves, Times(f, other));
    LeavesMeasured(all, elems, leaves, other, max);
    MergesCost(all, elems, leaves, f, other, max, 0);
    assert Merges(elems, f, 0) == 0 by { NoMerges(elems, f); }
  }

  lemma {:induction false} NoMerges(elems: nat, f: seq<nat>)
    ensures Merges(elems, f, 0) == 0
  {
  }

  // ---- in terms of symbols ----

  // Lengths for at least the symbols that occur.
  ghost predicate Covers(freq: seq<nat>, other: seq<nat>)
  {
    |other| == |freq| && forall n | 0 <= n < |freq| && freq[n] != 0 :: other[n] > 0
  }

  // No prefix code for the symbols that occur takes fewer bits.
  ghost predicate Cheapest(freq: seq<nat>, lens: seq<nat>, extra: seq<nat>)
    requires |lens| == |freq| == |extra|
  {
    forall other: seq<nat>, max: nat :: Covers(freq, other) && Fits(other, max)
      ==> Cost(freq, lens, extra, |freq|) <= Cost(freq, other, extra, |freq|)
  }

  lemma {:induction false} KraftSnoc(lens: seq<nat>, x: nat, max: nat)
    ensures Kraft(lens + [x], max) == Kraft(lens, max) + if 0 < x <= max then Pow2(max - x) else 0
  {
    if max != 0 {
      KraftSnoc(lens, x, max - 1);
      assert (lens + [x])[..|lens|] == lens;
    }
  }

  lemma {:induction false} KraftUsed(freq: seq<nat>, other: seq<nat>, max: nat, n: nat)
    requires Covers(freq, other) && n <= |freq|
    ensures Sum(Used(freq, n), Weight(other, max)) <= Kraft(other[..n], max)
  {
    if n != 0 {
      KraftUsed(freq, other, max, n - 1);
      KraftSnoc(other[..n - 1], other[n - 1], max);
      assert other[..n] == other[..n - 1] + [other[n - 1]];
      SumSnoc(Used(freq, n - 1), n - 1, Weight(other, max));
    }
  }

  // The extra bits are the same for all lengths.
  lemma {:induction false} CostsDiffer(freq: seq<nat>, a: seq<nat>, b: seq<nat>, extra: seq<nat>, n: nat)
    requires n <= |freq| && n <= |a| && n <= |b| && n <= |extra|
    ensures Cost(freq, a, extra, n) - Sum(Used(freq, n), Times(freq, a)) == Cost(freq, b, extra, n) - Sum(Used(freq, n), Times(freq, b))
  {
    if n != 0 {
      CostsDiffer(freq, a, b, extra, n - 1);
      SumSnoc(Used(freq, n - 1), n - 1, Times(freq, a));
      SumSnoc(Used(freq, n - 1), n - 1, Times(freq, b));
      Distributes(freq[n - 1], a[n - 1], extra[n - 1]);
      Distributes(freq[n - 1], b[n - 1], extra[n - 1]);
    }
  }

  lemma {:induction false} TreeCheapest(all: seq<nat>, elems: nat, freq: seq<nat>, f: seq<nat>, lens: seq<nat>, extra: seq<nat>)
    requires |freq| == elems == |extra| && Grown(all, elems, Used(freq, elems)) && Greedy(all, elems, f) && Unclamped(all, elems, lens)
    requires elems <= |f| && elems <= |lens| && f[..elems] == freq
    ensures Cheapest(freq, lens[..elems], extra)
  {
    hide Sum, Greedy, Grown, Unclamped, Kraft, Cost, Weight;
    var leaves, l := Used(freq, elems), lens[..elems];
    UsedSorted(freq, elems);
    assert forall n | 0 <= n < elems :: f[n] == freq[n] by { assert forall n | 0 <= n < elems :: f[..elems][n] == f[n]; }
    forall other: seq<nat>, max: nat | Covers(freq, other) && Fits(other, max)
      ensures Cost(freq, l, extra, elems) <= Cost(freq, other, extra, elems) {
      KraftUsed(freq, other, max, elems);
      assert other[..elems] == other;
      var padded := other + seq(|f| - elems, _ => 0);
      assert forall n | n in leaves :: Weight(other, max)(n) == Weight(padded, max)(n) by { Padding(leaves, other, padded, max); }
      SumSame(leaves, Weight(other, max), Weight(padded, max));
      LeavesOptimal(all, elems, leaves, f, lens, padded, max);
      SumSame(leaves, Times(f, lens), Times(freq, l));
      SumSame(leaves, Times(f, padded), Times(freq, other));
      CostsDiffer(freq, l, other, extra, elems);
    }
  }

  lemma {:induction false} Padding(s: seq<nat>, a: seq<nat>, b: seq<nat>, max: nat)
    requires |a| <= |b| && b[..|a|] == a && forall n | n in s :: n < |a|
    ensures forall n | n in s :: Weight(a, max)(n) == Weight(b, max)(n)
  {
    assert forall n | 0 <= n < |a| :: b[..|a|][n] == b[n];
  }

  // ---- when levels are clamped ----

  function Fib(n: nat): nat
  {
    if n == 0 then 0 else if n == 1 then 1 else Fib(n - 1) + Fib(n - 2)
  }

  lemma {:induction false} FibMono(m: nat, n: nat)
    requires m <= n
    ensures Fib(m) <= Fib(n)
    decreases n - m
  {
    if m < n { FibMono(m, n - 1); }
  }

  // Nodes leave the heap in order of weight.
  lemma {:induction false} PickOrder(all: seq<nat>, elems: nat, leaves: seq<nat>, f: seq<nat>, i: nat, j: nat)
    requires Grown(all, elems, leaves) && Greedy(all, elems, f) && i <= j < 2 * (|all| / 2)
    ensures all[i] < |f| && all[j] < |f| && f[all[i]] <= f[all[j]]
    decreases j - i
  {
    var q := i / 2;
    MergeWeight(all, elems, f, q);
    assert Lightest(all, elems, f, q);
    if i < j {
      PickOrder(all, elems, leaves, f, i + 1, j);
      if i == 2 * q {
        assert all[i + 1] < elems + (i + 1) / 2;
      } else {
        assert i == 2 * q + 1 && all[i + 1] < elems + (i + 1) / 2;
        assert all[i + 1] <= elems + q;
      }
    }
  }

  lemma {:induction false} Positive(all: seq<nat>, elems: nat, leaves: seq<nat>, f: seq<nat>, i: nat)
    requires Grown(all, elems, leaves) && Greedy(all, elems, f) && i < |all| && all[i] < |f|
    requires forall n | n in leaves :: n < |f| && f[n] >= 1
    ensures f[all[i]] >= 1
    decreases all[i]
  {
    GrownDistinct(all, elems, leaves);
    var x := all[i];
    assert x in all;
    if x >= elems {
      var c := Created(elems, |all| / 2);
      assert x !in leaves && x in multiset(all);
      assert x in multiset(leaves) + multiset(c);
      assert x in c;
      var q := x - elems;
      MergeWeight(all, elems, f, q);
      assert all[2 * q] < elems + 2 * q / 2;
      Positive(all, elems, leaves, f, 2 * q);
    }
  }

  // The way up from a node whose weight is at least a Fibonacci number.
  lemma {:induction false} Climb(all: seq<nat>, elems: nat, leaves: seq<nat>, f: seq<nat>, lens: seq<nat>, max: nat, p: nat, h: nat)
    requires Grown(all, elems, leaves) && Greedy(all, elems, f) && Leveled(all, elems, lens, max) && p < |all| / 2
    requires all[2 * p + 1] < |f| && f[elems + p] >= Fib(h + 2) && f[all[2 * p + 1]] >= Fib(h + 1)
    ensures f[elems + |all| / 2 - 1] >= Fib(h + lens[elems + p] + 2)
    decreases |all| / 2 - p
  {
    hide Fib, Grown, Greedy, Leveled;
    if p < |all| / 2 - 1 {
      var q := Father(all, elems, leaves, f, lens, max, p);
      FibStep(h + 1);
      Climb(all, elems, leaves, f, lens, max, q, h + 1);
      FibMono(h + lens[elems + p] + 2, h + 1 + lens[elems + q] + 2);
    } else {
      RootLevel(all, elems, leaves, lens, max);
    }
  }

  lemma {:induction false} RootLevel(all: seq<nat>, elems: nat, leaves: seq<nat>, lens: seq<nat>, max: nat)
    requires Grown(all, elems, leaves) && Leveled(all, elems, lens, max)
    ensures lens[elems + |all| / 2 - 1] == 0
  {
  }

  // The father of an internal node: at most one level up, with a second son no lighter than the node's own.
  lemma {:induction false} Father(all: seq<nat>, elems: nat, leaves: seq<nat>, f: seq<nat>, lens: seq<nat>, max: nat, p: nat) returns (q: nat)
    requires Grown(all, elems, leaves) && Greedy(all, elems, f) && Leveled(all, elems, lens, max) && p < |all| / 2 - 1
    ensures p < q < |all| / 2 && elems + q < |f| && elems + q < |lens| && lens[elems + p] <= lens[elems + q] + 1
    ensures all[2 * p + 1] < |f| && all[2 * q + 1] < |f|
    ensures f[elems + q] >= f[elems + p] + f[all[2 * p + 1]] && f[all[2 * q + 1]] >= f[elems + p]
  {
    var i := IndexOf(all, elems, leaves, p);
    q := i / 2;
    assert lens[all[i]] == Min(lens[elems + i / 2] + 1, max);
    hide Grown, Greedy, Leveled;
    MergeWeight(all, elems, f, q);
    PickOrder(all, elems, leaves, f, 2 * p + 1, 2 * q);
    PickOrder(all, elems, leaves, f, 2 * q, 2 * q + 1);
  }

  lemma {:induction false} IndexOf(all: seq<nat>, elems: nat, leaves: seq<nat>, p: nat) returns (i: nat)
    requires Grown(all, elems, leaves) && p < |all| / 2 - 1
    ensures 2 * p + 2 <= i < |all| - 1 && all[i] == elems + p
  {
    FatherLater(all, elems, leaves, p);
    var j :| 0 <= j < |all| - (2 * p + 2) && all[2 * p + 2..][j] == elems + p;
    i := 2 * p + 2 + j;
    assert all[i] == elems + p;
  }

  lemma {:induction false} FibStep(n: nat)
    ensures Fib(n + 2) == Fib(n + 1) + Fib(n)
  {
  }

  lemma {:induction false} OverWitness(elems: nat, lens: seq<nat>, max: nat, k: nat, top: nat) returns (p: nat)
    requires top % 2 == 0 && elems + top / 2 <= |lens| && Over(elems, lens, max, k, top) > 0
    ensures p < top / 2 && lens[elems + p] == max
    decreases top - k
  {
    if lens[elems + k / 2] == max { p := k / 2; } else { p := OverWitness(elems, lens, max, k + 1, top); }
  }

  // Only very uneven weights make a tree that is deeper than max.
  lemma {:induction false} ClampedHeavy(all: seq<nat>, elems: nat, leaves: seq<nat>, f: seq<nat>, lens: seq<nat>, max: nat)
    requires Grown(all, elems, leaves) && Greedy(all, elems, f) && Leveled(all, elems, lens, max)
    requires (forall n | n in leaves :: n < |f| && f[n] >= 1) && Over(elems, lens, max, 0, |all| - 1) > 0
    ensures f[elems + |all| / 2 - 1] >= Fib(max + 3)
  {
    var p := OverWitness(elems, lens, max, 0, |all| - 1);
    MergeWeight(all, elems, f, p);
    Positive(all, elems, leaves, f, 2 * p);
    Positive(all, elems, leaves, f, 2 * p + 1);
    assert Fib(2) == 1 && Fib(3) == 2;
    Climb(all, elems, leaves, f, lens, max, p, 1);
  }

  // ---- the verdict of the first pass ----

  lemma {:induction false} NoneOver(elems: nat, lens: seq<nat>, max: nat, k: nat, top: nat, i: nat)
    requires top % 2 == 0 && elems + top / 2 <= |lens| && Over(elems, lens, max, k, top) == 0 && k <= i < top
    ensures lens[elems + i / 2] != max
    decreases i - k
  {
    if k < i { NoneOver(elems, lens, max, k + 1, top, i); }
  }

  lemma {:induction false} NotClamped(all: seq<nat>, elems: nat, leaves: seq<nat>, lens: seq<nat>, max: nat)
    requires Grown(all, elems, leaves) && Placing(all, elems, lens, max, 0) && Over(elems, lens, max, 0, |all| - 1) == 0
    ensures Unclamped(all, elems, lens)
  {
    GrownDistinct(all, elems, leaves);
    forall i | 0 <= i < |all| - 1 ensures lens[all[i]] == lens[elems + i / 2] + 1 {
      NoneOver(elems, lens, max, 0, |all| - 1, i);
      var n: nat := elems + i / 2;
      assert n in all;
      var j :| 0 <= j < |all| && all[j] == n;
      assert lens[all[j]] <= max;
    }
  }

  // Without clamping the levels are the cheapest lengths; with clamping the weights are very uneven.
  lemma {:induction false} Verdict(all: seq<nat>, elems: nat, f: seq<nat>, lens: seq<nat>, max: nat, extra: seq<nat>)
    requires elems <= |f| && Grown(all, elems, Used(f, elems)) && Placing(all, elems, lens, max, 0) && Greedy(all, elems, f)
    requires |extra| == elems
    ensures elems <= |lens| && (Over(elems, lens, max, 0, |all| - 1) == 0 ==> Cheapest(f[..elems], lens[..elems], extra))
    ensures Over(elems, lens, max, 0, |all| - 1) > 0 ==> f[elems + |all| / 2 - 1] >= Fib(max + 3)
  {
    hide Greedy, Cheapest, Over, Fib, Used;
    var leaves := Used(f, elems);
    UsedSorted(f, elems);
    if Over(elems, lens, max, 0, |all| - 1) == 0 {
      NotClamped(all, elems, leaves, lens, max);
      UsedPrefix(f, elems, elems);
      TreeCheapest(all, elems, f[..elems], f, lens, extra);
    } else {
      ClampedHeavy(all, elems, leaves, f, lens, max);
    }
  }

  // ---- the weights while the tree grows ----

  // How often the symbols occur in all.
  function Volume(freq: seq<nat>): nat
  {
    if freq == [] then 0 else Volume(freq[..|freq| - 1]) + freq[|freq| - 1]
  }

  lemma {:induction false} VolumeUsed(freq: seq<nat>, n: nat)
    requires n <= |freq|
    ensures Sum(Used(freq, n), At(freq)) == Volume(freq[..n])
  {
    if n != 0 {
      VolumeUsed(freq, n - 1);
      SumSnoc(Used(freq, n - 1), n - 1, At(freq));
      assert freq[..n][..n - 1] == freq[..n - 1];
    }
  }

  lemma {:induction false} VolumeSet(freq: seq<nat>, s: nat, x: nat)
    requires s < |freq|
    ensures Volume(freq[s := x]) == Volume(freq) - freq[s] + x
  {
    var n := |freq| - 1;
    if s < n {
      VolumeSet(freq[..n], s, x);
      assert freq[s := x][..n] == freq[..n][s := x];
    } else {
      assert freq[s := x][..n] == freq[..n];
    }
  }

  lemma {:induction false} VolumeZero(freq: seq<nat>)
    requires forall s | 0 <= s < |freq| :: freq[s] == 0
    ensures Volume(freq) == 0
  {
    if freq != [] { VolumeZero(freq[..|freq| - 1]); }
  }

  lemma {:induction false} VolumeForced(freq: seq<nat>)
    requires |freq| >= 3
    ensures Volume(Forced(freq)) <= Volume(freq) + 2
  {
    var u := Used(freq, |freq|);
    if |u| == 1 && Spare(u[0]) < |freq| {
      VolumeSet(freq, Spare(u[0]), 1);
    } else if |u| < 2 {
      VolumeSet(freq, 0, 1);
      VolumeSet(freq[0 := 1], 1, 1);
    }
  }

  // Merge q of the nodes in kids, with the nodes live still in the heap.
  ghost predicate Chosen(kids: seq<nat>, live: multiset<nat>, elems: nat, f: seq<nat>, q: nat)
    requires 2 * q + 1 < |kids|
  {
    var n, m := kids[2 * q], kids[2 * q + 1];
    && elems + q < |f| && n < elems + q && m < elems + q && f[elems + q] == f[n] + f[m]
    && forall x: nat | x < elems + q && (x in kids[2 * q..] || x in live) :: f[n] <= f[x] && (x != n ==> f[m] <= f[x])
  }

  ghost predicate AllChosen(kids: seq<nat>, live: multiset<nat>, elems: nat, f: seq<nat>)
  {
    forall q | 0 <= q && 2 * q + 1 < |kids| :: Chosen(kids, live, elems, f, q)
  }

  lemma {:induction false} ChosenKept(kids: seq<nat>, live: multiset<nat>, elems: nat, f: seq<nat>, n: nat, m: nat,
                                      live': multiset<nat>, f': seq<nat>, q: nat)
    requires |kids| % 2 == 0 && 2 * q + 1 < |kids| && Chosen(kids, live, elems, f, q) && n in live && m in live
    requires |f'| == |f| && elems + |kids| / 2 < |f| && f'[..elems + |kids| / 2] == f[..elems + |kids| / 2]
    requires forall x: nat | x in live' && x != elems + |kids| / 2 :: x in live
    ensures Chosen(kids + [n, m], live', elems, f', q)
  {
    var kids', p := kids + [n, m], elems + |kids| / 2;
    assert forall x: nat | x < p :: f'[x] == f'[..p][x] && f[x] == f[..p][x];
    assert kids'[2 * q..] == kids[2 * q..] + [n, m];
  }

  lemma {:induction false} ChosenNow(kids: seq<nat>, live: multiset<nat>, elems: nat, f: seq<nat>, n: nat, m: nat,
                                     live': multiset<nat>, f': seq<nat>)
    requires |kids| % 2 == 0 && elems + |kids| / 2 < |f| == |f'| && n in live && m in live && n < |f| && m < |f|
    requires f'[..elems + |kids| / 2] == f[..elems + |kids| / 2]
    requires forall x: nat | x in live :: x < elems + |kids| / 2 && f[n] <= f[x] && (x != n ==> f[m] <= f[x])
    requires forall x: nat | x in live' && x != elems + |kids| / 2 :: x in live
    requires f'[elems + |kids| / 2] == f[n] + f[m]
    ensures Chosen(kids + [n, m], live', elems, f', |kids| / 2)
  {
    var kids', p := kids + [n, m], elems + |kids| / 2;
    assert forall x: nat | x < p :: f'[x] == f'[..p][x] && f[x] == f[..p][x];
    assert kids'[2 * (|kids| / 2)..] == [n, m];
  }

  lemma {:induction false} ChosenGreedy(kids: seq<nat>, root: nat, elems: nat, leaves: seq<nat>, f: seq<nat>)
    requires Grown(kids + [root], elems, leaves) && AllChosen(kids, multiset{root}, elems, f) && elems + |kids| / 2 <= |f|
    ensures Greedy(kids + [root], elems, f)
  {
    var all := kids + [root];
    GrownDistinct(all, elems, leaves);
    forall q | 0 <= q < |all| / 2 && 2 * q + 1 < |all|
      ensures Lightest(all, elems, f, q) && f[elems + q] == f[all[2 * q]] + f[all[2 * q + 1]] {
      assert Chosen(kids, multiset{root}, elems, f, q);
      forall i | 2 * q <= i < |all| && all[i] < elems + q
        ensures f[all[2 * q]] <= f[all[i]] && (i > 2 * q ==> f[all[2 * q + 1]] <= f[all[i]]) {
        if i < |kids| { assert kids[2 * q..][i - 2 * q] == all[i]; }
      }
      forall i | 0 <= i < |all| ensures all[i] < |f| { }
    }
  }
}
