// gen_bitlen of gzip.c: the levels of the tree, clamped, and the repair of the clamped lengths.
module BitLengths {
  import opened Bits
  import opened Sums
  import opened Canonical
  import opened HuffTree

  const HEAP_SIZE := 573
  const MAX_BITS := 15

  // ---- the first pass ----

  // The nodes all[k..] have their level, the others still name their father.
  ghost predicate Placing(all: seq<nat>, elems: nat, lens: seq<nat>, max: nat, k: nat)
  {
    var top := |all| - 1;
    && k <= top && top % 2 == 0 && elems + top / 2 <= |lens|
    && (forall i | 0 <= i <= top :: all[i] < |lens|)
    && lens[all[top]] == 0
    && (forall i | 0 <= i < k :: lens[all[i]] == elems + i / 2)
    && (forall i | k <= i < top :: lens[all[i]] == Min(lens[elems + i / 2] + 1, max))
    && (forall i | k <= i <= top :: lens[all[i]] <= max)
  }

  lemma {:induction false} FatherPlaced(all: seq<nat>, elems: nat, leaves: seq<nat>, lens: seq<nat>, max: nat, k: nat)
    requires Grown(all, elems, leaves) && k < |all| - 1 && Placing(all, elems, lens, max, k + 1)
    ensures lens[elems + k / 2] <= max
  {
    GrownDistinct(all, elems, leaves);
    assert elems + k / 2 in all;
    var p :| 0 <= p < |all| && all[p] == elems + k / 2;
    assert p > k;
  }

  lemma {:induction false} PlaceNode(all: seq<nat>, elems: nat, leaves: seq<nat>, lens: seq<nat>, max: nat, k: nat)
    requires Grown(all, elems, leaves) && k < |all| - 1 && Placing(all, elems, lens, max, k + 1)
    ensures Placing(all, elems, lens[all[k] := Min(lens[elems + k / 2] + 1, max)], max, k)
  {
    GrownDistinct(all, elems, leaves);
    FatherPlaced(all, elems, leaves, lens, max, k);
    PlaceLevel(all, elems, lens, max, k, Min(lens[elems + k / 2] + 1, max));
  }

  lemma {:induction false} PlaceLevel(all: seq<nat>, elems: nat, lens: seq<nat>, max: nat, k: nat, bits: nat)
    requires Distinct(all) && k < |all| - 1 && Placing(all, elems, lens, max, k + 1)
    requires forall i | 0 <= i < |all| - 1 :: all[i] < elems + i / 2
    requires bits == Min(lens[elems + k / 2] + 1, max)
    ensures Placing(all, elems, lens[all[k] := bits], max, k)
  {
    var lens' := lens[all[k] := bits];
    forall i | 0 <= i < |all| && i != k ensures lens'[all[i]] == lens[all[i]] { }
    forall i | k <= i < |all| - 1 ensures lens'[elems + i / 2] == lens[elems + i / 2] { assert all[k] < elems + k / 2 <= elems + i / 2; }
  }

  // How many of the nodes all[k..top] have a father on level max.
  ghost function Over(elems: nat, lens: seq<nat>, max: nat, k: nat, top: nat): nat
    requires top % 2 == 0 && elems + top / 2 <= |lens|
    decreases top - k
  {
    if k >= top then 0
    else Over(elems, lens, max, k + 1, top) + if lens[elems + k / 2] == max then 1 else 0
  }

  lemma {:induction false} OverStable(elems: nat, lens: seq<nat>, max: nat, k: nat, top: nat, n: nat, x: nat)
    requires top % 2 == 0 && elems + top / 2 <= |lens| && n < |lens| && n < elems + k / 2
    ensures Over(elems, lens[n := x], max, k, top) == Over(elems, lens, max, k, top)
    decreases top - k
  {
    if k < top { OverStable(elems, lens, max, k + 1, top, n, x); }
  }

  lemma {:induction false} OverPairs(elems: nat, lens: seq<nat>, max: nat, q: nat, k: nat)
    requires q <= k && elems + k <= |lens|
    ensures Over(elems, lens, max, 2 * q, 2 * k)
            == 2 * (Sum(Created(elems, k), AtLevel(lens, max)) - Sum(Created(elems, q), AtLevel(lens, max)))
    decreases k - q
  {
    hide Over, Sum, AtLevel;
    if q < k {
      OverPairs(elems, lens, max, q + 1, k);
      OverTwo(elems, lens, max, q, k);
      LevelAt(lens, max, elems + q);
      assert Created(elems, q + 1) == Created(elems, q) + [elems + q];
      SumSnoc(Created(elems, q), elems + q, AtLevel(lens, max));
    } else {
      OverNone(elems, lens, max, 2 * k);
    }
  }

  lemma {:induction false} OverTwo(elems: nat, lens: seq<nat>, max: nat, q: nat, k: nat)
    requires q < k && elems + k <= |lens|
    ensures Over(elems, lens, max, 2 * q, 2 * k) == Over(elems, lens, max, 2 * q + 2, 2 * k) + if lens[elems + q] == max then 2 else 0
  {
    assert (2 * q) / 2 == q && (2 * q + 1) / 2 == q;
    assert Over(elems, lens, max, 2 * q + 1, 2 * k) == Over(elems, lens, max, 2 * q + 2, 2 * k) + if lens[elems + q] == max then 1 else 0;
  }

  lemma {:induction false} OverNone(elems: nat, lens: seq<nat>, max: nat, top: nat)
    requires top % 2 == 0 && elems + top / 2 <= |lens|
    ensures Over(elems, lens, max, top, top) == 0
  {
  }

  lemma {:induction false} LevelAt(lens: seq<nat>, max: nat, n: nat)
    requires n < |lens|
    ensures AtLevel(lens, max)(n) == if lens[n] == max then 1 else 0
  {
  }

  // ---- weights of leaves ----

  ghost function LeafAt(lens: seq<nat>, elems: nat, b: nat): nat -> int
  {
    (n: nat) => if n < elems && n < |lens| && lens[n] == b then 1 else 0
  }

  ghost function LeafCost(freq: seq<nat>, lens: seq<nat>, extra: seq<nat>): nat -> int
  {
    (n: nat) => if n < |freq| && n < |lens| && n < |extra| then freq[n] * (lens[n] + extra[n]) else 0
  }

  ghost predicate CountsOf(counts: seq<nat>, s: seq<nat>, lens: seq<nat>, elems: nat)
  {
    forall b | 0 <= b < |counts| :: counts[b] == Sum(s, LeafAt(lens, elems, b))
  }

  // What one turn of the first pass adds to each sum.
  lemma {:induction false} PlaceCounts(rest: seq<nat>, n: nat, bits: nat, elems: nat, lens: seq<nat>, counts: seq<nat>)
    requires n !in rest && n < |lens| && bits < |counts| && CountsOf(counts, rest, lens, elems)
    ensures CountsOf(if n < elems then counts[bits := counts[bits] + 1] else counts,
                     [n] + rest, lens[n := bits], elems)
  {
    var counts' := if n < elems then counts[bits := counts[bits] + 1] else counts;
    assert ([n] + rest)[1..] == rest;
    forall b | 0 <= b < |counts'|
      ensures counts'[b] == Sum([n] + rest, LeafAt(lens[n := bits], elems, b))
    {
      SumSame(rest, LeafAt(lens[n := bits], elems, b), LeafAt(lens, elems, b));
    }
  }

  lemma {:induction false} PlaceCost(rest: seq<nat>, n: nat, bits: nat, lens: seq<nat>, freq: seq<nat>, extra: seq<nat>)
    requires n !in rest && n < |lens| && |extra| <= |freq|
    ensures Sum([n] + rest, LeafCost(freq, lens[n := bits], extra))
            == Sum(rest, LeafCost(freq, lens, extra)) + if n < |extra| then freq[n] * (bits + extra[n]) else 0
  {
    assert ([n] + rest)[1..] == rest;
    SumSame(rest, LeafCost(freq, lens[n := bits], extra), LeafCost(freq, lens, extra));
  }

  lemma {:induction false} PlaceOver(all: seq<nat>, elems: nat, leaves: seq<nat>, lens: seq<nat>, max: nat, k: nat)
    requires Grown(all, elems, leaves) && k < |all| - 1 && Placing(all, elems, lens, max, k + 1)
    ensures var n, dad := all[k], elems + k / 2;
            lens[dad] <= max
            && Over(elems, lens[n := Min(lens[dad] + 1, max)], max, k, |all| - 1)
               == Over(elems, lens, max, k + 1, |all| - 1) + if lens[dad] == max then 1 else 0
  {
    var n, dad := all[k], elems + k / 2;
    FatherPlaced(all, elems, leaves, lens, max, k);
    OverStable(elems, lens, max, k + 1, |all| - 1, n, Min(lens[dad] + 1, max));
  }

  lemma {:induction false} PlaceStatic(rest: seq<nat>, n: nat, freq: seq<nat>, stat: seq<nat>, extra: seq<nat>)
    requires |extra| <= |freq| && (stat == [] || |stat| == |extra|)
    ensures Sum([n] + rest, LeafCost(freq, stat, extra))
            == Sum(rest, LeafCost(freq, stat, extra)) + if n < |stat| then freq[n] * (stat[n] + extra[n]) else 0
  {
    assert ([n] + rest)[1..] == rest;
  }

  // Everything one turn of the first pass needs to know about its node.
  lemma {:induction false} PlaceFacts(all: seq<nat>, elems: nat, leaves: seq<nat>, lens: seq<nat>, max: nat, k: nat)
    requires Grown(all, elems, leaves) && k < |all| - 1 && Placing(all, elems, lens, max, k + 1)
    ensures var n, dad := all[k], elems + k / 2;
            && n < |lens| && dad < |lens| && lens[n] == dad && lens[dad] <= max
            && n !in all[k + 1..] && (n < elems ==> n in leaves)
            && Placing(all, elems, lens[n := Min(lens[dad] + 1, max)], max, k)
            && Over(elems, lens[n := Min(lens[dad] + 1, max)], max, k, |all| - 1)
               == Over(elems, lens, max, k + 1, |all| - 1) + if lens[dad] == max then 1 else 0
  {
    PlaceNode(all, elems, leaves, lens, max, k);
    PlaceOver(all, elems, leaves, lens, max, k);
    GrownDistinct(all, elems, leaves);
  }

  // The sums of one turn of the first pass.
  lemma {:induction false} PlaceSums(rest: seq<nat>, n: nat, bits: nat, elems: nat, lens: seq<nat>, counts: seq<nat>,
                                     freq: seq<nat>, extra: seq<nat>, stat: seq<nat>)
    requires n !in rest && n < |lens| && bits < |counts| && CountsOf(counts, rest, lens, elems)
    requires |extra| == elems <= |freq| && (stat == [] || |stat| == elems)
    ensures CountsOf(if n < elems then counts[bits := counts[bits] + 1] else counts,
                     [n] + rest, lens[n := bits], elems)
    ensures Sum([n] + rest, LeafCost(freq, lens[n := bits], extra))
            == Sum(rest, LeafCost(freq, lens, extra)) + if n < elems then freq[n] * (bits + extra[n]) else 0
    ensures Sum([n] + rest, LeafCost(freq, stat, extra))
            == Sum(rest, LeafCost(freq, stat, extra)) + if n < |stat| then freq[n] * (stat[n] + extra[n]) else 0
  {
    hide CountsOf, LeafCost, Sum;
    PlaceCounts(rest, n, bits, elems, lens, counts);
    PlaceCost(rest, n, bits, lens, freq, extra);
    PlaceStatic(rest, n, freq, stat, extra);
  }

  // The sums over the root alone, which is no leaf.
  lemma {:induction false} StartSums(all: seq<nat>, elems: nat, leaves: seq<nat>, lens: seq<nat>, counts: seq<nat>,
                                     freq: seq<nat>, extra: seq<nat>, max: nat)
    requires Grown(all, elems, leaves) && |extra| == elems && forall b | 0 <= b < |counts| :: counts[b] == 0
    requires elems + |all| / 2 <= |lens|
    requires forall i | 0 <= i < |all| :: all[i] < |lens|
    requires forall i | 0 <= i < |all| - 1 :: lens[all[i]] == elems + i / 2
    ensures var k := |all| - 1;
            && CountsOf(counts, all[k..], lens[all[k] := 0], elems)
            && Sum(all[k..], LeafCost(freq, lens[all[k] := 0], extra)) == 0
            && Placing(all, elems, lens[all[k] := 0], max, k)
  {
    var k := |all| - 1;
    GrownDistinct(all, elems, leaves);
    assert all[k..] == [all[k]];
    var lens' := lens[all[k] := 0];
    forall b | 0 <= b < |counts| ensures counts[b] == Sum(all[k..], LeafAt(lens', elems, b)) {
      assert all[k..][1..] == [];
    }
  }

  lemma {:induction false} StartFacts(all: seq<nat>, elems: nat, leaves: seq<nat>, lens: seq<nat>, counts: seq<nat>,
                                      freq: seq<nat>, extra: seq<nat>, stat: seq<nat>, max: nat)
    requires Grown(all, elems, leaves) && |extra| == elems && forall b | 0 <= b < |counts| :: counts[b] == 0
    requires elems + |all| / 2 <= |lens| && (stat == [] || |stat| == elems)
    requires forall i | 0 <= i < |all| :: all[i] < |lens|
    requires forall i | 0 <= i < |all| - 1 :: lens[all[i]] == elems + i / 2
    ensures var k := |all| - 1;
            && k >= 2 && k % 2 == 0
            && CountsOf(counts, all[k..], lens[all[k] := 0], elems)
            && Sum(all[k..], LeafCost(freq, lens[all[k] := 0], extra)) == 0
            && Sum(all[k..], LeafCost(freq, stat, extra)) == 0
            && Placing(all, elems, lens[all[k] := 0], max, k)
            && Over(elems, lens[all[k] := 0], max, k, k) == 0
  {
    StartSums(all, elems, leaves, lens, counts, freq, extra, max);
    var k := |all| - 1;
    assert all[k..] == [all[k]];
    assert all[k..][1..] == [];
  }

  // ---- the Kraft sum of the counts ----

  function KraftOf(counts: seq<nat>, l: nat): nat
    requires l < |counts|
  {
    if l == 0 then 0 else 2 * KraftOf(counts, l - 1) + counts[l]
  }

  function Total(counts: seq<nat>, l: nat): nat
    requires l < |counts|
  {
    if l == 0 then 0 else Total(counts, l - 1) + counts[l]
  }

  // x * 2^k
  function Scaled(x: int, k: nat): int
  {
    if k == 0 then x else 2 * Scaled(x, k - 1)
  }

  lemma {:induction false} ScaledLinear(x: int, y: int, k: nat)
    ensures Scaled(x + y, k) == Scaled(x, k) + Scaled(y, k)
    ensures Scaled(1, k) == Pow2(k)
  {
    if k != 0 { ScaledLinear(x, y, k - 1); }
  }

  lemma {:induction false} SetCount(counts: seq<nat>, l: nat, b: nat, c: nat)
    requires l < |counts| && 1 <= b < |counts|
    ensures Total(counts[b := c], l) == Total(counts, l) + if b <= l then c - counts[b] else 0
    ensures KraftOf(counts[b := c], l) == KraftOf(counts, l) + if b <= l then Scaled(c - counts[b], l - b) else 0
  {
    if l != 0 { SetCount(counts, l - 1, b, c); }
  }

  // One turn of the repair: a leaf moves from level b to b + 1, and one from max becomes its brother.
  function Repaired(counts: seq<nat>, max: nat, b: nat): seq<nat>
    requires 1 <= b < max < |counts| && counts[b] > 0 && counts[max] > 0
  {
    var c1 := counts[b := counts[b] - 1];
    var c2 := c1[b + 1 := c1[b + 1] + 2];
    c2[max := c2[max] - 1]
  }

  lemma {:induction false} RepairStep(counts: seq<nat>, max: nat, b: nat)
    requires 1 <= b < max < |counts| && counts[b] > 0 && counts[max] > 0
    ensures var c := Repaired(counts, max, b);
            && Total(c, max) == Total(counts, max)
            && KraftOf(c, max) == KraftOf(counts, max) - 1
            && KraftOf(c, max - 1) <= KraftOf(counts, max - 1)
            && c[0] == counts[0] && (forall i | max < i < |counts| :: c[i] == counts[i])
  {
    hide KraftOf, Total, Scaled;
    RepairSums(counts, max, b, max);
    RepairSums(counts, max, b, max - 1);
    MoveDownCost(max - b);
    if b + 1 < max {
      MoveDownCost(max - 1 - b);
    } else {
      ScaledLinear(1, -1, 0);
      ScaledZero(0);
    }
    assert Scaled(-1, 0) == -1 by { ScaledLinear(1, -1, 0); ScaledZero(0); assert Pow2(0) == 1; }
  }

  lemma {:induction false} RepairSums(counts: seq<nat>, max: nat, b: nat, l: nat)
    requires 1 <= b < max < |counts| && counts[b] > 0 && counts[max] > 0 && b <= l <= max
    ensures var c := Repaired(counts, max, b);
            && Total(c, l) == Total(counts, l) - 1 + (if b < l then 2 else 0) - (if l == max then 1 else 0)
            && KraftOf(c, l) == KraftOf(counts, l) + Scaled(-1, l - b) + (if b < l then Scaled(2, l - b - 1) else 0)
                                + (if l == max then Scaled(-1, 0) else 0)
  {
    hide KraftOf, Total, Scaled;
    var c1 := counts[b := counts[b] - 1];
    var c2 := c1[b + 1 := c1[b + 1] + 2];
    SetCount(counts, l, b, counts[b] - 1);
    SetCount(c1, l, b + 1, c1[b + 1] + 2);
    SetCount(c2, l, max, c2[max] - 1);
  }

  lemma {:induction false} MoveDownCost(k: nat)
    requires k > 0
    ensures Scaled(-1, k) + Scaled(2, k - 1) == 0
  {
    ScaledLinear(1, 1, k - 1);
    ScaledLinear(1, -1, k);
    ScaledZero(k);
  }

  lemma {:induction false} ScaledZero(k: nat)
    ensures Scaled(0, k) == 0
  {
    if k != 0 { ScaledZero(k - 1); }
  }

  // While the leaves are too heavy, there is a leaf on a level above max, because elems <= 2^max, and
  // one on level max.
  lemma {:induction false} RepairPossible(counts: seq<nat>, max: nat)
    requires 1 <= max < |counts| && KraftOf(counts, max) > Pow2(max)
    requires KraftOf(counts, max - 1) <= Pow2(max - 1) && Total(counts, max) <= Pow2(max)
    ensures counts[max] > 0
    ensures exists b :: 1 <= b < max && counts[b] > 0
  {
    if forall b | 1 <= b < max :: counts[b] == 0 {
      NoShortLeaf(counts, max - 1);
    }
  }

  lemma {:induction false} NoShortLeaf(counts: seq<nat>, l: nat)
    requires l < |counts| && forall b | 1 <= b <= l :: counts[b] == 0
    ensures KraftOf(counts, l) == 0 && Total(counts, l) == 0
  {
    if l != 0 { NoShortLeaf(counts, l - 1); }
  }

  // ---- from nodes to counts ----

  ghost function LeafWeight(lens: seq<nat>, elems: nat, max: nat): nat -> int
  {
    (n: nat) => if n < elems && n < |lens| && lens[n] <= max then Pow2(max - lens[n]) else 0
  }

  ghost function IsLeaf(elems: nat): nat -> int
  {
    (n: nat) => if n < elems then 1 else 0
  }

  ghost predicate LeafLevels(s: seq<nat>, lens: seq<nat>, elems: nat, max: nat)
  {
    forall n | n in s && n < elems :: n < |lens| && 1 <= lens[n] <= max
  }

  lemma {:induction false} CountsWeigh(counts: seq<nat>, s: seq<nat>, lens: seq<nat>, elems: nat, max: nat)
    requires max < |counts| && CountsOf(counts, s, lens, elems) && LeafLevels(s, lens, elems, max)
    ensures KraftOf(counts, max) == Sum(s, LeafWeight(lens, elems, max))
    ensures Total(counts, max) == Sum(s, IsLeaf(elems))
    decreases |s|
  {
    if s == [] {
      assert forall b | 1 <= b <= max :: counts[b] == 0;
      NoShortLeaf(counts, max);
    } else if s[0] >= elems {
      CountsWeigh(counts, s[1..], lens, elems, max);
    } else {
      CountsTail(counts, s, lens, elems, max);
      var b := lens[s[0]];
      var counts' := counts[b := counts[b] - 1];
      CountsWeigh(counts', s[1..], lens, elems, max);
      SetCount(counts', max, b, counts[b]);
      assert counts'[b := counts[b]] == counts;
      ScaledLinear(1, 0, max - b);
      assert LeafWeight(lens, elems, max)(s[0]) == Pow2(max - b);
    }
  }

  // Without its first leaf.
  lemma {:induction false} CountsTail(counts: seq<nat>, s: seq<nat>, lens: seq<nat>, elems: nat, max: nat)
    requires max < |counts| && CountsOf(counts, s, lens, elems) && LeafLevels(s, lens, elems, max) && s != [] && s[0] < elems
    ensures s[0] < |lens| && 1 <= lens[s[0]] <= max && counts[lens[s[0]]] > 0
    ensures CountsOf(counts[lens[s[0]] := counts[lens[s[0]]] - 1], s[1..], lens, elems) && LeafLevels(s[1..], lens, elems, max)
  {
    assert s[0] in s;
    var b := lens[s[0]];
    SumLeafNonneg(s[1..], lens, elems, b);
    assert counts[b] == 1 + Sum(s[1..], LeafAt(lens, elems, b));
    var counts' := counts[b := counts[b] - 1];
    forall c | 0 <= c < |counts'| ensures counts'[c] == Sum(s[1..], LeafAt(lens, elems, c)) {
      assert Sum(s, LeafAt(lens, elems, c)) == LeafAt(lens, elems, c)(s[0]) + Sum(s[1..], LeafAt(lens, elems, c));
    }
  }

  lemma {:induction false} SumLeafNonneg(s: seq<nat>, lens: seq<nat>, elems: nat, b: nat)
    ensures Sum(s, LeafAt(lens, elems, b)) >= 0
  {
    if s != [] { SumLeafNonneg(s[1..], lens, elems, b); }
  }

  lemma {:induction false} SumZero(s: seq<nat>, f: nat -> int)
    requires forall n | n in s :: f(n) == 0
    ensures Sum(s, f) == 0
  {
    if s != [] {
      assert forall n | n in s[1..] :: n in s;
      SumZero(s[1..], f);
    }
  }

  // Of all nodes only the leaves count.
  lemma {:induction false} LeavesOnly(all: seq<nat>, elems: nat, leaves: seq<nat>, f: nat -> int)
    requires Grown(all, elems, leaves) && forall n | n >= elems :: f(n) == 0
    ensures Sum(all, f) == Sum(leaves, f)
  {
    var c := Created(elems, |all| / 2);
    SumSplit(all, leaves, c, f);
    SumZero(c, f);
  }

  // After the first pass: twice the excess of the Kraft sum is the number of clamped nodes, and the
  // repair can start.
  lemma {:induction false} FirstPassDone(all: seq<nat>, elems: nat, leaves: seq<nat>, lens: seq<nat>, max: nat,
                                         counts: seq<nat>)
    requires Grown(all, elems, leaves) && Placing(all, elems, lens, max, 0) && 1 <= max < |counts|
    requires CountsOf(counts, all, lens, elems)
    ensures LeafLevels(all, lens, elems, max)
    ensures 2 * KraftOf(counts, max) == 2 * Pow2(max) + Over(elems, lens, max, 0, |all| - 1)
    ensures KraftOf(counts, max - 1) <= Pow2(max - 1)
    ensures Total(counts, max) == |leaves|
  {
    hide KraftOf, Total, Over, Placing, CountsOf, Sum, Pow2, Leveled, Grown, LeafLevels;
    var k := |all| / 2;
    AllLeveled(all, elems, leaves, lens, max);
    ClampExcess(all, elems, leaves, lens, max);
    OverPairs(elems, lens, max, 0, k);
    assert Sum(Created(elems, 0), AtLevel(lens, max)) == 0 by { SumZero([], AtLevel(lens, max)); }
    CountsWeigh(counts, all, lens, elems, max);
    LeafSums(all, elems, leaves, lens, max);
    FewDeep(counts, all, lens, elems, max);
  }

  lemma {:induction false} AllLeveled(all: seq<nat>, elems: nat, leaves: seq<nat>, lens: seq<nat>, max: nat)
    requires Grown(all, elems, leaves) && Placing(all, elems, lens, max, 0) && 1 <= max
    ensures |all| >= 3 && (|all| - 1) % 2 == 0 && elems + (|all| - 1) / 2 <= |lens|
    ensures LeafLevels(all, lens, elems, max) && Leveled(all, elems, lens, max)
    ensures forall n | elems <= n < elems + |all| / 2 :: lens[n] <= max
  {
    GrownDistinct(all, elems, leaves);
    LevelsPositive(all, elems, lens, max);
    forall n | elems <= n < elems + |all| / 2 ensures lens[n] <= max { assert n in all; }
  }

  // The sums over all nodes that only the leaves count in.
  lemma {:induction false} LeafSums(all: seq<nat>, elems: nat, leaves: seq<nat>, lens: seq<nat>, max: nat)
    requires Grown(all, elems, leaves) && LeafLevels(all, lens, elems, max)
    ensures Sum(all, LeafWeight(lens, elems, max)) == Sum(leaves, Weight(lens, max))
    ensures Sum(all, IsLeaf(elems)) == |leaves|
    ensures Sum(all, LeafAt(lens, elems, max)) == Sum(leaves, AtLevel(lens, max))
  {
    hide Sum, Pow2;
    LeavesOnly(all, elems, leaves, LeafWeight(lens, elems, max));
    SumSame(leaves, LeafWeight(lens, elems, max), Weight(lens, max));
    LeavesOnly(all, elems, leaves, IsLeaf(elems));
    SumOnes(leaves, elems);
    LeavesOnly(all, elems, leaves, LeafAt(lens, elems, max));
    SumSame(leaves, LeafAt(lens, elems, max), AtLevel(lens, max));
  }

  lemma {:induction false} FewDeep(counts: seq<nat>, all: seq<nat>, lens: seq<nat>, elems: nat, max: nat)
    requires 1 <= max < |counts| && CountsOf(counts, all, lens, elems)
    ensures KraftOf(counts, max) == 2 * KraftOf(counts, max - 1) + Sum(all, LeafAt(lens, elems, max)) && Pow2(max) == 2 * Pow2(max - 1)
  {
    hide Sum;
  }

  lemma {:induction false} LevelsPositive(all: seq<nat>, elems: nat, lens: seq<nat>, max: nat)
    requires Placing(all, elems, lens, max, 0) && max >= 1 && |all| >= 3 && all[|all| - 1] >= elems
    ensures LeafLevels(all, lens, elems, max)
  {
    forall n | n in all && n < elems ensures n < |lens| && 1 <= lens[n] <= max {
      var i :| 0 <= i < |all| && all[i] == n;
      assert lens[all[i]] <= max;
    }
  }

  lemma {:induction false} SumOnes(s: seq<nat>, elems: nat)
    requires forall n | n in s :: n < elems
    ensures Sum(s, IsLeaf(elems)) == |s|
  {
    if s != [] {
      assert s[0] in s && forall n | n in s[1..] :: n in s;
      SumOnes(s[1..], elems);
    }
  }

  // ---- the last pass: leaves get the repaired lengths, least frequent first ----

  // all[..p] have their final lengths; n leaves of length bits and all shorter ones are still to come.
  ghost predicate Assigning(all: seq<nat>, elems: nat, lens: seq<nat>, counts: seq<nat>, max: nat, p: nat, bits: nat, n: nat)
  {
    && p <= |all| && max < |counts| && 1 <= bits <= max && n <= counts[bits]
    && LeafLevels(all[..p], lens, elems, max)
    && Sum(all[p..], IsLeaf(elems)) == n + Total(counts, bits - 1)
    && forall b | 1 <= b <= max :: Sum(all[..p], LeafAt(lens, elems, b)) == counts[b] - ToCome(counts, bits, n, b)
  }

  function ToCome(counts: seq<nat>, bits: nat, n: nat, b: nat): nat
    requires b < |counts|
  {
    if b < bits then counts[b] else if b == bits then n else 0
  }

  lemma {:induction false} SkipNode(all: seq<nat>, elems: nat, lens: seq<nat>, counts: seq<nat>, max: nat, p: nat, bits: nat, n: nat)
    requires Assigning(all, elems, lens, counts, max, p, bits, n) && p < |all| && all[p] >= elems
    ensures Assigning(all, elems, lens, counts, max, p + 1, bits, n)
  {
    assert all[p..][1..] == all[p + 1..];
    assert all[..p + 1] == all[..p] + [all[p]];
    forall b | 1 <= b <= max
      ensures Sum(all[..p + 1], LeafAt(lens, elems, b)) == counts[b] - ToCome(counts, bits, n, b)
    {
      SumSnoc(all[..p], all[p], LeafAt(lens, elems, b));
    }
  }

  lemma {:induction false} AssignNode(all: seq<nat>, elems: nat, lens: seq<nat>, counts: seq<nat>, max: nat, p: nat, bits: nat, n: nat)
    requires Assigning(all, elems, lens, counts, max, p, bits, n) && p < |all| && Distinct(all)
    requires all[p] < elems && all[p] < |lens| && n > 0
    ensures Assigning(all, elems, lens[all[p] := bits], counts, max, p + 1, bits, n - 1)
  {
    var m := all[p];
    var lens' := lens[m := bits];
    assert all[p..][1..] == all[p + 1..];
    assert all[..p + 1] == all[..p] + [m];
    assert m !in all[..p];
    forall b | 1 <= b <= max
      ensures Sum(all[..p + 1], LeafAt(lens', elems, b)) == counts[b] - ToCome(counts, bits, n - 1, b)
    {
      SumSnoc(all[..p], m, LeafAt(lens', elems, b));
      SumSame(all[..p], LeafAt(lens', elems, b), LeafAt(lens, elems, b));
    }
  }

  lemma {:induction false} NextLength(all: seq<nat>, elems: nat, lens: seq<nat>, counts: seq<nat>, max: nat, p: nat, bits: nat)
    requires Assigning(all, elems, lens, counts, max, p, bits, 0) && bits > 1
    ensures Assigning(all, elems, lens, counts, max, p, bits - 1, counts[bits - 1])
  {
  }

  lemma {:induction false} StartAssigning(all: seq<nat>, elems: nat, leaves: seq<nat>, lens: seq<nat>, counts: seq<nat>, max: nat)
    requires Grown(all, elems, leaves) && 1 <= max < |counts| && Total(counts, max) == |leaves|
    ensures Assigning(all, elems, lens, counts, max, 0, max, counts[max])
  {
    assert all[0..] == all && all[..0] == [];
    LeavesOnly(all, elems, leaves, IsLeaf(elems));
    SumOnes(leaves, elems);
  }

  // A leaf is still to come, so the heap is not exhausted.
  lemma {:induction false} MoreToCome(all: seq<nat>, elems: nat, lens: seq<nat>, counts: seq<nat>, max: nat, p: nat, bits: nat, n: nat)
    requires Assigning(all, elems, lens, counts, max, p, bits, n) && n > 0
    ensures p < |all|
  {
    var s := all[p..];
    assert |s| == |all| - p;
  }

  // When the counts are used up, every leaf has its length, and the counts are those of the lengths.
  lemma {:induction false} AllAssigned(all: seq<nat>, elems: nat, lens: seq<nat>, counts: seq<nat>, max: nat, p: nat)
    requires Assigning(all, elems, lens, counts, max, p, 1, 0)
    ensures LeafLevels(all, lens, elems, max)
    ensures forall b | 1 <= b <= max :: counts[b] == Sum(all, LeafAt(lens, elems, b))
  {
    assert all == all[..p] + all[p..];
    assert forall n | n in all :: n in all[..p] || n in all[p..];
    NoLeafLeft(all[p..], elems);
    forall b | 1 <= b <= max ensures counts[b] == Sum(all, LeafAt(lens, elems, b)) {
      SumAppend(all[..p], all[p..], LeafAt(lens, elems, b));
      SumZero(all[p..], LeafAt(lens, elems, b));
    }
  }

  lemma {:induction false} NoLeafLeft(s: seq<nat>, elems: nat)
    requires Sum(s, IsLeaf(elems)) == 0
    ensures forall n | n in s :: n >= elems
  {
    if s != [] {
      LeafSumNonneg(s[1..], elems);
      NoLeafLeft(s[1..], elems);
      assert s == [s[0]] + s[1..];
    }
  }

  lemma {:induction false} LeafSumNonneg(s: seq<nat>, elems: nat)
    ensures Sum(s, IsLeaf(elems)) >= 0
  {
    if s != [] { LeafSumNonneg(s[1..], elems); }
  }

  // Changing one length changes the cost by frequency times difference.
  lemma {:induction false} CostPoint(all: seq<nat>, p: nat, lens: seq<nat>, x: nat, freq: seq<nat>, extra: seq<nat>)
    requires Distinct(all) && p < |all| && all[p] < |lens| && all[p] < |extra| <= |freq|
    ensures Sum(all, LeafCost(freq, lens[all[p] := x], extra))
            == Sum(all, LeafCost(freq, lens, extra)) + freq[all[p]] * (x - lens[all[p]])
  {
    hide Sum;
    var m, lens' := all[p], lens[all[p] := x];
    SumPoint(all, p, LeafCost(freq, lens, extra), LeafCost(freq, lens', extra));
    assert freq[m] * (x + extra[m]) == freq[m] * (lens[m] + extra[m]) + freq[m] * (x - lens[m]);
  }

  // ---- from nodes back to symbols ----

  // The symbols below n that occur.
  function Used(freq: seq<nat>, n: nat): seq<nat>
    requires n <= |freq|
  {
    if n == 0 then []
    else if freq[n - 1] != 0 then Used(freq, n - 1) + [n - 1]
    else Used(freq, n - 1)
  }

  lemma {:induction false} UsedSorted(freq: seq<nat>, n: nat)
    requires n <= |freq|
    ensures Distinct(Used(freq, n)) && |Used(freq, n)| <= n
    ensures forall s :: s in Used(freq, n) <==> 0 <= s < n && freq[s] != 0
  {
    if n != 0 { UsedSorted(freq, n - 1); }
  }

  // The bits that symbols of these frequencies take with these lengths, extra bits included.
  ghost function Cost(freq: seq<nat>, lens: seq<nat>, extra: seq<nat>, n: nat): int
    requires n <= |freq| && n <= |lens| && n <= |extra|
  {
    if n == 0 then 0 else Cost(freq, lens, extra, n - 1) + freq[n - 1] * (lens[n - 1] + extra[n - 1])
  }

  lemma {:induction false} UsedCost(freq: seq<nat>, lens: seq<nat>, extra: seq<nat>, n: nat)
    requires n <= |freq| && n <= |lens| && n <= |extra|
    ensures Sum(Used(freq, n), LeafCost(freq, lens, extra)) == Cost(freq, lens, extra, n)
  {
    if n != 0 {
      UsedCost(freq, lens, extra, n - 1);
      SumSnoc(Used(freq, n - 1), n - 1, LeafCost(freq, lens, extra));
    }
  }

  lemma {:induction false} UsedCount(freq: seq<nat>, lens: seq<nat>, elems: nat, n: nat, b: nat)
    requires n <= elems <= |freq| && elems <= |lens| && b >= 1
    requires forall s | 0 <= s < elems && freq[s] == 0 :: lens[s] == 0
    ensures Sum(Used(freq, n), LeafAt(lens, elems, b)) == Count(lens[..n], b)
  {
    if n != 0 {
      UsedCount(freq, lens, elems, n - 1, b);
      SumSnoc(Used(freq, n - 1), n - 1, LeafAt(lens, elems, b));
      assert lens[..n][..n - 1] == lens[..n - 1];
    }
  }

  lemma {:induction false} KraftCounts(counts: seq<nat>, lens: seq<nat>, l: nat)
    requires l < |counts| && forall b | 1 <= b <= l :: counts[b] == Count(lens, b)
    ensures KraftOf(counts, l) == Kraft(lens, l)
  {
    if l != 0 { KraftCounts(counts, lens, l - 1); }
  }

  // Code lengths for exactly the symbols that occur, with Kraft sum 1, and their statistics.
  ghost predicate GoodLengths(freq: seq<nat>, lens: seq<nat>, elems: nat, max: nat, counts: seq<nat>)
  {
    && |lens| == elems <= |freq| && |counts| == MAX_BITS + 1
    && (forall n | 0 <= n < elems :: if freq[n] == 0 then lens[n] == 0 else 1 <= lens[n] <= max)
    && Kraft(lens, max) == Pow2(max)
    && counts[0] == 0 && (forall b | 1 <= b <= MAX_BITS :: counts[b] == Count(lens, b))
  }

  // Lengths on the leaves of the tree are lengths of the symbols.
  lemma {:induction false} LeafLengthsGood(all: seq<nat>, elems: nat, freq: seq<nat>, lens: seq<nat>, max: nat, counts: seq<nat>)
    requires elems <= |freq| && elems <= |lens| && Grown(all, elems, Used(freq, elems))
    requires |counts| == MAX_BITS + 1 && 1 <= max <= MAX_BITS
    requires forall s | 0 <= s < elems && freq[s] == 0 :: lens[s] == 0
    requires LeafLevels(all, lens, elems, max) && KraftOf(counts, max) == Pow2(max)
    requires CountsOf(counts, all, lens, elems)
    ensures GoodLengths(freq, lens[..elems], elems, max, counts)
  {
    var leaves := Used(freq, elems);
    UsedSorted(freq, elems);
    GrownDistinct(all, elems, leaves);
    forall n | 0 <= n < elems ensures if freq[n] == 0 then lens[n] == 0 else 1 <= lens[n] <= max {
      if freq[n] != 0 { assert n in leaves; }
    }
    forall b | 1 <= b <= MAX_BITS ensures counts[b] == Count(lens[..elems], b) {
      LeavesOnly(all, elems, leaves, LeafAt(lens, elems, b));
      UsedCount(freq, lens, elems, elems, b);
    }
    assert counts[0] == 0 by { SumZero(all, LeafAt(lens, elems, 0)); }
    KraftCounts(counts, lens[..elems], max);
  }

  // With no leaf on level 0 or beyond max, the outer counts are zero.
  lemma {:induction false} OuterCounts(all: seq<nat>, lens: seq<nat>, elems: nat, max: nat, counts: seq<nat>)
    requires LeafLevels(all, lens, elems, max) && |counts| == MAX_BITS + 1 && max <= MAX_BITS
    requires forall b | 1 <= b <= max :: counts[b] == Sum(all, LeafAt(lens, elems, b))
    requires counts[0] == 0 && forall b | max < b <= MAX_BITS :: counts[b] == 0
    ensures CountsOf(counts, all, lens, elems)
  {
    forall b | 0 <= b < |counts| ensures counts[b] == Sum(all, LeafAt(lens, elems, b)) {
      if b == 0 || b > max { SumZero(all, LeafAt(lens, elems, b)); }
    }
  }

  lemma {:induction false} OuterZero(all: seq<nat>, lens: seq<nat>, elems: nat, max: nat, counts: seq<nat>)
    requires LeafLevels(all, lens, elems, max) && CountsOf(counts, all, lens, elems) && |counts| == MAX_BITS + 1
    ensures counts[0] == 0 && forall b | max < b <= MAX_BITS :: counts[b] == 0
  {
    forall b | 0 <= b <= MAX_BITS && (b == 0 || b > max) ensures counts[b] == 0 {
      SumZero(all, LeafAt(lens, elems, b));
    }
  }

  // The passes leave the lengths of unused symbols at 0.
  lemma {:induction false} StillUnused(all: seq<nat>, freq: seq<nat>, lens0: seq<nat>, lens: seq<nat>, elems: nat)
    requires elems <= |freq| && elems <= |lens0| == |lens| && Grown(all, elems, Used(freq, elems))
    requires forall n | 0 <= n < elems && freq[n] == 0 :: lens0[n] == 0
    requires forall n | 0 <= n < |lens| && n !in all :: lens[n] == lens0[n]
    ensures forall n | 0 <= n < elems && freq[n] == 0 :: lens[n] == 0
  {
    UsedSorted(freq, elems);
    GrownDistinct(all, elems, Used(freq, elems));
  }

  lemma {:induction false} CostOfLeaves(all: seq<nat>, elems: nat, freq: seq<nat>, lens: seq<nat>, extra: seq<nat>)
    requires elems <= |freq| && elems <= |lens| && |extra| == elems && Grown(all, elems, Used(freq, elems))
    ensures Sum(all, LeafCost(freq, lens, extra)) == Cost(freq, lens[..elems], extra, elems)
  {
    LeavesOnly(all, elems, Used(freq, elems), LeafCost(freq, lens, extra));
    UsedSorted(freq, elems);
    SumSame(Used(freq, elems), LeafCost(freq, lens, extra), LeafCost(freq, lens[..elems], extra));
    UsedCost(freq, lens[..elems], extra, elems);
  }

  lemma {:induction false} CostOfStatic(all: seq<nat>, elems: nat, freq: seq<nat>, stat: seq<nat>, extra: seq<nat>)
    requires elems <= |freq| && (stat == [] || |stat| == elems) && |extra| == elems
    requires Grown(all, elems, Used(freq, elems))
    ensures Sum(all, LeafCost(freq, stat, extra)) == if stat == [] then 0 else Cost(freq, stat, extra, elems)
  {
    if stat == [] {
      SumZero(all, LeafCost(freq, stat, extra));
    } else {
      CostOfLeaves(all, elems, freq, stat, extra);
      assert stat[..elems] == stat;
    }
  }

  // With two symbols nothing is clamped, and both lengths are 1.
  lemma {:induction false} TwoLeaves(all: seq<nat>, elems: nat, freq: seq<nat>, lens: seq<nat>, max: nat)
    requires elems <= |freq| && Grown(all, elems, Used(freq, elems)) && |Used(freq, elems)| == 2
    requires Placing(all, elems, lens, max, 0) && max >= 1
    ensures Over(elems, lens, max, 0, |all| - 1) == 0
    ensures forall n | 0 <= n < elems && freq[n] != 0 :: lens[n] == 1
  {
    var leaves := Used(freq, elems);
    assert |all| == |multiset(all)| == |multiset(leaves)| + |multiset(Created(elems, |all| / 2))|;
    assert |all| == 3;
    UsedSorted(freq, elems);
    GrownDistinct(all, elems, leaves);
    assert lens[all[2]] == 0 && all[2] == elems;
    assert lens[all[0]] == 1 && lens[all[1]] == 1;
    forall n | 0 <= n < elems && freq[n] != 0 ensures lens[n] == 1 {
      assert n in leaves && n in all;
    }
    assert Over(elems, lens, max, 1, 2) == 0;
  }

  // ---- symbols forced in so that there are at least two ----

  function Spare(n: nat): nat
  {
    if n < 2 then n + 1 else 0
  }

  // The frequencies with unused symbols forced in until two symbols occur.
  function Forced(freq: seq<nat>): (r: seq<nat>)
    requires |freq| >= 3
    ensures |r| == |freq|
  {
    var u := Used(freq, |freq|);
    if |u| >= 2 then freq
    else if |u| == 1 && Spare(u[0]) < |freq| then freq[Spare(u[0]) := 1]
    else freq[0 := 1][1 := 1]
  }

  lemma {:induction false} UsedOnce(freq: seq<nat>, n: nat, x: nat)
    requires n <= |freq|
    ensures multiset(Used(freq, n))[x] == if x < n && freq[x] != 0 then 1 else 0
  {
    UsedSorted(freq, n);
    DistinctCount(Used(freq, n), x);
    assert x in Used(freq, n) <==> x in multiset(Used(freq, n));
  }

  lemma {:induction false} UsedInsert(freq: seq<nat>, s: nat, n: nat)
    requires s < n <= |freq| && freq[s] == 0
    ensures multiset(Used(freq[s := 1], n)) == multiset(Used(freq, n)) + multiset{s}
  {
    hide Used;
    forall x: nat
      ensures multiset(Used(freq[s := 1], n))[x] == (multiset(Used(freq, n)) + multiset{s})[x]
    {
      UsedOnce(freq, n, x);
      UsedOnce(freq[s := 1], n, x);
    }
  }

  lemma {:induction false} NoneUsed(freq: seq<nat>, n: nat)
    requires n <= |freq| && forall s | 0 <= s < n :: freq[s] == 0
    ensures Used(freq, n) == []
  {
    if n != 0 { NoneUsed(freq, n - 1); }
  }

  lemma {:induction false} CostInsert(freq: seq<nat>, s: nat, lens: seq<nat>, extra: seq<nat>, n: nat)
    requires s < |freq| && freq[s] == 0 && n <= |freq| && n <= |lens| && n <= |extra|
    ensures Cost(freq[s := 1], lens, extra, n)
            == Cost(freq, lens, extra, n) + if s < n then lens[s] + extra[s] else 0
  {
    if n != 0 { CostInsert(freq, s, lens, extra, n - 1); }
  }

  lemma {:induction false} CostSame(freq: seq<nat>, lens: seq<nat>, lens': seq<nat>, extra: seq<nat>, n: nat)
    requires n <= |freq| && n <= |lens| && n <= |lens'| && n <= |extra|
    requires forall s | 0 <= s < n && freq[s] != 0 :: lens[s] == lens'[s]
    ensures Cost(freq, lens, extra, n) == Cost(freq, lens', extra, n)
  {
    if n != 0 { CostSame(freq, lens, lens', extra, n - 1); }
  }

  function Ones(n: nat): (r: seq<nat>)
    ensures |r| == n && forall i | 0 <= i < n :: r[i] == 1
  {
    seq(n, _ => 1)
  }

  // One turn of the forcing loop: s is unused, and forcing it brings Forced(freq) nearer.
  lemma {:induction false} ForceOne(freq: seq<nat>, maxCode: int)
    requires |freq| >= 3 && |Used(freq, |freq|)| < 2 && -1 <= maxCode < |freq|
    requires maxCode >= 0 ==> freq[maxCode] != 0
    requires forall n | maxCode < n < |freq| :: n >= 0 && freq[n] == 0
    ensures var s: nat := if maxCode < 2 then maxCode + 1 else 0;
            && 0 <= s < 3 && freq[s] == 0
            && |Used(freq[s := 1], |freq|)| == |Used(freq, |freq|)| + 1
            && multiset(Used(freq[s := 1], |freq|)) == multiset(Used(freq, |freq|)) + multiset{s}
            && Forced(freq[s := 1]) == Forced(freq)
  {
    var u := OnlyUsed(freq, maxCode);
    var s: nat := if maxCode < 2 then maxCode + 1 else 0;
    UsedInsert(freq, s, |freq|);
    var u' := Used(freq[s := 1], |freq|);
    hide Used;
    assert |u'| == |multiset(u')| == |multiset(u)| + 1;
    if maxCode < 0 {
      assert u' == [0] by { assert 0 in multiset(u'); assert u'[0] in multiset(u'); }
    }
  }

  // Fewer than two symbols occur: the largest, or none.
  lemma {:induction false} OnlyUsed(freq: seq<nat>, maxCode: int) returns (u: seq<nat>)
    requires |Used(freq, |freq|)| < 2 && -1 <= maxCode < |freq|
    requires maxCode >= 0 ==> freq[maxCode] != 0
    requires forall n | maxCode < n < |freq| :: n >= 0 && freq[n] == 0
    ensures u == Used(freq, |freq|) == if maxCode >= 0 then [maxCode] else []
    ensures forall n | 0 <= n < |freq| && n != maxCode :: freq[n] == 0
  {
    hide Used;
    u := Used(freq, |freq|);
    UsedSorted(freq, |freq|);
    if maxCode >= 0 {
      assert maxCode in u;
      assert u == [maxCode];
      forall n | 0 <= n < |freq| && n != maxCode ensures freq[n] == 0 { assert n !in u; }
    } else {
      NoneUsed(freq, |freq|);
    }
  }

  // When symbols are forced, the cost with all lengths 1 is the cost.
  lemma {:induction false} ForcedCost(freq: seq<nat>, lens: seq<nat>, extra: seq<nat>, n: nat)
    requires |freq| == |lens| == |extra| == n && n >= 3
    requires |Used(freq, n)| < 2 ==> forall s | 0 <= s < n && Forced(freq)[s] != 0 :: lens[s] == 1
    ensures Cost(Forced(freq), lens, extra, n) - Cost(Forced(freq), Ones(n), extra, n)
            == Cost(freq, lens, extra, n) - Cost(freq, Ones(n), extra, n)
  {
    if |Used(freq, n)| < 2 {
      CostSame(Forced(freq), lens, Ones(n), extra, n);
      CostSame(freq, lens, Ones(n), extra, n);
    }
  }

  lemma {:induction false} UsedPrefix(freq: seq<nat>, n: nat, k: nat)
    requires k <= n <= |freq|
    ensures Used(freq[..n], k) == Used(freq, k)
  {
    if k != 0 { UsedPrefix(freq, n, k - 1); }
  }

  lemma {:induction false} CostPrefix(freq: seq<nat>, lens: seq<nat>, extra: seq<nat>, n: nat, k: nat)
    requires k <= n <= |freq| && k <= |lens| && k <= |extra|
    ensures Cost(freq[..n], lens, extra, k) == Cost(freq, lens, extra, k)
  {
    if k != 0 { CostPrefix(freq, lens, extra, n, k - 1); }
  }
}
