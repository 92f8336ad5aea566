// The merging loop of build_tree, one step at a time.
module Merge {
  import opened Sums
  import opened HuffTree
  import opened BitLengths
  import opened PriorityHeap
  import opened Optimal

  ghost predicate IsHeap(a: seq<nat>, len: nat, f: seq<nat>, d: seq<nat>)
  {
    Nodes(a, len, f, d) && Ordered(a, len, f, d, 1)
  }

  ghost function Live(a: seq<nat>, len: nat): multiset<nat>
    requires len < |a|
  {
    multiset(a[1..len + 1])
  }

  lemma {:induction false} HeapParts(a: seq<nat>, len: nat, f: seq<nat>, d: seq<nat>)
    requires IsHeap(a, len, f, d)
    ensures Nodes(a, len, f, d) && Ordered(a, len, f, d, 1) && len < |a|
  {
  }

  // n is the least node of the heap a of len nodes, and a' is the heap without it.
  ghost predicate Popped(a: seq<nat>, len: nat, a': seq<nat>, n: nat, f: seq<nat>, d: seq<nat>)
  {
    && 1 < len < |a| == |a'| && IsHeap(a', len - 1, f, d)
    && Live(a, len) == Live(a', len - 1) + multiset{n}
    && a'[len + 1..] == a[len + 1..]
    && n < |f| <= |d| && forall x | x in Live(a, len) :: x < |f| && Smaller(f, d, n, x)
  }

  lemma {:induction false} PopDone(a: seq<nat>, len: nat, a': seq<nat>, f: seq<nat>, d: seq<nat>)
    requires IsHeap(a, len, f, d) && 1 < len < |a|
    requires Nodes(a', len - 1, f, d) && Ordered(a', len - 1, f, d, 1) && Rearranged(a[1 := a[len]], a', len - 1)
    ensures Popped(a, len, a', a[1], f, d)
  {
    hide Ordered;
    RootReplaced(a, len, f, d);
    LeastOfAll(a, len, f, d);
    var h := a[1 := a[len]];
    assert a'[len + 1..] == a'[len..][1..] == h[len..][1..] == a[len + 1..];
  }

  lemma {:induction false} LeastOfAll(heap: seq<nat>, len: nat, freq: seq<nat>, depth: seq<nat>)
    requires Nodes(heap, len, freq, depth) && Ordered(heap, len, freq, depth, 1) && 1 <= len
    ensures forall x | x in Live(heap, len) :: x < |freq| && Smaller(freq, depth, heap[1], x)
  {
    forall x | x in Live(heap, len) ensures x < |freq| && Smaller(freq, depth, heap[1], x) {
      assert x in heap[1..len + 1];
      var i :| 0 <= i < len && heap[1..len + 1][i] == x;
      RootLeast(heap, len, freq, depth, i + 1);
    }
  }

  // The fresh node takes the place of the root of a, and a' is the heap again.
  ghost predicate Pushed(a: seq<nat>, len: nat, a': seq<nat>, node: nat, f: seq<nat>, f': seq<nat>, d': seq<nat>)
  {
    && 1 <= len < |a| == |a'| && IsHeap(a', len, f', d')
    && Live(a', len) + multiset{a[1]} == Live(a, len) + multiset{node}
    && a'[len + 1..] == a[len + 1..]
    && node < |f| == |f'| && f'[..node] == f[..node]
  }

  // The fresh node at the root, before it is sifted down.
  lemma {:induction false} PushStart(a: seq<nat>, len: nat, node: nat, w: nat, f: seq<nat>, d: seq<nat>, d': seq<nat>)
    requires IsHeap(a, len, f, d) && 1 <= len && node < |f| && |d'| == |d| && forall i | 0 < i <= len :: a[i] != node
    requires forall i | 0 <= i < |d| && i != node :: d'[i] == d[i]
    ensures Nodes(a[1 := node], len, f[node := w], d') && Ordered(a[1 := node], len, f[node := w], d', 2)
  {
    hide Ordered;
    FreshRoot(a, len, f, d, f[node := w], d', node);
  }

  lemma {:induction false} PushDone(a: seq<nat>, len: nat, a': seq<nat>, node: nat, w: nat, f: seq<nat>, d': seq<nat>)
    requires 1 <= len && node < |f| && Nodes(a', len, f[node := w], d') && Ordered(a', len, f[node := w], d', 1)
    requires len < |a| && Rearranged(a[1 := node], a', len)
    ensures Pushed(a, len, a', node, f, f[node := w], d')
  {
    hide Ordered, Nodes;
    RootSwapped(a, len, node);
    assert f[node := w][..node] == f[..node];
    assert a[1 := node][len + 1..] == a[len + 1..];
  }

  lemma {:induction false} RootSwapped(a: seq<nat>, len: nat, node: nat)
    requires 1 <= len < |a|
    ensures multiset(a[1..len + 1]) + multiset{node} == multiset(a[1 := node][1..len + 1]) + multiset{a[1]}
  {
    var rest := a[2..len + 1];
    assert a[1..len + 1] == [a[1]] + rest && a[1 := node][1..len + 1] == [node] + rest;
  }

  // The end of the heap array holds kids, last first.
  ghost predicate Stacked(a: seq<nat>, kids: seq<nat>)
  {
    |kids| <= |a| && forall i | 0 <= i < |kids| :: a[|a| - 1 - i] == kids[i]
  }

  lemma {:induction false} StackedKept(a: seq<nat>, a': seq<nat>, from: nat, kids: seq<nat>)
    requires Stacked(a, kids) && |a| == |a'| && from + |kids| <= |a| && a'[from..] == a[from..]
    ensures Stacked(a', kids)
  {
    forall i | 0 <= i < |kids| ensures a'[|a| - 1 - i] == kids[i] {
      var j := |a| - 1 - i;
      assert a'[from..][j - from] == a[from..][j - from];
    }
  }

  // Dad of the nodes 2q and 2q + 1 of kids is the internal node elems + q.
  ghost predicate Fathered(lens: seq<nat>, kids: seq<nat>, elems: nat)
  {
    forall i | 0 <= i < |kids| :: kids[i] < |lens| && lens[kids[i]] == elems + i / 2
  }

  ghost predicate Unused(lens: seq<nat>, freq: seq<nat>)
    requires |freq| <= |lens|
  {
    forall n | 0 <= n < |freq| && freq[n] == 0 :: lens[n] == 0
  }

  // The variables of build_tree: the heap array, heap_len, heap_max, Freq, depth and Dad, with the
  // frequencies at the start and the nodes merged so far.
  datatype Snapshot = Snapshot(a: seq<nat>, len: nat, top: nat, f: seq<nat>, d: seq<nat>, lens: seq<nat>,
                               elems: nat, freq: seq<nat>, kids: seq<nat>)

  ghost predicate Sizes(s: Snapshot)
  {
    && |s.a| == |s.d| == HEAP_SIZE && 3 <= s.elems == |s.freq| <= 286
    && |s.f| == |s.lens| == 2 * s.elems + 1
    && 1 <= s.len && s.top == HEAP_SIZE - |s.kids| && |s.kids| % 2 == 0
    && s.len + |s.kids| / 2 == |Used(s.freq, s.elems)| <= s.elems
  }

  ghost predicate Merging(s: Snapshot)
  {
    && Sizes(s) && s.f[..s.elems] == s.freq
    && IsHeap(s.a, s.len, s.f, s.d)
    && Growing(Live(s.a, s.len), s.kids, s.elems, Used(s.freq, s.elems))
    && Stacked(s.a, s.kids) && Fathered(s.lens, s.kids, s.elems) && Unused(s.lens, s.freq)
  }

  lemma {:induction false} MergingHeap(s: Snapshot)
    requires Merging(s)
    ensures Sizes(s) && IsHeap(s.a, s.len, s.f, s.d)
  {
  }

  // Store the two nodes at the end of the heap array.
  ghost function Kept(s: Snapshot, a1: seq<nat>, n: nat): seq<nat>
    requires 2 <= s.top <= |a1| && |a1| > 1
  {
    a1[s.top - 1 := n][s.top - 2 := a1[1]]
  }

  // After the least node n has been taken out, and the next least node m is at the root.
  lemma {:induction false} Picked(s: Snapshot, a1: seq<nat>, n: nat)
    requires Merging(s) && s.len >= 2 && Popped(s.a, s.len, a1, n, s.f, s.d)
    ensures var node, m := s.elems + |s.kids| / 2, a1[1];
            && n != m && n < node && m < node < |s.f| && s.len + 1 < s.top <= |a1|
            && IsHeap(Kept(s, a1, n), s.len - 1, s.f, s.d) && Kept(s, a1, n)[1] == m
            && forall i | 0 < i <= s.len - 1 :: Kept(s, a1, n)[i] != node
  {
    hide Ordered, Used, Growing;
    var node, m := s.elems + |s.kids| / 2, a1[1];
    var live, live1 := Live(s.a, s.len), Live(a1, s.len - 1);
    assert m == a1[1..s.len][0] && m in live1;
    TwoLive(live, live1, s.kids, s.elems, Used(s.freq, s.elems), n, m);
    OrderedPrefix(a1, Kept(s, a1, n), s.len - 1, s.f, s.d);
    forall i | 0 < i <= s.len - 1 ensures a1[i] != node {
      assert a1[i] == a1[1..s.len][i - 1] && a1[i] in live1;
    }
  }

  lemma {:induction false} TwoLive(live: multiset<nat>, live1: multiset<nat>, kids: seq<nat>, elems: nat,
                                   leaves: seq<nat>, n: nat, m: nat)
    requires Growing(live, kids, elems, leaves) && live == live1 + multiset{n} && m in live1
    ensures n in live && m in live && n != m && n < elems + |kids| / 2 && m < elems + |kids| / 2
    ensures n !in kids && m !in kids && (n < elems ==> n in leaves) && (m < elems ==> m in leaves)
    ensures forall x | x in live1 :: x < elems + |kids| / 2
  {
    LiveNode(live, kids, elems, leaves, n);
    LiveNode(live, kids, elems, leaves, m);
    assert live[n] == live1[n] + 1;
    forall x | x in live1 ensures x < elems + |kids| / 2 {
      assert live[x] >= live1[x];
      LiveNode(live, kids, elems, leaves, x);
    }
  }

  // The two nodes have their father, which is back in the heap.
  lemma {:induction false} Merged(s: Snapshot, a1: seq<nat>, n: nat, a3: seq<nat>, f3: seq<nat>, d3: seq<nat>)
    requires Merging(s) && s.len >= 2 && Popped(s.a, s.len, a1, n, s.f, s.d) && s.len + 1 < s.top <= |a1|
    requires |d3| == HEAP_SIZE && n < |s.lens| && a1[1] < |s.lens|
    requires Pushed(Kept(s, a1, n), s.len - 1, a3, s.elems + |s.kids| / 2, s.f, f3, d3)
    ensures var node, m := s.elems + |s.kids| / 2, a1[1];
            && Merging(Snapshot(a3, s.len - 1, s.top - 2, f3, d3, s.lens[n := node][m := node],
                                s.elems, s.freq, s.kids + [n, m]))
            && (s.len == 2 ==> a3[1] == node)
  {
    hide Ordered, Nodes, Used, Growing, Stacked, Fathered, Unused, Smaller;
    var node, m := s.elems + |s.kids| / 2, a1[1];
    var a2, kids' := Kept(s, a1, n), s.kids + [n, m];
    MergedLive(s, a1, n, a3);
    MergedStack(s, a1, n, a3);
    MergedDads(s, a1, n);
    assert f3[..s.elems] == f3[..node][..s.elems] == s.f[..node][..s.elems] == s.freq;
    PairAdded(s.kids, n, m);
  }

  // The nodes of the heap before and after n and m have been replaced by their father.
  ghost predicate Replaced(live: multiset<nat>, live1: multiset<nat>, live3: multiset<nat>, n: nat, m: nat, node: nat)
  {
    live == live1 + multiset{n} && m in live1 && live3 + multiset{m} == live1 + multiset{node}
  }

  lemma {:induction false} LiveReplaced(s: Snapshot, a1: seq<nat>, n: nat, a3: seq<nat>)
    requires Sizes(s) && s.len >= 2 && |a1| == |a3| == |s.a| && s.len + 1 < s.top <= |a1|
    requires Live(s.a, s.len) == Live(a1, s.len - 1) + multiset{n}
    requires Live(a3, s.len - 1) + multiset{a1[1]} == Live(Kept(s, a1, n), s.len - 1) + multiset{s.elems + |s.kids| / 2}
    ensures Replaced(Live(s.a, s.len), Live(a1, s.len - 1), Live(a3, s.len - 1), n, a1[1], s.elems + |s.kids| / 2)
  {
    hide Used;
    assert a1[1] == a1[1..s.len][0] && a1[1] in Live(a1, s.len - 1);
    assert Kept(s, a1, n)[1..s.len] == a1[1..s.len];
  }

  lemma {:induction false} MergedLive(s: Snapshot, a1: seq<nat>, n: nat, a3: seq<nat>)
    requires Sizes(s) && Growing(Live(s.a, s.len), s.kids, s.elems, Used(s.freq, s.elems))
    requires s.len >= 2 && |a1| == |a3| == |s.a| && s.len + 1 < s.top <= |a1|
    requires Live(s.a, s.len) == Live(a1, s.len - 1) + multiset{n}
    requires Live(a3, s.len - 1) + multiset{a1[1]} == Live(Kept(s, a1, n), s.len - 1) + multiset{s.elems + |s.kids| / 2}
    ensures Growing(Live(a3, s.len - 1), s.kids + [n, a1[1]], s.elems, Used(s.freq, s.elems))
    ensures s.len == 2 ==> a3[1] == s.elems + |s.kids| / 2
  {
    hide Used, Growing, Live, Replaced;
    LiveReplaced(s, a1, n, a3);
    GrowingReplaced(Live(s.a, s.len), Live(a1, s.len - 1), Live(a3, s.len - 1), s.kids, s.elems, Used(s.freq, s.elems), n, a1[1]);
    if s.len == 2 { LastLive(a1, a3, Live(s.a, 2), n, s.elems + |s.kids| / 2); }
  }

  lemma {:induction false} GrowingReplaced(live: multiset<nat>, live1: multiset<nat>, live3: multiset<nat>, kids: seq<nat>,
                                           elems: nat, leaves: seq<nat>, n: nat, m: nat)
    requires Growing(live, kids, elems, leaves) && Replaced(live, live1, live3, n, m, elems + |kids| / 2)
    ensures Growing(live3, kids + [n, m], elems, leaves)
  {
    hide Growing;
    TwoLive(live, live1, kids, elems, leaves, n, m);
    Reordered(live, live1, live3, n, m, elems + |kids| / 2);
    MergePair(live, live3, kids, elems, leaves, n, m);
  }

  // Two nodes have become one.
  lemma {:induction false} LastLive(a1: seq<nat>, a3: seq<nat>, live: multiset<nat>, n: nat, node: nat)
    requires |a1| > 1 && |a3| > 1 && Replaced(live, Live(a1, 1), Live(a3, 1), n, a1[1], node)
    ensures a3[1] == node
  {
    assert a1[1..2] == [a1[1]] && a3[1..2] == [a3[1]];
    assert multiset{a3[1]} + multiset{a1[1]} == multiset{a1[1]} + multiset{node};
    Single(a3[1], a1[1], node);
  }

  lemma {:induction false} Single(x: nat, m: nat, y: nat)
    requires multiset{x} + multiset{m} == multiset{m} + multiset{y}
    ensures x == y
  {
    assert (multiset{x} + multiset{m})[y] == (multiset{m} + multiset{y})[y];
  }

  lemma {:induction false} Reordered(live: multiset<nat>, live1: multiset<nat>, live3: multiset<nat>, n: nat, m: nat, x: nat)
    requires live == live1 + multiset{n} && live3 + multiset{m} == live1 + multiset{x}
    ensures live3 + multiset{n} + multiset{m} == live + multiset{x}
  {
    forall y: nat ensures (live3 + multiset{n} + multiset{m})[y] == (live + multiset{x})[y] {
      assert (live3 + multiset{m})[y] == (live1 + multiset{x})[y];
    }
  }

  lemma {:induction false} MergedStack(s: Snapshot, a1: seq<nat>, n: nat, a3: seq<nat>)
    requires Sizes(s) && Stacked(s.a, s.kids) && s.len >= 2 && |a1| == |a3| == |s.a| && s.len + 1 < s.top <= |a1|
    requires a1[s.len + 1..] == s.a[s.len + 1..] && a3[s.len..] == Kept(s, a1, n)[s.len..]
    ensures Stacked(a3, s.kids + [n, a1[1]])
  {
    StackedKept(s.a, a1, s.len + 1, s.kids);
    assert Stacked(Kept(s, a1, n), s.kids + [n, a1[1]]);
    StackedKept(Kept(s, a1, n), a3, s.len, s.kids + [n, a1[1]]);
  }

  lemma {:induction false} MergedDads(s: Snapshot, a1: seq<nat>, n: nat)
    requires Merging(s) && s.len >= 2 && Popped(s.a, s.len, a1, n, s.f, s.d)
    requires n < |s.lens| && a1[1] < |s.lens|
    ensures var node, m := s.elems + |s.kids| / 2, a1[1];
            && Fathered(s.lens[n := node][m := node], s.kids + [n, m], s.elems)
            && Unused(s.lens[n := node][m := node], s.freq)
  {
    hide Growing, IsHeap, Fathered, Unused, Stacked;
    var node, m := s.elems + |s.kids| / 2, a1[1];
    assert m == a1[1..s.len][0] && m in Live(a1, s.len - 1);
    TwoLive(Live(s.a, s.len), Live(a1, s.len - 1), s.kids, s.elems, Used(s.freq, s.elems), n, m);
    UsedSorted(s.freq, s.elems);
    FatherTwo(s.lens, s.kids, s.elems, n, m);
    UnusedTwo(s.lens, s.freq, n, m, node);
  }

  lemma {:induction false} FatherTwo(lens: seq<nat>, kids: seq<nat>, elems: nat, n: nat, m: nat)
    requires Fathered(lens, kids, elems) && |kids| % 2 == 0 && n !in kids && m !in kids && n < |lens| && m < |lens|
    ensures var node := elems + |kids| / 2; Fathered(lens[n := node][m := node], kids + [n, m], elems)
  {
  }

  lemma {:induction false} UnusedTwo(lens: seq<nat>, freq: seq<nat>, n: nat, m: nat, x: nat)
    requires |freq| <= |lens| && Unused(lens, freq) && n < |lens| && m < |lens|
    requires (n < |freq| ==> freq[n] != 0) && (m < |freq| ==> freq[m] != 0)
    ensures Unused(lens[n := x][m := x], freq)
  {
  }

  // Nothing is merged yet: the live nodes are the symbols.
  lemma {:induction false} MergingStart(s: Snapshot)
    requires Sizes(s) && s.kids == [] && s.f[..s.elems] == s.freq && IsHeap(s.a, s.len, s.f, s.d)
    requires Live(s.a, s.len) == multiset(Used(s.freq, s.elems)) && Unused(s.lens, s.freq)
    ensures Merging(s)
  {
    UsedSorted(s.freq, s.elems);
  }

  // One node is left, the root: the tree is complete.
  lemma {:induction false} MergingDone(s: Snapshot)
    requires Merging(s) && s.len == 1 && |s.kids| >= 2 && s.a[1] == s.elems + |s.kids| / 2 - 1
    ensures var all := s.kids + [s.a[1]];
            && Grown(all, s.elems, Used(s.freq, s.elems)) && |all| / 2 == |s.kids| / 2
            && s.elems + |all| / 2 <= |s.lens| && |all| + 1 < HEAP_SIZE
            && (forall i | 0 <= i < |all| :: all[i] < |s.lens|)
            && (forall i | 0 <= i < |all| - 1 :: s.lens[all[i]] == s.elems + i / 2)
            && Stacked(s.a, s.kids) && Unused(s.lens, s.freq)
  {
    assert s.a[1..2] == [s.a[1]];
    GrownAtLast(s.a[1], s.kids, s.elems, Used(s.freq, s.elems));
  }

  // ---- the weights ----

  // Unless the 16-bit frequencies can wrap: every merge has joined the two lightest nodes, and no weight is lost.
  ghost predicate Weighed(s: Snapshot)
  {
    s.len < |s.a| && (Volume(s.freq) < 0x10000 ==>
      AllChosen(s.kids, Live(s.a, s.len), s.elems, s.f) && Sum(s.a[1..s.len + 1], At(s.f)) == Volume(s.freq))
  }

  lemma {:induction false} WeighedStart(s: Snapshot)
    requires Merging(s) && s.kids == []
    ensures Weighed(s)
  {
    hide IsHeap, Used, Stacked, Fathered, Unused, Sum;
    var u := Used(s.freq, s.elems);
    UsedSorted(s.freq, s.elems);
    assert Created(s.elems, 0) == [] && |s.kids| / 2 == 0;
    assert Live(s.a, s.len) == Live(s.a, s.len) + multiset(s.kids) == multiset(u) + multiset(Created(s.elems, 0)) == multiset(u);
    SumPermuted(s.a[1..s.len + 1], u, At(s.f));
    forall x | x in u ensures At(s.f)(x) == At(s.freq)(x) { assert s.f[..s.elems][x] == s.f[x]; }
    SumSame(u, At(s.f), At(s.freq));
    VolumeUsed(s.freq, s.elems);
    assert s.freq[..s.elems] == s.freq;
  }

  lemma {:induction false} SumMoved(x: seq<nat>, m: nat, y: seq<nat>, p: nat, g: nat -> int)
    requires multiset(x) + multiset{m} == multiset(y) + multiset{p}
    ensures Sum(x, g) + g(m) == Sum(y, g) + g(p)
  {
    assert multiset(x + [m]) == multiset(x) + multiset{m} && multiset(y + [p]) == multiset(y) + multiset{p};
    SumPermuted(x + [m], y + [p], g);
    SumSnoc(x, m, g);
    SumSnoc(y, p, g);
  }

  lemma {:induction false} SumMember(s: seq<nat>, m: nat, f: seq<nat>)
    ensures Sum(s, At(f)) >= 0 && (m in s ==> Sum(s, At(f)) >= At(f)(m))
  {
    if s != [] { SumMember(s[1..], m, f); }
  }

  // The second node taken is the lightest of the others.
  lemma {:induction false} TwoLightest(a: seq<nat>, len: nat, a1: seq<nat>, n: nat, f: seq<nat>, d: seq<nat>, x: nat)
    requires Popped(a, len, a1, n, f, d) && x in Live(a, len)
    ensures x < |f| && n < |f| && a1[1] < |f| && f[n] <= f[x] && (x != n ==> f[a1[1]] <= f[x])
  {
    HeapParts(a1, len - 1, f, d);
    LeastOfAll(a1, len - 1, f, d);
    if x != n { assert x in Live(a1, len - 1); }
  }

  // No weight wraps, and none is lost.
  lemma {:induction false} WeightKept(x: seq<nat>, x1: seq<nat>, x3: seq<nat>, n: nat, m: nat, node: nat, f: seq<nat>, f3: seq<nat>)
    requires Replaced(multiset(x), multiset(x1), multiset(x3), n, m, node) && node < |f| == |f3| && f3[..node] == f[..node]
    requires n < node && m < node && (forall y | y in x1 :: y < node)
    requires f3[node] == (f[n] + f[m]) % 0x10000 && Sum(x, At(f)) < 0x10000
    ensures f3[node] == f[n] + f[m] && Sum(x3, At(f3)) == Sum(x, At(f))
  {
    hide Sum;
    SumPermuted(x, x1 + [n], At(f));
    SumSnoc(x1, n, At(f));
    SumMember(x1, m, f);
    SumMoved(x3, m, x1, node, At(f3));
    forall y: nat | y < node ensures At(f3)(y) == At(f)(y) { assert f3[..node][y] == f[..node][y]; }
    SumSame(x1, At(f3), At(f));
  }

  lemma {:induction false} MergeWeighed(s: Snapshot, a1: seq<nat>, n: nat, a3: seq<nat>, f3: seq<nat>, d3: seq<nat>)
    requires Merging(s) && Weighed(s) && s.len >= 2 && Popped(s.a, s.len, a1, n, s.f, s.d) && s.len + 1 < s.top <= |a1|
    requires |d3| == HEAP_SIZE && n < s.elems + |s.kids| / 2 && a1[1] < s.elems + |s.kids| / 2
    requires Pushed(Kept(s, a1, n), s.len - 1, a3, s.elems + |s.kids| / 2, s.f, f3, d3)
    requires f3[s.elems + |s.kids| / 2] == (s.f[n] + s.f[a1[1]]) % 0x10000
    ensures var lens' := s.lens[n := s.elems + |s.kids| / 2][a1[1] := s.elems + |s.kids| / 2];
            Weighed(Snapshot(a3, s.len - 1, s.top - 2, f3, d3, lens', s.elems, s.freq, s.kids + [n, a1[1]]))
  {
    hide IsHeap, Used, Growing, Stacked, Fathered, Unused, Sum, Chosen, AllChosen, Volume, Live, Popped, Replaced;
    if Volume(s.freq) < 0x10000 {
      var node, m := s.elems + |s.kids| / 2, a1[1];
      var live, live1, live3 := Live(s.a, s.len), Live(a1, s.len - 1), Live(a3, s.len - 1);
      MergeReplaced(s, a1, n, a3, f3, d3);
      WeightKept(s.a[1..s.len + 1], a1[1..s.len], a3[1..s.len], n, m, node, s.f, f3);
      MergeLightest(s, a1, n);
      ChosenStep(s.kids, live, live1, live3, s.elems, s.f, f3, n, m);
    }
  }

  lemma {:induction false} MergeReplaced(s: Snapshot, a1: seq<nat>, n: nat, a3: seq<nat>, f3: seq<nat>, d3: seq<nat>)
    requires Merging(s) && s.len >= 2 && Popped(s.a, s.len, a1, n, s.f, s.d) && s.len + 1 < s.top <= |a1|
    requires Pushed(Kept(s, a1, n), s.len - 1, a3, s.elems + |s.kids| / 2, s.f, f3, d3)
    ensures var node, m, x1, x3 := s.elems + |s.kids| / 2, a1[1], a1[1..s.len], a3[1..s.len];
            && Live(s.a, s.len) == multiset(s.a[1..s.len + 1]) && Live(a1, s.len - 1) == multiset(x1) && Live(a3, s.len - 1) == multiset(x3)
            && Replaced(multiset(s.a[1..s.len + 1]), multiset(x1), multiset(x3), n, m, node)
            && (forall y | y in x1 :: y < node) && node < |s.f| == |f3| && f3[..node] == s.f[..node]
  {
    hide IsHeap, Used, Growing, Stacked, Fathered, Unused;
    var node: nat, m, x1 := s.elems + |s.kids| / 2, a1[1], a1[1..s.len];
    LiveReplaced(s, a1, n, a3);
    TwoLive(Live(s.a, s.len), Live(a1, s.len - 1), s.kids, s.elems, Used(s.freq, s.elems), n, m);
    forall y | y in x1 ensures y < node { assert y in multiset(x1); }
  }

  lemma {:induction false} MergeLightest(s: Snapshot, a1: seq<nat>, n: nat)
    requires Merging(s) && Popped(s.a, s.len, a1, n, s.f, s.d) && n < |s.f| && 1 < |a1| && a1[1] < |s.f|
    ensures forall x: nat | x in Live(s.a, s.len) :: x < s.elems + |s.kids| / 2 && x < |s.f| && s.f[n] <= s.f[x] && (x != n ==> s.f[a1[1]] <= s.f[x])
  {
    hide IsHeap, Used, Growing, Stacked, Fathered, Unused, Popped;
    forall x: nat | x in Live(s.a, s.len) ensures x < s.elems + |s.kids| / 2 && x < |s.f| && s.f[n] <= s.f[x] && (x != n ==> s.f[a1[1]] <= s.f[x]) {
      TwoLightest(s.a, s.len, a1, n, s.f, s.d, x);
      LiveNode(Live(s.a, s.len), s.kids, s.elems, Used(s.freq, s.elems), x);
    }
  }

  lemma {:induction false} ChosenStep(kids: seq<nat>, live: multiset<nat>, live1: multiset<nat>, live3: multiset<nat>, elems: nat,
                                      f: seq<nat>, f3: seq<nat>, n: nat, m: nat)
    requires |kids| % 2 == 0 && elems + |kids| / 2 < |f| == |f3| && n < |f| && m < |f|
    requires Replaced(live, live1, live3, n, m, elems + |kids| / 2) && AllChosen(kids, live, elems, f)
    requires forall x: nat | x in live :: x < elems + |kids| / 2 && f[n] <= f[x] && (x != n ==> f[m] <= f[x])
    requires f3[..elems + |kids| / 2] == f[..elems + |kids| / 2] && f3[elems + |kids| / 2] == f[n] + f[m]
    ensures AllChosen(kids + [n, m], live3, elems, f3)
  {
    hide Chosen;
    assert n in live && m in live;
    Remaining(live, live1, live3, n, m, elems + |kids| / 2);
    ChosenNow(kids, live, elems, f, n, m, live3, f3);
    forall q | 0 <= q && 2 * q + 1 < |kids + [n, m]| ensures Chosen(kids + [n, m], live3, elems, f3, q) {
      if 2 * q + 1 < |kids| { ChosenKept(kids, live, elems, f, n, m, live3, f3, q); }
    }
  }

  lemma {:induction false} Remaining(live: multiset<nat>, live1: multiset<nat>, live3: multiset<nat>, n: nat, m: nat, p: nat)
    requires Replaced(live, live1, live3, n, m, p)
    ensures forall x: nat | x in live3 && x != p :: x in live
  {
    forall x: nat | x in live3 && x != p ensures x in live {
      assert (live3 + multiset{m})[x] == (live1 + multiset{p})[x];
      assert live[x] >= live1[x];
    }
  }

  // The finished tree.
  lemma {:induction false} WeighedDone(s: Snapshot)
    requires Merging(s) && Weighed(s) && s.len == 1 && |s.kids| >= 2 && s.a[1] == s.elems + |s.kids| / 2 - 1
    ensures var all := s.kids + [s.a[1]];
            && |all| / 2 == |s.kids| / 2 && s.elems + |all| / 2 - 1 < |s.f|
            && (Volume(s.freq) < 0x10000 ==> Greedy(all, s.elems, s.f) && s.f[s.elems + |all| / 2 - 1] == Volume(s.freq))
  {
    MergingDone(s);
    hide Grown, Growing, Used, Chosen, IsHeap, Greedy;
    if Volume(s.freq) < 0x10000 {
      assert s.a[1..2] == [s.a[1]];
      assert Live(s.a, 1) == multiset{s.a[1]};
      ChosenGreedy(s.kids, s.a[1], s.elems, Used(s.freq, s.elems), s.f);
      assert [s.a[1]][1..] == [];
      assert Sum([s.a[1]], At(s.f)) == At(s.f)(s.a[1]) + Sum([], At(s.f));
    }
  }
}
