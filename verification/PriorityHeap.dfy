// pqdownheap of gzip.c: the heap of tree nodes, least frequent first.
module PriorityHeap {

  // SMALLER: less frequent, or equally frequent and not deeper.
  predicate Smaller(freq: seq<nat>, depth: seq<nat>, n: nat, m: nat)
    requires n < |freq| && m < |freq| && |freq| <= |depth|
  {
    freq[n] < freq[m] || (freq[n] == freq[m] && depth[n] <= depth[m])
  }

  ghost predicate Nodes(heap: seq<nat>, len: nat, freq: seq<nat>, depth: seq<nat>)
  {
    len < |heap| && |freq| <= |depth| && forall i | 0 < i <= len :: heap[i] < |freq|
  }

  // The first len nodes in another order.
  ghost predicate Rearranged(h0: seq<nat>, h: seq<nat>, len: nat)
  {
    len < |h0| == |h| && multiset(h[1..len + 1]) == multiset(h0[1..len + 1]) && h[len + 1..] == h0[len + 1..]
  }

  // The father of heap[c] is heap[c / 2], and is not larger.
  ghost predicate Edge(heap: seq<nat>, len: nat, freq: seq<nat>, depth: seq<nat>, c: nat)
    requires Nodes(heap, len, freq, depth)
  {
    2 <= c <= len ==> Smaller(freq, depth, heap[c / 2], heap[c])
  }

  // Every father with index at least k is not larger than its sons.
  ghost predicate Ordered(heap: seq<nat>, len: nat, freq: seq<nat>, depth: seq<nat>, k: nat)
    requires Nodes(heap, len, freq, depth)
  {
    forall c | 2 * k <= c <= len :: Edge(heap, len, freq, depth, c)
  }

  // As Ordered, except below the hole at index k.
  ghost predicate Sifting(heap: seq<nat>, len: nat, freq: seq<nat>, depth: seq<nat>, k0: nat, k: nat)
    requires Nodes(heap, len, freq, depth)
  {
    && 1 <= k0 <= k <= len
    && (forall c | 2 * k0 <= c <= len && c / 2 != k :: Edge(heap, len, freq, depth, c))
    && (k > k0 ==> 2 * k0 <= k && forall c | 2 * k <= c <= 2 * k + 1 && c <= len :: Smaller(freq, depth, heap[k / 2], heap[c]))
  }

  function Swapped(heap: seq<nat>, k: nat, j: nat): seq<nat>
    requires k < |heap| && j < |heap|
  {
    heap[k := heap[j]][j := heap[k]]
  }

  // heap[j] is the smaller son of the hole, and smaller than what the hole holds.
  ghost predicate MustSwap(heap: seq<nat>, len: nat, freq: seq<nat>, depth: seq<nat>, k: nat, j: nat)
    requires Nodes(heap, len, freq, depth) && 1 <= k <= len
  {
    && 2 * k <= j <= 2 * k + 1 && j <= len
    && (forall c | 2 * k <= c <= 2 * k + 1 && c <= len :: Smaller(freq, depth, heap[j], heap[c]))
    && !Smaller(freq, depth, heap[k], heap[j])
  }

  lemma {:induction false} SiftEdge(heap: seq<nat>, len: nat, freq: seq<nat>, depth: seq<nat>, k0: nat, k: nat, j: nat, c: nat)
    requires Nodes(heap, len, freq, depth) && Sifting(heap, len, freq, depth, k0, k)
    requires MustSwap(heap, len, freq, depth, k, j)
    requires 2 * k0 <= c <= len && c / 2 != j
    ensures var h := Swapped(heap, k, j);
            h[c] < |freq| && h[c / 2] < |freq| && Smaller(freq, depth, h[c / 2], h[c])
  {
    var h := Swapped(heap, k, j);
    if c / 2 == k {
      assert h[k] == heap[j];
      if c != j { assert h[c] == heap[c]; }
    } else if c == k {
      assert h[c / 2] == heap[k / 2] && h[c] == heap[j];
    } else {
      assert h[c] == heap[c] && h[c / 2] == heap[c / 2];
      assert Edge(heap, len, freq, depth, c);
    }
  }

  // One exchange with the smaller son moves the hole down.
  lemma {:induction false} SiftStep(heap: seq<nat>, len: nat, freq: seq<nat>, depth: seq<nat>, k0: nat, k: nat, j: nat)
    requires Nodes(heap, len, freq, depth) && Sifting(heap, len, freq, depth, k0, k)
    requires MustSwap(heap, len, freq, depth, k, j)
    ensures var h := Swapped(heap, k, j); Nodes(h, len, freq, depth) && Sifting(h, len, freq, depth, k0, j)
  {
    var h := Swapped(heap, k, j);
    forall c | 2 * k0 <= c <= len && c / 2 != j
      ensures Edge(h, len, freq, depth, c)
    {
      SiftEdge(heap, len, freq, depth, k0, k, j, c);
    }
    forall c | 2 * j <= c <= 2 * j + 1 && c <= len
      ensures Smaller(freq, depth, h[j / 2], h[c])
    {
      assert Edge(heap, len, freq, depth, c);
    }
  }

  lemma {:induction false} SwapKeeps(heap: seq<nat>, len: nat, k: nat, j: nat)
    requires 1 <= k < j <= len < |heap|
    ensures var h := Swapped(heap, k, j);
            Rearranged(heap, h, len)
  {
    SwapMultiset(heap[1..len + 1], k - 1, j - 1);
    assert Swapped(heap, k, j)[1..len + 1] == heap[1..len + 1][k - 1 := heap[j]][j - 1 := heap[k]];
  }

  lemma {:induction false} SwapMultiset(s: seq<nat>, i: nat, j: nat)
    requires i < j < |s|
    ensures multiset(s[i := s[j]][j := s[i]]) == multiset(s)
  {
  }

  lemma {:induction false} SiftDone(heap: seq<nat>, len: nat, freq: seq<nat>, depth: seq<nat>, k0: nat, k: nat)
    requires Nodes(heap, len, freq, depth) && Sifting(heap, len, freq, depth, k0, k)
    requires forall c | 2 * k <= c <= 2 * k + 1 && c <= len :: Smaller(freq, depth, heap[k], heap[c])
    ensures Ordered(heap, len, freq, depth, k0)
  {
    forall c | 2 * k0 <= c <= len
      ensures Edge(heap, len, freq, depth, c)
    {
    }
  }

  // The root of an ordered heap is its least element.
  lemma {:induction false} RootLeast(heap: seq<nat>, len: nat, freq: seq<nat>, depth: seq<nat>, i: nat)
    requires Nodes(heap, len, freq, depth) && Ordered(heap, len, freq, depth, 1) && 1 <= i <= len
    ensures Smaller(freq, depth, heap[1], heap[i])
  {
    if i > 1 {
      RootLeast(heap, len, freq, depth, i / 2);
      assert Edge(heap, len, freq, depth, i);
    }
  }

  // From h0 to h only the nodes on the way of the hole, now at k, have moved.
  ghost predicate Sifted(h0: seq<nat>, h: seq<nat>, len: nat, freq: seq<nat>, depth: seq<nat>, k0: nat, k: nat)
  {
    Nodes(h, len, freq, depth) && Sifting(h, len, freq, depth, k0, k) && Rearranged(h0, h, len)
  }

  lemma {:induction false} SiftedStep(h0: seq<nat>, h: seq<nat>, len: nat, freq: seq<nat>, depth: seq<nat>, k0: nat, k: nat, j: nat)
    requires Sifted(h0, h, len, freq, depth, k0, k) && MustSwap(h, len, freq, depth, k, j)
    ensures Sifted(h0, Swapped(h, k, j), len, freq, depth, k0, j)
  {
    SiftStep(h, len, freq, depth, k0, k, j);
    SwapKeeps(h, len, k, j);
  }

  lemma {:induction false} SiftedDone(h0: seq<nat>, h: seq<nat>, len: nat, freq: seq<nat>, depth: seq<nat>, k0: nat, k: nat)
    requires Sifted(h0, h, len, freq, depth, k0, k)
    requires forall c | 2 * k <= c <= 2 * k + 1 && c <= len :: Smaller(freq, depth, h[k], h[c])
    ensures Nodes(h, len, freq, depth) && Ordered(h, len, freq, depth, k0)
    ensures Rearranged(h0, h, len)
  {
    SiftDone(h, len, freq, depth, k0, k);
  }

  // Set j to the smallest of the two sons of k.
  method SmallerSon(heap: array<nat>, len: nat, freq: array<nat>, depth: array<nat>, k: nat) returns (j: nat)
    requires 1 <= k && 2 * k <= len < heap.Length && freq.Length <= depth.Length
    requires forall i | 2 * k <= i <= len :: heap[i] < freq.Length
    ensures 2 * k <= j <= 2 * k + 1 && j <= len
    ensures forall c | 2 * k <= c <= 2 * k + 1 && c <= len :: Smaller(freq[..], depth[..], heap[j], heap[c])
  {
    j := 2 * k;
    if j < len && Smaller(freq[..], depth[..], heap[j + 1], heap[j]) {
      j := j + 1;
    }
  }

  // a with v in the hole at k is a sifted state of h0.
  ghost predicate HoleAt(h0: seq<nat>, a: seq<nat>, len: nat, freq: seq<nat>, depth: seq<nat>, k0: nat, k: nat, v: nat)
  {
    1 <= k0 <= k <= len < |a| && Sifted(h0, a[k := v], len, freq, depth, k0, k)
  }

  // No son of v at k is smaller than v.
  ghost predicate Settled(a: seq<nat>, len: nat, freq: seq<nat>, depth: seq<nat>, k: nat, v: nat)
  {
    && 1 <= k < |a| && v < |freq| && Nodes(a[k := v], len, freq, depth)
    && (forall c | 2 * k <= c <= 2 * k + 1 && c <= len :: a[c] < |freq|)
    && forall c | 2 * k <= c <= 2 * k + 1 && c <= len :: Smaller(freq, depth, v, a[c])
  }

  lemma {:induction false} HoleFacts(h0: seq<nat>, a: seq<nat>, len: nat, freq: seq<nat>, depth: seq<nat>, k0: nat, k: nat, v: nat)
    requires HoleAt(h0, a, len, freq, depth, k0, k, v)
    ensures 1 <= k <= len < |a| && |freq| <= |depth| && v < |freq| && Nodes(a[k := v], len, freq, depth)
    ensures forall i | 2 * k <= i <= len :: a[i] < |freq|
  {
    hide Sifting, Edge;
    assert a[k := v][k] == v;
    forall i | 2 * k <= i <= len ensures a[i] < |freq| { assert a[k := v][i] == a[i]; }
  }

  // The smaller son j moves up into the hole at k.
  lemma {:induction false} HoleMoves(h0: seq<nat>, a: seq<nat>, len: nat, freq: seq<nat>, depth: seq<nat>, k0: nat, k: nat, v: nat, j: nat)
    requires HoleAt(h0, a, len, freq, depth, k0, k, v) && 2 * k <= j <= 2 * k + 1 && j <= len && a[j] < |freq|
    requires v < |freq| <= |depth| && !Smaller(freq, depth, v, a[j])
    requires forall c | 2 * k <= c <= 2 * k + 1 && c <= len :: a[c] < |freq| && Smaller(freq, depth, a[j], a[c])
    ensures HoleAt(h0, a[k := a[j]], len, freq, depth, k0, j, v)
  {
    hide Edge, Sifted, Smaller;
    var h := a[k := v];
    HoleFacts(h0, a, len, freq, depth, k0, k, v);
    assert h[k] == v && h[j] == a[j] && forall c | 2 * k <= c <= 2 * k + 1 && c <= len :: h[c] == a[c];
    SiftedStep(h0, h, len, freq, depth, k0, k, j);
    assert a[k := a[j]][j := v] == Swapped(h, k, j);
  }

  // One turn of pqdownheap: stop, or move the smaller son up into the hole.
  method SiftOnce(heap: array<nat>, len: nat, freq: array<nat>, depth: array<nat>, k: nat, v: nat,
                  ghost h0: seq<nat>, ghost k0: nat) returns (settled: bool, j: nat)
    requires heap != freq && heap != depth
    requires HoleAt(h0, heap[..], len, freq[..], depth[..], k0, k, v) && 2 * k <= len
    modifies heap
    ensures settled ==> heap[..] == old(heap[..]) && Settled(heap[..], len, freq[..], depth[..], k, v)
    ensures !settled ==> k < j && HoleAt(h0, heap[..], len, freq[..], depth[..], k0, j, v)
  {
    hide HoleAt;
    ghost var a: seq<nat>, f: seq<nat>, d: seq<nat> := heap[..], freq[..], depth[..];
    HoleFacts(h0, a, len, f, d, k0, k, v);
    j := SmallerSon(heap, len, freq, depth, k);
    settled := Smaller(freq[..], depth[..], v, heap[j]);
    if !settled {
      HoleMoves(h0, a, len, f, d, k0, k, v, j);
      heap[k] := heap[j];
      assert heap[..] == a[k := a[j]] && freq[..] == f && depth[..] == d;
    }
  }

  method PqDownHeap(heap: array<nat>, len: nat, freq: array<nat>, depth: array<nat>, k0: nat)
    requires heap != freq && heap != depth
    requires Nodes(heap[..], len, freq[..], depth[..])
    requires 1 <= k0 <= len && Ordered(heap[..], len, freq[..], depth[..], k0 + 1)
    modifies heap
    ensures Nodes(heap[..], len, freq[..], depth[..])
    ensures Ordered(heap[..], len, freq[..], depth[..], k0)
    ensures Rearranged(old(heap[..]), heap[..], len)
  {
    hide Edge, Smaller, Sifted, Ordered;
    ghost var h0: seq<nat> := heap[..];
    var k: nat, v: nat := k0, heap[k0];
    SiftedStart(h0, len, freq[..], depth[..], k0);
    assert h0[k := v] == h0;
    var settled: bool, j: nat := false, 0;
    while 2 * k <= len && !settled
      invariant HoleAt(h0, heap[..], len, freq[..], depth[..], k0, k, v)
      invariant settled ==> Settled(heap[..], len, freq[..], depth[..], k, v)
      decreases !settled, len - k
    {
      settled, j := SiftOnce(heap, len, freq, depth, k, v, h0, k0);
      if !settled {
        k := j;
      }
    }
    SettledDone(h0, heap[..], len, freq[..], depth[..], k0, k, v, settled);
    heap[k] := v;
  }

  // Establish sub-heaps of increasing size, from the last father to the root.
  method Heapify(heap: array<nat>, len: nat, freq: array<nat>, depth: array<nat>)
    requires heap != freq && heap != depth && 2 <= len
    requires Nodes(heap[..], len, freq[..], depth[..])
    modifies heap
    ensures Nodes(heap[..], len, freq[..], depth[..]) && Ordered(heap[..], len, freq[..], depth[..], 1)
    ensures Rearranged(old(heap[..]), heap[..], len)
  {
    var n := len / 2;
    assert Ordered(heap[..], len, freq[..], depth[..], n + 1);
    hide Nodes, Ordered;
    while n >= 1
      invariant 0 <= n <= len / 2 && len < heap.Length
      invariant Nodes(heap[..], len, freq[..], depth[..]) && Ordered(heap[..], len, freq[..], depth[..], n + 1)
      invariant Rearranged(old(heap[..]), heap[..], len)
    {
      PqDownHeap(heap, len, freq, depth, n);
      n := n - 1;
    }
  }

  lemma {:induction false} SettledDone(h0: seq<nat>, a: seq<nat>, len: nat, freq: seq<nat>, depth: seq<nat>,
                                       k0: nat, k: nat, v: nat, settled: bool)
    requires HoleAt(h0, a, len, freq, depth, k0, k, v)
    requires if settled then Settled(a, len, freq, depth, k, v) else 2 * k > len
    ensures var h := a[k := v];
            && Nodes(h, len, freq, depth) && Ordered(h, len, freq, depth, k0)
            && Rearranged(h0, h, len)
  {
    SiftedDone(h0, a[k := v], len, freq, depth, k0, k);
  }

  lemma {:induction false} SiftedStart(h: seq<nat>, len: nat, freq: seq<nat>, depth: seq<nat>, k0: nat)
    requires Nodes(h, len, freq, depth) && 1 <= k0 <= len && Ordered(h, len, freq, depth, k0 + 1)
    ensures Sifted(h, h, len, freq, depth, k0, k0)
  {
  }

  // Taking the last element to the root removes the root from the heap.
  lemma {:induction false} RootReplaced(heap: seq<nat>, len: nat, freq: seq<nat>, depth: seq<nat>)
    requires 2 <= len && Nodes(heap, len, freq, depth) && Ordered(heap, len, freq, depth, 1)
    ensures var h := heap[1 := heap[len]];
            && Nodes(h, len - 1, freq, depth) && Ordered(h, len - 1, freq, depth, 2)
            && multiset(heap[1..len + 1]) == multiset(h[1..len]) + multiset{heap[1]}
  {
    var h := heap[1 := heap[len]];
    var l := len - 1;
    forall c | 4 <= c <= l ensures Edge(h, l, freq, depth, c) {
      assert Edge(heap, len, freq, depth, c);
    }
    var mid := heap[2..len];
    assert heap[1..len + 1] == [heap[1]] + mid + [heap[len]];
    assert h[1..len] == [heap[len]] + mid;
  }

  // A fresh node at the root: its frequency and depth may be set freely.
  lemma {:induction false} FreshRoot(heap: seq<nat>, len: nat, freq: seq<nat>, depth: seq<nat>,
                                     freq': seq<nat>, depth': seq<nat>, node: nat)
    requires 1 <= len && Nodes(heap, len, freq, depth) && Ordered(heap, len, freq, depth, 1)
    requires |freq| == |freq'| && |depth| == |depth'| && node < |freq|
    requires forall i | 0 < i <= len :: heap[i] != node
    requires forall n | 0 <= n < |freq| && n != node :: freq'[n] == freq[n] && depth'[n] == depth[n]
    ensures var h := heap[1 := node];
            && Nodes(h, len, freq', depth') && Ordered(h, len, freq', depth', 2)
  {
    var h := heap[1 := node];
    forall c | 4 <= c <= len ensures Edge(h, len, freq', depth', c) {
      assert Edge(heap, len, freq, depth, c);
    }
  }

  // Only the elements up to len matter.
  lemma {:induction false} OrderedPrefix(heap: seq<nat>, heap': seq<nat>, len: nat, freq: seq<nat>, depth: seq<nat>)
    requires Nodes(heap, len, freq, depth) && Ordered(heap, len, freq, depth, 1)
    requires |heap'| == |heap| && forall i | 0 < i <= len :: heap'[i] == heap[i]
    ensures Nodes(heap', len, freq, depth) && Ordered(heap', len, freq, depth, 1)
  {
    forall c | 2 <= c <= len ensures Edge(heap', len, freq, depth, c) {
      assert Edge(heap, len, freq, depth, c);
    }
  }
}
