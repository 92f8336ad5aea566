// build_tree, gen_bitlen and gen_codes of gzip.c.
module Huffman {
  import opened Bits
  import opened Sums
  import opened Canonical
  import opened HuffTree
  import opened BitLengths
  import opened PriorityHeap
  import opened Optimal
  import opened Merge
  import GC = GenCodes

  // tree_desc and its dynamic tree. As in ct_data, one slot holds first Freq and then Code, the
  // other first Dad and then Len.
  class Tree {
    const fc: array<nat>
    const dl: array<nat>
    const elems: nat
    const maxLength: nat
    const extra: seq<nat>         // extra bits of each symbol
    const statLens: seq<nat>      // the lengths of the static tree, or [] if there is none
    var maxCode: int

    ghost predicate Shape()
    {
      && fc.Length == dl.Length == 2 * elems + 1 && fc != dl
      && 3 <= elems <= 286 && 1 <= maxLength <= MAX_BITS && elems <= Pow2(maxLength)
      && |extra| == elems && extra[0] == extra[1] == extra[2] == 0
      && (statLens == [] || |statLens| == elems)
    }

    constructor (elems: nat, maxLength: nat, extra: seq<nat>, statLens: seq<nat>)
      ensures this.elems == elems && this.maxLength == maxLength && this.extra == extra && this.statLens == statLens
      ensures fc.Length == dl.Length == 2 * elems + 1 && fc != dl && fresh(fc) && fresh(dl)
    {
      this.elems, this.maxLength, this.extra, this.statLens, maxCode := elems, maxLength, extra, statLens, 0;
      fc := new nat[2 * elems + 1](_ => 0);
      dl := new nat[2 * elems + 1](_ => 0);
    }
  }

  class Builder {
    const heap: array<nat>
    const depth: array<nat>
    const blCount: array<nat>
    var heapLen: nat
    var heapMax: nat
    var optLen: int
    var staticLen: int

    ghost predicate Shape(t: Tree)
    {
      && t.Shape()
      && heap.Length == HEAP_SIZE && depth.Length == HEAP_SIZE && blCount.Length == MAX_BITS + 1
      && heap != depth && heap != blCount && depth != blCount
      && t.fc != heap && t.fc != depth && t.fc != blCount && t.dl != heap && t.dl != depth && t.dl != blCount
    }

    constructor ()
      ensures heap.Length == HEAP_SIZE && depth.Length == HEAP_SIZE && blCount.Length == MAX_BITS + 1
      ensures fresh(heap) && fresh(depth) && fresh(blCount) && heap != depth && heap != blCount && depth != blCount
      ensures forall b | 0 <= b <= MAX_BITS :: blCount[b] == 0
    {
      heapLen, heapMax, optLen, staticLen := 0, 0, 0, 0;
      heap := new nat[HEAP_SIZE](_ => 0);
      depth := new nat[HEAP_SIZE](_ => 0);
      blCount := new nat[MAX_BITS + 1](_ => 0);
    }

    // The merged nodes at the end of the heap array, in the order in which they left the heap.
    ghost predicate Removed(all: seq<nat>)
      reads this, heap
    {
      && heap.Length == HEAP_SIZE && heapMax <= HEAP_SIZE && |all| == HEAP_SIZE - heapMax
      && forall i | 0 <= i < |all| :: heap[HEAP_SIZE - 1 - i] == all[i]
    }

    // The sums that the first pass keeps over the nodes all[k..] placed so far.
    ghost predicate Placed(t: Tree, all: seq<nat>, k: nat, overflow: nat, opt0: int, static0: int)
      reads this, t.dl, t.fc, blCount
      requires Shape(t) && k < |all|
    {
      PlacedAt(all, k, t.elems, t.maxLength, t.dl[..], blCount[..], t.fc[..], t.extra, t.statLens,
               overflow, optLen - opt0, staticLen - static0)
    }

    // Give node n the level below its father's, but not below maxLength.
    method SetLevel(t: Tree, n: nat, over0: nat) returns (bits: nat, overflow: nat)
      requires n < t.dl.Length && t.dl[n] < t.dl.Length && t.dl[t.dl[n]] <= t.maxLength
      modifies t.dl
      ensures bits == Min(old(t.dl[t.dl[n]]) + 1, t.maxLength)
      ensures overflow == over0 + if old(t.dl[t.dl[n]]) == t.maxLength then 1 else 0
      ensures t.dl[..] == old(t.dl[..])[n := bits]
    {
      overflow := over0;
      bits := t.dl[t.dl[n]] + 1;
      if bits > t.maxLength {
        bits := t.maxLength;
        overflow := overflow + 1;
      }
      t.dl[n] := bits;
    }

    // Count a leaf and its bits.
    method CountLeaf(t: Tree, n: nat, bits: nat)
      requires Shape(t) && n < t.elems && bits <= t.maxLength
      modifies blCount, this`optLen, this`staticLen
      ensures blCount[..] == old(blCount[..])[bits := old(blCount[bits]) + 1]
      ensures optLen == old(optLen) + t.fc[..][n] * (bits + t.extra[n])
      ensures staticLen == old(staticLen) + if n < |t.statLens| then t.fc[..][n] * (t.statLens[n] + t.extra[n]) else 0
    {
      blCount[bits] := blCount[bits] + 1;
      var xbits := t.extra[n];
      var f := t.fc[n];
      optLen := optLen + f * (bits + xbits);
      if t.statLens != [] {
        staticLen := staticLen + f * (t.statLens[n] + xbits);
      }
    }

    // One turn of the first pass of gen_bitlen.
    method PlaceOne(t: Tree, h: nat, over0: nat, ghost all: seq<nat>, ghost leaves: seq<nat>, ghost k: nat,
                    ghost opt0: int, ghost static0: int) returns (overflow: nat)
      requires Shape(t) && Removed(all) && Grown(all, t.elems, leaves)
      requires t.maxCode < t.elems && forall n | n in leaves :: n <= t.maxCode
      requires heapMax < h < HEAP_SIZE && k == HEAP_SIZE - 1 - h && Placed(t, all, k + 1, over0, opt0, static0)
      modifies t.dl, blCount, this`optLen, this`staticLen
      ensures Placed(t, all, k, overflow, opt0, static0)
      ensures forall n | 0 <= n < t.dl.Length && n !in all :: t.dl[n] == old(t.dl[n])
    {
      hide Grown, PlacedAt, Pow2;
      var n := heap[h];
      assert n == all[k];
      ghost var lens: seq<nat>, counts: seq<nat>, opt, fixed := t.dl[..], blCount[..], optLen - opt0, staticLen - static0;
      TurnFacts(all, k, t.elems, leaves, t.maxLength, lens, counts, t.fc[..], t.extra, t.statLens, over0, opt, fixed);
      var bits;
      bits, overflow := SetLevel(t, n, over0);
      if n <= t.maxCode {
        CountLeaf(t, n, bits);
      }
      assert t.fc[..] == old(t.fc[..]);
      PlaceTurn(all, k, t.elems, leaves, t.maxLength, lens, counts, t.fc[..], t.extra, t.statLens, over0, opt, fixed,
                bits, blCount[..], optLen - opt0, staticLen - static0);
    }

    // The first pass of gen_bitlen: levels clamped to maxLength, with the number of clamped nodes.
    method FirstPass(t: Tree, ghost all: seq<nat>, ghost leaves: seq<nat>) returns (overflow: nat)
      requires Shape(t) && Removed(all) && Grown(all, t.elems, leaves)
      requires forall i | 0 <= i < |all| :: all[i] < t.dl.Length
      requires t.elems + |all| / 2 <= t.dl.Length
      requires forall i | 0 <= i < |all| - 1 :: t.dl[all[i]] == t.elems + i / 2
      requires t.maxCode < t.elems && forall n | n in leaves :: n <= t.maxCode
      modifies t.dl, blCount, this`optLen, this`staticLen
      ensures Placed(t, all, 0, overflow, old(optLen), old(staticLen))
      ensures forall n | 0 <= n < t.dl.Length && n !in all :: t.dl[n] == old(t.dl[n])
    {
      hide Grown, Placing, CountsOf, Over, LeafCost, Pow2;
      for b := 0 to MAX_BITS + 1
        invariant forall i | 0 <= i < b :: blCount[i] == 0
        modifies blCount
      {
        blCount[b] := 0;
      }
      assert t.dl[..] == old(t.dl[..]);
      overflow := 0;
      ghost var lens: seq<nat>, k := t.dl[..], |all| - 1;
      StartFacts(all, t.elems, leaves, lens, blCount[..], t.fc[..], t.extra, t.statLens, t.maxLength);
      t.dl[heap[heapMax]] := 0;
      assert t.dl[..] == lens[all[k] := 0];
      for h := heapMax + 1 to HEAP_SIZE
        invariant k == HEAP_SIZE - h
        invariant Placed(t, all, k, overflow, old(optLen), old(staticLen))
        invariant forall n | 0 <= n < t.dl.Length && n !in all :: t.dl[n] == old(t.dl[n])
      {
        k := k - 1;
        overflow := PlaceOne(t, h, overflow, all, leaves, k, old(optLen), old(staticLen));
      }
    }

    // The repair loop: move leaves down until every clamped node has been paid for.
    method Repair(max: nat, overflow0: nat)
      requires blCount.Length == MAX_BITS + 1 && 1 <= max <= MAX_BITS
      requires 2 * KraftOf(blCount[..], max) == 2 * Pow2(max) + overflow0
      requires KraftOf(blCount[..], max - 1) <= Pow2(max - 1) && Total(blCount[..], max) <= Pow2(max)
      modifies blCount
      ensures KraftOf(blCount[..], max) == Pow2(max)
      ensures Total(blCount[..], max) == old(Total(blCount[..], max))
      ensures blCount[0] == old(blCount[0]) && forall b | max < b <= MAX_BITS :: blCount[b] == old(blCount[b])
    {
      hide KraftOf, Total, Pow2;
      var overflow: int := overflow0;
      while overflow > 0
        invariant 2 * KraftOf(blCount[..], max) == 2 * Pow2(max) + overflow
        invariant KraftOf(blCount[..], max - 1) <= Pow2(max - 1)
        invariant Total(blCount[..], max) == old(Total(blCount[..], max))
        invariant blCount[0] == old(blCount[0]) && forall b | max < b <= MAX_BITS :: blCount[b] == old(blCount[b])
        invariant overflow >= 0
      {
        ghost var counts: seq<nat> := blCount[..];
        RepairPossible(counts, max);
        ghost var b0 :| 1 <= b0 < max && counts[b0] > 0;
        var bits := max - 1;
        while blCount[bits] == 0
          invariant b0 <= bits < max
          decreases bits
        {
          bits := bits - 1;
        }
        RepairStep(counts, max, bits);
        blCount[bits] := blCount[bits] - 1;
        blCount[bits + 1] := blCount[bits + 1] + 2;
        blCount[max] := blCount[max] - 1;
        assert blCount[..] == Repaired(counts, max, bits);
        overflow := overflow - 2;
      }
    }

    // The last pass of gen_bitlen: hand out the repaired lengths in order of increasing frequency.
    method Reassign(t: Tree, ghost all: seq<nat>, ghost leaves: seq<nat>)
      requires Shape(t) && Removed(all) && Grown(all, t.elems, leaves)
      requires forall i | 0 <= i < |all| :: all[i] < t.dl.Length
      requires t.maxCode < t.elems && forall n | n in leaves :: n <= t.maxCode
      requires Total(blCount[..], t.maxLength) == |leaves|
      modifies t.dl, this`optLen
      ensures LeafLevels(all, t.dl[..], t.elems, t.maxLength)
      ensures forall b | 1 <= b <= t.maxLength :: blCount[b] == Sum(all, LeafAt(t.dl[..], t.elems, b))
      ensures optLen - Sum(all, LeafCost(t.fc[..], t.dl[..], t.extra))
              == old(optLen - Sum(all, LeafCost(t.fc[..], t.dl[..], t.extra)))
      ensures forall n | 0 <= n < t.dl.Length && n !in all :: t.dl[n] == old(t.dl[n])
    {
      hide Grown, LeafCost, Assigning, LeafLevels, Pow2, Total, Sum;
      GrownFacts(all, t.elems, leaves);
      ghost var counts: seq<nat>, freq: seq<nat>, p: nat := blCount[..], t.fc[..], 0;
      StartAssigning(all, t.elems, leaves, t.dl[..], counts, t.maxLength);
      var h := HEAP_SIZE;
      var bits := t.maxLength;
      while true
        invariant 1 <= bits <= t.maxLength && h == HEAP_SIZE - p
        invariant Assigning(all, t.elems, t.dl[..], counts, t.maxLength, p, bits, counts[bits])
        invariant optLen - Sum(all, LeafCost(freq, t.dl[..], t.extra))
                  == old(optLen - Sum(all, LeafCost(t.fc[..], t.dl[..], t.extra)))
        invariant forall n | 0 <= n < t.dl.Length && n !in all :: t.dl[n] == old(t.dl[n])
        decreases bits
      {
        var n := blCount[bits];
        while n != 0
          invariant 0 <= n && h == HEAP_SIZE - p
          invariant Assigning(all, t.elems, t.dl[..], counts, t.maxLength, p, bits, n)
          invariant optLen - Sum(all, LeafCost(freq, t.dl[..], t.extra))
                    == old(optLen - Sum(all, LeafCost(t.fc[..], t.dl[..], t.extra)))
          invariant forall n | 0 <= n < t.dl.Length && n !in all :: t.dl[n] == old(t.dl[n])
          decreases |all| - p
        {
          MoreToCome(all, t.elems, t.dl[..], counts, t.maxLength, p, bits, n);
          h := h - 1;
          var m := heap[h];
          if m <= t.maxCode {
            SetLength(t, m, bits, n, all, counts, p);
            n := n - 1;
          } else {
            assert all[p] in all;
            SkipNode(all, t.elems, t.dl[..], counts, t.maxLength, p, bits, n);
          }
          p := p + 1;
        }
        if bits == 1 {
          break;
        }
        NextLength(all, t.elems, t.dl[..], counts, t.maxLength, p, bits);
        bits := bits - 1;
      }
      AllAssigned(all, t.elems, t.dl[..], counts, t.maxLength, p);
    }

    // One leaf of the last pass.
    method SetLength(t: Tree, m: nat, bits: nat, n: nat, ghost all: seq<nat>, ghost counts: seq<nat>, ghost p: nat)
      requires Shape(t) && m < t.elems && n > 0
      requires Distinct(all) && p < |all| && all[p] == m
      requires Assigning(all, t.elems, t.dl[..], counts, t.maxLength, p, bits, n)
      modifies t.dl, this`optLen
      ensures Assigning(all, t.elems, t.dl[..], counts, t.maxLength, p + 1, bits, n - 1)
      ensures optLen - Sum(all, LeafCost(t.fc[..], t.dl[..], t.extra))
              == old(optLen - Sum(all, LeafCost(t.fc[..], t.dl[..], t.extra)))
      ensures forall k | 0 <= k < t.dl.Length && k !in all :: t.dl[k] == old(t.dl[k])
    {
      hide LeafCost, Assigning, Pow2, Sum;
      ghost var lens: seq<nat> := t.dl[..];
      AssignNode(all, t.elems, lens, counts, t.maxLength, p, bits, n);
      CostPoint(all, p, lens, bits, t.fc[..], t.extra);
      if t.dl[m] != bits {
        optLen := optLen + (bits - t.dl[m]) * t.fc[m];
        t.dl[m] := bits;
      }
      assert t.dl[..] == lens[m := bits];
    }

    // gen_bitlen: lengths with Kraft sum exactly 1, none above maxLength, and the bits they cost.
    // If no level was clamped they are the cheapest of all.
    method GenBitLen(t: Tree, ghost all: seq<nat>) returns (ghost clamped: bool)
      requires Shape(t) && Removed(all) && Grown(all, t.elems, Used(t.fc[..], t.elems))
      requires forall i | 0 <= i < |all| :: all[i] < t.dl.Length
      requires t.elems + |all| / 2 <= t.dl.Length
      requires forall i | 0 <= i < |all| - 1 :: t.dl[all[i]] == t.elems + i / 2
      requires 0 <= t.maxCode < t.elems && forall n | t.maxCode < n < t.elems :: t.fc[n] == 0
      requires forall n | 0 <= n < t.elems && t.fc[n] == 0 :: t.dl[n] == 0
      modifies t.dl, blCount, this`optLen, this`staticLen
      ensures GoodLengths(t.fc[..], t.dl[..t.elems], t.elems, t.maxLength, blCount[..])
      ensures |Used(t.fc[..], t.elems)| == 2 ==> forall n | 0 <= n < t.elems && t.fc[n] != 0 :: t.dl[n] == 1
      ensures optLen == old(optLen) + Cost(t.fc[..], t.dl[..t.elems], t.extra, t.elems)
      ensures staticLen == old(staticLen) + if t.statLens == [] then 0 else Cost(t.fc[..], t.statLens, t.extra, t.elems)
      ensures Greedy(all, t.elems, t.fc[..]) ==> Judged(all, t.fc[..], t.dl[..], t.elems, t.maxLength, t.extra, clamped)
    {
      hide Used, Greedy, Judged, Grown, Placing, CountsOf, Over, LeafCost, Pow2, LeafLevels, Total, KraftOf, Sum, GoodLengths, Cost;
      ghost var freq: seq<nat> := t.fc[..];
      ghost var leaves := Used(freq, t.elems);
      UsedSorted(freq, t.elems);
      GrownFacts(all, t.elems, leaves);
      var overflow := FirstPass(t, all, leaves);
      FirstPassDone(all, t.elems, leaves, t.dl[..], t.maxLength, blCount[..]);
      clamped := overflow != 0;
      ghost var levels: seq<nat> := t.dl[..];
      if |leaves| == 2 { TwoLeaves(all, t.elems, freq, t.dl[..], t.maxLength); }
      OuterZero(all, t.dl[..], t.elems, t.maxLength, blCount[..]);
      if overflow != 0 {
        assert blCount[..][0] == 0;
        ghost var lens1 := t.dl[..];
        Repair(t.maxLength, overflow);
        assert t.dl[..] == lens1;
        Reassign(t, all, leaves);
        OuterCounts(all, t.dl[..], t.elems, t.maxLength, blCount[..]);
      }
      StillUnused(all, freq, old(t.dl[..]), t.dl[..], t.elems);
      if Greedy(all, t.elems, freq) { JudgedNow(all, t.elems, freq, levels, t.dl[..], t.maxLength, t.extra, overflow); }
      LeafLengthsGood(all, t.elems, freq, t.dl[..], t.maxLength, blCount[..]);
      CostOfLeaves(all, t.elems, freq, t.dl[..], t.extra);
      CostOfStatic(all, t.elems, freq, t.statLens, t.extra);
    }

    ghost function Snap(t: Tree, kids: seq<nat>, freq: seq<nat>): Snapshot
      reads this, heap, depth, t.fc, t.dl
    {
      Snapshot(heap[..], heapLen, heapMax, t.fc[..], depth[..], t.dl[..], t.elems, freq, kids)
    }

    // PQREMOVE: take out the least frequent node.
    method PopLeast(t: Tree) returns (n: nat)
      requires Shape(t) && 2 <= heapLen < HEAP_SIZE && IsHeap(heap[..], heapLen, t.fc[..], depth[..])
      modifies heap, this`heapLen
      ensures heapLen == old(heapLen) - 1
      ensures Popped(old(heap[..]), old(heapLen), heap[..], n, t.fc[..], depth[..])
    {
      hide Ordered, Nodes, Pow2, Popped, Rearranged;
      ghost var h: seq<nat> := heap[..];
      HeapParts(h, heapLen, t.fc[..], depth[..]);
      RootReplaced(h, heapLen, t.fc[..], depth[..]);
      n := heap[1];
      heap[1] := heap[heapLen];
      heapLen := heapLen - 1;
      assert heap[..] == h[1 := h[heapLen + 1]];
      PqDownHeap(heap, heapLen, t.fc, depth, 1);
      PopDone(h, heapLen + 1, heap[..], t.fc[..], depth[..]);
    }

    // The frequency, 16 bits wide, and depth, 8 bits wide, of the father of n and m.
    method WeighFather(t: Tree, node: nat, n: nat, m: nat)
      requires Shape(t) && n < node < t.fc.Length && m < node
      modifies depth, t.fc
      ensures t.fc[..] == old(t.fc[..])[node := (old(t.fc[n]) + old(t.fc[m])) % 0x10000]
      ensures forall i | 0 <= i < HEAP_SIZE && i != node :: depth[i] == old(depth[i])
    {
      t.fc[node] := (t.fc[n] + t.fc[m]) % 0x10000;
      depth[node] := ((if depth[n] > depth[m] then depth[n] else depth[m]) + 1) % 0x100;
    }

    // Put a fresh internal node, father of n and m, in place of the root of the heap.
    method PushFather(t: Tree, node: nat, n: nat, m: nat)
      requires Shape(t) && 1 <= heapLen < HEAP_SIZE && IsHeap(heap[..], heapLen, t.fc[..], depth[..])
      requires n < node < t.fc.Length && m < node && forall i | 0 < i <= heapLen :: heap[i] != node
      modifies heap, depth, t.fc
      ensures Pushed(old(heap[..]), heapLen, heap[..], node, old(t.fc[..]), t.fc[..], depth[..])
      ensures t.fc[..][node] == (old(t.fc[n]) + old(t.fc[m])) % 0x10000
    {
      hide Ordered, Nodes, Pow2, Pushed, IsHeap, Rearranged;
      ghost var h: seq<nat>, f: seq<nat>, d: seq<nat> := heap[..], t.fc[..], depth[..];
      ghost var w := (f[n] + f[m]) % 0x10000;
      WeighFather(t, node, n, m);
      PushStart(h, heapLen, node, w, f, d, depth[..]);
      heap[1] := node;
      assert heap[..] == h[1 := node];
      PqDownHeap(heap, heapLen, t.fc, depth, 1);
      PushDone(h, heapLen, heap[..], node, w, f, depth[..]);
    }

    // Keep the nodes sorted by frequency, and name their father.
    method KeepPair(t: Tree, node: nat, n: nat, m: nat)
      requires Shape(t) && 2 <= heapMax <= HEAP_SIZE && n < t.dl.Length && m < t.dl.Length
      modifies heap, t.dl, this`heapMax
      ensures heapMax == old(heapMax) - 2 && heap[..] == old(heap[..])[old(heapMax) - 1 := n][old(heapMax) - 2 := m]
      ensures t.dl[..] == old(t.dl[..])[n := node][m := node]
    {
      heapMax := heapMax - 1;
      heap[heapMax] := n;
      heapMax := heapMax - 1;
      heap[heapMax] := m;
      t.dl[n] := node;
      t.dl[m] := node;
    }

    // Combine the two least frequent nodes.
    method MergeTwo(t: Tree, node: nat, ghost kids: seq<nat>, ghost freq: seq<nat>) returns (ghost kids': seq<nat>)
      requires Shape(t) && Merging(Snap(t, kids, freq)) && Weighed(Snap(t, kids, freq)) && heapLen >= 2 && node == t.elems + |kids| / 2
      modifies heap, depth, t.fc, t.dl, this`heapLen, this`heapMax
      ensures Merging(Snap(t, kids', freq)) && Weighed(Snap(t, kids', freq)) && |kids'| == |kids| + 2 && heapLen == old(heapLen) - 1
      ensures heapLen == 1 ==> heap[1] == node
    {
      hide Merging, Pow2, Popped, Pushed, IsHeap, Weighed;
      ghost var s := Snap(t, kids, freq);
      MergingHeap(s);
      var n := PopLeast(t);
      ghost var a1: seq<nat> := heap[..];
      var m := heap[1];
      Picked(s, a1, n);
      KeepPair(t, node, n, m);
      PushFather(t, node, n, m);
      kids' := kids + [n, m];
      Merged(s, a1, n, heap[..], t.fc[..], depth[..]);
      MergeWeighed(s, a1, n, heap[..], t.fc[..], depth[..]);
    }

    // The heap array and max_code list the symbols that occur.
    ghost predicate Collected(t: Tree, freq: seq<nat>)
      reads this, heap, t, t.fc, t.dl
    {
      && Shape(t) && |freq| == t.elems && t.fc[..t.elems] == freq
      && Listed(heap[..], heapLen, freq, t.maxCode)
      && Unused(t.dl[..], freq)
    }

    // Put all symbols that occur into the heap array.
    method CollectSymbols(t: Tree)
      requires Shape(t)
      modifies heap, depth, t.dl, t`maxCode, this`heapLen, this`heapMax
      ensures heapMax == HEAP_SIZE && Collected(t, old(t.fc[..t.elems]))
    {
      hide Pow2, Listed, Unused;
      ghost var freq: seq<nat> := t.fc[..t.elems];
      heapLen := 0;
      heapMax := HEAP_SIZE;
      t.maxCode := -1;
      ListNothing(heap[..], freq, t.dl[..]);
      for n := 0 to t.elems
        invariant t.fc[..t.elems] == freq && heapMax == HEAP_SIZE && heapLen <= n
        invariant Listed(heap[..], heapLen, freq[..n], t.maxCode) && Unused(t.dl[..], freq[..n])
      {
        assert t.fc[n] == freq[n];
        UnusedNext(t.dl[..], freq, n);
        if t.fc[n] != 0 {
          ListUsed(heap[..], heapLen, freq, n, t.maxCode);
          heapLen := heapLen + 1;
          heap[heapLen] := n;
          t.maxCode := n;
          depth[n] := 0;
        } else {
          ListUnused(heap[..], heapLen, freq, n, t.maxCode);
          t.dl[n] := 0;
        }
      }
      assert freq[..t.elems] == freq;
    }

    // Force unused symbols in until there are two; each will cost the one bit taken off here.
    method ForceTwo(t: Tree, ghost freq: seq<nat>)
      requires Collected(t, freq)
      modifies heap, depth, t.fc, t`maxCode, this`heapLen, this`optLen, this`staticLen
      ensures Collected(t, Forced(freq)) && heapLen >= 2
      ensures optLen + Cost(Forced(freq), Ones(t.elems), t.extra, t.elems)
              == old(optLen) + Cost(freq, Ones(t.elems), t.extra, t.elems)
      ensures t.statLens == [] ==> staticLen == old(staticLen)
      ensures t.statLens != [] ==> staticLen + Cost(Forced(freq), t.statLens, t.extra, t.elems)
                                   == old(staticLen) + Cost(freq, t.statLens, t.extra, t.elems)
    {
      hide Pow2, Used, Cost, Forced, Unused;
      ghost var cur := freq;
      while heapLen < 2
        invariant Collected(t, cur) && Forced(cur) == Forced(freq)
        invariant optLen + Cost(cur, Ones(t.elems), t.extra, t.elems)
                  == old(optLen) + Cost(freq, Ones(t.elems), t.extra, t.elems)
        invariant t.statLens == [] ==> staticLen == old(staticLen)
        invariant t.statLens != [] ==> staticLen + Cost(cur, t.statLens, t.extra, t.elems)
                                       == old(staticLen) + Cost(freq, t.statLens, t.extra, t.elems)
        decreases 2 - heapLen
      {
        cur := ForceSymbol(t, cur);
      }
      ForcedEnough(cur);
    }

    // One turn of the forcing loop.
    method ForceSymbol(t: Tree, ghost cur: seq<nat>) returns (ghost next: seq<nat>)
      requires Collected(t, cur) && heapLen < 2
      modifies heap, depth, t.fc, t`maxCode, this`heapLen, this`optLen, this`staticLen
      ensures Collected(t, next) && Forced(next) == Forced(cur) && heapLen == old(heapLen) + 1
      ensures optLen + Cost(next, Ones(t.elems), t.extra, t.elems)
              == old(optLen) + Cost(cur, Ones(t.elems), t.extra, t.elems)
      ensures t.statLens == [] ==> staticLen == old(staticLen)
      ensures t.statLens != [] ==> staticLen + Cost(next, t.statLens, t.extra, t.elems)
                                   == old(staticLen) + Cost(cur, t.statLens, t.extra, t.elems)
    {
      hide Pow2, Used, Cost, Forced, Unused, Listed;
      var sym := AddSymbol(t, cur);
      next := cur[sym := 1];
      CostInsert(cur, sym, Ones(t.elems), t.extra, t.elems);
      optLen := optLen - 1;
      if t.statLens != [] {
        CostInsert(cur, sym, t.statLens, t.extra, t.elems);
        staticLen := staticLen - t.statLens[sym];
      }
    }

    method AddSymbol(t: Tree, ghost cur: seq<nat>) returns (sym: nat)
      requires Collected(t, cur) && heapLen < 2
      modifies heap, depth, t.fc, t`maxCode, this`heapLen
      ensures sym < 3 <= |cur| && cur[sym] == 0 && Collected(t, cur[sym := 1])
      ensures Forced(cur[sym := 1]) == Forced(cur) && heapLen == old(heapLen) + 1
    {
      hide Pow2, Used, Forced, Unused, Listed;
      ListMore(heap[..], heapLen, cur, t.maxCode);
      sym := NextSpare(t);
      UnusedMore(t.dl[..], cur, sym);
      heapLen := heapLen + 1;
      heap[heapLen] := sym;
      t.fc[sym] := 1;
      depth[sym] := 0;
      assert heap[..] == old(heap[..])[heapLen := sym];
      assert t.fc[..t.elems] == cur[sym := 1];
    }

    // max_code < 2 ? ++max_code : 0
    method NextSpare(t: Tree) returns (sym: nat)
      requires -1 <= t.maxCode
      modifies t`maxCode
      ensures sym == if old(t.maxCode) < 2 then old(t.maxCode) + 1 else 0
      ensures t.maxCode == if old(t.maxCode) < 2 then sym else old(t.maxCode)
    {
      if t.maxCode < 2 {
        t.maxCode := t.maxCode + 1;
        sym := t.maxCode;
      } else {
        sym := 0;
      }
    }

    // Establish the heap.
    method MakeHeap(t: Tree, ghost freq: seq<nat>)
      requires Collected(t, freq) && heapLen >= 2 && heapMax == HEAP_SIZE
      modifies heap
      ensures Merging(Snap(t, [], freq)) && Weighed(Snap(t, [], freq))
    {
      hide Ordered, Nodes, Pow2, Used, Unused, Listed, Merging, Weighed;
      CollectedNodes(heap[..], heapLen, freq, t.maxCode, t.fc[..], depth[..]);
      Heapify(heap, heapLen, t.fc, depth);
      MergingStart(Snap(t, [], freq));
      WeighedStart(Snap(t, [], freq));
    }

    // Grow the tree.
    method MergeAll(t: Tree, ghost freq: seq<nat>) returns (ghost all: seq<nat>)
      requires Shape(t) && Merging(Snap(t, [], freq)) && Weighed(Snap(t, [], freq)) && heapLen >= 2
      modifies heap, depth, t.fc, t.dl, this`heapLen, this`heapMax
      ensures Removed(all) && |freq| == t.elems && Grown(all, t.elems, Used(freq, t.elems))
      ensures t.elems + |all| / 2 <= t.dl.Length && forall i | 0 <= i < |all| :: all[i] < t.dl.Length
      ensures forall i | 0 <= i < |all| - 1 :: t.dl[all[i]] == t.elems + i / 2
      ensures t.fc[..t.elems] == freq && Unused(t.dl[..], freq)
      ensures Volume(freq) < 0x10000 ==> Huffed(all, t.elems, t.fc[..], Volume(freq))
    {
      hide Merging, Pow2, Used, Grown, Unused, Weighed, Greedy, Volume;
      ghost var kids: seq<nat> := [];
      var node := t.elems;
      while true
        invariant Merging(Snap(t, kids, freq)) && Weighed(Snap(t, kids, freq)) && heapLen >= 2 && node == t.elems + |kids| / 2 && |kids| % 2 == 0
        decreases heapLen
      {
        kids := MergeTwo(t, node, kids, freq);
        node := node + 1;
        if heapLen < 2 {
          break;
        }
      }
      ghost var s := Snap(t, kids, freq);
      MergingSizes(s);
      MergingDone(s);
      WeighedDone(s);
      all := kids + [heap[1]];
      heapMax := heapMax - 1;
      heap[heapMax] := heap[1];
    }

    // gen_bitlen and gen_codes on the finished tree.
    method CodeTree(t: Tree, ghost all: seq<nat>, ghost freq: seq<nat>) returns (ghost clamped: bool)
      requires Shape(t) && Removed(all) && |freq| == t.elems && Grown(all, t.elems, Used(freq, t.elems))
      requires t.elems + |all| / 2 <= t.dl.Length && forall i | 0 <= i < |all| :: all[i] < t.dl.Length
      requires forall i | 0 <= i < |all| - 1 :: t.dl[all[i]] == t.elems + i / 2
      requires t.fc[..t.elems] == freq && Unused(t.dl[..], freq)
      requires Volume(freq) < 0x10000 ==> Huffed(all, t.elems, t.fc[..], Volume(freq))
      requires 0 <= t.maxCode < t.elems && freq[t.maxCode] != 0 && forall n | t.maxCode < n < t.elems :: freq[n] == 0
      modifies t.dl, t.fc, blCount, this`optLen, this`staticLen
      ensures GoodCode(freq, t.dl[..t.elems], t.fc[..], t.maxCode, t.maxLength)
      ensures |Used(freq, t.elems)| == 2 ==> forall n | 0 <= n < t.elems && freq[n] != 0 :: t.dl[n] == 1
      ensures optLen == old(optLen) + Cost(freq, t.dl[..t.elems], t.extra, t.elems)
      ensures staticLen == old(staticLen) + if t.statLens == [] then 0 else Cost(freq, t.statLens, t.extra, t.elems)
      ensures Volume(freq) < 0x10000 ==>
                if clamped then Volume(freq) >= Fib(t.maxLength + 3) else Cheapest(freq, t.dl[..t.elems], t.extra)
    {
      hide Grown, Pow2, Used, GoodLengths, GoodCode, Cost, Kraft, Greedy, Volume, Fib, Cheapest, Huffed, Judged, Unused, Fits,
           GC.CodesSet, GC.Statistics;
      ghost var f: seq<nat> := t.fc[..];
      BeforeLengths(f, freq, t.dl[..], t.elems, t.maxCode);
      clamped := GenBitLen(t, all);
      ghost var lens: seq<nat> := t.dl[..];
      CodeVerdict(all, f, freq, lens, t.elems, t.maxLength, t.extra, clamped);
      AfterLengths(f, freq, lens, t.extra, t.statLens, t.elems);
      ReadyForCodes(f, freq, lens, t.elems, t.maxLength, blCount[..], t.maxCode);
      GC.GenCodes(t.dl, t.fc, blCount, t.maxCode);
      CodesDone(f, freq, lens, t.elems, t.maxLength, blCount[..], t.maxCode, t.fc[..]);
    }

    // build_tree: a complete canonical code for the symbols that occur (or are forced in), none longer than
    // maxLength, with opt_len and static_len grown by exactly what the block's symbols will take.
    // Unless a level had to be clamped, or the 16-bit frequencies can wrap, no prefix code takes fewer bits; and levels are
    // clamped only if the frequencies add up to the Fibonacci number of maxLength + 3.
    method BuildTree(t: Tree) returns (ghost clamped: bool)
      requires Shape(t)
      modifies heap, depth, blCount, t.fc, t.dl, t`maxCode, this`heapLen, this`heapMax, this`optLen, this`staticLen
      ensures GoodCode(Forced(old(t.fc[..t.elems])), t.dl[..t.elems], t.fc[..], t.maxCode, t.maxLength)
      ensures optLen == old(optLen) + Cost(old(t.fc[..t.elems]), t.dl[..t.elems], t.extra, t.elems)
      ensures staticLen == old(staticLen)
                           + if t.statLens == [] then 0 else Cost(old(t.fc[..t.elems]), t.statLens, t.extra, t.elems)
      ensures Volume(Forced(old(t.fc[..t.elems]))) < 0x10000 ==>
                if clamped then Volume(Forced(old(t.fc[..t.elems]))) >= Fib(t.maxLength + 3) else Cheapest(Forced(old(t.fc[..t.elems])), t.dl[..t.elems], t.extra)
    {
      hide Pow2, Used, GoodCode, Cost, Forced, Merging, Grown, Unused, Weighed, Greedy, Volume, Fib, Cheapest;
      ghost var freq: seq<nat> := t.fc[..t.elems];
      CollectSymbols(t);
      ForceTwo(t, freq);
      ghost var f2 := Forced(freq);
      ListedMax(heap[..], heapLen, f2, t.maxCode);
      MakeHeap(t, f2);
      ghost var all := MergeAll(t, f2);
      clamped := CodeTree(t, all, f2);
      ForcedTwo(freq);
      ForcedCost(freq, t.dl[..t.elems], t.extra, t.elems);
    }
  }

  // The nodes all[k..] have their levels, and are counted.
  ghost predicate PlacedAt(all: seq<nat>, k: nat, elems: nat, max: nat, lens: seq<nat>, counts: seq<nat>, freq: seq<nat>,
                           extra: seq<nat>, stat: seq<nat>, overflow: nat, opt: int, fixed: int)
  {
    && k < |all| && Placing(all, elems, lens, max, k)
    && CountsOf(counts, all[k..], lens, elems)
    && overflow == Over(elems, lens, max, k, |all| - 1)
    && opt == Sum(all[k..], LeafCost(freq, lens, extra))
    && fixed == Sum(all[k..], LeafCost(freq, stat, extra))
  }

  // The node of the next turn of the first pass.
  lemma {:induction false} TurnFacts(all: seq<nat>, k: nat, elems: nat, leaves: seq<nat>, max: nat, lens: seq<nat>, counts: seq<nat>,
                                     freq: seq<nat>, extra: seq<nat>, stat: seq<nat>, overflow: nat, opt: int, fixed: int)
    requires Grown(all, elems, leaves) && k + 1 < |all|
    requires PlacedAt(all, k + 1, elems, max, lens, counts, freq, extra, stat, overflow, opt, fixed)
    ensures all[k] < |lens| && lens[all[k]] == elems + k / 2 < |lens| && lens[elems + k / 2] <= max
    ensures all[k] in all && (all[k] < elems ==> all[k] in leaves)
  {
    hide Grown, Placing, CountsOf, Over, LeafCost, Pow2, Sum;
    PlaceFacts(all, elems, leaves, lens, max, k);
  }

  // One turn of the first pass: node all[k] gets its level, and is counted if it is a leaf.
  lemma {:induction false} PlaceTurn(all: seq<nat>, k: nat, elems: nat, leaves: seq<nat>, max: nat, lens: seq<nat>, counts: seq<nat>,
                                     freq: seq<nat>, extra: seq<nat>, stat: seq<nat>, overflow: nat, opt: int, fixed: int,
                                     bits: nat, counts': seq<nat>, opt': int, fixed': int)
    requires k + 1 < |all| && all[k] < |lens| && elems + k / 2 < |lens| && bits == Min(lens[elems + k / 2] + 1, max) < |counts|
    requires |extra| == elems <= |freq| && (stat == [] || |stat| == elems)
    requires counts' == if all[k] < elems then counts[bits := counts[bits] + 1] else counts
    requires opt' == opt + if all[k] < elems then freq[all[k]] * (bits + extra[all[k]]) else 0
    requires fixed' == fixed + if all[k] < |stat| then freq[all[k]] * (stat[all[k]] + extra[all[k]]) else 0
    requires Grown(all, elems, leaves)
    requires PlacedAt(all, k + 1, elems, max, lens, counts, freq, extra, stat, overflow, opt, fixed)
    ensures PlacedAt(all, k, elems, max, lens[all[k] := bits], counts', freq, extra, stat,
                     overflow + if lens[elems + k / 2] == max then 1 else 0, opt', fixed')
  {
    hide Grown, Placing, CountsOf, Over, LeafCost, Pow2, Sum;
    PlaceFacts(all, elems, leaves, lens, max, k);
    assert all[k..] == [all[k]] + all[k + 1..];
    PlaceSums(all[k + 1..], all[k], bits, elems, lens, counts, freq, extra, stat);
  }

  // A complete canonical code for the symbols of non-zero frequency; maxCode is the last of them.
  ghost predicate GoodCode(freq: seq<nat>, lens: seq<nat>, codes: seq<nat>, maxCode: int, max: nat)
  {
    && |freq| == |lens| <= |codes| && 0 <= maxCode < |freq| && freq[maxCode] != 0
    && (forall n | maxCode < n < |freq| :: freq[n] == 0)
    && (forall n | 0 <= n < |freq| :: if freq[n] == 0 then lens[n] == 0 else 1 <= lens[n] <= max)
    && max <= MAX_BITS && Kraft(lens[..maxCode + 1], max) == Pow2(max)
    && GC.CodesSet(codes, lens[..maxCode + 1], maxCode + 1)
  }

  // A tree grown by merging the two lightest nodes, whose root weighs v.
  ghost predicate Huffed(all: seq<nat>, elems: nat, f: seq<nat>, v: nat)
  {
    Greedy(all, elems, f) && 0 <= elems + |all| / 2 - 1 < |f| && f[elems + |all| / 2 - 1] == v
  }

  // The lengths are the cheapest, or levels were clamped and the tree is heavy.
  ghost predicate Judged(all: seq<nat>, f: seq<nat>, lens: seq<nat>, elems: nat, max: nat, extra: seq<nat>, clamped: bool)
  {
    && elems <= |f| && elems <= |lens| && |extra| == elems && 0 <= elems + |all| / 2 - 1 < |f|
    && if clamped then f[elems + |all| / 2 - 1] >= Fib(max + 3) else Cheapest(f[..elems], lens[..elems], extra)
  }

  lemma {:induction false} CodeVerdict(all: seq<nat>, f: seq<nat>, freq: seq<nat>, lens: seq<nat>, elems: nat, max: nat,
                                       extra: seq<nat>, clamped: bool)
    requires elems <= |lens| && |freq| == |extra| == elems <= |f| && f[..elems] == freq
    requires Volume(freq) < 0x10000 ==> Huffed(all, elems, f, Volume(freq))
    requires Greedy(all, elems, f) ==> Judged(all, f, lens, elems, max, extra, clamped)
    ensures Volume(freq) < 0x10000 ==> if clamped then Volume(freq) >= Fib(max + 3) else Cheapest(freq, lens[..elems], extra)
  {
    hide Greedy, Volume, Fib, Cheapest;
  }

  lemma {:induction false} JudgedNow(all: seq<nat>, elems: nat, f: seq<nat>, levels: seq<nat>, lens: seq<nat>, max: nat,
                                     extra: seq<nat>, overflow: nat)
    requires elems <= |f| && Grown(all, elems, Used(f, elems)) && Greedy(all, elems, f) && |extra| == elems
    requires Placing(all, elems, levels, max, 0) && overflow == Over(elems, levels, max, 0, |all| - 1)
    requires |lens| == |levels| && (overflow == 0 ==> lens == levels)
    ensures Judged(all, f, lens, elems, max, extra, overflow != 0)
  {
    hide Cheapest, Fib, Placing, Over, Used;
    Verdict(all, elems, f, levels, max, extra);
  }

  // maxCode is the largest symbol that occurs, or -1.
  ghost predicate Largest(freq: seq<nat>, maxCode: int)
  {
    && -1 <= maxCode < |freq| && (maxCode >= 0 ==> freq[maxCode] != 0)
    && forall n | maxCode < n < |freq| :: n >= 0 && freq[n] == 0
  }

  // The heap array lists the symbols that occur.
  ghost predicate Listed(a: seq<nat>, len: nat, freq: seq<nat>, maxCode: int)
  {
    && len < |a| && len == |Used(freq, |freq|)| <= |freq|
    && multiset(a[1..len + 1]) == multiset(Used(freq, |freq|))
    && Largest(freq, maxCode)
  }

  lemma {:induction false} ListNothing(a: seq<nat>, freq: seq<nat>, lens: seq<nat>)
    requires |a| > 1
    ensures Listed(a, 0, freq[..0], -1) && Unused(lens, freq[..0])
  {
  }

  lemma {:induction false} ListUsed(a: seq<nat>, len: nat, freq: seq<nat>, n: nat, maxCode: int)
    requires n < |freq| && n + 1 < |a| && len <= n && Listed(a, len, freq[..n], maxCode) && freq[n] != 0
    ensures Listed(a[len + 1 := n], len + 1, freq[..n + 1], n)
  {
    hide Used, Largest;
    UsedGrows(freq, n);
    LargestNext(freq, n, maxCode);
    OneMore(a, a[len + 1 := n], len + 1, n);
  }

  lemma {:induction false} ListUnused(a: seq<nat>, len: nat, freq: seq<nat>, n: nat, maxCode: int)
    requires n < |freq| && len <= n && Listed(a, len, freq[..n], maxCode) && freq[n] == 0
    ensures Listed(a, len, freq[..n + 1], maxCode)
  {
    hide Used, Largest;
    UsedGrows(freq, n);
    LargestNext(freq, n, maxCode);
  }

  lemma {:induction false} LargestNext(freq: seq<nat>, n: nat, maxCode: int)
    requires n < |freq| && Largest(freq[..n], maxCode)
    ensures Largest(freq[..n + 1], if freq[n] != 0 then n else maxCode)
  {
  }

  lemma {:induction false} UsedGrows(freq: seq<nat>, n: nat)
    requires n < |freq|
    ensures var u, u' := Used(freq[..n], n), Used(freq[..n + 1], n + 1);
            if freq[n] != 0 then multiset(u') == multiset(u) + multiset{n} && |u'| == |u| + 1 else u' == u
  {
    UsedPrefix(freq, n, n);
    UsedPrefix(freq, n + 1, n + 1);
  }

  lemma {:induction false} UnusedNext(lens: seq<nat>, freq: seq<nat>, n: nat)
    requires n < |freq| <= |lens| && Unused(lens, freq[..n])
    ensures if freq[n] != 0 then Unused(lens, freq[..n + 1]) else Unused(lens[n := 0], freq[..n + 1])
  {
  }

  lemma {:induction false} ListMore(a: seq<nat>, len: nat, freq: seq<nat>, maxCode: int)
    requires Listed(a, len, freq, maxCode) && len < 2 && 3 <= |freq| && 3 < |a|
    ensures var s: nat := if maxCode < 2 then maxCode + 1 else 0;
            && -1 <= maxCode && s < 3 && freq[s] == 0 && Forced(freq[s := 1]) == Forced(freq)
            && Listed(a[len + 1 := s], len + 1, freq[s := 1], if maxCode < 2 then s else maxCode)
  {
    hide Used, Forced;
    ForceOne(freq, maxCode);
    var s: nat := if maxCode < 2 then maxCode + 1 else 0;
    OneMore(a, a[len + 1 := s], len + 1, s);
    LargestForced(freq, maxCode);
  }

  lemma {:induction false} LargestForced(freq: seq<nat>, maxCode: int)
    requires 3 <= |freq| && Largest(freq, maxCode)
    ensures var s: nat := if maxCode < 2 then maxCode + 1 else 0;
            s < |freq| && Largest(freq[s := 1], if maxCode < 2 then s else maxCode)
  {
  }

  lemma {:induction false} OneMore(h: seq<nat>, h': seq<nat>, len: nat, x: nat)
    requires 1 <= len < |h| && h' == h[len := x]
    ensures multiset(h'[1..len + 1]) == multiset(h[1..len]) + multiset{x}
  {
    assert h'[1..len + 1] == h[1..len] + [x];
  }

  lemma {:induction false} UnusedMore(lens: seq<nat>, freq: seq<nat>, s: nat)
    requires |freq| <= |lens| && s < |freq| && Unused(lens, freq)
    ensures Unused(lens, freq[s := 1])
  {
  }

  lemma {:induction false} ForcedEnough(freq: seq<nat>)
    requires |freq| >= 3 && |Used(freq, |freq|)| >= 2
    ensures Forced(freq) == freq
  {
  }

  lemma {:induction false} CollectedNodes(a: seq<nat>, len: nat, freq: seq<nat>, maxCode: int, f: seq<nat>, d: seq<nat>)
    requires Listed(a, len, freq, maxCode) && |freq| <= |f| <= |d|
    ensures Nodes(a, len, f, d) && len == |Used(freq, |freq|)| <= |freq|
    ensures multiset(a[1..len + 1]) == multiset(Used(freq, |freq|))
  {
    UsedSorted(freq, |freq|);
    forall i | 0 < i <= len ensures a[i] < |f| {
      assert a[i] == a[1..len + 1][i - 1];
      assert a[i] in multiset(Used(freq, |freq|));
      assert a[i] in Used(freq, |freq|);
    }
  }

  lemma {:induction false} MergingSizes(s: Snapshot)
    requires Merging(s)
    ensures Sizes(s) && s.f[..s.elems] == s.freq
  {
  }

  // What the frequencies of the symbols say about those of all nodes.
  lemma {:induction false} BeforeLengths(f: seq<nat>, freq: seq<nat>, lens: seq<nat>, n: nat, maxCode: nat)
    requires n == |freq| <= |f| && f[..n] == freq && n <= |lens| && Unused(lens, freq)
    requires maxCode < n && forall s | maxCode < s < n :: freq[s] == 0
    ensures Used(f, n) == Used(freq, n)
    ensures forall s | maxCode < s < n :: f[s] == 0
    ensures forall s | 0 <= s < n && f[s] == 0 :: lens[s] == 0
  {
    hide Used;
    UsedPrefix(f, n, n);
    assert forall s | 0 <= s < n :: f[s] == f[..n][s];
  }

  lemma {:induction false} AfterLengths(f: seq<nat>, freq: seq<nat>, lens: seq<nat>, extra: seq<nat>, stat: seq<nat>, n: nat)
    requires n == |freq| <= |f| && f[..n] == freq && n <= |lens| && n == |extra| && (stat == [] || |stat| == n)
    ensures Cost(f, lens[..n], extra, n) == Cost(freq, lens[..n], extra, n)
    ensures stat != [] ==> Cost(f, stat, extra, n) == Cost(freq, stat, extra, n)
    ensures forall s | 0 <= s < n :: f[s] == freq[s]
  {
    hide Cost;
    CostPrefix(f, lens[..n], extra, n, n);
    if stat != [] { CostPrefix(f, stat, extra, n, n); }
    assert forall s | 0 <= s < n :: f[s] == f[..n][s];
  }

  lemma {:induction false} ReadyForCodes(f: seq<nat>, freq: seq<nat>, lens: seq<nat>, elems: nat, max: nat,
                                         counts: seq<nat>, maxCode: nat)
    requires elems == |freq| <= |f| && f[..elems] == freq && elems <= |lens| && 1 <= max <= MAX_BITS
    requires GoodLengths(f, lens[..elems], elems, max, counts)
    requires maxCode < elems && forall n | maxCode < n < elems :: freq[n] == 0
    ensures Fits(lens[..maxCode + 1], MAX_BITS) && GC.Statistics(counts, lens[..maxCode + 1])
    ensures Kraft(lens[..maxCode + 1], max) == Pow2(max)
  {
    hide Kraft, Count, Pow2;
    var l := lens[..elems];
    assert forall n | 0 <= n < elems :: f[n] == f[..elems][n];
    assert l[..maxCode + 1] == lens[..maxCode + 1];
    KraftTrim(l, maxCode + 1, max);
    KraftBeyond(l[..maxCode + 1], max, MAX_BITS);
    forall b | 1 <= b <= MAX_BITS ensures counts[b] == Count(lens[..maxCode + 1], b) {
      CountTrim(l, maxCode + 1, b);
    }
  }

  lemma {:induction false} CodesDone(f: seq<nat>, freq: seq<nat>, lens: seq<nat>, elems: nat, max: nat,
                                     counts: seq<nat>, maxCode: nat, codes: seq<nat>)
    requires elems == |freq| <= |f| && f[..elems] == freq && elems <= |lens| == |codes| && 1 <= max <= MAX_BITS
    requires GoodLengths(f, lens[..elems], elems, max, counts)
    requires maxCode < elems && freq[maxCode] != 0 && forall n | maxCode < n < elems :: freq[n] == 0
    requires GC.CodesSet(codes, lens[..maxCode + 1], maxCode + 1)
    ensures GoodCode(freq, lens[..elems], codes, maxCode, max)
  {
    ReadyForCodes(f, freq, lens, elems, max, counts, maxCode);
    var l := lens[..elems];
    assert forall n | 0 <= n < elems :: f[n] == f[..elems][n];
    assert l[..maxCode + 1] == lens[..maxCode + 1];
  }

  lemma {:induction false} ListedMax(a: seq<nat>, len: nat, freq: seq<nat>, maxCode: int)
    requires Listed(a, len, freq, maxCode) && len >= 2
    ensures 0 <= maxCode < |freq| && freq[maxCode] != 0 && forall n | maxCode < n < |freq| :: freq[n] == 0
  {
    if maxCode < 0 { NoneUsed(freq, |freq|); }
  }

  // If symbols had to be forced in, exactly two symbols occur now.
  lemma {:induction false} ForcedTwo(freq: seq<nat>)
    requires |freq| >= 3
    ensures |Used(freq, |freq|)| < 2 ==> |Used(Forced(freq), |freq|)| == 2
  {
    var n := |freq|;
    var u := Used(freq, n);
    UsedSorted(freq, n);
    if |u| == 1 {
      var s := Spare(u[0]);
      assert u[0] in u && s !in u;
      UsedInsert(freq, s, n);
      assert |Used(freq[s := 1], n)| == |multiset(Used(freq[s := 1], n))| == |multiset(u)| + 1;
    } else if |u| == 0 {
      assert 0 !in u && 1 !in u;
      UsedInsert(freq, 0, n);
      UsedInsert(freq[0 := 1], 1, n);
      var v := Used(freq[0 := 1][1 := 1], n);
      assert |v| == |multiset(v)| == |multiset(u)| + 2;
    }
  }
}
