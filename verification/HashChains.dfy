// The string hash of gzip.c and the honesty of its chains.
module HashChains {
  import opened Bits
  import opened Lz77

  const HASH_BITS := 13
  const HASH_SIZE := 0x2000
  const H_SHIFT := 5

  // UPDATE_HASH: h = ((h << H_SHIFT) ^ c) & HASH_MASK
  function UpdateHash(h: nat, c: Byte): (r: nat)
    ensures r < HASH_SIZE
  {
    LowBound(Xor(Shl(h, H_SHIFT), c), HASH_BITS);
    Powers();
    Low(Xor(Shl(h, H_SHIFT), c), HASH_BITS)
  }

  function Hash3(a: Byte, b: Byte, c: Byte): nat
  {
    UpdateHash(UpdateHash(UpdateHash(0, a), b), c)
  }

  // Of a running hash only the low k bits, shifted, survive one more update.
  lemma {:induction false} UpdateLow(h: nat, c: Byte, k: nat)
    requires H_SHIFT <= k <= HASH_BITS
    ensures Low(UpdateHash(h, c), k) == Xor(Shl(Low(h, k - H_SHIFT), H_SHIFT), Low(c, k))
  {
    LowLow(Xor(Shl(h, H_SHIFT), c), k, HASH_BITS);
    LowXor(Shl(h, H_SHIFT), c, k);
    LowShift(h, H_SHIFT, k);
  }

  lemma {:induction false} UpdateLowFew(h: nat, h': nat, c: Byte, k: nat)
    requires k <= H_SHIFT
    ensures Low(UpdateHash(h, c), k) == Low(UpdateHash(h', c), k)
  {
    UpdateLow(h, c, H_SHIFT);
    UpdateLow(h', c, H_SHIFT);
    LowLow(UpdateHash(h, c), k, H_SHIFT);
    LowLow(UpdateHash(h', c), k, H_SHIFT);
  }

  // H_SHIFT * MIN_MATCH >= HASH_BITS: after three updates the older bytes are gone.
  lemma {:induction false} HashForgets(h: nat, a: Byte, b: Byte, c: Byte)
    ensures UpdateHash(UpdateHash(UpdateHash(h, a), b), c) == Hash3(a, b, c)
  {
    var u, u' := UpdateHash(h, a), UpdateHash(0, a);
    var v, v' := UpdateHash(u, b), UpdateHash(u', b);
    UpdateLowFew(h, 0, a, 3);
    UpdateLow(u, b, 8);
    UpdateLow(u', b, 8);
    assert Low(v, 8) == Low(v', 8);
    SameLowSameHash(v, v', c);
  }

  lemma {:induction false} SameLowSameHash(v: nat, v': nat, c: Byte)
    requires Low(v, 8) == Low(v', 8)
    ensures UpdateHash(v, c) == UpdateHash(v', c)
  {
    UpdateLow(v, c, HASH_BITS);
    UpdateLow(v', c, HASH_BITS);
    var x, x' := UpdateHash(v, c), UpdateHash(v', c);
    Powers();
    LowSmall(x, HASH_BITS);
    LowSmall(x', HASH_BITS);
  }

  // Equal hashes and equal first two bytes force equal third bytes.
  lemma {:induction false} ThirdByte(a: Byte, b: Byte, c: Byte, d: Byte)
    requires Hash3(a, b, c) == Hash3(a, b, d)
    ensures c == d
  {
    hide UpdateHash, Xor;
    var h := UpdateHash(UpdateHash(0, a), b);
    UpdateLow(h, c, HASH_BITS);
    UpdateLow(h, d, HASH_BITS);
    XorCancel(Shl(Low(h, 8), H_SHIFT), Low(c, HASH_BITS), Low(d, HASH_BITS));
    Powers();
    LowSmall(c, HASH_BITS);
    LowSmall(d, HASH_BITS);
  }

  // The hash under which the string at window index p is filed.
  ghost function HashAt(w: seq<Byte>, p: nat): nat
    requires p + 2 < |w|
  {
    Hash3(w[p], w[p + 1], w[p + 2])
  }

  // The uncompared third byte of a candidate.
  lemma {:induction false} ThirdByteAt(w: seq<Byte>, m: nat, s: nat)
    requires m < s && s + 2 < |w| && HashAt(w, m) == HashAt(w, s) && w[m] == w[s] && w[m + 1] == w[s + 1]
    ensures w[m + 2] == w[s + 2]
  {
    hide Hash3;
    ThirdByte(w[m], w[m + 1], w[m + 2], w[s + 2]);
  }

  // ins_h has taken in w[p] and w[p + 1].
  ghost predicate HashReady(h: nat, w: seq<Byte>, p: nat)
    requires p + 2 < |w|
  {
    TookIn(h, w[p], w[p + 1])
  }

  ghost predicate TookIn(h: nat, a: Byte, b: Byte)
  {
    exists h0 :: h == RunningHash(h0, a, b)
  }

  ghost function RunningHash(h: nat, a: Byte, b: Byte): nat
  {
    UpdateHash(UpdateHash(h, a), b)
  }

  lemma {:induction false} HashReadyNext(h: nat, w: seq<Byte>, p: nat)
    requires p + 3 < |w| && HashReady(h, w, p)
    ensures UpdateHash(h, w[p + 2]) == HashAt(w, p)
    ensures HashReady(UpdateHash(h, w[p + 2]), w, p + 1)
  {
    hide UpdateHash;
    var h0 :| h == RunningHash(h0, w[p], w[p + 1]);
    HashForgets(h0, w[p], w[p + 1], w[p + 2]);
    assert UpdateHash(h, w[p + 2]) == RunningHash(UpdateHash(h0, w[p]), w[p + 1], w[p + 2]);
  }

  // Every head is 0 or an inserted position filed under that very hash.
  ghost predicate HeadsHonest(head: seq<nat>, w: seq<Byte>, ins: nat)
    requires ins + 2 <= |w|
  {
    forall h | 0 <= h < |head| :: head[h] == 0 || (head[h] < ins && HashAt(w, head[h]) == h)
  }

  function Slot(p: nat): (r: nat)
    ensures r < WSIZE
  {
    p % WSIZE
  }

  // Of the last WSIZE inserted positions, each links to 0 or to an earlier one with the same hash.
  ghost predicate LinksHonest(prev: seq<nat>, w: seq<Byte>, ins: nat)
    requires |prev| == WSIZE && ins + 2 <= |w|
  {
    forall p: nat | p < ins <= p + WSIZE :: LinkHonest(prev[Slot(p)], w, p)
  }

  ghost predicate LinkHonest(q: nat, w: seq<Byte>, p: nat)
    requires p + 2 < |w|
  {
    q == 0 || (q < p && HashAt(w, q) == HashAt(w, p))
  }

  lemma {:induction false} NothingInserted(head: seq<nat>, prev: seq<nat>, w: seq<Byte>)
    requires |w| > 2 && |prev| == WSIZE && forall h | 0 <= h < |head| :: head[h] == 0
    ensures HeadsHonest(head, w, 0) && LinksHonest(prev, w, 0)
    ensures HashReady(UpdateHash(UpdateHash(0, w[0]), w[1]), w, 0)
  {
    hide UpdateHash;
    assert TookIn(RunningHash(0, w[0], w[1]), w[0], w[1]);
  }

  lemma {:induction false} InsertHonest(head: seq<nat>, prev: seq<nat>, w: seq<Byte>, s: nat)
    requires |head| == HASH_SIZE && |prev| == WSIZE && s + 3 <= |w|
    requires HeadsHonest(head, w, s) && LinksHonest(prev, w, s)
    ensures HashAt(w, s) < |head|
    ensures LinkHonest(head[HashAt(w, s)], w, s)
    ensures HeadsHonest(head[HashAt(w, s) := s], w, s + 1)
    ensures LinksHonest(prev[Slot(s) := head[HashAt(w, s)]], w, s + 1)
  {
    hide UpdateHash;
    var h := HashAt(w, s);
    var prev' := prev[Slot(s) := head[h]];
    forall p: nat | p < s + 1 <= p + WSIZE
      ensures LinkHonest(prev'[Slot(p)], w, p)
    {
      if p != s {
        assert Slot(p) != Slot(s);
        assert LinkHonest(prev[Slot(p)], w, p);
      }
    }
  }

  // Positions before the slide keep their hash one WSIZE lower.
  ghost predicate Slid(w: seq<Byte>, w': seq<Byte>)
  {
    |w| == |w'| && 2 * WSIZE <= |w| && forall i | 0 <= i < WSIZE :: w'[i] == w[i + WSIZE]
  }

  function Lowered(m: nat): nat
  {
    if m >= WSIZE then m - WSIZE else 0
  }

  lemma {:induction false} SlidHash(w: seq<Byte>, w': seq<Byte>, p: nat)
    requires Slid(w, w') && WSIZE <= p && p + 2 < 2 * WSIZE
    ensures HashAt(w', p - WSIZE) == HashAt(w, p)
  {
  }

  lemma {:induction false} SlideHonest(head: seq<nat>, head': seq<nat>, prev: seq<nat>, prev': seq<nat>, ready: nat,
                                       w: seq<Byte>, w': seq<Byte>, ins: nat)
    requires Slid(w, w') && |prev| == |prev'| == WSIZE && |head| == |head'|
    requires WSIZE <= ins <= 2 * WSIZE - 2 && ins + 2 < |w|
    requires HeadsHonest(head, w, ins) && LinksHonest(prev, w, ins) && HashReady(ready, w, ins)
    requires forall h | 0 <= h < |head| :: head'[h] == Lowered(head[h])
    requires forall k | 0 <= k < WSIZE :: prev'[k] == Lowered(prev[k])
    ensures HeadsHonest(head', w', ins - WSIZE) && LinksHonest(prev', w', ins - WSIZE)
    ensures HashReady(ready, w', ins - WSIZE)
  {
    hide UpdateHash, TookIn;
    forall h | 0 <= h < |head'|
      ensures head'[h] == 0 || (head'[h] < ins - WSIZE && HashAt(w', head'[h]) == h)
    {
      if head[h] >= WSIZE { SlidHash(w, w', head[h]); }
    }
    forall p: nat | p < ins - WSIZE <= p + WSIZE
      ensures LinkHonest(prev'[Slot(p)], w', p)
    {
      assert Slot(p) == Slot(p + WSIZE);
      var q := prev[Slot(p + WSIZE)];
      assert LinkHonest(q, w, p + WSIZE);
      SlidHash(w, w', p + WSIZE);
      if q >= WSIZE { SlidHash(w, w', q); }
    }
  }

  // Reading input beyond the inserted strings leaves their hashes alone.
  lemma {:induction false} ReadHonest(head: seq<nat>, prev: seq<nat>, h: nat,
                                      w: seq<Byte>, w': seq<Byte>, ins: nat, valid: nat)
    requires |w| == |w'| && |prev| == WSIZE && ins + 2 <= valid && ins + 2 < |w| && valid <= |w|
    requires w[..valid] == w'[..valid]
    requires HeadsHonest(head, w, ins) && LinksHonest(prev, w, ins) && HashReady(h, w, ins)
    ensures HeadsHonest(head, w', ins) && LinksHonest(prev, w', ins) && HashReady(h, w', ins)
  {
    hide UpdateHash, TookIn;
    forall p: nat | p < valid ensures w[p] == w'[p] {
      assert w[..valid][p] == w'[..valid][p];
    }
    forall p: nat | p < ins <= p + WSIZE
      ensures LinkHonest(prev[Slot(p)], w', p)
    {
      assert LinkHonest(prev[Slot(p)], w, p);
    }
  }
}
