// scan_tree and send_tree of gzip.c.
module TreeSender {
  import opened Bits
  import opened BitStream
  import opened Canonical
  import opened CodeLengths
  import opened BitWriter
  import opened GenCodes

  const GUARD := 0xffff

  // Lengths up to n are scanned; the last count of them are equal to the next one and not yet coded.
  ghost predicate Scanning(lens: seq<nat>, n: nat, count: nat, prev: int, next: nat, done: seq<Op>)
  {
    && n <= |lens| && count <= n && next == (if n < |lens| then lens[n] else GUARD) && (n == |lens| ==> count == 0)
    && (forall k | n - count <= k < n :: lens[k] == next)
    && count < MaxCount(next, prev)
    && Runs(lens, 0, -1) == done + Runs(lens, n - count, prev)
  }

  lemma {:induction false} ScanStep(lens: seq<nat>, n: nat, count: nat, prev: int, cur: nat, done: seq<Op>)
    requires n < |lens| && Scanning(lens, n, count, prev, cur, done) && forall k | 0 <= k < |lens| :: lens[k] <= 15
    ensures var next := if n + 1 < |lens| then lens[n + 1] else GUARD;
            if count + 1 < MaxCount(cur, prev) && cur == next
            then Scanning(lens, n + 1, count + 1, prev, next, done)
            else Scanning(lens, n + 1, 0, cur, next, done + Chunk(cur, prev, count + 1))
  {
    hide Chunk;
    var next := if n + 1 < |lens| then lens[n + 1] else GUARD;
    if !(count + 1 < MaxCount(cur, prev) && cur == next) {
      var i := n - count;
      RunIs(lens, i, cur, MaxCount(cur, prev), count + 1);
      var a, b := Chunk(cur, prev, count + 1), Runs(lens, n + 1, cur);
      assert Runs(lens, i, prev) == a + b;
      assert done + (a + b) == (done + a) + b;
      hide Runs;
    }
  }

  lemma {:induction false} ScanStart(lens: seq<nat>)
    requires lens != []
    ensures Scanning(lens, 0, 0, -1, lens[0], [])
  {
    assert [] + Runs(lens, 0, -1) == Runs(lens, 0, -1);
  }

  lemma {:induction false} ScanDone(lens: seq<nat>, count: nat, prev: int, next: nat, done: seq<Op>)
    requires Scanning(lens, |lens|, count, prev, next, done)
    ensures done == Runs(lens, 0, -1)
  {
  }

  // ---- frequencies of the symbols ----

  // How often symbol s occurs.
  function Occurs(ops: seq<Op>, s: nat): nat
  {
    if ops == [] then 0 else Occurs(ops[..|ops| - 1], s) + if Symbol(ops[|ops| - 1]) == s then 1 else 0
  }

  lemma {:induction false} OccursAppend(a: seq<Op>, b: seq<Op>, s: nat)
    ensures Occurs(a + b, s) == Occurs(a, s) + Occurs(b, s)
  {
    if b == [] {
      assert a + b == a;
    } else {
      OccursAppend(a, b[..|b| - 1], s);
      assert (a + b)[..|a + b| - 1] == a + b[..|b| - 1];
    }
  }

  lemma {:induction false} OccursOne(op: Op, s: nat)
    ensures Occurs([op], s) == if Symbol(op) == s then 1 else 0
  {
    assert [op][..0] == [];
  }

  lemma {:induction false} OccursPlain(v: nat, n: nat, s: nat)
    ensures Occurs(Plain(v, n), s) == if s == v then n else 0
  {
    if n != 0 {
      OccursPlain(v, n - 1, s);
      PlainLength(v, n - 1);
      OccursAppend(Plain(v, n - 1), [Len(v)], s);
      OccursOne(Len(v), s);
    }
  }

  lemma {:induction false} PlainLength(v: nat, n: nat)
    ensures |Plain(v, n)| == n
  {
    if n != 0 { PlainLength(v, n - 1); }
  }

  // freq counts the symbols of ops on top of freq0.
  ghost predicate Counted(freq: seq<nat>, freq0: seq<nat>, ops: seq<Op>)
  {
    |freq| == |freq0| && forall s | 0 <= s < |freq| :: freq[s] == freq0[s] + Occurs(ops, s)
  }

  // scan_tree's counters after one chunk.
  function Bumped(freq: seq<nat>, v: nat, prev: int, count: nat): seq<nat>
    requires |freq| > REPZ_11_138 && v <= 15
  {
    if count < MinCount(v, prev) then freq[v := freq[v] + count]
    else if v != 0 then
      var f := if v != prev then freq[v := freq[v] + 1] else freq;
      f[REP_3_6 := f[REP_3_6] + 1]
    else if count <= 10 then freq[REPZ_3_10 := freq[REPZ_3_10] + 1]
    else freq[REPZ_11_138 := freq[REPZ_11_138] + 1]
  }

  lemma {:induction false} OccursChunk(v: nat, prev: int, count: nat, s: nat)
    requires count > 0 && v <= 15
    ensures var c := Chunk(v, prev, count);
            Occurs(c, s) == if count < MinCount(v, prev) then (if s == v then count else 0)
                            else if v != 0 then (if s == REP_3_6 then 1 else if s == v && v != prev then 1 else 0)
                            else if count <= 10 then (if s == REPZ_3_10 then 1 else 0)
                            else (if s == REPZ_11_138 then 1 else 0)
  {
    var c := Chunk(v, prev, count);
    if count < MinCount(v, prev) {
      OccursPlain(v, count, s);
    } else if v != 0 && v != prev {
      assert c == [Len(v), Repeat(count - 1)] && c[..1] == [Len(v)];
      OccursOne(Len(v), s);
    } else {
      OccursOne(c[0], s);
    }
  }

  lemma {:induction false} BumpCounted(freq: seq<nat>, freq0: seq<nat>, ops: seq<Op>, v: nat, prev: int, count: nat)
    requires |freq| > REPZ_11_138 && v <= 15 && count > 0 && Counted(freq, freq0, ops)
    ensures Counted(Bumped(freq, v, prev, count), freq0, ops + Chunk(v, prev, count))
  {
    var f := Bumped(freq, v, prev, count);
    forall s | 0 <= s < |f| ensures f[s] == freq0[s] + Occurs(ops + Chunk(v, prev, count), s) {
      OccursAppend(ops, Chunk(v, prev, count), s);
      OccursChunk(v, prev, count, s);
    }
  }

  method BumpCounts(blFreq: array<nat>, v: nat, prev: int, count: nat)
    requires blFreq.Length > REPZ_11_138 && v <= 15 && count > 0
    modifies blFreq
    ensures blFreq[..] == Bumped(old(blFreq[..]), v, prev, count)
  {
    if count < MinCount(v, prev) {
      blFreq[v] := blFreq[v] + count;
    } else if v != 0 {
      if v != prev {
        blFreq[v] := blFreq[v] + 1;
      }
      blFreq[REP_3_6] := blFreq[REP_3_6] + 1;
    } else if count <= 10 {
      blFreq[REPZ_3_10] := blFreq[REPZ_3_10] + 1;
    } else {
      blFreq[REPZ_11_138] := blFreq[REPZ_11_138] + 1;
    }
  }

  // scan_tree: count the symbols that send_tree will send, and set the guard.
  method ScanTree(dl: array<nat>, maxCode: nat, blFreq: array<nat>)
    requires maxCode + 1 < dl.Length && dl != blFreq && blFreq.Length > REPZ_11_138
    requires forall k | 0 <= k <= maxCode :: dl[k] <= 15
    modifies dl, blFreq
    ensures dl[..maxCode + 1] == old(dl[..maxCode + 1]) && dl[maxCode + 1] == GUARD
    ensures Counted(blFreq[..], old(blFreq[..]), Runs(old(dl[..maxCode + 1]), 0, -1))
  {
    hide Scanning, Counted, Runs, Bumped;
    ghost var lens: seq<nat>, freq0: seq<nat>, done: seq<Op> := dl[..maxCode + 1], blFreq[..], [];
    var prev: int, count: nat, next: nat := -1, 0, dl[0];
    var maxCount, minCount := 7, 4;
    if next == 0 {
      maxCount, minCount := 138, 3;
    }
    dl[maxCode + 1] := GUARD;
    assert dl[..maxCode + 1] == lens;
    ScanStart(lens);
    CountedNone(freq0);
    for n := 0 to maxCode + 1
      invariant dl[..maxCode + 1] == lens && dl[maxCode + 1] == GUARD
      invariant Scanning(lens, n, count, prev, next, done) && Counted(blFreq[..], freq0, done)
      invariant next == dl[n]
      invariant maxCount == MaxCount(next, prev) && minCount == MinCount(next, prev)
    {
      ScanStep(lens, n, count, prev, next, done);
      var cur := next;
      next := dl[n + 1];
      assert cur == lens[n] && next == if n + 1 < |lens| then lens[n + 1] else GUARD;
      count := count + 1;
      if !(count < maxCount && cur == next) {
        BumpCounted(blFreq[..], freq0, done, cur, prev, count);
        BumpCounts(blFreq, cur, prev, count);
        done := done + Chunk(cur, prev, count);
        count := 0;
        prev := cur;
        maxCount, minCount := 7, 4;
        if next == 0 {
          maxCount, minCount := 138, 3;
        } else if cur == next {
          maxCount, minCount := 6, 3;
        }
      }
    }
    ScanDone(lens, count, prev, next, done);
  }

  lemma {:induction false} CountedNone(freq: seq<nat>)
    ensures Counted(freq, freq, [])
  {
  }

  // ---- sending ----

  // A Huffman code ready to be sent: lens are the code lengths, fc and dl the tree slots.
  ghost predicate Coding(fc: seq<nat>, dl: seq<nat>, lens: seq<nat>)
  {
    && |lens| <= |fc| && |lens| <= |dl| && dl[..|lens|] == lens
    && CodesSet(fc, lens, |lens|) && forall s | 0 <= s < |lens| :: lens[s] <= 15
  }

  // SEND_CODE
  method SendCode(w: Writer, fc: seq<nat>, dl: seq<nat>, c: nat, ghost lens: seq<nat>)
    requires w.Valid() && Coding(fc, dl, lens) && c < |lens| && lens[c] > 0
    modifies w, w.outbuf
    ensures w.Valid() && w.Sent() == old(w.Sent()) + Codeword(lens, c)
  {
    hide Codeword, BitsOf, Pow2, Packed;
    assert dl[c] == dl[..|lens|][c];
    assert fc[c] < Pow2(lens[c]) && BitsOf(fc[c], lens[c]) == Codeword(lens, c);
    w.SendBits(fc[c], dl[c]);
  }

  // One symbol of the code length code, with extra bits if it is a repetition.
  method SendOp(w: Writer, fc: seq<nat>, dl: seq<nat>, op: Op, ghost bl: seq<nat>)
    requires w.Valid() && Coding(fc, dl, bl) && OpFits(op) && Symbol(op) < |bl| && bl[Symbol(op)] > 0
    modifies w, w.outbuf
    ensures w.Valid() && w.Sent() == old(w.Sent()) + OpBits(bl, op)
  {
    hide Codeword, BitsOf, Packed;
    ghost var s0 := w.Sent();
    SendCode(w, fc, dl, Symbol(op), bl);
    Powers();
    hide Pow2;
    match op {
      case Len(l) =>
      case Repeat(n) => w.SendBits(n - 3, 2);
      case Zeros(n) => w.SendBits(n - 3, 3);
      case ManyZeros(n) => w.SendBits(n - 11, 7);
    }
    assert s0 + OpBits(bl, op) == s0 + Codeword(bl, Symbol(op)) + Extra(op);
  }

  // do SEND_CODE(v) while (--count)
  method SendPlain(w: Writer, fc: seq<nat>, dl: seq<nat>, v: nat, count: nat, ghost bl: seq<nat>)
    requires w.Valid() && Coding(fc, dl, bl) && v <= 15 && v < |bl| && bl[v] > 0
    modifies w, w.outbuf
    ensures w.Valid() && w.Sent() == old(w.Sent()) + OpsBits(bl, Plain(v, count))
  {
    hide OpBits, Packed, Coding, OpsBits, Plain;
    ghost var s0 := w.Sent();
    var k := 0;
    PlainNone(bl, v, s0);
    while k < count
      invariant k <= count && w.Valid()
      invariant w.Sent() == s0 + OpsBits(bl, Plain(v, k))
    {
      SendOp(w, fc, dl, Len(v), bl);
      PlainNext(bl, v, k, s0);
      k := k + 1;
    }
  }

  lemma {:induction false} PlainNone(bl: seq<nat>, v: nat, s: seq<bool>)
    ensures s + OpsBits(bl, Plain(v, 0)) == s
  {
  }

  lemma {:induction false} PlainNext(bl: seq<nat>, v: nat, k: nat, s: seq<bool>)
    ensures s + OpsBits(bl, Plain(v, k)) + OpBits(bl, Len(v)) == s + OpsBits(bl, Plain(v, k + 1))
  {
    hide OpBits, OpsBits;
    OpsBitsSnoc(bl, Plain(v, k), Len(v));
    var x, y := OpsBits(bl, Plain(v, k)), OpBits(bl, Len(v));
    assert (s + x) + y == s + (x + y);
  }

  method SendChunk(w: Writer, fc: seq<nat>, dl: seq<nat>, v: nat, prev: int, count: nat, ghost bl: seq<nat>)
    requires w.Valid() && Coding(fc, dl, bl) && 0 < count <= MaxCount(v, prev) && v <= 15
    requires OpsCoded(bl, Chunk(v, prev, count))
    modifies w, w.outbuf
    ensures w.Valid() && w.Sent() == old(w.Sent()) + OpsBits(bl, Chunk(v, prev, count))
  {
    hide OpBits, Packed, Coding, OpsBits;
    ghost var s0, ops := w.Sent(), Chunk(v, prev, count);
    if count < MinCount(v, prev) {
      PlainLast(v, count);
      SendPlain(w, fc, dl, v, count, bl);
    } else if v != 0 {
      if v != prev {
        assert ops == [Len(v), Repeat(count - 1)];
        assert ops[0] in ops && ops[1] in ops;
        SendOp(w, fc, dl, Len(v), bl);
        SendOp(w, fc, dl, Repeat(count - 1), bl);
        OpsBitsTwo(bl, Len(v), Repeat(count - 1), s0);
      } else {
        assert ops[0] in ops;
        SendOp(w, fc, dl, Repeat(count), bl);
        OpsBitsOne(bl, Repeat(count));
      }
    } else if count <= 10 {
      assert ops[0] in ops;
      SendOp(w, fc, dl, Zeros(count), bl);
      OpsBitsOne(bl, Zeros(count));
    } else {
      assert ops[0] in ops;
      SendOp(w, fc, dl, ManyZeros(count), bl);
      OpsBitsOne(bl, ManyZeros(count));
    }
  }

  lemma {:induction false} PlainLast(v: nat, n: nat)
    requires n > 0
    ensures Len(v) in Plain(v, n)
  {
  }

  lemma {:induction false} OpsBitsOne(bl: seq<nat>, op: Op)
    ensures OpsBits(bl, [op]) == OpBits(bl, op)
  {
    OpsBitsCons(bl, op, []);
    assert [op] + [] == [op] && OpBits(bl, op) + OpsBits(bl, []) == OpBits(bl, op);
  }

  lemma {:induction false} OpsBitsTwo(bl: seq<nat>, a: Op, b: Op, s0: seq<bool>)
    ensures s0 + OpsBits(bl, [a, b]) == s0 + OpBits(bl, a) + OpBits(bl, b)
  {
    OpsBitsSnoc(bl, [a], b);
    OpsBitsOne(bl, a);
    assert [a] + [b] == [a, b];
  }

  // send_tree
  method SendTree(w: Writer, dl: seq<nat>, maxCode: nat, blFc: seq<nat>, blDl: seq<nat>, ghost bl: seq<nat>)
    requires w.Valid() && Coding(blFc, blDl, bl)
    requires maxCode + 1 < |dl| && dl[maxCode + 1] == GUARD && forall k | 0 <= k <= maxCode :: dl[k] <= 15
    requires OpsCoded(bl, Runs(dl[..maxCode + 1], 0, -1))
    modifies w, w.outbuf
    ensures w.Valid() && w.Sent() == old(w.Sent()) + OpsBits(bl, Runs(dl[..maxCode + 1], 0, -1))
  {
    hide Scanning, Runs, OpBits, OpsBits, Coding, Packed, OpsCoded;
    ghost var lens: seq<nat>, s0, done: seq<Op> := dl[..maxCode + 1], w.Sent(), [];
    var prev: int, count: nat, next: nat := -1, 0, dl[0];
    var maxCount, minCount := 7, 4;
    if next == 0 {
      maxCount, minCount := 138, 3;
    }
    ScanStart(lens);
    NoOps(bl, s0);
    for n := 0 to maxCode + 1
      invariant w.Valid()
      invariant Scanning(lens, n, count, prev, next, done) && w.Sent() == s0 + OpsBits(bl, done)
      invariant next == dl[n] && count < maxCount
      invariant maxCount == MaxCount(next, prev) && minCount == MinCount(next, prev)
    {
      ScanStep(lens, n, count, prev, next, done);
      var cur := next;
      next := dl[n + 1];
      assert cur == lens[n] && next == if n + 1 < |lens| then lens[n + 1] else GUARD;
      count := count + 1;
      if !(count < maxCount && cur == next) {
        ScannedCoded(bl, lens, n + 1, cur, next, done, Chunk(cur, prev, count));
        SendChunk(w, blFc, blDl, cur, prev, count, bl);
        MoreOps(bl, s0, done, Chunk(cur, prev, count));
        done := done + Chunk(cur, prev, count);
        count := 0;
        prev := cur;
        if next == 0 {
          maxCount, minCount := 138, 3;
        } else if cur == next {
          maxCount, minCount := 6, 3;
        } else {
          maxCount, minCount := 7, 4;
        }
      }
    }
    ScanDone(lens, count, prev, next, done);
  }

  lemma {:induction false} NoOps(bl: seq<nat>, s0: seq<bool>)
    ensures s0 + OpsBits(bl, []) == s0
  {
  }

  lemma {:induction false} MoreOps(bl: seq<nat>, s0: seq<bool>, a: seq<Op>, b: seq<Op>)
    ensures (s0 + OpsBits(bl, a)) + OpsBits(bl, b) == s0 + OpsBits(bl, a + b)
  {
    OpsBitsAppend(bl, a, b);
  }

  lemma {:induction false} ScannedCoded(bl: seq<nat>, lens: seq<nat>, n: nat, prev: int, next: nat, done: seq<Op>, chunk: seq<Op>)
    requires Scanning(lens, n, 0, prev, next, done + chunk) && OpsCoded(bl, Runs(lens, 0, -1))
    ensures OpsCoded(bl, chunk)
  {
    assert forall op | op in chunk :: op in done + chunk && op in Runs(lens, 0, -1);
  }
}
