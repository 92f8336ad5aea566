// What the trees of a block guarantee for the bits sent with them, and how many bits those are.
module BlockTrees {
  import opened Bits
  import opened BitStream
  import opened Canonical
  import opened CodeLengths
  import opened DeflateTables
  import opened TokenCode
  import opened TokenSize
  import opened Lz77
  import opened BitLengths
  import opened Huffman
  import opened TreeSender
  import opened BlockFormat
  import GC = GenCodes

  lemma {:induction false} ForcedKeeps(freq: seq<nat>, s: nat)
    requires |freq| >= 3 && s < |freq| && freq[s] > 0
    ensures Forced(freq)[s] > 0
  {
    hide Used;
  }

  // A finished tree, cut off after its last code: it fits, and codes every symbol that occurs.
  ghost predicate Finished(freq: seq<nat>, full: seq<nat>, lens: seq<nat>)
  {
    && |full| == |freq| && 1 <= |lens| <= |freq| && Fits(lens, 15) && Extends(full, lens)
    && forall s | 0 <= s < |freq| && freq[s] > 0 :: HasCode(lens, s)
  }

  lemma {:induction false} TreeFinished(freq: seq<nat>, full: seq<nat>, codes: seq<nat>, maxCode: int, max: nat)
    requires |freq| >= 3 && GoodCode(Forced(freq), full, codes, maxCode, max)
    ensures Finished(freq, full, full[..maxCode + 1])
  {
    hide Forced, Pow2, Kraft;
    var lens := full[..maxCode + 1];
    KraftBeyond(lens, max, 15);
    forall s | 0 <= s < |freq| && freq[s] > 0 ensures HasCode(lens, s) {
      ForcedKeeps(freq, s);
    }
  }

  lemma {:induction false} TreeCoding(freq: seq<nat>, full: seq<nat>, codes: seq<nat>, maxCode: int, max: nat, dl: seq<nat>)
    requires GoodCode(freq, full, codes, maxCode, max) && |full| <= |dl|
    requires dl[..maxCode + 1] == full[..maxCode + 1]
    ensures Coding(codes, dl, full[..maxCode + 1])
  {
    hide Pow2, Kraft, Codeword;
  }

  // The same tree with all its symbols.
  lemma {:induction false} CodewordTrim(lens: seq<nat>, k: nat, s: nat)
    requires s < k <= |lens| && lens[s] > 0 && forall n | k <= n < |lens| :: lens[n] == 0
    ensures Codeword(lens[..k], s) == Codeword(lens, s)
  {
    hide MsbBits;
    KraftTrim(lens, k, lens[s] - 1);
    assert lens[..k][..s] == lens[..s];
  }

  lemma {:induction false} FullCoding(freq: seq<nat>, full: seq<nat>, codes: seq<nat>, maxCode: int, max: nat, dl: seq<nat>)
    requires GoodCode(freq, full, codes, maxCode, max) && |full| <= |dl| && dl[..|full|] == full
    ensures Coding(codes, dl, full)
  {
    hide Pow2, Kraft, Codeword, BitsOf;
    var t := full[..maxCode + 1];
    forall s | 0 <= s < |full| && full[s] > 0
      ensures codes[s] < Pow2(full[s]) && BitsOf(codes[s], full[s]) == Codeword(full, s) {
      CodewordTrim(full, maxCode + 1, s);
      assert t[s] == full[s];
    }
  }

  lemma {:induction false} FullFits(freq: seq<nat>, full: seq<nat>, codes: seq<nat>, maxCode: int, max: nat)
    requires GoodCode(freq, full, codes, maxCode, max)
    ensures Fits(full, 15) && forall s | 0 <= s < |full| :: full[s] <= max
  {
    hide Pow2, Kraft, Codeword, BitsOf;
    var t := full[..maxCode + 1];
    KraftBeyond(t, max, 15);
    KraftTrim(full, maxCode + 1, 15);
  }

  // ---- the symbols of the tree header ----

  function BlExtraOf(s: nat): nat
  {
    if s == REP_3_6 then 2 else if s == REPZ_3_10 then 3 else if s == REPZ_11_138 then 7 else 0
  }

  function BlExtra(): (x: seq<nat>)
    ensures |x| == BL_CODES && forall s | 0 <= s < BL_CODES :: x[s] == BlExtraOf(s)
  {
    seq(BL_CODES, s requires s >= 0 => BlExtraOf(s))
  }

  function OpFreqs(ops: seq<Op>): (f: seq<nat>)
    ensures |f| == BL_CODES && forall s | 0 <= s < BL_CODES :: f[s] == Occurs(ops, s)
  {
    seq(BL_CODES, s requires s >= 0 => Occurs(ops, s))
  }

  lemma {:induction false} OpSize(bl: seq<nat>, op: Op)
    requires |bl| == BL_CODES && OpFits(op)
    ensures |OpBits(bl, op)| == bl[Symbol(op)] + BlExtra()[Symbol(op)]
  {
    hide Codeword, BitsOf;
    if bl[Symbol(op)] > 0 { assert |Codeword(bl, Symbol(op))| == bl[Symbol(op)] by { CodewordSize(bl, Symbol(op)); } }
  }

  lemma {:induction false} CodewordSize(lens: seq<nat>, s: nat)
    requires s < |lens| && lens[s] > 0
    ensures |Codeword(lens, s)| == lens[s]
  {
  }

  lemma {:induction false} OpsSize(bl: seq<nat>, ops: seq<Op>)
    requires |bl| == BL_CODES && forall op | op in ops :: OpFits(op)
    ensures |OpsBits(bl, ops)| == Cost(OpFreqs(ops), bl, BlExtra(), BL_CODES)
  {
    hide OpBits, OpFits, BlExtra, Symbol;
    if ops == [] {
      CostZero(OpFreqs([]), bl, BlExtra(), BL_CODES);
    } else {
      var us, op := ops[..|ops| - 1], ops[|ops| - 1];
      assert op in ops && forall o | o in us :: o in ops;
      OpsSize(bl, us);
      OpSize(bl, op);
      SymbolInRange(op);
      CostBump(OpFreqs(us), Symbol(op), bl, BlExtra(), BL_CODES);
      assert OpFreqs(ops) == Bump(OpFreqs(us), Symbol(op));
    }
  }

  lemma {:induction false} SymbolInRange(op: Op)
    requires OpFits(op)
    ensures Symbol(op) < BL_CODES
  {
  }

  lemma {:induction false} SymbolOccurs(ops: seq<Op>, op: Op)
    requires op in ops
    ensures Occurs(ops, Symbol(op)) > 0
  {
    var us, z := ops[..|ops| - 1], ops[|ops| - 1];
    assert ops == us + [z];
    if op in us { SymbolOccurs(us, op); }
  }

  // The frequencies after scanning both trees.
  lemma {:induction false} BothScanned(f0: seq<nat>, f1: seq<nat>, f2: seq<nat>, a: seq<Op>, c: seq<Op>)
    requires |f0| >= BL_CODES && (forall s | 0 <= s < BL_CODES :: f0[s] == 0) && Counted(f1, f0, a) && Counted(f2, f1, c)
    ensures f2[..BL_CODES] == OpFreqs(a + c)
  {
    forall s | 0 <= s < BL_CODES ensures f2[s] == OpFreqs(a + c)[s] {
      OccursAppend(a, c, s);
    }
  }

  lemma {:induction false} AllOpsCoded(ops: seq<Op>, bl: seq<nat>)
    requires |bl| == BL_CODES && (forall op | op in ops :: OpFits(op))
    requires forall s | 0 <= s < BL_CODES && OpFreqs(ops)[s] > 0 :: bl[s] > 0
    ensures OpsCoded(bl, ops)
  {
    hide OpFits, Symbol, Occurs;
    forall op | op in ops ensures Symbol(op) < |bl| && bl[Symbol(op)] > 0 {
      SymbolInRange(op);
      SymbolOccurs(ops, op);
    }
  }

  // ---- the data ----

  // Both trees code every token of the block.
  lemma {:induction false} TokensAllCoded(ts: seq<Token>, ll: seq<nat>, dd: seq<nat>)
    requires forall t | t in ts :: LegalToken(t)
    requires forall s | 0 <= s < L_CODES && LFreqs(ts)[s] > 0 :: HasCode(ll, s)
    requires forall s | 0 <= s < D_CODES && DFreqs(ts)[s] > 0 :: HasCode(dd, s)
    ensures AllCoded(ll, dd, ts) && HasCode(ll, END_BLOCK)
  {
    hide LFreqs, DFreqs, HasCode, LengthCode, DistCode;
    EndCounted(ts);
    forall t | t in ts ensures Coded(ll, dd, t) { TokensCounted(ts, t); }
  }

  lemma {:induction false} StaticCodesAll(ts: seq<Token>)
    requires forall t | t in ts :: LegalToken(t)
    ensures AllCoded(StaticL(), StaticD(), ts) && HasCode(StaticL(), END_BLOCK)
  {
    hide LFreqs, DFreqs, StaticD;
    StaticFit();
    assert |StaticL()| == 288;
    hide StaticL;
    TokensAllCoded(ts, StaticL(), StaticD());
  }

  // Bits of the tokens and the end-of-block symbol.
  ghost function DataSize(ll: seq<nat>, dd: seq<nat>, ts: seq<Token>): nat
    requires (forall t | t in ts :: LegalToken(t)) && HasCode(ll, END_BLOCK)
  {
    |TokensBits(ll, dd, ts)| + |Codeword(ll, END_BLOCK)|
  }

  lemma {:induction false} DataCost(fl: seq<nat>, fd: seq<nat>, ll: seq<nat>, dd: seq<nat>, ts: seq<Token>)
    requires (forall t | t in ts :: LegalToken(t)) && |fl| == L_CODES && |fd| == D_CODES && Extends(fl, ll) && Extends(fd, dd)
    requires HasCode(ll, END_BLOCK)
    ensures DataSize(ll, dd, ts) == Cost(LFreqs(ts), fl, LExtra(), L_CODES) + Cost(DFreqs(ts), fd, DExtra(), D_CODES)
  {
    hide TokensBits, Codeword, Cost, LFreqs, DFreqs, LExtra, DExtra;
    TokensSize(fl, fd, ll, dd, ts);
    CodewordSize(ll, END_BLOCK);
  }

  lemma {:induction false} StaticExtends()
    ensures Extends(StaticL()[..L_CODES], StaticL()) && Extends(StaticD(), StaticD())
  {
    hide StaticL, StaticD;
  }

  // The size of the tree header.
  lemma {:induction false} BlLensSize(bl: seq<nat>, rank: nat, n: nat)
    requires rank <= n <= BL_CODES == |bl|
    ensures |BlLensBits(bl, rank, n)| == 3 * (n - rank)
    decreases n - rank
  {
    hide BlOrder;
    if rank < n { BlLensSize(bl, rank + 1, n); }
  }

  lemma {:induction false} TreesSize(bl: seq<nat>, blCodes: nat, ll: seq<nat>, dd: seq<nat>)
    requires TreesReady(bl, blCodes, ll, dd)
    ensures |TreesBits(bl, blCodes, ll, dd)|
            == 14 + 3 * blCodes + Cost(OpFreqs(Runs(ll, 0, -1) + Runs(dd, 0, -1)), bl, BlExtra(), BL_CODES)
  {
    hide BlLensBits, OpsBits, Runs, BitsOf, Fits, OpFreqs, Cost, BlExtra, BlOrder;
    BlLensSize(bl, 0, blCodes);
    OpsBitsAppend(bl, Runs(ll, 0, -1), Runs(dd, 0, -1));
    OpsSize(bl, Runs(ll, 0, -1) + Runs(dd, 0, -1));
  }

  // A tree with a code sends at least one length other than 0, so at least four code length codes are sent.
  lemma {:induction false} SomeLength(lens: seq<nat>, i: nat, prev: int, k: nat) returns (v: nat)
    requires i <= k < |lens| && lens[k] > 0 && prev <= 0
    ensures v > 0 && Len(v) in Runs(lens, i, prev)
    decreases |lens| - i
  {
    hide Chunk, Runs, Run, MaxCount, Copies, Follows;
    v := lens[i];
    var c := Run(lens, i, v, MaxCount(v, prev));
    RunAll(lens, i, v, MaxCount(v, prev));
    RunsStep(lens, i, prev, []);
    if v == 0 {
      v := SomeLength(lens, i + c, 0, k);
    } else {
      FirstOfChunk(v, prev, c);
    }
  }

  lemma {:induction false} FirstOfChunk(v: nat, prev: int, count: nat)
    requires v != 0 && v != prev && count > 0
    ensures Len(v) in Chunk(v, prev, count)
  {
    if count < MinCount(v, prev) {
      PlainLast(v, count);
    } else {
      assert Chunk(v, prev, count)[0] == Len(v);
    }
  }

  // What build_bl_tree leaves behind makes the header readable.
  lemma {:induction false} HeaderReady(ll: seq<nat>, dd: seq<nat>, bl: seq<nat>, codes: seq<nat>, maxCode: int, blCodes: nat)
    requires 257 <= |ll| <= 286 && 1 <= |dd| <= D_CODES && Fits(ll, 15) && Fits(dd, 15)
    requires GoodCode(Forced(OpFreqs(Runs(ll, 0, -1) + Runs(dd, 0, -1))), bl, codes, maxCode, 7)
    requires 4 <= blCodes <= BL_CODES && |bl| == BL_CODES && forall r | blCodes <= r < BL_CODES :: bl[BlOrder(r)] == 0
    ensures TreesReady(bl, blCodes, ll, dd)
  {
    hide Runs, OpsBits, Forced, BlOrder, OpFreqs, GC.CodesSet;
    var a, c := Runs(ll, 0, -1), Runs(dd, 0, -1);
    var f := OpFreqs(a + c);
    RunsFit(ll, 0, -1);
    RunsFit(dd, 0, -1);
    assert |f| == BL_CODES;
    FullFits(Forced(f), bl, codes, maxCode, 7);
    forall s | 0 <= s < BL_CODES && f[s] > 0 ensures bl[s] > 0 { ForcedKeeps(f, s); }
    AllOpsCoded(a + c, bl);
    OpsCodedParts(bl, a, c);
  }

  lemma {:induction false} OpsCodedParts(bl: seq<nat>, a: seq<Op>, c: seq<Op>)
    requires OpsCoded(bl, a + c)
    ensures OpsCoded(bl, a) && OpsCoded(bl, c)
  {
    assert forall op | op in a :: op in a + c;
    assert forall op | op in c :: op in a + c;
  }
}
