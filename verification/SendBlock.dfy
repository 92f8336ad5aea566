// The second half of flush_block of gzip.c: a block sent as stored, static or dynamic.
module SendBlock {
  import opened Bits
  import opened BitStream
  import opened Canonical
  import opened CodeLengths
  import opened DeflateTables
  import opened TokenCode
  import opened Lz77
  import opened TreeSender
  import opened BlockFormat
  import opened BlockTrees
  import opened Tally
  import opened BlockCode
  import BW = BitWriter

  // The code lengths of the code length code, in bl_order.
  method SendBlLens(w: BW.Writer, blDl: seq<nat>, blCodes: nat, ghost bl: seq<nat>)
    requires w.Valid() && |bl| == BL_CODES <= |blDl| && blDl[..BL_CODES] == bl && blCodes <= BL_CODES
    requires forall s | 0 <= s < BL_CODES :: bl[s] < 8
    modifies w, w.outbuf
    ensures w.Valid() && w.Sent() == old(w.Sent()) + BlLensBits(bl, 0, blCodes)
  {
    hide BitsOf, Packed, BlOrder, BlLensBits;
    ghost var s0 := w.Sent();
    NoLensYet(bl, s0);
    Powers();
    for rank := 0 to blCodes
      invariant w.Valid() && w.Sent() == s0 + BlLensBits(bl, 0, rank)
    {
      assert blDl[BlOrder(rank)] == bl[BlOrder(rank)];
      BlLensSnoc(bl, 0, rank);
      w.SendBits(blDl[BlOrder(rank)], 3);
      ghost var x, y := BlLensBits(bl, 0, rank), BitsOf(bl[BlOrder(rank)], 3);
      assert (s0 + x) + y == s0 + (x + y);
    }
  }

  lemma {:induction false} NoLensYet(bl: seq<nat>, s0: seq<bool>)
    requires |bl| == BL_CODES
    ensures s0 + BlLensBits(bl, 0, 0) == s0
  {
  }

  // The counts of codes and the code length code.
  method SendCounts(w: BW.Writer, blDl: seq<nat>, lcodes: nat, dcodes: nat, blcodes: nat, ghost bl: seq<nat>)
    requires w.Valid() && 257 <= lcodes <= L_CODES && 1 <= dcodes <= D_CODES && 4 <= blcodes <= BL_CODES
    requires |bl| == BL_CODES <= |blDl| && blDl[..BL_CODES] == bl && forall s | 0 <= s < BL_CODES :: bl[s] < 8
    modifies w, w.outbuf
    ensures w.Valid()
    ensures w.Sent() == old(w.Sent()) + (BitsOf(lcodes - 257, 5) + BitsOf(dcodes - 1, 5) + BitsOf(blcodes - 4, 4) + BlLensBits(bl, 0, blcodes))
  {
    hide BitsOf, Packed, BlLensBits;
    Powers();
    hide Pow2;
    ghost var s0 := w.Sent();
    w.SendBits(lcodes - 257, 5);
    w.SendBits(dcodes - 1, 5);
    w.SendBits(blcodes - 4, 4);
    SendBlLens(w, blDl, blcodes, bl);
    Joined(s0, BitsOf(lcodes - 257, 5), BitsOf(dcodes - 1, 5), BitsOf(blcodes - 4, 4), BlLensBits(bl, 0, blcodes));
  }

  // send_all_trees
  method SendAllTrees(w: BW.Writer, lDl: seq<nat>, dDl: seq<nat>, blFc: seq<nat>, blDl: seq<nat>,
                      lcodes: nat, dcodes: nat, blcodes: nat, ghost bl: seq<nat>)
    requires w.Valid() && lcodes < |lDl| && dcodes < |dDl| && lDl[lcodes] == GUARD && dDl[dcodes] == GUARD
    requires TreesReady(bl, blcodes, lDl[..lcodes], dDl[..dcodes]) && Fits(lDl[..lcodes], 15) && Fits(dDl[..dcodes], 15)
    requires |blDl| >= BL_CODES && blDl[..BL_CODES] == bl && Coding(blFc, blDl, bl)
    modifies w, w.outbuf
    ensures w.Valid() && w.Sent() == old(w.Sent()) + TreesBits(bl, blcodes, lDl[..lcodes], dDl[..dcodes])
  {
    hide BitsOf, Packed, BlOrder, BlLensBits, Runs, OpsBits, OpsCoded, Coding, Kraft, Pow2;
    ghost var s0, ll: seq<nat>, dd: seq<nat> := w.Sent(), lDl[..lcodes], dDl[..dcodes];
    assert (forall k | 0 <= k < |ll| :: ll[k] <= 15) && (forall k | 0 <= k < |dd| :: dd[k] <= 15);
    SendCounts(w, blDl, lcodes, dcodes, blcodes, bl);
    SendTree(w, lDl, lcodes - 1, blFc, blDl, bl);
    SendTree(w, dDl, dcodes - 1, blFc, blDl, bl);
    ghost var x := BitsOf(lcodes - 257, 5) + BitsOf(dcodes - 1, 5) + BitsOf(blcodes - 4, 4) + BlLensBits(bl, 0, blcodes);
    Joined(s0, x, OpsBits(bl, Runs(ll, 0, -1)), OpsBits(bl, Runs(dd, 0, -1)), []);
  }

  lemma {:induction false} Joined(s0: seq<bool>, a: seq<bool>, b: seq<bool>, c: seq<bool>, d: seq<bool>)
    ensures s0 + a + b + c + d == s0 + (a + b + c + d) && a + b + c + [] == a + b + c && s0 + a + b + c + [] == s0 + a + b + c
  {
  }

  // while (len--) put_8bit(*buf++);
  method PutBytes(w: BW.Writer, buf: seq<Byte>)
    requires w.Valid()
    modifies w`file, w`outcnt, w.outbuf
    ensures w.Valid() && Packed(w.Bytes()) == old(Packed(w.Bytes())) + Packed(buf)
  {
    hide BitsOf, Packed, Pow2;
    ghost var q := Packed(w.Bytes());
    var i := 0;
    assert buf[..0] == [];
    NothingPacked(q);
    while i < |buf|
      invariant i <= |buf| && w.Valid() && Packed(w.Bytes()) == q + Packed(buf[..i])
    {
      PackedSnoc(w.Bytes(), buf[i]);
      PackedSnoc(buf[..i], buf[i]);
      assert buf[..i] + [buf[i]] == buf[..i + 1];
      w.Put8(buf[i]);
      i := i + 1;
    }
    assert buf[..i] == buf;
  }

  // copy_block with its header.
  method CopyBlock(w: BW.Writer, buf: seq<Byte>) returns (ghost pad: nat)
    requires w.Valid() && |buf| <= 0xffff
    modifies w, w.outbuf
    ensures w.Valid() && pad < 8 && (old(|w.Sent()|) + pad) % 8 == 0
    ensures w.Sent() == old(w.Sent()) + BW.Zeros(pad) + StoredBits(buf)
  {
    hide BitsOf, Packed, Pow2;
    ghost var s0 := w.Sent();
    w.WindUp();
    pad :| pad < 8 && w.Sent() == s0 + BW.Zeros(pad);
    PackedLength(w.Bytes());
    var len := |buf|;
    ghost var p := w.Sent();
    w.Put16(len);
    w.Put16(0xffff - len);
    PutBytes(w, buf);
    EmptyBuf(w);
    Joined(p, BitsOf(len, 16), BitsOf(0xffff - len, 16), Packed(buf), []);
  }

  lemma {:induction false} NothingPacked(q: seq<bool>)
    ensures q + Packed([]) == q
  {
  }

  lemma EmptyBuf(w: BW.Writer)
    requires w.Valid() && w.biValid == 0
    ensures w.Sent() == Packed(w.Bytes())
  {
  }

  method SendStored(w: BW.Writer, buf: seq<Byte>, eof: bool) returns (ghost bits: seq<bool>)
    requires w.Valid() && |buf| <= 0xffff
    modifies w, w.outbuf
    ensures w.Valid() && w.Sent() == old(w.Sent()) + bits && Decodes(bits, old(|w.Sent()|), eof, Raw(buf))
    ensures |w.Sent()| == (old(|w.Sent()|) + 3 + 7) / 8 * 8 + (|buf| + 4) * 8
  {
    hide BitsOf, Packed, Decodes, StoredBits, Header, Pow2;
    ghost var s0 := w.Sent();
    HeaderFits(STORED_BLOCK, eof);
    w.SendBits(Header(STORED_BLOCK, eof), 3);
    ghost var pad := CopyBlock(w, buf);
    ghost var h, z, x := BitsOf(Header(STORED_BLOCK, eof), 3), BW.Zeros(pad), StoredBits(buf);
    bits := h + z + x;
    assert |x| == 8 * (|buf| + 4) by { StoredLength(buf); }
    assert s0 + h + z + x == s0 + bits;
    PaddedSize(|s0|, pad);
    StoredDecodes(bits, |s0|, eof, z, buf);
  }

  lemma {:induction false} PaddedSize(n: nat, pad: nat)
    requires pad < 8 && (n + 3 + pad) % 8 == 0
    ensures n + 3 + pad == (n + 3 + 7) / 8 * 8
  {
  }

  lemma {:induction false} HeaderFits(kind: nat, eof: bool)
    requires kind <= 2
    ensures Header(kind, eof) < Pow2(3)
  {
    Powers();
  }

  // A block coded with the static trees.
  method SendStatic(w: BW.Writer, b: Buffers, sl: Code, sd: Code, baseLength: seq<nat>, baseDist: seq<nat>,
                    eof: bool, ghost ts: seq<Token>) returns (ghost bits: seq<bool>)
    requires w.Valid() && sl.Is(StaticL()) && sd.Is(StaticD()) && BaseTables(baseLength, baseDist)
    requires b.Shape() && b.Tables() && b.Holds(ts) && AllFlags(b.flagBuf[..], ts)
    requires w.outbuf as object !in {b.lBuf, b.dBuf, b.flagBuf}
    modifies w, w.outbuf
    ensures w.Valid() && w.Sent() == old(w.Sent()) + bits && Decodes(bits, old(|w.Sent()|), eof, Compressed(ts))
    ensures HasCode(StaticL(), END_BLOCK) && |bits| == 3 + DataSize(StaticL(), StaticD(), ts)
  {
    hide BitsOf, Packed, Decodes, StaticL, StaticD, TokensBits, Codeword, Coding, BaseTables, AllFlags, Coded, LitsRecorded,
         DistsRecorded, FlagsRecorded, FlagByte, Group, LengthCode, DistCode;
    ghost var s0 := w.Sent();
    HeaderFits(STATIC_TREES, eof);
    StaticCodesAll(ts);
    w.SendBits(Header(STATIC_TREES, eof), 3);
    CompressBlock(w, b, sl, sd, baseLength, baseDist, ts, StaticL(), StaticD());
    ghost var h, x, e := BitsOf(Header(STATIC_TREES, eof), 3), TokensBits(StaticL(), StaticD(), ts), Codeword(StaticL(), END_BLOCK);
    bits := h + x + e;
    assert s0 + h + x + e == s0 + bits;
    StaticDecodes(bits, |s0|, eof, ts);
  }

  lemma {:induction false} TreesReadySizes(bl: seq<nat>, blCodes: nat, ll: seq<nat>, dd: seq<nat>)
    requires TreesReady(bl, blCodes, ll, dd)
    ensures |bl| == BL_CODES && 4 <= blCodes <= BL_CODES && |ll| >= 257 && |dd| >= 1
  {
    hide Runs, OpsCoded, BlOrder, Fits;
  }

  // A block with trees of its own.
  method SendDynamic(w: BW.Writer, b: Buffers, lc: Code, dc: Code, blFc: seq<nat>, blDl: seq<nat>, lcodes: nat, dcodes: nat,
                     blcodes: nat, baseLength: seq<nat>, baseDist: seq<nat>, eof: bool,
                     ghost ts: seq<Token>, ghost ll: seq<nat>, ghost dd: seq<nat>, ghost bl: seq<nat>)
    returns (ghost bits: seq<bool>)
    requires w.Valid() && BaseTables(baseLength, baseDist)
    requires lcodes < |lc.dl| && lc.dl[lcodes] == GUARD && lc.dl[..lcodes] == ll && lc.Is(ll)
    requires dcodes < |dc.dl| && dc.dl[dcodes] == GUARD && dc.dl[..dcodes] == dd && dc.Is(dd)
    requires |blDl| >= BL_CODES && blDl[..BL_CODES] == bl && Coding(blFc, blDl, bl)
    requires TreesReady(bl, blcodes, ll, dd) && CodesFit(ll, dd) && AllCoded(ll, dd, ts)
    requires b.Shape() && b.Tables() && b.Holds(ts) && AllFlags(b.flagBuf[..], ts)
    requires w.outbuf as object !in {b.lBuf, b.dBuf, b.flagBuf}
    modifies w, w.outbuf
    ensures w.Valid() && w.Sent() == old(w.Sent()) + bits && Decodes(bits, old(|w.Sent()|), eof, Compressed(ts))
    ensures |bits| == 3 + |TreesBits(bl, blcodes, ll, dd)| + DataSize(ll, dd, ts)
  {
    hide BitsOf, Packed, Decodes, TokensBits, Codeword, Coding, BaseTables, AllFlags, Coded, LitsRecorded, DistsRecorded,
         FlagsRecorded, FlagByte, Group, LengthCode, DistCode, TreesBits, TreesReady, Fits;
    ghost var s0 := w.Sent();
    TreesReadySizes(bl, blcodes, ll, dd);
    HeaderFits(DYN_TREES, eof);
    w.SendBits(Header(DYN_TREES, eof), 3);
    SendAllTrees(w, lc.dl, dc.dl, blFc, blDl, lcodes, dcodes, blcodes, bl);
    CompressBlock(w, b, lc, dc, baseLength, baseDist, ts, ll, dd);
    ghost var h, y, x, e := BitsOf(Header(DYN_TREES, eof), 3), TreesBits(bl, blcodes, ll, dd), TokensBits(ll, dd, ts), Codeword(ll, END_BLOCK);
    bits := h + y + x + e;
    Joined(s0, h, y, x, e);
    DynamicDecodes(bits, |s0|, eof, ts, bl, blcodes, ll, dd);
  }
}
