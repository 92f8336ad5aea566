// The compressor as a whole: deflate's blocks, encoded one after the other, inflate to the input.
module Gzip {
  import opened Lz77
  import opened BitStream
  import opened TokenCode
  import opened TokenSize
  import opened BlockFormat
  import opened Tally
  import opened CtInit
  import opened TreeBuilding
  import opened BlockTrees
  import opened FlushBlock
  import Rfc1951
  import RfcAgrees
  import BW = BitWriter
  import LZ = Deflate

  // ---- streams ----

  // Whatever follows in a stream of whole bytes, an inflater has got out by the end of sent.
  ghost predicate InflatesTo(sent: seq<bool>, out: seq<Byte>)
  {
    forall rest: seq<bool> :: (|sent| + |rest|) % 8 == 0 ==> Inflate(sent + rest, []) == Inflate(rest, out)
  }

  lemma {:induction false} NothingSent()
    ensures InflatesTo([], [])
  {
    forall rest: seq<bool> ensures Inflate([] + rest, []) == Inflate(rest, []) {
      assert [] + rest == rest;
    }
  }

  lemma {:induction false} InflateStep(bits: seq<bool>, at: nat, payload: Payload, rest: seq<bool>, out: seq<Byte>, out': seq<Byte>)
    requires Decodes(bits, at, false, payload) && (at + |bits| + |rest|) % 8 == 0 && Unpack(out, payload) == Some(out')
    ensures Inflate(bits + rest, out) == Inflate(rest, out')
  {
    hide ReadBlock;
    assert ReadBlock(bits + rest) == Some((false, payload, rest));
  }

  lemma {:induction false} OneMoreBlock(sent: seq<bool>, bits: seq<bool>, payload: Payload, out: seq<Byte>, out': seq<Byte>)
    requires InflatesTo(sent, out) && Decodes(bits, |sent|, false, payload) && Unpack(out, payload) == Some(out')
    ensures InflatesTo(sent + bits, out')
  {
    hide ReadBlock, Decodes, Unpack, Inflate;
    forall rest: seq<bool> | (|sent + bits| + |rest|) % 8 == 0 ensures Inflate((sent + bits) + rest, []) == Inflate(rest, out') {
      assert (sent + bits) + rest == sent + (bits + rest);
      InflateStep(bits, |sent|, payload, rest, out, out');
    }
  }

  lemma {:induction false} FinalBlock(sent: seq<bool>, bits: seq<bool>, pad: seq<bool>, payload: Payload, out: seq<Byte>, out': seq<Byte>)
    requires InflatesTo(sent, out) && Decodes(bits, |sent|, true, payload) && Unpack(out, payload) == Some(out')
    requires |pad| < 8 && |sent + bits + pad| % 8 == 0
    ensures Inflate(sent + bits + pad, []) == Some(out')
  {
    hide InflatesTo, Decodes, Inflate, Unpack;
    assert sent + bits + pad == sent + (bits + pad);
    InflatesOn(sent, bits + pad, out);
    LastStep(bits, |sent|, payload, pad, out, out');
  }

  lemma {:induction false} InflatesOn(sent: seq<bool>, rest: seq<bool>, out: seq<Byte>)
    requires InflatesTo(sent, out) && (|sent| + |rest|) % 8 == 0
    ensures Inflate(sent + rest, []) == Inflate(rest, out)
  {
    hide Inflate;
  }

  lemma {:induction false} LastStep(bits: seq<bool>, at: nat, payload: Payload, pad: seq<bool>, out: seq<Byte>, out': seq<Byte>)
    requires Decodes(bits, at, true, payload) && |pad| < 8 && (at + |bits| + |pad|) % 8 == 0 && Unpack(out, payload) == Some(out')
    ensures Inflate(bits + pad, out) == Some(out')
  {
    hide ReadBlock, Unpack;
    assert ReadBlock(bits + pad) == Some((true, payload, pad));
  }

  // ---- blocks ----

  function EndOf(blocks: seq<Block>): nat
  {
    if blocks == [] then 0 else EndOf(blocks[..|blocks| - 1]) + blocks[|blocks| - 1].len
  }

  lemma {:induction false} CoversEach(blocks: seq<Block>, src: seq<Byte>, end: nat, i: nat)
    requires Covers(blocks, src, end) && i <= |blocks|
    ensures end == EndOf(blocks)
    ensures i < |blocks| ==> BlockCovers(blocks[i], src, EndOf(blocks[..i]))
  {
    hide BlockCovers;
    if blocks != [] {
      var k := |blocks| - 1;
      CoversEach(blocks[..k], src, end - blocks[k].len, if i < k then i else k);
      if i < k { assert blocks[..k][..i] == blocks[..i]; }
    }
  }

  lemma {:induction false} CoversNext(blocks: seq<Block>, src: seq<Byte>, end: nat, i: nat)
    requires Covers(blocks, src, end) && i < |blocks|
    ensures BlockCovers(blocks[i], src, EndOf(blocks[..i]))
    ensures EndOf(blocks[..i + 1]) == EndOf(blocks[..i]) + blocks[i].len <= |src|
  {
    hide Covers, Replay;
    CoversEach(blocks, src, end, i);
    assert blocks[..i + 1][..i] == blocks[..i];
  }

  // What the tokens or the bytes of a block add to the bytes before it.
  lemma {:induction false} BlockUnpacks(b: Block, src: seq<Byte>, start: nat, payload: Payload)
    requires BlockCovers(b, src, start)
    requires payload == Compressed(b.tokens) || (b.stored.Some? && payload == Raw(b.stored.value))
    ensures Unpack(src[..start], payload) == Some(src[..start + b.len])
  {
    hide Replay;
    if payload.Raw? { assert src[..start] + src[start..start + b.len] == src[..start + b.len]; }
  }

  lemma {:induction false} ReplayLegal(out: seq<Byte>, ts: seq<Token>)
    requires Replay(out, ts).Some?
    ensures forall t | t in ts :: LegalToken(t)
  {
    ReplayLimits(out, ts);
  }

  // ---- the program ----

  // The calls of ct_tally for one block.
  method TallyAll(e: Encoder, tokens: seq<Token>)
    requires e.Open([]) && |tokens| < LIT_BUFSIZE && forall t | t in tokens :: LegalToken(t)
    modifies e.b, e.b.lBuf, e.b.dBuf, e.b.flagBuf, e.f.lt.fc, e.f.dt.fc
    ensures e.Open(tokens) && e.w.Sent() == old(e.w.Sent())
  {
    hide LFreqs, DFreqs, StaticL, StaticD, StaticsRight, LitsRecorded, DistsRecorded, FlagsRecorded, FlagByte, Group, LegalToken,
         LExtra, DExtra, Packed, BitsOf;
    TablesRight(e);
    assert tokens[..0] == [];
    for i := 0 to |tokens|
      invariant e.Open(tokens[..i]) && e.w.Sent() == old(e.w.Sent())
    {
      TallyOne(e, tokens[i], tokens[..i]);
      assert tokens[..i] + [tokens[i]] == tokens[..i + 1];
    }
    assert tokens[..|tokens|] == tokens;
  }

  method TallyOne(e: Encoder, t: Token, ghost ts: seq<Token>)
    requires e.Open(ts) && |ts| < LIT_BUFSIZE - 1 && LegalToken(t) && e.b.Tables()
    modifies e.b, e.b.lBuf, e.b.dBuf, e.b.flagBuf, e.f.lt.fc, e.f.dt.fc
    ensures e.Open(ts + [t]) && e.w.Sent() == old(e.w.Sent())
  {
    hide LFreqs, DFreqs, StaticL, StaticD, StaticsRight, LitsRecorded, DistsRecorded, FlagsRecorded, FlagByte, Group,
         LExtra, DExtra, Packed, BitsOf, LengthCode, DistCode;
    ghost var t';
    match t {
      case Literal(c) => t' := e.b.CtTally(0, c, ts);
      case Match(dist, len) => t' := e.b.CtTally(dist, len - MIN_MATCH, ts);
    }
    assert t' == t;
  }

  lemma {:induction false} TablesRight(e: Encoder)
    requires e.Wired()
    ensures e.b.Tables()
  {
    hide StaticL, StaticD, LengthCode, DistCode, LExtra, DExtra;
  }

  // One block through ct_tally and flush_block.
  method EncodeBlock(e: Encoder, blk: Block, ghost src: seq<Byte>, ghost start: nat) returns (size: nat)
    requires e.Open([]) && e.w.Valid() && BlockCovers(blk, src, start) && InflatesTo(e.w.Sent(), src[..start])
    modifies e, e.w, e.w.outbuf, e.b, e.b.lBuf, e.b.dBuf, e.b.flagBuf, e.f.g, e.f.g.heap, e.f.g.depth, e.f.g.blCount
    modifies e.f.lt, e.f.lt.fc, e.f.lt.dl, e.f.dt, e.f.dt.fc, e.f.dt.dl, e.f.bt, e.f.bt.fc, e.f.bt.dl
    ensures !blk.eof ==> e.Open([]) && InflatesTo(e.w.Sent(), src[..start + blk.len])
    ensures blk.eof ==> e.w.Valid() && Inflate(Packed(e.w.Bytes()), []) == Some(src[..start + blk.len]) && size == |e.w.Bytes()|
  {
    hide e.Open, InflatesTo, Replay, Decodes, Inflate, Packed, LegalToken, BitsOf;
    ReplayLegal(src[..start], blk.tokens);
    ghost var s0 := e.w.Sent();
    TallyAll(e, blk.tokens);
    ghost var bits, payload;
    size, bits, payload := e.Flush(blk.stored, blk.len, blk.eof, blk.tokens);
    BlockUnpacks(blk, src, start, payload);
    if blk.eof {
      ghost var pad: nat :| pad < 8 && e.w.Sent() == s0 + bits + BW.Zeros(pad);
      PackedLength(e.w.Bytes());
      FinalBlock(s0, bits, BW.Zeros(pad), payload, src[..start], src[..start + blk.len]);
    } else {
      OneMoreBlock(s0, bits, payload, src[..start], src[..start + blk.len]);
    }
  }

  // All blocks in turn.
  method EncodeBlocks(e: Encoder, blocks: seq<Block>, ghost src: seq<Byte>, ghost end: nat) returns (size: nat)
    requires e.Open([]) && e.w.Valid() && e.w.Sent() == [] && end <= |src| && Covers(blocks, src, end)
    requires |blocks| > 0 && forall i | 0 <= i < |blocks| :: blocks[i].eof == (i == |blocks| - 1)
    modifies e, e.w, e.w.outbuf, e.b, e.b.lBuf, e.b.dBuf, e.b.flagBuf, e.f.g, e.f.g.heap, e.f.g.depth, e.f.g.blCount
    modifies e.f.lt, e.f.lt.fc, e.f.lt.dl, e.f.dt, e.f.dt.fc, e.f.dt.dl, e.f.bt, e.f.bt.fc, e.f.bt.dl
    ensures e.w.Valid() && Inflate(Packed(e.w.Bytes()), []) == Some(src[..end]) && size == |e.w.Bytes()|
  {
    hide e.Open, InflatesTo, Replay, Decodes, Inflate, Packed, Covers, BitsOf, BlockCovers;
    NothingSent();
    assert blocks[..0] == [] && src[..0] == [] && EndOf([]) == 0;
    hide EndOf;
    size := 0;
    CoversEach(blocks, src, end, 0);
    assert blocks[..|blocks|] == blocks;
    for i := 0 to |blocks|
      invariant e.w.Valid() && EndOf(blocks[..i]) <= |src|
      invariant i < |blocks| ==> e.Open([]) && InflatesTo(e.w.Sent(), src[..EndOf(blocks[..i])])
      invariant i == |blocks| ==> Inflate(Packed(e.w.Bytes()), []) == Some(src[..EndOf(blocks[..i])]) && size == |e.w.Bytes()|
    {
      CoversNext(blocks, src, end, i);
      size := EncodeBlock(e, blocks[i], src, EndOf(blocks[..i]));
      OpenWriter(e);
    }
  }

  lemma OpenWriter(e: Encoder)
    ensures e.Open([]) ==> e.w.Valid()
  {
    hide LFreqs, DFreqs, StaticL, StaticD, StaticsRight, LitsRecorded, DistsRecorded, FlagsRecorded, LExtra, DExtra, Packed;
  }

  // zip, between header and trailer: for every input and every way the reads split it, the bytes put out inflate
  // to exactly the bytes read, and flush_block's last result is their number.
  method Zip(input: seq<Byte>) returns (out: seq<Byte>, taken: nat, failed: bool, size: nat)
    ensures taken <= |input| && (failed || taken == |input|)
    ensures Inflate(Packed(out), []) == Rfc1951.InflateBytes(out) == Some(input[..taken])
    ensures size == |out|
  {
    hide Rfc1951.InflateBytes, InflatesTo, Replay, Decodes, Inflate, Packed, Covers, BlockCovers, LFreqs, DFreqs, StaticL, StaticD, StaticsRight,
         LitsRecorded, DistsRecorded, FlagsRecorded, LExtra, DExtra, BlExtra, BitsOf;
    var blocks;
    blocks, taken, failed := LZ.Compress(input);
    var e := new Encoder();
    e.InitBlock();
    size := EncodeBlocks(e, blocks, input, taken);
    out := e.w.file + e.w.outbuf[..e.w.outcnt];
    RfcAgrees.InflateAgrees(out);
  }
}
