// flush_block of gzip.c: the trees, the choice of the block's kind, the bits, and compressed_len.
module FlushBlock {
  import opened Bits
  import opened BitStream
  import opened Canonical
  import opened CodeLengths
  import opened TokenCode
  import opened DeflateTables
  import opened TokenSize
  import opened Lz77
  import opened TreeSender
  import opened BlockFormat
  import opened BlockTrees
  import opened Tally
  import opened BlockCode
  import opened CtInit
  import opened TreeBuilding
  import opened SendBlock
  import BW = BitWriter

  class Encoder {
    const w: BW.Writer
    const b: Buffers
    const f: Forest
    const st: Statics
    var compressedLen: nat

    ghost predicate Wired()
    {
      && f.Shape() && b.Shape() && b.lFreq == f.lt.fc && b.dFreq == f.dt.fc
      && StaticsRight(st) && b.lengthCode == st.lengthCode && b.distCode == st.distCode
    }

    // The output buffer and the token buffers are not arrays of the trees.
    ghost predicate Apart()
    {
      && w.outbuf as object != b.lBuf && w.outbuf as object != b.dBuf && w.outbuf as object != b.flagBuf && Outside(w.outbuf)
      && Outside(b.lBuf) && Outside(b.dBuf) && Outside(b.flagBuf)
    }

    ghost predicate Outside(a: object)
    {
      && a != f.lt.fc && a != f.lt.dl && a != f.dt.fc && a != f.dt.dl && a != f.bt.fc && a != f.bt.dl
      && a != f.g.heap && a != f.g.depth && a != f.g.blCount
    }

    // The state between two calls of ct_tally, with the tokens ts recorded: all bits sent are accounted for.
    ghost predicate Open(ts: seq<Token>)
      reads this, w, w.outbuf, b, b.lBuf, b.dBuf, b.flagBuf, f.lt.fc, f.dt.fc, f.bt.fc, f.g
    {
      && Wired() && Apart() && w.Valid() && compressedLen == |w.Sent()|
      && b.Holds(ts) && f.lt.fc[..L_CODES] == LFreqs(ts) && f.dt.fc[..D_CODES] == DFreqs(ts) && f.NoOpsYet()
    }

    // ct_init, up to its call of init_block.
    constructor ()
      ensures Wired() && Apart() && w.Valid() && w.Sent() == [] && compressedLen == 0
      ensures fresh(w) && fresh(w.outbuf) && fresh(b) && fresh(b.lBuf) && fresh(b.dBuf) && fresh(b.flagBuf)
      ensures fresh(f) && fresh(f.g) && fresh(f.lt) && fresh(f.dt) && fresh(f.bt)
      ensures fresh(f.g.heap) && fresh(f.g.depth) && fresh(f.g.blCount)
      ensures fresh(f.lt.fc) && fresh(f.lt.dl) && fresh(f.dt.fc) && fresh(f.dt.dl) && fresh(f.bt.fc) && fresh(f.bt.dl)
    {
      hide Packed, LExtra, DExtra, BlExtra, StaticL, StaticD, StaticsRight, BitsOf, Pow2;
      var st' := BuildStatics();
      var f' := new Forest();
      StaticsSizes(st');
      var b' := new Buffers(f'.lt.fc, f'.dt.fc, st'.lengthCode, st'.distCode);
      w := new BW.Writer();
      st, f, b, compressedLen := st', f', b', 0;
    }

    // init_block
    method InitBlock()
      requires Wired() && Apart()
      modifies f.lt.fc, f.dt.fc, f.bt.fc, f.g`optLen, f.g`staticLen, b`lastLit, b`lastDist, b`lastFlags, b`flags, b`flagBit
      ensures b.Holds([]) && f.lt.fc[..L_CODES] == LFreqs([]) && f.dt.fc[..D_CODES] == DFreqs([]) && f.NoOpsYet()
    {
      hide LExtra, DExtra, BlExtra, StaticL, StaticD, StaticsRight, LFreqs, DFreqs, Pow2;
      f.Reset();
      b.lastLit, b.lastDist, b.lastFlags := 0, 0, 0;
      b.flags := 0;
      b.flagBit := 1;
      NoTokens(b.lBuf[..], b.dBuf[..], b.flagBuf[..]);
    }

    // Save the flags of the last tokens, and build the trees.
    method CloseBlock(ghost ts: seq<Token>) returns (maxBlIndex: nat)
      requires Open(ts)
      modifies b.flagBuf, f.g, f.g.heap, f.g.depth, f.g.blCount
      modifies f.lt, f.lt.fc, f.lt.dl, f.dt, f.dt.fc, f.dt.dl, f.bt, f.bt.fc, f.bt.dl
      ensures f.Ready(ts, maxBlIndex) && b.Holds(ts) && AllFlags(b.flagBuf[..], ts) && w.Valid() && w.Sent() == old(w.Sent())
    {
      hide StaticL, StaticD, StaticsRight, LFreqs, DFreqs, Pow2, Packed, LitsRecorded, DistsRecorded, FlagsRecorded, FlagByte,
           Group, AllFlags, Built, Coding, LExtra, DExtra, BlExtra;
      LastFlags(b.flagBuf[..], ts);
      ghost var fb: seq<nat> := b.flagBuf[..];
      b.flagBuf[b.lastFlags] := b.flags;
      assert b.flagBuf[..] == fb[|ts| / 8 := FlagByte(Group(ts, |ts| / 8))];
      maxBlIndex := f.BuildTrees(ts);
    }

    // Send the block in the kind that takes the fewest bytes, and account for its bits.
    method SendChosen(buf: Option<seq<Byte>>, storedLen: nat, eof: bool, maxBlIndex: nat, ghost ts: seq<Token>)
      returns (ghost bits: seq<bool>, ghost payload: Payload)
      requires Wired() && Apart() && w.Valid() && compressedLen == |w.Sent()|
      requires f.Ready(ts, maxBlIndex) && b.Holds(ts) && AllFlags(b.flagBuf[..], ts)
      requires buf.Some? ==> |buf.value| == storedLen <= 0xffff
      modifies w, w.outbuf, this`compressedLen
      ensures w.Valid() && w.Sent() == old(w.Sent()) + bits && Decodes(bits, old(|w.Sent()|), eof, payload)
      ensures compressedLen == |w.Sent()|
      ensures payload == Compressed(ts) || (buf.Some? && payload == Raw(buf.value))
      ensures payload.Compressed? ==> (|bits| + 7) / 8 <= (f.g.staticLen + 10) / 8 && (|bits| + 7) / 8 <= (f.g.optLen + 10) / 8
      ensures payload.Raw? <==>
                buf.Some? && storedLen + 4 <= (f.g.staticLen + 10) / 8 && storedLen + 4 <= (f.g.optLen + 10) / 8
    {
      hide StaticL, StaticD, Pow2, Packed, LitsRecorded, DistsRecorded, FlagsRecorded, FlagByte, Group, AllFlags, Coding,
           LExtra, DExtra, BlExtra, Decodes, TreesReady, CodesFit, AllCoded, TreesBits, DataSize, BaseTables, LengthCode, DistCode, Fits, BitsOf;
      var optLenb := (f.g.optLen + 3 + 7) / 8;
      var staticLenb := (f.g.staticLen + 3 + 7) / 8;
      if staticLenb <= optLenb {
        optLenb := staticLenb;
      }
      if storedLen + 4 <= optLenb && buf.Some? {
        compressedLen := (compressedLen + 3 + 7) / 8 * 8;
        compressedLen := compressedLen + (storedLen + 4) * 8;
        bits := SendStored(w, buf.value, eof);
        payload := Raw(buf.value);
      } else if staticLenb == optLenb {
        bits := SendStatic(w, b, st.sl, st.sd, st.baseLength, st.baseDist, eof, ts);
        compressedLen := compressedLen + 3 + f.g.staticLen;
        payload := Compressed(ts);
      } else {
        bits := SendOwn(eof, maxBlIndex, ts);
        compressedLen := compressedLen + 3 + f.g.optLen;
        payload := Compressed(ts);
      }
    }

    // send_all_trees and compress_block with the dynamic trees.
    method SendOwn(eof: bool, maxBlIndex: nat, ghost ts: seq<Token>) returns (ghost bits: seq<bool>)
      requires Wired() && Apart() && w.Valid() && f.Ready(ts, maxBlIndex) && b.Holds(ts) && AllFlags(b.flagBuf[..], ts)
      modifies w, w.outbuf
      ensures w.Valid() && w.Sent() == old(w.Sent()) + bits && Decodes(bits, old(|w.Sent()|), eof, Compressed(ts))
      ensures |bits| == 3 + f.g.optLen
    {
      hide StaticL, StaticD, Pow2, Packed, LitsRecorded, DistsRecorded, FlagsRecorded, FlagByte, Group, AllFlags, Coding,
           LExtra, DExtra, BlExtra, Decodes, TreesReady, CodesFit, AllCoded, TreesBits, DataSize, BaseTables, LengthCode, DistCode, Fits, BitsOf;
      bits := SendDynamic(w, b, Code(f.lt.fc[..], f.lt.dl[..]), Code(f.dt.fc[..], f.dt.dl[..]), f.bt.fc[..], f.bt.dl[..],
                          f.lt.maxCode + 1, f.dt.maxCode + 1, maxBlIndex + 1, st.baseLength, st.baseDist, eof,
                          ts, f.lt.dl[..f.lt.maxCode + 1], f.dt.dl[..f.dt.maxCode + 1], f.bt.dl[..BL_CODES]);
    }

    // The end of the last block: fill up the last byte.
    method Close()
      requires w.Valid() && compressedLen == |w.Sent()|
      modifies w, w.outbuf, this`compressedLen
      ensures w.Valid() && w.Sent() == Packed(w.Bytes()) && compressedLen / 8 == |w.Bytes()|
      ensures exists pad: nat :: pad < 8 && w.Sent() == old(w.Sent()) + BW.Zeros(pad)
    {
      hide Packed, BitsOf, Pow2;
      w.WindUp();
      PackedLength(w.Bytes());
      compressedLen := compressedLen + 7;
    }

    // Build the trees and send the block.
    method PutBlock(buf: Option<seq<Byte>>, storedLen: nat, eof: bool, ghost ts: seq<Token>)
      returns (ghost bits: seq<bool>, ghost payload: Payload)
      requires Open(ts) && (buf.Some? ==> |buf.value| == storedLen <= 0xffff)
      modifies this, w, w.outbuf, b.flagBuf, f.g, f.g.heap, f.g.depth, f.g.blCount
      modifies f.lt, f.lt.fc, f.lt.dl, f.dt, f.dt.fc, f.dt.dl, f.bt, f.bt.fc, f.bt.dl
      ensures w.Valid() && compressedLen == |w.Sent()| && w.Sent() == old(w.Sent()) + bits
      ensures Decodes(bits, old(|w.Sent()|), eof, payload)
      ensures payload == Compressed(ts) || (buf.Some? && payload == Raw(buf.value))
    {
      hide StaticL, StaticD, StaticsRight, LFreqs, DFreqs, Pow2, Packed, LitsRecorded, DistsRecorded, FlagsRecorded, FlagByte,
           Group, AllFlags, Built, Coding, LExtra, DExtra, BlExtra, Decodes, BitsOf;
      var maxBlIndex := CloseBlock(ts);
      bits, payload := SendChosen(buf, storedLen, eof, maxBlIndex, ts);
    }

    // flush_block: the block's bits decode to the block, opt_len and static_len have foretold their number, and so
    // compressed_len is the number of bits sent. The result is the number of bytes put out at the end.
    method Flush(buf: Option<seq<Byte>>, storedLen: nat, eof: bool, ghost ts: seq<Token>)
      returns (size: nat, ghost bits: seq<bool>, ghost payload: Payload)
      requires Open(ts) && (buf.Some? ==> |buf.value| == storedLen <= 0xffff)
      modifies this, w, w.outbuf, b, b.flagBuf, f.g, f.g.heap, f.g.depth, f.g.blCount
      modifies f.lt, f.lt.fc, f.lt.dl, f.dt, f.dt.fc, f.dt.dl, f.bt, f.bt.fc, f.bt.dl
      ensures Decodes(bits, old(|w.Sent()|), eof, payload)
      ensures payload == Compressed(ts) || (buf.Some? && payload == Raw(buf.value))
      ensures !eof ==> Open([]) && w.Sent() == old(w.Sent()) + bits
      ensures eof ==> w.Valid() && w.Sent() == Packed(w.Bytes()) && size == |w.Bytes()|
                      && exists pad: nat :: pad < 8 && w.Sent() == old(w.Sent()) + bits + BW.Zeros(pad)
    {
      hide StaticL, StaticD, StaticsRight, LFreqs, DFreqs, Pow2, Packed, LitsRecorded, DistsRecorded, FlagsRecorded, FlagByte,
           Group, AllFlags, Built, Coding, LExtra, DExtra, BlExtra, Decodes, BitsOf;
      bits, payload := PutBlock(buf, storedLen, eof, ts);
      InitBlock();
      if eof {
        Close();
      }
      size := compressedLen / 8;
    }
  }

  lemma {:induction false} NoTokens(lBuf: seq<nat>, dBuf: seq<nat>, flagBuf: seq<nat>)
    ensures LitsRecorded(lBuf, []) && DistsRecorded(dBuf, 0, []) && FlagsRecorded(flagBuf, [])
    ensures FlagByte(Group([], 0)) == 0 && Pow2(0) == 1
  {
  }

  // With the flags that are not yet a full byte, all flags are stored.
  lemma {:induction false} LastFlags(flagBuf: seq<nat>, ts: seq<Token>)
    requires FlagsRecorded(flagBuf, ts) && |ts| / 8 < |flagBuf|
    ensures var fb := flagBuf[|ts| / 8 := FlagByte(Group(ts, |ts| / 8))]; AllFlags(fb, ts) && FlagsRecorded(fb, ts)
  {
    hide FlagByte, Group;
  }

  lemma {:induction false} StaticsSizes(st: Statics)
    requires StaticsRight(st)
    ensures |st.lengthCode| == 256 && |st.distCode| == 512
  {
  }
}
