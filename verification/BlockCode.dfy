// compress_block of gzip.c: the recorded tokens, sent with given literal and distance codes.
module BlockCode {
  import opened Bits
  import opened BitStream
  import opened Canonical
  import opened DeflateTables
  import opened TokenCode
  import opened Lz77
  import opened BitWriter
  import opened Tally
  import opened TreeSender

  // A Huffman code as compress_block uses it: Code and Len of each symbol.
  datatype Code = Code(fc: seq<nat>, dl: seq<nat>) {
    ghost predicate Is(lens: seq<nat>)
    {
      Coding(fc, dl, lens)
    }
  }

  // base_length and base_dist agree with the codes.
  ghost predicate BaseTables(baseLength: seq<nat>, baseDist: seq<nat>)
  {
    && |baseLength| == LENGTH_CODES && |baseDist| == D_CODES
    && (forall c | 0 <= c < 28 :: baseLength[c] == LBase(c) - 3)
    && (forall c | 0 <= c < D_CODES :: baseDist[c] == DBase(c) - 1)
  }

  // The length code of lc and its extra bits.
  method SendLength(w: Writer, lt: Code, lc: nat, code: nat, baseLength: seq<nat>, ghost baseDist: seq<nat>, ghost ll: seq<nat>)
    requires w.Valid() && lt.Is(ll) && BaseTables(baseLength, baseDist)
    requires lc < 256 && code == LengthCode(lc) && HasCode(ll, code + LITERALS + 1)
    modifies w, w.outbuf
    ensures w.Valid() && w.Sent() == old(w.Sent()) + LengthBits(ll, lc)
  {
    hide Codeword, BitsOf, Packed, LBase, Pow2, LengthCode, Coding, LengthTables, IsLengthCode;
    LengthField(lc);
    ExtraMeans(lc);
    ghost var s0, x := w.Sent(), BitsOf(lc + 3 - LBase(code), ExtraLBits(code));
    SendCode(w, lt.fc, lt.dl, code + LITERALS + 1, ll);
    var extra := ExtraLBits(code);
    if extra != 0 {
      w.SendBits(lc - baseLength[code], extra);
    } else {
      assert x == [];
    }
    assert s0 + LengthBits(ll, lc) == s0 + Codeword(ll, code + LITERALS + 1) + x;
  }

  lemma {:induction false} ExtraMeans(lc: nat)
    requires lc < 256
    ensures ExtraLBits(LengthCode(lc)) != 0 ==> LengthCode(lc) < 28 && LBase(LengthCode(lc)) >= 3
    ensures ExtraLBits(LengthCode(lc)) <= 5
  {
  }

  method SendDist(w: Writer, dt: Code, d: nat, code: nat, ghost baseLength: seq<nat>, baseDist: seq<nat>, ghost dd: seq<nat>)
    requires w.Valid() && dt.Is(dd) && BaseTables(baseLength, baseDist)
    requires d < 32768 && code == DistCode(d) && HasCode(dd, code)
    modifies w, w.outbuf
    ensures w.Valid() && w.Sent() == old(w.Sent()) + DistBits(dd, d)
  {
    hide Codeword, BitsOf, Packed, DBase, Pow2, DistCode, Coding, IsDistCode;
    DistField(d);
    DistExtraMeans(d);
    ghost var s0, x := w.Sent(), BitsOf(d + 1 - DBase(code), ExtraDBits(code));
    SendCode(w, dt.fc, dt.dl, code, dd);
    var extra := ExtraDBits(code);
    if extra != 0 {
      w.SendBits(d - baseDist[code], extra);
    } else {
      assert x == [];
    }
    assert s0 + DistBits(dd, d) == s0 + Codeword(dd, code) + x;
  }

  lemma {:induction false} DistExtraMeans(d: nat)
    requires d < 32768
    ensures ExtraDBits(DistCode(d)) <= 13 && DBase(DistCode(d)) >= 1
  {
  }

  // The place of a match's distance in d_buf.
  lemma {:induction false} DistAt(ts: seq<Token>, i: nat)
    requires i < |ts| && ts[i].Match? && ts[i].dist >= 1
    ensures |Dists(ts[..i])| < |Dists(ts)| && Dists(ts)[|Dists(ts[..i])|] == ts[i].dist - 1
  {
    var k := |ts| - 1;
    if i < k {
      DistAt(ts[..k], i);
      assert ts[..k][..i] == ts[..i];
    }
  }

  // The flags still to be used when token i is next.
  function FlagsLeft(ts: seq<Token>, i: nat): seq<Token>
    requires i <= |ts|
  {
    ts[i..GroupEnd(i, |ts|)]
  }

  function GroupEnd(i: nat, n: nat): (e: nat)
    requires i <= n
    ensures i <= e <= n
  {
    if 8 * (i / 8) + 8 <= n then 8 * (i / 8) + 8 else n
  }

  lemma {:induction false} GroupStart(ts: seq<Token>, i: nat)
    requires i < |ts| && i % 8 == 0
    ensures FlagsLeft(ts, i) == Group(ts, i / 8)
  {
    assert 8 * (i / 8) == i;
  }

  // The last, partial byte of flags is stored, too.
  ghost predicate AllFlags(flagBuf: seq<nat>, ts: seq<Token>)
  {
    |ts| <= 8 * |flagBuf| && forall k | 0 <= k < |flagBuf| && 8 * k < |ts| :: flagBuf[k] == FlagByte(Group(ts, k))
  }

  // Reading one flag.
  lemma {:induction false} FlagStep(ts: seq<Token>, i: nat, flag: nat)
    requires i < |ts| && flag == FlagByte(FlagsLeft(ts, i))
    ensures (flag % 2 == 1) == ts[i].Match?
    ensures (i + 1) % 8 != 0 ==> flag / 2 == FlagByte(FlagsLeft(ts, i + 1))
  {
    hide FlagByte;
    FlagsTail(ts, i);
    FlagFirst(FlagsLeft(ts, i));
  }

  lemma {:induction false} FlagFirst(g: seq<Token>)
    requires g != []
    ensures (FlagByte(g) % 2 == 1) == g[0].Match? && FlagByte(g) / 2 == FlagByte(g[1..])
  {
  }

  lemma {:induction false} FlagsTail(ts: seq<Token>, i: nat)
    requires i < |ts|
    ensures var g := FlagsLeft(ts, i);
            g != [] && g[0] == ts[i] && ((i + 1) % 8 != 0 ==> g[1..] == FlagsLeft(ts, i + 1))
  {
    if (i + 1) % 8 != 0 {
      assert (i + 1) / 8 == i / 8;
    }
  }

  // One token of the loop.
  method SendToken(w: Writer, b: Buffers, lt: Code, dt: Code, baseLength: seq<nat>, baseDist: seq<nat>,
                   isMatch: bool, lc: nat, dist: nat, ghost t: Token, ghost ll: seq<nat>, ghost dd: seq<nat>)
    requires w.Valid() && lt.Is(ll) && dt.Is(dd) && BaseTables(baseLength, baseDist)
    requires b.Shape() && b.Tables() && LegalToken(t) && Coded(ll, dd, t)
    requires isMatch == t.Match? && lc == LByte(t) && (isMatch ==> dist == t.dist - 1)
    modifies w, w.outbuf
    ensures w.Valid() && w.Sent() == old(w.Sent()) + TokenBits(ll, dd, t)
  {
    hide Codeword, Packed, Coding, BaseTables, LengthBits, DistBits, LengthCode, DistCode;
    if !isMatch {
      SendCode(w, lt.fc, lt.dl, lc, ll);
    } else {
      SendMatch(w, b, lt, dt, baseLength, baseDist, lc, dist, ll, dd);
    }
  }

  // The two codes of a match.
  method SendMatch(w: Writer, b: Buffers, lt: Code, dt: Code, baseLength: seq<nat>, baseDist: seq<nat>,
                   lc: nat, dist: nat, ghost ll: seq<nat>, ghost dd: seq<nat>)
    requires w.Valid() && lt.Is(ll) && dt.Is(dd) && BaseTables(baseLength, baseDist) && b.Shape() && b.Tables()
    requires lc < 256 && dist < 32768 && HasCode(ll, LengthCode(lc) + LITERALS + 1) && HasCode(dd, DistCode(dist))
    modifies w, w.outbuf
    ensures w.Valid() && w.Sent() == old(w.Sent()) + (LengthBits(ll, lc) + DistBits(dd, dist))
  {
    hide Packed, Coding, BaseTables, LengthBits, DistBits, LengthCode, DistCode, HasCode;
    ghost var s0 := w.Sent();
    var code := b.lengthCode[lc];
    var dcode := if dist < 256 then b.distCode[dist] else b.distCode[256 + dist / 128];
    assert dcode == DCode(b.distCode, dist);
    SendLength(w, lt, lc, code, baseLength, baseDist, ll);
    SendDist(w, dt, dist, dcode, baseLength, baseDist, dd);
    assert s0 + LengthBits(ll, lc) + DistBits(dd, dist) == s0 + (LengthBits(ll, lc) + DistBits(dd, dist));
  }

  // The indices into the buffers and the current flags, when token lx is next.
  ghost predicate AtToken(ts: seq<Token>, lx: nat, dx: nat, fx: nat, flag: nat)
  {
    && lx <= |ts| && dx == |Dists(ts[..lx])| && fx == (lx + 7) / 8
    && (lx % 8 != 0 ==> flag == FlagByte(FlagsLeft(ts, lx)))
  }

  // Read token lx from the buffers.
  method FetchToken(b: Buffers, lx: nat, dx0: nat, fx0: nat, flag0: nat, ghost ts: seq<Token>)
    returns (isMatch: bool, lc: nat, dist: nat, dx: nat, fx: nat, flag: nat)
    requires b.Shape() && b.Holds(ts) && AllFlags(b.flagBuf[..], ts)
    requires lx < |ts| && AtToken(ts, lx, dx0, fx0, flag0)
    ensures isMatch == ts[lx].Match? && lc == LByte(ts[lx]) && (isMatch ==> dist == ts[lx].dist - 1)
    ensures AtToken(ts, lx + 1, dx, fx, flag)
  {
    hide FlagByte, FlagsLeft, Dists, FlagsRecorded, AllFlags;
    NextToken(b.lBuf[..], b.dBuf[..], b.lastDist, b.flagBuf[..], ts, lx);
    dx, fx, flag, dist := dx0, fx0, flag0, 0;
    if lx % 8 == 0 {
      flag := b.flagBuf[fx];
      fx := fx + 1;
    }
    FlagStep(ts, lx, flag);
    lc := b.lBuf[lx];
    isMatch := flag % 2 == 1;
    if isMatch {
      dist := b.dBuf[dx];
      dx := dx + 1;
    }
    flag := flag / 2;
  }

  // compress_block
  method CompressBlock(w: Writer, b: Buffers, lt: Code, dt: Code, baseLength: seq<nat>, baseDist: seq<nat>,
                       ghost ts: seq<Token>, ghost ll: seq<nat>, ghost dd: seq<nat>)
    requires w.Valid() && lt.Is(ll) && dt.Is(dd) && BaseTables(baseLength, baseDist)
    requires b.Shape() && b.Tables() && b.Holds(ts) && AllFlags(b.flagBuf[..], ts)
    requires AllCoded(ll, dd, ts) && HasCode(ll, END_BLOCK)
    requires w.outbuf as object !in {b.lBuf, b.dBuf, b.flagBuf}
    modifies w, w.outbuf
    ensures w.Valid() && w.Sent() == old(w.Sent()) + TokensBits(ll, dd, ts) + Codeword(ll, END_BLOCK)
  {
    hide Codeword, Packed, Coding, BaseTables, TokenBits, TokensBits, AtToken, Coded, AllFlags, LitsRecorded,
         DistsRecorded, FlagsRecorded, FlagByte, Group;
    ghost var s0 := w.Sent();
    var lx: nat, dx: nat, fx: nat, flag: nat := 0, 0, 0, 0;
    StartTokens(ll, dd, ts, s0);
    while lx < b.lastLit
      invariant w.Valid() && lx <= |ts| && b.Holds(ts) && AllFlags(b.flagBuf[..], ts)
      invariant AtToken(ts, lx, dx, fx, flag)
      invariant w.Sent() == s0 + TokensBits(ll, dd, ts[..lx])
    {
      var isMatch, lc, dist;
      isMatch, lc, dist, dx, fx, flag := FetchToken(b, lx, dx, fx, flag, ts);
      assert ts[lx] in ts;
      SendToken(w, b, lt, dt, baseLength, baseDist, isMatch, lc, dist, ts[lx], ll, dd);
      MoreTokens(ll, dd, ts, lx, s0);
      lx := lx + 1;
    }
    assert ts[..lx] == ts;
    SendCode(w, lt.fc, lt.dl, END_BLOCK, ll);
  }

  lemma {:induction false} StartTokens(ll: seq<nat>, dd: seq<nat>, ts: seq<Token>, s0: seq<bool>)
    ensures ts[..0] == [] && TokensBits(ll, dd, []) == [] && s0 + [] == s0 && AtToken(ts, 0, 0, 0, 0)
  {
  }

  lemma {:induction false} MoreTokens(ll: seq<nat>, dd: seq<nat>, ts: seq<Token>, i: nat, s0: seq<bool>)
    requires i < |ts| && forall t | t in ts :: LegalToken(t)
    ensures LegalToken(ts[i]) && (forall t | t in ts[..i] :: LegalToken(t)) && (forall t | t in ts[..i + 1] :: LegalToken(t))
    ensures (s0 + TokensBits(ll, dd, ts[..i])) + TokenBits(ll, dd, ts[i]) == s0 + TokensBits(ll, dd, ts[..i + 1])
  {
    assert ts[i] in ts && forall t | t in ts[..i + 1] :: t in ts;
    assert ts[..i + 1] == ts[..i] + [ts[i]];
    TokensBitsSnoc(ll, dd, ts[..i], ts[i]);
  }

  // What the buffers hold for token i.
  lemma {:induction false} NextToken(lBuf: seq<nat>, dBuf: seq<nat>, lastDist: nat, flagBuf: seq<nat>, ts: seq<Token>, i: nat)
    requires i < |ts| && LitsRecorded(lBuf, ts) && DistsRecorded(dBuf, lastDist, ts) && AllFlags(flagBuf, ts)
    requires forall t | t in ts :: LegalToken(t)
    ensures lBuf[i] == LByte(ts[i]) && ts[i] in ts
    ensures i % 8 == 0 ==> (i + 7) / 8 < |flagBuf| && flagBuf[(i + 7) / 8] == FlagByte(FlagsLeft(ts, i))
    ensures ts[i].Match? ==> |Dists(ts[..i])| < |dBuf| && dBuf[|Dists(ts[..i])|] == ts[i].dist - 1
    ensures |Dists(ts[..i + 1])| == |Dists(ts[..i])| + if ts[i].Match? then 1 else 0
  {
    hide FlagByte, Dists, FlagsLeft, AllFlags;
    assert ts[i] in ts;
    if i % 8 == 0 { NextFlag(flagBuf, ts, i); }
    if ts[i].Match? {
      DistAt(ts, i);
      assert dBuf[..lastDist][|Dists(ts[..i])|] == dBuf[|Dists(ts[..i])|];
    }
    assert ts[..i + 1] == ts[..i] + [ts[i]];
    DistsSnoc(ts[..i], ts[i]);
  }

  lemma {:induction false} NextFlag(flagBuf: seq<nat>, ts: seq<Token>, i: nat)
    requires i < |ts| && i % 8 == 0 && AllFlags(flagBuf, ts)
    ensures (i + 7) / 8 < |flagBuf| && flagBuf[(i + 7) / 8] == FlagByte(FlagsLeft(ts, i))
  {
    GroupStart(ts, i);
    assert (i + 7) / 8 == i / 8;
  }
}
