// ct_tally of gzip.c: the buffers l_buf, d_buf and flag_buf, and the symbol frequencies.
module Tally {
  import opened Bits
  import opened DeflateTables
  import opened TokenCode
  import opened TokenSize
  import opened Lz77

  // What l_buf holds for a token.
  function LByte(t: Token): nat
  {
    match t
    case Literal(b) => b
    case Match(_, len) => if len >= MIN_MATCH then len - MIN_MATCH else 0
  }

  // What d_buf holds for a block.
  function Dists(ts: seq<Token>): seq<nat>
  {
    if ts == [] then []
    else
      var t := ts[|ts| - 1];
      Dists(ts[..|ts| - 1]) + if t.Match? && t.dist >= 1 then [t.dist - 1] else []
  }

  // Up to eight flags, first token in the least significant bit.
  function FlagByte(ts: seq<Token>): nat
  {
    if ts == [] then 0 else (if ts[0].Match? then 1 else 0) + 2 * FlagByte(ts[1..])
  }

  lemma {:induction false} FlagByteSnoc(ts: seq<Token>, t: Token)
    ensures FlagByte(ts + [t]) == FlagByte(ts) + if t.Match? then Pow2(|ts|) else 0
    ensures FlagByte(ts) < Pow2(|ts|)
  {
    if ts == [] {
      assert ([] + [t])[1..] == [];
    } else {
      FlagByteSnoc(ts[1..], t);
      assert (ts + [t])[1..] == ts[1..] + [t];
    }
  }

  // The tokens of the byte of flags that starts at token 8 * k.
  function Group(ts: seq<Token>, k: nat): seq<Token>
    requires 8 * k <= |ts|
  {
    if 8 * k + 8 <= |ts| then ts[8 * k..8 * k + 8] else ts[8 * k..]
  }

  ghost predicate LitsRecorded(lBuf: seq<nat>, ts: seq<Token>)
  {
    |ts| <= |lBuf| && forall i | 0 <= i < |ts| :: lBuf[i] == LByte(ts[i])
  }

  ghost predicate DistsRecorded(dBuf: seq<nat>, lastDist: nat, ts: seq<Token>)
  {
    lastDist <= |dBuf| && dBuf[..lastDist] == Dists(ts)
  }

  // All full bytes of flags are stored.
  ghost predicate FlagsRecorded(flagBuf: seq<nat>, ts: seq<Token>)
  {
    |ts| / 8 <= |flagBuf| && forall k | 0 <= k < |ts| / 8 :: flagBuf[k] == FlagByte(Group(ts, k))
  }

  lemma {:induction false} LitsNext(lBuf: seq<nat>, ts: seq<Token>, t: Token)
    requires LitsRecorded(lBuf, ts) && |ts| < |lBuf|
    ensures LitsRecorded(lBuf[|ts| := LByte(t)], ts + [t])
  {
    hide LByte;
  }

  lemma {:induction false} DistsNext(dBuf: seq<nat>, lastDist: nat, ts: seq<Token>, t: Token)
    requires DistsRecorded(dBuf, lastDist, ts) && |ts| < |dBuf|
    ensures lastDist <= |ts|
    ensures if t.Match? && t.dist >= 1 then DistsRecorded(dBuf[lastDist := t.dist - 1], lastDist + 1, ts + [t])
            else DistsRecorded(dBuf, lastDist, ts + [t])
  {
    hide Dists;
    DistsSnoc(ts, t);
    DistsShort(ts);
    assert |dBuf[..lastDist]| == lastDist;
    if t.Match? && t.dist >= 1 {
      assert dBuf[lastDist := t.dist - 1][..lastDist + 1] == dBuf[..lastDist] + [t.dist - 1];
    }
  }

  lemma {:induction false} DistsSnoc(ts: seq<Token>, t: Token)
    ensures Dists(ts + [t]) == Dists(ts) + if t.Match? && t.dist >= 1 then [t.dist - 1] else []
  {
    assert (ts + [t])[..|ts|] == ts;
  }

  lemma {:induction false} DistsShort(ts: seq<Token>)
    ensures |Dists(ts)| <= |ts|
  {
    if ts != [] { DistsShort(ts[..|ts| - 1]); }
  }

  lemma {:induction false} FlagsSnoc(flagBuf: seq<nat>, ts: seq<Token>, t: Token)
    requires FlagsRecorded(flagBuf, ts) && |ts| / 8 < |flagBuf|
    ensures var k, g := |ts| / 8, Group(ts + [t], |ts| / 8);
            && g == Group(ts, k) + [t] && |Group(ts, k)| == |ts| % 8
            && (if |ts| % 8 == 7 then FlagsRecorded(flagBuf[k := FlagByte(g)], ts + [t])
                else FlagsRecorded(flagBuf, ts + [t]))
  {
    var k, us := |ts| / 8, ts + [t];
    forall j | 0 <= j < k ensures Group(us, j) == Group(ts, j) {
      assert 8 * j + 8 <= |ts|;
    }
    assert Group(us, k) == Group(ts, k) + [t];
  }

  class Buffers {
    const lBuf: array<nat>
    const dBuf: array<nat>
    const flagBuf: array<nat>
    const lFreq: array<nat>       // Freq of dyn_ltree
    const dFreq: array<nat>       // Freq of dyn_dtree
    const lengthCode: seq<nat>    // constant once ct_init has filled them
    const distCode: seq<nat>
    var lastLit: nat
    var lastDist: nat
    var lastFlags: nat
    var flags: nat
    var flagBit: nat

    ghost predicate Shape()
    {
      && lBuf.Length == dBuf.Length == LIT_BUFSIZE && flagBuf.Length == LIT_BUFSIZE / 8
      && lFreq.Length >= L_CODES && dFreq.Length >= D_CODES && |lengthCode| == 256 && |distCode| == 512
      && lBuf != dBuf && lBuf != flagBuf && dBuf != flagBuf && lFreq != dFreq
      && lFreq != lBuf && lFreq != dBuf && lFreq != flagBuf && dFreq != lBuf && dFreq != dBuf && dFreq != flagBuf
    }

    constructor (lFreq: array<nat>, dFreq: array<nat>, lengthCode: seq<nat>, distCode: seq<nat>)
      requires lFreq.Length >= L_CODES && dFreq.Length >= D_CODES && lFreq != dFreq
      requires |lengthCode| == 256 && |distCode| == 512
      ensures Shape() && this.lFreq == lFreq && this.dFreq == dFreq && this.lengthCode == lengthCode && this.distCode == distCode
      ensures fresh(lBuf) && fresh(dBuf) && fresh(flagBuf)
    {
      this.lFreq, this.dFreq, this.lengthCode, this.distCode := lFreq, dFreq, lengthCode, distCode;
      lastLit, lastDist, lastFlags, flags, flagBit := 0, 0, 0, 0, 1;
      lBuf := new nat[LIT_BUFSIZE](_ => 0);
      dBuf := new nat[LIT_BUFSIZE](_ => 0);
      flagBuf := new nat[LIT_BUFSIZE / 8](_ => 0);
    }

    ghost predicate Tables()
    {
      && |lengthCode| == 256 && |distCode| == 512
      && (forall lc | 0 <= lc < 256 :: lengthCode[lc] == LengthCode(lc))
      && (forall d | 0 <= d < 32768 :: DCode(distCode, d) == DistCode(d))
    }

    // The buffers hold the tokens ts.
    ghost predicate Holds(ts: seq<Token>)
      reads this, lBuf, dBuf, flagBuf
    {
      && lastLit == |ts| < LIT_BUFSIZE && (forall t | t in ts :: LegalToken(t))
      && LitsRecorded(lBuf[..], ts) && DistsRecorded(dBuf[..], lastDist, ts) && FlagsRecorded(flagBuf[..], ts)
      && lastFlags == |ts| / 8 && flags == FlagByte(Group(ts, |ts| / 8)) && flagBit == Pow2(|ts| % 8)
    }

    ghost predicate Counts(ts: seq<Token>)
      reads lFreq, dFreq
      requires forall t | t in ts :: LegalToken(t)
    {
      && lFreq.Length >= L_CODES && dFreq.Length >= D_CODES
      && lFreq[..L_CODES] == LFreqs(ts) && dFreq[..D_CODES] == DFreqs(ts)
    }

    // Set the flag of a match, move to the next flag, and store a full byte of flags.
    method StoreFlag(isMatch: bool, ghost ts: seq<Token>, ghost t: Token)
      requires Shape() && FlagsRecorded(flagBuf[..], ts) && |ts| < LIT_BUFSIZE - 1 && lastLit == |ts| + 1
      requires lastFlags == |ts| / 8 && flags == FlagByte(Group(ts, |ts| / 8)) && flagBit == Pow2(|ts| % 8)
      requires isMatch == t.Match?
      modifies flagBuf, this`lastFlags, this`flags, this`flagBit
      ensures FlagsRecorded(flagBuf[..], ts + [t])
      ensures lastFlags == |ts + [t]| / 8 && flags == FlagByte(Group(ts + [t], |ts + [t]| / 8)) && flagBit == Pow2(|ts + [t]| % 8)
    {
      hide FlagByte, Group, FlagsRecorded, Pow2, Or;
      ghost var k := |ts| / 8;
      FlagsSnoc(flagBuf[..], ts, t);
      FlagByteSnoc(Group(ts, k), t);
      if isMatch {
        OneBit(flags, |ts| % 8);
        flags := Or(flags, flagBit);
      }
      BitDoubles(|ts| % 8);
      flagBit := flagBit * 2 % 256;
      if lastLit % 8 == 0 {
        flagBuf[lastFlags] := flags;
        lastFlags := lastFlags + 1;
        flags := 0;
        flagBit := 1;
        NextGroup(ts + [t]);
        assert flagBuf[..] == old(flagBuf[..])[k := FlagByte(Group(ts + [t], k))];
      }
    }

    // Count the symbols of a token.
    method CountToken(dist: nat, lc: nat, ghost ts: seq<Token>, ghost t: Token)
      requires Shape() && Tables() && (forall u | u in ts :: LegalToken(u)) && LegalToken(t) && Counts(ts)
      requires lc < 256 && t == if dist == 0 then Literal(lc) else Match(dist, lc + MIN_MATCH)
      modifies lFreq, dFreq
      ensures Counts(ts + [t])
    {
      hide LFreqs, DFreqs, LengthCode, DistCode;
      FreqsSnoc(ts, t);
      if dist == 0 {
        lFreq[lc] := lFreq[lc] + 1;
      } else {
        var d := dist - 1;
        var s := lengthCode[lc] + LITERALS + 1;
        lFreq[s] := lFreq[s] + 1;
        var c := if d < 256 then distCode[d] else distCode[256 + d / 128];
        assert c == DCode(distCode, d);
        dFreq[c] := dFreq[c] + 1;
      }
      assert lFreq[..L_CODES] == Bump(old(lFreq[..L_CODES]), LSymbol(t));
    }

    // ct_tally
    method CtTally(dist: nat, lc: nat, ghost ts: seq<Token>) returns (ghost t: Token)
      requires Shape() && Tables() && Holds(ts) && Counts(ts) && |ts| < LIT_BUFSIZE - 1
      requires lc < 256 && dist <= 32768
      modifies lBuf, dBuf, flagBuf, lFreq, dFreq, this`lastLit, this`lastDist, this`lastFlags, this`flags, this`flagBit
      ensures t == if dist == 0 then Literal(lc) else Match(dist, lc + MIN_MATCH)
      ensures Holds(ts + [t]) && Counts(ts + [t])
    {
      hide FlagByte, Group, FlagsRecorded, LitsRecorded, DistsRecorded, Pow2, LFreqs, DFreqs, Tables;
      t := if dist == 0 then Literal(lc) else Match(dist, lc + MIN_MATCH);
      StoreToken(dist, lc, ts, t);
      StoreFlag(dist != 0, ts, t);
      CountToken(dist, lc, ts, t);
    }

    // The entries of l_buf and d_buf.
    method StoreToken(dist: nat, lc: nat, ghost ts: seq<Token>, ghost t: Token)
      requires Shape() && lastLit == |ts| < LIT_BUFSIZE - 1
      requires LitsRecorded(lBuf[..], ts) && DistsRecorded(dBuf[..], lastDist, ts)
      requires lc < 256 && t == if dist == 0 then Literal(lc) else Match(dist, lc + MIN_MATCH)
      modifies lBuf, dBuf, this`lastLit, this`lastDist
      ensures LitsRecorded(lBuf[..], ts + [t]) && DistsRecorded(dBuf[..], lastDist, ts + [t]) && lastLit == |ts| + 1
    {
      hide LitsRecorded, DistsRecorded, Dists;
      ghost var l: seq<nat>, d: seq<nat>, n := lBuf[..], dBuf[..], lastDist;
      LitsNext(l, ts, t);
      DistsNext(d, n, ts, t);
      lBuf[lastLit] := lc;
      lastLit := lastLit + 1;
      assert lBuf[..] == l[|ts| := lc];
      if dist != 0 {
        dBuf[lastDist] := dist - 1;
        lastDist := lastDist + 1;
        assert dBuf[..] == d[n := dist - 1];
      }
    }
  }

  lemma {:induction false} OneBit(flags: nat, j: nat)
    requires flags < Pow2(j)
    ensures Or(flags, Pow2(j)) == flags + Pow2(j)
  {
    ShlOne(j);
    OrDisjoint(flags, j, 1);
  }

  lemma {:induction false} ShlOne(j: nat)
    ensures Shl(1, j) == Pow2(j)
  {
    if j != 0 { ShlOne(j - 1); }
  }

  lemma {:induction false} BitDoubles(j: nat)
    requires j < 8
    ensures j < 7 ==> Pow2(j) * 2 % 256 == Pow2(j + 1)
    ensures Pow2(0) == 1
  {
    if j < 7 {
      Pow2Mono(j, 6);
      Powers();
      assert Pow2(j + 1) == 2 * Pow2(j);
    }
  }

  // After a full byte of flags the next group is empty.
  lemma {:induction false} NextGroup(ts: seq<Token>)
    requires |ts| % 8 == 0
    ensures Group(ts, |ts| / 8) == [] && FlagByte([]) == 0 && Pow2(0) == 1
  {
  }

  lemma {:induction false} FreqsSnoc(ts: seq<Token>, t: Token)
    requires (forall u | u in ts :: LegalToken(u)) && LegalToken(t)
    ensures LFreqs(ts + [t]) == Bump(LFreqs(ts), LSymbol(t))
    ensures DFreqs(ts + [t]) == if t.Match? then Bump(DFreqs(ts), DistCode(t.dist - 1)) else DFreqs(ts)
  {
    hide LSymbol, DistCode, LFreqs, DFreqs, Bump;
    LFreqsSnoc(ts, t);
    DFreqsSnoc(ts, t);
  }

  lemma {:induction false} LFreqsSnoc(ts: seq<Token>, t: Token)
    requires (forall u | u in ts :: LegalToken(u)) && LegalToken(t)
    ensures LFreqs(ts + [t]) == Bump(LFreqs(ts), LSymbol(t))
  {
    hide LSymbol, LegalToken;
    assert (ts + [t])[..|ts|] == ts && (ts + [t])[|ts|] == t;
  }

  lemma {:induction false} DFreqsSnoc(ts: seq<Token>, t: Token)
    requires (forall u | u in ts :: LegalToken(u)) && LegalToken(t)
    ensures DFreqs(ts + [t]) == if t.Match? then Bump(DFreqs(ts), DistCode(t.dist - 1)) else DFreqs(ts)
  {
    hide DistCode, LegalToken, NoDFreqs;
    assert (ts + [t])[..|ts|] == ts && (ts + [t])[|ts|] == t;
  }
}
