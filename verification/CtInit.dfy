// ct_init of gzip.c: the constant tables and the static trees.
module CtInit {
  import opened Bits
  import opened BitStream
  import opened Canonical
  import opened CodeLengths
  import opened DeflateTables
  import opened TokenCode
  import opened TreeSender
  import opened BlockFormat
  import opened BlockCode
  import GC = GenCodes

  datatype Statics = Statics(lengthCode: seq<nat>, distCode: seq<nat>, baseLength: seq<nat>, baseDist: seq<nat>, sl: Code, sd: Code)

  // The tables map every length and distance to its code, and the static trees code section 3.2.6 of RFC 1951.
  ghost predicate StaticsRight(st: Statics)
  {
    && |st.lengthCode| == 256 && |st.distCode| == 512
    && (forall lc | 0 <= lc < 256 :: st.lengthCode[lc] == LengthCode(lc))
    && (forall d | 0 <= d < 32768 :: DCode(st.distCode, d) == DistCode(d))
    && BaseTables(st.baseLength, st.baseDist)
    && st.sl.Is(StaticL()) && st.sd.Is(StaticD())
  }

  lemma {:induction false} LengthTablesRight(lengthCode: seq<nat>, baseLength: seq<nat>)
    requires LengthTables(lengthCode, baseLength)
    ensures forall lc | 0 <= lc < 256 :: lengthCode[lc] == LengthCode(lc)
  {
    hide IsLengthCode, LengthCode, IsDistCode;
    forall lc | 0 <= lc < 256 ensures lengthCode[lc] == LengthCode(lc) {
      CodesUnique(lengthCode[lc], LengthCode(lc));
    }
  }

  lemma {:induction false} DistTablesRight(distCode: seq<nat>, baseDist: seq<nat>)
    requires DistTables(distCode, baseDist)
    ensures forall d | 0 <= d < 32768 :: DCode(distCode, d) == DistCode(d)
  {
    forall d | 0 <= d < 32768 ensures DCode(distCode, d) == DistCode(d) {
      hide IsLengthCode, IsDistCode, DistTables, DCode, DistCode;
      DCodeRight(distCode, baseDist, d);
      CodesUnique(DCode(distCode, d), DistCode(d));
    }
  }

  // One of the four loops over the static literal tree.
  method FillLens(dl: array<nat>, blCount: array<nat>, from: nat, to: nat, len: nat)
    requires from <= to <= dl.Length && len < blCount.Length && dl != blCount
    modifies dl, blCount
    ensures forall n | 0 <= n < dl.Length :: dl[n] == if from <= n < to then len else old(dl[n])
    ensures forall l | 0 <= l < blCount.Length :: blCount[l] == old(blCount[l]) + if l == len then to - from else 0
  {
    var n := from;
    while n < to
      invariant from <= n <= to
      invariant forall k | 0 <= k < dl.Length :: dl[k] == if from <= k < n then len else old(dl[k])
      invariant forall l | 0 <= l < blCount.Length :: blCount[l] == old(blCount[l]) + if l == len then n - from else 0
    {
      dl[n] := len;
      n := n + 1;
      blCount[len] := blCount[len] + 1;
    }
  }

  // The static literal tree, with the two codes that never occur.
  method StaticLTree() returns (c: Code)
    ensures c.Is(StaticL())
  {
    hide Count, Copies, Fits, GC.CodesSet, LengthCode, DistCode;
    var fc := new nat[L_CODES + 2](_ => 0);
    var dl := new nat[L_CODES + 2](_ => 0);
    var blCount := new nat[16](_ => 0);
    FillLens(dl, blCount, 0, 144, 8);
    FillLens(dl, blCount, 144, 256, 9);
    FillLens(dl, blCount, 256, 280, 7);
    FillLens(dl, blCount, 280, 288, 8);
    LensAre(dl[..]);
    assert dl[..] == StaticL() && dl[..L_CODES + 2] == dl[..];
    StaticLFits();
    StaticStatistics(blCount[..]);
    GC.GenCodes(dl, fc, blCount, L_CODES + 1);
    c := Code(fc[..], dl[..]);
    StaticShort();
  }

  lemma {:induction false} LensAre(dl: seq<nat>)
    requires |dl| == 288 && forall n | 0 <= n < 288 :: dl[n] == if n < 144 then 8 else if n < 256 then 9 else if n < 280 then 7 else 8
    ensures dl == StaticL()
  {
  }

  lemma {:induction false} StaticShort()
    ensures forall s | 0 <= s < 288 :: StaticL()[s] <= 15
  {
  }

  lemma {:induction false} StaticStatistics(counts: seq<nat>)
    requires |counts| == 16
    requires forall l | 0 <= l < 16 :: counts[l] == if l == 7 then 24 else if l == 8 then 152 else if l == 9 then 112 else 0
    ensures GC.Statistics(counts, StaticL())
  {
    hide StaticL, Count;
    forall l | 1 <= l <= 15 ensures counts[l] == Count(StaticL(), l) {
      StaticLCount(l);
    }
  }

  // The static distance tree.
  method StaticDTree() returns (c: Code)
    ensures c.Is(StaticD())
  {
    hide Codeword, BitsOf, Pow2, MsbBits;
    var fc := new nat[D_CODES](_ => 0);
    var dl := new nat[D_CODES](_ => 0);
    for n := 0 to D_CODES
      invariant forall k | 0 <= k < n :: dl[k] == 5 && fc[k] < Pow2(5) && BitsOf(fc[k], 5) == Codeword(StaticD(), k)
      modifies fc, dl
    {
      dl[n] := 5;
      StaticDCode(n);
      fc[n] := GC.BiReverse(n, 5);
    }
    assert dl[..] == StaticD() && dl[..D_CODES] == dl[..];
    c := Code(fc[..], dl[..]);
  }

  lemma {:induction false} StaticDCode(n: nat)
    requires n < D_CODES
    ensures Codeword(StaticD(), n) == MsbBits(n, 5)
  {
    hide Count, MsbBits;
    var dd := StaticD();
    forall l: nat | 1 <= l <= 4 ensures Count(dd, l) == 0 { CountCopies(5, D_CODES, l); }
    KraftEmpty(dd, 4);
    assert dd[..n] == Copies(5, n);
    CountCopies(5, n, 5);
  }

  method BuildStatics() returns (st: Statics)
    ensures StaticsRight(st)
  {
    hide IsLengthCode, IsDistCode, StaticL, StaticD, LBase, DBase, LengthCode, DistCode, Coding, DCode, IsDistBlock;
    var lengthCode := new nat[256](_ => 0);
    var baseLength := new nat[LENGTH_CODES](_ => 0);
    InitLengths(lengthCode, baseLength);
    LengthTablesRight(lengthCode[..], baseLength[..]);
    var distCode := new nat[512](_ => 0);
    var baseDist := new nat[D_CODES](_ => 0);
    InitNear(distCode, baseDist);
    InitFar(distCode, baseDist);
    DistTablesRight(distCode[..], baseDist[..]);
    var sl := StaticLTree();
    var sd := StaticDTree();
    st := Statics(lengthCode[..], distCode[..], baseLength[..], baseDist[..], sl, sd);
  }
}
