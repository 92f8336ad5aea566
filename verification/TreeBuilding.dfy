// The trees of one block: init_block, build_bl_tree and the first half of flush_block of gzip.c.
module TreeBuilding {
  import opened Bits
  import opened Canonical
  import opened CodeLengths
  import opened DeflateTables
  import opened TokenCode
  import opened TokenSize
  import opened Lz77
  import opened BitLengths
  import opened Optimal
  import opened Huffman
  import opened TreeSender
  import opened BlockFormat
  import opened BlockTrees
  import GC = GenCodes

  // The trees of a block are ready to be sent, and opt_len and static_len are the bits it takes.
  ghost predicate Built(ts: seq<Token>, ll: seq<nat>, dd: seq<nat>, bl: seq<nat>, blCodes: nat, optLen: int, staticLen: int)
  {
    && (forall t | t in ts :: LegalToken(t))
    && TreesReady(bl, blCodes, ll, dd) && CodesFit(ll, dd) && AllCoded(ll, dd, ts)
    && optLen == |TreesBits(bl, blCodes, ll, dd)| + DataSize(ll, dd, ts)
    && HasCode(StaticL(), END_BLOCK) && staticLen == DataSize(StaticL(), StaticD(), ts)
  }

  // The three dynamic trees and their builder.
  class Forest {
    const g: Builder
    const lt: Tree
    const dt: Tree
    const bt: Tree

    ghost predicate Shape()
    {
      && g.Shape(lt) && g.Shape(dt) && g.Shape(bt)
      && lt.elems == L_CODES && lt.maxLength == 15 && lt.extra == LExtra() && lt.statLens == StaticL()[..L_CODES]
      && dt.elems == D_CODES && dt.maxLength == 15 && dt.extra == DExtra() && dt.statLens == StaticD()
      && bt.elems == BL_CODES && bt.maxLength == 7 && bt.extra == BlExtra() && bt.statLens == []
      && lt != dt && lt != bt && dt != bt
      && lt.fc != dt.fc && lt.fc != dt.dl && lt.dl != dt.fc && lt.dl != dt.dl
      && lt.fc != bt.fc && lt.fc != bt.dl && lt.dl != bt.fc && lt.dl != bt.dl
      && dt.fc != bt.fc && dt.fc != bt.dl && dt.dl != bt.fc && dt.dl != bt.dl
    }

    constructor ()
      ensures Shape()
      ensures fresh(g) && fresh(lt) && fresh(dt) && fresh(bt) && fresh(g.heap) && fresh(g.depth) && fresh(g.blCount)
      ensures fresh(lt.fc) && fresh(lt.dl) && fresh(dt.fc) && fresh(dt.dl) && fresh(bt.fc) && fresh(bt.dl)
    {
      hide LExtra, DExtra, BlExtra, StaticL, StaticD, Pow2;
      Sizes();
      lt := new Tree(L_CODES, 15, LExtra(), StaticL()[..L_CODES]);
      dt := new Tree(D_CODES, 15, DExtra(), StaticD());
      bt := new Tree(BL_CODES, 7, BlExtra(), []);
      g := new Builder();
    }

    // Frequencies of a block without tokens.
    ghost predicate Fresh()
      reads lt.fc, dt.fc, bt.fc, g
    {
      && lt.fc.Length >= L_CODES && dt.fc.Length >= D_CODES && bt.fc.Length >= BL_CODES
      && lt.fc[..L_CODES] == LFreqs([]) && dt.fc[..D_CODES] == DFreqs([])
      && NoOpsYet()
    }

    ghost predicate NoOpsYet()
      reads bt.fc, g
    {
      && bt.fc.Length >= BL_CODES && (forall s | 0 <= s < BL_CODES :: bt.fc[s] == 0)
      && g.optLen == 0 && g.staticLen == 0
    }

    // init_block
    method Reset()
      requires Shape()
      modifies lt.fc, dt.fc, bt.fc, g`optLen, g`staticLen
      ensures Fresh()
    {
      hide StaticL, StaticD, LExtra, DExtra, BlExtra, LengthCode, DistCode, Pow2, LFreqs, DFreqs;
      ClearFreqs(lt.fc, L_CODES);
      ClearFreqs(dt.fc, D_CODES);
      ClearFreqs(bt.fc, BL_CODES);
      lt.fc[END_BLOCK] := 1;
      g.optLen, g.staticLen := 0, 0;
      FreshFreqs(lt.fc[..L_CODES], dt.fc[..D_CODES]);
    }

    // The literal and distance trees; for the tokens of a block, unless levels are clamped, no codes take fewer bits.
    method BuildData(ghost ts: seq<Token>) returns (ghost lClamped: bool, ghost dClamped: bool)
      requires Shape() && (forall t | t in ts :: LegalToken(t)) && g.optLen == 0 && g.staticLen == 0
      requires lt.fc[..L_CODES] == LFreqs(ts) && dt.fc[..D_CODES] == DFreqs(ts)
      modifies g, g.heap, g.depth, g.blCount, lt.fc, lt.dl, lt`maxCode, dt.fc, dt.dl, dt`maxCode
      ensures GoodCode(Forced(LFreqs(ts)), lt.dl[..L_CODES], lt.fc[..], lt.maxCode, 15)
      ensures GoodCode(Forced(DFreqs(ts)), dt.dl[..D_CODES], dt.fc[..], dt.maxCode, 15)
      ensures g.optLen == Cost(LFreqs(ts), lt.dl[..L_CODES], LExtra(), L_CODES) + Cost(DFreqs(ts), dt.dl[..D_CODES], DExtra(), D_CODES)
      ensures g.staticLen == Cost(LFreqs(ts), StaticL()[..L_CODES], LExtra(), L_CODES) + Cost(DFreqs(ts), StaticD(), DExtra(), D_CODES)
      ensures |ts| <= LIT_BUFSIZE ==> if lClamped then |ts| + 3 >= Fib(18) else Cheapest(Forced(LFreqs(ts)), lt.dl[..L_CODES], LExtra())
      ensures |ts| <= LIT_BUFSIZE ==> if dClamped then |ts| + 2 >= Fib(18) else Cheapest(Forced(DFreqs(ts)), dt.dl[..D_CODES], DExtra())
    {
      hide GoodCode, Forced, Cost, LFreqs, DFreqs, LExtra, DExtra, BlExtra, StaticL, StaticD, Pow2, Volume, Fib, Cheapest;
      DataVolume(ts);
      lClamped := g.BuildTree(lt);
      dClamped := g.BuildTree(dt);
    }

    // build_bl_tree without its loop: scan both trees and build the tree of the code length code.
    method ScanTrees(ghost ll: seq<nat>, ghost dd: seq<nat>)
      requires Shape() && forall s | 0 <= s < BL_CODES :: bt.fc[s] == 0
      requires 0 <= lt.maxCode < L_CODES && ll == lt.dl[..lt.maxCode + 1] && forall k | 0 <= k < |ll| :: ll[k] <= 15
      requires 0 <= dt.maxCode < D_CODES && dd == dt.dl[..dt.maxCode + 1] && forall k | 0 <= k < |dd| :: dd[k] <= 15
      modifies g, g.heap, g.depth, g.blCount, lt.dl, dt.dl, bt.fc, bt.dl, bt`maxCode
      ensures lt.dl[..lt.maxCode + 1] == ll && lt.dl[lt.maxCode + 1] == GUARD
      ensures dt.dl[..dt.maxCode + 1] == dd && dt.dl[dt.maxCode + 1] == GUARD
      ensures var f := OpFreqs(Runs(ll, 0, -1) + Runs(dd, 0, -1));
              && GoodCode(Forced(f), bt.dl[..BL_CODES], bt.fc[..], bt.maxCode, 7)
              && g.optLen == old(g.optLen) + Cost(f, bt.dl[..BL_CODES], BlExtra(), BL_CODES)
      ensures g.staticLen == old(g.staticLen)
    {
      hide GoodCode, Forced, Cost, LExtra, DExtra, BlExtra, StaticL, StaticD, Pow2, Runs, Counted, OpFreqs;
      ghost var f0: seq<nat> := bt.fc[..];
      ScanTree(lt.dl, lt.maxCode, bt.fc);
      ghost var f1: seq<nat> := bt.fc[..];
      ScanTree(dt.dl, dt.maxCode, bt.fc);
      BothScanned(f0, f1, bt.fc[..], Runs(ll, 0, -1), Runs(dd, 0, -1));
      var _ := g.BuildTree(bt);
    }

    // The number of code length codes to send, less 1.
    method LastBlCode(ghost v: nat) returns (maxBlIndex: nat)
      requires bt.dl.Length >= BL_CODES && 1 <= v <= 15 && bt.dl[v] != 0
      ensures 3 <= maxBlIndex < BL_CODES && forall r | maxBlIndex < r < BL_CODES :: bt.dl[BlOrder(r)] == 0
    {
      hide BlOrder;
      ghost var r0 := RankOf(v);
      HighRank(v);
      var m := BL_CODES - 1;
      while m >= 3
        invariant r0 <= m < BL_CODES && forall r | m < r < BL_CODES :: bt.dl[BlOrder(r)] == 0
      {
        if bt.dl[BlOrder(m)] != 0 {
          break;
        }
        m := m - 1;
      }
      maxBlIndex := m;
    }

    // build_bl_tree
    method BuildBlTree(ghost ll: seq<nat>, ghost dd: seq<nat>) returns (maxBlIndex: nat)
      requires Shape() && forall s | 0 <= s < BL_CODES :: bt.fc[s] == 0
      requires 0 <= lt.maxCode < L_CODES && ll == lt.dl[..lt.maxCode + 1] && Fits(ll, 15) && HasCode(ll, END_BLOCK)
      requires 0 <= dt.maxCode < D_CODES && dd == dt.dl[..dt.maxCode + 1] && Fits(dd, 15)
      modifies g, g.heap, g.depth, g.blCount, lt.dl, dt.dl, bt.fc, bt.dl, bt`maxCode
      ensures lt.dl[..lt.maxCode + 1] == ll && lt.dl[lt.maxCode + 1] == GUARD
      ensures dt.dl[..dt.maxCode + 1] == dd && dt.dl[dt.maxCode + 1] == GUARD
      ensures maxBlIndex < BL_CODES && TreesReady(bt.dl[..BL_CODES], maxBlIndex + 1, ll, dd)
      ensures Coding(bt.fc[..], bt.dl[..], bt.dl[..BL_CODES])
      ensures g.optLen == old(g.optLen) + |TreesBits(bt.dl[..BL_CODES], maxBlIndex + 1, ll, dd)|
      ensures g.staticLen == old(g.staticLen)
    {
      hide GoodCode, Forced, Cost, LExtra, DExtra, BlExtra, StaticL, StaticD, Pow2, Runs, OpFreqs, TreesBits, TreesReady,
           Kraft, Coding, BlOrder;
      ScanTrees(ll, dd);
      ghost var bl: seq<nat>, f := bt.dl[..BL_CODES], OpFreqs(Runs(ll, 0, -1) + Runs(dd, 0, -1));
      ghost var v := LengthSent(ll, dd, bl, bt.fc[..], bt.maxCode);
      maxBlIndex := LastBlCode(v);
      assert forall r | 0 <= r < BL_CODES :: bl[BlOrder(r)] == bt.dl[BlOrder(r)];
      HeaderReady(ll, dd, bl, bt.fc[..], bt.maxCode, maxBlIndex + 1);
      FullCoding(Forced(f), bl, bt.fc[..], bt.maxCode, 7, bt.dl[..]);
      TreesSize(bl, maxBlIndex + 1, ll, dd);
      g.optLen := g.optLen + 3 * (maxBlIndex + 1) + 5 + 5 + 4;
    }

    // The trees as flush_block leaves them before it sends the block.
    ghost predicate Ready(ts: seq<Token>, maxBlIndex: nat)
      reads g, lt, dt, bt, lt.fc, lt.dl, dt.fc, dt.dl, bt.fc, bt.dl
    {
      && Shape() && 0 <= lt.maxCode < L_CODES && 0 <= dt.maxCode < D_CODES && maxBlIndex < BL_CODES
      && Built(ts, lt.dl[..lt.maxCode + 1], dt.dl[..dt.maxCode + 1], bt.dl[..BL_CODES], maxBlIndex + 1, g.optLen, g.staticLen)
      && Coding(lt.fc[..], lt.dl[..], lt.dl[..lt.maxCode + 1]) && lt.dl[lt.maxCode + 1] == GUARD
      && Coding(dt.fc[..], dt.dl[..], dt.dl[..dt.maxCode + 1]) && dt.dl[dt.maxCode + 1] == GUARD
      && Coding(bt.fc[..], bt.dl[..], bt.dl[..BL_CODES])
    }

    // All three trees of a block.
    method BuildTrees(ghost ts: seq<Token>) returns (maxBlIndex: nat)
      requires Shape() && (forall t | t in ts :: LegalToken(t)) && NoOpsYet()
      requires lt.fc[..L_CODES] == LFreqs(ts) && dt.fc[..D_CODES] == DFreqs(ts)
      modifies g, g.heap, g.depth, g.blCount, lt, lt.fc, lt.dl, dt, dt.fc, dt.dl, bt, bt.fc, bt.dl
      ensures Ready(ts, maxBlIndex)
    {
      hide GoodCode, Forced, Cost, LFreqs, DFreqs, LExtra, DExtra, BlExtra, StaticL, StaticD, Pow2, Kraft, Coding, TreesBits,
           TreesReady, TokensBits, Codeword, DataSize, Coded, Fits, Extends;
      var _, _ := BuildData(ts);
      ghost var fl: seq<nat>, fd: seq<nat>, dl0: seq<nat>, dd0: seq<nat> := lt.dl[..L_CODES], dt.dl[..D_CODES], lt.dl[..], dt.dl[..];
      DataReady(ts, fl, lt.fc[..], lt.maxCode, fd, dt.fc[..], dt.maxCode);
      ghost var ll: seq<nat>, dd: seq<nat> := lt.dl[..lt.maxCode + 1], dt.dl[..dt.maxCode + 1];
      assert ll == fl[..lt.maxCode + 1] && dd == fd[..dt.maxCode + 1];
      ghost var c1: seq<nat>, c2: seq<nat> := lt.fc[..], dt.fc[..];
      maxBlIndex := BuildBlTree(ll, dd);
      assert lt.fc[..] == c1 && dt.fc[..] == c2;
      TreeCoding(Forced(LFreqs(ts)), fl, c1, lt.maxCode, 15, lt.dl[..]);
      TreeCoding(Forced(DFreqs(ts)), fd, c2, dt.maxCode, 15, dt.dl[..]);
    }
  }

  // The frequencies of a block stay below 2^16.
  lemma {:induction false} DataVolume(ts: seq<Token>)
    requires forall t | t in ts :: LegalToken(t)
    ensures Volume(Forced(LFreqs(ts))) <= |ts| + 3 && Volume(Forced(DFreqs(ts))) <= |ts| + 2
  {
    hide Forced, LFreqs, DFreqs;
    TokensVolume(ts);
    VolumeForced(LFreqs(ts));
    VolumeForced(DFreqs(ts));
  }

  lemma {:induction false} TokensVolume(ts: seq<Token>)
    requires forall t | t in ts :: LegalToken(t)
    ensures Volume(LFreqs(ts)) == |ts| + 1 && Volume(DFreqs(ts)) <= |ts|
  {
    hide Volume, DistCode, LengthCode;
    if ts == [] {
      var z := seq(L_CODES, _ => 0);
      VolumeZero(z);
      VolumeSet(z, END_BLOCK, 1);
      assert LFreqs(ts) == z[END_BLOCK := 1];
      VolumeZero(DFreqs(ts));
    } else {
      var u, t := ts[..|ts| - 1], ts[|ts| - 1];
      assert forall x | x in u :: x in ts;
      assert t in ts;
      TokensVolume(u);
      VolumeSet(LFreqs(u), LSymbol(t), LFreqs(u)[LSymbol(t)] + 1);
      if t.Match? {
        VolumeSet(DFreqs(u), DistCode(t.dist - 1), DFreqs(u)[DistCode(t.dist - 1)] + 1);
      }
    }
  }

  // What the finished literal and distance trees mean for the tokens.
  lemma {:induction false} DataReady(ts: seq<Token>, fl: seq<nat>, lCodes: seq<nat>, lMax: int, fd: seq<nat>, dCodes: seq<nat>, dMax: int)
    requires forall t | t in ts :: LegalToken(t)
    requires GoodCode(Forced(LFreqs(ts)), fl, lCodes, lMax, 15) && GoodCode(Forced(DFreqs(ts)), fd, dCodes, dMax, 15)
    ensures 0 <= lMax < L_CODES == |fl| && 0 <= dMax < D_CODES == |fd|
    ensures var ll, dd := fl[..lMax + 1], fd[..dMax + 1];
            && CodesFit(ll, dd) && AllCoded(ll, dd, ts)
            && DataSize(ll, dd, ts) == Cost(LFreqs(ts), fl, LExtra(), L_CODES) + Cost(DFreqs(ts), fd, DExtra(), D_CODES)
    ensures HasCode(StaticL(), END_BLOCK)
            && DataSize(StaticL(), StaticD(), ts)
               == Cost(LFreqs(ts), StaticL()[..L_CODES], LExtra(), L_CODES) + Cost(DFreqs(ts), StaticD(), DExtra(), D_CODES)
  {
    hide Forced, Cost, LFreqs, DFreqs, LExtra, DExtra, StaticL, StaticD, Pow2, Kraft, TokensBits, Codeword, DataSize, Coded,
         Fits, Extends, HasCode, GC.CodesSet, LegalToken;
    TreeFinished(LFreqs(ts), fl, lCodes, lMax, 15);
    TreeFinished(DFreqs(ts), fd, dCodes, dMax, 15);
    var ll, dd := fl[..lMax + 1], fd[..dMax + 1];
    TokensAllCoded(ts, ll, dd);
    DataCost(fl, fd, ll, dd, ts);
    StaticCodesAll(ts);
    StaticExtends();
    DataCost(StaticL()[..L_CODES], StaticD(), StaticL(), StaticD(), ts);
  }

  // A length symbol of the literal tree that has a code of its own.
  lemma {:induction false} LengthSent(ll: seq<nat>, dd: seq<nat>, bl: seq<nat>, codes: seq<nat>, maxCode: int) returns (v: nat)
    requires HasCode(ll, END_BLOCK) && Fits(ll, 15)
    requires |bl| == BL_CODES && GoodCode(Forced(OpFreqs(Runs(ll, 0, -1) + Runs(dd, 0, -1))), bl, codes, maxCode, 7)
    ensures 1 <= v <= 15 && bl[v] != 0
  {
    hide Runs, Occurs, Forced, Kraft, Pow2;
    var a, c := Runs(ll, 0, -1), Runs(dd, 0, -1);
    v := SomeLength(ll, 0, -1, END_BLOCK);
    RunsFit(ll, 0, -1);
    SymbolOccurs(a + c, Len(v));
    ForcedKeeps(OpFreqs(a + c), v);
  }

  lemma {:induction false} HighRank(v: nat)
    requires 1 <= v <= 15
    ensures RankOf(v) >= 4
  {
  }

  lemma {:induction false} FreshFreqs(l: seq<nat>, d: seq<nat>)
    requires |l| == L_CODES && forall s | 0 <= s < L_CODES :: l[s] == if s == END_BLOCK then 1 else 0
    requires |d| == D_CODES && forall s | 0 <= s < D_CODES :: d[s] == 0
    ensures l == LFreqs([]) && d == DFreqs([])
  {
  }

  lemma {:induction false} Sizes()
    ensures Pow2(15) == 32768 && Pow2(7) == 128
    ensures LExtra()[0] == LExtra()[1] == LExtra()[2] == 0
    ensures DExtra()[0] == DExtra()[1] == DExtra()[2] == 0
    ensures BlExtra()[0] == BlExtra()[1] == BlExtra()[2] == 0
  {
    Powers();
  }

  method ClearFreqs(fc: array<nat>, n: nat)
    requires n <= fc.Length
    modifies fc
    ensures forall s | 0 <= s < n :: fc[s] == 0
    ensures forall s | n <= s < fc.Length :: fc[s] == old(fc[s])
  {
    for i := 0 to n
      invariant forall s | 0 <= s < i :: fc[s] == 0
      invariant forall s | n <= s < fc.Length :: fc[s] == old(fc[s])
    {
      fc[i] := 0;
    }
  }
}
