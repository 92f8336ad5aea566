// gen_codes and bi_reverse of gzip.c.
module GenCodes {
  import opened Bits
  import opened BitStream
  import opened Canonical

  const MAX_BITS := 15

  // bi_reverse: sent least significant bit first, the result spells the code most significant bit first.
  method BiReverse(code0: nat, len0: nat) returns (res: nat)
    requires 1 <= len0
    ensures res < Pow2(len0)
    ensures BitsOf(res, len0) == MsbBits(code0, len0)
  {
    hide Or, BitsOf, MsbBits, Pow2;
    var code, len := code0, len0;
    res := 0;
    assert BitsOf(0, 0) == [] && MsbBits(code0, len0) + [] == MsbBits(code0, len0);
    ghost var done: nat, r: nat := 0, 0;     // r: the bits reversed so far, before the pending shift
    while true
      invariant 1 <= len && done + len == len0
      invariant res == 2 * r && r < Pow2(done)
      invariant MsbBits(code0, len0) == MsbBits(code, len) + BitsOf(r, done)
      decreases len
    {
      ReverseStep(code, len, r, done);
      res := Or(code % 2, res);
      len := len - 1;
      r, done := res, done + 1;
      if len == 0 {
        assert MsbBits(code / 2, 0) + BitsOf(r, done) == BitsOf(r, done);
        return;
      }
      code := code / 2;
      res := 2 * res;
    }
  }

  lemma {:induction false} ReverseStep(code: nat, len: nat, r: nat, done: nat)
    requires len >= 1 && r < Pow2(done)
    ensures Or(code % 2, 2 * r) == 2 * r + code % 2 < Pow2(done + 1)
    ensures MsbBits(code, len) + BitsOf(r, done) == MsbBits(code / 2, len - 1) + BitsOf(2 * r + code % 2, done + 1)
  {
    OrBit(code % 2, r);
    assert MsbBits(code, len) == MsbBits(code / 2, len - 1) + [code % 2 == 1];
    BitsCons(code % 2, r, done);
    hide MsbBits, BitsOf, Or;
    var x, y := MsbBits(code / 2, len - 1), BitsOf(r, done);
    var b := [code % 2 == 1];
    assert (x + b) + y == x + (b + y);
  }

  lemma {:induction false} OrBit(b: nat, r: nat)
    requires b < 2
    ensures Or(b, 2 * r) == 2 * r + b
  {
    assert Pow2(1) == 2 && Shl(r, 1) == 2 * r;
    OrDisjoint(b, 1, r);
  }

  lemma {:induction false} BitsCons(b: nat, r: nat, n: nat)
    requires b < 2
    ensures BitsOf(2 * r + b, n + 1) == [b == 1] + BitsOf(r, n)
  {
    var v := 2 * r + b;
    assert v % 2 == b && v / 2 == r;
  }

  // bl_count of the code lengths, with no codes of length 0.
  ghost predicate Statistics(counts: seq<nat>, lens: seq<nat>)
  {
    |counts| == MAX_BITS + 1 && counts[0] == 0 && forall b | 1 <= b <= MAX_BITS :: counts[b] == Count(lens, b)
  }

  // The next unassigned code of each length, when the symbols below n have theirs.
  ghost predicate NextCodes(next: seq<nat>, lens: seq<nat>, n: nat)
    requires n <= |lens|
  {
    |next| == MAX_BITS + 1 && forall b | 1 <= b <= MAX_BITS :: next[b] == 2 * Kraft(lens, b - 1) + Count(lens[..n], b)
  }

  lemma {:induction false} FirstCodes(next: seq<nat>, lens: seq<nat>)
    requires |next| == MAX_BITS + 1 && forall b | 1 <= b <= MAX_BITS :: next[b] == 2 * Kraft(lens, b - 1)
    ensures NextCodes(next, lens, 0)
  {
    hide Kraft;
    assert lens[..0] == [];
  }

  lemma {:induction false} NextCodesStep(next: seq<nat>, lens: seq<nat>, n: nat)
    requires n < |lens| && lens[n] <= MAX_BITS && NextCodes(next, lens, n)
    ensures lens[n] == 0 ==> NextCodes(next, lens, n + 1)
    ensures lens[n] > 0 ==> next[lens[n]] == Code(lens, n)
                            && NextCodes(next[lens[n] := next[lens[n]] + 1], lens, n + 1)
  {
    assert lens[..n + 1][..n] == lens[..n];
  }

  // Symbols with a code length have their codeword, ready to be sent least significant bit first.
  ghost predicate CodesSet(codes: seq<nat>, lens: seq<nat>, n: nat)
    requires n <= |lens| <= |codes|
  {
    forall s | 0 <= s < n && lens[s] > 0 :: codes[s] < Pow2(lens[s]) && BitsOf(codes[s], lens[s]) == Codeword(lens, s)
  }

  method GenCodes(dl: array<nat>, fc: array<nat>, blCount: array<nat>, maxCode: nat)
    requires maxCode < dl.Length <= fc.Length && dl != fc && blCount != fc
    requires Fits(dl[..maxCode + 1], MAX_BITS) && Statistics(blCount[..], dl[..maxCode + 1])
    modifies fc
    ensures CodesSet(fc[..], dl[..maxCode + 1], maxCode + 1)
    ensures forall s | maxCode < s < fc.Length :: fc[s] == old(fc[s])
  {
    hide Kraft, Pow2, BitsOf, MsbBits, Codeword, Code, Count, NextCodes;
    ghost var lens: seq<nat>, counts: seq<nat> := dl[..maxCode + 1], blCount[..];
    var nextCode := new nat[MAX_BITS + 1](_ => 0);
    var code: nat := 0;
    for bits := 1 to MAX_BITS + 1
      invariant code == if bits == 1 then 0 else 2 * Kraft(lens, bits - 2)
      invariant forall b | 1 <= b < bits :: nextCode[b] == 2 * Kraft(lens, b - 1)
      modifies nextCode
    {
      assert blCount[..] == counts && blCount[bits - 1] == counts[bits - 1];
      KraftStep(lens, bits - 1);
      code := 2 * (code + blCount[bits - 1]);
      nextCode[bits] := code;
    }
    FirstCodes(nextCode[..], lens);
    for n := 0 to maxCode + 1
      invariant NextCodes(nextCode[..], lens, n)
      invariant CodesSet(fc[..], lens, n)
      invariant forall s | maxCode < s < fc.Length :: fc[s] == old(fc[s])
      invariant dl[..maxCode + 1] == lens
    {
      var len := dl[n];
      assert len == lens[n];
      NextCodesStep(nextCode[..], lens, n);
      if len != 0 {
        var r := BiReverse(nextCode[len], len);
        ghost var next := nextCode[..];
        assert BitsOf(r, len) == Codeword(lens, n) by { CodewordIs(lens, n); }
        fc[n] := r;
        nextCode[len] := nextCode[len] + 1;
        assert nextCode[..] == next[len := next[len] + 1];
      }
    }
  }

  lemma {:induction false} KraftStep(lens: seq<nat>, l: nat)
    ensures Kraft(lens, l) == if l == 0 then 0 else 2 * Kraft(lens, l - 1) + Count(lens, l)
  {
  }

  lemma {:induction false} CodewordIs(lens: seq<nat>, n: nat)
    requires n < |lens| && lens[n] > 0
    ensures Codeword(lens, n) == MsbBits(Code(lens, n), lens[n])
  {
  }
}
