// Writing runs and matches: code_match, STORE_RUN, code_run and len_of_coded_match of lzo1x_9x.c, and the same
// steps as lzo1x_c.c takes them.
module LzoWriter {
  import opened Bits
  import opened Lz77
  import opened LzoFormat
  import opened LzoCode
  import opened LzoReach

  // while (n > 255) { n -= 255; *op++ = 0; }  *op++ = n;
  method StoreExt(op0: seq<Byte>, n0: nat) returns (op: seq<Byte>)
    requires n0 >= 1
    ensures op == op0 + ExtBytes(n0)
  {
    op := op0;
    var n := n0;
    while n > 255
      invariant n >= 1 && op + ExtBytes(n) == op0 + ExtBytes(n0)
    {
      assert op + ExtBytes(n) == (op + [0]) + ExtBytes(n - 255);
      n := n - 255;
      op := op + [0];
    }
    op := op + [n];
  }

  lemma {:induction false} OrLow(x: nat, t: nat)
    requires x % 4 == 0 && t < 4
    ensures Or(x, t) == x + t
  {
    var y := x / 4;
    OrNothing(y);
    assert x / 2 == 2 * y && x == 4 * y;
    assert t / 2 / 2 == 0;
    assert Or(x, t) == if x == 0 && t == 0 then 0 else 2 * Or(x / 2, t / 2) + t % 2;
    assert Or(2 * y, t / 2) == if y == 0 && t / 2 == 0 then 0 else 2 * Or(y, 0) + t / 2 % 2;
  }

  lemma {:induction false} OrNothing(y: nat)
    ensures Or(y, 0) == y
  {
    if y != 0 { OrNothing(y / 2); }
  }

  lemma {:induction false} LongRun(op: seq<Byte>, t: nat)
    requires t > 18
    ensures (op + [0]) + ExtBytes(t - 18) == op + RunCode(t)
  {
  }

  // The head of a run of t literals: patched into the match before it, or bytes of its own.
  method StoreHead(op0: seq<Byte>, t: nat) returns (op: seq<Byte>)
    requires t >= 1 && (t <= 3 ==> |op0| >= 2 && op0[|op0| - 2] % 4 == 0)
    ensures op == if t <= 3 then Patched(op0, t) else op0 + RunCode(t)
  {
    assert 4 <= t <= 18 ==> RunCode(t) == [t - 3];
    hide Or, ExtBytes, RunCode;
    if t <= 3 {
      OrLow(op0[|op0| - 2], t);
      op := op0[|op0| - 2 := Or(op0[|op0| - 2], t)];
    } else if t <= 18 {
      op := op0 + [t - 3];
    } else {
      op := StoreExt(op0 + [0], t - 18);
      LongRun(op0, t);
    }
  }

  // What has been written decodes to out: nothing yet, or up to a match.
  ghost predicate Written(op: seq<Byte>, out: seq<Byte>, cap: nat, low: int)
  {
    if op == [] then out == [] && low == 0 else |out| <= cap && Ready(op, out, cap, low)
  }

  // STORE_RUN
  method StoreRun(op0: seq<Byte>, lits: seq<Byte>, ghost out: seq<Byte>, ghost cap: nat, ghost low: int) returns (op: seq<Byte>)
    requires Written(op0, out, cap, low) && |lits| >= 1 && |out| + |lits| <= cap
    ensures Reaches(op, ModeAfter(|lits|), out + lits, cap, low)
    ensures |op| == |op0| + |lits| + if op0 == [] && |lits| <= 238 then 1 else if |lits| <= 3 then 0 else |RunCode(|lits|)|
  {
    hide Reaches, ReadHead, RunCode, Patched;
    var t := |lits|;
    if op0 == [] && t <= 238 {
      op := [17 + t] + lits;
      FirstRun(lits, cap);
      assert out + lits == lits;
    } else {
      op := StoreHead(op0, t);
      RunStored(op0, lits, out, cap, low);
      op := op + lits;
    }
  }

  lemma {:induction false} FirstRun(lits: seq<Byte>, cap: nat)
    requires 1 <= |lits| <= 238 && |lits| <= cap
    ensures Reaches([17 + |lits|] + lits, ModeAfter(|lits|), lits, cap, 0)
  {
    hide Reaches, ReadHead;
    var head: seq<Byte> := [17 + |lits|];
    ReachesNothing(cap);
    forall rest: seq<Byte> ensures ReadHead(head + rest, Start) == RunHead(1, |lits|) { FirstExact(|lits|, rest); }
    ExtendRun([], Start, [], cap, 0, head, lits);
    assert [] + (head + lits) == head + lits && [] + lits == lits;
  }

  lemma {:induction false} RunStored(op0: seq<Byte>, lits: seq<Byte>, out: seq<Byte>, cap: nat, low: int)
    requires Written(op0, out, cap, low) && |lits| >= 1 && |out| + |lits| <= cap && (op0 == [] ==> |lits| >= 4)
    ensures |lits| <= 3 ==> |op0| >= 2 && op0[|op0| - 2] % 4 == 0
    ensures Reaches((if |lits| <= 3 then Patched(op0, |lits|) else op0 + RunCode(|lits|)) + lits,
                    ModeAfter(|lits|), out + lits, cap, low)
  {
    hide Reaches, ReadHead, RunCode, Patched;
    if |lits| >= 4 {
      var mode := if op0 == [] then Start else Fresh;
      if op0 == [] { ReachesNothing(cap); } else { ReadyNow(op0, out, cap, low); }
      var head := RunCode(|lits|);
      forall rest: seq<Byte> ensures ReadHead(head + rest, mode) == RunHead(|head|, |lits|) { RunExact(|lits|, rest, mode); }
      ExtendRun(op0, mode, out, cap, low, head, lits);
      assert op0 + (head + lits) == (op0 + head) + lits;
    }
  }

  // m3_m4_offset: the bits above the low fourteen are in the length byte already.
  method CodeOffset(op0: seq<Byte>, o: nat) returns (op: seq<Byte>)
    requires o < 0x8000
    ensures op == op0 + Far(o)
  {
    op := op0 + [o % 64 * 4];
    op := op + [o / 64 % 256];
  }

  // An M3 match.
  method CodeM3(op0: seq<Byte>, mLen: nat, mOff: nat) returns (op: seq<Byte>)
    requires mLen >= 3 && 1 <= mOff <= M3_MAX_OFFSET
    ensures op == op0 + (M3Len(mLen) + Far(mOff - 1))
  {
    hide ExtBytes, M3Len, Far;
    var o := mOff - 1;
    LongM3(op0, mLen);
    if mLen <= M3_MAX_LEN {
      op := op0 + [32 + (mLen - 2)];
    } else {
      op := StoreExt(op0 + [32], mLen - M3_MAX_LEN);
    }
    op := CodeOffset(op, o);
    assert (op0 + M3Len(mLen)) + Far(o) == op0 + (M3Len(mLen) + Far(o));
  }

  lemma {:induction false} LongM3(op: seq<Byte>, len: nat)
    requires len >= 3
    ensures len <= M3_MAX_LEN ==> M3Len(len) == [32 + (len - 2)]
    ensures len > M3_MAX_LEN ==> (op + [32]) + ExtBytes(len - M3_MAX_LEN) == op + M3Len(len)
  {
    hide ExtBytes;
  }

  lemma {:induction false} LongM4(op: seq<Byte>, len: nat, o: nat, k: nat)
    requires len >= 3 && k == if o >= 0x4000 then 8 else 0
    ensures len <= M4_MAX_LEN ==> M4Len(len, o) == [16 + k + (len - 2)]
    ensures len > M4_MAX_LEN ==> (op + [16 + k]) + ExtBytes(len - M4_MAX_LEN) == op + M4Len(len, o)
  {
    hide ExtBytes;
  }

  // An M4 match.
  method CodeM4(op0: seq<Byte>, mLen: nat, mOff: nat) returns (op: seq<Byte>)
    requires mLen >= 3 && M3_MAX_OFFSET < mOff <= M4_MAX_OFFSET
    ensures op == op0 + (M4Len(mLen, mOff - 0x4000) + Far(mOff - 0x4000))
  {
    hide ExtBytes, M4Len, Far;
    var o := mOff - 0x4000;
    var k := if o >= 0x4000 then 8 else 0;
    LongM4(op0, mLen, o, k);
    if mLen <= M4_MAX_LEN {
      op := op0 + [16 + k + (mLen - 2)];
    } else {
      op := StoreExt(op0 + [16 + k], mLen - M4_MAX_LEN);
    }
    op := CodeOffset(op, o);
    assert (op0 + M4Len(mLen, o)) + Far(o) == op0 + (M4Len(mLen, o) + Far(o));
  }

  // code_match
  method CodeMatch(op0: seq<Byte>, mLen: nat, mOff: nat, r1Lit: nat) returns (op: seq<Byte>)
    requires Codable(mLen, mOff, r1Lit)
    ensures op == op0 + MatchCode(mLen, mOff, r1Lit)
  {
    hide M3Len, M4Len, Far;
    if mLen == 2 {
      var o := mOff - 1;
      op := op0 + [o % 4 * 4, o / 4];
    } else if mLen <= M2_MAX_LEN && mOff <= M2_MAX_OFFSET {
      var o := mOff - 1;
      op := op0 + [(mLen - 1) * 32 + o % 8 * 4, o / 8];
    } else if mLen == M2_MIN_LEN && mOff <= MX_MAX_OFFSET && r1Lit >= 4 {
      var o := mOff - 1 - M2_MAX_OFFSET;
      op := op0 + [o % 4 * 4, o / 4];
    } else if mOff <= M3_MAX_OFFSET {
      op := CodeM3(op0, mLen, mOff);
    } else {
      op := CodeM4(op0, mLen, mOff);
    }
  }

  // len_of_coded_match: -1 when the match cannot be coded after lit literals, else exactly the bytes that
  // code_match emits for it.
  method LenOfCodedMatch(mLen0: nat, mOff: nat, lit: nat) returns (n: int)
    requires mOff >= 1
    ensures n == -1 <==> !Codable(mLen0, mOff, lit)
    ensures Codable(mLen0, mOff, lit) ==> n == |MatchCode(mLen0, mOff, lit)|
  {
    hide MatchCode, ExtBytes;
    if Codable(mLen0, mOff, lit) { MatchCodeSize(mLen0, mOff, lit); }
    n := 4;
    var mLen := mLen0;
    if mLen < 2 { return -1; }
    if mLen == 2 { return if mOff <= M1_MAX_OFFSET && lit > 0 && lit < 4 then 2 else -1; }
    if mLen <= M2_MAX_LEN && mOff <= M2_MAX_OFFSET { return 2; }
    if mLen == M2_MIN_LEN && mOff <= MX_MAX_OFFSET && lit >= 4 { return 2; }
    if mOff <= M3_MAX_OFFSET {
      if mLen <= M3_MAX_LEN { return 3; }
      mLen := mLen - M3_MAX_LEN;
    } else if mOff <= M4_MAX_OFFSET {
      if mLen <= M4_MAX_LEN { return 3; }
      mLen := mLen - M4_MAX_LEN;
    } else {
      return -1;
    }
    ghost var ext := (mLen + 254) / 255;
    while mLen > 255
      invariant mLen >= 1 && n + (mLen + 254) / 255 == 4 + ext
    {
      mLen := mLen - 255;
      n := n + 1;
    }
  }
}
