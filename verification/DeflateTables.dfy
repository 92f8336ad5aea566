// Length and distance codes of section 3.2.5 of RFC 1951, and the tables that ct_init builds for them.
module DeflateTables {
  import opened Bits

  const LENGTH_CODES := 29
  const D_CODES := 30

  // extra_lbits
  function ExtraLBits(c: nat): nat
  {
    if c < 8 then 0 else if c < 12 then 1 else if c < 16 then 2 else if c < 20 then 3
    else if c < 24 then 4 else if c < 28 then 5 else 0
  }

  // extra_dbits
  function ExtraDBits(c: nat): nat
  {
    if c < 4 then 0 else if c < 6 then 1 else if c < 8 then 2 else if c < 10 then 3 else if c < 12 then 4
    else if c < 14 then 5 else if c < 16 then 6 else if c < 18 then 7 else if c < 20 then 8 else if c < 22 then 9
    else if c < 24 then 10 else if c < 26 then 11 else if c < 28 then 12 else 13
  }

  // The smallest match length of each length code 257 + c.
  function LBase(c: nat): nat
  {
    if c < 8 then 3 + c else if c < 12 then 11 + 2 * (c - 8) else if c < 16 then 19 + 4 * (c - 12)
    else if c < 20 then 35 + 8 * (c - 16) else if c < 24 then 67 + 16 * (c - 20)
    else if c < 28 then 131 + 32 * (c - 24) else 258
  }

  // The smallest distance of each distance code.
  function DBase(c: nat): nat
  {
    if c < 4 then 1 + c else if c < 6 then 5 + 2 * (c - 4) else if c < 8 then 9 + 4 * (c - 6)
    else if c < 10 then 17 + 8 * (c - 8) else if c < 12 then 33 + 16 * (c - 10) else if c < 14 then 65 + 32 * (c - 12)
    else if c < 16 then 129 + 64 * (c - 14) else if c < 18 then 257 + 128 * (c - 16)
    else if c < 20 then 513 + 256 * (c - 18) else if c < 22 then 1025 + 512 * (c - 20)
    else if c < 24 then 2049 + 1024 * (c - 22) else if c < 26 then 4097 + 2048 * (c - 24)
    else if c < 28 then 8193 + 4096 * (c - 26) else 16385 + 8192 * (c - 28)
  }

  // The tables as section 3.2.5 prints them.
  lemma {:induction false} PrintedBases()
    ensures seq(LENGTH_CODES, c requires c >= 0 => LBase(c))
            == [3, 4, 5, 6, 7, 8, 9, 10, 11, 13, 15, 17, 19, 23, 27, 31, 35, 43, 51, 59, 67, 83, 99, 115, 131, 163, 195, 227, 258]
    ensures seq(D_CODES, c requires c >= 0 => DBase(c))
            == [1, 2, 3, 4, 5, 7, 9, 13, 17, 25, 33, 49, 65, 97, 129, 193, 257, 385, 513, 769,
                1025, 1537, 2049, 3073, 4097, 6145, 8193, 12289, 16385, 24577]
  {
  }

  lemma {:induction false} PrintedExtraBits()
    ensures seq(LENGTH_CODES, c requires c >= 0 => ExtraLBits(c))
            == [0, 0, 0, 0, 0, 0, 0, 0, 1, 1, 1, 1, 2, 2, 2, 2, 3, 3, 3, 3, 4, 4, 4, 4, 5, 5, 5, 5, 0]
    ensures seq(D_CODES, c requires c >= 0 => ExtraDBits(c))
            == [0, 0, 0, 0, 1, 1, 2, 2, 3, 3, 4, 4, 5, 5, 6, 6, 7, 7, 8, 8, 9, 9, 10, 10, 11, 11, 12, 12, 13, 13]
  {
  }

  // 2^n for the numbers of extra bits that occur.
  function Span(n: nat): nat
  {
    if n == 0 then 1 else if n == 1 then 2 else if n == 2 then 4 else if n == 3 then 8 else if n == 4 then 16
    else if n == 5 then 32 else if n == 6 then 64 else if n == 7 then 128 else if n == 8 then 256 else if n == 9 then 512
    else if n == 10 then 1024 else if n == 11 then 2048 else if n == 12 then 4096 else 8192
  }

  lemma {:induction false} SpanIsPow2(n: nat)
    requires n <= 13
    ensures Span(n) == Pow2(n)
  {
    if n != 0 { SpanIsPow2(n - 1); }
  }

  // The codes partition the lengths and the distances.
  lemma {:induction false} Partition(c: nat)
    ensures c < 27 ==> LBase(c) + Span(ExtraLBits(c)) == LBase(c + 1)
    ensures c == 27 ==> LBase(c) + Span(ExtraLBits(c)) == 259
    ensures c < 29 ==> DBase(c) + Span(ExtraDBits(c)) == DBase(c + 1)
    ensures c == 29 ==> DBase(c) + Span(ExtraDBits(c)) == 32769
  {
  }

  // c is the length code of a match of lc + 3 bytes. Length 258 has a code of its own.
  ghost predicate IsLengthCode(c: nat, lc: nat)
  {
    if lc == 255 then c == 28 else c < 28 && LBase(c) <= lc + 3 < LBase(c) + Span(ExtraLBits(c))
  }

  // c is the distance code of a match at distance d + 1.
  ghost predicate IsDistCode(c: nat, d: nat)
  {
    c < D_CODES && DBase(c) <= d + 1 < DBase(c) + Span(ExtraDBits(c))
  }

  // D_CODE
  function DCode(distCode: seq<nat>, d: nat): nat
    requires |distCode| == 512 && d < 32768
  {
    if d < 256 then distCode[d] else distCode[256 + d / 128]
  }

  ghost predicate LengthTables(lengthCode: seq<nat>, baseLength: seq<nat>)
  {
    && |lengthCode| == 256 && |baseLength| == LENGTH_CODES
    && (forall lc | 0 <= lc < 256 :: IsLengthCode(lengthCode[lc], lc))
    && (forall c | 0 <= c < 28 :: baseLength[c] == LBase(c) - 3)
  }

  ghost predicate DistTables(distCode: seq<nat>, baseDist: seq<nat>)
  {
    && |distCode| == 512 && |baseDist| == D_CODES
    && (forall d | 0 <= d < 256 :: IsDistCode(distCode[d], d))
    && (forall i | 258 <= i < 512 :: IsDistBlock(distCode[i], i - 256))
    && (forall c | 0 <= c < D_CODES :: baseDist[c] == DBase(c) - 1)
  }

  // c is the distance code of all distances whose top eight bits are q.
  ghost predicate IsDistBlock(c: nat, q: nat)
  {
    16 <= c < D_CODES && DBase(c) - 1 <= 128 * q && 128 * (q + 1) <= DBase(c) - 1 + Span(ExtraDBits(c))
  }

  lemma {:induction false} DCodeRight(distCode: seq<nat>, baseDist: seq<nat>, d: nat)
    requires DistTables(distCode, baseDist) && d < 32768
    ensures IsDistCode(DCode(distCode, d), d)
  {
    if d >= 256 {
      var q := d / 128;
      assert IsDistBlock(distCode[256 + q], 256 + q - 256);
    }
  }

  // The lengths of one code.
  method FillLength(lengthCode: array<nat>, code: nat, length0: nat) returns (length: nat)
    requires lengthCode.Length == 256 && code < LENGTH_CODES - 1 && length0 == LBase(code) - 3
    requires forall lc | 0 <= lc < length0 && lc < 256 :: lengthCode[lc] < code && InLength(lengthCode[lc], lc)
    modifies lengthCode
    ensures length == (if code + 1 < 28 then LBase(code + 1) - 3 else 256) && 0 <= length <= 256
    ensures forall lc | 0 <= lc < length :: lengthCode[lc] <= code && InLength(lengthCode[lc], lc)
  {
    hide LBase, ExtraLBits, Pow2, DBase, ExtraDBits;
    length := length0;
    Partition(code);
    SpanOfLength(code);
    var n := 0;
    while n < Pow2(ExtraLBits(code))
      invariant 0 <= n <= Span(ExtraLBits(code)) && length == LBase(code) - 3 + n
      invariant forall lc | 0 <= lc < length :: lengthCode[lc] <= code && InLength(lengthCode[lc], lc)
    {
      lengthCode[length] := code;
      length := length + 1;
      n := n + 1;
    }
  }

  // The length half of ct_init's tables.
  method InitLengths(lengthCode: array<nat>, baseLength: array<nat>)
    requires lengthCode.Length == 256 && baseLength.Length == LENGTH_CODES && lengthCode != baseLength
    modifies lengthCode, baseLength
    ensures LengthTables(lengthCode[..], baseLength[..])
  {
    assert LBase(0) == 3;
    hide LBase, ExtraLBits, Pow2, DBase, ExtraDBits;
    var length := 0;
    for code := 0 to LENGTH_CODES - 1
      invariant length == (if code < 28 then LBase(code) - 3 else 256) && 0 <= length <= 256
      invariant forall lc | 0 <= lc < length :: lengthCode[lc] < code && InLength(lengthCode[lc], lc)
      invariant forall c | 0 <= c < code :: baseLength[c] == LBase(c) - 3
    {
      baseLength[code] := length;
      length := FillLength(lengthCode, code, length);
    }
    lengthCode[length - 1] := LENGTH_CODES - 1;
  }

  ghost predicate InLength(c: nat, lc: nat)
  {
    c < 28 && LBase(c) <= lc + 3 < LBase(c) + Span(ExtraLBits(c))
  }

  lemma {:induction false} SpanOfLength(c: nat)
    requires c < 28
    ensures Span(ExtraLBits(c)) == Pow2(ExtraLBits(c)) && LBase(c) >= 3 && LBase(c) + Span(ExtraLBits(c)) <= 259
  {
    SpanIsPow2(ExtraLBits(c));
  }

  // Distances 1 to 256, one entry each.
  method InitNear(distCode: array<nat>, baseDist: array<nat>)
    requires distCode.Length == 512 && baseDist.Length == D_CODES && distCode != baseDist
    modifies distCode, baseDist
    ensures forall d | 0 <= d < 256 :: IsDistCode(distCode[d], d)
    ensures forall c | 0 <= c < 16 :: baseDist[c] == DBase(c) - 1
  {
    assert DBase(0) == 1 && DBase(16) == 257;
    hide LBase, ExtraLBits, Pow2, DBase, ExtraDBits;
    var dist := 0;
    for code := 0 to 16
      invariant dist == DBase(code) - 1 && 0 <= dist <= 256
      invariant forall d | 0 <= d < dist :: IsDistCode(distCode[d], d)
      invariant forall c | 0 <= c < code :: baseDist[c] == DBase(c) - 1
    {
      baseDist[code] := dist;
      Partition(code);
      SpanOfDist(code);
      var n := 0;
      while n < Pow2(ExtraDBits(code))
        invariant 0 <= n <= Span(ExtraDBits(code)) && dist == DBase(code) - 1 + n
        invariant forall d | 0 <= d < dist :: IsDistCode(distCode[d], d)
        invariant forall c | 0 <= c <= code :: baseDist[c] == DBase(c) - 1
      {
        distCode[dist] := code;
        dist := dist + 1;
        n := n + 1;
      }
    }
  }

  lemma {:induction false} SpanOfDist(c: nat)
    requires c < D_CODES
    ensures Span(ExtraDBits(c)) == Pow2(ExtraDBits(c)) && DBase(c) >= 1 && DBase(c) + Span(ExtraDBits(c)) <= 32769
    ensures c < 16 ==> DBase(c) + Span(ExtraDBits(c)) <= 257
    ensures c >= 16 ==> ExtraDBits(c) >= 7 && Span(ExtraDBits(c)) == 128 * Span(ExtraDBits(c) - 7)
                        && Span(ExtraDBits(c) - 7) == Pow2(ExtraDBits(c) - 7) && (DBase(c) - 1) % 128 == 0
  {
    SpanIsPow2(ExtraDBits(c));
    if c >= 16 { SpanIsPow2(ExtraDBits(c) - 7); }
  }

  // Larger distances, one entry for 128 of them.
  method InitFar(distCode: array<nat>, baseDist: array<nat>)
    requires distCode.Length == 512 && baseDist.Length == D_CODES && distCode != baseDist
    requires forall d | 0 <= d < 256 :: IsDistCode(distCode[d], d)
    requires forall c | 0 <= c < 16 :: baseDist[c] == DBase(c) - 1
    modifies distCode, baseDist
    ensures DistTables(distCode[..], baseDist[..])
  {
    assert DBase(16) == 257;
    hide LBase, ExtraLBits, Pow2, DBase, ExtraDBits, IsDistCode, Span;
    var dist := 2;
    for code := 16 to D_CODES
      invariant 128 * dist == (if code < D_CODES then DBase(code) - 1 else 32768) && 2 <= dist <= 256
      invariant forall d | 0 <= d < 256 :: IsDistCode(distCode[d], d)
      invariant forall i | 258 <= i < 256 + dist :: IsDistBlock(distCode[i], i - 256)
      invariant forall c | 0 <= c < code :: baseDist[c] == DBase(c) - 1
    {
      baseDist[code] := dist * 128;
      Partition(code);
      SpanOfDist(code);
      var n := 0;
      while n < Pow2(ExtraDBits(code) - 7)
        invariant 0 <= n <= Span(ExtraDBits(code) - 7) && 128 * dist == DBase(code) - 1 + 128 * n
        invariant forall d | 0 <= d < 256 :: IsDistCode(distCode[d], d)
        invariant forall i | 258 <= i < 256 + dist :: IsDistBlock(distCode[i], i - 256)
        invariant forall c | 0 <= c <= code :: baseDist[c] == DBase(c) - 1
      {
        distCode[256 + dist] := code;
        dist := dist + 1;
        n := n + 1;
      }
    }
  }
}
