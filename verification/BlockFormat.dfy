// The three kinds of DEFLATE blocks (sections 3.2.3 to 3.2.7 of RFC 1951) and their decoder.
module BlockFormat {
  import opened Bits
  import opened BitStream
  import opened Canonical
  import opened CodeLengths
  import opened DeflateTables
  import opened TokenCode
  import opened Lz77

  const BL_CODES := 19
  const STORED_BLOCK := 0
  const STATIC_TREES := 1
  const DYN_TREES := 2

  // The order in which the lengths of the code length code are sent.
  function BlOrder(rank: nat): (s: nat)
    requires rank < BL_CODES
    ensures s < BL_CODES
  {
    [16, 17, 18, 0, 8, 7, 9, 6, 10, 5, 11, 4, 12, 3, 13, 2, 14, 1, 15][rank]
  }

  // ---- the static codes (section 3.2.6) ----

  function StaticL(): (r: seq<nat>)
    ensures |r| == 288
  {
    Copies(8, 144) + Copies(9, 112) + Copies(7, 24) + Copies(8, 8)
  }

  function StaticD(): (r: seq<nat>)
    ensures |r| == D_CODES
  {
    Copies(5, D_CODES)
  }

  lemma {:induction false} CountAppend(a: seq<nat>, b: seq<nat>, l: nat)
    ensures Count(a + b, l) == Count(a, l) + Count(b, l)
  {
    if b == [] {
      assert a + b == a;
    } else {
      CountAppend(a, b[..|b| - 1], l);
      assert (a + b)[..|a + b| - 1] == a + b[..|b| - 1];
    }
  }

  lemma {:induction false} CountCopies(v: nat, n: nat, l: nat)
    ensures Count(Copies(v, n), l) == if v == l then n else 0
  {
    if n != 0 {
      CountCopies(v, n - 1, l);
      assert Copies(v, n)[..n - 1] == Copies(v, n - 1);
    }
  }

  lemma {:induction false} StaticLCount(l: nat)
    ensures Count(StaticL(), l) == if l == 7 then 24 else if l == 8 then 152 else if l == 9 then 112 else 0
  {
    var a, b, c, d := Copies(8, 144), Copies(9, 112), Copies(7, 24), Copies(8, 8);
    hide Copies, Count;
    CountAppend(a + b + c, d, l);
    CountAppend(a + b, c, l);
    CountAppend(a, b, l);
    CountCopies(8, 144, l);
    CountCopies(9, 112, l);
    CountCopies(7, 24, l);
    CountCopies(8, 8, l);
  }

  lemma {:induction false} KraftEmpty(lens: seq<nat>, l: nat)
    requires forall b | 1 <= b <= l :: Count(lens, b) == 0
    ensures Kraft(lens, l) == 0
  {
    if l != 0 { KraftEmpty(lens, l - 1); }
  }

  lemma {:induction false} KraftStaysFit(lens: seq<nat>, max: nat, l: nat)
    requires max <= l && Kraft(lens, max) <= Pow2(max) && forall b | max < b <= l :: Count(lens, b) == 0
    ensures Kraft(lens, l) <= Pow2(l)
  {
    if max < l { KraftStaysFit(lens, max, l - 1); }
  }

  lemma {:induction false} StaticLFits()
    ensures Fits(StaticL(), 15) && forall s | 0 <= s < 288 :: StaticL()[s] > 0
  {
    var ll := StaticL();
    forall b: nat ensures Count(ll, b) == if b == 7 then 24 else if b == 8 then 152 else if b == 9 then 112 else 0 {
      StaticLCount(b);
    }
    KraftEmpty(ll, 6);
    assert Kraft(ll, 7) == 24 && Kraft(ll, 8) == 200 && Kraft(ll, 9) == 512;
    Powers();
    KraftStaysFit(ll, 9, 15);
  }

  lemma {:induction false} StaticDFits()
    ensures Fits(StaticD(), 15) && forall c | 0 <= c < D_CODES :: StaticD()[c] > 0
  {
    var dd := StaticD();
    forall b: nat ensures Count(dd, b) == if b == 5 then 30 else 0 {
      CountCopies(5, D_CODES, b);
    }
    KraftEmpty(dd, 4);
    assert Kraft(dd, 5) == 30;
    Powers();
    KraftStaysFit(dd, 5, 15);
  }

  lemma {:induction false} StaticFit()
    ensures CodesFit(StaticL(), StaticD())
    ensures forall s | 0 <= s < 288 :: StaticL()[s] > 0
    ensures forall c | 0 <= c < D_CODES :: StaticD()[c] > 0
  {
    hide StaticL, StaticD, Fits;
    StaticLFits();
    StaticDFits();
  }

  // ---- the dynamic codes (section 3.2.7) ----

  // The lengths of the code length code from rank up to n, in sending order.
  function BlLensBits(bl: seq<nat>, rank: nat, n: nat): seq<bool>
    requires rank <= n <= BL_CODES == |bl|
    decreases n - rank
  {
    if rank == n then [] else BitsOf(bl[BlOrder(rank)], 3) + BlLensBits(bl, rank + 1, n)
  }

  lemma {:induction false} BlLensSnoc(bl: seq<nat>, rank: nat, n: nat)
    requires rank <= n < BL_CODES == |bl|
    ensures BlLensBits(bl, rank, n + 1) == BlLensBits(bl, rank, n) + BitsOf(bl[BlOrder(n)], 3)
    decreases n - rank
  {
    hide BitsOf, BlOrder;
    if rank < n {
      BlLensSnoc(bl, rank + 1, n);
      var a, b, c := BitsOf(bl[BlOrder(rank)], 3), BlLensBits(bl, rank + 1, n), BitsOf(bl[BlOrder(n)], 3);
      assert a + (b + c) == (a + b) + c;
    } else {
      assert BlLensBits(bl, n + 1, n + 1) == [];
    }
  }

  // The header of a dynamic block: the counts, the code length code, and both trees in run-length code.
  function TreesBits(bl: seq<nat>, blCodes: nat, ll: seq<nat>, dd: seq<nat>): seq<bool>
    requires |bl| == BL_CODES && 4 <= blCodes <= BL_CODES && |ll| >= 257 && |dd| >= 1
  {
    BitsOf(|ll| - 257, 5) + BitsOf(|dd| - 1, 5) + BitsOf(blCodes - 4, 4) + BlLensBits(bl, 0, blCodes)
    + OpsBits(bl, Runs(ll, 0, -1)) + OpsBits(bl, Runs(dd, 0, -1))
  }

  // Read n lengths of the code length code into bl, from rank on.
  function ReadBlLens(bits: seq<bool>, rank: nat, n: nat, bl: seq<nat>): (r: Option<(seq<nat>, seq<bool>)>)
    requires rank <= n <= BL_CODES && |bl| == BL_CODES
    ensures r.Some? ==> |r.value.0| == BL_CODES && |r.value.1| <= |bits|
    decreases n - rank
  {
    if rank == n then Some((bl, bits))
    else
      match ReadBits(bits, 3)
      case None => None
      case Some((v, rest)) => ReadBlLens(rest, rank + 1, n, bl[BlOrder(rank) := v])
  }

  datatype Trees = Trees(ll: seq<nat>, dd: seq<nat>)

  function ReadTrees(bits: seq<bool>): (r: Option<(Trees, seq<bool>)>)
  {
    match ReadBits(bits, 5)
    case None => None
    case Some((hlit, b1)) =>
      match ReadBits(b1, 5)
      case None => None
      case Some((hdist, b2)) =>
        match ReadBits(b2, 4)
        case None => None
        case Some((hclen, b3)) =>
          if hclen + 4 > BL_CODES then None
          else
            match ReadBlLens(b3, 0, hclen + 4, Copies(0, BL_CODES))
            case None => None
            case Some((bl, b4)) =>
              match ReadLengths(bl, b4, [], hlit + 257 + hdist + 1)
              case None => None
              case Some((lens, b5)) =>
                if |lens| < hlit + 257 then None
                else Some((Trees(lens[..hlit + 257], lens[hlit + 257..]), b5))
  }

  // bl with the lengths from rank on, in sending order, not yet known.
  ghost predicate KnownUpTo(got: seq<nat>, bl: seq<nat>, rank: nat)
  {
    && |got| == |bl| == BL_CODES && rank <= BL_CODES
    && (forall r | 0 <= r < rank :: got[BlOrder(r)] == bl[BlOrder(r)])
    && (forall r | rank <= r < BL_CODES :: got[BlOrder(r)] == 0)
  }

  // bl_order lists every symbol once.
  lemma {:induction false} BlOrderInjective(r: nat, q: nat)
    requires r < BL_CODES && q < BL_CODES && BlOrder(r) == BlOrder(q)
    ensures r == q
  {
  }

  function RankOf(s: nat): (r: nat)
    requires s < BL_CODES
    ensures r < BL_CODES && BlOrder(r) == s
  {
    [3, 17, 15, 13, 11, 9, 7, 5, 4, 6, 8, 10, 12, 14, 16, 18, 0, 1, 2][s]
  }

  lemma {:induction false} AllKnown(got: seq<nat>, bl: seq<nat>, n: nat)
    requires KnownUpTo(got, bl, n) && forall r | n <= r < BL_CODES :: bl[BlOrder(r)] == 0
    ensures got == bl
  {
    forall s | 0 <= s < BL_CODES ensures got[s] == bl[s] {
      var r := RankOf(s);
      assert got[BlOrder(r)] == bl[BlOrder(r)];
    }
  }

  lemma {:induction false} KnowOneMore(got: seq<nat>, bl: seq<nat>, rank: nat)
    requires KnownUpTo(got, bl, rank) && rank < BL_CODES
    ensures KnownUpTo(got[BlOrder(rank) := bl[BlOrder(rank)]], bl, rank + 1)
  {
    var got' := got[BlOrder(rank) := bl[BlOrder(rank)]];
    forall r | 0 <= r < BL_CODES && r != rank ensures got'[BlOrder(r)] == got[BlOrder(r)] {
      if BlOrder(r) == BlOrder(rank) { BlOrderInjective(r, rank); }
    }
  }

  lemma {:induction false} ReadBlLensExact(bl: seq<nat>, rank: nat, n: nat, got: seq<nat>, rest: seq<bool>)
    requires rank <= n <= BL_CODES == |bl| == |got| && KnownUpTo(got, bl, rank) && forall s | 0 <= s < BL_CODES :: bl[s] < 8
    requires forall r | n <= r < BL_CODES :: bl[BlOrder(r)] == 0
    ensures ReadBlLens(BlLensBits(bl, rank, n) + rest, rank, n, got) == Some((bl, rest))
    decreases n - rank
  {
    hide BitsOf, BlOrder, ReadBits, KnownUpTo;
    if rank == n {
      AllKnown(got, bl, n);
      assert [] + rest == rest;
    } else {
      var v, b := bl[BlOrder(rank)], BlLensBits(bl, rank + 1, n);
      assert BlLensBits(bl, rank, n) + rest == BitsOf(v, 3) + (b + rest);
      Powers();
      ReadBitsExact(v, 3, b + rest);
      KnowOneMore(got, bl, rank);
      ReadBlLensExact(bl, rank + 1, n, got[BlOrder(rank) := v], rest);
    }
  }

  // The code length code fits, has a code for every symbol sent, and its lengths beyond blCodes are 0.
  ghost predicate TreesReady(bl: seq<nat>, blCodes: nat, ll: seq<nat>, dd: seq<nat>)
  {
    && |bl| == BL_CODES && 4 <= blCodes <= BL_CODES && 257 <= |ll| <= 286 && 1 <= |dd| <= D_CODES
    && (forall s | 0 <= s < BL_CODES :: bl[s] < 8)
    && (forall r | blCodes <= r < BL_CODES :: bl[BlOrder(r)] == 0)
    && Fits(bl, 15) && OpsCoded(bl, Runs(ll, 0, -1)) && OpsCoded(bl, Runs(dd, 0, -1))
  }

  lemma {:induction false} ReadBothExact(bl: seq<nat>, ll: seq<nat>, dd: seq<nat>, rest: seq<bool>)
    requires |bl| == BL_CODES && Fits(bl, 15) && OpsCoded(bl, Runs(ll, 0, -1)) && OpsCoded(bl, Runs(dd, 0, -1))
    ensures ReadLengths(bl, OpsBits(bl, Runs(ll, 0, -1)) + OpsBits(bl, Runs(dd, 0, -1)) + rest, [], |ll| + |dd|)
            == Some((ll + dd, rest))
  {
    hide Runs, OpsBits, Expand, ReadLengths, Fits;
    var a, b := Runs(ll, 0, -1), Runs(dd, 0, -1);
    RunsLossless(ll, []);
    assert [] + ll == ll;
    RunsLossless(dd, ll);
    ExpandAppend([], a, b);
    OpsBitsAppend(bl, a, b);
    ReadLengthsExact(bl, 15, a + b, rest, []);
  }

  // The decoder recovers both trees from the header.
  lemma {:induction false} ReadTreesExact(bl: seq<nat>, blCodes: nat, ll: seq<nat>, dd: seq<nat>, rest: seq<bool>)
    requires TreesReady(bl, blCodes, ll, dd)
    ensures ReadTrees(TreesBits(bl, blCodes, ll, dd) + rest) == Some((Trees(ll, dd), rest))
  {
    hide BitsOf, BlOrder, ReadBits, Runs, OpsBits, Fits, OpsCoded, BlLensBits, ReadLengths, ReadBlLens;
    Powers();
    var x1, x2, x3, x4 := BitsOf(|ll| - 257, 5), BitsOf(|dd| - 1, 5), BitsOf(blCodes - 4, 4), BlLensBits(bl, 0, blCodes);
    var x5, x6 := OpsBits(bl, Runs(ll, 0, -1)), OpsBits(bl, Runs(dd, 0, -1));
    assert TreesBits(bl, blCodes, ll, dd) + rest == x1 + (x2 + (x3 + (x4 + (x5 + x6 + rest))));
    ReadBitsExact(|ll| - 257, 5, x2 + (x3 + (x4 + (x5 + x6 + rest))));
    ReadBitsExact(|dd| - 1, 5, x3 + (x4 + (x5 + x6 + rest)));
    ReadBitsExact(blCodes - 4, 4, x4 + (x5 + x6 + rest));
    ReadBlLensExact(bl, 0, blCodes, Copies(0, BL_CODES), x5 + x6 + rest);
    ReadBothExact(bl, ll, dd, rest);
    assert (ll + dd)[..|ll|] == ll && (ll + dd)[|ll|..] == dd;
  }

  // ---- blocks ----

  datatype Payload = Compressed(tokens: seq<Token>) | Raw(bytes: seq<Byte>)

  // n bytes at the head of the stream.
  function ReadBytes(bits: seq<bool>, n: nat, out: seq<Byte>): (r: Option<(seq<Byte>, seq<bool>)>)
    ensures r.Some? ==> |r.value.1| <= |bits|
    decreases n
  {
    if n == 0 then Some((out, bits))
    else
      match ReadBits(bits, 8)
      case None => None
      case Some((v, rest)) => if v < 256 then ReadBytes(rest, n - 1, out + [v]) else None
  }

  // A stored block starts at the next byte boundary; bits is the rest of a whole number of bytes.
  function ReadStored(bits: seq<bool>): (r: Option<(seq<Byte>, seq<bool>)>)
    ensures r.Some? ==> |r.value.1| <= |bits|
  {
    match ReadBits(bits[|bits| % 8..], 16)
    case None => None
    case Some((len, b1)) =>
      match ReadBits(b1, 16)
      case None => None
      case Some((nlen, b2)) => if len + nlen != 0xffff then None else ReadBytes(b2, len, [])
  }

  function ReadBlock(bits: seq<bool>): (r: Option<(bool, Payload, seq<bool>)>)
    ensures r.Some? ==> |r.value.2| < |bits|
  {
    match ReadBits(bits, 3)
    case None => None
    case Some((head, rest)) =>
      var final := head % 2 == 1;
      if head / 2 == STORED_BLOCK then
        match ReadStored(rest)
        case None => None
        case Some((bytes, b)) => Some((final, Raw(bytes), b))
      else if head / 2 == STATIC_TREES then
        match ReadTokens(StaticL(), StaticD(), rest, [])
        case None => None
        case Some((ts, b)) => Some((final, Compressed(ts), b))
      else if head / 2 == DYN_TREES then
        match ReadTrees(rest)
        case None => None
        case Some((t, b1)) =>
          if |b1| > |rest| then None
          else
            match ReadTokens(t.ll, t.dd, b1, [])
            case None => None
            case Some((ts, b)) => Some((final, Compressed(ts), b))
      else None
  }

  // ---- what the decoder makes of a block ----

  // Whatever follows in a stream of whole bytes, the bits, put at position at, read as one block.
  ghost predicate Decodes(bits: seq<bool>, at: nat, eof: bool, payload: Payload)
  {
    forall rest: seq<bool> :: (at + |bits| + |rest|) % 8 == 0 ==> ReadBlock(bits + rest) == Some((eof, payload, rest))
  }

  function Header(kind: nat, eof: bool): (h: nat)
  {
    2 * kind + if eof then 1 else 0
  }

  lemma {:induction false} HeadRead(kind: nat, eof: bool, tail: seq<bool>)
    requires kind <= 2
    ensures ReadBits(BitsOf(Header(kind, eof), 3) + tail, 3) == Some((Header(kind, eof), tail))
    ensures Header(kind, eof) < 8 && Header(kind, eof) / 2 == kind && (Header(kind, eof) % 2 == 1) == eof
  {
    Powers();
    ReadBitsExact(Header(kind, eof), 3, tail);
  }

  lemma {:induction false} StaticDecodes(bits: seq<bool>, at: nat, eof: bool, ts: seq<Token>)
    requires forall t | t in ts :: LegalToken(t)
    requires AllCoded(StaticL(), StaticD(), ts) && HasCode(StaticL(), END_BLOCK)
    requires bits == BitsOf(Header(STATIC_TREES, eof), 3)
                     + TokensBits(StaticL(), StaticD(), ts) + Codeword(StaticL(), END_BLOCK)
    ensures Decodes(bits, at, eof, Compressed(ts))
  {
    hide StaticL, StaticD, ReadBits, ReadTokens, ReadStored, ReadTrees, TokensBits, Codeword, BitsOf, AllCoded, LegalToken, CodesFit, Header;
    StaticFit();
    var h, x, e := BitsOf(Header(STATIC_TREES, eof), 3), TokensBits(StaticL(), StaticD(), ts), Codeword(StaticL(), END_BLOCK);
    forall rest: seq<bool> ensures ReadBlock(bits + rest) == Some((eof, Compressed(ts), rest)) {
      assert bits + rest == h + (x + e + rest);
      HeadRead(STATIC_TREES, eof, x + e + rest);
      ReadTokensExact(StaticL(), StaticD(), ts, rest, []);
      assert [] + ts == ts;
    }
  }

  lemma {:induction false} DynamicReads(h: seq<bool>, eof: bool, ts: seq<Token>, bl: seq<nat>, blCodes: nat,
                                        ll: seq<nat>, dd: seq<nat>, rest: seq<bool>)
    requires TreesReady(bl, blCodes, ll, dd) && CodesFit(ll, dd) && AllCoded(ll, dd, ts)
    requires h == BitsOf(Header(DYN_TREES, eof), 3)
    ensures ReadBlock(h + (TreesBits(bl, blCodes, ll, dd) + (TokensBits(ll, dd, ts) + Codeword(ll, END_BLOCK) + rest)))
            == Some((eof, Compressed(ts), rest))
  {
    hide ReadBits, ReadTokens, ReadStored, ReadTrees, TokensBits, Codeword, BitsOf, Coded, LegalToken,
         Header, TreesBits, Fits, OpsCoded, Runs, StaticL, StaticD;
    var x := TokensBits(ll, dd, ts) + Codeword(ll, END_BLOCK) + rest;
    HeadRead(DYN_TREES, eof, TreesBits(bl, blCodes, ll, dd) + x);
    ReadTreesExact(bl, blCodes, ll, dd, x);
    ReadTokensExact(ll, dd, ts, rest, []);
    assert [] + ts == ts;
  }

  lemma {:induction false} DynamicDecodes(bits: seq<bool>, at: nat, eof: bool, ts: seq<Token>,
                                          bl: seq<nat>, blCodes: nat, ll: seq<nat>, dd: seq<nat>)
    requires TreesReady(bl, blCodes, ll, dd) && CodesFit(ll, dd) && AllCoded(ll, dd, ts)
    requires bits == BitsOf(Header(DYN_TREES, eof), 3) + TreesBits(bl, blCodes, ll, dd)
                     + TokensBits(ll, dd, ts) + Codeword(ll, END_BLOCK)
    ensures Decodes(bits, at, eof, Compressed(ts))
  {
    hide ReadBlock, TokensBits, Codeword, BitsOf, Coded, LegalToken, Header, TreesBits, Fits, OpsCoded, Runs, BlOrder;
    var h, y, x, e := BitsOf(Header(DYN_TREES, eof), 3), TreesBits(bl, blCodes, ll, dd), TokensBits(ll, dd, ts), Codeword(ll, END_BLOCK);
    forall rest: seq<bool> ensures ReadBlock(bits + rest) == Some((eof, Compressed(ts), rest)) {
      assert bits + rest == h + (y + (x + e + rest));
      DynamicReads(h, eof, ts, bl, blCodes, ll, dd, rest);
    }
  }

  // ---- stored blocks (section 3.2.4) ----

  lemma {:induction false} PackedCons(b: Byte, bytes: seq<Byte>)
    ensures Packed([b] + bytes) == BitsOf(b, 8) + Packed(bytes)
  {
    hide BitsOf;
    if bytes == [] {
      assert [b] + bytes == [] + [b];
      PackedSnoc([], b);
      assert [] + BitsOf(b, 8) == BitsOf(b, 8) + [];
    } else {
      var us, z := bytes[..|bytes| - 1], bytes[|bytes| - 1];
      PackedCons(b, us);
      assert bytes == us + [z] && [b] + bytes == ([b] + us) + [z];
      PackedSnoc([b] + us, z);
      PackedSnoc(us, z);
      var x, y, w := BitsOf(b, 8), Packed(us), BitsOf(z, 8);
      assert (x + y) + w == x + (y + w);
    }
  }

  lemma {:induction false} ReadBytesExact(bytes: seq<Byte>, rest: seq<bool>, out: seq<Byte>)
    ensures ReadBytes(Packed(bytes) + rest, |bytes|, out) == Some((out + bytes, rest))
    decreases |bytes|
  {
    hide BitsOf, ReadBits, Packed;
    if bytes == [] {
      assert Packed(bytes) == [] by { PackedLength(bytes); }
      assert [] + rest == rest && out + bytes == out;
    } else {
      var b, us := bytes[0], bytes[1..];
      assert bytes == [b] + us;
      PackedCons(b, us);
      assert Packed(bytes) + rest == BitsOf(b, 8) + (Packed(us) + rest);
      Powers();
      ReadBitsExact(b, 8, Packed(us) + rest);
      ReadBytesExact(us, rest, out + [b]);
      assert (out + [b]) + us == out + bytes;
    }
  }

  // LEN, its complement, and the bytes.
  function StoredBits(bytes: seq<Byte>): seq<bool>
    requires |bytes| <= 0xffff
  {
    BitsOf(|bytes|, 16) + BitsOf(0xffff - |bytes|, 16) + Packed(bytes)
  }

  lemma {:induction false} ReadStoredExact(pad: seq<bool>, bytes: seq<Byte>, rest: seq<bool>)
    requires |bytes| <= 0xffff && |pad| < 8 && |rest| % 8 == 0
    ensures ReadStored(pad + StoredBits(bytes) + rest) == Some((bytes, rest))
  {
    hide BitsOf, ReadBits, Packed, ReadBytes;
    var n := |bytes|;
    var x, y, z := BitsOf(n, 16), BitsOf(0xffff - n, 16), Packed(bytes);
    var bits := pad + StoredBits(bytes) + rest;
    PackedLength(bytes);
    assert |bits| == |pad| + 8 * (4 + n + |rest| / 8);
    assert |bits| % 8 == |pad|;
    assert bits[|pad|..] == x + (y + (z + rest));
    Powers();
    ReadBitsExact(n, 16, y + (z + rest));
    ReadBitsExact(0xffff - n, 16, z + rest);
    ReadBytesExact(bytes, rest, []);
    assert [] + bytes == bytes;
  }

  lemma {:induction false} WholeBytes(a: nat, n: nat, r: nat)
    requires a % 8 == 0 && (a + 8 * n + r) % 8 == 0
    ensures r % 8 == 0
  {
  }

  lemma {:induction false} StoredDecodes(bits: seq<bool>, at: nat, eof: bool, pad: seq<bool>, bytes: seq<Byte>)
    requires |bytes| <= 0xffff && |pad| < 8 && (at + 3 + |pad|) % 8 == 0
    requires bits == BitsOf(Header(STORED_BLOCK, eof), 3) + pad + StoredBits(bytes)
    ensures Decodes(bits, at, eof, Raw(bytes))
  {
    hide ReadBlock, BitsOf, Header, StoredBits;
    var h := BitsOf(Header(STORED_BLOCK, eof), 3);
    assert |bits| == 3 + |pad| + 8 * (|bytes| + 4) by { StoredLength(bytes); }
    forall rest: seq<bool> | (at + |bits| + |rest|) % 8 == 0 ensures ReadBlock(bits + rest) == Some((eof, Raw(bytes), rest)) {
      WholeBytes(at + 3 + |pad|, |bytes| + 4, |rest|);
      assert bits + rest == h + (pad + StoredBits(bytes) + rest);
      StoredReads(eof, pad, bytes, rest);
    }
  }

  lemma {:induction false} StoredReads(eof: bool, pad: seq<bool>, bytes: seq<Byte>, rest: seq<bool>)
    requires |bytes| <= 0xffff && |pad| < 8 && |rest| % 8 == 0
    ensures ReadBlock(BitsOf(Header(STORED_BLOCK, eof), 3) + (pad + StoredBits(bytes) + rest)) == Some((eof, Raw(bytes), rest))
  {
    hide ReadBits, ReadTokens, ReadStored, ReadTrees, BitsOf, Header, StoredBits;
    HeadRead(STORED_BLOCK, eof, pad + StoredBits(bytes) + rest);
    ReadStoredExact(pad, bytes, rest);
  }

  lemma {:induction false} StoredLength(bytes: seq<Byte>)
    requires |bytes| <= 0xffff
    ensures |StoredBits(bytes)| == 8 * (4 + |bytes|)
  {
    PackedLength(bytes);
  }

  // ---- the whole stream ----

  function Unpack(out: seq<Byte>, p: Payload): Option<seq<Byte>>
  {
    match p
    case Compressed(ts) => Replay(out, ts)
    case Raw(bytes) => Some(out + bytes)
  }

  // Blocks up to the final one, decoded on top of out; what follows the final block must be padding.
  function Inflate(bits: seq<bool>, out: seq<Byte>): Option<seq<Byte>>
    decreases |bits|
  {
    match ReadBlock(bits)
    case None => None
    case Some((final, p, rest)) =>
      match Unpack(out, p)
      case None => None
      case Some(o) => if !final then Inflate(rest, o) else if |rest| < 8 then Some(o) else None
  }
}
