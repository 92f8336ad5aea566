// The decoder that the compressor is proved against is the inflater of RFC 1951.
module RfcAgrees {
  import opened Bits
  import opened BitStream
  import opened Canonical
  import opened CodeLengths
  import opened DeflateTables
  import opened TokenCode
  import opened Lz77
  import opened BlockFormat
  import R = Rfc1951

  // ---- bits ----

  lemma {:induction false} BitOfByte(v: nat, n: nat, i: nat)
    requires i < n
    ensures BitsOf(v, n)[i] == (R.Shifted(v, i) % 2 == 1)
  {
    if i != 0 { BitOfByte(v / 2, n - 1, i - 1); }
  }

  // b are the bits of the bytes.
  ghost predicate Stream(bytes: seq<Byte>, b: seq<bool>)
  {
    |b| == 8 * |bytes| && forall pos | 0 <= pos < |b| :: b[pos] == R.Bit(bytes, pos)
  }

  lemma {:induction false} PackedBit(bytes: seq<Byte>, pos: nat)
    requires pos < 8 * |bytes|
    ensures |Packed(bytes)| == 8 * |bytes| && Packed(bytes)[pos] == R.Bit(bytes, pos)
  {
    PackedLength(bytes);
    var k := |bytes| - 1;
    PackedLength(bytes[..k]);
    if pos / 8 < k {
      PackedBit(bytes[..k], pos);
    } else {
      BitOfByte(bytes[k], 8, pos % 8);
    }
  }

  lemma {:induction false} PackedStream(bytes: seq<Byte>)
    ensures Stream(bytes, Packed(bytes))
  {
    PackedLength(bytes);
    forall pos | 0 <= pos < |Packed(bytes)| ensures Packed(bytes)[pos] == R.Bit(bytes, pos) {
      PackedBit(bytes, pos);
    }
  }

  // The field at pos, and the bits after it.
  lemma {:induction false} FieldAgrees(bytes: seq<Byte>, b: seq<bool>, pos: nat, n: nat)
    requires Stream(bytes, b) && pos <= |b|
    ensures var f := R.Field(bytes, pos, n);
            && (f.Some? <==> pos + n <= |b|)
            && ReadBits(b[pos..], n) == if f == None then None else Some((f.value, b[pos + n..]))
    decreases n
  {
    if n == 0 {
      assert b[pos..][..0] == [] && b[pos..][0..] == b[pos..];
    } else if pos < |b| {
      FieldAgrees(bytes, b, pos + 1, n - 1);
      if pos + n <= |b| {
        var x := b[pos..][..n];
        assert x[0] == b[pos] && x[1..] == b[pos + 1..][..n - 1];
        assert b[pos..][n..] == b[pos + n..] == b[pos + 1..][n - 1..];
      }
    }
  }

  // ---- codes ----

  lemma {:induction false} CountAgrees(lens: seq<nat>, n: nat, l: nat)
    requires n <= |lens|
    ensures R.BlCount(lens, n, l) == Count(lens[..n], l)
  {
    if n != 0 {
      CountAgrees(lens, n - 1, l);
      assert lens[..n][..n - 1] == lens[..n - 1];
    }
  }

  lemma {:induction false} NextAgrees(lens: seq<nat>, l: nat)
    requires l >= 1
    ensures R.NextCode(lens, l) == 2 * Kraft(lens, l - 1)
  {
    if l != 1 {
      NextAgrees(lens, l - 1);
      CountAgrees(lens, |lens|, l - 1);
      assert lens[..|lens|] == lens;
    }
  }

  lemma {:induction false} CodeAgrees(lens: seq<nat>, s: nat)
    requires s < |lens| && lens[s] > 0
    ensures R.CodeOf(lens, s) == Code(lens, s)
  {
    NextAgrees(lens, lens[s]);
    CountAgrees(lens, s, lens[s]);
  }

  lemma {:induction false} CodewordAgrees(bytes: seq<Byte>, b: seq<bool>, pos: nat, code: nat, n: nat)
    requires Stream(bytes, b) && pos <= |b|
    ensures R.CodeAt(bytes, pos, code, n) <==> MsbBits(code, n) <= b[pos..]
  {
    if n != 0 {
      CodewordAgrees(bytes, b, pos, code / 2, n - 1);
      var x, y := MsbBits(code, n), MsbBits(code / 2, n - 1);
      assert x == y + [code % 2 == 1];
      if pos + n <= |b| {
        assert b[pos..][..n] == b[pos..][..n - 1] + [b[pos + n - 1]];
        assert b[pos + n - 1] == R.Bit(bytes, pos + n - 1);
      }
    }
  }

  lemma {:induction false} SymbolAgrees(bytes: seq<Byte>, b: seq<bool>, pos: nat, lens: seq<nat>, s: nat)
    requires Stream(bytes, b) && pos <= |b|
    ensures R.SymbolFrom(bytes, pos, lens, s) == FindSymbol(lens, b[pos..], s)
    decreases |lens| - s
  {
    hide Stream, MsbBits, Code;
    if s < |lens| {
      SymbolAgrees(bytes, b, pos, lens, s + 1);
      if lens[s] > 0 {
        CodeAgrees(lens, s);
        CodewordAgrees(bytes, b, pos, Code(lens, s), lens[s]);
      }
    }
  }

  // A symbol at pos, and the bits after it.
  lemma {:induction false} ReadAgrees(bytes: seq<Byte>, b: seq<bool>, pos: nat, lens: seq<nat>)
    requires Stream(bytes, b) && pos <= |b|
    ensures var s := R.SymbolAt(bytes, pos, lens);
            ReadSymbol(lens, b[pos..]) == if s == None then None else Some((s.value, b[pos + lens[s.value]..]))
  {
    SymbolAgrees(bytes, b, pos, lens, 0);
    hide FindSymbol, R.SymbolFrom;
    var s := R.SymbolAt(bytes, pos, lens);
    if s.Some? { assert b[pos..][lens[s.value]..] == b[pos + lens[s.value]..]; }
  }

  // ---- lengths and distances ----

  lemma {:induction false} TablesAgree(c: nat)
    ensures c < 29 ==> R.LengthBase()[c] == LBase(c) && R.LengthExtra()[c] == ExtraLBits(c)
    ensures c < 30 ==> R.DistBase()[c] == DBase(c) && R.DistExtra()[c] == ExtraDBits(c)
  {
    PrintedBases();
    PrintedExtraBits();
    hide LBase, DBase, ExtraLBits, ExtraDBits;
    if c < 29 {
      assert seq(LENGTH_CODES, c requires c >= 0 => LBase(c))[c] == LBase(c);
      assert seq(LENGTH_CODES, c requires c >= 0 => ExtraLBits(c))[c] == ExtraLBits(c);
    }
    if c < 30 {
      assert seq(D_CODES, c requires c >= 0 => DBase(c))[c] == DBase(c);
      assert seq(D_CODES, c requires c >= 0 => ExtraDBits(c))[c] == ExtraDBits(c);
    }
  }

  // No length is above 258, and no distance above 32768.
  lemma {:induction false} FieldBound(bytes: seq<Byte>, pos: nat, n: nat)
    requires R.Field(bytes, pos, n).Some?
    ensures R.Field(bytes, pos, n).value < Pow2(n)
    decreases n
  {
    if n != 0 { FieldBound(bytes, pos + 1, n - 1); }
  }

  lemma {:induction false} InRange(c: nat, v: nat)
    ensures c < 29 && v < Pow2(ExtraLBits(c)) ==> 3 <= LBase(c) + v <= 258
    ensures c < 30 && v < Pow2(ExtraDBits(c)) ==> 1 <= DBase(c) + v <= 32768
  {
    if c < 29 {
      SpanIsPow2(ExtraLBits(c));
      LengthRange(c);
    }
    if c < 30 {
      SpanIsPow2(ExtraDBits(c));
      DistRange(c);
    }
    hide Pow2, LBase, DBase, ExtraLBits, ExtraDBits, Span;
  }

  lemma {:induction false} LengthRange(c: nat)
    requires c < 29
    ensures ExtraLBits(c) <= 13 && 3 <= LBase(c) && LBase(c) + Span(ExtraLBits(c)) <= 259
  {
  }

  lemma {:induction false} DistRange(c: nat)
    requires c < 30
    ensures ExtraDBits(c) <= 13 && 1 <= DBase(c) && DBase(c) + Span(ExtraDBits(c)) <= 32769
  {
  }

  lemma {:induction false} CopyAgrees(out: seq<Byte>, dist: nat, len: nat)
    requires 1 <= dist <= |out|
    ensures R.CopyFrom(out, dist, len) == CopyBack(out, dist, len)
    decreases len
  {
    if len != 0 {
      CopyAgrees(out + [out[|out| - dist]], dist, len - 1);
      CopyShift(out, dist, len - 1);
    }
  }

  // The first byte first, or the last byte last.
  lemma {:induction false} CopyShift(out: seq<Byte>, dist: nat, len: nat)
    requires 1 <= dist <= |out|
    ensures CopyBack(out + [out[|out| - dist]], dist, len) == CopyBack(out, dist, len + 1)
  {
    if len != 0 { CopyShift(out, dist, len - 1); }
  }

  // ---- compressed data ----

  // Tokens that cannot be replayed cannot be repaired by more tokens.
  lemma {:induction false} ReadsOn(ll: seq<nat>, dd: seq<nat>, bits: seq<bool>, ts: seq<Token>)
    ensures var r := ReadTokens(ll, dd, bits, ts); r.Some? ==> ts <= r.value.0
    decreases |bits|
  {
    var i := ReadItem(ll, dd, bits);
    if i.Some? && i.value.0.Tok? { ReadsOn(ll, dd, i.value.1, ts + [i.value.0.t]); }
  }

  lemma {:induction false} Stuck(out: seq<Byte>, ts: seq<Token>, us: seq<Token>)
    requires Replay(out, ts) == None && ts <= us
    ensures Replay(out, us) == None
    decreases |us|
  {
    if |ts| < |us| {
      Stuck(out, ts, us[..|us| - 1]);
    } else {
      assert us == ts;
    }
  }

  // r and q say the same about what the bits from some place on decode to, on top of start.
  ghost predicate SameTokens(b: seq<bool>, start: seq<Byte>, r: Option<(seq<Token>, seq<bool>)>, q: Option<R.Place>)
  {
    match q
    case None => r == None || Replay(start, r.value.0) == None
    case Some(p) => p.pos <= |b| && r.Some? && Replay(start, r.value.0) == Some(p.out) && r.value.1 == b[p.pos..]
  }

  // The distance of a match, and the bytes that it copies.
  lemma {:induction false} CopiedAgrees(bytes: seq<Byte>, b: seq<bool>, pos: nat, dd: seq<nat>, out: seq<Byte>, len: nat)
    requires Stream(bytes, b) && pos <= |b| && 3 <= len <= 258
    ensures var r, q := ReadDist(dd, len, b[pos..]), R.Copied(bytes, pos, dd, out, len);
            match q
            case None => r == None || (r.value.0.Tok? && Emit(out, r.value.0.t) == None)
            case Some(p) => p.pos <= |b| && r.Some? && r.value.1 == b[p.pos..] && r.value.0.Tok? && Emit(out, r.value.0.t) == Some(p.out)
  {
    hide Stream, ReadSymbol, ReadBits, R.SymbolAt, R.Field, LBase, DBase, ExtraLBits, ExtraDBits, R.DistBase, R.DistExtra, CopyBack, R.CopyFrom;
    assert |b| == 8 * |bytes| by { StreamSize(bytes, b); }
    ReadAgrees(bytes, b, pos, dd);
    var s := R.SymbolAt(bytes, pos, dd);
    if s.Some? && s.value < 30 {
      var c := s.value;
      TablesAgree(c);
      FieldAgrees(bytes, b, pos + dd[c], ExtraDBits(c));
      var f := R.Field(bytes, pos + dd[c], ExtraDBits(c));
      if f.Some? {
        FieldBound(bytes, pos + dd[c], ExtraDBits(c));
        InRange(c, f.value);
        if DBase(c) + f.value <= |out| { CopyAgrees(out, DBase(c) + f.value, len); }
      }
    }
  }

  lemma {:induction false} StreamSize(bytes: seq<Byte>, b: seq<bool>)
    requires Stream(bytes, b)
    ensures |b| == 8 * |bytes|
  {
  }

  lemma {:induction false} SymbolsAgree(bytes: seq<Byte>, b: seq<bool>, pos: nat, ll: seq<nat>, dd: seq<nat>, start: seq<Byte>,
                                        ts: seq<Token>, out: seq<Byte>)
    requires Stream(bytes, b) && pos <= |b| && Replay(start, ts) == Some(out)
    ensures SameTokens(b, start, ReadTokens(ll, dd, b[pos..], ts), R.Symbols(bytes, pos, ll, dd, out))
    decreases |b| - pos
  {
    hide Stream, ReadSymbol, ReadBits, R.SymbolAt, R.Field, LBase, DBase, ExtraLBits, ExtraDBits, R.LengthBase, R.LengthExtra,
         ReadDist, R.Copied, Emit, SameTokens, Replay;
    StreamSize(bytes, b);
    ReadAgrees(bytes, b, pos, ll);
    var s := R.SymbolAt(bytes, pos, ll);
    if s == None {
      NothingRead(b, start, ReadTokens(ll, dd, b[pos..], ts));
    } else {
      var p := pos + ll[s.value];
      if s.value < 256 {
        LiteralGoes(start, ts, out, s.value);
        SymbolsAgree(bytes, b, p, ll, dd, start, ts + [Literal(s.value)], out + [s.value]);
      } else if s.value == 256 {
        AllRead(b, start, ts, out, p);
      } else if s.value > 285 {
        NothingRead(b, start, ReadTokens(ll, dd, b[pos..], ts));
      } else {
        MatchAgrees(bytes, b, pos, s.value, ll, dd, start, ts, out);
      }
    }
  }

  lemma {:induction false} NothingRead(b: seq<bool>, start: seq<Byte>, r: Option<(seq<Token>, seq<bool>)>)
    requires r == None
    ensures SameTokens(b, start, r, None)
  {
  }

  lemma {:induction false} AllRead(b: seq<bool>, start: seq<Byte>, ts: seq<Token>, out: seq<Byte>, p: nat)
    requires p <= |b| && Replay(start, ts) == Some(out)
    ensures SameTokens(b, start, Some((ts, b[p..])), Some(R.Place(out, p)))
  {
  }

  lemma {:induction false} LiteralGoes(start: seq<Byte>, ts: seq<Token>, out: seq<Byte>, c: Byte)
    requires Replay(start, ts) == Some(out)
    ensures Replay(start, ts + [Literal(c)]) == Some(out + [c])
  {
    ReplaySnoc(start, ts, Literal(c));
  }

  // A length symbol s at pos, and the match that it starts.
  lemma {:induction false} MatchAgrees(bytes: seq<Byte>, b: seq<bool>, pos: nat, s: nat, ll: seq<nat>, dd: seq<nat>, start: seq<Byte>,
                                       ts: seq<Token>, out: seq<Byte>)
    requires Stream(bytes, b) && pos <= |b| && Replay(start, ts) == Some(out) && 256 < s <= 285 && R.SymbolAt(bytes, pos, ll) == Some(s)
    ensures SameTokens(b, start, ReadTokens(ll, dd, b[pos..], ts), R.Symbols(bytes, pos, ll, dd, out))
    decreases |b| - pos, 0
  {
    hide Stream, ReadSymbol, ReadBits, R.SymbolAt, R.Field, LBase, DBase, ExtraLBits, ExtraDBits, R.LengthBase, R.LengthExtra,
         ReadDist, R.Copied, Emit, SameTokens, Replay;
    StreamSize(bytes, b);
    ReadAgrees(bytes, b, pos, ll);
    var c, p := s - 257, pos + ll[s];
    TablesAgree(c);
    FieldAgrees(bytes, b, p, ExtraLBits(c));
    var f := R.Field(bytes, p, ExtraLBits(c));
    if f == None {
      NothingRead(b, start, ReadTokens(ll, dd, b[pos..], ts));
    } else {
      FieldBound(bytes, p, ExtraLBits(c));
      InRange(c, f.value);
      var p', len := p + ExtraLBits(c), LBase(c) + f.value;
      CopiedAgrees(bytes, b, p', dd, out, len);
      var r, q := ReadDist(dd, len, b[p'..]), R.Copied(bytes, p', dd, out, len);
      if r == None {
        NothingRead(b, start, ReadTokens(ll, dd, b[pos..], ts));
      } else {
        var t := r.value.0.t;
        ReplaySnoc(start, ts, t);
        if q == None {
          GivesUp(b, ll, dd, r.value.1, start, ts + [t]);
        } else {
          SymbolsAgree(bytes, b, q.value.pos, ll, dd, start, ts + [t], q.value.out);
        }
      }
    }
  }

  lemma {:induction false} GivesUp(b: seq<bool>, ll: seq<nat>, dd: seq<nat>, bits: seq<bool>, start: seq<Byte>, ts: seq<Token>)
    requires Replay(start, ts) == None
    ensures SameTokens(b, start, ReadTokens(ll, dd, bits, ts), None)
  {
    ReadsOn(ll, dd, bits, ts);
    hide ReadTokens;
    var r := ReadTokens(ll, dd, bits, ts);
    if r.Some? { Stuck(start, ts, r.value.0); }
  }

  // ---- code lengths ----

  lemma {:induction false} TimesAgree(v: nat, n: nat)
    ensures R.Times(v, n) == Copies(v, n)
  {
    if n != 0 { TimesAgree(v, n - 1); }
  }

  lemma {:induction false} OrderAgrees(k: nat)
    requires k < 19
    ensures R.Order()[k] == BlOrder(k)
  {
  }

  lemma {:induction false} CodeLengthCodeAgrees(bytes: seq<Byte>, b: seq<bool>, pos: nat, k: nat, n: nat, bl: seq<nat>)
    requires Stream(bytes, b) && pos <= |b| && k <= n <= 19 == |bl|
    ensures var q := R.CodeLengthCode(bytes, pos, k, n, bl);
            && (q.Some? ==> pos + 3 * (n - k) <= |b|)
            && ReadBlLens(b[pos..], k, n, bl) == if q == None then None else Some((q.value, b[pos + 3 * (n - k)..]))
    decreases n - k
  {
    hide Stream, ReadBits, R.Field, R.Order, BlOrder;
    if k < n {
      FieldAgrees(bytes, b, pos, 3);
      OrderAgrees(k);
      var f := R.Field(bytes, pos, 3);
      if f.Some? { CodeLengthCodeAgrees(bytes, b, pos + 3, k + 1, n, bl[BlOrder(k) := f.value]); }
    }
  }

  // One symbol of the code length code, with its repeat count, applied to the lengths so far.
  lemma {:induction false} CodeLengthsAgree(bytes: seq<Byte>, b: seq<bool>, pos: nat, bl: seq<nat>, lens: seq<nat>, total: nat)
    requires Stream(bytes, b) && pos <= |b| && |bl| == 19
    ensures var q := R.CodeLengths(bytes, pos, bl, lens, total);
            && (q.Some? ==> q.value.pos <= |b|)
            && ReadLengths(bl, b[pos..], lens, total) == if q == None then None else Some((q.value.lens, b[q.value.pos..]))
    decreases |b| - pos
  {
    hide Stream, ReadSymbol, ReadBits, R.SymbolAt, R.Field, Copies, R.Times;
    StreamSize(bytes, b);
    if |lens| < total {
      ReadAgrees(bytes, b, pos, bl);
      var s := R.SymbolAt(bytes, pos, bl);
      if s.Some? {
        var p := pos + bl[s.value];
        if s.value <= 15 {
          CodeLengthsAgree(bytes, b, p, bl, lens + [s.value], total);
        } else {
          RepeatAgrees(bytes, b, pos, s.value, bl, lens, total);
        }
      }
    }
  }

  // How often a repeat code repeats which length.
  function Repeated(s: nat, lens: seq<nat>, v: nat): seq<nat>
    requires s != 16 || lens != []
  {
    if s == 16 then Copies(lens[|lens| - 1], 3 + v) else if s == 17 then Copies(0, 3 + v) else Copies(0, 11 + v)
  }

  lemma {:induction false} RepeatAgrees(bytes: seq<Byte>, b: seq<bool>, pos: nat, s: nat, bl: seq<nat>, lens: seq<nat>, total: nat)
    requires Stream(bytes, b) && pos <= |b| && |bl| == 19 && |lens| < total && s >= 16 && R.SymbolAt(bytes, pos, bl) == Some(s)
    ensures var q := R.CodeLengths(bytes, pos, bl, lens, total);
            && (q.Some? ==> q.value.pos <= |b|)
            && ReadLengths(bl, b[pos..], lens, total) == if q == None then None else Some((q.value.lens, b[q.value.pos..]))
    decreases |b| - pos, 0
  {
    hide Stream, ReadSymbol, ReadBits, R.SymbolAt, R.Field, Copies, R.Times;
    StreamSize(bytes, b);
    ReadAgrees(bytes, b, pos, bl);
    var p, n := pos + bl[s], if s == 16 then 2 else if s == 17 then 3 else 7;
    FieldAgrees(bytes, b, p, n);
    var f := R.Field(bytes, p, n);
    if f.Some? && (s != 16 || lens != []) {
      if s == 16 { TimesAgree(lens[|lens| - 1], 3 + f.value); }
      TimesAgree(0, 3 + f.value);
      TimesAgree(0, 11 + f.value);
      CodeLengthsAgree(bytes, b, p + n, bl, lens + Repeated(s, lens, f.value), total);
    }
  }

  // ---- the three kinds of blocks ----

  lemma {:induction false} DynamicAgrees(bytes: seq<Byte>, b: seq<bool>, pos: nat, out: seq<Byte>)
    requires Stream(bytes, b) && pos <= |b|
    ensures var t, q := ReadTrees(b[pos..]), R.Dynamic(bytes, pos, out);
            && (t == None ==> q == None)
            && (t.Some? ==> |t.value.1| <= |b| - pos && SameTokens(b, out, ReadTokens(t.value.0.ll, t.value.0.dd, t.value.1, []), q))
  {
    hide Stream, ReadBits, R.Field, R.CodeLengthCode, ReadBlLens, R.CodeLengths, ReadLengths, ReadTokens, R.Symbols, SameTokens, Copies, R.Times;
    StreamSize(bytes, b);
    FieldAgrees(bytes, b, pos, 5);
    var hlit := R.Field(bytes, pos, 5);
    if hlit.Some? {
      FieldAgrees(bytes, b, pos + 5, 5);
      var hdist := R.Field(bytes, pos + 5, 5);
      if hdist.Some? {
        FieldAgrees(bytes, b, pos + 10, 4);
        var hclen := R.Field(bytes, pos + 10, 4);
        if hclen.Some? && hclen.value + 4 <= 19 {
          TimesAgree(0, 19);
          CodeLengthCodeAgrees(bytes, b, pos + 14, 0, hclen.value + 4, Copies(0, 19));
          var bl := R.CodeLengthCode(bytes, pos + 14, 0, hclen.value + 4, R.Times(0, 19));
          if bl.Some? {
            var total, p := hlit.value + 257 + (hdist.value + 1), pos + 14 + 3 * (hclen.value + 4);
            CodeLengthsAgree(bytes, b, p, bl.value, [], total);
            var l := R.CodeLengths(bytes, p, bl.value, [], total);
            if l.Some? {
              var ll, dd := l.value.lens[..hlit.value + 257], l.value.lens[hlit.value + 257..];
              NoTokens(out);
              SymbolsAgree(bytes, b, l.value.pos, ll, dd, out, [], out);
            }
          }
        }
      }
    }
  }

  lemma {:induction false} NoTokens(out: seq<Byte>)
    ensures Replay(out, []) == Some(out)
  {
  }

  lemma {:induction false} FixedAgrees(bytes: seq<Byte>, b: seq<bool>, pos: nat, out: seq<Byte>)
    requires Stream(bytes, b) && pos <= |b|
    ensures SameTokens(b, out, ReadTokens(StaticL(), StaticD(), b[pos..], []), R.Symbols(bytes, pos, R.FixedLengths(), R.FixedDistances(), out))
  {
    hide Stream, ReadTokens, R.Symbols, SameTokens;
    FixedCodes();
    NoTokens(out);
    SymbolsAgree(bytes, b, pos, StaticL(), StaticD(), out, [], out);
  }

  lemma {:induction false} FixedCodes()
    ensures StaticL() == R.FixedLengths() && StaticD() == R.FixedDistances()
  {
    var a, c, d, e := Copies(8, 144), Copies(9, 112), Copies(7, 24), Copies(8, 8);
    hide Copies;
    assert StaticL() == a + c + d + e;
    forall s | 0 <= s < 288 ensures StaticL()[s] == R.FixedLengths()[s] { }
  }

  // Byte k of the stream as a field.
  lemma {:induction false} ByteField(bytes: seq<Byte>, b: seq<bool>, k: nat)
    requires Stream(bytes, b) && k < |bytes|
    ensures 8 * k + 8 <= |b| && ReadBits(b[8 * k..], 8) == Some((bytes[k], b[8 * (k + 1)..])) && Num(b[8 * k..8 * k + 8]) == bytes[k]
  {
    ByteBits(bytes, b, k);
    StreamSize(bytes, b);
    hide Stream, BitsOf, Num, Pow2;
    Powers();
    NumBits(bytes[k], 8);
    assert b[8 * k..][..8] == b[8 * k..8 * k + 8] && b[8 * k..][8..] == b[8 * (k + 1)..];
  }

  lemma {:induction false} ByteBits(bytes: seq<Byte>, b: seq<bool>, k: nat)
    requires Stream(bytes, b) && k < |bytes|
    ensures 8 * k + 8 <= |b| && b[8 * k..8 * k + 8] == BitsOf(bytes[k], 8)
  {
    hide BitsOf;
    var x, y := b[8 * k..8 * k + 8], BitsOf(bytes[k], 8);
    forall i | 0 <= i < 8 ensures x[i] == y[i] {
      BitOfByte(bytes[k], 8, i);
      assert x[i] == b[8 * k + i] == R.Bit(bytes, 8 * k + i);
      assert (8 * k + i) / 8 == k && (8 * k + i) % 8 == i;
    }
  }

  lemma {:induction false} NumAppend(x: seq<bool>, y: seq<bool>)
    ensures Num(x + y) == Num(x) + Pow2(|x|) * Num(y)
  {
    if x == [] {
      assert x + y == y;
    } else {
      NumAppend(x[1..], y);
      assert (x + y)[1..] == x[1..] + y;
      Twice(Pow2(|x| - 1), Num(y));
    }
  }

  lemma {:induction false} Twice(p: nat, n: nat)
    ensures 2 * p * n == 2 * (p * n)
  {
  }

  // Two bytes as a field, the less significant one first.
  lemma {:induction false} WordField(bytes: seq<Byte>, b: seq<bool>, k: nat)
    requires Stream(bytes, b) && k + 2 <= |bytes|
    ensures 8 * k + 16 <= |b| && ReadBits(b[8 * k..], 16) == Some((R.Word(bytes, k), b[8 * (k + 2)..]))
  {
    ByteField(bytes, b, k);
    ByteField(bytes, b, k + 1);
    StreamSize(bytes, b);
    hide Stream, Num;
    var x, y := b[8 * k..8 * k + 8], b[8 * (k + 1)..8 * (k + 1) + 8];
    NumAppend(x, y);
    Powers();
    assert b[8 * k..][..16] == x + y && b[8 * k..][16..] == b[8 * (k + 2)..];
  }

  lemma {:induction false} BytesAgree(bytes: seq<Byte>, b: seq<bool>, k: nat, n: nat, out: seq<Byte>)
    requires Stream(bytes, b) && k <= |bytes|
    ensures 8 * k <= |b|
    ensures ReadBytes(b[8 * k..], n, out) == if k + n <= |bytes| then Some((out + bytes[k..k + n], b[8 * (k + n)..])) else None
    decreases n
  {
    StreamSize(bytes, b);
    hide Stream, ReadBits;
    if n == 0 {
      assert out + bytes[k..k] == out;
    } else if k < |bytes| {
      ByteField(bytes, b, k);
      BytesAgree(bytes, b, k + 1, n - 1, out + [bytes[k]]);
      if k + n <= |bytes| { ByteFirst(bytes, k, n, out); }
    } else {
      ShortBits(b[8 * k..], 8);
    }
  }

  lemma {:induction false} ByteFirst(bytes: seq<Byte>, k: nat, n: nat, out: seq<Byte>)
    requires 1 <= n && k + n <= |bytes|
    ensures (out + [bytes[k]]) + bytes[k + 1..k + 1 + (n - 1)] == out + bytes[k..k + n]
  {
  }

  lemma {:induction false} ShortBits(bits: seq<bool>, n: nat)
    requires |bits| < n
    ensures ReadBits(bits, n) == None
  {
  }

  // What follows the boundary.
  function LenThenBytes(rest: seq<bool>): Option<(seq<Byte>, seq<bool>)>
  {
    match ReadBits(rest, 16)
    case None => None
    case Some((len, b1)) =>
      match ReadBits(b1, 16)
      case None => None
      case Some((nlen, b2)) => if len + nlen != 0xffff then None else ReadBytes(b2, len, [])
  }

  // The same bytes, and the bits after them.
  ghost predicate SameStored(b: seq<bool>, out: seq<Byte>, r: Option<(seq<Byte>, seq<bool>)>, q: Option<R.Place>)
  {
    if q == None then r == None
    else q.value.pos <= |b| && r.Some? && q.value.out == out + r.value.0 && r.value.1 == b[q.value.pos..]
  }

  lemma {:induction false} StoredFromAgrees(bytes: seq<Byte>, b: seq<bool>, k: nat, out: seq<Byte>)
    requires Stream(bytes, b) && 8 * k <= |b|
    ensures SameStored(b, out, LenThenBytes(b[8 * k..]), R.StoredFrom(bytes, k, out))
  {
    StreamSize(bytes, b);
    hide Stream, ReadBits, ReadBytes, R.Word;
    if k + 2 > |bytes| {
      ShortBits(b[8 * k..], 16);
    } else {
      WordField(bytes, b, k);
      if k + 4 > |bytes| {
        ShortBits(b[8 * (k + 2)..], 16);
      } else {
        WordField(bytes, b, k + 2);
        StoredBytes(bytes, b, k + 4, R.Word(bytes, k), out);
      }
    }
  }

  lemma {:induction false} StoredBytes(bytes: seq<Byte>, b: seq<bool>, k: nat, len: nat, out: seq<Byte>)
    requires Stream(bytes, b) && k <= |bytes|
    ensures 8 * k <= |b|
    ensures SameStored(b, out, ReadBytes(b[8 * k..], len, []),
                       if k + len <= |bytes| then Some(R.Place(out + bytes[k..k + len], 8 * (k + len))) else None)
  {
    StreamSize(bytes, b);
    hide Stream, ReadBytes;
    BytesAgree(bytes, b, k, len, []);
    if k + len <= |bytes| { assert [] + bytes[k..k + len] == bytes[k..k + len]; }
  }

  lemma {:induction false} StoredAgrees(bytes: seq<Byte>, b: seq<bool>, pos: nat, out: seq<Byte>)
    requires Stream(bytes, b) && pos <= |b|
    ensures SameStored(b, out, ReadStored(b[pos..]), R.Stored(bytes, pos, out))
  {
    StreamSize(bytes, b);
    hide Stream, ReadBits, ReadBytes, SameStored, R.StoredFrom;
    Boundary(b, pos, |bytes|);
    StoredFromAgrees(bytes, b, (pos + 7) / 8, out);
    AfterBoundary(b[pos..]);
  }

  lemma {:induction false} AfterBoundary(bits: seq<bool>)
    ensures ReadStored(bits) == LenThenBytes(bits[|bits| % 8..])
  {
    hide ReadBits, ReadBytes;
  }

  lemma {:induction false} Boundary(b: seq<bool>, pos: nat, n: nat)
    requires |b| == 8 * n && pos <= |b|
    ensures 8 * ((pos + 7) / 8) <= |b| && b[pos..][|b[pos..]| % 8..] == b[8 * ((pos + 7) / 8)..]
  {
    var x: nat := 8 * n - pos;
    RoundedUp(pos, n - x / 8, x % 8);
    assert b[pos..][x % 8..] == b[pos + x % 8..];
  }

  lemma {:induction false} RoundedUp(pos: nat, k: int, r: nat)
    requires pos + r == 8 * k && r < 8
    ensures (pos + 7) / 8 == k
  {
  }

  // ---- whole streams ----

  // The block types of section 3.2.3: 00 stored, 01 fixed codes, 10 dynamic codes, 11 an error; the two bits are sent with the
  // less significant one first.
  lemma {:induction false} BlockTypes(f: bool, rest: seq<bool>)
    ensures ReadBlock([f, false, false] + rest) ==
            if ReadStored(rest) == None then None else Some((f, Raw(ReadStored(rest).value.0), ReadStored(rest).value.1))
    ensures var ll, dd := seq(288, s => if s < 144 then 8 else if s < 256 then 9 else if s < 280 then 7 else 8), seq(30, _ => 5);
            var r := ReadTokens(ll, dd, rest, []);
            ReadBlock([f, true, false] + rest) == if r == None then None else Some((f, Compressed(r.value.0), r.value.1))
    ensures var t := ReadTrees(rest);
            ReadBlock([f, false, true] + rest) ==
            if t == None || |t.value.1| > |rest| then None
            else
              var r := ReadTokens(t.value.0.ll, t.value.0.dd, t.value.1, []);
              if r == None then None else Some((f, Compressed(r.value.0), r.value.1))
    ensures ReadBlock([f, true, true] + rest) == None
  {
    HeadBits(f, false, false, rest);
    HeadBits(f, true, false, rest);
    HeadBits(f, false, true, rest);
    HeadBits(f, true, true, rest);
    FixedCodes();
    hide ReadBits, ReadStored, ReadTokens, ReadTrees, StaticL, StaticD;
    assert R.FixedLengths() == seq(288, s => if s < 144 then 8 else if s < 256 then 9 else if s < 280 then 7 else 8);
    assert R.FixedDistances() == seq(30, _ => 5);
  }

  lemma {:induction false} HeadBits(f: bool, x: bool, y: bool, rest: seq<bool>)
    ensures ReadBits([f, x, y] + rest, 3) == Some(((if f then 1 else 0) + (if x then 2 else 0) + (if y then 4 else 0), rest))
  {
    var bits := [f, x, y] + rest;
    assert bits[..3] == [f, x, y] && bits[3..] == rest;
    assert [f, x, y][1..] == [x, y] && [x, y][1..] == [y] && [y][1..] == [];
    assert Num([y]) == (if y then 1 else 0) + 2 * Num([]);
    assert Num([x, y]) == (if x then 1 else 0) + 2 * Num([y]);
  }

  // What a block adds to out, and where it ends: the same in both decoders.
  ghost predicate SameBlock(b: seq<bool>, out: seq<Byte>, final: bool, r: Option<(bool, Payload, seq<bool>)>, q: Option<R.Place>)
  {
    match q
    case None => r == None || Unpack(out, r.value.1) == None
    case Some(p) => p.pos <= |b| && r.Some? && r.value.0 == final && Unpack(out, r.value.1) == Some(p.out) && r.value.2 == b[p.pos..]
  }

  lemma {:induction false} TokensBlock(b: seq<bool>, out: seq<Byte>, final: bool, r: Option<(seq<Token>, seq<bool>)>, q: Option<R.Place>)
    requires SameTokens(b, out, r, q)
    ensures SameBlock(b, out, final, if r == None then None else Some((final, Compressed(r.value.0), r.value.1)), q)
  {
    hide Replay;
  }

  lemma {:induction false} BlockAgrees(bytes: seq<Byte>, b: seq<bool>, pos: nat, out: seq<Byte>)
    requires Stream(bytes, b) && pos + 3 <= |b| == 8 * |bytes|
    ensures SameBlock(b, out, R.Bit(bytes, pos), ReadBlock(b[pos..]), R.Block(bytes, pos, out))
  {
    HeadAt(bytes, b, pos);
    var f, x, y, rest := b[pos], b[pos + 1], b[pos + 2], b[pos + 3..];
    hide Stream, ReadStored, ReadTokens, ReadTrees, R.Stored, R.Symbols, R.Dynamic, R.FixedLengths, R.FixedDistances, R.Bit, ReadBlock, SameBlock;
    if !x && !y {
      StoredBlockAgrees(bytes, b, pos + 3, out, f);
    } else if x && !y {
      FixedBlockAgrees(bytes, b, pos + 3, out, f);
    } else if !x && y {
      DynamicBlockAgrees(bytes, b, pos + 3, out, f);
    } else {
      NoBlockAgrees(b, pos + 3, out, f);
    }
  }

  lemma {:induction false} StoredBlockAgrees(bytes: seq<Byte>, b: seq<bool>, pos: nat, out: seq<Byte>, f: bool)
    requires Stream(bytes, b) && pos <= |b|
    ensures SameBlock(b, out, f, ReadBlock([f, false, false] + b[pos..]), R.Stored(bytes, pos, out))
  {
    hide Stream, ReadStored, ReadTokens, ReadTrees, R.Stored, ReadBlock;
    BlockTypes(f, b[pos..]);
    StoredAgrees(bytes, b, pos, out);
  }

  lemma {:induction false} FixedBlockAgrees(bytes: seq<Byte>, b: seq<bool>, pos: nat, out: seq<Byte>, f: bool)
    requires Stream(bytes, b) && pos <= |b|
    ensures SameBlock(b, out, f, ReadBlock([f, true, false] + b[pos..]), R.Symbols(bytes, pos, R.FixedLengths(), R.FixedDistances(), out))
  {
    hide Stream, ReadStored, ReadTokens, ReadTrees, ReadBlock, StaticL, StaticD, R.Symbols, R.FixedLengths, R.FixedDistances, SameTokens, SameBlock;
    BlockTypes(f, b[pos..]);
    FixedBlock();
    FixedAgrees(bytes, b, pos, out);
    TokensBlock(b, out, f, ReadTokens(StaticL(), StaticD(), b[pos..], []), R.Symbols(bytes, pos, R.FixedLengths(), R.FixedDistances(), out));
  }

  lemma {:induction false} DynamicBlockAgrees(bytes: seq<Byte>, b: seq<bool>, pos: nat, out: seq<Byte>, f: bool)
    requires Stream(bytes, b) && pos <= |b|
    ensures SameBlock(b, out, f, ReadBlock([f, false, true] + b[pos..]), R.Dynamic(bytes, pos, out))
  {
    hide Stream, ReadStored, ReadTokens, ReadTrees, ReadBlock, R.Dynamic, SameTokens, SameBlock;
    BlockTypes(f, b[pos..]);
    DynamicAgrees(bytes, b, pos, out);
    var t := ReadTrees(b[pos..]);
    if t.Some? {
      TokensBlock(b, out, f, ReadTokens(t.value.0.ll, t.value.0.dd, t.value.1, []), R.Dynamic(bytes, pos, out));
    } else {
      NoneSame(b, out, f);
    }
  }

  lemma {:induction false} NoneSame(b: seq<bool>, out: seq<Byte>, f: bool)
    ensures SameBlock(b, out, f, None, None)
  {
  }

  lemma {:induction false} NoBlockAgrees(b: seq<bool>, pos: nat, out: seq<Byte>, f: bool)
    requires pos <= |b|
    ensures SameBlock(b, out, f, ReadBlock([f, true, true] + b[pos..]), None)
  {
    hide ReadBlock, ReadStored, ReadTokens, ReadTrees, SameBlock;
    BlockTypes(f, b[pos..]);
    NoneSame(b, out, f);
  }

  lemma {:induction false} FixedBlock()
    ensures StaticL() == seq(288, s => if s < 144 then 8 else if s < 256 then 9 else if s < 280 then 7 else 8) && StaticD() == seq(30, _ => 5)
  {
    FixedCodes();
    hide StaticL, StaticD;
    assert R.FixedLengths() == seq(288, s => if s < 144 then 8 else if s < 256 then 9 else if s < 280 then 7 else 8);
    assert R.FixedDistances() == seq(30, _ => 5);
  }

  lemma {:induction false} HeadAt(bytes: seq<Byte>, b: seq<bool>, pos: nat)
    requires Stream(bytes, b) && pos + 3 <= |b|
    ensures b[pos..] == [b[pos], b[pos + 1], b[pos + 2]] + b[pos + 3..]
    ensures |b| == 8 * |bytes| && b[pos] == R.Bit(bytes, pos) && b[pos + 1] == R.Bit(bytes, pos + 1) && b[pos + 2] == R.Bit(bytes, pos + 2)
  {
  }

  // The decoder of blocks of bits is the inflater of RFC 1951.
  lemma {:induction false} InflatedAgrees(bytes: seq<Byte>, b: seq<bool>, pos: nat, out: seq<Byte>)
    requires Stream(bytes, b) && pos <= |b|
    ensures Inflate(b[pos..], out) == R.Inflated(bytes, pos, out)
    decreases |b| - pos
  {
    hide Stream, ReadBlock, R.Block, R.Bit, Unpack;
    StreamSize(bytes, b);
    if pos + 3 > |b| {
      NoBlock(b[pos..]);
    } else {
      BlockAgrees(bytes, b, pos, out);
      var q := R.Block(bytes, pos, out);
      if q.Some? && !R.Bit(bytes, pos) { InflatedAgrees(bytes, b, q.value.pos, q.value.out); }
    }
  }

  lemma {:induction false} NoBlock(bits: seq<bool>)
    requires |bits| < 3
    ensures ReadBlock(bits) == None
  {
  }

  // For every byte string.
  lemma {:induction false} InflateAgrees(bytes: seq<Byte>)
    ensures Inflate(Packed(bytes), []) == R.InflateBytes(bytes)
  {
    hide Inflate, R.Inflated, Stream;
    PackedStream(bytes);
    InflatedAgrees(bytes, Packed(bytes), 0, []);
    assert Packed(bytes)[0..] == Packed(bytes);
  }
}
