// The bits of a block of tokens and the decoder of section 3.2.3 of RFC 1951.
module TokenCode {
  import opened Bits
  import opened BitStream
  import opened Canonical
  import opened CodeLengths
  import opened DeflateTables
  import opened Lz77

  const LITERALS := 256
  const END_BLOCK := 256
  const L_CODES := 286

  // The length code of a match of lc + 3 bytes, and the distance code of a match at distance d + 1.
  function LengthCodeFrom(lc: nat, c: nat): (r: nat)
    requires c < 28 && lc < 255 && LBase(c) <= lc + 3
    ensures IsLengthCode(r, lc)
    decreases 28 - c
  {
    Partition(c);
    if lc + 3 < LBase(c) + Span(ExtraLBits(c)) then c else LengthCodeFrom(lc, c + 1)
  }

  function LengthCode(lc: nat): (c: nat)
    requires lc < 256
    ensures IsLengthCode(c, lc)
  {
    if lc == 255 then 28 else LengthCodeFrom(lc, 0)
  }

  function DistCodeFrom(d: nat, c: nat): (r: nat)
    requires c < D_CODES && d < 32768 && DBase(c) <= d + 1
    ensures IsDistCode(r, d)
    decreases D_CODES - c
  {
    Partition(c);
    if d + 1 < DBase(c) + Span(ExtraDBits(c)) then c else DistCodeFrom(d, c + 1)
  }

  function DistCode(d: nat): (c: nat)
    requires d < 32768
    ensures IsDistCode(c, d)
  {
    DistCodeFrom(d, 0)
  }

  lemma {:induction false} LBaseMono(c: nat, c': nat)
    requires c < c' < 28
    ensures LBase(c) + Span(ExtraLBits(c)) <= LBase(c')
    decreases c' - c
  {
    Partition(c);
    if c + 1 < c' { LBaseMono(c + 1, c'); }
  }

  lemma {:induction false} DBaseMono(c: nat, c': nat)
    requires c < c' < D_CODES
    ensures DBase(c) + Span(ExtraDBits(c)) <= DBase(c')
    decreases c' - c
  {
    Partition(c);
    if c + 1 < c' { DBaseMono(c + 1, c'); }
  }

  lemma {:induction false} CodesUnique(c: nat, c': nat)
    ensures forall lc | 0 <= lc < 256 && IsLengthCode(c, lc) && IsLengthCode(c', lc) :: c == c'
    ensures forall d | 0 <= d < 32768 && IsDistCode(c, d) && IsDistCode(c', d) :: c == c'
  {
    if c < c' < 28 { LBaseMono(c, c'); }
    if c' < c < 28 { LBaseMono(c', c); }
    if c < c' < D_CODES { DBaseMono(c, c'); }
    if c' < c < D_CODES { DBaseMono(c', c); }
  }

  // ---- bits ----

  ghost predicate LegalToken(t: Token)
  {
    t.Match? ==> MIN_MATCH <= t.len <= MAX_MATCH && 1 <= t.dist <= 32768
  }

  // A symbol without a code takes no bits.
  function Send(lens: seq<nat>, s: nat): seq<bool>
  {
    if s < |lens| && lens[s] > 0 then Codeword(lens, s) else []
  }

  // The length code with its extra bits, and the distance code with its extra bits.
  function LengthBits(ll: seq<nat>, lc: nat): seq<bool>
    requires lc < 256
  {
    var c := LengthCode(lc);
    Send(ll, c + LITERALS + 1) + BitsOf(if LBase(c) <= lc + 3 then lc + 3 - LBase(c) else 0, ExtraLBits(c))
  }

  function DistBits(dd: seq<nat>, d: nat): seq<bool>
    requires d < 32768
  {
    var c := DistCode(d);
    Send(dd, c) + BitsOf(d + 1 - DBase(c), ExtraDBits(c))
  }

  function TokenBits(ll: seq<nat>, dd: seq<nat>, t: Token): seq<bool>
    requires LegalToken(t)
  {
    match t
    case Literal(b) => Send(ll, b)
    case Match(dist, len) => LengthBits(ll, len - MIN_MATCH) + DistBits(dd, dist - 1)
  }

  function TokensBits(ll: seq<nat>, dd: seq<nat>, ts: seq<Token>): seq<bool>
    requires forall t | t in ts :: LegalToken(t)
  {
    if ts == [] then [] else
    assert forall t | t in ts[..|ts| - 1] :: t in ts;
    assert ts[|ts| - 1] in ts;
    TokensBits(ll, dd, ts[..|ts| - 1]) + TokenBits(ll, dd, ts[|ts| - 1])
  }

  // ---- the decoder ----

  datatype Item = Tok(t: Token) | End

  function ReadDist(dd: seq<nat>, len: nat, bits: seq<bool>): (r: Option<(Item, seq<bool>)>)
    ensures r.Some? ==> |r.value.1| < |bits|
  {
    match ReadSymbol(dd, bits)
    case None => None
    case Some((c, rest)) =>
      if c >= D_CODES then None
      else
        match ReadBits(rest, ExtraDBits(c))
        case None => None
        case Some((v, rest')) => Some((Tok(Match(DBase(c) + v, len)), rest'))
  }

  function ReadItem(ll: seq<nat>, dd: seq<nat>, bits: seq<bool>): (r: Option<(Item, seq<bool>)>)
    ensures r.Some? ==> |r.value.1| < |bits|
  {
    match ReadSymbol(ll, bits)
    case None => None
    case Some((s, rest)) =>
      if s < LITERALS then Some((Tok(Literal(s)), rest))
      else if s == END_BLOCK then Some((End, rest))
      else if s >= L_CODES then None
      else
        var c := s - LITERALS - 1;
        match ReadBits(rest, ExtraLBits(c))
        case None => None
        case Some((v, rest')) => ReadDist(dd, LBase(c) + v, rest')
  }

  // Tokens up to the end-of-block symbol, after the tokens ts.
  function ReadTokens(ll: seq<nat>, dd: seq<nat>, bits: seq<bool>, ts: seq<Token>): (r: Option<(seq<Token>, seq<bool>)>)
    ensures r.Some? ==> |r.value.1| < |bits|
    decreases |bits|
  {
    match ReadItem(ll, dd, bits)
    case None => None
    case Some((End, rest)) => Some((ts, rest))
    case Some((Tok(t), rest)) => ReadTokens(ll, dd, rest, ts + [t])
  }

  // ---- round trip ----

  // Both codes fit together, and all symbols of t have codes.
  ghost predicate Coded(ll: seq<nat>, dd: seq<nat>, t: Token)
    requires LegalToken(t)
  {
    match t
    case Literal(b) => HasCode(ll, b)
    case Match(dist, len) => HasCode(ll, LengthCode(len - MIN_MATCH) + LITERALS + 1) && HasCode(dd, DistCode(dist - 1))
  }

  predicate HasCode(lens: seq<nat>, s: nat)
  {
    s < |lens| && lens[s] > 0
  }

  ghost predicate CodesFit(ll: seq<nat>, dd: seq<nat>)
  {
    Fits(ll, 15) && Fits(dd, 15) && |ll| <= 288 && |dd| <= D_CODES && HasCode(ll, END_BLOCK)
  }

  lemma {:induction false} LengthField(lc: nat)
    requires lc < 256
    ensures var c := LengthCode(lc);
            c < LENGTH_CODES && LBase(c) <= lc + 3 && lc + 3 - LBase(c) < Pow2(ExtraLBits(c))
  {
    var c := LengthCode(lc);
    SpanIsPow2(ExtraLBits(c));
  }

  lemma {:induction false} DistField(d: nat)
    requires d < 32768
    ensures var c := DistCode(d);
            c < D_CODES && DBase(c) <= d + 1 && d + 1 - DBase(c) < Pow2(ExtraDBits(c))
  {
    var c := DistCode(d);
    SpanIsPow2(ExtraDBits(c));
  }

  lemma {:induction false} ReadDistExact(dd: seq<nat>, len: nat, d: nat, rest: seq<bool>)
    requires Fits(dd, 15) && |dd| <= D_CODES && d < 32768 && HasCode(dd, DistCode(d))
    ensures ReadDist(dd, len, DistBits(dd, d) + rest) == Some((Tok(Match(d + 1, len)), rest))
  {
    hide Codeword, ReadSymbol, BitsOf, DBase, ExtraDBits, Fits, ReadBits, IsDistCode, Pow2, DistCode;
    DistField(d);
    var c := DistCode(d);
    var x := BitsOf(d + 1 - DBase(c), ExtraDBits(c));
    assert DistBits(dd, d) + rest == Codeword(dd, c) + (x + rest);
    ReadSymbolExact(dd, 15, c, x + rest);
    ReadBitsExact(d + 1 - DBase(c), ExtraDBits(c), rest);
  }

  lemma {:induction false} ReadMatchExact(ll: seq<nat>, dd: seq<nat>, dist: nat, len: nat, rest: seq<bool>)
    requires CodesFit(ll, dd) && LegalToken(Match(dist, len)) && Coded(ll, dd, Match(dist, len))
    ensures ReadItem(ll, dd, TokenBits(ll, dd, Match(dist, len)) + rest) == Some((Tok(Match(dist, len)), rest))
  {
    hide Codeword, ReadSymbol, BitsOf, LBase, ExtraLBits, Fits, ReadBits, IsLengthCode, IsDistCode, Pow2, LengthCode,
         DistCode, ReadDist, DistBits;
    var lc := len - MIN_MATCH;
    LengthField(lc);
    var c := LengthCode(lc);
    var x, y := BitsOf(lc + 3 - LBase(c), ExtraLBits(c)), DistBits(dd, dist - 1);
    assert TokenBits(ll, dd, Match(dist, len)) + rest == Codeword(ll, c + LITERALS + 1) + (x + (y + rest));
    ReadSymbolExact(ll, 15, c + LITERALS + 1, x + (y + rest));
    ReadBitsExact(lc + 3 - LBase(c), ExtraLBits(c), y + rest);
    ReadDistExact(dd, len, dist - 1, rest);
  }

  lemma {:induction false} ReadItemExact(ll: seq<nat>, dd: seq<nat>, t: Token, rest: seq<bool>)
    requires CodesFit(ll, dd) && LegalToken(t) && Coded(ll, dd, t)
    ensures ReadItem(ll, dd, TokenBits(ll, dd, t) + rest) == Some((Tok(t), rest))
  {
    match t
    case Literal(b) =>
      hide Codeword, ReadSymbol, Fits;
      ReadSymbolExact(ll, 15, b, rest);
    case Match(dist, len) =>
      ReadMatchExact(ll, dd, dist, len, rest);
  }

  ghost predicate AllCoded(ll: seq<nat>, dd: seq<nat>, ts: seq<Token>)
  {
    forall t | t in ts :: LegalToken(t) && Coded(ll, dd, t)
  }

  lemma {:induction false} TokensBitsSnoc(ll: seq<nat>, dd: seq<nat>, ts: seq<Token>, t: Token)
    requires (forall u | u in ts :: LegalToken(u)) && LegalToken(t)
    ensures TokensBits(ll, dd, ts + [t]) == TokensBits(ll, dd, ts) + TokenBits(ll, dd, t)
  {
    assert (ts + [t])[..|ts|] == ts;
  }

  ghost predicate AllLegal(ts: seq<Token>)
  {
    forall u | u in ts :: LegalToken(u)
  }

  lemma {:induction false} ConsSnoc(ll: seq<nat>, dd: seq<nat>, t: Token, us: seq<Token>, z: Token)
    requires AllLegal(us) && LegalToken(z) && LegalToken(t) && AllLegal([t] + us)
    requires TokensBits(ll, dd, [t] + us) == TokenBits(ll, dd, t) + TokensBits(ll, dd, us)
    ensures AllLegal([t] + (us + [z])) && AllLegal(us + [z])
    ensures TokensBits(ll, dd, [t] + (us + [z])) == TokenBits(ll, dd, t) + TokensBits(ll, dd, us + [z])
  {
    hide TokenBits, LegalToken, TokensBits;
    assert [t] + (us + [z]) == ([t] + us) + [z];
    TokensBitsSnoc(ll, dd, [t] + us, z);
    TokensBitsSnoc(ll, dd, us, z);
    var a, b, c := TokenBits(ll, dd, t), TokensBits(ll, dd, us), TokenBits(ll, dd, z);
    assert (a + b) + c == a + (b + c);
  }

  lemma {:induction false} NoTokenBits(ll: seq<nat>, dd: seq<nat>)
    ensures TokensBits(ll, dd, []) == []
  {
  }

  lemma {:induction false} OneToken(ll: seq<nat>, dd: seq<nat>, t: Token)
    requires LegalToken(t)
    ensures AllLegal([t]) && TokensBits(ll, dd, [t]) == TokenBits(ll, dd, t) + TokensBits(ll, dd, [])
  {
    hide TokenBits, TokensBits, LegalToken;
    NoTokenBits(ll, dd);
    assert [t] == [] + [t];
    TokensBitsSnoc(ll, dd, [], t);
    assert TokenBits(ll, dd, t) + [] == [] + TokenBits(ll, dd, t);
  }

  lemma {:induction false} TokensBitsCons(ll: seq<nat>, dd: seq<nat>, t: Token, ts: seq<Token>)
    requires AllLegal(ts) && LegalToken(t)
    ensures AllLegal([t] + ts) && TokensBits(ll, dd, [t] + ts) == TokenBits(ll, dd, t) + TokensBits(ll, dd, ts)
  {
    hide TokenBits, LegalToken, TokensBits;
    if ts == [] {
      OneToken(ll, dd, t);
      assert [t] + ts == [t];
    } else {
      var us, z := ts[..|ts| - 1], ts[|ts| - 1];
      assert ts == us + [z] && z in ts && forall u | u in us :: u in ts;
      TokensBitsCons(ll, dd, t, us);
      ConsSnoc(ll, dd, t, us, z);
    }
  }

  // The decoder reads back the tokens of a block, and stops after its end-of-block symbol.
  lemma {:induction false} ReadTokensExact(ll: seq<nat>, dd: seq<nat>, ts: seq<Token>, rest: seq<bool>, pre: seq<Token>)
    requires CodesFit(ll, dd) && AllCoded(ll, dd, ts)
    ensures ReadTokens(ll, dd, TokensBits(ll, dd, ts) + Codeword(ll, END_BLOCK) + rest, pre) == Some((pre + ts, rest))
    decreases |ts|
  {
    hide TokenBits, Codeword, ReadItem, Fits, Coded, LegalToken;
    var e := Codeword(ll, END_BLOCK);
    if ts == [] {
      assert [] + e + rest == e + rest && pre + [] == pre;
      ReadEndExact(ll, dd, rest);
    } else {
      var t, us := ts[0], ts[1..];
      assert ts == [t] + us && t in ts && forall u | u in us :: u in ts;
      TokensBitsCons(ll, dd, t, us);
      var a, b := TokenBits(ll, dd, t), TokensBits(ll, dd, us);
      assert (a + b) + e + rest == a + (b + e + rest);
      ReadItemExact(ll, dd, t, b + e + rest);
      ReadTokensExact(ll, dd, us, rest, pre + [t]);
      assert (pre + [t]) + us == pre + ts;
    }
  }

  lemma {:induction false} ReadEndExact(ll: seq<nat>, dd: seq<nat>, rest: seq<bool>)
    requires CodesFit(ll, dd)
    ensures ReadItem(ll, dd, Codeword(ll, END_BLOCK) + rest) == Some((End, rest))
  {
    hide Codeword, ReadSymbol, Fits;
    ReadSymbolExact(ll, 15, END_BLOCK, rest);
  }
}
