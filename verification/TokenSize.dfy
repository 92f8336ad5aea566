// Symbol frequencies of a block, and the number of bits the block takes.
module TokenSize {
  import opened BitStream
  import opened DeflateTables
  import opened TokenCode
  import opened Lz77
  import opened BitLengths

  // The literal or length symbol of a token.
  function LSymbol(t: Token): (s: nat)
    requires LegalToken(t)
    ensures s < L_CODES
  {
    match t
    case Literal(b) => b
    case Match(_, len) => LengthCode(len - MIN_MATCH) + LITERALS + 1
  }

  function Bump(f: seq<nat>, s: nat): seq<nat>
    requires s < |f|
  {
    f[s := f[s] + 1]
  }

  // Frequencies of a block without tokens: just the end-of-block symbol (init_block).
  function NoLFreqs(): (f: seq<nat>)
    ensures |f| == L_CODES
  {
    seq(L_CODES, s => if s == END_BLOCK then 1 else 0)
  }

  function NoDFreqs(): (f: seq<nat>)
    ensures |f| == D_CODES
  {
    seq(D_CODES, _ => 0)
  }

  function LFreqs(ts: seq<Token>): (f: seq<nat>)
    requires forall t | t in ts :: LegalToken(t)
    ensures |f| == L_CODES
  {
    if ts == [] then NoLFreqs()
    else
      assert forall t | t in ts[..|ts| - 1] :: t in ts;
      assert ts[|ts| - 1] in ts;
      Bump(LFreqs(ts[..|ts| - 1]), LSymbol(ts[|ts| - 1]))
  }

  function DFreqs(ts: seq<Token>): (f: seq<nat>)
    requires forall t | t in ts :: LegalToken(t)
    ensures |f| == D_CODES
  {
    if ts == [] then NoDFreqs()
    else
      assert forall t | t in ts[..|ts| - 1] :: t in ts;
      assert ts[|ts| - 1] in ts;
      var t, f := ts[|ts| - 1], DFreqs(ts[..|ts| - 1]);
      assert LegalToken(t);
      if t.Match? then Bump(f, DistCode(t.dist - 1)) else f
  }

  // Extra bits per symbol.
  function LExtraOf(s: nat): nat
  {
    if s > LITERALS then ExtraLBits(s - LITERALS - 1) else 0
  }

  function LExtra(): (x: seq<nat>)
    ensures |x| == L_CODES && forall s | 0 <= s < L_CODES :: x[s] == LExtraOf(s)
  {
    seq(L_CODES, s requires s >= 0 => LExtraOf(s))
  }

  function DExtra(): (x: seq<nat>)
    ensures |x| == D_CODES && forall c | 0 <= c < D_CODES :: x[c] == ExtraDBits(c)
  {
    seq(D_CODES, c requires c >= 0 => ExtraDBits(c))
  }

  lemma {:induction false} CostBump(f: seq<nat>, s: nat, lens: seq<nat>, extra: seq<nat>, n: nat)
    requires s < |f| && n <= |f| && n <= |lens| && n <= |extra|
    ensures Cost(Bump(f, s), lens, extra, n) == Cost(f, lens, extra, n) + if s < n then lens[s] + extra[s] else 0
  {
    if n != 0 { CostBump(f, s, lens, extra, n - 1); }
    if s == n - 1 {
      assert (f[s] + 1) * (lens[s] + extra[s]) == f[s] * (lens[s] + extra[s]) + (lens[s] + extra[s]);
    }
  }

  // full is lens, or the head of it followed by zeros.
  ghost predicate Extends(full: seq<nat>, lens: seq<nat>)
  {
    forall s | 0 <= s < |full| :: full[s] == if s < |lens| then lens[s] else 0
  }

  lemma {:induction false} SendSize(full: seq<nat>, lens: seq<nat>, s: nat)
    requires Extends(full, lens) && s < |full|
    ensures |Send(lens, s)| == full[s]
  {
  }

  lemma {:induction false} TokenSize(fl: seq<nat>, fd: seq<nat>, ll: seq<nat>, dd: seq<nat>, t: Token)
    requires LegalToken(t) && |fl| == L_CODES && |fd| == D_CODES && Extends(fl, ll) && Extends(fd, dd)
    ensures |TokenBits(ll, dd, t)| == fl[LSymbol(t)] + LExtra()[LSymbol(t)]
            + if t.Match? then fd[DistCode(t.dist - 1)] + DExtra()[DistCode(t.dist - 1)] else 0
  {
    hide Send, Extends, LengthCode, DistCode, BitsOf, ExtraLBits, ExtraDBits;
    match t
    case Literal(b) => SendSize(fl, ll, b);
    case Match(dist, len) =>
      SendSize(fl, ll, LSymbol(t));
      SendSize(fd, dd, DistCode(dist - 1));
  }

  // The bits of the tokens are what the frequencies cost.
  lemma {:induction false} TokensSize(fl: seq<nat>, fd: seq<nat>, ll: seq<nat>, dd: seq<nat>, ts: seq<Token>)
    requires (forall t | t in ts :: LegalToken(t)) && |fl| == L_CODES && |fd| == D_CODES && Extends(fl, ll) && Extends(fd, dd)
    ensures |TokensBits(ll, dd, ts)| + fl[END_BLOCK]
            == Cost(LFreqs(ts), fl, LExtra(), L_CODES) + Cost(DFreqs(ts), fd, DExtra(), D_CODES)
  {
    hide TokenBits, LSymbol, DistCode, Extends, Cost, LExtra, DExtra;
    if ts == [] {
      NoCost(fl, fd);
    } else {
      var us, t := ts[..|ts| - 1], ts[|ts| - 1];
      assert t in ts && forall u | u in us :: u in ts;
      TokensSize(fl, fd, ll, dd, us);
      TokenSize(fl, fd, ll, dd, t);
      CostBump(LFreqs(us), LSymbol(t), fl, LExtra(), L_CODES);
      if t.Match? { CostBump(DFreqs(us), DistCode(t.dist - 1), fd, DExtra(), D_CODES); }
    }
  }

  lemma {:induction false} NoCost(fl: seq<nat>, fd: seq<nat>)
    requires |fl| == L_CODES && |fd| == D_CODES
    ensures Cost(NoLFreqs(), fl, LExtra(), L_CODES) == fl[END_BLOCK]
    ensures Cost(NoDFreqs(), fd, DExtra(), D_CODES) == 0
  {
    var z := seq(L_CODES, _ => 0);
    CostZero(z, fl, LExtra(), L_CODES);
    CostBump(z, END_BLOCK, fl, LExtra(), L_CODES);
    assert NoLFreqs() == Bump(z, END_BLOCK);
    CostZero(NoDFreqs(), fd, DExtra(), D_CODES);
  }

  lemma {:induction false} CostZero(f: seq<nat>, lens: seq<nat>, extra: seq<nat>, n: nat)
    requires n <= |f| && n <= |lens| && n <= |extra| && forall s | 0 <= s < n :: f[s] == 0
    ensures Cost(f, lens, extra, n) == 0
  {
    if n != 0 { CostZero(f, lens, extra, n - 1); }
  }

  lemma {:induction false} BumpGrows(f: seq<nat>, s: nat, x: nat)
    requires s < |f| && x < |f|
    ensures Bump(f, s)[x] >= f[x] && Bump(f, s)[s] > 0
  {
  }

  lemma {:induction false} CountedAt(ts: seq<Token>, i: nat)
    requires (forall u | u in ts :: LegalToken(u)) && i < |ts|
    ensures LegalToken(ts[i]) && LFreqs(ts)[LSymbol(ts[i])] > 0
    ensures ts[i].Match? ==> DFreqs(ts)[DistCode(ts[i].dist - 1)] > 0
  {
    hide LSymbol, DistCode, LFreqs, DFreqs, Bump;
    var k := |ts| - 1;
    FreqsStep(ts);
    var us, z := ts[..k], ts[k];
    if i < k { CountedAt(us, i); }
    var t := ts[i];
    BumpGrows(LFreqs(us), LSymbol(z), LSymbol(t));
    if t.Match? && z.Match? { BumpGrows(DFreqs(us), DistCode(z.dist - 1), DistCode(t.dist - 1)); }
  }

  // Every symbol of the block has a frequency.
  lemma {:induction false} TokensCounted(ts: seq<Token>, t: Token)
    requires (forall u | u in ts :: LegalToken(u)) && t in ts
    ensures LFreqs(ts)[LSymbol(t)] > 0 && (t.Match? ==> DFreqs(ts)[DistCode(t.dist - 1)] > 0)
  {
    hide LSymbol, DistCode, LFreqs, DFreqs;
    var i :| 0 <= i < |ts| && ts[i] == t;
    CountedAt(ts, i);
  }

  // The last token's symbols are counted once more, the others as before.
  lemma {:induction false} FreqsStep(ts: seq<Token>)
    requires (forall u | u in ts :: LegalToken(u)) && ts != []
    ensures var us, z := ts[..|ts| - 1], ts[|ts| - 1];
            && (forall u | u in us :: LegalToken(u)) && LegalToken(z)
            && LFreqs(ts) == Bump(LFreqs(us), LSymbol(z))
            && DFreqs(ts) == if z.Match? then Bump(DFreqs(us), DistCode(z.dist - 1)) else DFreqs(us)
  {
    hide LSymbol, DistCode;
    assert ts[|ts| - 1] in ts && forall u | u in ts[..|ts| - 1] :: u in ts;
  }

  lemma {:induction false} EndCounted(ts: seq<Token>)
    requires forall u | u in ts :: LegalToken(u)
    ensures LFreqs(ts)[END_BLOCK] > 0
  {
    hide LSymbol;
    if ts != [] {
      assert forall u | u in ts[..|ts| - 1] :: u in ts;
      assert ts[|ts| - 1] in ts;
      EndCounted(ts[..|ts| - 1]);
    }
  }
}
