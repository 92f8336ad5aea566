// lzo1x_999_compress_internal (lzo1x_9x.c), for every answer its match finder can give.
module Lzo999 {
  import opened Lz77
  import opened LzoFormat
  import opened LzoCode
  import opened LzoReach
  import opened LzoWriter
  import opened LzoCompress

  const SWD_BEST_OFF := M3_MAX_LEN + 1

  // What the window dictionary reports at one position: the longest match, and for each short length an offset or 0.
  datatype Found = Found(len: nat, off: nat, best: seq<nat>)

  // A match of len bytes at position at.
  ghost predicate Hit(input: seq<Byte>, at: nat, len: nat, off: nat)
  {
    off <= M4_MAX_OFFSET && Repeats(input, at, off, len)
  }

  ghost predicate Honest(input: seq<Byte>, at: nat, f: Found)
  {
    && |f.best| == SWD_BEST_OFF && (f.len >= 2 ==> Hit(input, at, f.len, f.off))
    && forall k | 2 <= k < SWD_BEST_OFF && f.best[k] > 0 :: Hit(input, at, k, f.best[k])
  }

  // One answer for every position; each is asked for at most once.
  ghost predicate AllHonest(input: seq<Byte>, answers: seq<Found>)
  {
    |answers| == |input| && forall at | 0 <= at < |input| :: Honest(input, at, answers[at])
  }

  // The matches the compressor codes after lit literals: a far match of three bytes must not cost its literals a head.
  ghost predicate Fits(len: nat, off: nat, lit: nat)
  {
    Codable(len, off, lit) && (len == 3 && off > MX_MAX_OFFSET ==> lit < 4)
  }

  lemma {:induction false} FitsSize(len: nat, off: nat, lit: nat)
    requires Fits(len, off, lit)
    ensures |MatchCode(len, off, lit)| <= len && (lit >= 4 ==> |MatchCode(len, off, lit)| < len)
  {
    hide MatchCode;
    MatchCodeSize(len, off, lit);
  }

  // better_match: a slightly shorter match at a much smaller offset.
  method BetterMatch(f: Found, ghost input: seq<Byte>, ghost at: nat) returns (r: Found)
    requires Honest(input, at, f)
    ensures Honest(input, at, r) && r.best == f.best && r.len <= f.len && (f.len >= 2 ==> r.len >= 2)
    ensures forall lit: nat :: Fits(f.len, f.off, lit) ==> Fits(r.len, r.off, lit)
  {
    hide Repeats;
    if f.len <= M2_MIN_LEN || f.off <= M2_MAX_OFFSET {
      return f;
    }
    var len := f.len;
    if M2_MIN_LEN + 1 <= len <= M2_MAX_LEN + 1 && f.best[len - 1] != 0 && f.best[len - 1] <= M2_MAX_OFFSET {
      return f.(len := len - 1, off := f.best[len - 1]);
    }
    if f.off > M3_MAX_OFFSET && M4_MAX_LEN + 1 <= len <= M2_MAX_LEN + 2 && f.best[len - 2] != 0 && f.best[len - 2] <= M2_MAX_OFFSET {
      return f.(len := len - 2, off := f.best[len - 2]);
    }
    if f.off > M3_MAX_OFFSET && M4_MAX_LEN + 1 <= len <= M3_MAX_LEN + 1 && f.best[len - 1] != 0 && f.best[len - 1] <= M3_MAX_OFFSET {
      return f.(len := len - 1, off := f.best[len - 1]);
    }
    r := f;
  }

  // min_gain
  function MinGain(ahead: nat, lit1: nat, lit2: nat, l1: int, l2: int, l3: int): nat
  {
    var run := if lit1 <= 3 then if lit2 <= 3 then 0 else 2
               else if lit1 <= 18 then if lit2 <= 18 then 0 else 1
               else 0;
    var gain := ahead + run + (l2 - l1) * 2 - if l3 > 0 then (ahead - l3) * 2 else 0;
    if gain < 0 then 0 else gain
  }

  class Coder {
    const input: seq<Byte>
    const answers: seq<Found>
    const maxLazy: nat
    const useBestOff: bool
    var op: seq<Byte>
    var r1Lit: nat
    var bp: nat                   // the position last searched
    var next: nat                 // where the window stands
    var found: Found
    ghost var low: int

    // The stream stands for the first n bytes.
    ghost predicate Sent(n: nat)
      reads this
    {
      n <= |input| && Written(op, input[..n], |input|, low) && Small(op, low, n) && (op == [] <==> n == 0)
    }

    ghost predicate Looked()
      reads this
    {
      && AllHonest(input, answers) && bp <= |input| && next == bp + 1
      && (bp < |input| ==> Honest(input, bp, found)) && (bp == |input| ==> found.len == 0)
    }

    constructor (input: seq<Byte>, answers: seq<Found>, maxLazy: nat, useBestOff: bool)
      ensures this.input == input && this.answers == answers && this.maxLazy == maxLazy && this.useBestOff == useBestOff
      ensures op == [] && r1Lit == 0 && next == 0 && low == 0 && Sent(0)
    {
      this.input, this.answers, this.maxLazy, this.useBestOff := input, answers, maxLazy, useBestOff;
      op, r1Lit, bp, next, low := [], 0, 0, 0, 0;
      found := Found(0, 0, []);
      NothingWritten(input);
    }

    // find_match: skip the bytes not yet searched of a match of thisLen bytes, then search.
    method FindMatch(thisLen: nat, skip: nat)
      requires AllHonest(input, answers) && (skip > 0 ==> skip <= thisLen)
      requires next + (if skip > 0 then thisLen - skip else 0) <= |input|
      modifies this`bp, this`next, this`found
      ensures Looked() && bp == old(next) + if skip > 0 then thisLen - skip else 0
    {
      if skip > 0 {
        next := next + (thisLen - skip);
      }
      if next < |input| {
        found := answers[next];
      } else {
        found := Found(0, 0, []);
      }
      bp := next;
      next := next + 1;
    }

    // code_run
    method CodeRun(lits: seq<Byte>, ghost out: seq<Byte>)
      requires Written(op, out, |input|, low) && |out| + |lits| <= |input| && (op == [] ==> lits != [])
      modifies this`op, this`r1Lit
      ensures Reaches(op, ModeAfter(|lits|), out + lits, |input|, low) && r1Lit == |lits|
      ensures |op| == |old(op)| + |lits| + if lits == [] then 0 else if old(op) == [] && |lits| <= 238 then 1
                                           else if |lits| <= 3 then 0 else |RunCode(|lits|)|
    {
      hide Reaches, Ready;
      if lits != [] {
        op := StoreRun(op, lits, out, |input|, low);
      } else {
        ReadyNow(op, out, |input|, low);
        assert out + lits == out;
      }
      r1Lit := |lits|;
    }

    // code_match, after code_run
    method Match(mLen: nat, mOff: nat, ghost pos: nat)
      requires Codable(mLen, mOff, r1Lit) && Repeats(input, pos, mOff, mLen)
      requires Reaches(op, ModeAfter(r1Lit), input[..pos], |input|, low)
      modifies this`op, this`low
      ensures op == old(op) + MatchCode(mLen, mOff, r1Lit) && Written(op, input[..pos + mLen], |input|, low)
      ensures low == LowAfter(old(low), op, pos + mLen)
    {
      hide Reaches, Ready, MatchCode;
      ghost var n := |MatchCode(mLen, mOff, r1Lit)|;
      ghost var low' := if low <= |op| + n - (pos + mLen) - 2 then low else |op| + n - (pos + mLen) - 2;
      MatchReady(op, r1Lit, input[..pos], |input|, low, mLen, mOff, low');
      RepeatCopies(input, pos, mOff, mLen);
      op := CodeMatch(op, mLen, mOff, r1Lit);
      low := low';
    }

    // Code the run input[ii..ii + lit] and the match after it.
    method Emit(ii: nat, lit: nat, mLen: nat, mOff: nat)
      requires Sent(ii) && Fits(mLen, mOff, lit) && Hit(input, ii + lit, mLen, mOff) && (ii == 0 ==> lit > 0)
      modifies this`op, this`r1Lit, this`low
      ensures Sent(ii + lit + mLen)
    {
      hide Small, Reaches, Ready, MatchCode, RunCode, Repeats;
      ghost var s, low0 := op, low;
      RepeatBounds(input, ii + lit, mOff, mLen);
      assert input[..ii] + input[ii..ii + lit] == input[..ii + lit];
      CodeRun(input[ii..ii + lit], input[..ii]);
      Match(mLen, mOff, ii + lit);
      FitsSize(mLen, mOff, lit);
      StillSmall(s, low0, ii, lit, op, mLen, low);
    }

    // A match found ahead bytes further on: done if it is better, and was taken up instead of the one at ii + lit.
    method TakeUp(ii: nat, lit: nat, mLen: nat, mOff: nat, l1: int, ahead: nat) returns (done: bool, lit': nat)
      requires Looked() && bp == ii + lit + ahead < |input| && Sent(ii) && Hit(input, ii + lit, mLen, mOff) && mLen >= 2
      requires 1 <= ahead < mLen && ahead <= 2
      modifies this`op, this`r1Lit, this`low, this`found
      ensures Looked()
      ensures done ==> lit' <= bp && Sent(bp - lit') && (lit' > 0 ==> ii + lit' == bp)
      ensures !done ==> Sent(ii)
    {
      hide Written, Small, Repeats, AllHonest, MatchCode;
      done, lit' := false, lit;
      if found.len < mLen || (found.len == mLen && found.off >= mOff) {
        return;
      }
      RepeatBounds(input, ii + lit, mOff, mLen);
      RepeatBounds(input, bp, found.off, found.len);
      if useBestOff {
        found := BetterMatch(found, input, bp);
      }
      RepeatBounds(input, bp, found.off, found.len);
      var l2 := LenOfCodedMatch(found.len, found.off, lit + ahead);
      if l2 < 0 {
        return;
      }
      var l3 := -1;
      if op != [] {
        l3 := LenOfCodedMatch(ahead, mOff, lit);
      }
      if found.len >= mLen + MinGain(ahead, lit, lit + ahead, l1, l2, l3) {
        done := true;
        if l3 > 0 {
          HitPrefix(input, ii + lit, mLen, mOff, ahead);
          Emit(ii, lit, ahead, mOff);
          lit' := 0;
        } else {
          lit' := lit + ahead;
        }
      }
    }

    // The lazy match: look for a better match up to maxAhead bytes further on.
    method TryLazy(ii: nat, lit: nat, mLen: nat, mOff: nat, l1: int, maxAhead: nat) returns (done: bool, ahead: nat, lit': nat)
      requires Looked() && bp == ii + lit < |input| && Sent(ii) && Hit(input, bp, mLen, mOff) && mLen >= 2
      requires maxAhead < mLen && maxAhead <= 2
      modifies this
      ensures Looked() && bp == ii + lit + ahead && ahead <= maxAhead
      ensures done ==> 1 <= ahead && lit' <= bp && Sent(bp - lit') && (lit' > 0 ==> ii + lit' == bp)
      ensures !done ==> Sent(ii)
    {
      hide Written, Small, Hit, Honest, AllHonest;
      done, ahead, lit' := false, 0, lit;
      while !done && ahead < maxAhead && |input| - bp > mLen
        invariant Looked() && bp == ii + lit + ahead < |input| && ahead <= maxAhead
        invariant done ==> 1 <= ahead && lit' <= bp && Sent(bp - lit') && (lit' > 0 ==> ii + lit' == bp)
        invariant !done ==> Sent(ii)
        decreases !done, maxAhead - ahead
      {
        FindMatch(1, 0);
        ahead := ahead + 1;
        done, lit' := TakeUp(ii, lit, mLen, mOff, l1, ahead);
      }
    }

    // The match at bp after lit literals, of length 0 if a literal is coded instead.
    method Accept(lit: nat) returns (mLen: nat, mOff: nat)
      requires Looked() && bp < |input|
      ensures mLen > 0 ==> Fits(mLen, mOff, lit) && Hit(input, bp, mLen, mOff) && (op == [] ==> lit > 0)
      ensures mLen > 0 ==> bp + mLen <= |input|
    {
      hide Repeats, AllHonest;
      mLen, mOff := found.len, found.off;
      if mLen < 2 || (mLen == 2 && (mOff > M1_MAX_OFFSET || lit == 0 || lit >= 4)) || (mLen == 2 && op == []) || (op == [] && lit == 0) {
        return 0, mOff;
      }
      if mLen == M2_MIN_LEN && mOff > MX_MAX_OFFSET && lit >= 4 {
        return 0, mOff;
      }
      RepeatBounds(input, bp, mOff, mLen);
      if useBestOff {
        var f := BetterMatch(found, input, bp);
        mLen, mOff := f.len, f.off;
      }
      RepeatBounds(input, bp, mOff, mLen);
    }

    // How far to look for a better match.
    method LazyBounds(mLen: nat, mOff: nat, lit: nat) returns (l1: int, maxAhead: nat)
      requires Fits(mLen, mOff, lit)
      ensures maxAhead < mLen && maxAhead <= 2
    {
      if mLen >= maxLazy {
        return 0, 0;
      }
      hide MatchCode;
      l1 := LenOfCodedMatch(mLen, mOff, lit);
      FitsSize(mLen, mOff, lit);
      maxAhead := if l1 - 1 < 2 then l1 - 1 else 2;
    }

    // One turn of the main loop.
    method Turn(ii0: nat, lit: nat) returns (ii: nat, lit': nat)
      requires Looked() && bp < |input| && lit <= bp && Sent(bp - lit) && (lit > 0 ==> ii0 + lit == bp)
      modifies this
      ensures Looked() && bp > old(bp) && lit' <= bp && Sent(bp - lit') && (lit' > 0 ==> ii + lit' == bp)
    {
      hide Written, Small, Hit, Honest, AllHonest;
      ii := if lit == 0 then bp else ii0;
      var mLen, mOff := Accept(lit);
      if mLen == 0 {
        FindMatch(1, 0);
        return ii, lit + 1;
      }
      var l1, maxAhead := LazyBounds(mLen, mOff, lit);
      var done, ahead;
      done, ahead, lit' := TryLazy(ii, lit, mLen, mOff, l1, maxAhead);
      if !done {
        Emit(ii, lit, mLen, mOff);
        FindMatch(mLen, 1 + ahead);
        lit' := 0;
      }
    }
  }

  // The low water mark after a match that ends n bytes of text.
  ghost function LowAfter(low: int, s: seq<Byte>, n: nat): int
  {
    if low <= |s| - n - 2 then low else |s| - n - 2
  }

  lemma {:induction false} HitPrefix(input: seq<Byte>, at: nat, len: nat, off: nat, k: nat)
    requires Hit(input, at, len, off) && k <= len
    ensures Hit(input, at, k, off)
  {
  }

  // lzo1x_999_compress_internal: for every input and whatever matches the finder reports, the stream decodes to the
  // input in a buffer of exactly its size, is no longer than MAX_COMPRESSED_SIZE, and decodes in place.
  method Compress999(input: seq<Byte>, answers: seq<Found>, maxLazy: nat, useBestOff: bool) returns (op: seq<Byte>)
    requires AllHonest(input, answers)
    ensures Decode(op, Start, [], |input|) == Outcome(OK, input)
    ensures 3 <= |op| <= MaxCompressedSize(|input|)
    ensures forall at: int :: at + |op| >= MaxCompressedSize(|input|) ==> Room(op, Start, [], |input|, at)
  {
    hide Decode, Room, Reaches, Ready, Honest, Small, RunCode;
    var c := new Coder(input, answers, maxLazy, useBestOff);
    var ii: nat, lit: nat, n := 0, 0, |input|;
    c.FindMatch(0, 0);
    while c.bp < n
      invariant fresh(c) && c.input == input && c.Looked() && lit <= c.bp && c.Sent(c.bp - lit) && (lit > 0 ==> ii + lit == c.bp)
      decreases n - c.bp
    {
      ii, lit := c.Turn(ii, lit);
    }
    op := c.op;
    op := StoreLast(op, input, lit, c.low);
  }
}
