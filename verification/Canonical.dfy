// Canonical Huffman codes (section 3.2.2 of RFC 1951) and their decoder.
module Canonical {
  import opened Bits
  import opened BitStream
  import opened Lz77

  // How many symbols have code length l.
  function Count(lens: seq<nat>, l: nat): nat
  {
    if lens == [] then 0
    else Count(lens[..|lens| - 1], l) + if lens[|lens| - 1] == l then 1 else 0
  }

  // The Kraft sum of the codes of length 1..l, in units of 2^-l.
  function Kraft(lens: seq<nat>, l: nat): nat
  {
    if l == 0 then 0 else 2 * Kraft(lens, l - 1) + Count(lens, l)
  }

  // The code of symbol n: codes of equal length are consecutive, and follow all shorter codes.
  function Code(lens: seq<nat>, n: nat): nat
    requires n < |lens| && lens[n] > 0
  {
    2 * Kraft(lens, lens[n] - 1) + Count(lens[..n], lens[n])
  }

  function Codeword(lens: seq<nat>, n: nat): seq<bool>
    requires n < |lens| && lens[n] > 0
  {
    MsbBits(Code(lens, n), lens[n])
  }

  // The code lengths fit together: no code length above max, and the Kraft sum is at most 1.
  ghost predicate Fits(lens: seq<nat>, max: nat)
  {
    (forall n | 0 <= n < |lens| :: lens[n] <= max) && Kraft(lens, max) <= Pow2(max)
  }

  lemma {:induction false} CountPrefix(lens: seq<nat>, n: nat, l: nat)
    requires n < |lens| && lens[n] == l
    ensures Count(lens[..n], l) < Count(lens, l)
  {
    var k := |lens| - 1;
    if n < k {
      CountPrefix(lens[..k], n, l);
      assert lens[..k][..n] == lens[..n];
    }
  }

  lemma {:induction false} CountMono(lens: seq<nat>, m: nat, n: nat, l: nat)
    requires m < n <= |lens| && lens[m] == l
    ensures Count(lens[..m], l) < Count(lens[..n], l)
  {
    CountPrefix(lens[..n], m, l);
    assert lens[..n][..m] == lens[..m];
  }

  lemma {:induction false} KraftGrows(lens: seq<nat>, l: nat, d: nat)
    ensures Shr(Kraft(lens, l + d), d) >= Kraft(lens, l)
  {
    if d != 0 {
      KraftGrows(lens, l, d - 1);
      var k := Kraft(lens, l + d);
      assert k / 2 >= Kraft(lens, l + d - 1);
      ShrMono(Kraft(lens, l + d - 1), k / 2, d - 1);
    }
  }

  lemma {:induction false} ShrMono(x: nat, y: nat, d: nat)
    requires x <= y
    ensures Shr(x, d) <= Shr(y, d)
  {
    if d != 0 { ShrMono(x / 2, y / 2, d - 1); }
  }

  // Every code of a set that fits has no more bits than its length says.
  lemma {:induction false} KraftFits(lens: seq<nat>, l: nat, max: nat)
    requires l <= max && Kraft(lens, max) <= Pow2(max)
    ensures Kraft(lens, l) <= Pow2(l)
  {
    if l < max { KraftFits(lens, l, max - 1); }
  }

  lemma {:induction false} CodeBound(lens: seq<nat>, n: nat, max: nat)
    requires n < |lens| && lens[n] > 0 && Fits(lens, max)
    ensures Code(lens, n) < Kraft(lens, lens[n]) <= Pow2(lens[n])
  {
    CountPrefix(lens, n, lens[n]);
    KraftFits(lens, lens[n], max);
  }

  lemma {:induction false} MsbPrefix(v: nat, n: nat, j: nat)
    requires j <= n
    ensures MsbBits(v, n)[..j] == MsbBits(Shr(v, n - j), j)
  {
    if j < n {
      MsbPrefix(v / 2, n - 1, j);
      assert MsbBits(v, n)[..j] == MsbBits(v / 2, n - 1)[..j];
    } else {
      assert MsbBits(v, n)[..n] == MsbBits(v, n);
    }
  }

  lemma {:induction false} MsbInjective(v: nat, w: nat, n: nat)
    requires v < Pow2(n) && w < Pow2(n) && MsbBits(v, n) == MsbBits(w, n)
    ensures v == w
  {
    if n != 0 {
      var a, b := MsbBits(v / 2, n - 1), MsbBits(w / 2, n - 1);
      assert MsbBits(v, n)[..n - 1] == a && MsbBits(w, n)[..n - 1] == b;
      assert MsbBits(v, n)[n - 1] == (v % 2 == 1) && MsbBits(w, n)[n - 1] == (w % 2 == 1);
      MsbInjective(v / 2, w / 2, n - 1);
    }
  }

  // No codeword starts another one.
  lemma {:induction false} PrefixFree(lens: seq<nat>, max: nat, m: nat, n: nat)
    requires Fits(lens, max)
    requires m < |lens| && n < |lens| && m != n && 0 < lens[m] <= lens[n]
    ensures !(Codeword(lens, m) <= Codeword(lens, n))
  {
    var lm, ln := lens[m], lens[n];
    CodeBound(lens, m, max);
    CodeBound(lens, n, max);
    if Codeword(lens, m) <= Codeword(lens, n) {
      MsbPrefix(Code(lens, n), ln, lm);
      ShrBound(Code(lens, n), ln - lm, lm);
      MsbInjective(Code(lens, m), Shr(Code(lens, n), ln - lm), lm);
      if lm < ln {
        var d := ln - lm - 1;
        KraftGrows(lens, lm, d);
        ShrMono(Kraft(lens, ln - 1), Code(lens, n) / 2, d);
        assert false;
      } else if m < n {
        CountMono(lens, m, n, lm);
        assert false;
      } else {
        CountMono(lens, n, m, lm);
        assert false;
      }
    }
  }

  // The decoder: the first symbol, from n on, whose codeword starts the bits.
  function FindSymbol(lens: seq<nat>, bits: seq<bool>, n: nat): (r: Option<nat>)
    ensures r.Some? ==> n <= r.value < |lens| && lens[r.value] > 0 && Codeword(lens, r.value) <= bits
    decreases |lens| - n
  {
    if n >= |lens| then None
    else if lens[n] > 0 && Codeword(lens, n) <= bits then Some(n)
    else FindSymbol(lens, bits, n + 1)
  }

  lemma {:induction false} FindSymbolExact(lens: seq<nat>, max: nat, s: nat, rest: seq<bool>, n: nat)
    requires Fits(lens, max) && n <= s < |lens| && lens[s] > 0
    ensures FindSymbol(lens, Codeword(lens, s) + rest, n) == Some(s)
    decreases s - n
  {
    var bits := Codeword(lens, s) + rest;
    if n < s {
      if lens[n] > 0 && Codeword(lens, n) <= bits {
        var a, b := Codeword(lens, n), Codeword(lens, s);
        assert a == bits[..|a|] && b == bits[..|b|];
        if lens[n] <= lens[s] {
          assert a == b[..|a|];
          PrefixFree(lens, max, n, s);
        } else {
          assert b == a[..|b|];
          PrefixFree(lens, max, s, n);
        }
      }
      FindSymbolExact(lens, max, s, rest, n + 1);
    }
  }

  // Read one symbol: its number and the bits after its codeword.
  function ReadSymbol(lens: seq<nat>, bits: seq<bool>): (r: Option<(nat, seq<bool>)>)
    ensures r.Some? ==> |r.value.1| < |bits| && r.value.0 < |lens|
  {
    match FindSymbol(lens, bits, 0)
    case None => None
    case Some(s) => Some((s, bits[lens[s]..]))
  }

  lemma {:induction false} ReadSymbolExact(lens: seq<nat>, max: nat, s: nat, rest: seq<bool>)
    requires Fits(lens, max) && s < |lens| && lens[s] > 0
    ensures ReadSymbol(lens, Codeword(lens, s) + rest) == Some((s, rest))
  {
    FindSymbolExact(lens, max, s, rest, 0);
    assert (Codeword(lens, s) + rest)[lens[s]..] == rest;
  }

  // Trailing symbols without a code change nothing.
  lemma {:induction false} CountTrim(lens: seq<nat>, k: nat, l: nat)
    requires k <= |lens| && l >= 1 && forall n | k <= n < |lens| :: lens[n] == 0
    ensures Count(lens[..k], l) == Count(lens, l)
  {
    if k < |lens| {
      CountTrim(lens[..|lens| - 1], k, l);
      assert lens[..|lens| - 1][..k] == lens[..k];
    } else {
      assert lens[..k] == lens;
    }
  }

  lemma {:induction false} KraftTrim(lens: seq<nat>, k: nat, l: nat)
    requires k <= |lens| && forall n | k <= n < |lens| :: lens[n] == 0
    ensures Kraft(lens[..k], l) == Kraft(lens, l)
  {
    if l != 0 {
      KraftTrim(lens, k, l - 1);
      CountTrim(lens, k, l);
    }
  }

  // A code that is complete at its longest length is complete at every longer one.
  lemma {:induction false} KraftBeyond(lens: seq<nat>, max: nat, l: nat)
    requires max <= l && forall n | 0 <= n < |lens| :: lens[n] <= max
    requires Kraft(lens, max) == Pow2(max)
    ensures Kraft(lens, l) == Pow2(l)
  {
    if max < l {
      KraftBeyond(lens, max, l - 1);
      CountNone(lens, l);
    }
  }

  lemma {:induction false} CountNone(lens: seq<nat>, l: nat)
    requires forall n | 0 <= n < |lens| :: lens[n] != l
    ensures Count(lens, l) == 0
  {
    if lens != [] { CountNone(lens[..|lens| - 1], l); }
  }
}
