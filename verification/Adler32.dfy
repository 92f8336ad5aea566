// lzo_adler32 (lzop.c): Adler-32 with the reduction put off for up to NMAX bytes.
module Adler32 {
  import opened Lz77

  const BASE := 65521
  const NMAX := 5552
  const UINT := 0x1_0000_0000

  // The definition of section 2.2 of RFC 1950: both sums are taken modulo BASE after every byte.
  datatype Sums = Sums(s1: nat, s2: nat)

  function Adler(a: Sums, buf: seq<Byte>): Sums
  {
    if buf == [] then a
    else
      var p := Adler(a, buf[..|buf| - 1]);
      var s1 := (p.s1 + buf[|buf| - 1]) % BASE;
      Sums(s1, (p.s2 + s1) % BASE)
  }

  // The sum of the bytes, and the sum in which each byte counts as often as there are bytes from it to the end.
  function ByteSum(buf: seq<Byte>): nat
  {
    if buf == [] then 0 else buf[0] + ByteSum(buf[1..])
  }

  function Weighted(buf: seq<Byte>): nat
  {
    if buf == [] then 0 else |buf| * buf[0] + Weighted(buf[1..])
  }

  // Both sums before any reduction.
  function Unreduced(a: Sums, buf: seq<Byte>): Sums
  {
    Sums(a.s1 + ByteSum(buf), a.s2 + |buf| * a.s1 + Weighted(buf))
  }

  // The closed form of section 2.2 of RFC 1950: s1 is the start value and all bytes, s2 the sum of all values of s1.
  lemma {:induction false} ClosedForm(a: Sums, buf: seq<Byte>)
    requires a.s1 < 65521 && a.s2 < 65521
    ensures Adler(a, buf).s1 == (a.s1 + ByteSum(buf)) % 65521
    ensures Adler(a, buf).s2 == (a.s2 + |buf| * a.s1 + Weighted(buf)) % 65521
  {
    hide Adler, ByteSum, Weighted;
    ClosedSums(a, buf);
  }

  lemma {:induction false} ClosedSums(a: Sums, buf: seq<Byte>)
    requires a.s1 < 65521 && a.s2 < 65521
    ensures var u := Unreduced(a, buf); Adler(a, buf) == Sums(u.s1 % 65521, u.s2 % 65521)
  {
    hide Adler, Unreduced;
    if buf == [] {
      NoBytes(a);
    } else {
      var k, c := |buf| - 1, buf[|buf| - 1];
      var u := buf[..k];
      assert buf == u + [c];
      ClosedSums(a, u);
      AdlerSnoc(a, u, c);
      UnreducedSnoc(a, u, c);
      ClosedNext(Adler(a, u).s1, Adler(a, u).s2, Unreduced(a, u).s1, Unreduced(a, u).s2, c);
    }
  }

  lemma {:induction false} UnreducedSnoc(a: Sums, u: seq<Byte>, c: Byte)
    ensures var x := Unreduced(a, u); Unreduced(a, u + [c]) == Sums(x.s1 + c, x.s2 + (x.s1 + c))
  {
    hide ByteSum, Weighted;
    SumsSnoc(u, c);
    OneMore(|u|, a.s1);
  }

  lemma {:induction false} NoBytes(a: Sums)
    ensures Adler(a, []) == a == Unreduced(a, [])
  {
  }

  lemma {:induction false} AdlerSnoc(a: Sums, u: seq<Byte>, c: Byte)
    ensures var p := Adler(a, u);
            var s1 := (p.s1 + c) % 65521;
            Adler(a, u + [c]) == Sums(s1, (p.s2 + s1) % 65521)
  {
    assert (u + [c])[..|u|] == u;
  }

  lemma {:induction false} SumsSnoc(u: seq<Byte>, c: Byte)
    ensures ByteSum(u + [c]) == ByteSum(u) + c && Weighted(u + [c]) == Weighted(u) + ByteSum(u) + c
  {
    if u == [] {
      assert u + [c] == [c] && [c][1..] == [];
    } else {
      SumsSnoc(u[1..], c);
      assert (u + [c])[1..] == u[1..] + [c];
      OneMore(|u|, u[0]);
    }
  }

  lemma {:induction false} OneMore(k: nat, x: nat)
    ensures (k + 1) * x == k * x + x
  {
  }

  lemma {:induction false} ClosedNext(p1: nat, p2: nat, s: nat, t: nat, c: nat)
    requires p1 == s % 65521 && p2 == t % 65521
    ensures (p1 + c) % 65521 == (s + c) % 65521 && (p2 + (p1 + c) % 65521) % 65521 == (t + (s + c)) % 65521
  {
    ModAdd(p1, s, c);
    ModAdd(p2, t, (p1 + c) % 65521);
    ModAdd((p1 + c) % 65521, s + c, t);
  }

  // Checksumming in pieces is checksumming the concatenation.
  lemma {:induction false} AdlerPieces(a: Sums, x: seq<Byte>, y: seq<Byte>)
    ensures Adler(Adler(a, x), y) == Adler(a, x + y)
  {
    if y == [] {
      assert x + y == x;
    } else {
      var k := |y| - 1;
      AdlerPieces(a, x, y[..k]);
      assert (x + y)[..|x + y| - 1] == x + y[..k];
    }
  }

  lemma {:induction false} AdlerReduced(a: Sums, buf: seq<Byte>)
    requires buf != [] || (a.s1 < BASE && a.s2 < BASE)
    ensures Adler(a, buf).s1 < BASE && Adler(a, buf).s2 < BASE
  {
  }

  // s1 and s2, not reduced since the sums were a, stand for the sums after buf.
  ghost predicate Stands(s1: nat, s2: nat, a: Sums, buf: seq<Byte>)
  {
    s1 % BASE == Adler(a, buf).s1 % BASE && s2 % BASE == Adler(a, buf).s2 % BASE
  }

  lemma {:induction false} ModAdd(x: nat, y: nat, z: nat)
    requires x % BASE == y % BASE
    ensures (x + z) % BASE == (y + z) % BASE
  {
    var q := x / BASE - y / BASE;
    assert x - y == BASE * q;
    ModShift(y + z, q);
  }

  lemma {:induction false} ModShift(x: int, q: int)
    ensures (x + BASE * q) % BASE == x % BASE
  {
  }

  lemma {:induction false} StandsNext(s1: nat, s2: nat, a: Sums, buf: seq<Byte>, c: Byte)
    requires Stands(s1, s2, a, buf)
    ensures Stands(s1 + c, s2 + (s1 + c), a, buf + [c])
  {
    var p := Adler(a, buf);
    assert (buf + [c])[..|buf|] == buf;
    var t := (p.s1 + c) % BASE;
    assert Adler(a, buf + [c]) == Sums(t, (p.s2 + t) % BASE);
    hide Adler;
    ModAdd(s1, p.s1, c);
    ModAdd(s1 + c, t, s2);
    ModAdd(s2, p.s2, t);
    assert (s2 + (s1 + c)) % BASE == (p.s2 + t) % BASE;
  }

  function Pairs(k: nat): nat
  {
    k * (k + 1)
  }

  // Bounds on the sums k bytes after a reduction.
  ghost predicate Bounded(s1: nat, s2: nat, k: nat)
  {
    s1 <= 65535 + 255 * k && 2 * s2 <= 131070 * (k + 1) + 255 * Pairs(k)
  }

  lemma {:induction false} BoundedNext(s1: nat, s2: nat, k: nat, c: Byte)
    requires Bounded(s1, s2, k)
    ensures Bounded(s1 + c, s2 + (s1 + c), k + 1)
  {
    assert Pairs(k + 1) == Pairs(k) + 2 * (k + 1);
  }

  lemma {:induction false} PairsMono(k: nat, n: nat)
    requires k <= n
    ensures Pairs(k) <= Pairs(n)
  {
    if k < n {
      PairsMono(k, n - 1);
      assert Pairs(n) == Pairs(n - 1) + 2 * n;
    }
  }

  // Within NMAX bytes no sum reaches 2^32.
  lemma {:induction false} NoWrap(s1: nat, s2: nat, k: nat)
    requires Bounded(s1, s2, k) && k <= NMAX
    ensures s1 < UINT && s2 < UINT
  {
    PairsMono(k, NMAX);
    assert Pairs(NMAX) == 30830256;
    hide Pairs;
  }

  lemma {:induction false} ByteAdded(s1: nat, s2: nat, a: Sums, pre: seq<Byte>, c: Byte, i: nat)
    requires Stands(s1, s2, a, pre) && Bounded(s1, s2, i) && i < NMAX
    ensures (s1 + c) % UINT == s1 + c && (s2 + (s1 + c)) % UINT == s2 + (s1 + c)
    ensures Stands(s1 + c, s2 + (s1 + c), a, pre + [c]) && Bounded(s1 + c, s2 + (s1 + c), i + 1)
  {
    hide Stands, Bounded;
    StandsNext(s1, s2, a, pre, c);
    BoundedNext(s1, s2, i, c);
    NoWrap(s1 + c, s2 + (s1 + c), i + 1);
  }

  // One chunk of k bytes without reduction; the 32-bit additions wrap around as in C.
  method Chunk(s10: nat, s20: nat, buf: seq<Byte>, ghost a: Sums, ghost done: seq<Byte>) returns (s1: nat, s2: nat)
    requires s10 <= 65535 && s20 <= 65535 && |buf| <= NMAX && Stands(s10, s20, a, done)
    ensures Stands(s1, s2, a, done + buf) && s1 < UINT && s2 < UINT
  {
    s1, s2 := s10, s20;
    var i := 0;
    assert done + buf[..0] == done && Bounded(s1, s2, 0);
    hide Stands, Bounded;
    while i < |buf|
      invariant i <= |buf| && Bounded(s1, s2, i) && s1 < UINT && s2 < UINT
      invariant Stands(s1, s2, a, done + buf[..i])
    {
      ByteAdded(s1, s2, a, done + buf[..i], buf[i], i);
      assert done + buf[..i + 1] == (done + buf[..i]) + [buf[i]];
      s1 := (s1 + buf[i]) % UINT;
      s2 := (s2 + s1) % UINT;
      i := i + 1;
    }
    assert buf[..i] == buf;
  }

  lemma {:induction false} StandsReduced(s1: nat, s2: nat, a: Sums, buf: seq<Byte>)
    requires Stands(s1, s2, a, buf)
    ensures Stands(s1 % BASE, s2 % BASE, a, buf)
  {
    hide Adler;
  }

  // lzo_adler32: the checksum adler of what came before, updated by buf. A null buffer gives 1.
  method LzoAdler32(adler: nat, buf: Option<seq<Byte>>) returns (r: nat)
    requires adler < UINT
    ensures r < UINT
    ensures buf == None ==> r == 1
    ensures buf.Some? && buf.value != [] ==>
              var w := Adler(Sums(adler % 0x10000, adler / 0x10000), buf.value); r == w.s2 * 0x10000 + w.s1
    ensures buf == Some([]) ==> r == adler
  {
    hide Stands, Adler;
    var s1: nat, s2: nat := adler % 0x10000, adler / 0x10000;
    if buf == None {
      return 1;
    }
    var b := buf.value;
    var i := 0;
    ghost var a := Sums(s1, s2);
    StandsStart(a);
    assert b[..0] == [];
    while i < |b|
      invariant i <= |b| && s1 <= 65535 && s2 <= 65535 && Stands(s1, s2, a, b[..i])
      invariant i == 0 ==> s1 == a.s1 && s2 == a.s2
      invariant i > 0 ==> s1 < BASE && s2 < BASE
    {
      var k := if |b| - i < NMAX then |b| - i else NMAX;
      var t1, t2 := Chunk(s1, s2, b[i..i + k], a, b[..i]);
      StandsReduced(t1, t2, a, b[..i] + b[i..i + k]);
      assert b[..i] + b[i..i + k] == b[..i + k];
      i := i + k;
      s1 := t1 % BASE;
      s2 := t2 % BASE;
    }
    assert b[..i] == b;
    if i > 0 { Settled(s1, s2, a, b); }
    r := s2 * 0x10000 + s1;
  }

  lemma {:induction false} StandsStart(a: Sums)
    ensures Stands(a.s1, a.s2, a, [])
  {
  }

  lemma {:induction false} Settled(s1: nat, s2: nat, a: Sums, buf: seq<Byte>)
    requires Stands(s1, s2, a, buf) && s1 < BASE && s2 < BASE && buf != []
    ensures Adler(a, buf) == Sums(s1, s2)
  {
    AdlerReduced(a, buf);
    hide Adler;
  }
}
