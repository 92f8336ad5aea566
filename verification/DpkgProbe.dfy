// Open addressing with a double-hash decrement modulo a prime, as the three tables of dpkg.c use it.
module DpkgProbe {

  ghost predicate Prime(p: nat)
  {
    p >= 2 && forall d | 2 <= d < p :: p % d != 0
  }

  // The slot after k steps: probe_address -= probe_decrement; if it is negative, probe_address += p.
  function Probe(start: nat, dec: nat, p: nat, k: nat): (a: nat)
    requires start < p && 1 <= dec < p
    ensures a < p
  {
    if k == 0 then start
    else
      var a := Probe(start, dec, p, k - 1);
      if a >= dec then a - dec else a - dec + p
  }

  // How often the address has wrapped around.
  ghost function Wraps(start: nat, dec: nat, p: nat, k: nat): nat
    requires start < p && 1 <= dec < p
  {
    if k == 0 then 0 else Wraps(start, dec, p, k - 1) + if Probe(start, dec, p, k - 1) >= dec then 0 else 1
  }

  lemma {:induction false} OneMore(a: nat, b: nat)
    ensures (a + 1) * b == a * b + b
  {
  }

  lemma {:induction false} ProbeIs(start: nat, dec: nat, p: nat, k: nat)
    requires start < p && 1 <= dec < p
    ensures Probe(start, dec, p, k) == start - k * dec + Wraps(start, dec, p, k) * p
  {
    if k != 0 {
      ProbeIs(start, dec, p, k - 1);
      OneMore(k - 1, dec);
      OneMore(Wraps(start, dec, p, k - 1), p);
    }
  }

  // A prime divides no product of two smaller positive numbers.
  lemma {:induction false} NoProduct(p: nat, k: nat, d: nat, m: int)
    requires Prime(p) && 0 < k < p && 0 < d < p
    ensures k * d != p * m
    decreases k
  {
    if k == 1 {
      if d == p * m { Between(p, d, m); }
    } else if k * d == p * m {
      var q, r := p / k, p % k;
      assert p == q * k + r && 0 < r < k;
      Distribute(p, q, k, r, d, m);
      NoProduct(p, r, d, d - q * m);
    }
  }

  lemma {:induction false} Between(p: nat, d: nat, m: int)
    requires 0 < d < p
    ensures d != p * m
  {
    if m >= 1 { assert p * m >= p; } else { assert p * m <= 0; }
  }

  lemma {:induction false} Distribute(p: nat, q: nat, k: nat, r: nat, d: nat, m: int)
    requires p == q * k + r && k * d == p * m
    ensures r * d == p * (d - q * m)
  {
    assert p * d == (q * k) * d + r * d;
    assert (q * k) * d == q * (k * d) == q * (p * m);
    assert q * (p * m) == p * (q * m);
    assert p * (d - q * m) == p * d - p * (q * m);
  }

  lemma {:induction false} Congruent(start: nat, dec: nat, p: nat, i: nat, j: nat, v: nat, w: nat)
    requires start - i * dec + v * p == start - j * dec + w * p
    ensures (j - i) * dec == p * (w - v)
  {
    assert (j - i) * dec == j * dec - i * dec;
    assert p * (w - v) == w * p - v * p;
  }

  lemma {:induction false} SameSlot(start: nat, dec: nat, p: nat, i: nat, j: nat)
    requires start < p && 1 <= dec < p && Probe(start, dec, p, i) == Probe(start, dec, p, j)
    ensures (j - i) * dec == p * (Wraps(start, dec, p, j) - Wraps(start, dec, p, i))
  {
    hide Probe, Wraps;
    ProbeIs(start, dec, p, i);
    ProbeIs(start, dec, p, j);
    Congruent(start, dec, p, i, j, Wraps(start, dec, p, i), Wraps(start, dec, p, j));
  }

  // Within p steps no slot comes twice.
  lemma {:induction false} ProbeDistinct(start: nat, dec: nat, p: nat, i: nat, j: nat)
    requires Prime(p) && start < p && 1 <= dec < p && i < j < p
    ensures Probe(start, dec, p, i) != Probe(start, dec, p, j)
  {
    hide Probe, Wraps, Prime;
    if Probe(start, dec, p, i) == Probe(start, dec, p, j) {
      SameSlot(start, dec, p, i, j);
      NoProduct(p, j - i, dec, Wraps(start, dec, p, j) - Wraps(start, dec, p, i));
    }
  }

  ghost function Visited(start: nat, dec: nat, p: nat, n: nat): set<nat>
    requires start < p && 1 <= dec < p
  {
    if n == 0 then {} else Visited(start, dec, p, n - 1) + {Probe(start, dec, p, n - 1)}
  }

  lemma {:induction false} InVisited(start: nat, dec: nat, p: nat, n: nat, s: nat) returns (k: nat)
    requires start < p && 1 <= dec < p && s in Visited(start, dec, p, n)
    ensures k < n && Probe(start, dec, p, k) == s
  {
    if s == Probe(start, dec, p, n - 1) {
      k := n - 1;
    } else {
      k := InVisited(start, dec, p, n - 1, s);
    }
  }

  lemma {:induction false} VisitedSize(start: nat, dec: nat, p: nat, n: nat)
    requires Prime(p) && start < p && 1 <= dec < p && n <= p
    ensures |Visited(start, dec, p, n)| == n && forall s | s in Visited(start, dec, p, n) :: s < p
  {
    hide Probe, Prime;
    if n != 0 {
      VisitedSize(start, dec, p, n - 1);
      var s := Probe(start, dec, p, n - 1);
      if s in Visited(start, dec, p, n - 1) {
        var k := InVisited(start, dec, p, n - 1, s);
        ProbeDistinct(start, dec, p, k, n - 1);
      }
    }
  }

  ghost function Below(p: nat): (r: set<nat>)
    ensures forall s: nat :: s in r <==> s < p
  {
    if p == 0 then {} else Below(p - 1) + {p - 1}
  }

  lemma {:induction false} BelowSize(p: nat)
    ensures |Below(p)| == p
  {
    if p != 0 {
      BelowSize(p - 1);
      var r := Below(p - 1);
      assert p - 1 !in r && Below(p) == r + {p - 1};
    }
  }

  lemma {:induction false} SubsetSame(a: set<nat>, b: set<nat>)
    requires a <= b && |a| == |b|
    ensures a == b
  {
    if a != b {
      var x :| x in b && x !in a;
      assert a <= b - {x};
      SubsetSize(a, b - {x});
    }
  }

  lemma {:induction false} SubsetSize(a: set<nat>, b: set<nat>)
    requires a <= b
    ensures |a| <= |b|
  {
    if a != {} {
      var x :| x in a;
      SubsetSize(a - {x}, b - {x});
    }
  }

  // In p steps every slot is visited.
  lemma {:induction false} ProbeCovers(start: nat, dec: nat, p: nat, s: nat) returns (k: nat)
    requires Prime(p) && start < p && 1 <= dec < p && s < p
    ensures k < p && Probe(start, dec, p, k) == s
  {
    hide Visited, Probe, Prime;
    VisitedSize(start, dec, p, p);
    BelowSize(p);
    SubsetSame(Visited(start, dec, p, p), Below(p));
    k := InVisited(start, dec, p, p, s);
  }

  // ---- the primes of the tables ----

  // None of 2..n divides p.
  predicate NoDivisor(p: nat, n: nat)
  {
    n < 2 || (p % n != 0 && NoDivisor(p, n - 1))
  }

  lemma {:induction false} NoDivisorMeans(p: nat, n: nat, d: nat)
    requires 2 <= d <= n && NoDivisor(p, n)
    ensures p % d != 0
  {
    if d < n { NoDivisorMeans(p, n - 1, d); }
  }

  // No divisor up to the square root, no divisor at all.
  lemma {:induction false} PrimeIf(p: nat, n: nat)
    requires p >= 2 && p < (n + 1) * (n + 1) && NoDivisor(p, n)
    ensures Prime(p)
  {
    hide NoDivisor;
    forall d | 2 <= d < p ensures p % d != 0 {
      if p % d == 0 {
        if d <= n {
          NoDivisorMeans(p, n, d);
        } else {
          Cofactor(p, d, n);
          NoDivisorMeans(p, n, p / d);
        }
      }
    }
  }

  lemma {:induction false} MulMono(a: nat, b: nat, c: nat)
    requires a <= b
    ensures a * c <= b * c
  {
  }

  lemma {:induction false} MultipleMod(p: nat, d: nat, e: nat)
    requires e > 0 && p == d * e
    ensures p % e == 0
  {
    var q, r := p / e, p % e;
    assert p == e * q + r;
    assert e * (d - q) == d * e - e * q;
    if r != 0 { Between(e, r, d - q); }
  }

  lemma {:induction false} Cofactor(p: nat, d: nat, n: nat)
    requires p < (n + 1) * (n + 1) && n < d < p && p % d == 0
    ensures 2 <= p / d <= n && p % (p / d) == 0
  {
    Exact(p, d);
    CofactorSize(p, d, p / d, n);
    MultipleMod(p, d, p / d);
  }

  lemma {:induction false} Exact(p: nat, d: nat)
    requires d > 0 && p % d == 0
    ensures p == d * (p / d)
  {
  }

  lemma {:induction false} CofactorSize(p: nat, d: nat, e: nat, n: nat)
    requires p == d * e && p < (n + 1) * (n + 1) && n < d < p
    ensures 2 <= e <= n
  {
    if e > n {
      MulMono(n + 1, d, n + 1);
      MulMono(n + 1, e, d);
    }
  }

  const NAME_HASH_PRIME := 16381
  const PACKAGE_HASH_PRIME := 10007
  const STATUS_HASH_PRIME := 8191

  lemma {:induction false} TablePrimes()
    ensures Prime(NAME_HASH_PRIME) && Prime(PACKAGE_HASH_PRIME) && Prime(STATUS_HASH_PRIME)
  {
    hide Prime;
    NamePrime();
    PackagePrime();
    StatusPrime();
  }

  lemma {:induction false} NamePrime()
    ensures Prime(16381)
  {
    assert NoDivisor(16381, 10);
    assert NoDivisor(16381, 20);
    assert NoDivisor(16381, 30);
    assert NoDivisor(16381, 40);
    assert NoDivisor(16381, 50);
    NameHigh();
    PrimeIf(16381, 127);
  }

  lemma {:induction false} NameHigh()
    requires NoDivisor(16381, 50)
    ensures NoDivisor(16381, 127)
  {
    assert NoDivisor(16381, 60);
    assert NoDivisor(16381, 70);
    assert NoDivisor(16381, 80);
    assert NoDivisor(16381, 90);
    assert NoDivisor(16381, 100);
    assert NoDivisor(16381, 110);
    assert NoDivisor(16381, 120);
  }

  lemma {:induction false} PackagePrime()
    ensures Prime(10007)
  {
    assert NoDivisor(10007, 10);
    assert NoDivisor(10007, 20);
    assert NoDivisor(10007, 30);
    assert NoDivisor(10007, 40);
    assert NoDivisor(10007, 50);
    PackageHigh();
    PrimeIf(10007, 100);
  }

  lemma {:induction false} PackageHigh()
    requires NoDivisor(10007, 50)
    ensures NoDivisor(10007, 100)
  {
    assert NoDivisor(10007, 60);
    assert NoDivisor(10007, 70);
    assert NoDivisor(10007, 80);
    assert NoDivisor(10007, 90);
  }

  lemma {:induction false} StatusPrime()
    ensures Prime(8191)
  {
    assert NoDivisor(8191, 10);
    assert NoDivisor(8191, 20);
    assert NoDivisor(8191, 30);
    assert NoDivisor(8191, 40);
    assert NoDivisor(8191, 50);
    assert NoDivisor(8191, 60);
    assert NoDivisor(8191, 70);
    assert NoDivisor(8191, 80);
    assert NoDivisor(8191, 90);
    PrimeIf(8191, 90);
  }
}
