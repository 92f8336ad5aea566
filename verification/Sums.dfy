// Sums of a weight over a sequence of tree nodes.
module Sums {

  ghost function Sum(s: seq<nat>, f: nat -> int): int
  {
    if s == [] then 0 else f(s[0]) + Sum(s[1..], f)
  }

  lemma {:induction false} SumAppend(s: seq<nat>, t: seq<nat>, f: nat -> int)
    ensures Sum(s + t, f) == Sum(s, f) + Sum(t, f)
  {
    if s == [] {
      assert s + t == t;
    } else {
      SumAppend(s[1..], t, f);
      assert (s + t)[1..] == s[1..] + t;
    }
  }

  lemma {:induction false} SumSnoc(s: seq<nat>, x: nat, f: nat -> int)
    ensures Sum(s + [x], f) == Sum(s, f) + f(x)
  {
    SumAppend(s, [x], f);
    assert Sum([x], f) == f(x) + Sum([], f) by { assert [x][1..] == []; }
  }

  lemma {:induction false} SumSame(s: seq<nat>, f: nat -> int, g: nat -> int)
    requires forall x | x in s :: f(x) == g(x)
    ensures Sum(s, f) == Sum(s, g)
  {
    if s != [] {
      assert forall x | x in s[1..] :: x in s;
      SumSame(s[1..], f, g);
    }
  }

  // The order of the nodes does not matter.
  lemma {:induction false} SumPermuted(s: seq<nat>, t: seq<nat>, f: nat -> int)
    requires multiset(s) == multiset(t)
    ensures Sum(s, f) == Sum(t, f)
  {
    if s == [] {
      assert |t| == |multiset(t)| == 0;
    } else {
      var x := s[0];
      assert x in multiset(t);
      var i :| 0 <= i < |t| && t[i] == x;
      var rest := t[..i] + t[i + 1..];
      assert s == [x] + s[1..];
      assert t == t[..i] + [x] + t[i + 1..];
      assert multiset(s[1..]) == multiset(s) - multiset{x} == multiset(rest);
      SumPermuted(s[1..], rest, f);
      SumAppend(t[..i], t[i + 1..], f);
      SumAppend(t[..i] + [x], t[i + 1..], f);
      SumSnoc(t[..i], x, f);
    }
  }
}
