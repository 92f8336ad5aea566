// The run-length code for code lengths: scan_tree and send_tree of gzip.c, section 3.2.7 of RFC 1951.
module CodeLengths {
  import opened Bits
  import opened BitStream
  import opened Canonical
  import opened Lz77

  // One symbol of the code length alphabet: a length, or 16, 17, 18 with its repeat count.
  datatype Op = Len(l: nat) | Repeat(n: nat) | Zeros(n: nat) | ManyZeros(n: nat)

  const REP_3_6 := 16
  const REPZ_3_10 := 17
  const REPZ_11_138 := 18

  function MaxCount(v: nat, prev: int): nat
  {
    if v == 0 then 138 else if v == prev then 6 else 7
  }

  function MinCount(v: nat, prev: int): nat
  {
    if v == 0 || v == prev then 3 else 4
  }

  function Copies(v: nat, n: nat): (r: seq<nat>)
    ensures |r| == n && forall i | 0 <= i < n :: r[i] == v
  {
    seq(n, _ => v)
  }

  function Plain(v: nat, n: nat): seq<Op>
  {
    if n == 0 then [] else Plain(v, n - 1) + [Len(v)]
  }

  // The symbols for count lengths v in a row, after the length prev.
  function Chunk(v: nat, prev: int, count: nat): seq<Op>
    requires count > 0
  {
    if count < MinCount(v, prev) then Plain(v, count)
    else if v != 0 then if v != prev then [Len(v), Repeat(count - 1)] else [Repeat(count)]
    else if count <= 10 then [Zeros(count)]
    else [ManyZeros(count)]
  }

  // How often v stands at lens[i..], but at most max times.
  function Run(lens: seq<nat>, i: nat, v: nat, max: nat): (r: nat)
    ensures r <= max && (i <= |lens| ==> i + r <= |lens|)
    decreases max
  {
    if max == 0 || i >= |lens| || lens[i] != v then 0 else 1 + Run(lens, i + 1, v, max - 1)
  }

  // The symbols for lens[i..], after the length prev.
  function Runs(lens: seq<nat>, i: nat, prev: int): seq<Op>
    requires i <= |lens|
    decreases |lens| - i
  {
    if i == |lens| then []
    else
      var c := Run(lens, i, lens[i], MaxCount(lens[i], prev));
      Chunk(lens[i], prev, c) + Runs(lens, i + c, lens[i])
  }

  lemma {:induction false} RunIs(lens: seq<nat>, i: nat, v: nat, max: nat, c: nat)
    requires i + c <= |lens| && c <= max && forall k | i <= k < i + c :: lens[k] == v
    requires c == max || i + c == |lens| || lens[i + c] != v
    ensures Run(lens, i, v, max) == c
    decreases c
  {
    if c != 0 { RunIs(lens, i + 1, v, max - 1, c - 1); }
  }

  lemma {:induction false} RunAll(lens: seq<nat>, i: nat, v: nat, max: nat)
    ensures forall k | i <= k < i + Run(lens, i, v, max) :: k < |lens| && lens[k] == v
    decreases max
  {
    if max != 0 && i < |lens| && lens[i] == v {
      RunAll(lens, i + 1, v, max - 1);
      assert Run(lens, i, v, max) == 1 + Run(lens, i + 1, v, max - 1);
    } else {
      assert Run(lens, i, v, max) == 0;
    }
  }

  // ---- the decoder ----

  // The lengths after one more symbol; None if there is nothing to repeat.
  function Apply(out: seq<nat>, op: Op): Option<seq<nat>>
  {
    match op
    case Len(l) => Some(out + [l])
    case Repeat(n) => if out == [] then None else Some(out + Copies(out[|out| - 1], n))
    case Zeros(n) => Some(out + Copies(0, n))
    case ManyZeros(n) => Some(out + Copies(0, n))
  }

  function Expand(out: seq<nat>, ops: seq<Op>): Option<seq<nat>>
    decreases |ops|
  {
    if ops == [] then Some(out)
    else
      match Apply(out, ops[0])
      case None => None
      case Some(o) => Expand(o, ops[1..])
  }

  lemma {:induction false} ExpandAppend(out: seq<nat>, a: seq<Op>, b: seq<Op>)
    requires Expand(out, a).Some?
    ensures Expand(out, a + b) == Expand(Expand(out, a).value, b)
    decreases |a|
  {
    if a == [] {
      assert a + b == b;
    } else {
      assert (a + b)[1..] == a[1..] + b;
      ExpandAppend(Apply(out, a[0]).value, a[1..], b);
    }
  }

  lemma {:induction false} ExpandPlain(out: seq<nat>, v: nat, n: nat)
    ensures Expand(out, Plain(v, n)) == Some(out + Copies(v, n))
  {
    if n == 0 {
      assert out + Copies(v, 0) == out;
    } else {
      ExpandPlain(out, v, n - 1);
      ExpandAppend(out, Plain(v, n - 1), [Len(v)]);
      var o := out + Copies(v, n - 1);
      assert Expand(o, [Len(v)]) == Expand(o + [v], []) by { assert [Len(v)][1..] == []; }
      assert o + [v] == out + Copies(v, n);
    }
  }

  // prev, if not -1, is the last length already decoded.
  ghost predicate Follows(out: seq<nat>, prev: int)
  {
    prev == -1 || (out != [] && prev == out[|out| - 1])
  }

  lemma {:induction false} ExpandChunk(out: seq<nat>, v: nat, prev: int, count: nat)
    requires count > 0 && Follows(out, prev)
    ensures Expand(out, Chunk(v, prev, count)) == Some(out + Copies(v, count))
  {
    if count < MinCount(v, prev) {
      ExpandPlain(out, v, count);
    } else if v != 0 && v != prev {
      var ops, o := [Len(v), Repeat(count - 1)], out + [v];
      assert ops[1..] == [Repeat(count - 1)] && [Repeat(count - 1)][1..] == [];
      assert o + Copies(v, count - 1) == out + Copies(v, count);
      assert Expand(out, ops) == Expand(o, [Repeat(count - 1)]);
      assert Expand(o, [Repeat(count - 1)]) == Expand(o + Copies(v, count - 1), []);
    } else {
      var op := Chunk(v, prev, count)[0];
      assert [op][1..] == [];
      assert Expand(out, [op]) == Expand(out + Copies(v, count), []);
    }
  }

  // Expanding the symbols gives back the lengths.
  lemma {:induction false} ExpandRuns(out: seq<nat>, lens: seq<nat>, i: nat, prev: int)
    requires i <= |lens| && Follows(out, prev)
    ensures Expand(out, Runs(lens, i, prev)) == Some(out + lens[i..])
    decreases |lens| - i
  {
    hide Chunk, Expand, Run, Runs, Copies, MaxCount, Follows;
    if i == |lens| {
      RunsEnd(out, lens, prev);
    } else {
      var v, c := lens[i], Run(lens, i, lens[i], MaxCount(lens[i], prev));
      RunsStep(lens, i, prev, out);
      ExpandChunk(out, v, prev, c);
      ExpandRuns(out + Copies(v, c), lens, i + c, v);
      ExpandAppend(out, Chunk(v, prev, c), Runs(lens, i + c, v));
    }
  }

  lemma {:induction false} RunsEnd(out: seq<nat>, lens: seq<nat>, prev: int)
    ensures Runs(lens, |lens|, prev) == [] && Expand(out, []) == Some(out) && out + lens[|lens|..] == out
  {
  }

  lemma {:induction false} RunsStep(lens: seq<nat>, i: nat, prev: int, out: seq<nat>)
    requires i < |lens|
    ensures var v, c := lens[i], Run(lens, i, lens[i], MaxCount(lens[i], prev));
            && c > 0 && Runs(lens, i, prev) == Chunk(v, prev, c) + Runs(lens, i + c, v)
            && (out + Copies(v, c)) + lens[i + c..] == out + lens[i..]
            && Follows(out + Copies(v, c), v)
  {
    RunAll(lens, i, lens[i], MaxCount(lens[i], prev));
    hide Chunk;
  }

  lemma {:induction false} RunsLossless(lens: seq<nat>, out: seq<nat>)
    ensures Expand(out, Runs(lens, 0, -1)) == Some(out + lens)
  {
    ExpandRuns(out, lens, 0, -1);
    assert lens[0..] == lens;
  }

  // Every repeat count fits its extra bits, and every length is one of the alphabet.
  ghost predicate OpFits(op: Op)
  {
    match op
    case Len(l) => l <= 15
    case Repeat(n) => 3 <= n <= 6
    case Zeros(n) => 3 <= n <= 10
    case ManyZeros(n) => 11 <= n <= 138
  }

  lemma {:induction false} PlainFits(v: nat, n: nat)
    requires v <= 15
    ensures forall op | op in Plain(v, n) :: OpFits(op)
  {
    if n != 0 { PlainFits(v, n - 1); }
  }

  lemma {:induction false} RunsFit(lens: seq<nat>, i: nat, prev: int)
    requires i <= |lens| && forall k | 0 <= k < |lens| :: lens[k] <= 15
    ensures forall op | op in Runs(lens, i, prev) :: OpFits(op)
    decreases |lens| - i
  {
    if i < |lens| {
      var v := lens[i];
      var c := Run(lens, i, v, MaxCount(v, prev));
      PlainFits(v, c);
      RunsFit(lens, i + c, v);
    }
  }

  // ---- the bits ----

  function Symbol(op: Op): nat
  {
    match op
    case Len(l) => l
    case Repeat(_) => REP_3_6
    case Zeros(_) => REPZ_3_10
    case ManyZeros(_) => REPZ_11_138
  }

  // The repeat count in the extra bits of the symbol.
  function Extra(op: Op): seq<bool>
  {
    match op
    case Len(_) => []
    case Repeat(n) => if n >= 3 then BitsOf(n - 3, 2) else []
    case Zeros(n) => if n >= 3 then BitsOf(n - 3, 3) else []
    case ManyZeros(n) => if n >= 11 then BitsOf(n - 11, 7) else []
  }

  // bl is the code length code; a symbol without a code takes no bits.
  function OpBits(bl: seq<nat>, op: Op): seq<bool>
  {
    (if Symbol(op) < |bl| && bl[Symbol(op)] > 0 then Codeword(bl, Symbol(op)) else []) + Extra(op)
  }

  function OpsBits(bl: seq<nat>, ops: seq<Op>): seq<bool>
  {
    if ops == [] then [] else OpsBits(bl, ops[..|ops| - 1]) + OpBits(bl, ops[|ops| - 1])
  }

  lemma {:induction false} OpsBitsSnoc(bl: seq<nat>, ops: seq<Op>, op: Op)
    ensures OpsBits(bl, ops + [op]) == OpsBits(bl, ops) + OpBits(bl, op)
  {
    assert (ops + [op])[..|ops|] == ops;
  }

  lemma {:induction false} OpsBitsAppend(bl: seq<nat>, a: seq<Op>, b: seq<Op>)
    ensures OpsBits(bl, a + b) == OpsBits(bl, a) + OpsBits(bl, b)
  {
    hide OpBits;
    if b == [] {
      assert a + b == a && OpsBits(bl, a) + [] == OpsBits(bl, a);
    } else {
      var b', z := b[..|b| - 1], b[|b| - 1];
      assert a + b == (a + b') + [z] && b == b' + [z];
      OpsBitsAppend(bl, a, b');
      OpsBitsSnoc(bl, a + b', z);
      var x, y, w := OpsBits(bl, a), OpsBits(bl, b'), OpBits(bl, z);
      assert (x + y) + w == x + (y + w);
    }
  }

  lemma {:induction false} OpsBitsCons(bl: seq<nat>, op: Op, ops: seq<Op>)
    ensures OpsBits(bl, [op] + ops) == OpBits(bl, op) + OpsBits(bl, ops)
  {
    OpsBitsAppend(bl, [op], ops);
    OpsBitsSnoc(bl, [], op);
    assert [] + [op] == [op] && [] + OpBits(bl, op) == OpBits(bl, op);
  }

  // A field of n bits at the head of the stream.
  function ReadBits(bits: seq<bool>, n: nat): (r: Option<(nat, seq<bool>)>)
    ensures r.Some? ==> |r.value.1| == |bits| - n
  {
    if |bits| < n then None else Some((Num(bits[..n]), bits[n..]))
  }

  lemma {:induction false} ReadBitsExact(v: nat, n: nat, rest: seq<bool>)
    requires v < Pow2(n)
    ensures ReadBits(BitsOf(v, n) + rest, n) == Some((v, rest))
  {
    var bits := BitsOf(v, n) + rest;
    assert bits[..n] == BitsOf(v, n) && bits[n..] == rest;
    NumBits(v, n);
  }

  // One symbol of the code length code with its extra bits.
  function ReadOp(bl: seq<nat>, bits: seq<bool>): (r: Option<(Op, seq<bool>)>)
    ensures r.Some? ==> |r.value.1| < |bits|
  {
    match ReadSymbol(bl, bits)
    case None => None
    case Some((s, rest)) =>
      if s < 16 then Some((Len(s), rest))
      else
        var n := if s == REP_3_6 then 2 else if s == REPZ_3_10 then 3 else 7;
        match ReadBits(rest, n)
        case None => None
        case Some((v, rest')) =>
          Some((if s == REP_3_6 then Repeat(v + 3) else if s == REPZ_3_10 then Zeros(v + 3) else ManyZeros(v + 11), rest'))
  }

  // Section 3.2.7: read code lengths until there are total of them.
  function ReadLengths(bl: seq<nat>, bits: seq<bool>, out: seq<nat>, total: nat): Option<(seq<nat>, seq<bool>)>
    decreases |bits|
  {
    if |out| > total then None
    else if |out| == total then Some((out, bits))
    else
      match ReadOp(bl, bits)
      case None => None
      case Some((op, rest)) =>
        match Apply(out, op)
        case None => None
        case Some(o) => ReadLengths(bl, rest, o, total)
  }

  lemma {:induction false} ReadOpExact(bl: seq<nat>, max: nat, op: Op, rest: seq<bool>)
    requires Fits(bl, max) && |bl| <= 19 && OpFits(op) && Symbol(op) < |bl| && bl[Symbol(op)] > 0
    ensures ReadOp(bl, OpBits(bl, op) + rest) == Some((op, rest))
  {
    hide Codeword, ReadSymbol;
    var s, x := Symbol(op), Extra(op);
    assert OpBits(bl, op) + rest == Codeword(bl, s) + (x + rest);
    ReadSymbolExact(bl, max, s, x + rest);
    Powers();
    match op
    case Len(l) => assert x + rest == rest;
    case Repeat(n) => ReadBitsExact(n - 3, 2, rest);
    case Zeros(n) => ReadBitsExact(n - 3, 3, rest);
    case ManyZeros(n) => ReadBitsExact(n - 11, 7, rest);
  }

  // All symbols have codes.
  ghost predicate OpsCoded(bl: seq<nat>, ops: seq<Op>)
  {
    forall op | op in ops :: OpFits(op) && Symbol(op) < |bl| && bl[Symbol(op)] > 0
  }

  lemma {:induction false} ApplyGrows(out: seq<nat>, op: Op)
    requires OpFits(op) && Apply(out, op).Some?
    ensures |Apply(out, op).value| > |out|
  {
  }

  lemma {:induction false} ExpandGrows(out: seq<nat>, ops: seq<Op>)
    requires (forall op | op in ops :: OpFits(op)) && Expand(out, ops).Some?
    ensures |Expand(out, ops).value| >= |out| && (ops != [] ==> |Expand(out, ops).value| > |out|)
    decreases |ops|
  {
    if ops != [] {
      assert ops[0] in ops && forall op | op in ops[1..] :: op in ops;
      ApplyGrows(out, ops[0]);
      ExpandGrows(Apply(out, ops[0]).value, ops[1..]);
    }
  }

  // Reading back the bits of the symbols gives the lengths they stand for.
  lemma {:induction false} ReadLengthsExact(bl: seq<nat>, max: nat, ops: seq<Op>, rest: seq<bool>, out: seq<nat>)
    requires Fits(bl, max) && |bl| <= 19 && OpsCoded(bl, ops) && Expand(out, ops).Some?
    ensures ReadLengths(bl, OpsBits(bl, ops) + rest, out, |Expand(out, ops).value|)
            == Some((Expand(out, ops).value, rest))
    decreases |ops|
  {
    hide OpBits, ReadOp, OpFits;
    ExpandGrows(out, ops);
    if ops == [] {
      assert [] + rest == rest;
    } else {
      var op, ops' := ops[0], ops[1..];
      assert op in ops && forall o | o in ops' :: o in ops;
      assert [op] + ops' == ops;
      var o := Apply(out, op).value;
      OpsBitsCons(bl, op, ops');
      var bits := OpsBits(bl, ops) + rest;
      assert bits == OpBits(bl, op) + (OpsBits(bl, ops') + rest);
      ReadOpExact(bl, max, op, OpsBits(bl, ops') + rest);
      ReadLengthsExact(bl, max, ops', rest, o);
    }
  }
}
