// What the decoder has done by the end of a partly written stream.
module LzoReach {
  import opened Lz77
  import opened LzoFormat
  import opened LzoCode

  // Whatever follows, the decoder gets past s with out written and in the given mode; and it does so in place,
  // if the stream starts at least -low bytes after the output.
  ghost predicate Reaches(s: seq<Byte>, mode: Mode, out: seq<Byte>, cap: nat, low: int)
  {
    && low <= |s| - |out|
    && (forall rest: seq<Byte> :: rest != [] ==> Decode(s + rest, Start, [], cap) == Decode(rest, mode, out, cap))
    && (forall rest: seq<Byte>, at: int :: rest != [] && at + low >= 0 && Room(rest, mode, out, cap, at + |s| - |out|)
          ==> Room(s + rest, Start, [], cap, at))
  }

  lemma {:induction false} ReachesNothing(cap: nat)
    ensures Reaches([], Start, [], cap, 0)
  {
    hide Decode, Room;
    forall rest: seq<Byte> ensures [] + rest == rest { }
  }

  // One instruction b.
  ghost predicate Takes(b: seq<Byte>, mode: Mode, out: seq<Byte>, cap: nat, o: seq<Byte>, m: Mode)
  {
    forall rest: seq<Byte> :: rest != [] ==> Advance(b + rest, mode, out, cap) == Go(|b|, o, m)
  }

  // A gap after b that is at least need keeps b clear.
  ghost predicate Clears(b: seq<Byte>, mode: Mode, out: seq<Byte>, cap: nat, o: seq<Byte>, need: nat)
  {
    forall rest: seq<Byte>, gap: int :: rest != [] && gap + |b| - (|o| - |out|) >= need ==> Clear(b + rest, mode, |out|, cap, gap)
  }

  lemma {:induction false} DecodeGo(b: seq<Byte>, mode: Mode, out: seq<Byte>, cap: nat, o: seq<Byte>, m: Mode, rest: seq<Byte>)
    requires Takes(b, mode, out, cap, o, m) && rest != []
    ensures Decode(b + rest, mode, out, cap) == Decode(rest, m, o, cap)
  {
    hide Advance;
    assert Advance(b + rest, mode, out, cap) == Go(|b|, o, m);
    assert (b + rest)[|b|..] == rest;
  }

  lemma {:induction false} RoomGo(b: seq<Byte>, mode: Mode, out: seq<Byte>, cap: nat, o: seq<Byte>, m: Mode, need: nat,
                                  rest: seq<Byte>, gap: int)
    requires Takes(b, mode, out, cap, o, m) && Clears(b, mode, out, cap, o, need) && rest != []
    requires gap >= 0 && gap + |b| - (|o| - |out|) >= need && Room(rest, m, o, cap, gap + |b| - (|o| - |out|))
    ensures Room(b + rest, mode, out, cap, gap)
  {
    hide Advance, Clear;
    assert Advance(b + rest, mode, out, cap) == Go(|b|, o, m);
    assert (b + rest)[|b|..] == rest;
    assert Clear(b + rest, mode, |out|, cap, gap);
  }

  lemma {:induction false} Extend(s: seq<Byte>, mode: Mode, out: seq<Byte>, cap: nat, low: int,
                                  b: seq<Byte>, o: seq<Byte>, m: Mode, need: nat, low': int)
    requires Reaches(s, mode, out, cap, low) && Takes(b, mode, out, cap, o, m) && Clears(b, mode, out, cap, o, need)
    requires low' <= low && low' <= |s| + |b| - |o| - need
    ensures Reaches(s + b, m, o, cap, low')
  {
    hide Takes, Clears, Decode, Room;
    forall rest: seq<Byte> | rest != [] ensures Decode((s + b) + rest, Start, [], cap) == Decode(rest, m, o, cap) {
      assert (s + b) + rest == s + (b + rest);
      DecodeGo(b, mode, out, cap, o, m, rest);
    }
    forall rest: seq<Byte>, at: int | rest != [] && at + low' >= 0 && Room(rest, m, o, cap, at + |s + b| - |o|)
      ensures Room((s + b) + rest, Start, [], cap, at) {
      assert (s + b) + rest == s + (b + rest);
      RoomGo(b, mode, out, cap, o, m, need, rest, at + |s| - |out|);
    }
  }

  // A run whose head reads as such in any context.
  lemma {:induction false} ExtendRun(s: seq<Byte>, mode: Mode, out: seq<Byte>, cap: nat, low: int, head: seq<Byte>, lits: seq<Byte>)
    requires Reaches(s, mode, out, cap, low) && |lits| >= 1 && |out| + |lits| <= cap && |head| >= 1
    requires forall rest: seq<Byte> :: ReadHead(head + rest, mode) == RunHead(|head|, |lits|)
    ensures Reaches(s + (head + lits), ModeAfter(|lits|), out + lits, cap, low)
  {
    hide Reaches, ReadHead;
    var b, o := head + lits, out + lits;
    forall rest: seq<Byte> | rest != []
      ensures Advance(b + rest, mode, out, cap) == Go(|b|, o, ModeAfter(|lits|)) && ReadHead(b + rest, mode) == RunHead(|head|, |lits|) {
      assert b + rest == head + (lits + rest);
      assert (b + rest)[|head|..|head| + |lits|] == lits;
    }
    assert low <= |s| - |out| by { LowBound(s, mode, out, cap, low); }
    Extend(s, mode, out, cap, low, b, o, ModeAfter(|lits|), 0, low);
  }

  lemma {:induction false} LowBound(s: seq<Byte>, mode: Mode, out: seq<Byte>, cap: nat, low: int)
    requires Reaches(s, mode, out, cap, low)
    ensures low <= |s| - |out|
  {
  }

  // A match and the literals after it.
  lemma {:induction false} ExtendMatch(s: seq<Byte>, mode: Mode, out: seq<Byte>, cap: nat, low: int,
                                       m: seq<Byte>, off: nat, len: nat, lits: seq<Byte>, low': int)
    requires Reaches(s, mode, out, cap, low) && |lits| < 4 && 1 <= off <= |out| && |out| + len + |lits| <= cap && |m| >= 1
    requires forall rest: seq<Byte> :: ReadHead(m + rest, mode) == MatchHead(|m|, off, len, |lits|)
    requires low' <= low && low' <= |s| + |m| - |out| - len - 2
    ensures Reaches(s + (m + lits), ModeAfter(|lits|), CopyBack(out, off, len) + lits, cap, low')
  {
    hide Reaches, ReadHead;
    var b, o := m + lits, CopyBack(out, off, len) + lits;
    forall rest: seq<Byte> | rest != []
      ensures Advance(b + rest, mode, out, cap) == Go(|b|, o, ModeAfter(|lits|)) && ReadHead(b + rest, mode) == MatchHead(|m|, off, len, |lits|) {
      assert b + rest == m + (lits + rest);
      assert (b + rest)[|m|..|m| + |lits|] == lits;
      assert lits == [] ==> o == CopyBack(out, off, len);
    }
    Extend(s, mode, out, cap, low, b, o, ModeAfter(|lits|), 2, low');
  }

  // A stream that ends with a match, whose literal count can still be patched in.
  ghost predicate Ready(s: seq<Byte>, out: seq<Byte>, cap: nat, low: int)
  {
    && |s| >= 2 && s[|s| - 2] % 4 == 0
    && forall lits: seq<Byte> :: |lits| < 4 && |out| + |lits| <= cap
         ==> Reaches(Patched(s, |lits|) + lits, ModeAfter(|lits|), out + lits, cap, low)
  }

  lemma {:induction false} ReadyNow(s: seq<Byte>, out: seq<Byte>, cap: nat, low: int)
    requires Ready(s, out, cap, low) && |out| <= cap
    ensures Reaches(s, Fresh, out, cap, low)
  {
    hide Reaches;
    var none: seq<Byte> := [];
    assert Patched(s, |none|) + none == s && out + none == out;
    assert Reaches(Patched(s, |none|) + none, ModeAfter(|none|), out + none, cap, low);
  }

  // Any match that can be coded after lit literals.
  lemma {:induction false} MatchReady(s: seq<Byte>, lit: nat, out: seq<Byte>, cap: nat, low: int, len: nat, off: nat, low': int)
    requires Reaches(s, ModeAfter(lit), out, cap, low) && Codable(len, off, lit) && 1 <= off <= |out| && |out| + len <= cap
    requires low' <= low && low' <= |s| + |MatchCode(len, off, lit)| - |out| - len - 2
    ensures Ready(s + MatchCode(len, off, lit), CopyBack(out, off, len), cap, low')
  {
    hide Reaches, ReadHead, MatchCode, Codable, Patched;
    var m, o := MatchCode(len, off, lit), CopyBack(out, off, len);
    MatchExact(len, off, lit, 0, []);
    assert (s + m)[|s + m| - 2] == m[|m| - 2];
    forall lits: seq<Byte> | |lits| < 4 && |o| + |lits| <= cap
      ensures Reaches(Patched(s + m, |lits|) + lits, ModeAfter(|lits|), o + lits, cap, low') {
      var k := |lits|;
      forall rest: seq<Byte> ensures ReadHead(Patched(m, k) + rest, ModeAfter(lit)) == MatchHead(|m|, off, len, k) {
        MatchExact(len, off, lit, k, rest);
      }
      ExtendMatch(s, ModeAfter(lit), out, cap, low, Patched(m, k), off, len, lits, low');
      PatchAfter(s, m, k);
      assert s + (Patched(m, k) + lits) == Patched(s + m, k) + lits;
    }
  }

  lemma {:induction false} PatchAfter(s: seq<Byte>, m: seq<Byte>, k: nat)
    requires |m| >= 2 && m[|m| - 2] % 4 == 0 && k < 4
    ensures (s + m)[|s + m| - 2] % 4 == 0 && Patched(s + m, k) == s + Patched(m, k)
  {
  }

  // The end marker.
  lemma {:induction false} Finish(s: seq<Byte>, mode: Mode, out: seq<Byte>, cap: nat, low: int, at: int)
    requires Reaches(s, mode, out, cap, low)
    ensures Decode(s + [17, 0, 0], Start, [], cap) == Outcome(OK, out)
    ensures at + low >= 0 ==> Room(s + [17, 0, 0], Start, [], cap, at)
  {
    var e: seq<Byte> := [17, 0, 0];
    assert ReadHead(e, mode) == EndHead(3);
    if at + low >= 0 { assert Room(e, mode, out, cap, at + |s| - |out|); }
  }
}
