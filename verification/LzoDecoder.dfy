// lzo1x_decompress_safe (lzo1x_d.c), on one memory that may hold the stream and the output overlapping.
module LzoDecoder {
  import opened Lz77
  import opened LzoFormat

  // An instruction without the literal count that is read after the copy.
  datatype Instr = Run(count: nat) | Copy(off: nat, len: nat) | End | Fail(status: Status)

  ghost predicate Agrees(i: Instr, h: Head, used: nat)
  {
    match h
    case Stop(status) => i == Fail(status)
    case EndHead(size) => i == End && used == size
    case RunHead(size, c) => i == Run(c) && used == size
    case MatchHead(size, off, len, _) => i == Copy(off, len) && used == size
  }

  // The copy loop, with the pointers as indices.
  method CopyDown(mem: array<Byte>, o0: nat, i0: nat, t: nat)
    requires o0 + t <= mem.Length && i0 + t <= mem.Length
    modifies mem
    ensures forall j | 0 <= j < o0 :: mem[j] == old(mem[j])
    ensures o0 <= i0 ==> forall j | o0 <= j < o0 + t :: mem[j] == old(mem[i0..i0 + t])[j - o0]
    ensures forall j | o0 + t <= j < mem.Length :: mem[j] == old(mem[j])
  {
    ghost var lits := mem[i0..i0 + t];
    var n := 0;
    while n < t
      invariant n <= t
      invariant forall j | 0 <= j < o0 :: mem[j] == old(mem[j])
      invariant o0 <= i0 ==> forall j | o0 <= j < o0 + n :: mem[j] == lits[j - o0]
      invariant forall j | o0 + n <= j < mem.Length :: mem[j] == old(mem[j])
    {
      assert o0 <= i0 ==> mem[i0 + n] == lits[n];
      mem[o0 + n] := mem[i0 + n];
      n := n + 1;
    }
  }

  class Decoder {
    const mem: array<Byte>        // the output buffer starts at 0
    const ipEnd: nat
    const opEnd: nat
    var ip: nat
    var op: nat

    ghost predicate Valid()
      reads this
    {
      ip <= ipEnd <= mem.Length && op <= opEnd <= mem.Length
    }

    // What is still to be read, and what has been written.
    ghost function Rest(): seq<Byte>
      reads this, mem
      requires Valid()
    {
      mem[ip..ipEnd]
    }

    ghost function Out(): seq<Byte>
      reads this, mem
      requires Valid()
    {
      mem[..op]
    }

    constructor (mem: array<Byte>, at: nat, n: nat, cap: nat)
      requires at + n <= mem.Length && cap <= mem.Length
      ensures this.mem == mem && ip == at && ipEnd == at + n && op == 0 && opEnd == cap
    {
      this.mem, ip, ipEnd, op, opEnd := mem, at, at + n, 0, cap;
    }

    // while (*ip == 0) t += 255, ip++;  t += *ip++, with a test for the end of the input before each byte
    method FetchExt() returns (ok: bool, t: nat)
      requires Valid()
      modifies this`ip
      ensures Valid() && ip >= old(ip) && (ok <==> ReadExt(old(Rest())).Some?)
      ensures ok ==> ReadExt(old(Rest())).value == (t, ip - old(ip))
    {
      t := 0;
      ghost var b := Rest();
      ok := true;
      while true
        invariant Valid() && ip >= old(ip) && t == 255 * (ip - old(ip))
        invariant ReadExt(b).Some? <==> ReadExt(Rest()).Some?
        invariant ReadExt(b).Some? ==>
                    ReadExt(b).value == (ReadExt(Rest()).value.0 + t, ReadExt(Rest()).value.1 + (ip - old(ip)))
        decreases ipEnd - ip
      {
        if ip == ipEnd {
          ok := false;
          return;
        }
        if mem[ip] != 0 {
          break;
        }
        assert Rest()[1..] == mem[ip + 1..ipEnd];
        t := t + 255;
        ip := ip + 1;
      }
      t := t + mem[ip];
      ip := ip + 1;
    }

    // The two offset bytes.
    method FetchFar(len: nat, base: nat, ghost b: seq<Byte>, ghost size: nat) returns (i: Instr)
      requires Valid() && size <= |b| && Rest() == b[size..]
      modifies this`ip
      ensures Valid() && ip >= old(ip) && Agrees(i, FarHead(b, size, len, base), size + ip - old(ip))
    {
      if ipEnd - ip < 2 {
        i := Fail(InputOverrun);
      } else {
        assert mem[ip] == Rest()[0] == b[size] && mem[ip + 1] == Rest()[1] == b[size + 1];
        var x: nat, y: nat := mem[ip], mem[ip + 1];
        ip := ip + 2;
        i := Copy(base + x / 4 + 64 * y, len);
      }
    }

    // A match whose first byte t is at least 16.
    method FetchMatch(t: nat, ghost b: seq<Byte>) returns (i: Instr)
      requires Valid() && b != [] && b[0] == t >= 16 && Rest() == b[1..]
      modifies this`ip
      ensures Valid() && ip >= old(ip) && Agrees(i, ReadMatch(b), 1 + ip - old(ip))
    {
      hide ReadExt;
      if t >= 64 {
        if ip == ipEnd {
          return Fail(InputOverrun);
        }
        assert mem[ip] == Rest()[0] == b[1];
        var y: nat := mem[ip];
        ip := ip + 1;
        i := Copy(1 + t / 4 % 8 + 8 * y, t / 32 + 1);
      } else if t >= 32 {
        var len, ok := t % 32, true;
        if len == 0 {
          ok, len := FetchExt();
          len := len + 31;
        }
        if !ok {
          return Fail(InputOverrun);
        }
        ghost var size := 1 + ip - old(ip);
        assert Rest() == b[size..];
        i := FetchFar(len + 2, 1, b, size);
      } else {
        i := FetchM4(t, b);
      }
    }

    method FetchM4(t: nat, ghost b: seq<Byte>) returns (i: Instr)
      requires Valid() && b != [] && 16 <= b[0] == t < 32 && Rest() == b[1..]
      modifies this`ip
      ensures Valid() && ip >= old(ip) && Agrees(i, ReadMatch(b), 1 + ip - old(ip))
    {
      hide ReadExt;
      var base := if t / 8 % 2 == 1 then 0x4000 else 0;
      var len, ok := t % 8, true;
      if len == 0 {
        ok, len := FetchExt();
        len := len + 7;
      }
      if !ok {
        return Fail(InputOverrun);
      }
      ghost var size := 1 + ip - old(ip);
      assert Rest() == b[size..];
      i := FetchFar(len + 2, base, b, size);
      if i.Copy? {
        i := if i.off == 0 then End else Copy(i.off + 0x4000, i.len);
      }
    }

    // The coded part of the next instruction.
    method Fetch(mode: Mode) returns (i: Instr)
      requires Valid()
      modifies this`ip
      ensures Valid() && ip >= old(ip) && Agrees(i, ReadHead(old(Rest()), mode), ip - old(ip))
    {
      hide ReadExt, ReadMatch;
      ghost var b := Rest();
      if ip == ipEnd {
        return Fail(EofNotFound);
      }
      var t: nat := mem[ip];
      assert b[0] == t;
      ip := ip + 1;
      assert Rest() == b[1..];
      if mode == Start && t > 17 {
        i := Run(t - 17);
      } else if mode == AfterLits && ip == ipEnd {
        i := Fail(EofNotFound);
      } else if t >= 16 {
        i := FetchMatch(t, b);
      } else if mode == AfterRun || mode == AfterLits {
        i := FetchNear(t, if mode == AfterRun then M2_MAX_OFFSET else 0, if mode == AfterRun then 3 else 2, b);
      } else if t != 0 {
        i := Run(t + 3);
      } else {
        var ok, n := FetchExt();
        i := if ok then Run(n + 18) else Fail(InputOverrun);
      }
    }

    method FetchNear(t: nat, base: nat, len: nat, ghost b: seq<Byte>) returns (i: Instr)
      requires Valid() && b != [] && b[0] == t && Rest() == b[1..]
      modifies this`ip
      ensures Valid() && ip >= old(ip) && Agrees(i, NearHead(b, base, len), 1 + ip - old(ip))
    {
      if ip == ipEnd {
        return Fail(InputOverrun);
      }
      assert mem[ip] == Rest()[0] == b[1];
      var y: nat := mem[ip];
      ip := ip + 1;
      i := Copy(1 + base + t / 4 + 4 * y, len);
    }

    // do *op++ = *ip++; while (--t > 0);
    method CopyLits(t: nat)
      requires Valid() && op + t <= opEnd && ip + t <= ipEnd
      modifies mem, this`ip, this`op
      ensures Valid() && ip == old(ip) + t && op == old(op) + t
      ensures old(op <= ip) ==> Out() == old(Out()) + old(Rest())[..t] && Rest() == old(Rest())[t..]
      ensures old(op <= ip) ==> mem[op..] == old(mem[..])[op..]
    {
      ghost var m0: seq<Byte>, i0, o0 := mem[..], ip, op;
      CopyDown(mem, op, ip, t);
      op := op + t;
      ip := ip + t;
      if o0 <= i0 { LitsMoved(mem[..], m0, o0, i0, t, ipEnd); }
    }

    // *op++ = *m_pos++, len times, from off bytes back
    method CopyMatch(off: nat, len: nat)
      requires Valid() && 1 <= off <= op && op + len <= opEnd
      modifies mem, this`op
      ensures Valid() && op == old(op) + len && Out() == CopyBack(old(Out()), off, len)
      ensures mem[op..] == old(mem[..])[op..]
    {
      ghost var m0: seq<Byte>, o0, out := mem[..], op, Out();
      var mPos, n := op - off, 0;
      while n < len
        invariant n <= len && op == o0 + n && mPos == op - off
        invariant mem[..op] == CopyBack(out, off, n) && mem[op..] == m0[op..]
      {
        ghost var o := mem[..op];
        assert mem[mPos] == o[mPos];
        mem[op] := mem[mPos];
        op := op + 1;
        mPos := mPos + 1;
        n := n + 1;
        assert mem[..op] == o + [o[|o| - off]];
        assert mem[op..] == m0[op - 1..][1..];
      }
    }

    // NEED_OP(t); NEED_IP(t + 1); and the literals
    method TakeLits(t: nat, ghost b: seq<Byte>, ghost size: nat) returns (st: Status)
      requires Valid()
      modifies mem, this`ip, this`op
      ensures Valid() && ip >= old(ip) && (st == OK ==> ip == old(ip) + t)
      ensures old(op <= ip && size <= |b| && Rest() == b[size..]) ==>
                && st == LitsCheck(b, size, t, old(op), opEnd) && (st != OK ==> Out() == old(Out()))
                && (st == OK ==> op == old(op) + t && Out() == old(Out()) + b[size..size + t] && Rest() == b[size + t..])
    {
      if opEnd - op < t {
        return OutputOverrun;
      }
      if ipEnd - ip < t + 1 {
        return InputOverrun;
      }
      st := OK;
      ghost var right := op <= ip && size <= |b| && Rest() == b[size..];
      if right { Tail(b, size, t); }
      CopyLits(t);
    }

    // The copy, then the literals whose number is in the second byte before ip.
    method TakeCopy(off: nat, len: nat, ghost b: seq<Byte>, ghost size: nat, ghost k: nat) returns (st: Status, lits: nat)
      requires Valid() && 2 <= size <= |b| && Rest() == b[size..] && ip >= size && mem[ip - 2] % 4 == k
      modifies mem, this`ip, this`op
      ensures Valid() && ip >= old(ip)
      ensures old(CopyCheck(off, len, op, opEnd) == OK ==> op + len + 2 <= ip) ==>
                var s := TakeMatch(b, size, off, len, k, old(Out()), opEnd);
                && (s.Halt? ==> st != OK && s.outcome == Outcome(st, Out()))
                && (s.Go? ==> st == OK && lits == k && Out() == s.out && ip == old(ip) + (s.used - size) && Rest() == b[s.used..])
    {
      lits := 0;
      if op < off || off == 0 {
        return LookbehindOverrun, 0;
      }
      if opEnd - op < len {
        return OutputOverrun, 0;
      }
      ghost var m0: seq<Byte> := mem[..];
      CopyMatch(off, len);
      if op + 2 <= ip { Unwritten(m0, mem[..], op, ip, ipEnd); }
      lits := mem[ip - 2] % 4;
      st := OK;
      if lits != 0 {
        st := TakeLits(lits, b, size);
      }
    }

    // The state agrees with the outcome s of an instruction that started with b at ip0.
    ghost predicate Did(s: LzoFormat.Step, b: seq<Byte>, ip0: nat, st: Status, done: bool, mode: Mode)
      reads this, mem
      requires Valid()
    {
      && (s.Halt? ==> done && s.outcome == Outcome(st, Out()))
      && (s.Go? ==> !done && mode == s.mode && Out() == s.out && ip == ip0 + s.used && s.used <= |b| && Rest() == b[s.used..])
    }

    method DoStop(s: Status, mode: Mode, ghost b: seq<Byte>, ghost ip0: nat) returns (st: Status, done: bool, mode': Mode)
      requires Valid()
      ensures done && Did(Halt(Outcome(s, Out())), b, ip0, st, done, mode')
    {
      st, done, mode' := s, true, mode;
    }

    method DoRun(t: nat, ghost b: seq<Byte>, ghost size: nat) returns (st: Status, done: bool, mode: Mode)
      requires Valid() && size <= |b| && size <= ip && Rest() == b[size..]
      modifies mem, this`ip, this`op
      ensures Valid() && ip >= old(ip)
      ensures old(op <= ip) ==> Did(TakeRun(b, size, t, old(Out()), opEnd), b, old(ip) - size, st, done, mode)
    {
      st := TakeLits(t, b, size);
      done := st != OK;
      mode := ModeAfter(t);
    }

    method DoCopy(off: nat, len: nat, ghost b: seq<Byte>, ghost size: nat, ghost k: nat) returns (st: Status, done: bool, mode: Mode)
      requires Valid() && 2 <= size <= |b| && Rest() == b[size..] && ip >= size && mem[ip - 2] % 4 == k < 4
      modifies mem, this`ip, this`op
      ensures Valid() && ip >= old(ip)
      ensures old(CopyCheck(off, len, op, opEnd) == OK ==> op + len + 2 <= ip) ==>
                Did(TakeMatch(b, size, off, len, k, old(Out()), opEnd), b, old(ip) - size, st, done, mode)
    {
      hide TakeMatch;
      CopyMode(b, size, off, len, k, Out(), opEnd);
      var lits;
      st, lits := TakeCopy(off, len, b, size, k);
      done := st != OK;
      mode := if lits == 0 then Fresh else AfterLits;
    }

    // One instruction.
    method Step(mode: Mode) returns (st: Status, done: bool, mode': Mode)
      requires Valid()
      modifies mem, this`ip, this`op
      ensures Valid() && (done || ip > old(ip))
      ensures old(op <= ip && Clear(Rest(), mode, op, opEnd, ip - op)) ==>
                Did(Advance(old(Rest()), mode, old(Out()), opEnd), old(Rest()), old(ip), st, done, mode')
    {
      hide ReadHead, TakeMatch, TakeRun, Advance, CopyCheck, Clear, Did;
      ghost var b, o, ip0 := Rest(), Out(), ip;
      ghost var h := ReadHead(b, mode);
      AdvanceIs(b, mode, o, opEnd);
      if h.MatchHead? && Clear(b, mode, op, opEnd, ip - op) { ClearIs(b, mode, op, opEnd, ip - op); }
      var i := Fetch(mode);
      ghost var size := ip - ip0;
      RestFrom(mem[..], ip0, ip, ipEnd);
      match i {
        case Fail(s) => st, done, mode' := DoStop(s, mode, b, ip0);
        case End => st, done, mode' := DoStop(if ip == ipEnd then OK else InputNotConsumed, mode, b, ip0);
        case Run(t) => st, done, mode' := DoRun(t, b, size);
        case Copy(off, len) =>
          assert h.MatchHead? && size == h.size;
          st, done, mode' := DoCopy(off, len, b, size, h.lits);
      }
    }
  }

  lemma {:induction false} AdvanceIs(b: seq<Byte>, mode: Mode, out: seq<Byte>, cap: nat)
    ensures Advance(b, mode, out, cap) ==
            match ReadHead(b, mode)
            case Stop(status) => Halt(Outcome(status, out))
            case EndHead(size) => Halt(Outcome(if |b| == size then OK else InputNotConsumed, out))
            case RunHead(size, c) => TakeRun(b, size, c, out, cap)
            case MatchHead(size, off, len, k) => TakeMatch(b, size, off, len, k, out, cap)
  {
    hide ReadHead, TakeMatch, TakeRun;
  }

  // t bytes copied down from i0 to o0.
  lemma {:induction false} LitsMoved(m: seq<Byte>, m0: seq<Byte>, o0: nat, i0: nat, t: nat, end: nat)
    requires |m| == |m0| && o0 <= i0 && i0 + t <= end <= |m|
    requires forall j | 0 <= j < o0 :: m[j] == m0[j]
    requires forall j | o0 <= j < o0 + t :: m[j] == m0[i0..i0 + t][j - o0]
    requires forall j | o0 + t <= j < |m| :: m[j] == m0[j]
    ensures m[..o0 + t] == m0[..o0] + m0[i0..end][..t] && m[i0 + t..end] == m0[i0..end][t..] && m[o0 + t..] == m0[o0 + t..]
  {
    var lits := m0[i0..i0 + t];
    assert m0[i0..end][..t] == lits && m0[i0..end][t..] == m0[i0 + t..end];
    assert m[..o0 + t] == m0[..o0] + lits;
    assert m[i0 + t..end] == m0[i0 + t..end];
  }

  lemma {:induction false} CopyMode(b: seq<Byte>, size: nat, off: nat, len: nat, k: nat, out: seq<Byte>, cap: nat)
    requires size <= |b| && k < 4
    ensures var s := TakeMatch(b, size, off, len, k, out, cap); s.Go? ==> s.mode == if k == 0 then Fresh else AfterLits
  {
  }

  lemma {:induction false} ClearIs(b: seq<Byte>, mode: Mode, n: nat, cap: nat, gap: int)
    requires ReadHead(b, mode).MatchHead? && Clear(b, mode, n, cap, gap)
    ensures var h := ReadHead(b, mode); CopyCheck(h.off, h.len, n, cap) == OK ==> h.len + 2 <= gap + h.size
  {
    hide ReadHead, CopyCheck;
  }

  lemma {:induction false} RestFrom(m: seq<Byte>, ip0: nat, ip: nat, end: nat)
    requires ip0 <= ip <= end <= |m|
    ensures m[ip..end] == m[ip0..end][ip - ip0..] && (ip0 + 2 <= ip ==> m[ip - 2] == m[ip0..end][ip - ip0 - 2])
  {
  }

  // Writing below op leaves alone what is from two bytes before ip on.
  lemma {:induction false} Unwritten(m0: seq<Byte>, m: seq<Byte>, op: nat, ip: nat, end: nat)
    requires |m| == |m0| && op + 2 <= ip <= end <= |m| && m[op..] == m0[op..]
    ensures m[ip - 2] == m0[ip - 2] && m[ip..end] == m0[ip..end]
  {
    assert m[ip - 2] == m[op..][ip - 2 - op] && m0[ip - 2] == m0[op..][ip - 2 - op];
    assert m[ip..] == m[op..][ip - op..] && m0[ip..] == m0[op..][ip - op..];
    assert m[ip..end] == m[ip..][..end - ip] && m0[ip..end] == m0[ip..][..end - ip];
  }

  lemma {:induction false} Unfold(b: seq<Byte>, mode: Mode, out: seq<Byte>, cap: nat, gap: int)
    requires Room(b, mode, out, cap, gap)
    ensures gap >= 0 && Clear(b, mode, |out|, cap, gap)
    ensures var s := Advance(b, mode, out, cap);
            && (s.Halt? ==> Decode(b, mode, out, cap) == s.outcome)
            && (s.Go? ==> 1 <= s.used <= |b| && Decode(b, mode, out, cap) == Decode(b[s.used..], s.mode, s.out, cap)
                          && Room(b[s.used..], s.mode, s.out, cap, gap + s.used - (|s.out| - |out|)))
  {
    hide Advance, Clear;
  }

  // lzo1x_decompress_safe: n bytes of stream at position at, room for cap bytes at position 0. The two may overlap. If
  // the stream leaves Room the outcome is that of the specification, for every stream.
  method Decompress(mem: array<Byte>, at: nat, n: nat, cap: nat) returns (st: Status, outLen: nat)
    requires at + n <= mem.Length && cap <= mem.Length
    modifies mem
    ensures outLen <= cap
    ensures old(Room(mem[at..at + n], Start, [], cap, at)) ==>
              Outcome(st, mem[..outLen]) == Decode(old(mem[at..at + n]), Start, [], cap)
  {
    hide Advance, Decode, Room, Clear;
    var d := new Decoder(mem, at, n, cap);
    ghost var room, want := Room(mem[at..at + n], Start, [], cap, at), Decode(mem[at..at + n], Start, [], cap);
    var mode, done := Start, false;
    st := OK;
    assert mem[..0] == [];
    while !done
      invariant d.Valid() && fresh(d) && d.mem == mem && d.opEnd == cap
      invariant room && !done ==> want == Decode(d.Rest(), mode, d.Out(), cap) && Room(d.Rest(), mode, d.Out(), cap, d.ip - d.op)
      invariant room && done ==> want == Outcome(st, d.Out())
      decreases !done, d.ipEnd - d.ip
    {
      if room { Unfold(d.Rest(), mode, d.Out(), cap, d.ip - d.op); }
      st, done, mode := d.Step(mode);
    }
    outLen := d.op;
  }

  lemma {:induction false} Tail(b: seq<Byte>, size: nat, t: nat)
    requires size + t <= |b|
    ensures b[size..][..t] == b[size..size + t] && b[size..][t..] == b[size + t..]
  {
  }
}
