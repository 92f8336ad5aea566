// Literal and match tokens, and what they stand for.
module Lz77 {

  type Byte = x: int | 0 <= x < 256

  datatype Option<+T> = None | Some(value: T)

  datatype Token = Literal(b: Byte) | Match(dist: nat, len: nat)

  const MIN_MATCH := 3
  const MAX_MATCH := 258
  const WSIZE := 0x8000
  const MIN_LOOKAHEAD := MAX_MATCH + MIN_MATCH + 1
  const LIT_BUFSIZE := 0x2000
  const MAX_DIST := WSIZE - MIN_LOOKAHEAD
  const FARTHEST := 32768         // the largest distance of section 3.2.5 of RFC 1951

  // Append len bytes, each copied from dist bytes back; the copy may read what it has just written.
  function CopyBack(out: seq<Byte>, dist: nat, len: nat): (r: seq<Byte>)
    requires 1 <= dist <= |out|
    ensures |r| == |out| + len
  {
    if len == 0 then out
    else
      var r := CopyBack(out, dist, len - 1);
      r + [r[|r| - dist]]
  }

  function Emit(out: seq<Byte>, t: Token): Option<seq<Byte>>
  {
    match t
    case Literal(b) => Some(out + [b])
    case Match(dist, len) =>
      if MIN_MATCH <= len <= MAX_MATCH && 1 <= dist <= FARTHEST && dist <= |out|
      then Some(CopyBack(out, dist, len))
      else None
  }

  // What a decoder holding `out` has after the tokens ts; None if one of them is illegal.
  function Replay(out: seq<Byte>, ts: seq<Token>): Option<seq<Byte>>
  {
    if ts == [] then Some(out)
    else
      match Replay(out, ts[..|ts| - 1])
      case None => None
      case Some(o) => Emit(o, ts[|ts| - 1])
  }

  lemma {:induction false} ReplaySnoc(out: seq<Byte>, ts: seq<Token>, t: Token)
    requires Replay(out, ts).Some?
    ensures Replay(out, ts + [t]) == Emit(Replay(out, ts).value, t)
  {
    assert (ts + [t])[..|ts|] == ts;
  }

  // The tokens turn out into result, with no match farther away than MAX_DIST.
  ghost predicate Replays(out: seq<Byte>, ts: seq<Token>, result: seq<Byte>)
  {
    Replay(out, ts) == Some(result) && forall i | 0 <= i < |ts| :: ts[i].Match? ==> ts[i].dist <= MAX_DIST
  }

  lemma {:induction false} ReplaysSnoc(out: seq<Byte>, ts: seq<Token>, mid: seq<Byte>, t: Token, result: seq<Byte>)
    requires Replays(out, ts, mid) && Emit(mid, t) == Some(result) && (t.Match? ==> t.dist <= MAX_DIST)
    ensures Replays(out, ts + [t], result)
  {
    ReplaySnoc(out, ts, t);
    hide Replay, Emit;
  }

  // Copying back by d reproduces the source wherever the source repeats itself at distance d.
  lemma {:induction false} CopyBackRepeats(src: seq<Byte>, pos: nat, d: nat, len: nat)
    requires 1 <= d <= pos && pos + len <= |src|
    requires forall i | pos <= i < pos + len :: src[i] == src[i - d]
    ensures CopyBack(src[..pos], d, len) == src[..pos + len]
  {
    if len != 0 {
      CopyBackRepeats(src, pos, d, len - 1);
      var r := src[..pos + len - 1];
      assert src[..pos + len] == r + [src[pos + len - 1]];
    }
  }

  // One call of flush_block: the tokens of the block, the number of input bytes they stand for,
  // and those bytes themselves when the window still holds them (buf != NULL).
  datatype Block = Block(tokens: seq<Token>, len: nat, stored: Option<seq<Byte>>, eof: bool)

  ghost predicate BlockCovers(b: Block, src: seq<Byte>, start: nat)
  {
    && start + b.len <= |src| && |b.tokens| < LIT_BUFSIZE
    && Replays(src[..start], b.tokens, src[..start + b.len])
    && (b.stored.Some? ==> b.stored.value == src[start..start + b.len] && b.len <= 65535)
  }

  // What the tokens of a block can be, in plain numbers: at most 8191 of them, with lengths 3 to 258 and distances 1 to 32506.
  lemma {:induction false} BlockLimits(b: Block, src: seq<Byte>, start: nat)
    requires BlockCovers(b, src, start)
    ensures |b.tokens| <= 8191 && MAX_DIST == 32506 && WSIZE == 32768
    ensures forall t | t in b.tokens && t.Match? :: 3 <= t.len <= 258 && 1 <= t.dist <= 32506
  {
    ReplayLimits(src[..start], b.tokens);
    forall t | t in b.tokens && t.Match? ensures 3 <= t.len <= 258 && 1 <= t.dist <= 32506 {
      var i :| 0 <= i < |b.tokens| && b.tokens[i] == t;
    }
  }

  lemma {:induction false} ReplayLimits(out: seq<Byte>, ts: seq<Token>)
    requires Replay(out, ts).Some?
    ensures forall t | t in ts && t.Match? :: 3 <= t.len <= 258 && 1 <= t.dist <= 32768
  {
    if ts != [] {
      ReplayLimits(out, ts[..|ts| - 1]);
      assert ts == ts[..|ts| - 1] + [ts[|ts| - 1]];
    }
  }

  // The blocks, in order, stand for exactly src[..end].
  ghost predicate Covers(blocks: seq<Block>, src: seq<Byte>, end: nat)
  {
    if blocks == [] then end == 0
    else
      var b := blocks[|blocks| - 1];
      && b.len <= end
      && Covers(blocks[..|blocks| - 1], src, end - b.len)
      && BlockCovers(b, src, end - b.len)
  }

  lemma {:induction false} CoversSnoc(blocks: seq<Block>, src: seq<Byte>, end: nat, b: Block)
    requires Covers(blocks, src, end) && BlockCovers(b, src, end)
    ensures Covers(blocks + [b], src, end + b.len)
  {
    assert (blocks + [b])[..|blocks|] == blocks;
  }
}
