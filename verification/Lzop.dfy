// The block loops of lzop.c: blocks compressed, checksummed, and decompressed in place.
module Lzop {
  import opened Lz77
  import opened LzoFormat
  import opened LzoCompress
  import opened Adler32
  import D = LzoDecoder
  import Z = LzoOptimize
  import opened Lzo999

  const ADLER32_INIT := 1
  const MAX_BLOCK_SIZE := 64 * 1024 * 1024

  // A block of the file: the size of its text, the data stored for it, and the checksum of the text.
  datatype Record = Record(len: nat, data: seq<Byte>, sum: nat)

  // The data stands for the text, and can be decoded in place from the end of a buffer.
  ghost predicate Holds(rec: Record, text: seq<Byte>)
  {
    && rec.len == |text| > 0 && 0 < |rec.data| <= rec.len && rec.sum == Checksum(text)
    && (|rec.data| == rec.len ==> rec.data == text)
    && (|rec.data| < rec.len ==> Decode(rec.data, Start, [], rec.len) == Outcome(OK, text) && InPlace(rec.data, rec.len))
  }

  ghost predicate InPlace(data: seq<Byte>, len: nat)
  {
    forall at: int :: at + |data| >= MaxCompressedSize(len) ==> Room(data, Start, [], len, at)
  }

  function Checksum(text: seq<Byte>): nat
  {
    var w := Adler(Sums(1, 0), text);
    w.s2 * 0x10000 + w.s1
  }

  // How a block is compressed: LZO1X_1 and LZO1X_1_15 with a dictionary, or LZO1X_999 and the optimizer.
  datatype Method = Fast | Best(maxLazy: nat, useBestOff: bool)

  // The matches reported for each text.
  type Finder = seq<Byte> -> seq<Found>

  ghost predicate Sound(find: Finder)
  {
    forall text: seq<Byte> :: AllHonest(text, find(text))
  }

  lemma {:induction false} SoundAt(find: Finder, text: seq<Byte>)
    requires Sound(find)
    ensures AllHonest(text, find(text))
  {
    hide AllHonest;
  }

  // One turn of lzo_compress with LZO1X_1 or LZO1X_1_15.
  method PackBlock(text: seq<Byte>, dict: array<int>) returns (rec: Record)
    requires text != [] && dict.Length > 0
    modifies dict
    ensures Holds(rec, text)
  {
    hide Decode, Room, Adler;
    var sum := LzoAdler32(ADLER32_INIT, Some(text));
    var data := Compress(text, dict);
    if |data| < |text| {
      rec := Record(|text|, data, sum);
    } else {
      rec := Record(|text|, text, sum);
    }
  }

  // One turn of lzo_compress with LZO1X_999; ok is false where lzop reports that the optimization failed.
  method PackBest(text: seq<Byte>, answers: seq<Found>, maxLazy: nat, useBestOff: bool) returns (ok: bool, rec: Record)
    requires text != [] && AllHonest(text, answers)
    ensures ok && Holds(rec, text)
  {
    hide Decode, Room, Adler, AllHonest;
    var n := |text|;
    var sum := LzoAdler32(ADLER32_INIT, Some(text));
    var data := Compress999(text, answers, maxLazy, useBestOff);
    ok := true;
    if |data| < n {
      ghost var gap := MaxCompressedSize(n) - |data|;
      var mem := new Byte[n + |data|](i requires 0 <= i < n + |data| => if i < n then text[i] else data[i - n]);
      assert mem[n..n + |data|] == data;
      var newLen := Z.Optimize(mem, n, |data|, n, gap);
      ok := newLen == n;
      data := mem[n..n + |data|];
      ShiftedRoom(data, n, gap);
      rec := Record(n, data, sum);
    } else {
      rec := Record(n, text, sum);
    }
  }

  lemma {:induction false} ShiftedRoom(data: seq<Byte>, len: nat, gap: int)
    requires Room(data, Start, [], len, gap) && gap + |data| == MaxCompressedSize(len)
    ensures InPlace(data, len)
  {
    hide Room;
    forall at: int | at + |data| >= MaxCompressedSize(len) ensures Room(data, Start, [], len, at) {
      RoomGrows(data, Start, [], len, gap, at);
    }
  }

  // One turn of lzo_decompress, given the block size so far: the buffer grows with the blocks. ok is false where lzop
  // gives up.
  method UnpackBlock(rec: Record, blockSize: nat) returns (ok: bool, text: seq<Byte>, blockSize': nat)
    ensures forall t: seq<Byte> :: Holds(rec, t) && rec.len <= MAX_BLOCK_SIZE ==> ok && text == t
    ensures ok ==> |text| == rec.len && rec.sum == Checksum(text) && 0 < |rec.data| <= rec.len <= blockSize'
    ensures rec.len > 67108864 || rec.data == [] || |rec.data| > rec.len ==> !ok
    ensures blockSize <= blockSize' && (blockSize' <= MAX_BLOCK_SIZE || blockSize' == blockSize)
  {
    hide Decode, Room, Adler, InPlace;
    blockSize' := blockSize;
    if rec.len > MAX_BLOCK_SIZE || |rec.data| == 0 || |rec.data| > rec.len {
      return false, [], blockSize';
    }
    if rec.len > blockSize' {
      blockSize' := rec.len;
    }
    var mcs := MaxCompressedSize(blockSize');
    var mem := new Byte[mcs](_ => 0);
    var at := mcs - |rec.data|;
    forall i | 0 <= i < |rec.data| { mem[at + i] := rec.data[i]; }
    assert mem[at..at + |rec.data|] == rec.data;
    if |rec.data| < rec.len {
      if InPlace(rec.data, rec.len) { RoomAtEnd(rec.data, rec.len, at); }
      var st, n := D.Decompress(mem, at, |rec.data|, rec.len);
      if st != OK || n != rec.len {
        return false, [], blockSize';
      }
      text := mem[..n];
      assert InPlace(rec.data, rec.len) ==> Decode(rec.data, Start, [], rec.len) == Outcome(OK, text);
    } else {
      text := mem[at..];
      assert text == mem[at..at + |rec.data|];
    }
    assert |text| == rec.len;
    var sum := LzoAdler32(ADLER32_INIT, Some(text));
    ok := sum == rec.sum;
  }

  // MAX_COMPRESSED_SIZE and MAX_BLOCK_SIZE in plain numbers.
  lemma {:induction false} BufferSizes(n: nat)
    ensures MaxCompressedSize(n) == n + n / 16 + 67 && MAX_BLOCK_SIZE == 67108864
  {
  }

  lemma {:induction false} RoomAtEnd(data: seq<Byte>, len: nat, at: nat)
    requires InPlace(data, len) && at + |data| >= MaxCompressedSize(len)
    ensures Room(data, Start, [], len, at)
  {
  }

  // ---- whole files ----

  ghost predicate AllHold(recs: seq<Record>, texts: seq<seq<Byte>>, blockSize: nat)
  {
    |recs| == |texts| && forall i | 0 <= i < |recs| :: Holds(recs[i], texts[i]) && recs[i].len <= blockSize
  }

  function Joined(texts: seq<seq<Byte>>): seq<Byte>
  {
    if texts == [] then [] else Joined(texts[..|texts| - 1]) + texts[|texts| - 1]
  }

  // lzo_compress: blocks of up to blockSize bytes; every read but the last fills a block. ok is false where lzop gives up.
  method PackFile(input: seq<Byte>, blockSize: nat, how: Method, dict: array<int>, find: Finder)
    returns (ok: bool, recs: seq<Record>, ghost texts: seq<seq<Byte>>)
    requires blockSize > 0 && dict.Length > 0 && Sound(find)
    modifies dict
    ensures ok && AllHold(recs, texts, blockSize) && Joined(texts) == input
  {
    hide Holds, Sound, AllHonest;
    recs, texts := [], [];
    var pos := 0;
    while pos < |input|
      invariant pos <= |input| && AllHold(recs, texts, blockSize) && Joined(texts) == input[..pos]
    {
      var n := if |input| - pos < blockSize then |input| - pos else blockSize;
      var text := input[pos..pos + n];
      var rec;
      match how {
        case Fast =>
          ok := true;
          rec := PackBlock(text, dict);
        case Best(maxLazy, useBestOff) =>
          SoundAt(find, text);
          ok, rec := PackBest(text, find(text), maxLazy, useBestOff);
      }
      if !ok { return; }
      assert rec.len == n by { HoldsLen(rec, text); }
      assert (texts + [text])[..|texts|] == texts;
      assert input[..pos] + text == input[..pos + n];
      recs, texts := recs + [rec], texts + [text];
      pos := pos + n;
    }
    assert input[..pos] == input;
    ok := true;
  }

  lemma {:induction false} HoldsLen(rec: Record, text: seq<Byte>)
    requires Holds(rec, text)
    ensures rec.len == |text|
  {
  }

  // lzo_decompress, starting with any block size.
  method UnpackFile(recs: seq<Record>, blockSize0: nat, ghost limit: nat, ghost texts: seq<seq<Byte>>) returns (ok: bool, out: seq<Byte>)
    requires AllHold(recs, texts, limit) && limit <= MAX_BLOCK_SIZE
    ensures ok && out == Joined(texts)
  {
    hide Holds;
    out := [];
    var blockSize := blockSize0;
    assert texts[..0] == [];
    for i := 0 to |recs|
      invariant out == Joined(texts[..i])
    {
      var good, text;
      good, text, blockSize := UnpackBlock(recs[i], blockSize);
      assert texts[..i + 1][..i] == texts[..i];
      if !good {
        return false, out;
      }
      out := out + text;
    }
    assert texts[..|recs|] == texts;
    ok := true;
  }

  // lzop -d after lzop, at every level: every file comes back, whatever its length, the block sizes, the contents of
  // the dictionary and the matches reported.
  method RoundTrip(input: seq<Byte>, blockSize: nat, how: Method, dict: array<int>, find: Finder, blockSize': nat)
    returns (ok: bool, out: seq<Byte>)
    requires 0 < blockSize <= MAX_BLOCK_SIZE && dict.Length > 0 && Sound(find)
    modifies dict
    ensures ok && out == input
  {
    hide AllHold, Sound;
    ghost var texts;
    var recs;
    ok, recs, texts := PackFile(input, blockSize, how, dict, find);
    if !ok { return false, []; }
    ok, out := UnpackFile(recs, blockSize', blockSize, texts);
  }
}
