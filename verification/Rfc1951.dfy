// RFC 1951 read on its own: an inflater over bytes and bit positions, with the numbers that the document prints.
module Rfc1951 {
  import opened Lz77

  // v >> n
  function Shifted(v: nat, n: nat): nat
  {
    if n == 0 then v else Shifted(v / 2, n - 1)
  }

  // Section 3.1.1: bit number pos of a byte string; the bits of a byte start with the least significant one.
  predicate Bit(bytes: seq<Byte>, pos: nat)
    requires pos < 8 * |bytes|
  {
    Shifted(bytes[pos / 8], pos % 8) % 2 == 1
  }

  // n bits as a number, least significant bit first.
  function Field(bytes: seq<Byte>, pos: nat, n: nat): Option<nat>
    decreases n
  {
    if n == 0 then Some(0)
    else if pos >= 8 * |bytes| then None
    else
      match Field(bytes, pos + 1, n - 1)
      case None => None
      case Some(v) => Some((if Bit(bytes, pos) then 1 else 0) + 2 * v)
  }

  // ---- section 3.2.2: Huffman codes from their lengths ----

  // How many of the first n symbols have codes of that length.
  function BlCount(lens: seq<nat>, n: nat, bits: nat): nat
    requires n <= |lens|
  {
    if n == 0 then 0 else BlCount(lens, n - 1, bits) + if lens[n - 1] == bits then 1 else 0
  }

  // code = (code + bl_count[bits-1]) << 1, with bl_count[0] = 0
  function NextCode(lens: seq<nat>, bits: nat): nat
    requires bits >= 1
  {
    if bits == 1 then 0 else 2 * (NextCode(lens, bits - 1) + BlCount(lens, |lens|, bits - 1))
  }

  function CodeOf(lens: seq<nat>, s: nat): nat
    requires s < |lens| && lens[s] > 0
  {
    NextCode(lens, lens[s]) + BlCount(lens, s, lens[s])
  }

  // The low n bits of code stand at pos, most significant bit first.
  predicate CodeAt(bytes: seq<Byte>, pos: nat, code: nat, n: nat)
  {
    if n == 0 then true
    else pos + n <= 8 * |bytes| && Bit(bytes, pos + n - 1) == (code % 2 == 1) && CodeAt(bytes, pos, code / 2, n - 1)
  }

  // The first symbol from s on whose code stands at pos.
  function SymbolFrom(bytes: seq<Byte>, pos: nat, lens: seq<nat>, s: nat): (r: Option<nat>)
    ensures r.Some? ==> r.value < |lens| && lens[r.value] > 0 && pos + lens[r.value] <= 8 * |bytes|
    decreases |lens| - s
  {
    if s >= |lens| then None
    else if lens[s] > 0 && CodeAt(bytes, pos, CodeOf(lens, s), lens[s]) then Some(s)
    else SymbolFrom(bytes, pos, lens, s + 1)
  }

  function SymbolAt(bytes: seq<Byte>, pos: nat, lens: seq<nat>): (r: Option<nat>)
    ensures r.Some? ==> r.value < |lens| && lens[r.value] > 0 && pos + lens[r.value] <= 8 * |bytes|
  {
    SymbolFrom(bytes, pos, lens, 0)
  }

  // ---- section 3.2.5: lengths and distances ----

  function LengthBase(): (r: seq<nat>)
    ensures |r| == 29
  {
    [3, 4, 5, 6, 7, 8, 9, 10, 11, 13, 15, 17, 19, 23, 27, 31, 35, 43, 51, 59, 67, 83, 99, 115, 131, 163, 195, 227, 258]
  }

  function LengthExtra(): (r: seq<nat>)
    ensures |r| == 29
  {
    [0, 0, 0, 0, 0, 0, 0, 0, 1, 1, 1, 1, 2, 2, 2, 2, 3, 3, 3, 3, 4, 4, 4, 4, 5, 5, 5, 5, 0]
  }

  function DistBase(): (r: seq<nat>)
    ensures |r| == 30 && forall c | 0 <= c < 30 :: r[c] >= 1
  {
    [1, 2, 3, 4, 5, 7, 9, 13, 17, 25, 33, 49, 65, 97, 129, 193, 257, 385, 513, 769,
     1025, 1537, 2049, 3073, 4097, 6145, 8193, 12289, 16385, 24577]
  }

  function DistExtra(): (r: seq<nat>)
    ensures |r| == 30
  {
    [0, 0, 0, 0, 1, 1, 2, 2, 3, 3, 4, 4, 5, 5, 6, 6, 7, 7, 8, 8, 9, 9, 10, 10, 11, 11, 12, 12, 13, 13]
  }

  // len bytes, one by one, from dist bytes back.
  function CopyFrom(out: seq<Byte>, dist: nat, len: nat): (r: seq<Byte>)
    requires 1 <= dist <= |out|
    decreases len
  {
    if len == 0 then out else CopyFrom(out + [out[|out| - dist]], dist, len - 1)
  }

  // What has been put out, and where the input goes on.
  datatype Place = Place(out: seq<Byte>, pos: nat)

  // The distance after a length: a code of its own, then its extra bits.
  function Copied(bytes: seq<Byte>, pos: nat, dd: seq<nat>, out: seq<Byte>, len: nat): (r: Option<Place>)
    ensures r.Some? ==> pos < r.value.pos <= 8 * |bytes|
  {
    match SymbolAt(bytes, pos, dd)
    case None => None
    case Some(c) =>
      if c > 29 then None
      else
        match Field(bytes, pos + dd[c], DistExtra()[c])
        case None => None
        case Some(v) =>
          var end := pos + dd[c] + DistExtra()[c];
          if DistBase()[c] + v > |out| || end > 8 * |bytes| then None else Some(Place(CopyFrom(out, DistBase()[c] + v, len), end))
  }

  // Section 3.2.3: literals below 256, the end of the block at 256, lengths above.
  function Symbols(bytes: seq<Byte>, pos: nat, ll: seq<nat>, dd: seq<nat>, out: seq<Byte>): (r: Option<Place>)
    ensures r.Some? ==> pos < r.value.pos <= 8 * |bytes|
    decreases 8 * |bytes| - pos
  {
    match SymbolAt(bytes, pos, ll)
    case None => None
    case Some(s) =>
      var p := pos + ll[s];
      if s < 256 then Symbols(bytes, p, ll, dd, out + [s])
      else if s == 256 then Some(Place(out, p))
      else if s > 285 then None
      else
        match Field(bytes, p, LengthExtra()[s - 257])
        case None => None
        case Some(v) =>
          match Copied(bytes, p + LengthExtra()[s - 257], dd, out, LengthBase()[s - 257] + v)
          case None => None
          case Some(q) => Symbols(bytes, q.pos, ll, dd, q.out)
  }

  // ---- section 3.2.6: the fixed codes ----

  function FixedLengths(): seq<nat>
  {
    seq(288, s => if s <= 143 then 8 else if s <= 255 then 9 else if s <= 279 then 7 else 8)
  }

  function FixedDistances(): seq<nat>
  {
    seq(30, _ => 5)
  }

  // ---- section 3.2.7: dynamic codes ----

  // The order in which the lengths of the code length code come.
  function Order(): seq<nat>
  {
    [16, 17, 18, 0, 8, 7, 9, 6, 10, 5, 11, 4, 12, 3, 13, 2, 14, 1, 15]
  }

  // The lengths of the code length code that come from number k up to n, three bits each.
  function CodeLengthCode(bytes: seq<Byte>, pos: nat, k: nat, n: nat, bl: seq<nat>): (r: Option<seq<nat>>)
    requires |bl| == 19 && k <= n <= 19
    ensures r.Some? ==> |r.value| == 19
    decreases n - k
  {
    if k == n then Some(bl)
    else
      match Field(bytes, pos, 3)
      case None => None
      case Some(v) => CodeLengthCode(bytes, pos + 3, k + 1, n, bl[Order()[k] := v])
  }

  function Times(v: nat, n: nat): (r: seq<nat>)
    ensures |r| == n
  {
    if n == 0 then [] else Times(v, n - 1) + [v]
  }

  datatype Lengths = Lengths(lens: seq<nat>, pos: nat)

  // Code lengths until there are total: 0 to 15 are themselves, 16 repeats the last one 3 to 6 times, 17 and 18 are runs of
  // 3 to 10 and of 11 to 138 zeros.
  function CodeLengths(bytes: seq<Byte>, pos: nat, bl: seq<nat>, lens: seq<nat>, total: nat): (r: Option<Lengths>)
    requires |bl| == 19
    ensures r.Some? ==> |r.value.lens| == total && pos <= r.value.pos
    decreases 8 * |bytes| - pos
  {
    if |lens| == total then Some(Lengths(lens, pos))
    else if |lens| > total then None
    else
      match SymbolAt(bytes, pos, bl)
      case None => None
      case Some(s) =>
        var p := pos + bl[s];
        if s <= 15 then CodeLengths(bytes, p, bl, lens + [s], total)
        else if s == 16 then
          (match Field(bytes, p, 2)
           case None => None
           case Some(v) =>
             if lens == [] then None else CodeLengths(bytes, p + 2, bl, lens + Times(lens[|lens| - 1], 3 + v), total))
        else if s == 17 then
          (match Field(bytes, p, 3)
           case None => None
           case Some(v) => CodeLengths(bytes, p + 3, bl, lens + Times(0, 3 + v), total))
        else
          (match Field(bytes, p, 7)
           case None => None
           case Some(v) => CodeLengths(bytes, p + 7, bl, lens + Times(0, 11 + v), total))
  }

  // HLIT, HDIST, HCLEN, the code length code, both codes, and the compressed data.
  function Dynamic(bytes: seq<Byte>, pos: nat, out: seq<Byte>): (r: Option<Place>)
    ensures r.Some? ==> pos < r.value.pos <= 8 * |bytes|
  {
    match (Field(bytes, pos, 5), Field(bytes, pos + 5, 5), Field(bytes, pos + 10, 4))
    case (Some(hlit), Some(hdist), Some(hclen)) =>
      if hclen + 4 > 19 then None
      else
        (match CodeLengthCode(bytes, pos + 14, 0, hclen + 4, Times(0, 19))
         case None => None
         case Some(bl) =>
           match CodeLengths(bytes, pos + 14 + 3 * (hclen + 4), bl, [], hlit + 257 + (hdist + 1))
           case None => None
           case Some(l) => Symbols(bytes, l.pos, l.lens[..hlit + 257], l.lens[hlit + 257..], out))
    case _ => None
  }

  // ---- section 3.2.4: stored blocks ----

  // Two bytes, the less significant one first.
  function Word(bytes: seq<Byte>, k: nat): nat
    requires k + 2 <= |bytes|
  {
    var low: nat, high: nat := bytes[k], bytes[k + 1];
    low + 256 * high
  }

  // LEN, its complement, and LEN bytes, from byte k on.
  function StoredFrom(bytes: seq<Byte>, k: nat, out: seq<Byte>): (r: Option<Place>)
    ensures r.Some? ==> 8 * k <= r.value.pos <= 8 * |bytes|
  {
    if k + 4 > |bytes| then None
    else
      var len := Word(bytes, k);
      if len + Word(bytes, k + 2) != 65535 || k + 4 + len > |bytes| then None
      else Some(Place(out + bytes[k + 4..k + 4 + len], 8 * (k + 4 + len)))
  }

  // The rest of the byte is skipped.
  function Stored(bytes: seq<Byte>, pos: nat, out: seq<Byte>): (r: Option<Place>)
    ensures r.Some? ==> pos <= r.value.pos <= 8 * |bytes|
  {
    StoredFrom(bytes, (pos + 7) / 8, out)
  }

  // ---- section 3.2.3: blocks ----

  // BTYPE, its less significant bit first, and the block after it.
  function Block(bytes: seq<Byte>, pos: nat, out: seq<Byte>): (r: Option<Place>)
    requires pos + 3 <= 8 * |bytes|
    ensures r.Some? ==> pos < r.value.pos <= 8 * |bytes|
  {
    match (Bit(bytes, pos + 2), Bit(bytes, pos + 1))
    case (false, false) => Stored(bytes, pos + 3, out)
    case (false, true) => Symbols(bytes, pos + 3, FixedLengths(), FixedDistances(), out)
    case (true, false) => Dynamic(bytes, pos + 3, out)
    case (true, true) => None
  }

  // Blocks up to the one that starts with BFINAL set.
  function Inflated(bytes: seq<Byte>, pos: nat, out: seq<Byte>): Option<seq<Byte>>
    decreases 8 * |bytes| - pos
  {
    if pos + 3 > 8 * |bytes| then None
    else
      match Block(bytes, pos, out)
      case None => None
      case Some(p) =>
        if !Bit(bytes, pos) then Inflated(bytes, p.pos, p.out)
        else if 8 * |bytes| - p.pos < 8 then Some(p.out)
        else None
  }

  // What a string of bytes inflates to, with the last block ending in the last byte.
  function InflateBytes(bytes: seq<Byte>): Option<seq<Byte>>
  {
    Inflated(bytes, 0, [])
  }
}
