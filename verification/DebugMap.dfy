/** The debug map of a method (jit/jit-cache.c): offset pairs stored as compressed integers in a chain of blocks. */
module DebugMap {
  import opened Arithmetic
  import opened Sequences

  type Byte = x: int | 0 <= x < 256

  // ---- Compressed integers ----

  const TWO_28: int := 0x1000_0000

  /** The bytes that `CompressInt` stores for a signed number; `>>` is division rounding down. */
  function Encode(d: int): (s: seq<Byte>)
    ensures 1 <= |s| <= 5
  {
    if d >= 0 then
      if d < 0x40 then [2 * d]
      else if d < 0x2000 then [d / 0x80 % 0x40 + 0x80, 2 * d % 0x100]
      else if d < TWO_28 then [d / 0x80_0000 + 0xC0, d / 0x8000 % 0x100, d / 0x80 % 0x100, 2 * d % 0x100]
      else [0xE0, d / 0x80_0000 % 0x100, d / 0x8000 % 0x100, d / 0x80 % 0x100, 2 * d % 0x100]
    else
      if d >= -0x40 then [2 * d % 0x80 + 1]
      else if d >= -0x2000 then [d / 0x80 % 0x40 + 0x80, 2 * d % 0x100 + 1]
      else if d >= -0x2000_0000 then
        [d / 0x80_0000 % 0x20 + 0xC0, d / 0x8000 % 0x100, d / 0x80 % 0x100, 2 * d % 0x100 + 1]
      else [0xE1, d / 0x80_0000 % 0x100, d / 0x8000 % 0x100, d / 0x80 % 0x100, 2 * d % 0x100 + 1]
  }

  /** The number of bytes of a stored integer, told by its first byte. */
  function Width(first: Byte): nat {
    if first < 0x80 then 1 else if first < 0xC0 then 2 else if first < 0xE0 then 4 else 5
  }

  function Signed32(v: int): int {
    if v % 0x1_0000_0000 < 0x8000_0000 then v % 0x1_0000_0000 else v % 0x1_0000_0000 - 0x1_0000_0000
  }

  /** The number that `UncompressInt` reads at the start of `s`. */
  function Decode(s: seq<Byte>): int
    requires |s| > 0 && |s| >= Width(s[0])
  {
    var ch := s[0];
    if ch < 0x80 then
      if ch % 2 == 0 then ch / 2 else ch / 2 - 0x40
    else if ch < 0xC0 then
      var v := ch % 0x40 * 0x100 + s[1];
      if v % 2 == 0 then v / 2 else v / 2 - 0x2000
    else if ch < 0xE0 then
      var v := ch % 0x20 * 0x100_0000 + s[1] * 0x1_0000 + s[2] * 0x100 + s[3];
      if v % 2 == 0 then v / 2 else v / 2 - TWO_28
    else
      var v: int := (s[1] as int) * 0x100_0000 + (s[2] as int) * 0x1_0000 + (s[3] as int) * 0x100 + s[4] as int;
      Signed32(v)
  }

  /** The first byte tells how many bytes were stored. */
  lemma EncodeWidth(d: int)
    ensures |Encode(d)| == Width(Encode(d)[0])
  {
  }

  /** Shifting right by 7 and then by a whole byte. */
  lemma NestedShift(d: int, k: int)
    requires k == 0x80 || k == 0x8000
    ensures d / (k * 0x100) == d / k / 0x100
    ensures d == d / (k * 0x100) * (k * 0x100) + d / k % 0x100 * k + d % k
  {
    var q := d / k;
    var p, m, l := q / 0x100, q % 0x100, d % k;
    assert d == k * q + l && q == 0x100 * p + m;
    assert d == k * 0x100 * p + (k * m + l) && 0 <= k * m + l < k * 0x100;
    DivMod(d, k * 0x100, p, k * m + l);
  }

  /** A number taken apart into its low seven bits and the bytes above them. */
  lemma Parts(d: int)
    ensures var l, a, b, c := d % 0x80, d / 0x80 % 0x100, d / 0x8000 % 0x100, d / 0x80_0000;
      && d == c * 0x80_0000 + b * 0x8000 + a * 0x80 + l
      && 2 * d % 0x100 == 2 * l && 2 * d % 0x80 == 2 * (l % 0x40)
  {
    NestedShift(d, 0x80);
    NestedShift(d, 0x8000);
    LowBits(d);
  }

  lemma LowBits(d: int)
    ensures 2 * d % 0x100 == 2 * (d % 0x80) && 2 * d % 0x80 == 2 * (d % 0x80 % 0x40)
  {
    var q, l := d / 0x80, d % 0x80;
    var h, m := l / 0x40, l % 0x40;
    DivMod(2 * d, 0x100, q, 2 * l);
    DivMod(2 * d, 0x80, 2 * q + h, 2 * m);
  }

  lemma Halves(v: int)
    ensures 2 * v / 2 == v && 2 * v % 2 == 0 && (2 * v + 1) / 2 == v && (2 * v + 1) % 2 == 1
  {
  }

  lemma Short(d: int)
    requires -0x2000 <= d < 0x2000
    ensures var s := Encode(d); |s| >= Width(s[0]) && Decode(s) == d
  {
    Parts(d);
    if -0x40 <= d < 0x40 {
      var m := if d < 0 then d + 0x40 else d;
      assert Encode(d) == [2 * m + if d < 0 then 1 else 0] by { DivMod(2 * d, 0x80, if d < 0 then -1 else 0, 2 * m); }
      Halves(m);
    } else {
      var q, l := d / 0x80, d % 0x80;
      var m := if d < 0 then q + 0x40 else q;
      DivMod(q, 0x40, if d < 0 then -1 else 0, m);
      DivMod(m + 0x80, 0x40, 2, m);
      Halves(m * 0x80 + l);
    }
  }

  lemma Long(d: int)
    requires -0x2000_0000 <= d < TWO_28 && !(-0x2000 <= d < 0x2000)
    ensures var s := Encode(d); |s| >= Width(s[0]) && Decode(s) == if d < -TWO_28 then d + TWO_28 else d
  {
    Parts(d);
    var c := d / 0x80_0000;
    SmallModulo(c);
  }

  lemma SmallModulo(c: int)
    requires -0x40 <= c < 0x20
    ensures c % 0x20 == if c < -0x20 then c + 0x40 else if c < 0 then c + 0x20 else c
  {
  }

  lemma Overlong(d: int)
    requires d < -0x2000_0000 || TWO_28 <= d
    ensures var s := Encode(d); |s| >= Width(s[0]) && Decode(s) != d
  {
    Parts(d);
    var c, s := d / 0x80_0000, Encode(d);
    var v := 2 * d + if d < 0 then 1 else 0;
    var k := c / 0x100;
    assert c == k * 0x100 + c % 0x100;
    var low := v - k * 0x1_0000_0000;
    assert (s[1] as int) * 0x100_0000 + (s[2] as int) * 0x1_0000 + (s[3] as int) * 0x100 + s[4] as int == low;
    assert 0 <= low < 0x1_0000_0000;
    assert Decode(s) == low || Decode(s) == low - 0x1_0000_0000;
    NotItsDouble(d, Decode(s), k, low);
  }

  /** The stored number is twice the original modulo 2^32, and no number out of range is its own double. */
  lemma NotItsDouble(d: int, r: int, k: int, low: int)
    requires d < -0x2000_0000 || TWO_28 <= d
    requires low == 2 * d + (if d < 0 then 1 else 0) - k * 0x1_0000_0000 && -0x8000_0000 <= r < 0x8000_0000
    requires r == low || r == low - 0x1_0000_0000
    ensures r != d
  {
    var j := if r == low then k else k + 1;
    assert r == 2 * d + (if d < 0 then 1 else 0) - j * 0x1_0000_0000;
  }

  /** Decoding gives the number back exactly on [-2^28, 2^28): the four byte form keeps 28 bits, and the five
      byte form is not shifted back. */
  lemma RoundTrip(d: int)
    ensures var s := Encode(d); |s| == Width(s[0]) && (Decode(s) == d <==> -TWO_28 <= d < TWO_28)
  {
    EncodeWidth(d);
    if -0x2000 <= d < 0x2000 {
      Short(d);
    } else if -0x2000_0000 <= d < TWO_28 {
      Long(d);
    } else {
      Overlong(d);
    }
  }

  // ---- The stream of pairs ----

  datatype Pair = Pair(offset: int, native: int)

  predicate InRange(d: int) { -TWO_28 <= d < TWO_28 }

  /** A pair that can be told from the two end marks and reads back. */
  predicate Ordinary(p: Pair) { InRange(p.offset) && InRange(p.native) && p.offset != -1 && p.offset != -2 }

  const END: Pair := Pair(-1, -1)

  function EncodePair(p: Pair): seq<Byte> { Encode(p.offset) + Encode(p.native) }

  function EncodePairs(ps: seq<Pair>): seq<Byte> {
    if ps == [] then [] else EncodePairs(ps[..|ps| - 1]) + EncodePair(ps[|ps| - 1])
  }

  /** A whole integer is stored at the start of `s`. */
  predicate Whole(s: seq<Byte>) { |s| > 0 && |s| >= Width(s[0]) }

  lemma DecodeRange(s: seq<Byte>)
    requires Whole(s)
    ensures Width(s[0]) == 1 ==> -0x40 <= Decode(s) < 0x40
    ensures Width(s[0]) == 2 ==> -0x2000 <= Decode(s) < 0x2000
  {
  }

  /** No fewer bytes decode to a number that reads back. */
  lemma Shortest(d: int, s: seq<Byte>)
    requires InRange(d) && Whole(s) && Decode(s) == d
    ensures Width(s[0]) >= |Encode(d)|
  {
    DecodeRange(s);
  }

  /** The pairs that the reader finds from inside a block on: `s` is what is left of it, `rest` the later blocks. */
  function Read(s: seq<Byte>, rest: seq<seq<Byte>>): seq<Pair>
    decreases |rest|, |s|
  {
    if !Whole(s) || Decode(s) == -1 then []
    else if Decode(s) == -2 then ReadAll(rest)
    else
      var s1 := s[Width(s[0])..];
      if !Whole(s1) then [] else [Pair(Decode(s), Decode(s1))] + Read(s1[Width(s1[0])..], rest)
  }

  function ReadAll(blocks: seq<seq<Byte>>): seq<Pair>
    decreases |blocks|, 0
  {
    if blocks == [] then [] else Read(blocks[0], blocks[1..])
  }

  /** The reader stays within the bytes of each block, and no block is longer than the 64 bytes the reader allows. */
  predicate Readable(s: seq<Byte>, rest: seq<seq<Byte>>)
    decreases |rest|, |s|
  {
    && Whole(s) && |s| <= 64
    && (if Decode(s) == -1 then true
        else if Decode(s) == -2 then AllReadable(rest)
        else
          var s1 := s[Width(s[0])..];
          Whole(s1) && Readable(s1[Width(s1[0])..], rest))
  }

  predicate AllReadable(blocks: seq<seq<Byte>>)
    decreases |blocks|, 0
  {
    blocks == [] || Readable(blocks[0], blocks[1..])
  }

  lemma DecodePrefix(d: int, tail: seq<Byte>)
    requires InRange(d)
    ensures var s := Encode(d) + tail; Whole(s) && Decode(s) == d && s[Width(s[0])..] == tail
  {
    RoundTrip(d);
    var s := Encode(d);
    assert s + tail == s + tail && (s + tail)[0] == s[0];
    assert forall i :: 0 <= i < |s| ==> (s + tail)[i] == s[i];
  }

  lemma ReadPair(p: Pair, tail: seq<Byte>, rest: seq<seq<Byte>>)
    requires Ordinary(p)
    ensures Read(EncodePair(p) + tail, rest) == [p] + Read(tail, rest)
    ensures |EncodePair(p) + tail| <= 64 && Readable(tail, rest) ==> Readable(EncodePair(p) + tail, rest)
  {
    assert EncodePair(p) + tail == Encode(p.offset) + (Encode(p.native) + tail);
    DecodePrefix(p.offset, Encode(p.native) + tail);
    DecodePrefix(p.native, tail);
  }

  /** Ordinary pairs at the start of a block are read back one for one. */
  lemma {:induction false} ReadPairs(ps: seq<Pair>, tail: seq<Byte>, rest: seq<seq<Byte>>)
    requires forall i :: 0 <= i < |ps| ==> Ordinary(ps[i])
    ensures Read(EncodePairs(ps) + tail, rest) == ps + Read(tail, rest)
    ensures |EncodePairs(ps) + tail| <= 64 && Readable(tail, rest) ==> Readable(EncodePairs(ps) + tail, rest)
  {
    hide Read, Readable, Decode, Encode;
    if ps == [] {
      assert EncodePairs(ps) + tail == tail;
    } else {
      var init, p := ps[..|ps| - 1], ps[|ps| - 1];
      var tail' := EncodePair(p) + tail;
      Regroup(EncodePairs(init), EncodePair(p), tail);
      ReadPairs(init, tail', rest);
      ReadPair(p, tail, rest);
      Regroup(init, [p], Read(tail, rest));
      assert ps == init + [p];
    }
  }

  /** The two end marks. */
  lemma ReadMark(d: int, tail: seq<Byte>, rest: seq<seq<Byte>>)
    requires d == -1 || d == -2
    ensures Read(Encode(d) + tail, rest) == if d == -1 then [] else ReadAll(rest)
    ensures |Encode(d) + tail| <= 64 && (d == -2 ==> AllReadable(rest)) ==> Readable(Encode(d) + tail, rest)
  {
    DecodePrefix(d, tail);
  }

  /** A buffer that was flushed because it was full: its pairs and the mark -2. */
  function FullBlock(ps: seq<Pair>): seq<Byte> { EncodePairs(ps) + Encode(-2) }

  function FullBlocks(chunks: seq<seq<Pair>>): seq<seq<Byte>> {
    if chunks == [] then [] else FullBlocks(chunks[..|chunks| - 1]) + [FullBlock(chunks[|chunks| - 1])]
  }

  function Concat(chunks: seq<seq<Pair>>): seq<Pair> {
    if chunks == [] then [] else Concat(chunks[..|chunks| - 1]) + chunks[|chunks| - 1]
  }

  predicate AllOrdinary(ps: seq<Pair>) { forall i :: 0 <= i < |ps| ==> Ordinary(ps[i]) }

  predicate Fits(chunks: seq<seq<Pair>>) {
    forall i :: 0 <= i < |chunks| ==> AllOrdinary(chunks[i]) && |FullBlock(chunks[i])| <= 64
  }

  /** Full blocks in front of a chain only add their own pairs. */
  lemma {:induction false} ReadFullBlocks(chunks: seq<seq<Pair>>, rest: seq<seq<Byte>>)
    requires Fits(chunks)
    ensures ReadAll(FullBlocks(chunks) + rest) == Concat(chunks) + ReadAll(rest)
    ensures AllReadable(rest) ==> AllReadable(FullBlocks(chunks) + rest)
  {
    hide Decode, Encode, Read, Readable;
    if chunks == [] {
      assert FullBlocks(chunks) + rest == rest;
    } else {
      var init, ps := chunks[..|chunks| - 1], chunks[|chunks| - 1];
      assert Fits(init) by { assert forall i :: 0 <= i < |init| ==> init[i] == chunks[i]; }
      var rest' := [FullBlock(ps)] + rest;
      assert FullBlocks(chunks) + rest == FullBlocks(init) + rest';
      ReadFullBlocks(init, rest');
      assert rest'[1..] == rest;
      ReadPairs(ps, Encode(-2), rest);
      ReadMark(-2, [], rest);
      assert Encode(-2) + [] == Encode(-2);
      assert Concat(chunks) + ReadAll(rest) == Concat(init) + (ps + ReadAll(rest));
    }
  }

  /** The last block of a finished method: the last pairs and the pair (-1, -1), with -2 behind it if that filled
      the buffer. */
  lemma ReadLastBlock(ps: seq<Pair>, tail: seq<Byte>)
    requires AllOrdinary(ps) && |EncodePairs(ps + [END]) + tail| <= 64
    ensures var block := EncodePairs(ps + [END]) + tail; ReadAll([block]) == ps && AllReadable([block])
  {
    hide Decode, Encode, Read, Readable;
    var mark := Encode(-1) + (Encode(-1) + tail);
    var block := EncodePairs(ps + [END]) + tail;
    assert block == EncodePairs(ps) + mark by {
      assert (ps + [END])[..|ps|] == ps;
      Regroup(EncodePairs(ps), EncodePair(END), tail);
      Regroup(Encode(-1), Encode(-1), tail);
    }
    ReadMark(-1, Encode(-1) + tail, []);
    ReadPairs(ps, mark, []);
    assert Read(block, []) == ps + [] && Readable(block, []);
    var chain: seq<seq<Byte>> := [block];
    assert chain[1..] == [];
  }
}
