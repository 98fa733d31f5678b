/** Writing the debug map through a 64 byte buffer, and reading it back block by block (jit/jit-cache.c). */
module DebugStream {
  import opened DebugMap

  const DEBUG_SIZE: nat := 64

  /** `unsigned long`, and what a `long` becomes as one. */
  type Ulong = x: int | 0 <= x < 0x1_0000_0000_0000_0000

  function Unsigned(v: int): Ulong { v % 0x1_0000_0000_0000_0000 }

  const NO_OFFSET: Ulong := 0xFFFF_FFFF_FFFF_FFFF

  /** `CompressInt`. */
  method CompressInt(buf: array<Byte>, at: nat, data: int) returns (n: nat)
    requires at + |Encode(data)| <= buf.Length
    modifies buf
    ensures n == |Encode(data)| && buf[at..at + n] == Encode(data)
    ensures forall i :: 0 <= i < buf.Length && !(at <= i < at + n) ==> buf[i] == old(buf[i])
  {
    if data >= 0 { n := CompressPositive(buf, at, data); } else { n := CompressNegative(buf, at, data); }
  }

  method CompressPositive(buf: array<Byte>, at: nat, data: int) returns (n: nat)
    requires data >= 0 && at + |Encode(data)| <= buf.Length
    modifies buf
    ensures n == |Encode(data)| && buf[at..at + n] == Encode(data)
    ensures forall i :: 0 <= i < buf.Length && !(at <= i < at + n) ==> buf[i] == old(buf[i])
  {
    if data < 0x40 {
      buf[at] := 2 * data;
      n := 1;
    } else if data < 0x2000 {
      buf[at], buf[at + 1] := data / 0x80 % 0x40 + 0x80, 2 * data % 0x100;
      n := 2;
    } else if data < TWO_28 {
      buf[at], buf[at + 1], buf[at + 2] := data / 0x80_0000 + 0xC0, data / 0x8000 % 0x100, data / 0x80 % 0x100;
      buf[at + 3] := 2 * data % 0x100;
      n := 4;
    } else {
      buf[at], buf[at + 1], buf[at + 2] := 0xE0, data / 0x80_0000 % 0x100, data / 0x8000 % 0x100;
      buf[at + 3], buf[at + 4] := data / 0x80 % 0x100, 2 * data % 0x100;
      n := 5;
    }
  }

  method CompressNegative(buf: array<Byte>, at: nat, data: int) returns (n: nat)
    requires data < 0 && at + |Encode(data)| <= buf.Length
    modifies buf
    ensures n == |Encode(data)| && buf[at..at + n] == Encode(data)
    ensures forall i :: 0 <= i < buf.Length && !(at <= i < at + n) ==> buf[i] == old(buf[i])
  {
    if data >= -0x40 {
      buf[at] := 2 * data % 0x80 + 1;
      n := 1;
    } else if data >= -0x2000 {
      buf[at], buf[at + 1] := data / 0x80 % 0x40 + 0x80, 2 * data % 0x100 + 1;
      n := 2;
    } else if data >= -0x2000_0000 {
      buf[at], buf[at + 1], buf[at + 2] := data / 0x80_0000 % 0x20 + 0xC0, data / 0x8000 % 0x100, data / 0x80 % 0x100;
      buf[at + 3] := 2 * data % 0x100 + 1;
      n := 4;
    } else {
      buf[at], buf[at + 1], buf[at + 2] := 0xE1, data / 0x80_0000 % 0x100, data / 0x8000 % 0x100;
      buf[at + 3], buf[at + 4] := data / 0x80 % 0x100, 2 * data % 0x100 + 1;
      n := 5;
    }
  }

  /** The temporary buffer and the chain of blocks flushed so far. */
  class DebugWriter {
    const data: array<Byte>
    var len: nat
    var blocks: seq<seq<Byte>>

    ghost var chunks: seq<seq<Pair>>   // the pairs in the flushed blocks
    ghost var open: seq<Pair>          // the pairs in the buffer

    /** Before a pair is written there is room for two integers of five bytes and the mark -2. */
    ghost predicate Valid()
      reads this, data
    {
      && data.Length == DEBUG_SIZE
      && len + 11 <= DEBUG_SIZE && data[..len] == EncodePairs(open)
      && blocks == FullBlocks(chunks)
      && (forall i :: 0 <= i < |chunks| ==> chunks[i] != [] && |FullBlock(chunks[i])| <= DEBUG_SIZE)
    }

    /** The buffer waits to be flushed with the block that holds `ps`. */
    ghost predicate Full(ps: seq<Pair>)
      reads this, data
    {
      && data.Length == DEBUG_SIZE && len <= DEBUG_SIZE && ps != [] && data[..len] == FullBlock(ps)
      && blocks == FullBlocks(chunks)
      && (forall i :: 0 <= i < |chunks| ==> chunks[i] != [] && |FullBlock(chunks[i])| <= DEBUG_SIZE)
    }

    constructor ()
      ensures Valid() && fresh(data) && chunks == [] && open == [] && len == 0
    {
      data := new Byte[DEBUG_SIZE];
      len, blocks, chunks, open := 0, [], [], [];
    }

    /** Clear the debug data. */
    method Clear()
      requires data.Length == DEBUG_SIZE
      modifies this
      ensures Valid() && chunks == [] && open == [] && blocks == []
    {
      len, blocks, chunks, open := 0, [], [], [];
    }

    /** Append an integer to the buffer. */
    method Put(d: int)
      requires data.Length == DEBUG_SIZE && len + |Encode(d)| <= DEBUG_SIZE
      modifies this`len, data
      ensures len == old(len) + |Encode(d)| && data[..len] == old(data[..len]) + Encode(d)
    {
      hide Encode;
      ghost var before := data[..len];
      var n := CompressInt(data, len, d);
      assert data[..len + n] == data[..len] + data[len..len + n];
      assert data[..len] == before;
      len := len + n;
    }

    /** The writes of `WriteCacheDebug`; the caller flushes the buffer if it is full. */
    method Write(p: Pair) returns (full: bool)
      requires Valid()
      modifies this, data
      ensures chunks == old(chunks) && blocks == old(blocks) && open == old(open) + [p]
      ensures full <==> |EncodePairs(open)| + 11 > DEBUG_SIZE
      ensures if full then Full(open) else Valid()
    {
      hide Encode, EncodePairs;
      WriteLength(open, p);
      Put(p.offset);
      Put(p.native);
      open := open + [p];
      full := len + 5 * 2 + 1 > DEBUG_SIZE;
      if full { Put(-2); }
    }

    static lemma WriteLength(ps: seq<Pair>, p: Pair)
      ensures EncodePairs(ps + [p]) == EncodePairs(ps) + Encode(p.offset) + Encode(p.native)
      ensures |Encode(p.offset)| <= 5 && |Encode(p.native)| <= 5 && |Encode(-2)| == 1
    {
      hide Encode;
      assert (ps + [p])[..|ps|] == ps;
      assert |Encode(-2)| == 1 by { MarkLength(); }
    }

    static lemma MarkLength()
      ensures |Encode(-2)| == 1
    {
    }

    /** `FlushCacheDebug`: copy the buffer into a new block, or drop it when there is no room for the block. */
    method Flush(room: bool)
      requires data.Length == DEBUG_SIZE && len <= DEBUG_SIZE
      modifies this
      ensures len == 0 && open == []
      ensures blocks == if room then old(blocks) + [old(data[..len])] else old(blocks)
      ensures chunks == if room then old(chunks) + [old(open)] else old(chunks)
      ensures old(Full(open)) ==> Valid()
    {
      if room {
        assert (chunks + [open])[..|chunks|] == chunks;
        blocks := blocks + [data[..len]];
        chunks := chunks + [open];
      }
      len, open := 0, [];
    }
  }

  // ---- Reading ----

  /** `UncompressInt`: read one integer at `at`, of which the reader still believes `len` bytes to be there. */
  method UncompressInt(data: seq<Byte>, at: nat, len: nat) returns (value: int, at': nat, len': nat, error: bool)
    requires at <= |data| && (at + len <= |data| || Whole(data[at..]))
    ensures var s := data[at..];
      if len > 0 && len >= Width(s[0])
      then !error && Whole(s) && value == Decode(s) && at' == at + Width(s[0]) && len' == len - Width(s[0])
      else error && value == 0
  {
    value, at', len', error := 0, at, len, false;
    if len == 0 { error := true; return; }
    var s := data[at..];
    var ch: int := s[0];
    at', len' := at + 1, len - 1;
    if ch < 0x80 {
      value := if ch % 2 == 0 then ch / 2 else ch / 2 - 0x40;
    } else if ch < 0xC0 {
      if len' > 0 {
        len' := len' - 1;
        var v: int := ch % 0x40 * 0x100 + s[1] as int;
        at' := at' + 1;
        value := if v % 2 == 0 then v / 2 else v / 2 - 0x2000;
      } else {
        error := true;
      }
    } else if ch < 0xE0 {
      if len' >= 3 {
        len', at' := len' - 3, at' + 3;
        var v: int := ch % 0x20 * 0x100_0000 + (s[1] as int) * 0x1_0000 + (s[2] as int) * 0x100 + s[3] as int;
        value := if v % 2 == 0 then v / 2 else v / 2 - TWO_28;
      } else {
        len', error := 0, true;
      }
    } else {
      if len' >= 4 {
        len', at' := len' - 4, at' + 4;
        value := Signed32((s[1] as int) * 0x100_0000 + (s[2] as int) * 0x1_0000 + (s[3] as int) * 0x100 + s[4] as int);
      } else {
        len', error := 0, true;
      }
    }
  }

  /** The state of an iteration over a method's debug list; the reader allows 64 bytes in every block. */
  class DebugIter {
    var list: seq<seq<Byte>>
    var at: nat
    var len: nat

    ghost predicate Valid()
      reads this
    {
      list == [] || (at <= |list[0]| <= DEBUG_SIZE && at + len == DEBUG_SIZE && Readable(list[0][at..], list[1..]))
    }

    /** The pairs still to come. */
    ghost function Remaining(): seq<Pair>
      reads this
    {
      if list == [] || at > |list[0]| then [] else Read(list[0][at..], list[1..])
    }

    /** Start at the head of a chain of blocks. */
    constructor (blocks: seq<seq<Byte>>)
      requires AllReadable(blocks)
      ensures Valid() && Remaining() == ReadAll(blocks)
    {
      list, at, len := blocks, 0, DEBUG_SIZE;
      assert blocks != [] ==> blocks[0][0..] == blocks[0];
    }

    /** `GetNextDebug`: the next pair, or false at the end of the list. */
    method GetNext() returns (ok: bool, pair: Pair)
      requires Valid()
      modifies this
      ensures ok <==> old(Remaining()) != []
      ensures ok ==> Valid() && old(Remaining()) == [pair] + Remaining()
    {
      hide Decode;
      pair := END;
      while list != []
        invariant Valid() && Remaining() == old(Remaining())
        decreases |list|
      {
        ghost var s := list[0][at..];
        var value, native, error;
        value, at, len, error := UncompressInt(list[0], at, len);
        if value == -1 {
          return false, pair;
        } else if value != -2 {
          assert list[0][at..] == s[Width(s[0])..];
          native, at, len, error := UncompressInt(list[0], at, len);
          assert list[0][at..] == s[Width(s[0])..][Width(s[Width(s[0])])..];
          return true, Pair(value, native);
        }
        assert Read(s, list[1..]) == ReadAll(list[1..]) && AllReadable(list[1..]);
        list := list[1..];
        if list != [] {
          at, len := 0, DEBUG_SIZE;
          assert list[0][at..] == list[0] && Readable(list[0], list[1..]);
          assert Read(list[0][at..], list[1..]) == ReadAll(list);
        }
      }
      ok := false;
    }
  }

  // ---- Searching ----

  /** The native offset stored for `offset`, or, if it need not be exact, the one of the pair before the first
      larger offset.  `prev` is the native offset of the pair before.  A negative offset in the map counts as the large
      number that it is as an `unsigned long`. */
  function NativeFor(ps: seq<Pair>, offset: Ulong, exact: bool, prev: Ulong): Ulong {
    if ps == [] then (if exact then NO_OFFSET else prev)
    else if exact && Unsigned(ps[0].offset) == offset then Unsigned(ps[0].native)
    else if !exact && Unsigned(ps[0].offset) > offset then prev
    else NativeFor(ps[1..], offset, exact, Unsigned(ps[0].native))
  }

  function BytecodeFor(ps: seq<Pair>, native: Ulong, exact: bool, prev: Ulong): Ulong {
    if ps == [] then (if exact then NO_OFFSET else prev)
    else if exact && Unsigned(ps[0].native) == native then Unsigned(ps[0].offset)
    else if !exact && Unsigned(ps[0].native) > native then prev
    else BytecodeFor(ps[1..], native, exact, Unsigned(ps[0].offset))
  }

  /** What the inexact search means: the answer belongs to the last pair before the first one with a larger offset. */
  lemma {:induction false} NativeForMeans(ps: seq<Pair>, offset: Ulong, prev: Ulong, k: nat)
    requires k <= |ps| && (forall i :: 0 <= i < k ==> Unsigned(ps[i].offset) <= offset)
    requires k < |ps| ==> Unsigned(ps[k].offset) > offset
    ensures NativeFor(ps, offset, false, prev) == if k == 0 then prev else Unsigned(ps[k - 1].native)
  {
    hide Unsigned;
    if k > 0 { NativeForMeans(ps[1..], offset, Unsigned(ps[0].native), k - 1); }
  }

  lemma {:induction false} BytecodeForMeans(ps: seq<Pair>, native: Ulong, prev: Ulong, k: nat)
    requires k <= |ps| && (forall i :: 0 <= i < k ==> Unsigned(ps[i].native) <= native)
    requires k < |ps| ==> Unsigned(ps[k].native) > native
    ensures BytecodeFor(ps, native, false, prev) == if k == 0 then prev else Unsigned(ps[k - 1].offset)
  {
    hide Unsigned;
    if k > 0 { BytecodeForMeans(ps[1..], native, Unsigned(ps[0].offset), k - 1); }
  }

  /** What the exact search means: the answer belongs to the first pair with the offset, if there is any. */
  lemma {:induction false} NativeForExact(ps: seq<Pair>, offset: Ulong, prev: Ulong, k: nat)
    requires k <= |ps| && (forall i :: 0 <= i < k ==> Unsigned(ps[i].offset) != offset)
    requires k < |ps| ==> Unsigned(ps[k].offset) == offset
    ensures NativeFor(ps, offset, true, prev) == if k < |ps| then Unsigned(ps[k].native) else NO_OFFSET
  {
    hide Unsigned;
    if k > 0 { NativeForExact(ps[1..], offset, Unsigned(ps[0].native), k - 1); }
  }

  lemma {:induction false} BytecodeForExact(ps: seq<Pair>, native: Ulong, prev: Ulong, k: nat)
    requires k <= |ps| && (forall i :: 0 <= i < k ==> Unsigned(ps[i].native) != native)
    requires k < |ps| ==> Unsigned(ps[k].native) == native
    ensures BytecodeFor(ps, native, true, prev) == if k < |ps| then Unsigned(ps[k].offset) else NO_OFFSET
  {
    hide Unsigned;
    if k > 0 { BytecodeForExact(ps[1..], native, Unsigned(ps[0].offset), k - 1); }
  }

  /** `_jit_cache_get_native`, once the debug list of the method is found. */
  method GetNative(blocks: seq<seq<Byte>>, offset: Ulong, exact: bool) returns (r: Ulong)
    requires AllReadable(blocks)
    ensures r == NativeFor(ReadAll(blocks), offset, exact, NO_OFFSET)
  {
    hide Decode, Read, Readable, Unsigned;
    var iter := new DebugIter(blocks);
    var prev: Ulong := NO_OFFSET;
    var ok, pair := iter.GetNext();
    while ok
      invariant ok ==> iter.Valid()
      invariant NativeFor(ReadAll(blocks), offset, exact, NO_OFFSET)
                == NativeFor(if ok then [pair] + iter.Remaining() else [], offset, exact, prev)
      decreases ok, if ok then |iter.Remaining()| else 0
    {
      if exact {
        if Unsigned(pair.offset) == offset { return Unsigned(pair.native); }
      } else if Unsigned(pair.offset) > offset {
        return prev;
      }
      assert ([pair] + iter.Remaining())[1..] == iter.Remaining();
      prev := Unsigned(pair.native);
      ok, pair := iter.GetNext();
    }
    r := if exact then NO_OFFSET else prev;
  }

  /** `_jit_cache_get_bytecode`, once the debug list of the method is found. */
  method GetBytecode(blocks: seq<seq<Byte>>, native: Ulong, exact: bool) returns (r: Ulong)
    requires AllReadable(blocks)
    ensures r == BytecodeFor(ReadAll(blocks), native, exact, NO_OFFSET)
  {
    hide Decode, Read, Readable, Unsigned;
    var iter := new DebugIter(blocks);
    var prev: Ulong := NO_OFFSET;
    var ok, pair := iter.GetNext();
    while ok
      invariant ok ==> iter.Valid()
      invariant BytecodeFor(ReadAll(blocks), native, exact, NO_OFFSET)
                == BytecodeFor(if ok then [pair] + iter.Remaining() else [], native, exact, prev)
      decreases ok, if ok then |iter.Remaining()| else 0
    {
      if exact {
        if Unsigned(pair.native) == native { return Unsigned(pair.offset); }
      } else if Unsigned(pair.native) > native {
        return prev;
      }
      assert ([pair] + iter.Remaining())[1..] == iter.Remaining();
      prev := Unsigned(pair.offset);
      ok, pair := iter.GetNext();
    }
    r := if exact then NO_OFFSET else prev;
  }
}
