/** The restart loop of `compile` (jit/jit-function.c): write a method to the cache, and start again on a page of
    twice the size as long as it does not fit. */
module CompileLoop {
  import opened RedBlack
  import opened LookupTrees
  import opened LookupQueries
  import opened DebugMap
  import opened DebugStream
  import opened CodeCache

  /** What the code generator does with the cache while it writes a method.  Code that is output in place of a
      prolog and patched later is an `Output` of its final bytes. */
  datatype Op =
    | Output(bytes: seq<Byte>)
    | AlignTo(align: int, diff: int, nop: Byte)
    | Reserve(size: nat)
    | Region(cookie: int)
    | Cookie(cookie: int)
    | Mark(offset: int)

  predicate Sensible(op: Op) { op.Output? ==> |op.bytes| > 0 }
  predicate AllSensible(ops: seq<Op>) { forall op :: op in ops ==> Sensible(op) }
  predicate Sane(blocks: seq<seq<Op>>) { forall ops :: ops in blocks ==> AllSensible(ops) }

  /** A code generator.  What it does may depend on where the method starts, and on the end of the free region, below
      which the constants that the code refers to are allocated. */
  type Generator = (int, int) -> seq<seq<Op>>

  /** What it does for a method that starts at `at` in a free region that ends at `top`: the operations of each basic
      block, with the prolog and the epilog as blocks of their own. */
  function CodeAt(gen: Generator, at: int, top: int): seq<seq<Op>> { gen(at, top) }

  /** The method as far as it is written, on paper: the position, the limit, where it starts, the method, its code,
      its regions with their cookies, the pairs marked, and those of them that are still in the debug buffer. */
  datatype Draft = Draft(ptr: int, limit: int, start: int, owner: int, code: seq<Byte>, regions: seq<(int, int)>,
                         marks: seq<Pair>, open: seq<Pair>)

  function Moved(f: Draft, p: (int, int)): Draft { f.(ptr := p.0, limit := p.1) }

  function After(op: Op, f: Draft): Draft
    requires |f.regions| > 0
    ensures |After(op, f).regions| > 0
  {
    match op
    case Output(bytes) =>
      f.(ptr := if f.ptr + |bytes| <= f.limit then f.ptr + |bytes| else f.limit, code := f.code + bytes)
    case AlignTo(align, diff, nop) =>
      var next := RoundUp(f.ptr, if align <= 1 then 1 else align);
      if next == f.ptr || next - f.ptr >= diff then f
      else f.(ptr := if next > f.limit then f.limit else next, code := f.code + Pad(next - f.ptr, nop))
    case Reserve(size) => Moved(f, Allocated(f.ptr, f.limit, size))
    case Region(cookie) =>
      var last := |f.regions| - 1;
      if f.regions[last].0 == f.ptr then f.(regions := f.regions[last := (f.ptr, cookie)])
      else Moved(f, Allocated(f.ptr, f.limit, METHOD_SIZE)).(
             regions := f.regions + if RoomFor(f.ptr, f.limit, METHOD_SIZE) then [(f.ptr, cookie)] else [])
    case Cookie(cookie) => var last := |f.regions| - 1; f.(regions := f.regions[last := (f.regions[last].0, cookie)])
    case Mark(offset) =>
      var p := Pair(offset, f.ptr - f.start);
      var n := |EncodePairs(f.open + [p])|;
      var g := f.(marks := f.marks + [p]);
      if n + 11 > DEBUG_SIZE then Moved(g, Allocated(f.ptr, f.limit, DEBUG_HEADER + n + 1)).(open := [])
      else g.(open := f.open + [p])
  }

  /** The draft after all operations. */
  function Drafted(ops: seq<Op>, f: Draft): Draft
    requires |f.regions| > 0
    ensures |Drafted(ops, f).regions| > 0
  {
    if ops == [] then f else Drafted(ops[1..], After(ops[0], f))
  }

  function Whole(blocks: seq<seq<Op>>, f: Draft): Draft
    requires |f.regions| > 0
    ensures |Whole(blocks, f).regions| > 0
  {
    if blocks == [] then f else Whole(blocks[1..], Drafted(blocks[0], f))
  }

  predicate Full(f: Draft) { f.ptr == f.limit }

  /** Overflow is sticky: once the position has reached the limit, no operation whatever moves it away. */
  lemma StaysFull(op: Op, f: Draft)
    requires Sensible(op) && Full(f) && |f.regions| > 0
    ensures Full(After(op, f))
  {
  }

  lemma {:induction false} AllStaysFull(ops: seq<Op>, f: Draft)
    requires AllSensible(ops) && Full(f) && |f.regions| > 0
    ensures Full(Drafted(ops, f))
  {
    if ops != [] {
      StaysFull(ops[0], f);
      AllStaysFull(ops[1..], After(ops[0], f));
    }
  }

  lemma {:induction false} WholeStaysFull(blocks: seq<seq<Op>>, f: Draft)
    requires Sane(blocks) && Full(f) && |f.regions| > 0
    ensures Full(Whole(blocks, f))
  {
    if blocks != [] {
      AllStaysFull(blocks[0], f);
      WholeStaysFull(blocks[1..], Drafted(blocks[0], f));
    }
  }

  ghost function DraftOf(c: Cache): (d: Draft)
    reads c, c.debug, c.chain
    ensures d.ptr == c.ptr && d.limit == c.limit && d.start == c.start && |d.regions| == |c.chain|
  {
    var owner := if c.current == null then 0 else c.current.owner;
    Draft(c.ptr, c.limit, c.start, owner, c.emitted, Cookies(c.chain), c.marks, c.debug.open)
  }

  lemma Within(m: Memory, m': Memory, lo: int, hi: int, lo': int, hi': int)
    requires SameOutside(m, m', lo, hi) && lo' <= lo && hi <= hi'
    ensures SameOutside(m, m', lo', hi')
  {
  }

  lemma SameSelf(m: Memory, lo: int, hi: int)
    ensures SameOutside(m, m, lo, hi)
  {
  }

  lemma SameTwice(m: Memory, m': Memory, m'': Memory, lo: int, hi: int)
    requires SameOutside(m, m', lo, hi) && SameOutside(m', m'', lo, hi)
    ensures SameOutside(m, m'', lo, hi)
  {
    forall a | a < lo || hi <= a ensures (a in m'' <==> a in m) && (a in m ==> m''[a] == m[a]) {
      assert a in m' <==> a in m;
    }
  }

  /** The position is inside the free region, and so is everything that gets written. */
  lemma Inner(c: Cache)
    requires c.Writing()
    ensures c.freeStart != 0 && c.freeStart <= c.start <= c.ptr <= c.limit < c.freeEnd && c.ChainValid()
      && Stacked(c.blocks, c.limit, c.freeEnd)
    ensures |c.chain| > 0 && c.current in Elems(c.chain) && c.current == c.chain[|c.chain| - 1]
  {
    assert c.ChainValid();
  }

  method PerformMark(c: Cache, offset: int)
    requires c.Writing()
    modifies c`ptr, c`limit, c`blocks, c`memory, c`marks, c`places, c.debug, c.debug.data
    ensures c.Writing() && |old(Cookies(c.chain))| > 0 && DraftOf(c) == After(Mark(offset), old(DraftOf(c)))
    ensures SameOutside(old(c.memory), c.memory, c.freeStart, c.freeEnd)
  {
    hide Cache.Writing, Cache.ChainValid, EncodePairs, RoomFor, SameOutside;
    Inner(c);
    c.MarkBytecode(offset);
    Inner(c);
    Within(old(c.memory), c.memory, c.limit, c.freeEnd, c.freeStart, c.freeEnd);
  }

  method PerformRegion(c: Cache, cookie: int)
    requires c.Writing()
    modifies c`ptr, c`limit, c`blocks, c`current, c`chain, c.current`cookie, c.current`end
    ensures c.Writing() && |old(Cookies(c.chain))| > 0 && DraftOf(c) == After(Region(cookie), old(DraftOf(c)))
    ensures fresh(Elems(c.chain) - old(Elems(c.chain)))
  {
    hide Cache.Writing, Cache.Placed, Cache.ChainValid, Stacked, EncodePairs, Allocated, RoomFor;
    Inner(c);
    c.NewRegion(cookie);
    Inner(c);
  }

  method PerformCookie(c: Cache, cookie: int)
    requires c.Writing()
    modifies c.current`cookie
    ensures c.Writing() && |old(Cookies(c.chain))| > 0 && DraftOf(c) == After(Cookie(cookie), old(DraftOf(c)))
  {
    hide Cache.Writing, Cache.Placed, Cache.ChainValid, Stacked, EncodePairs, Allocated, RoomFor;
    Inner(c);
    c.SetCookie(cookie);
    Inner(c);
  }

  method PerformCode(c: Cache, op: Op)
    requires c.Writing() && Sensible(op) && (op.Output? || op.AlignTo? || op.Reserve?)
    modifies c`ptr, c`limit, c`blocks, c`memory, c`emitted
    ensures c.Writing() && |Cookies(c.chain)| > 0 && DraftOf(c) == After(op, old(DraftOf(c)))
    ensures SameOutside(old(c.memory), c.memory, c.freeStart, c.freeEnd)
  {
    hide Cache.Writing, Cache.Placed, Cache.ChainValid, Stacked, EncodePairs, Allocated, RoomFor, RoundUp, Pad, Stored,
      Cookies;
    Inner(c);
    match op {
      case Output(bytes) => c.Emit(bytes);
      case AlignTo(align, diff, nop) => c.Align(align, diff, nop);
      case Reserve(size) => var _ := c.Alloc(size);
    }
  }

  /** One operation keeps everything it should, and its effect is the one on paper. */
  method Perform(c: Cache, op: Op)
    requires c.Writing() && Sensible(op)
    modifies c`ptr, c`limit, c`blocks, c`memory, c`emitted, c`marks, c`places, c`current, c`chain, c.debug, c.debug.data
    modifies Elems(c.chain)`cookie, Elems(c.chain)`end
    ensures c.Writing() && |old(Cookies(c.chain))| > 0 && DraftOf(c) == After(op, old(DraftOf(c)))
    ensures fresh(Elems(c.chain) - old(Elems(c.chain)))
    ensures SameOutside(old(c.memory), c.memory, c.freeStart, c.freeEnd)
  {
    hide Cache.Writing, After, DraftOf, Cookies, SameOutside;
    assert c.current != null && c.current in Elems(c.chain) by { Inner(c); }
    assert SameOutside(c.memory, c.memory, c.freeStart, c.freeEnd) by { SameSelf(c.memory, c.freeStart, c.freeEnd); }
    match op {
      case Mark(offset) => PerformMark(c, offset);
      case Region(cookie) => PerformRegion(c, cookie);
      case Cookie(cookie) => PerformCookie(c, cookie);
      case _ => PerformCode(c, op);
    }
  }

  lemma SensibleOne(ops: seq<Op>, i: nat)
    requires AllSensible(ops) && i < |ops|
    ensures Sensible(ops[i])
  {
  }

  /** All operations of a block. */
  method RunBlock(c: Cache, ops: seq<Op>)
    requires c.Writing() && AllSensible(ops)
    modifies c`ptr, c`limit, c`blocks, c`memory, c`emitted, c`marks, c`places, c`current, c`chain, c.debug, c.debug.data
    modifies Elems(c.chain)`cookie, Elems(c.chain)`end
    ensures c.Writing() && |old(Cookies(c.chain))| > 0 && DraftOf(c) == Drafted(ops, old(DraftOf(c)))
    ensures fresh(Elems(c.chain) - old(Elems(c.chain)))
    ensures SameOutside(old(c.memory), c.memory, c.freeStart, c.freeEnd)
  {
    hide Cache.Writing, After, SameOutside, DraftOf, Cookies, AllSensible;
    ghost var f := DraftOf(c);
    assert |c.chain| > 0 by { Inner(c); }
    assert SameOutside(c.memory, c.memory, c.freeStart, c.freeEnd) by { SameSelf(c.memory, c.freeStart, c.freeEnd); }
    for i := 0 to |ops|
      invariant c.Writing() && |DraftOf(c).regions| > 0
      invariant fresh(Elems(c.chain) - old(Elems(c.chain)))
      invariant Drafted(ops, f) == Drafted(ops[i..], DraftOf(c))
      invariant SameOutside(old(c.memory), c.memory, c.freeStart, c.freeEnd)
    {
      ghost var m := c.memory;
      assert ops[i..][1..] == ops[i + 1..];
      SensibleOne(ops, i);
      Perform(c, ops[i]);
      SameTwice(old(c.memory), m, c.memory, c.freeStart, c.freeEnd);
    }
  }

  /** Write the method, block by block, and stop after a block that filled the page. */
  method Run(c: Cache, blocks: seq<seq<Op>>)
    requires c.Writing() && Sane(blocks)
    modifies c`ptr, c`limit, c`blocks, c`memory, c`emitted, c`marks, c`places, c`current, c`chain, c.debug, c.debug.data
    modifies Elems(c.chain)`cookie, Elems(c.chain)`end
    ensures c.Writing() && |old(Cookies(c.chain))| > 0
    ensures var f, w := DraftOf(c), Whole(blocks, old(DraftOf(c)));
      (f.ptr < f.limit <==> w.ptr < w.limit) && (w.ptr < w.limit ==> f == w)
    ensures fresh(Elems(c.chain) - old(Elems(c.chain)))
    ensures SameOutside(old(c.memory), c.memory, c.freeStart, c.freeEnd)
  {
    hide Cache.Writing, Drafted, SameOutside, DraftOf, Cookies, AllSensible;
    ghost var f := DraftOf(c);
    assert |c.chain| > 0 by { Inner(c); }
    assert SameOutside(c.memory, c.memory, c.freeStart, c.freeEnd) by { SameSelf(c.memory, c.freeStart, c.freeEnd); }
    for i := 0 to |blocks|
      invariant c.Writing() && |DraftOf(c).regions| > 0
      invariant fresh(Elems(c.chain) - old(Elems(c.chain)))
      invariant Whole(blocks, f) == Whole(blocks[i..], DraftOf(c))
      invariant SameOutside(old(c.memory), c.memory, c.freeStart, c.freeEnd)
    {
      ghost var m := c.memory;
      assert blocks[i..][1..] == blocks[i + 1..] && blocks[i] in blocks;
      RunBlock(c, blocks[i]);
      SameTwice(old(c.memory), m, c.memory, c.freeStart, c.freeEnd);
      Inner(c);
      if c.ptr >= c.limit {
        assert Sane(blocks[i + 1..]);
        WholeStaysFull(blocks[i + 1..], DraftOf(c));
        return;
      }
    }
  }

  // ---- One attempt ----

  /** A method that was just started in the free region [lo, hi). */
  function Blank(lo: int, hi: int, align: int, owner: int): Draft {
    var (p, q) := Started(lo, hi, align);
    Draft(p, q, p, owner, [], [(p, 0)], [], [])
  }

  /** The whole method on paper, written to the free region [lo, hi). */
  function Paper(gen: Generator, lo: int, hi: int, align: int, owner: int): Draft {
    Whole(CodeAt(gen, Started(lo, hi, align).0, hi), Blank(lo, hi, align, owner))
  }

  predicate Fits(gen: Generator, lo: int, hi: int, align: int, owner: int) {
    StartFits(lo, hi, align) && Paper(gen, lo, hi, align, owner).ptr < Paper(gen, lo, hi, align, owner).limit
  }

  lemma PaperOwner(gen: Generator, lo: int, hi: int, align: int, owner: int)
    ensures Paper(gen, lo, hi, align, owner).owner == owner
  {
    WholeOwner(CodeAt(gen, Started(lo, hi, align).0, hi), Blank(lo, hi, align, owner));
  }

  lemma {:induction false} WholeOwner(blocks: seq<seq<Op>>, f: Draft)
    requires |f.regions| > 0
    ensures Whole(blocks, f).owner == f.owner
  {
    if blocks != [] {
      DraftedOwner(blocks[0], f);
      WholeOwner(blocks[1..], Drafted(blocks[0], f));
    }
  }

  lemma {:induction false} DraftedOwner(ops: seq<Op>, f: Draft)
    requires |f.regions| > 0
    ensures Drafted(ops, f).owner == f.owner
  {
    if ops != [] { DraftedOwner(ops[1..], After(ops[0], f)); }
  }

  /** Memory is the same in the regions `s`, which end at `e`. */
  predicate SameIn(m: Memory, m': Memory, s: seq<Node>, e: seq<int>) {
    |e| == |s| && forall i, a :: 0 <= i < |s| && s[i].start <= a < e[i] ==>
      (a in m' <==> a in m) && (a in m ==> m'[a] == m[a])
  }

  /** Memory is the same in the given ranges. */
  predicate SameOn(m: Memory, m': Memory, ranges: seq<(int, int)>) {
    forall i, a :: 0 <= i < |ranges| && ranges[i].0 <= a < ranges[i].1 ==>
      (a in m' <==> a in m) && (a in m ==> m'[a] == m[a])
  }

  /** Memory is the same in all committed regions and in all blocks in use. */
  predicate SameUsed(m: Memory, m': Memory, s: seq<Node>, e: seq<int>, reserved: seq<(int, int)>) {
    SameIn(m, m', s, e) && SameOn(m, m', reserved)
  }

  lemma Spared(m: Memory, m': Memory, s: seq<Node>, e: seq<int>, l: Space)
    requires KeptAt(s, e, l) && BlocksApart(l) && SameOutside(m, m', l.lo, l.hi)
    ensures SameUsed(m, m', s, e, l.reserved)
  {
    hide Inside, Clear;
    assert forall i :: 0 <= i < |s| ==> Secured(l, s[i].start, e[i]);
  }

  lemma SettledIn(c: Cache)
    requires c.Writing()
    ensures KeptAt(c.lookup.Regions(), Ends(c.lookup.Regions()), c.Layout()) && BlocksApart(c.Layout())
    ensures forall n :: n in c.chain ==> n.owner == DraftOf(c).owner
    ensures forall n :: n in c.lookup.Regions() ==> n !in Elems(c.chain)
  {
    hide BlocksApart, Secured;
    c.AllClear();
    EndsKept(c.lookup.Regions(), c.Layout());
    assert Linked(c.chain);
  }

  lemma Lower(ptr: int, limit: int, size: nat)
    requires ptr <= limit
    ensures ptr <= Allocated(ptr, limit, size).0 <= Allocated(ptr, limit, size).1 <= limit
    ensures RoomFor(ptr, limit, size) ==> Allocated(ptr, limit, size).0 == ptr
  {
  }

  /** The finished method is the one on paper: its code is in memory, its regions cover it, the tree has them besides
      those it had before, and its debug map tells the pairs that were marked. */
  ghost predicate Finished(c: Cache, d: Draft, before: set<Node>)
    reads c, c.debug, c.lookup, c.lookup.nodes, c.chain
  {
    && d.ptr < d.limit && c.start == d.start && |d.code| == d.ptr - d.start && Stores(c.memory, d.start, d.code)
    && Tiles(c.chain, d.start, c.freeStart) && Cookies(c.chain) == d.regions
    && (forall n :: n in c.chain ==> n.owner == d.owner)
    && c.Committed() && Elems(c.lookup.Regions()) == before + Elems(c.chain)
    && (c.Valid() <==> c.chain[|c.chain| - 1].start < c.freeStart)
    && d.ptr <= c.freeStart != 0 && (c.freeStart, c.freeEnd) == Rest(d)
    && Labelled(c.chain, c.debug.blocks) && InPlace(c.memory, c.places, c.debug.blocks, c.reserved)
    && (AllOrdinary(d.marks) ==> AllReadable(c.debug.blocks))
    && (AllOrdinary(d.marks) ==> ReadAll(c.debug.blocks) == Remembered(d))
  }

  /** What is left of the free region: all but the code, the auxiliary blocks and the last block of the debug map. */
  function Rest(d: Draft): (int, int) {
    if d.marks == [] then (d.ptr, d.limit) else Allocated(d.ptr, d.limit, LastFlush(d.open))
  }

  /** The pairs that the debug map of a finished method tells: all, if there is room for the last block, and otherwise
      those that were flushed before. */
  function Remembered(d: Draft): seq<Pair> {
    if RoomFor(d.ptr, d.limit, LastFlush(d.open)) || |d.open| > |d.marks| then d.marks
    else d.marks[..|d.marks| - |d.open|]
  }

  lemma FlushedMarks(c: Cache)
    requires c.Writing() && c.ptr < c.limit
    ensures |c.debug.open| <= |c.marks| && Concat(c.debug.chunks) == c.marks[..|c.marks| - |c.debug.open|]
    ensures c.debug.blocks == [] && c.debug.len == 0 <==> c.marks == []
  {
    if c.debug.blocks == [] && c.debug.len == 0 { Cache.NoDebug(c.debug.chunks, c.debug.open); }
    if c.debug.chunks != [] { assert c.debug.chunks[|c.debug.chunks| - 1] != []; }
  }

  /** The pages once a method that did not fit the free region [lo, hi) was given up there. */
  function GivenUp(pages: seq<Page>, lo: int, hi: int): seq<Page> {
    if FreshPageOf(pages, lo, hi) then pages[..|pages| - 1] else pages
  }

  lemma DraftedTwo(a: Op, b: Op, f: Draft)
    requires |f.regions| > 0
    ensures Whole([[a, b]], f) == After(b, After(a, f))
  {
    hide After;
    assert [a, b][1..] == [b] && [b][1..] == [] && [[a, b]][1..] == [];
    assert Drafted([b], After(a, f)) == After(b, After(a, f));
  }

  /** The method of one mark and a run of bytes that leaves one byte of the free region [lo, hi): it fits, and the block
      with its debug map does not, so that its debug map tells nothing. */
  lemma LastBlockLost(lo: int, hi: int, owner: int) returns (gen: Generator)
    requires 0 < lo && lo + METHOD_SIZE + 2 * BEST_ALIGNMENT <= hi
    ensures forall at, top :: Sane(CodeAt(gen, at, top))
    ensures Fits(gen, lo, hi, 1, owner)
    ensures var d := Paper(gen, lo, hi, 1, owner);
      d.marks == [Pair(0, 0)] && AllOrdinary(d.marks) && Remembered(d) == []
  {
    var limit := Started(lo, hi, 1).1;
    var rest: Op := Output(seq(limit - lo - 1, _ => 0));
    var all: seq<seq<Op>> := [[Mark(0), rest]];
    gen := (_, _) => all;
    var f := Blank(lo, hi, 1, owner);
    var p := Pair(0, 0);
    assert f.open + [p] == [p] && EncodePairs([p]) == [0, 0] by {
      assert [p][..0] == [] && Encode(0) == [0] && EncodePair(p) == [0] + [0] && EncodePairs([]) == [];
    }
    assert After(Mark(0), f) == f.(marks := [p], open := [p]);
    DraftedTwo(Mark(0), rest, f);
    assert CodeAt(gen, lo, hi) == all;
    assert |EncodePairs([p] + [END])| >= 1 by { assert ([p] + [END])[..1] == [p]; }
  }

  /** The free region is a page of its own, of the given factor. */
  ghost predicate OnPage(c: Cache, factor: nat)
    reads c
  {
    FreshPageOf(c.pages, c.freeStart, c.freeEnd) && c.pages[|c.pages| - 1].factor == factor
  }

  /** Once a page of the given factor is given back, there are `left` pages left. */
  ghost predicate StillLeft(c: Cache, left: int, factor: nat)
    reads c`pagesLeft
  {
    if left < 0 then c.pagesLeft < 0 else c.pagesLeft >= 0 && c.pagesLeft + factor >= left
  }

  /** What one round of the loop knows: the method was just started, on a page of factor 2^(j-1) unless it is the
      first attempt, and giving that page back would leave the cache as many pages as it had. */
  ghost predicate Trying(c: Cache, align: int, owner: int, j: nat, left: int)
    reads c, c.debug, c.debug.data, c.lookup, c.lookup.nodes, c.chain
  {
    && c.Writing() && DraftOf(c) == Blank(c.freeStart, c.freeEnd, align, owner)
      && StartFits(c.freeStart, c.freeEnd, align)
    && c.chain == [c.current]
    && StillLeft(c, left, if j > 0 then Pow2(j - 1) else 0)
    && (j > 0 ==> OnPage(c, Pow2(j - 1)))
  }

  lemma InPlaceOf(m: Memory, places: seq<int>, data: seq<seq<Byte>>, blocks: seq<(int, int)>, before: seq<(int, int)>)
    requires InPlace(m, places, data, blocks)
    ensures InPlace(m, places, data, before + blocks)
  {
    hide Stores;
    forall b | b in blocks ensures b in before + blocks { }
  }

  method EndAttempt(c: Cache, ghost j: nat, ghost left: int) returns (r: Status)
    requires c.Writing() && StillLeft(c, left, if j > 0 then Pow2(j - 1) else 0) && (j > 0 ==> OnPage(c, Pow2(j - 1)))
    modifies c, c.debug, c.debug.data, c.lookup, c.lookup.nodes`left, c.lookup.nodes`right, c.lookup.nodes`red
    modifies Elems(c.chain)`left, Elems(c.chain)`right, Elems(c.chain)`red, Elems(c.chain)`debug, Elems(c.chain)`end
    ensures r == if old(DraftOf(c)).ptr < old(DraftOf(c)).limit then OK else RESTART
    ensures c.Budget() == old(c.Budget()) && c.debug.data.Length == DEBUG_SIZE
    ensures SameOutside(old(c.memory), c.memory, old(c.freeStart), old(c.freeEnd))
    ensures c.lookup.nodes <= old(c.lookup.nodes) + old(Elems(c.chain))
    ensures if r == OK then old(c.reserved) <= c.reserved else c.reserved == old(c.reserved)
    ensures r == OK ==> Finished(c, old(DraftOf(c)), old(Elems(c.lookup.Regions())))
    ensures r == RESTART ==>
      c.Valid() && c.lookup.Regions() == old(c.lookup.Regions()) && c.lookup.nodes == old(c.lookup.nodes)
    ensures r == OK ==> c.pages == old(c.pages) && c.pagesLeft == old(c.pagesLeft)
    ensures r == RESTART ==> c.pages == GivenUp(old(c.pages), old(c.freeStart), old(c.freeEnd))
    ensures r == RESTART ==> Ends(c.lookup.Regions()) == old(Ends(c.lookup.Regions())) && StillLeft(c, left, 0)
  {
    hide Cache.Writing, Cache.Valid, Cache.ChainValid, Cache.Committed, SameOutside, Stores;
    hide RoomFor, Allocated, LastFlush, Tiles, Labelled, Concat, Stacked, LookupTree.Regions;
    hide AllOrdinary, AllReadable, ReadAll, Cookies, Cache.Budget, NoneEmpty, LookupTree.Valid, KeptAt, InPlace, Ends;
    Inner(c);
    SettledIn(c);
    ghost var d, lo, hi, m := DraftOf(c), c.freeStart, c.freeEnd, c.memory;
    if c.ptr < c.limit { FlushedMarks(c); }
    ghost var regions, ends := c.lookup.Regions(), Ends(c.lookup.Regions());
    assert SameOutside(m, m, lo, hi) by { SameSelf(m, lo, hi); }
    r := c.EndMethod();
    assert Ends(regions) == ends;
    if r == OK {
      Lower(d.ptr, d.limit, LastFlush(d.open));
      Within(m, c.memory, c.freeEnd, hi, lo, hi);
      InPlaceOf(c.memory, c.places, c.debug.blocks, c.blocks, old(c.reserved));
    }
  }

  method Attempt(c: Cache, gen: Generator, align: int, owner: int, ghost j: nat, ghost left: int)
    returns (r: Status)
    requires Trying(c, align, owner, j, left)
    requires Sane(CodeAt(gen, c.start, c.freeEnd))
    modifies c, c.debug, c.debug.data, c.lookup, c.lookup.nodes`left, c.lookup.nodes`right, c.lookup.nodes`red,
      c.current
    ensures r == if Fits(gen, old(c.freeStart), old(c.freeEnd), align, owner) then OK else RESTART
    ensures c.Budget() == old(c.Budget()) && c.debug.data.Length == DEBUG_SIZE
    ensures SameUsed(old(c.memory), c.memory, old(c.lookup.Regions()), old(Ends(c.lookup.Regions())), old(c.reserved))
    ensures if r == OK then old(c.reserved) <= c.reserved else c.reserved == old(c.reserved)
    ensures fresh(c.lookup.nodes - old(c.lookup.nodes) - {old(c.current)})
    ensures r == OK ==>
      Finished(c, Paper(gen, old(c.freeStart), old(c.freeEnd), align, owner), old(Elems(c.lookup.Regions())))
    ensures r == RESTART ==>
      c.Valid() && c.lookup.Regions() == old(c.lookup.Regions()) && c.lookup.nodes == old(c.lookup.nodes)
    ensures r == OK ==> c.pages == old(c.pages) && c.pagesLeft == old(c.pagesLeft)
    ensures r == RESTART ==> c.pages == GivenUp(old(c.pages), old(c.freeStart), old(c.freeEnd))
    ensures r == RESTART ==> Ends(c.lookup.Regions()) == old(Ends(c.lookup.Regions())) && StillLeft(c, left, 0)
  {
    hide Cache.Writing, Cache.Valid, Cache.Committed, After, SameOutside, Whole, Started, StartFits, Finished, DraftOf;
    hide LookupTree.Regions, SameUsed, KeptAt, BlocksApart, Sane, Cookies, Cache.Budget, AllSensible, LookupTree.Valid,
      FreshPageOf, Ends;
    assert |c.chain| == 1 && c.chain[0] == c.current && c.current in Elems(c.chain);
    SettledIn(c);
    ghost var regions, ends, m, l := c.lookup.Regions(), Ends(c.lookup.Regions()), c.memory, c.Layout();
    Run(c, CodeAt(gen, c.start, c.freeEnd));
    SettledIn(c);
    ghost var d, m1 := DraftOf(c), c.memory;
    assert d.ptr < d.limit ==> d == Paper(gen, l.lo, l.hi, align, owner);
    r := EndAttempt(c, j, left);
    SameTwice(m, m1, c.memory, l.lo, l.hi);
    Spared(m, c.memory, regions, ends, l);
  }

  // ---- The loop ----

  /** The pages of a cache, how many it may still have, and its free region. */
  datatype Held = Held(pages: seq<Page>, left: int, free: (int, int))

  ghost function HeldBy(c: Cache): Held
    reads c`pages, c`pagesLeft, c`freeStart, c`freeEnd
  {
    Held(c.pages, c.pagesLeft, (c.freeStart, c.freeEnd))
  }

  /** The region is a whole page of the factor. */
  predicate OfFactor(r: (int, int), size: nat, factor: nat) { r.0 > 0 && r.1 == r.0 + size * factor }

  /** The free regions where a method was tried: the one there was, and then pages of doubled factors, each of them
      because the method did not fit before. */
  ghost predicate Attempts(gen: Generator, align: int, owner: int, size: nat, free: (int, int),
                           tried: seq<(int, int)>) {
    && |tried| > 0 && tried[0] == free
    && (forall i :: 0 < i < |tried| ==> OfFactor(tried[i], size, Pow2(i - 1)))
    && forall i :: 0 <= i < |tried| - 1 ==> !Fits(gen, tried[i].0, tried[i].1, align, owner)
  }

  /** The pages without those that were tried in vain. */
  function Before(pages: seq<Page>, free: (int, int), align: int): seq<Page> {
    if StartFits(free.0, free.1, align) then GivenUp(pages, free.0, free.1) else pages
  }

  /** The page that was tried last, unless that was the free region there was. */
  function LastTried(tried: seq<(int, int)>, size: nat): seq<Page> {
    if |tried| < 2 then [] else [Page(tried[|tried| - 1].0, Pow2(|tried| - 2), size * Pow2(|tried| - 2))]
  }

  /** What becomes of a compilation, exactly.  Without a free region it fails.  Otherwise it succeeds if and only if the
      method fits the region tried last.  It is tried where it is free first, and there no page changes hands if it
      fits; it is given up only when the next page is not to be had, or too small to start on. */
  ghost predicate Searched(gen: Generator, align: int, owner: int, granted: int -> bool, size: nat, maxFactor: nat,
                           before: Held, after: Held, tried: seq<(int, int)>, ok: bool) {
    if before.free.0 == 0 then !ok && tried == [] && after == before
    else
      && Attempts(gen, align, owner, size, before.free, tried)
      && var n, last := |tried|, tried[|tried| - 1];
         && (ok <==> Fits(gen, last.0, last.1, align, owner))
         && if ok then
              && after.free == Rest(Paper(gen, last.0, last.1, align, owner))
              && if n == 1 then after.pages == before.pages && after.left == before.left
                 else after.pages == Before(before.pages, before.free, align) + LastTried(tried, size)
            else if n > 1 && !StartFits(last.0, last.1, align) then
              after.free == last && after.pages == Before(before.pages, before.free, align) + LastTried(tried, size)
            else
              && after.free == (0, 0) && after.pages == Before(before.pages, before.free, align)
              && !ToBeHad(maxFactor, Pow2(n - 1), after.left, granted)
  }

  /** A page has room for the information block of a method, wherever it is. */
  predicate Roomy(c: Cache, align: int) {
    (if align > 1 then align else 0) + METHOD_SIZE + BEST_ALIGNMENT <= c.pageSize
  }

  predicate FitsOn(gen: Generator, base: int, size: int, align: int, owner: int) {
    Fits(gen, base, base + size, align, owner)
  }

  /** The method fits on a page of factor 2^k, wherever that page is, and all pages up to there are to be had. */
  ghost predicate Enough(c: Cache, gen: Generator, align: int, owner: int, granted: int -> bool, left: int,
                         k: nat) {
    && Roomy(c, align) && Pow2(k) <= c.maxPageFactor && (left < 0 || Pow2(k) <= left)
    && (forall j: nat :: j <= k ==> granted(Pow2(j)))
    && forall base :: base > 0 ==> FitsOn(gen, base, c.pageSize * Pow2(k), align, owner)
  }

  lemma {:induction false} Doubles(j: nat, k: nat)
    requires j <= k
    ensures 1 <= Pow2(j) <= Pow2(k) && Pow2(j + 1) == 2 * Pow2(j)
  {
    if j < k { Doubles(j, k - 1); } else if j > 0 { Doubles(j - 1, k - 1); }
  }

  lemma OwnPage(c: Cache, factor: nat)
    requires c.Valid() && OnPage(c, factor)
    ensures c.freeStart > 0 && c.freeEnd == c.freeStart + c.pageSize * factor && c.pageSize <= c.pageSize * factor
  {
    Bigger(c.pageSize, factor);
  }

  lemma Bigger(size: nat, f: nat)
    requires f >= 1
    ensures size <= size * f
  {
  }

  lemma PageStarts(c: Cache, factor: nat, align: int)
    requires c.Valid() && OnPage(c, factor) && Roomy(c, align)
    ensures StartFits(c.freeStart, c.freeEnd, align)
  {
    OwnPage(c, factor);
  }

  /** The cache as it was, but for the free region and what is in it. */
  ghost predicate Untouched(c: Cache, m: Memory, regions: seq<Node>, ends: seq<int>, reserved: seq<(int, int)>)
    reads c, c.lookup, c.lookup.nodes, regions
  {
    c.lookup.Regions() == regions && Ends(regions) == ends && c.reserved == reserved
      && SameUsed(m, c.memory, regions, ends, reserved)
  }

  predicate ToBeHad(maxFactor: nat, factor: int, left: int, granted: int -> bool) {
    granted(factor) && factor <= maxFactor && (left < 0 || factor <= left)
  }

  /** A page was asked for: it is the free region now, or there is none. */
  ghost predicate Turned(size: nat, maxFactor: nat, factor: nat, granted: int -> bool, h: Held, now: Held) {
    if ToBeHad(maxFactor, factor, h.left, granted) then
      && OfFactor(now.free, size, factor)
      && now.pages == h.pages + [Page(now.free.0, factor, size * factor)]
    else now == Held(h.pages, h.left, (0, 0))
  }

  /** Start the method, on a new page of factor 2^(j-1) unless `factor` is 0. */
  method Restart(c: Cache, factor: nat, align: int, owner: int, granted: int -> bool, ghost j: nat, ghost left: int)
    returns (r: Status)
    requires c.Valid() && c.debug.data.Length == DEBUG_SIZE
    requires factor == (if j == 0 then 0 else Pow2(j - 1)) && StillLeft(c, left, 0)
    modifies c, c.debug
    ensures c.Valid() && c.Budget() == old(c.Budget()) && c.memory == old(c.memory) && c.debug.data.Length == DEBUG_SIZE
    ensures c.reserved == old(c.reserved)
    ensures r == OK ==> Trying(c, align, owner, j, left) && fresh(c.current) && factor <= c.maxPageFactor
    ensures r != OK && Roomy(c, align) && factor > 0 ==> c.freeStart == 0
    ensures r == TOO_BIG <==> c.freeStart == 0
    ensures c.freeStart != 0 ==> (r == OK <==> StartFits(c.freeStart, c.freeEnd, align))
    ensures factor == 0 ==> HeldBy(c) == old(HeldBy(c))
    ensures factor > 0 ==> Turned(c.pageSize, c.maxPageFactor, factor, granted, old(HeldBy(c)), HeldBy(c))
    ensures factor > 0 && ToBeHad(c.maxPageFactor, factor, old(c.pagesLeft), granted) && Roomy(c, align) ==> r == OK
  {
    hide Cache.Valid, Cache.Writing, StartFits, Started, Roomy, Cookies;
    if j > 0 { Doubles(j - 1, j); }
    r := c.StartMethod(factor, align, owner, granted(factor));
    if factor > 0 && ToBeHad(c.maxPageFactor, factor, old(c.pagesLeft), granted) {
      OwnPage(c, factor);
      if Roomy(c, align) { PageStarts(c, factor, align); }
    }
    if c.freeStart == 0 { NoFree(c); }
  }

  lemma NoFree(c: Cache)
    requires c.Valid()
    ensures c.freeStart == 0 ==> c.freeEnd == 0
  {
  }

  /** There is another page to be had as long as a large enough one was not tried. */
  lemma NextPage(c: Cache, gen: Generator, align: int, owner: int, granted: int -> bool, left: int, j: nat,
                 k: nat)
    requires Enough(c, gen, align, owner, granted, left, k) && j <= k
    requires StillLeft(c, left, 0)
    ensures ToBeHad(c.maxPageFactor, Pow2(j), c.pagesLeft, granted) && Roomy(c, align)
  {
    hide Fits;
    Doubles(j, k);
  }

  /** The page that is large enough is the last one to be tried. */
  lemma LastPage(c: Cache, gen: Generator, align: int, owner: int, granted: int -> bool, left: int, j: nat,
                 k: nat)
    requires Enough(c, gen, align, owner, granted, left, k) && Trying(c, align, owner, j, left) && j == k + 1
    ensures Fits(gen, c.freeStart, c.freeEnd, align, owner)
  {
    hide Fits, Blank, StartFits, Cache.Valid, ToBeHad, DraftOf, StillLeft, Cache.ChainValid, Cache.Committed;
    OwnPage(c, Pow2(j - 1));
    assert FitsOn(gen, c.freeStart, c.pageSize * Pow2(k), align, owner);
  }

  lemma SameUsedTwice(m: Memory, m': Memory, m'': Memory, s: seq<Node>, e: seq<int>, reserved: seq<(int, int)>)
    requires SameUsed(m, m', s, e, reserved) && SameUsed(m', m'', s, e, reserved)
    ensures SameUsed(m, m'', s, e, reserved)
  {
    forall i, a | 0 <= i < |s| && s[i].start <= a < e[i] ensures (a in m'' <==> a in m) && (a in m ==> m''[a] == m[a]) {
      assert a in m' <==> a in m;
    }
    SameOnTwice(m, m', m'', reserved);
  }

  lemma SameOnTwice(m: Memory, m': Memory, m'': Memory, ranges: seq<(int, int)>)
    requires SameOn(m, m', ranges) && SameOn(m', m'', ranges)
    ensures SameOn(m, m'', ranges)
  {
    forall i, a | 0 <= i < |ranges| && ranges[i].0 <= a < ranges[i].1
      ensures (a in m'' <==> a in m) && (a in m ==> m''[a] == m[a]) {
      assert a in m' <==> a in m;
    }
  }

  lemma SameUsedSelf(m: Memory, s: seq<Node>, reserved: seq<(int, int)>)
    ensures SameUsed(m, m, s, Ends(s), reserved)
  {
  }

  // ---- Where the loop has tried ----

  lemma NoRegion(gen: Generator, align: int, owner: int, granted: int -> bool, size: nat, maxFactor: nat, h: Held)
    ensures h.free.0 == 0 ==> Searched(gen, align, owner, granted, size, maxFactor, h, h, [], false)
  {
  }

  /** The method is about to be written to the region tried last. */
  ghost predicate Onward(gen: Generator, align: int, owner: int, size: nat, before: Held, now: Held,
                         tried: seq<(int, int)>) {
    && before.free.0 != 0 && Attempts(gen, align, owner, size, before.free, tried) && now.free == tried[|tried| - 1]
    && StartFits(now.free.0, now.free.1, align)
    && if |tried| == 1 then now == before
       else now.pages == Before(before.pages, before.free, align) + LastTried(tried, size)
  }

  /** It was given up there, and no page is held for it. */
  ghost predicate Vain(gen: Generator, align: int, owner: int, size: nat, before: Held, now: Held,
                       tried: seq<(int, int)>) {
    && before.free.0 != 0 && Attempts(gen, align, owner, size, before.free, tried)
    && now.pages == Before(before.pages, before.free, align)
    && var last := tried[|tried| - 1];
       !Fits(gen, last.0, last.1, align, owner) && (|tried| > 1 ==> StartFits(last.0, last.1, align))
  }

  lemma FirstTried(gen: Generator, align: int, owner: int, size: nat, h: Held)
    requires h.free.0 != 0
    ensures if StartFits(h.free.0, h.free.1, align) then Onward(gen, align, owner, size, h, h, [h.free])
      else Vain(gen, align, owner, size, h, h, [h.free])
  {
  }

  /** The attempt failed and gave its page back. */
  lemma GaveUp(gen: Generator, align: int, owner: int, size: nat, before: Held, h: Held, now: Held,
               tried: seq<(int, int)>)
    requires Onward(gen, align, owner, size, before, h, tried) && !Fits(gen, h.free.0, h.free.1, align, owner)
    requires now.pages == GivenUp(h.pages, h.free.0, h.free.1)
    ensures Vain(gen, align, owner, size, before, now, tried)
  {
  }

  lemma OneTriedMore(gen: Generator, align: int, owner: int, size: nat, free: (int, int), tried: seq<(int, int)>,
                     r: (int, int))
    requires Attempts(gen, align, owner, size, free, tried)
      && !Fits(gen, tried[|tried| - 1].0, tried[|tried| - 1].1, align, owner)
    requires OfFactor(r, size, Pow2(|tried| - 1))
    ensures Attempts(gen, align, owner, size, free, tried + [r])
  {
    hide Fits, Pow2, OfFactor;
    var all, n := tried + [r], |tried|;
    assert all[0] == tried[0] && all[n] == r;
    forall i | 0 < i <= n ensures OfFactor(all[i], size, Pow2(i - 1)) {
      if i < n { assert all[i] == tried[i]; }
    }
    forall i | 0 <= i < n ensures !Fits(gen, all[i].0, all[i].1, align, owner) {
      assert all[i] == tried[i];
    }
  }

  /** The next page, if there is one. */
  lemma NextTried(gen: Generator, align: int, owner: int, granted: int -> bool, size: nat, maxFactor: nat,
                  before: Held, h: Held, now: Held, tried: seq<(int, int)>) returns (tried': seq<(int, int)>)
    requires Vain(gen, align, owner, size, before, h, tried)
    requires Turned(size, maxFactor, Pow2(|tried| - 1), granted, h, now)
    ensures if now.free.0 != 0 && StartFits(now.free.0, now.free.1, align)
      then tried' == tried + [now.free] && Onward(gen, align, owner, size, before, now, tried')
      else Searched(gen, align, owner, granted, size, maxFactor, before, now, tried', false)
  {
    assert OfFactor(now.free, size, Pow2(|tried| - 1)) ==> now.free.0 != 0;
    hide Fits, StartFits, Before, Paper, Rest, Attempts, OfFactor, ToBeHad, Pow2;
    if ToBeHad(maxFactor, Pow2(|tried| - 1), h.left, granted) {
      tried' := tried + [now.free];
      OneTriedMore(gen, align, owner, size, before.free, tried, now.free);
    } else {
      tried' := tried;
    }
  }

  /** The method fits. */
  lemma Found(gen: Generator, align: int, owner: int, granted: int -> bool, size: nat, maxFactor: nat,
              before: Held, h: Held, now: Held, tried: seq<(int, int)>)
    requires Onward(gen, align, owner, size, before, h, tried) && Fits(gen, h.free.0, h.free.1, align, owner)
    requires now.pages == h.pages && now.left == h.left
      && now.free == Rest(Paper(gen, h.free.0, h.free.1, align, owner))
    ensures |tried| > 0 && tried[|tried| - 1] == h.free
    ensures Searched(gen, align, owner, granted, size, maxFactor, before, now, tried, true)
  {
  }

  lemma RestOf(c: Cache, d: Draft, before: set<Node>)
    requires Finished(c, d, before)
    ensures (c.freeStart, c.freeEnd) == Rest(d)
  {
  }

  /** The first `_jit_cache_start_method` of `compile`, in the free region there is, and the second one on a page of the
      default size if the first finds no room. */
  method FirstStart(c: Cache, gen: Generator, align: int, owner: int, granted: int -> bool)
    returns (result: Status, pageFactor: nat, ghost j: nat, ghost tried: seq<(int, int)>)
    requires c.Valid() && c.debug.data.Length == DEBUG_SIZE
    modifies c, c.debug
    ensures c.Valid() && c.Budget() == old(c.Budget()) && c.memory == old(c.memory) && c.debug.data.Length == DEBUG_SIZE
    ensures c.reserved == old(c.reserved) && pageFactor == Pow2(j) <= 2 * c.maxPageFactor + 2
    ensures result == OK ==> Trying(c, align, owner, j, old(c.pagesLeft)) && fresh(c.current) && |tried| == j + 1 <= 2
    ensures result == OK ==> Onward(gen, align, owner, c.pageSize, old(HeldBy(c)), HeldBy(c), tried)
    ensures result != OK ==>
      Searched(gen, align, owner, granted, c.pageSize, c.maxPageFactor, old(HeldBy(c)), HeldBy(c), tried, false)
    ensures result != OK && Roomy(c, align) ==> c.freeStart == 0
    ensures result != OK && old(c.freeStart) != 0 ==>
      forall k: nat :: !Enough(c, gen, align, owner, granted, old(c.pagesLeft), k)
  {
    hide Cache.Valid, Cache.Writing, StartFits, Started, Roomy, ToBeHad, Enough, Cache.Budget, Trying, Searched, Onward,
      Vain, Turned;
    ghost var left, before := c.pagesLeft, HeldBy(c);
    pageFactor, j, tried := 0, 0, [];
    result := Restart(c, pageFactor, align, owner, granted, j, left);
    pageFactor := pageFactor + 1;
    assert Pow2(0) == 1 && Pow2(1) == 2;
    if result == TOO_BIG {
      NoRegion(gen, align, owner, granted, c.pageSize, c.maxPageFactor, before);
      return;
    }
    tried := [before.free];
    FirstTried(gen, align, owner, c.pageSize, before);
    if result == RESTART {
      forall k: nat | Enough(c, gen, align, owner, granted, left, k)
        ensures ToBeHad(c.maxPageFactor, 1, c.pagesLeft, granted) && Roomy(c, align) {
        NextPage(c, gen, align, owner, granted, left, 0, k);
      }
      j := 1;
      result := Restart(c, pageFactor, align, owner, granted, j, left);
      tried := NextTried(gen, align, owner, granted, c.pageSize, c.maxPageFactor, before, before, HeldBy(c), tried);
      pageFactor := pageFactor + 1;
    }
  }

  /** `compile`, from the first `_jit_cache_start_method` on.  `granted` says for which page factors the system has
      memory.  Whenever it fails, the cache has no free region left. */
  method Compile(c: Cache, gen: Generator, align: int, owner: int, granted: int -> bool)
    returns (ok: bool, ghost tried: seq<(int, int)>)
    requires c.Valid() && c.debug.data.Length == DEBUG_SIZE
    requires forall at, top :: Sane(CodeAt(gen, at, top))
    modifies c, c.debug, c.debug.data, c.lookup, c.lookup.nodes`left, c.lookup.nodes`right, c.lookup.nodes`red
    ensures c.Budget() == old(c.Budget()) && c.debug.data.Length == DEBUG_SIZE
      && fresh(c.lookup.nodes - old(c.lookup.nodes))
    ensures SameUsed(old(c.memory), c.memory, old(c.lookup.Regions()), old(Ends(c.lookup.Regions())), old(c.reserved))
    ensures if ok then old(c.reserved) <= c.reserved else c.reserved == old(c.reserved)
    // where the method is tried, whether it is compiled, and which pages the cache has then
    ensures Searched(gen, align, owner, granted, c.pageSize, c.maxPageFactor, old(HeldBy(c)), HeldBy(c), tried, ok)
    ensures ok ==> |tried| > 0 && var (lo, hi) := tried[|tried| - 1];
      Fits(gen, lo, hi, align, owner) && Finished(c, Paper(gen, lo, hi, align, owner), old(Elems(c.lookup.Regions())))
    ensures !ok ==> c.Valid() && c.lookup.Regions() == old(c.lookup.Regions())
    ensures !ok && Roomy(c, align) ==> c.freeStart == 0
    ensures old(c.freeStart) != 0 && (exists k: nat :: Enough(c, gen, align, owner, granted, old(c.pagesLeft), k)) ==>
      ok
  {
    hide Cache.Valid, Cache.Writing, Cache.Committed, Fits, Blank, StartFits, Started, SameUsed, Finished, Roomy,
      ToBeHad, Enough;
    hide Cache.Budget, Elems, LookupTree.Regions, LookupTree.Valid, Paper, Cookies, Trying, Ends, Sane, CodeAt,
      Searched, Onward, Vain, Turned, Rest, GivenUp;
    ghost var regions, ends, m, left, reserved, before :=
      c.lookup.Regions(), Ends(c.lookup.Regions()), c.memory, c.pagesLeft, c.reserved, HeldBy(c);
    SameUsedSelf(m, regions, reserved);
    ok := false;
    var result;
    var pageFactor: nat;
    ghost var j: nat;
    result, pageFactor, j, tried := FirstStart(c, gen, align, owner, granted);
    if result != OK {
      return;
    }
    while true
      invariant Trying(c, align, owner, j, left) && fresh(c.current)
      invariant c.Budget() == old(c.Budget()) && c.lookup.nodes == old(c.lookup.nodes)
        && Untouched(c, m, regions, ends, reserved)
      invariant pageFactor == Pow2(j) <= 2 * c.maxPageFactor + 2
      invariant forall k: nat :: Enough(c, gen, align, owner, granted, left, k) ==> j <= k + 1
      invariant Onward(gen, align, owner, c.pageSize, before, HeldBy(c), tried) && |tried| == j + 1
      decreases 2 * c.maxPageFactor + 2 - pageFactor
    {
      forall k: nat | Enough(c, gen, align, owner, granted, left, k) && j == k + 1
        ensures Fits(gen, c.freeStart, c.freeEnd, align, owner) {
        LastPage(c, gen, align, owner, granted, left, j, k);
      }
      ghost var m1, h1 := c.memory, HeldBy(c);
      result := Attempt(c, gen, align, owner, j, left);
      SameUsedTwice(m, m1, c.memory, regions, ends, reserved);
      if result != RESTART {
        RestOf(c, Paper(gen, h1.free.0, h1.free.1, align, owner), Elems(regions));
        Found(gen, align, owner, granted, c.pageSize, c.maxPageFactor, before, h1, HeldBy(c), tried);
        break;
      }
      forall k: nat | Enough(c, gen, align, owner, granted, left, k)
        ensures ToBeHad(c.maxPageFactor, pageFactor, c.pagesLeft, granted) && Roomy(c, align) {
        NextPage(c, gen, align, owner, granted, left, j, k);
      }
      Doubles(j, j);
      j := j + 1;
      ghost var h := HeldBy(c);
      GaveUp(gen, align, owner, c.pageSize, before, h1, h, tried);
      result := Restart(c, pageFactor, align, owner, granted, j, left);
      tried := NextTried(gen, align, owner, granted, c.pageSize, c.maxPageFactor, before, h, HeldBy(c), tried);
      if result != OK {
        return;
      }
      pageFactor := pageFactor * 2;
    }
    ok := true;
  }

  // ---- What the lookups say about a compiled method ----

  /** The cookie of the last region that starts at or before `pc`. */
  function CookieAt(regions: seq<(int, int)>, pc: int): int
    requires |regions| > 0
  {
    var last := |regions| - 1;
    if last == 0 || regions[last].0 <= pc then regions[last].1 else CookieAt(regions[..last], pc)
  }

  lemma {:induction false} CookieOf(regions: seq<(int, int)>, pc: int, i: nat)
    requires i < |regions| && regions[i].0 <= pc && forall k :: i < k < |regions| ==> pc < regions[k].0
    ensures CookieAt(regions, pc) == regions[i].1
  {
    var last := |regions| - 1;
    if i < last { CookieOf(regions[..last], pc, i); }
  }

  /** Regions that tile [lo, hi) contain each address in it. */
  lemma Covering(chain: seq<Node>, lo: int, hi: int, pc: int) returns (i: nat)
    requires Tiles(chain, lo, hi) && lo <= pc < hi
    ensures i < |chain| && Holds(chain[i], pc)
  {
    i := |chain| - 1;
    while pc < chain[i].start
      invariant 0 <= i < |chain| && pc < chain[i].end
    {
      assert chain[i - 1].end == chain[i].start;
      i := i - 1;
    }
  }

  /** Looking up an address in a compiled method gives the method, and the cookie that was in force when the code at
      that address was output. */
  lemma LooksUp(c: Cache, d: Draft, before: set<Node>, pc: int)
    requires Finished(c, d, before) && d.start <= pc < c.freeStart
    ensures var n := Scan(c.lookup.Regions(), pc);
      n != null && n in c.chain && n.owner == d.owner && n.cookie == CookieAt(d.regions, pc)
        && n.debug == c.debug.blocks
  {
    hide LookupTree.Valid;
    var i := Covering(c.chain, d.start, c.freeStart, pc);
    ScanFinds(c.lookup.Regions(), pc);
    assert c.chain[i] in Elems(c.chain) && c.chain[i] in Elems(c.lookup.Regions());
    forall k | i < k < |d.regions| ensures pc < d.regions[k].0 {
      assert c.chain[i].end == c.chain[i + 1].start <= c.chain[k].start;
    }
    CookieOf(d.regions, pc, i);
  }

  /** And what was found before is still found. */
  lemma StillLooksUp(c: Cache, d: Draft, before: set<Node>, n: Node, pc: int)
    requires Finished(c, d, before) && n in before && Holds(n, pc)
    ensures Scan(c.lookup.Regions(), pc) == n
  {
    ScanFinds(c.lookup.Regions(), pc);
    assert n in Elems(c.lookup.Regions());
  }
}
