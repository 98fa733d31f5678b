/** The method cache (jit/jit-cache.c, jit/jit-cache.h): pages that code fills from below and auxiliary blocks
    from above, and the protocol that writes one method at a time into the free region. */
module CodeCache {
  import opened Wrappers
  import opened Arithmetic
  import opened RedBlack
  import opened LookupTrees
  import opened LookupQueries
  import opened DebugMap
  import opened DebugStream

  const BEST_ALIGNMENT: int := 16
  const METHOD_SIZE: nat := 56    // sizeof(struct jit_cache_method)
  const DEBUG_HEADER: nat := 8    // sizeof(struct jit_cache_debug)

  /** A page of `factor` times the default page size. */
  datatype Page = Page(base: int, factor: nat, size: nat)
  datatype Status = OK | RESTART | TOO_BIG

  function RoundDown(x: int, a: int): (r: int)
    requires a > 0
    ensures r <= x < r + a && r % a == 0
  {
    Aligned(x / a, a);
    x / a * a
  }

  lemma Aligned(q: int, a: int)
    requires a > 0
    ensures q * a % a == 0
  {
    DivMod(q * a, a, q, 0);
  }

  function RoundUp(x: int, a: int): (r: int)
    requires a > 0
    ensures x <= r < x + a && r % a == 0
  {
    RoundDown(x + a - 1, a)
  }

  // ---- Memory ----

  type Memory = map<int, Byte>

  predicate Stores(m: Memory, at: int, s: seq<Byte>) {
    forall a :: at <= a < at + |s| ==> a in m && m[a] == s[a - at]
  }

  function Stored(m: Memory, at: int, s: seq<Byte>): (m': Memory)
    ensures Stores(m', at, s)
    ensures SameOutside(m, m', at, at + |s|)
  {
    if s == [] then m
    else
      Stored(m, at, s[..|s| - 1])[at + |s| - 1 := s[|s| - 1]]
  }

  /** Nothing outside [lo, hi) changed. */
  ghost predicate SameOutside(m: Memory, m': Memory, lo: int, hi: int) {
    forall a :: a < lo || hi <= a ==> (a in m' <==> a in m) && (a in m ==> m'[a] == m[a])
  }

  predicate PagesApart(p: Page, q: Page) { p.base + p.size <= q.base || q.base + q.size <= p.base }

  function Factors(pages: seq<Page>): nat {
    if pages == [] then 0 else Factors(pages[..|pages| - 1]) + pages[|pages| - 1].factor
  }

  /** Some page holds the addresses [lo, hi). */
  predicate Inside(pages: seq<Page>, lo: int, hi: int) {
    exists i :: 0 <= i < |pages| && pages[i].base <= lo && hi <= pages[i].base + pages[i].size
  }

  predicate AllApart(pages: seq<Page>, p: Page) { forall i :: 0 <= i < |pages| ==> PagesApart(pages[i], p) }

  predicate PagesValid(pages: seq<Page>, pageSize: nat) {
    && (forall i :: 0 <= i < |pages| ==>
      pages[i].base > 0 && pages[i].factor > 0 && pages[i].size == pageSize * pages[i].factor)
    && (forall i, j :: 0 <= i < j < |pages| ==> PagesApart(pages[i], pages[j]))
  }

  /** There is always some address where a new page can go. */
  lemma {:induction false} Room(pages: seq<Page>) returns (base: int)
    ensures base > 0 && forall i :: 0 <= i < |pages| ==> pages[i].base + pages[i].size <= base
  {
    if pages == [] { return 1; }
    var last := pages[|pages| - 1];
    base := Room(pages[..|pages| - 1]);
    assert forall i :: 0 <= i < |pages| - 1 ==> pages[..|pages| - 1][i] == pages[i];
    if base < last.base + last.size { base := last.base + last.size; }
  }

  lemma PagesGrow(pages: seq<Page>, p: Page, pageSize: nat)
    requires PagesValid(pages, pageSize) && AllApart(pages, p)
    requires p.base > 0 && p.factor > 0 && p.size == pageSize * p.factor
    ensures PagesValid(pages + [p], pageSize)
  {
  }

  lemma NewPage(pages: seq<Page>, p: Page, lo: int, hi: int)
    requires AllApart(pages, p) && Inside(pages, lo, hi)
    ensures Inside(pages + [p], lo, hi) && (hi <= p.base || p.base + p.size <= lo)
  {
    var i :| 0 <= i < |pages| && pages[i].base <= lo && hi <= pages[i].base + pages[i].size;
    assert (pages + [p])[i] == pages[i] && PagesApart(pages[i], p);
  }

  /** Regions of one method, oldest first: each ends where the next one starts, and leads to the one before. */
  ghost predicate Linked(chain: seq<Node>)
    reads chain
  {
    && |chain| > 0 && chain[0].right == null
    && (forall i :: 0 <= i < |chain| ==> chain[i].owner == chain[0].owner)
    && (forall i :: 0 < i < |chain| ==> chain[i].right == chain[i - 1] && chain[i - 1].end == chain[i].start)
    && (forall i, j :: 0 <= i < j < |chain| ==> chain[i].start < chain[j].start)
  }

  /** The regions cover [lo, hi) without gaps, in order. */
  ghost predicate Tiles(s: seq<Node>, lo: int, hi: int)
    reads s`end
  {
    && |s| > 0 && s[0].start == lo && s[|s| - 1].end == hi
    && (forall i :: 0 <= i < |s| - 1 ==> s[i].end == s[i + 1].start)
    && (forall i, j :: 0 <= i < j < |s| ==> s[i].start < s[j].start)
    && s[|s| - 1].start <= hi
  }

  /** Regions that are not empty and lie outside [lo, hi]. */
  ghost predicate ClearOf(s: seq<Node>, lo: int, hi: int)
    reads s`end
  {
    forall n :: n in s ==> n.start < n.end && (n.end <= lo || hi < n.start)
  }

  /** The first `k` regions lead back to one another. */
  ghost predicate BackLinked(chain: seq<Node>, k: int)
    reads chain`right
  {
    0 <= k <= |chain| && (k > 0 ==> chain[0].right == null) && forall i :: 0 < i < k ==> chain[i].right == chain[i - 1]
  }

  ghost predicate Labelled(s: seq<Node>, blocks: seq<seq<Byte>>)
    reads s`debug
  {
    forall i :: 0 <= i < |s| ==> s[i].debug == blocks
  }

  /** Where each region starts, and its cookie. */
  ghost function Cookies(chain: seq<Node>): (r: seq<(int, int)>)
    reads chain`cookie
    ensures |r| == |chain| && forall i :: 0 <= i < |r| ==> r[i] == (chain[i].start, chain[i].cookie)
  {
    if chain == [] then [] else
      var last := chain[|chain| - 1];
      Cookies(chain[..|chain| - 1]) + [(last.start, last.cookie)]
  }

  lemma SplitChain(chain: seq<Node>, k: nat, lo: int, hi: int)
    requires Tiles(chain, lo, hi) && k <= |chain|
    ensures Elems(chain[..k]) !! Elems(chain[k..]) && Elems(chain) == Elems(chain[..k]) + Elems(chain[k..])
  {
    ElemsSplit(chain, k);
    if k < |chain| { SplitStarts(chain, k); }
    hide Tiles;
  }

  lemma ElemsSplit(chain: seq<Node>, k: nat)
    requires k <= |chain|
    ensures Elems(chain) == Elems(chain[..k]) + Elems(chain[k..])
  {
    assert chain == chain[..k] + chain[k..];
  }

  lemma SplitStarts(chain: seq<Node>, k: nat)
    requires k < |chain| && forall i, j :: 0 <= i < j < |chain| ==> chain[i].start < chain[j].start
    ensures forall n :: n in chain[k..] ==> chain[k].start <= n.start
    ensures forall n :: n in chain[..k] ==> n.start < chain[k].start
  {
    forall n | n in chain[k..] ensures chain[k].start <= n.start {
      var j :| 0 <= j < |chain| - k && chain[k..][j] == n;
      assert chain[k + j] == n;
    }
  }

  /** The ends of a list of regions, as they are now. */
  ghost function Ends(s: seq<Node>): (e: seq<int>)
    reads s`end
    ensures |e| == |s| && forall i :: 0 <= i < |s| ==> e[i] == s[i].end
  {
    if s == [] then [] else Ends(s[..|s| - 1]) + [s[|s| - 1].end]
  }

  /** The same facts about a list of regions with given ends. */
  predicate SpacedAt(s: seq<Node>, e: seq<int>) {
    && |e| == |s| && (forall i :: 0 <= i < |s| ==> s[i].start <= e[i])
    && (forall i, j :: 0 <= i < j < |s| ==> e[i] <= s[j].start)
  }

  predicate ClearAt(s: seq<Node>, e: seq<int>, lo: int, hi: int) {
    |e| == |s| && forall i :: 0 <= i < |s| ==> s[i].start < e[i] && (e[i] <= lo || hi < s[i].start)
  }

  predicate TilesAt(s: seq<Node>, e: seq<int>, lo: int, hi: int) {
    && |e| == |s| > 0 && s[0].start == lo && e[|s| - 1] == hi && s[|s| - 1].start <= hi
    && (forall i :: 0 <= i < |s| - 1 ==> e[i] == s[i + 1].start)
    && (forall i, j :: 0 <= i < j < |s| ==> s[i].start < s[j].start)
  }

  predicate NoneEmptyAt(s: seq<Node>, e: seq<int>) { |e| == |s| && forall i :: 0 <= i < |s| ==> s[i].start < e[i] }

  predicate KeptAt(s: seq<Node>, e: seq<int>, l: Space) {
    |e| == |s| && forall i :: 0 <= i < |s| ==> Secured(l, s[i].start, e[i])
  }

  lemma EndsOnly(s: seq<Node>, lo: int, hi: int)
    ensures Spaced(s) <==> SpacedAt(s, Ends(s))
    ensures ClearOf(s, lo, hi) <==> ClearAt(s, Ends(s), lo, hi)
    ensures Tiles(s, lo, hi) <==> TilesAt(s, Ends(s), lo, hi)
  {
  }

  lemma EndsKept(s: seq<Node>, l: Space)
    ensures Kept(s, l) <==> KeptAt(s, Ends(s), l)
    ensures NoneEmpty(s) <==> NoneEmptyAt(s, Ends(s))
  {
    hide Secured;
    if KeptAt(s, Ends(s), l) {
      forall n | n in s ensures Secured(l, n.start, n.end) {
        var i :| 0 <= i < |s| && s[i] == n;
        assert Ends(s)[i] == n.end;
      }
    }
    if Kept(s, l) {
      forall i | 0 <= i < |s| ensures Secured(l, s[i].start, Ends(s)[i]) {
        assert s[i] in s;
      }
    }
  }

  lemma InChain(before: seq<Node>, now: seq<Node>, chain: seq<Node>, k: nat, n: Node) returns (j: nat)
    requires k <= |chain| && Elems(now) == Elems(before) + Elems(chain[k..]) && n in now && n !in before
    ensures k <= j < |chain| && chain[j] == n
  {
    assert n in Elems(now) && n in Elems(chain[k..]);
    var i :| 0 <= i < |chain[k..]| && chain[k..][i] == n;
    j := k + i;
  }

  /** The next region to be committed is apart from the regions in the tree: those of other methods, and those of
      this method that come after it. */
  lemma NextApart(before: seq<Node>, now: seq<Node>, chain: seq<Node>, k: nat, lo: int, hi: int)
    requires 0 < k <= |chain| && Tiles(chain, lo, hi)
    requires ClearOf(before, lo, hi) && Elems(now) == Elems(before) + Elems(chain[k..])
    requires Sorted(now) && Spaced(now)
    ensures var r := chain[k - 1];
      && !Taken(now, r.start) && Spaced(Inserted(now, r))
      && Elems(Inserted(now, r)) == Elems(before) + Elems(chain[k - 1..]) && Elems(Inserted(now, r)) == Elems(now) + {r}
      && Elems(chain[..k]) == Elems(chain[..k - 1]) + {r} && r !in Elems(chain[..k - 1])
  {
    hide Spaced, Inserted, Sorted, Elems;
    var r := chain[k - 1];
    assert lo <= r.start && r.start <= r.end <= hi by {
      if k < |chain| { assert r.end == chain[k].start <= chain[|chain| - 1].start; }
    }
    forall n | n in now ensures n.start != r.start && (n.end <= r.start || r.end <= n.start) {
      if n !in before {
        var j := InChain(before, now, chain, k, n);
        assert r.end == chain[k].start <= n.start;
      }
    }
    SpacedInserted(now, r);
    LastOf(chain, k);
    SplitChain(chain, k - 1, lo, hi);
  }

  lemma LastOf(chain: seq<Node>, k: nat)
    requires 0 < k <= |chain|
    ensures Elems(chain[k - 1..]) == {chain[k - 1]} + Elems(chain[k..])
    ensures Elems(chain[..k]) == Elems(chain[..k - 1]) + {chain[k - 1]} && chain[k - 1] in Elems(chain[k - 1..])
  {
    assert chain[k - 1..] == [chain[k - 1]] + chain[k..];
    assert chain[..k] == chain[..k - 1] + [chain[k - 1]];
  }

  /** Auxiliary blocks allocated downwards from `top`: aligned, apart and above `limit`. */
  predicate Stacked(blocks: seq<(int, int)>, limit: int, top: int) {
    && (forall i :: 0 <= i < |blocks| ==>
      limit <= blocks[i].0 <= blocks[i].1 <= top && blocks[i].0 % BEST_ALIGNMENT == 0)
    && (forall i, j :: 0 <= i < j < |blocks| ==> blocks[j].1 <= blocks[i].0)
  }

  lemma StackOne(blocks: seq<(int, int)>, limit: int, top: int, lo: int, hi: int)
    requires Stacked(blocks, limit, top) && lo <= hi <= limit <= top && lo % BEST_ALIGNMENT == 0
    ensures Stacked(blocks + [(lo, hi)], lo, top)
  {
  }

  /** The blocks of debug data are in memory, at the given addresses behind their headers, and within auxiliary
      blocks. */
  predicate InPlace(m: Memory, places: seq<int>, data: seq<seq<Byte>>, blocks: seq<(int, int)>) {
    && |places| == |data|
    && forall i :: 0 <= i < |places| ==>
      Stores(m, places[i], data[i]) && (places[i] - DEBUG_HEADER, places[i] + |data[i]|) in blocks
  }

  lemma InPlaceGrows(m: Memory, places: seq<int>, data: seq<seq<Byte>>, blocks: seq<(int, int)>, more: seq<(int, int)>)
    requires InPlace(m, places, data, blocks) && blocks <= more
    ensures InPlace(m, places, data, more)
  {
    hide Stores;
    forall b | b in blocks ensures b in more {
      var i :| 0 <= i < |blocks| && blocks[i] == b;
      assert more[i] == b;
    }
  }

  lemma InPlaceStays(m: Memory, m': Memory, places: seq<int>, data: seq<seq<Byte>>, blocks: seq<(int, int)>, lo: int,
                     hi: int)
    requires InPlace(m, places, data, blocks) && SameOutside(m, m', lo, hi)
    requires forall i :: 0 <= i < |blocks| ==> blocks[i].1 <= lo || hi <= blocks[i].0
    ensures InPlace(m', places, data, blocks)
  {
    forall i | 0 <= i < |places| ensures Stores(m', places[i], data[i]) {
      var b := (places[i] - DEBUG_HEADER, places[i] + |data[i]|);
      assert b in blocks;
    }
  }

  function Pad(n: nat, nop: Byte): seq<Byte> { if n == 0 then [] else Pad(n - 1, nop) + [nop] }

  lemma StoresMore(m: Memory, at: int, s: seq<Byte>, t: seq<Byte>)
    requires Stores(m, at, s)
    ensures Stores(Stored(m, at + |s|, t), at, s + t)
  {
  }

  /** The pages, the auxiliary blocks that are in use, and the free region. */
  datatype Space = Space(pages: seq<Page>, reserved: seq<(int, int)>, lo: int, hi: int)

  /** No block in use has an address in [lo, hi). */
  predicate Clear(reserved: seq<(int, int)>, lo: int, hi: int) {
    forall i :: 0 <= i < |reserved| ==> reserved[i].0 >= reserved[i].1 || reserved[i].1 <= lo || hi <= reserved[i].0
  }

  /** Committed code lies in a page, and outside the free region and all blocks. */
  predicate Secured(l: Space, start: int, end: int) {
    Inside(l.pages, start, end) && (end <= l.lo || l.hi <= start) && Clear(l.reserved, start, end)
  }

  /** Blocks lie in pages, outside the free region, and do not overlap. */
  predicate BlocksApart(l: Space) {
    && (forall i :: 0 <= i < |l.reserved| ==>
          l.reserved[i].0 < l.reserved[i].1 ==>
            Inside(l.pages, l.reserved[i].0, l.reserved[i].1) && (l.reserved[i].1 <= l.lo || l.hi <= l.reserved[i].0))
    && forall i :: 0 <= i < |l.reserved| && l.reserved[i].0 < l.reserved[i].1 ==>
      Clear(l.reserved[..i], l.reserved[i].0, l.reserved[i].1)
  }

  /** All committed regions are settled. */
  ghost predicate Kept(s: seq<Node>, l: Space)
    reads s`end
  {
    forall n :: n in s ==> Secured(l, n.start, n.end)
  }

  ghost predicate NoneEmpty(s: seq<Node>)
    reads s`end
  {
    forall n :: n in s ==> n.start < n.end
  }

  /** A new page is clear of everything that is in use, and becomes the free region. */
  lemma KeptNewPage(s: seq<Node>, l: Space, p: Page)
    requires Kept(s, l) && BlocksApart(l) && AllApart(l.pages, p)
    ensures var l' := Space(l.pages + [p], l.reserved, p.base, p.base + p.size); Kept(s, l') && BlocksApart(l')
  {
    hide Clear, Inside, AllApart;
    forall n | n in s ensures Secured(Space(l.pages + [p], l.reserved, p.base, p.base + p.size), n.start, n.end) {
      NewPage(l.pages, p, n.start, n.end);
    }
    forall i | 0 <= i < |l.reserved| && l.reserved[i].0 < l.reserved[i].1
      ensures Inside(l.pages + [p], l.reserved[i].0, l.reserved[i].1)
      ensures l.reserved[i].1 <= p.base || p.base + p.size <= l.reserved[i].0
    {
      NewPage(l.pages, p, l.reserved[i].0, l.reserved[i].1);
    }
  }

  lemma KeptNoFree(s: seq<Node>, l: Space)
    requires Kept(s, l) && BlocksApart(l) && forall i :: 0 <= i < |l.pages| ==> l.pages[i].base > 0
    ensures Kept(s, l.(lo := 0, hi := 0)) && BlocksApart(l.(lo := 0, hi := 0))
  {
    hide Clear;
  }

  lemma InLastPage(pages: seq<Page>, lo: int, hi: int)
    requires |pages| > 0 && lo < hi && Inside(pages, lo, hi) && forall i :: 0 <= i < |pages| ==> pages[i].base > 0
    requires var p := pages[|pages| - 1]; hi <= p.base || p.base + p.size <= lo
    ensures Inside(pages[..|pages| - 1], lo, hi) && 0 < lo
  {
    var i :| 0 <= i < |pages| && pages[i].base <= lo && hi <= pages[i].base + pages[i].size;
    assert pages[..|pages| - 1][i] == pages[i];
  }

  /** Nothing is in the last page while all of it is free. */
  lemma KeptLastPage(s: seq<Node>, l: Space)
    requires |l.pages| > 0 && NoneEmpty(s) && (forall i :: 0 <= i < |l.pages| ==> l.pages[i].base > 0) && Kept(s, l)
      && BlocksApart(l)
    requires var p := l.pages[|l.pages| - 1]; l.lo == p.base && l.hi == p.base + p.size
    ensures var l' := Space(l.pages[..|l.pages| - 1], l.reserved, 0, 0); Kept(s, l') && BlocksApart(l')
  {
    hide Clear, Inside;
    forall n | n in s ensures Secured(Space(l.pages[..|l.pages| - 1], l.reserved, 0, 0), n.start, n.end) {
      assert Secured(l, n.start, n.end);
      InLastPage(l.pages, n.start, n.end);
    }
    forall i | 0 <= i < |l.reserved| && l.reserved[i].0 < l.reserved[i].1
      ensures Inside(l.pages[..|l.pages| - 1], l.reserved[i].0, l.reserved[i].1) && 0 < l.reserved[i].0
    {
      InLastPage(l.pages, l.reserved[i].0, l.reserved[i].1);
    }
  }

  lemma ClearBoth(a: seq<(int, int)>, b: seq<(int, int)>, lo: int, hi: int)
    ensures Clear(a + b, lo, hi) <==> Clear(a, lo, hi) && Clear(b, lo, hi)
  {
    assert forall i :: 0 <= i < |a| ==> (a + b)[i] == a[i];
    assert forall i :: 0 <= i < |b| ==> (a + b)[|a| + i] == b[i];
    if Clear(a + b, lo, hi) {
      forall i | 0 <= i < |b| ensures b[i].0 >= b[i].1 || b[i].1 <= lo || hi <= b[i].0 {
        assert (a + b)[|a| + i] == b[i];
      }
    }
  }

  /** Blocks from the upper part of the free region join the others. */
  lemma BlocksJoin(l: Space, blocks: seq<(int, int)>, ptr: int, limit: int)
    requires BlocksApart(l) && l.lo <= ptr <= limit <= l.hi
    requires forall i :: 0 <= i < |blocks| && blocks[i].0 < blocks[i].1 ==> Inside(l.pages, l.lo, l.hi)
    requires forall i :: 0 <= i < |blocks| ==> limit <= blocks[i].0 <= blocks[i].1 <= l.hi
    requires forall i, j :: 0 <= i < j < |blocks| ==> blocks[j].1 <= blocks[i].0
    ensures BlocksApart(Space(l.pages, l.reserved + blocks, ptr, limit))
  {
    var a, all := l.reserved, l.reserved + blocks;
    forall i | 0 <= i < |all| && all[i].0 < all[i].1
      ensures Inside(l.pages, all[i].0, all[i].1) && (all[i].1 <= ptr || limit <= all[i].0)
        && Clear(all[..i], all[i].0, all[i].1)
    {
      if i < |a| {
        assert all[..i] == a[..i];
      } else {
        var k := i - |a|;
        assert all[..i] == a + blocks[..k] && all[i] == blocks[k];
        assert Clear(blocks[..k], all[i].0, all[i].1) && Clear(a, all[i].0, all[i].1);
        ClearBoth(a, blocks[..k], all[i].0, all[i].1);
      }
    }
  }

  /** Everything committed before is settled with respect to them. */
  lemma KeptJoin(s: seq<Node>, l: Space, blocks: seq<(int, int)>, ptr: int, limit: int)
    requires Kept(s, l) && l.lo <= ptr <= limit <= l.hi
    requires forall i :: 0 <= i < |blocks| ==> limit <= blocks[i].0 <= blocks[i].1 <= l.hi
    ensures Kept(s, Space(l.pages, l.reserved + blocks, ptr, limit))
  {
    hide Inside;
    forall n | n in s ensures Secured(Space(l.pages, l.reserved + blocks, ptr, limit), n.start, n.end) {
      assert Secured(l, n.start, n.end);
      ClearBoth(l.reserved, blocks, n.start, n.end);
    }
  }

  /** The regions of a finished method lie below the free region that is left. */
  lemma KeptWith(before: seq<Node>, chain: seq<Node>, now: seq<Node>, l: Space, blocks: seq<(int, int)>, start: int,
                 ptr: int, limit: int)
    requires Elems(now) == Elems(before) + Elems(chain) && Kept(before, l) && NoneEmpty(before) && BlocksApart(l)
    requires Tiles(chain, start, ptr) && l.lo <= start <= ptr <= limit < l.hi && Inside(l.pages, l.lo, l.hi)
    requires forall i :: 0 <= i < |blocks| ==> limit <= blocks[i].0 <= blocks[i].1 <= l.hi
    ensures Kept(now, Space(l.pages, l.reserved + blocks, ptr, limit))
    ensures NoneEmpty(now) <==> chain[|chain| - 1].start < ptr
  {
    var l' := Space(l.pages, l.reserved + blocks, ptr, limit);
    TilesInside(chain, start, ptr);
    KeptJoin(before, l, blocks, ptr, limit);
    forall n | n in now ensures Secured(l', n.start, n.end) {
      assert n in Elems(now);
      if n !in before {
        assert n in Elems(chain);
        SecuredNew(l, blocks, start, ptr, limit, n.start, n.end);
      }
    }
    hide Secured;
    var last := chain[|chain| - 1];
    assert last in Elems(chain) && last in Elems(now);
    if last.start < ptr {
      forall n | n in now ensures n.start < n.end {
        assert n in Elems(now);
        if n !in before { assert n in Elems(chain); }
      }
    }
  }

  lemma TilesInside(chain: seq<Node>, start: int, ptr: int)
    requires Tiles(chain, start, ptr)
    ensures forall i :: 0 <= i < |chain| ==>
      start <= chain[i].start <= chain[i].end <= ptr && (i < |chain| - 1 ==> chain[i].start < chain[i].end)
  {
    forall i | 0 <= i < |chain|
      ensures start <= chain[i].start <= chain[i].end <= ptr && (i < |chain| - 1 ==> chain[i].start < chain[i].end) {
      if i < |chain| - 1 {
        assert chain[i].end == chain[i + 1].start && chain[i + 1].start <= chain[|chain| - 1].start;
      }
    }
  }

  lemma SecuredNew(l: Space, blocks: seq<(int, int)>, start: int, ptr: int, limit: int, lo: int, hi: int)
    requires BlocksApart(l) && l.lo <= start <= lo <= hi <= ptr <= limit < l.hi && Inside(l.pages, l.lo, l.hi)
    requires forall i :: 0 <= i < |blocks| ==> limit <= blocks[i].0 <= blocks[i].1 <= l.hi
    ensures Secured(Space(l.pages, l.reserved + blocks, ptr, limit), lo, hi)
  {
    ClearBoth(l.reserved, blocks, lo, hi);
    var i :| 0 <= i < |l.pages| && l.pages[i].base <= l.lo && l.hi <= l.pages[i].base + l.pages[i].size;
    assert l.pages[i].base <= lo && hi <= l.pages[i].base + l.pages[i].size;
  }

  /** The limit in pages: as many as fit, but not less than one; -1 says that there is none. */
  function PageLimit(byteLimit: int, size: nat): (n: int)
    requires size > 0
    ensures if byteLimit > 0 then n >= 1 && (n * size <= byteLimit || n == 1) && byteLimit < (n + 1) * size else n == -1
  {
    if byteLimit > 0 then (if byteLimit / size < 1 then 1 else byteLimit / size) else -1
  }

  /** A block is cut from the top of a free region, aligned downwards, if there is room for it. */
  predicate Cut(size: nat, align: int, free: (int, int), free': (int, int), at: Option<int>)
    requires align > 0
  {
    var p := RoundDown(free.1 - size, align);
    if free.0 != 0 && size <= free.1 - free.0 && p >= free.0 then at == Some(p) && free' == (free.0, p)
    else at == None && free' == free
  }

  class Cache {
    const pageSize: nat
    const maxPageFactor: nat
    var pages: seq<Page>
    var freeStart: int    // the free region of the last page; 0 when there is none
    var freeEnd: int
    var pagesLeft: int    // negative when there is no limit
    const lookup: LookupTree
    const debug: DebugWriter
    var current: Node?    // the newest region of the method being written; `right` leads to the older ones
    var start: int
    var ptr: int          // the position in the method being written
    var limit: int
    var memory: Memory

    ghost var emitted: seq<Byte>          // every byte that was output since the method was started
    ghost var blocks: seq<(int, int)>     // the auxiliary blocks allocated since then
    ghost var chain: seq<Node>            // the regions of the method, oldest first
    ghost var marks: seq<Pair>            // the pairs marked since then
    ghost var places: seq<int>            // where the flushed debug data is
    ghost var reserved: seq<(int, int)>   // the auxiliary blocks of finished methods and of `AllocNoMethod`

    /** `_jit_cache_create` up to the initial page.  `size` is the page size after rounding. */
    constructor (byteLimit: int, size: nat, maxFactor: int)
      requires size > 0
      ensures Valid() && fresh(Repr()) && pages == [] && freeStart == 0 && lookup.Regions() == [] && reserved == []
        && debug.data.Length == DEBUG_SIZE
      ensures pageSize == size && maxPageFactor == if maxFactor <= 0 then 1024 else maxFactor
      ensures pagesLeft == PageLimit(byteLimit, size)
    {
      hide PageLimit, LookupTree.Valid, LookupTree.Regions, DebugWriter.Valid, BlocksApart, RedBlack.InOrder;
      pageSize, maxPageFactor := size, if maxFactor <= 0 then 1024 else maxFactor;
      pages, freeStart, freeEnd := [], 0, 0;
      pagesLeft := PageLimit(byteLimit, size);
      current, start, ptr, limit, memory := null, 0, 0, 0, map[];
      emitted, blocks, chain, marks, places, reserved := [], [], [], [], [], [];
      var tree := new LookupTree();
      var writer := new DebugWriter();
      lookup, debug := tree, writer;
      new;
      hide Valid, Committed, FreeValid, NoneEmpty, LookupTree.Valid, PageLimit;
      NothingHeld();
    }

    lemma NothingHeld()
      requires pageSize > 0 && pages == [] && reserved == [] && freeStart == 0 && freeEnd == 0
      requires lookup.Valid() && lookup.Regions() == []
      ensures Valid()
    {
      hide LookupTree.Valid;
    }

    ghost function Repr(): set<object>
      reads this, lookup
    {
      {this, lookup, debug, debug.data} + lookup.nodes
    }

    ghost function Layout(): Space
      reads this`pages, this`reserved, this`freeStart, this`freeEnd
    {
      Space(pages, reserved, freeStart, freeEnd)
    }

    /** The free region is part of the last page, and the blocks in use are apart. */
    ghost predicate FreeValid()
      reads this`pages, this`reserved, this`freeStart, this`freeEnd
    {
      && BlocksApart(Layout())
      && pageSize > 0 && PagesValid(pages, pageSize)
      && (freeStart == 0 ==> freeEnd == 0)
      && (freeStart != 0 ==>
            (|pages| > 0 && var p := pages[|pages| - 1]; p.base <= freeStart <= freeEnd <= p.base + p.size))
    }

    /** Committed regions do not overlap one another or the free region. */
    ghost predicate Committed()
      reads this`pages, this`reserved, this`freeStart, this`freeEnd, lookup, lookup.nodes
    {
      && FreeValid() && lookup.Valid() && Elems(lookup.Regions()) <= lookup.nodes
      && Spaced(lookup.Regions()) && Kept(lookup.Regions(), Layout())
    }

    /** None of the committed regions is empty: a region committed later can never start where one of them does. */
    ghost predicate Valid()
      reads this`pages, this`reserved, this`freeStart, this`freeEnd, lookup, lookup.nodes
    {
      Committed() && NoneEmpty(lookup.Regions())
    }

    /** Allocate a cache page and make it the free region.  `granted` says whether the system has memory. */
    method AllocCachePage(factor: int, granted: bool)
      requires Valid()
      modifies this`pages, this`freeStart, this`freeEnd, this`pagesLeft
      ensures Valid()
      ensures old(pagesLeft) >= 0 ==>
        pagesLeft >= 0 && pagesLeft + Factors(pages) == old(pagesLeft) + Factors(old(pages))
      ensures old(pagesLeft) < 0 ==> pagesLeft == old(pagesLeft)
      ensures var f := if factor <= 0 then 1 else factor;
        if granted && f <= maxPageFactor && (old(pagesLeft) < 0 || f <= old(pagesLeft))
        then |pages| == |old(pages)| + 1 && pages[..|old(pages)|] == old(pages) && pages[|old(pages)|].factor == f
             && 0 < freeStart == pages[|old(pages)|].base
               && freeEnd == freeStart + pages[|old(pages)|].size == freeStart + pageSize * f
             && pagesLeft == if old(pagesLeft) < 0 then old(pagesLeft) else old(pagesLeft) - f
        else pages == old(pages) && pagesLeft == old(pagesLeft) && freeStart == 0 && freeEnd == 0
    {
      hide Committed, LookupTree.Valid;
      var f := if factor <= 0 then 1 else factor;
      if f > maxPageFactor || (pagesLeft >= 0 && pagesLeft < f) || !granted {
        DropFree();
        return;
      }
      ghost var room := Room(pages);
      assert AllApart(pages, Page(room, f, pageSize * f)) && room > 0;
      var base: int :| base > 0 && AllApart(pages, Page(base, f, pageSize * f));
      AddPage(Page(base, f, pageSize * f));
      if pagesLeft > 0 { pagesLeft := pagesLeft - f; }
      assert pages[..|pages| - 1] == old(pages);
    }

    /** Put a page at the end of the list and make it the free region. */
    method AddPage(p: Page)
      requires Valid() && AllApart(pages, p) && p.base > 0 && p.factor > 0 && p.size == pageSize * p.factor
      modifies this`pages, this`freeStart, this`freeEnd
      ensures Valid() && pages == old(pages) + [p] && freeStart == p.base && freeEnd == p.base + p.size
    {
      hide LookupTree.Valid, Spaced, Kept, NoneEmpty, BlocksApart;
      KeptNewPage(lookup.Regions(), Layout(), p);
      PagesGrow(pages, p, pageSize);
      pages := pages + [p];
      freeStart, freeEnd := p.base, p.base + p.size;
    }

    /** Give up the free region. */
    method DropFree()
      requires Valid()
      modifies this`freeStart, this`freeEnd
      ensures Valid() && freeStart == 0 && freeEnd == 0
    {
      hide LookupTree.Valid, Spaced, Kept, NoneEmpty, BlocksApart;
      KeptNoFree(lookup.Regions(), Layout());
      freeStart, freeEnd := 0, 0;
    }

    /** The number of pages the cache may ever hold; negative when there is no limit. */
    ghost function Budget(): int
      reads this`pagesLeft, this`pages
    {
      if pagesLeft < 0 then pagesLeft else pagesLeft + Factors(pages)
    }

    /** `_jit_cache_alloc_no_method`: a block from the top of the free region while no method is being written.  If
        there is no room, a new page of the default size takes the place of the free region, or nothing does. */
    method AllocNoMethod(size: nat, align: int, granted: bool) returns (at: Option<int>)
      requires Valid() && align > 0
      modifies this`pages, this`freeStart, this`freeEnd, this`pagesLeft, this`reserved
      ensures Valid() && Budget() == old(Budget())
      ensures reserved == old(reserved) + if at == None then [] else [(at.value, at.value + size)]
      ensures at != None ==> 0 < freeStart <= at.value == freeEnd && at.value % align == 0
      ensures var fits, page :=
        size <= old(freeEnd) - old(freeStart), granted && 1 <= maxPageFactor
        && (old(pagesLeft) < 0 || 1 <= old(pagesLeft));
        && (fits ==>
          pages == old(pages) && pagesLeft == old(pagesLeft)
          && Cut(size, align, (old(freeStart), old(freeEnd)), (freeStart, freeEnd), at))
        && (!fits && page ==>
          |pages| == |old(pages)| + 1 && pages[..|old(pages)|] == old(pages)
          && var p := pages[|old(pages)|];
             && p.base > 0 && p.factor == 1 && p.size == pageSize
             && Cut(size, align, (p.base, p.base + pageSize), (freeStart, freeEnd), at))
        && (!fits && !page ==>
          at == None && pages == old(pages) && pagesLeft == old(pagesLeft) && (freeStart, freeEnd) == (0, 0))
    {
      hide Committed, NoneEmpty, LookupTree.Valid;
      InFree();
      if size > freeEnd - freeStart {
        AllocCachePage(0, granted);
        assert pageSize * 1 == pageSize;
        if size > freeEnd - freeStart {
          return None;
        }
      }
      var p := RoundDown(freeEnd - size, align);
      if p < freeStart || freeStart == 0 {    // without a free region the address of an empty block is null
        return None;
      }
      Reserve(p, size);
      return Some(p);
    }

    /** Take [p, p + size) off the top of the free region. */
    method Reserve(p: int, size: nat)
      requires Valid() && freeStart <= p && p + size <= freeEnd
      modifies this`freeEnd, this`reserved
      ensures Valid() && freeEnd == p && reserved == old(reserved) + [(p, p + size)]
    {
      hide LookupTree.Valid, Spaced, NoneEmpty, Kept, BlocksApart;
      InFree();
      BlocksJoin(Layout(), [(p, p + size)], freeStart, p);
      KeptJoin(lookup.Regions(), Layout(), [(p, p + size)], freeStart, p);
      freeEnd := p;
      reserved := reserved + [(p, p + size)];
    }

    lemma InFree()
      requires Valid()
      ensures freeStart <= freeEnd && (freeStart != 0 ==> Inside(pages, freeStart, freeEnd))
        && (freeStart == 0 ==> freeEnd == 0) && freeStart >= 0
    {
    }

    // ---- Writing a method ----

    /** The chain of the method being written: no region of it is in the tree yet. */
    ghost predicate ChainValid()
      reads this`chain, this`current, this`start, this`ptr, lookup, chain
    {
      && Linked(chain) && |chain| > 0 && Elems(chain) !! lookup.nodes
      && current == chain[|chain| - 1] && chain[0].start == start && chain[|chain| - 1].start <= ptr
    }

    /** While there is room, every byte output so far is in the code area and every pair marked is in the debug data. */
    ghost predicate NothingLost()
      reads this`ptr, this`limit, this`start, this`memory, this`emitted, this`marks, debug
    {
      ptr < limit ==>
        && |emitted| == ptr - start && Stores(memory, start, emitted)
        && marks == Concat(debug.chunks) + debug.open
    }

    /** Everything about the method being written but the debug buffer. */
    ghost predicate Placed()
      reads Repr(), chain
    {
      && Valid() && freeStart != 0 && freeStart <= start <= ptr <= limit < freeEnd
      && ChainValid() && NothingLost() && Stacked(blocks, limit, freeEnd)
        && InPlace(memory, places, debug.blocks, blocks)
    }

    /** A method is being written into the free region. */
    ghost predicate Writing()
      reads Repr(), chain
    {
      Placed() && debug.Valid()
    }

    /** `jit_cache_byte` (one byte) and `jit_cache_word16` ... `jit_cache_word64`: output a value, or flag overflow. */
    method Emit(bytes: seq<Byte>)
      requires Writing() && |bytes| > 0
      modifies this`ptr, this`memory, this`emitted
      ensures Writing() && emitted == old(emitted) + bytes
      ensures if old(ptr) + |bytes| <= limit then ptr == old(ptr) + |bytes|
        && memory == Stored(old(memory), old(ptr), bytes)
              else ptr == limit && memory == old(memory)
    {
      hide Valid, DebugWriter.Valid, Concat, Linked, Stores, InPlace;
      if ptr < limit { StoresMore(memory, start, emitted, bytes); }
      emitted := emitted + bytes;
      if ptr + |bytes| - 1 < limit {
        InPlaceStays(memory, Stored(memory, ptr, bytes), places, debug.blocks, blocks, ptr, ptr + |bytes|);
        memory := Stored(memory, ptr, bytes);
        ptr := ptr + |bytes|;
      } else {
        ptr := limit;
      }
    }

    /** `_jit_cache_alloc`: allocate a block from the top of the free region. */
    method Alloc(size: nat) returns (at: Option<int>)
      requires ptr <= limit <= freeEnd && Stacked(blocks, limit, freeEnd)
      modifies this`ptr, this`limit, this`blocks
      ensures ptr <= limit <= freeEnd && Stacked(blocks, limit, freeEnd)
      ensures old(Placed()) ==> Placed()
      ensures old(Writing()) ==> Writing()
      ensures var p := RoundDown(old(limit) - size, BEST_ALIGNMENT);
        && (ptr, limit) == Allocated(old(ptr), old(limit), size)
        && if RoomFor(old(ptr), old(limit), size)
        then at == Some(p) && limit == p && ptr == old(ptr) && blocks == old(blocks) + [(p, p + size)]
        else at == None && ptr == limit == old(limit) && blocks == old(blocks)
    {
      hide Valid, DebugWriter.Valid, Concat, Linked, Stores, Stacked;
      if size > limit - ptr {
        ptr := limit;
        return None;
      }
      var p := RoundDown(limit - size, BEST_ALIGNMENT);
      if p < ptr {
        ptr := limit;
        return None;
      }
      StackOne(blocks, limit, freeEnd, p, p + size);
      if old(Placed()) { InPlaceGrows(memory, places, debug.blocks, blocks, blocks + [(p, p + size)]); }
      blocks := blocks + [(p, p + size)];
      limit := p;
      at := Some(p);
    }

    /** `_jit_cache_align`, in the build that fills with nops: move the position up to a boundary less than `diff`
        away. */
    method Align(align: int, diff: int, nop: Byte)
      requires Writing()
      modifies this`ptr, this`memory, this`emitted
      ensures Writing()
      ensures var next := RoundUp(old(ptr), if align <= 1 then 1 else align);
        if next == old(ptr) || next - old(ptr) >= diff then ptr == old(ptr) && emitted == old(emitted)
          && memory == old(memory)
        else ptr == (if next > limit then limit else next) && emitted == old(emitted) + Pad(next - old(ptr), nop)
      ensures SameOutside(old(memory), memory, freeStart, freeEnd)
    {
      hide Valid, DebugWriter.Valid, Concat, Linked, Stores, Stacked;
      var a := if align <= 1 then 1 else align;
      var next := RoundUp(ptr, a);
      if ptr == next || next - ptr >= diff { return; }
      ghost var from, before := ptr, emitted;
      if next > limit {
        emitted := emitted + Pad(next - from, nop);
        ptr := limit;
        return;
      }
      while ptr < next
        invariant from <= ptr <= next <= limit && Writing() && SameOutside(old(memory), memory, from, next)
        invariant emitted == before + Pad(ptr - from, nop)
      {
        Emit([nop]);
        assert before + Pad(ptr - 1 - from, nop) + [nop] == before + Pad(ptr - from, nop);
      }
    }

    /** `_jit_cache_start_method`: set up the position in the free region, after allocating a page if asked to. */
    method StartMethod(factor: int, align: int, owner: int, granted: bool) returns (r: Status)
      requires Valid() && debug.data.Length == DEBUG_SIZE
      modifies this, debug
      ensures Valid() && Budget() == old(Budget()) && memory == old(memory) && reserved == old(reserved)
      ensures r == OK ==> Writing() && emitted == [] && marks == [] && chain == [current] && current.owner == owner
                          && ptr == start && (align > 1 ==> start % align == 0)
      ensures r == OK ==> fresh(current) && Cookies(chain) == [(start, 0)] && debug.open == []
      ensures factor <= 0 ==>
        pages == old(pages) && freeStart == old(freeStart) && freeEnd == old(freeEnd) && pagesLeft == old(pagesLeft)
      ensures factor > 0 && granted && factor <= maxPageFactor && (old(pagesLeft) < 0 || factor <= old(pagesLeft)) ==>
        && freeStart != 0 && FreshPageOf(pages, freeStart, freeEnd) && pages[|pages| - 1].factor == factor
        && pages[..|pages| - 1] == old(pages)
        && pagesLeft == (if old(pagesLeft) < 0 then old(pagesLeft) else old(pagesLeft) - factor)
      ensures var given := granted && factor <= maxPageFactor && (old(pagesLeft) < 0 || factor <= old(pagesLeft));
        factor > 0 && !given ==> freeStart == 0 && pages == old(pages) && pagesLeft == old(pagesLeft)
      ensures r == TOO_BIG <==> freeStart == 0
      ensures freeStart != 0 ==> (r == OK <==> StartFits(freeStart, freeEnd, align))
      ensures r == OK ==> (ptr, limit) == Started(freeStart, freeEnd, align)
    {
      hide Valid, Writing, Cookies, Started, StartFits;
      if factor > 0 { AllocCachePage(factor, granted); }
      r := SetUp(align, owner);
    }

    /** The same in the free region as it is. */
    method SetUp(align: int, owner: int) returns (r: Status)
      requires Valid() && debug.data.Length == DEBUG_SIZE
      modifies this`ptr, this`limit, this`blocks, this`current, this`start, this`chain, this`emitted, this`marks,
        this`places, debug
      ensures Valid()
      ensures r == OK ==> Writing() && emitted == [] && marks == [] && chain == [current] && current.owner == owner
                          && ptr == start && (align > 1 ==> start % align == 0)
      ensures r == OK ==> fresh(current) && Cookies(chain) == [(start, 0)] && debug.open == []
      ensures r == TOO_BIG <==> freeStart == 0
      ensures freeStart != 0 ==> (r == OK <==> StartFits(freeStart, freeEnd, align))
      ensures r == OK ==> (ptr, limit) == Started(freeStart, freeEnd, align)
    {
      hide Valid, Committed, FreeValid, NoneEmpty, LookupTree.Valid, Stores, Concat, Writing, Placed, ChainValid,
        NothingLost, Linked, InPlace, DebugWriter.Valid, Cookies, RoundUp, RoundDown,
        Started, StartFits, RoomFor, Allocated;
      if freeStart == 0 { return TOO_BIG; }
      StartFacts(freeStart, freeEnd, align);
      ptr, limit, blocks := freeStart, freeEnd, [];
      var p := if align > 1 then RoundUp(ptr, align) else ptr;
      if p >= limit {
        ptr := limit;
        return RESTART;
      }
      ptr := p;
      var at := Alloc(METHOD_SIZE);
      if at == None { return RESTART; }
      Begin(owner);
      return OK;
    }

    static lemma StartFacts(lo: int, hi: int, align: int)
      ensures var p := if align > 1 then RoundUp(lo, align) else lo;
        && (StartFits(lo, hi, align) <==> p < hi && RoomFor(p, hi, METHOD_SIZE))
        && (RoomFor(p, hi, METHOD_SIZE) ==> Started(lo, hi, align) == Allocated(p, hi, METHOD_SIZE))
    {
    }

    /** Set up the information block of the method's first region and clear the debug data. */
    method Begin(owner: int)
      requires Valid() && debug.data.Length == DEBUG_SIZE
      requires freeStart != 0 && freeStart <= ptr <= limit < freeEnd && Stacked(blocks, limit, freeEnd)
      modifies this`current, this`start, this`chain, this`emitted, this`marks, this`places, debug
      ensures Writing() && emitted == [] && marks == [] && chain == [current] && current.owner == owner && ptr == start
      ensures fresh(current) && Cookies(chain) == [(start, 0)] && debug.open == []
    {
      hide Writing, Stacked, DebugWriter.Valid, Cookies;
      debug.Clear();
      assert forall n :: n in lookup.nodes ==> allocated(n);
      var region := new Node(ptr, ptr, owner, 0);
      Enter(region);
    }

    method Enter(region: Node)
      requires Valid() && debug.data.Length == DEBUG_SIZE
      requires freeStart != 0 && freeStart <= ptr <= limit < freeEnd && Stacked(blocks, limit, freeEnd)
      requires region !in lookup.nodes && region.start == region.end == ptr && region.right == null
        && region.cookie == 0
      requires debug.Valid() && debug.chunks == [] && debug.open == [] && debug.blocks == []
      modifies this`current, this`start, this`chain, this`emitted, this`marks, this`places
      ensures Writing() && emitted == [] && marks == [] && chain == [region] && current == region && ptr == start
      ensures Cookies(chain) == [(start, 0)] && debug.open == []
    {
      hide Valid, Committed, FreeValid, NoneEmpty;
      current, start, chain, emitted, marks, places := region, ptr, [region], [], [], [];
      Entered(region);
    }

    lemma Entered(region: Node)
      requires Valid() && region !in lookup.nodes && region.start == ptr == start && region.right == null
        && region.cookie == 0
      requires freeStart != 0 && freeStart <= ptr <= limit < freeEnd && Stacked(blocks, limit, freeEnd)
      requires current == region && chain == [region] && emitted == [] && marks == [] && places == []
      requires debug.chunks == [] && debug.open == [] && debug.blocks == []
      ensures Placed() && Cookies(chain) == [(start, 0)]
    {
      assert chain[0] == region && Elems(chain) == {region};
    }

    // ---- Debug information ----

    /** `FlushCacheDebug`: move the buffer to a new auxiliary block, or drop it and flag overflow. */
    method FlushCacheDebug()
      requires Placed() && debug.data.Length == DEBUG_SIZE && debug.len <= DEBUG_SIZE
      modifies this`ptr, this`limit, this`blocks, this`memory, this`places, debug
      ensures Placed() && debug.len == 0 && debug.open == [] && old(blocks) <= blocks
      ensures old(debug.Full(debug.open)) ==> debug.Valid()
      ensures SameOutside(old(memory), memory, limit, freeEnd)
      ensures var fits := RoomFor(old(ptr), old(limit), DEBUG_HEADER + old(debug.len));
        && (ptr, limit) == Allocated(old(ptr), old(limit), DEBUG_HEADER + old(debug.len))
        && debug.blocks == (if fits then old(debug.blocks) + [old(debug.data[..debug.len])] else old(debug.blocks))
        && debug.chunks == (if fits then old(debug.chunks) + [old(debug.open)] else old(debug.chunks))
    {
      hide Valid, ChainValid, Stacked, Concat, InPlace;
      Parts();
      ghost var m, before := memory, blocks;
      HighBlocks();
      var at := Alloc(DEBUG_HEADER + debug.len);
      Parts();
      if at != None {
        StoreDebug(at.value, before);
      } else {
        debug.Flush(false);
      }
    }

    /** Copy the buffer to the new block at `at`. */
    method StoreDebug(at: int, ghost before: seq<(int, int)>)
      requires Placed() && debug.data.Length == DEBUG_SIZE && debug.len <= DEBUG_SIZE && at >= limit
      requires blocks == before + [(at, at + (DEBUG_HEADER + debug.len))]
        && InPlace(memory, places, debug.blocks, before)
      requires forall i :: 0 <= i < |before| ==> at + DEBUG_HEADER + debug.len <= before[i].0
      modifies this`memory, this`places, debug
      ensures Placed() && debug.len == 0 && debug.open == []
      ensures old(debug.Full(debug.open)) ==> debug.Valid()
      ensures SameOutside(old(memory), memory, at, at + (DEBUG_HEADER + old(debug.len)))
      ensures debug.blocks == old(debug.blocks) + [old(debug.data[..debug.len])]
        && debug.chunks == old(debug.chunks) + [old(debug.open)]
    {
      hide Valid, Committed, FreeValid, NoneEmpty, Linked, ChainValid, Stacked, Concat, InPlace, Stored, Stores,
        SameOutside;
      BeforeStore(at, before);
      ghost var data, chunks := debug.blocks + [debug.data[..debug.len]], debug.chunks + [debug.open];
      memory := Stored(memory, at + DEBUG_HEADER, debug.data[..debug.len]);
      places := places + [at + DEBUG_HEADER];
      debug.Flush(true);
      assert debug.blocks == data && debug.chunks == chunks;
      assert ChainValid();
      assert Valid();
    }

    lemma BeforeStore(at: int, before: seq<(int, int)>)
      requires Placed() && debug.data.Length == DEBUG_SIZE && debug.len <= DEBUG_SIZE && at >= limit
      requires blocks == before + [(at, at + (DEBUG_HEADER + debug.len))]
        && InPlace(memory, places, debug.blocks, before)
      requires forall i :: 0 <= i < |before| ==> at + DEBUG_HEADER + debug.len <= before[i].0
      ensures Valid() && ChainValid() && Stacked(blocks, limit, freeEnd)
      ensures freeStart != 0 && freeStart <= start <= ptr <= limit < freeEnd
      ensures var bytes := debug.data[..debug.len]; var now := Stored(memory, at + DEBUG_HEADER, bytes);
        && InPlace(now, places + [at + DEBUG_HEADER], debug.blocks + [bytes], blocks)
        && SameOutside(memory, now, at, at + (DEBUG_HEADER + debug.len))
        && (ptr < limit ==>
              && |emitted| == ptr - start && Stores(now, start, emitted)
              && marks == Concat(debug.chunks + [debug.open]) + [])
    {
      hide Valid, ChainValid, Stacked, Concat, InPlace, Stored, Stores, SameOutside;
      Parts();
      FlushedConcat(debug.chunks, debug.open);
      var bytes := debug.data[..debug.len];
      InPlaceMore(memory, Stored(memory, at + DEBUG_HEADER, bytes), places, debug.blocks, before, at, bytes);
      StoredAbove(memory, at, bytes, start, emitted);
    }

    static lemma StoredAbove(m: Memory, at: int, bytes: seq<Byte>, start: int, code: seq<Byte>)
      ensures SameOutside(m, Stored(m, at + DEBUG_HEADER, bytes), at, at + (DEBUG_HEADER + |bytes|))
      ensures Stores(m, start, code) && start + |code| <= at ==>
        Stores(Stored(m, at + DEBUG_HEADER, bytes), start, code)
    {
    }

    lemma Parts()
      requires Placed()
      ensures Valid() && ChainValid() && NothingLost() && Stacked(blocks, limit, freeEnd)
        && InPlace(memory, places, debug.blocks, blocks)
      ensures freeStart != 0 && freeStart <= start <= ptr <= limit < freeEnd
    {
    }

    lemma HighBlocks()
      requires Stacked(blocks, limit, freeEnd)
      ensures forall i :: 0 <= i < |blocks| ==> limit <= blocks[i].0
    {
    }

    static lemma InPlaceMore(m: Memory, m': Memory, places: seq<int>, data: seq<seq<Byte>>, blocks: seq<(int, int)>,
                             at: int, bytes: seq<Byte>)
      requires InPlace(m, places, data, blocks) && m' == Stored(m, at + DEBUG_HEADER, bytes)
      requires forall i :: 0 <= i < |blocks| ==> at + DEBUG_HEADER + |bytes| <= blocks[i].0
      ensures InPlace(m', places + [at + DEBUG_HEADER], data + [bytes], blocks + [(at, at + (DEBUG_HEADER + |bytes|))])
    {
      InPlaceStays(m, m', places, data, blocks, at + DEBUG_HEADER, at + DEBUG_HEADER + |bytes|);
      InPlaceGrows(m', places, data, blocks, blocks + [(at, at + (DEBUG_HEADER + |bytes|))]);
    }

    static lemma FlushedConcat(chunks: seq<seq<Pair>>, open: seq<Pair>)
      ensures Concat(chunks + [open]) == Concat(chunks) + open && Concat(chunks + [open]) + [] == Concat(chunks) + open
    {
      assert (chunks + [open])[..|chunks|] == chunks;
    }

    /** `WriteCacheDebug`: write a pair to the buffer, and flush the buffer when it is full. */
    method WriteCacheDebug(p: Pair)
      requires Writing()
      modifies this`ptr, this`limit, this`blocks, this`memory, this`marks, this`places, debug, debug.data
      ensures Writing() && marks == old(marks) + [p] && old(blocks) <= blocks
      ensures SameOutside(old(memory), memory, limit, freeEnd)
      ensures var full := |EncodePairs(old(debug.open) + [p])| + 11 > DEBUG_SIZE;
        var size := DEBUG_HEADER + |EncodePairs(old(debug.open) + [p])| + 1;
        var fits := RoomFor(old(ptr), old(limit), size);
        && (ptr, limit) == (if full then Allocated(old(ptr), old(limit), size) else (old(ptr), old(limit)))
        && debug.chunks == (if full && fits then old(debug.chunks) + [old(debug.open) + [p]] else old(debug.chunks))
        && debug.open == (if full then [] else old(debug.open) + [p])
        && debug.blocks
          == (if full && fits then old(debug.blocks) + [FullBlock(old(debug.open) + [p])] else old(debug.blocks))
        && debug.len == (if full then 0 else |EncodePairs(old(debug.open) + [p])|)
        && (!full ==>
          debug.len <= DEBUG_SIZE == debug.data.Length && debug.data[..debug.len] == EncodePairs(old(debug.open) + [p]))
    {
      hide Valid, ChainValid, Stacked, EncodePairs;
      ghost var lost := debug.chunks;
      marks := marks + [p];
      var full := debug.Write(p);
      assert Placed();
      if full {
        assert |FullBlock(debug.open)| == |EncodePairs(debug.open)| + 1 by { DebugWriter.MarkLength(); }
        FlushCacheDebug();
      }
    }

    /** `_jit_cache_mark_bytecode`: mark the current position with a bytecode offset. */
    method MarkBytecode(offset: int)
      requires Writing()
      modifies this`ptr, this`limit, this`blocks, this`memory, this`marks, this`places, debug, debug.data
      ensures Writing() && marks == old(marks) + [Pair(offset, old(ptr) - start)]
      ensures SameOutside(old(memory), memory, limit, freeEnd)
      ensures var open := old(debug.open) + [Pair(offset, old(ptr) - start)];
        var full := |EncodePairs(open)| + 11 > DEBUG_SIZE;
        && (ptr, limit)
          == (if full then
          Allocated(old(ptr), old(limit), DEBUG_HEADER + |EncodePairs(open)| + 1) else (old(ptr), old(limit)))
        && debug.open == if full then [] else open
    {
      hide Writing, EncodePairs;
      WriteCacheDebug(Pair(offset, ptr - start));
    }

    // ---- Regions ----

    /** Attach a new region to the chain at the current position. */
    method Attach(cookie: int)
      requires ChainValid() && current.start < ptr && current.end == ptr
      modifies this`current, this`chain
      ensures ChainValid() && fresh(current) && chain == old(chain) + [current] && current.cookie == cookie
        && current.start == ptr
      ensures current.owner == old(current.owner)
    {
      var newRegion := new Node(ptr, ptr, current.owner, cookie);
      newRegion.right := current;
      assert forall n :: n in lookup.nodes ==> n != newRegion;
      current := newRegion;
      chain := chain + [newRegion];
    }

    /** Close the current region at the current position. */
    method Close()
      requires ChainValid() && current.start <= ptr
      modifies current`end
      ensures ChainValid() && current.end == ptr
    {
      current.end := ptr;
    }

    /** `_jit_cache_new_region`: close the current region here and open the next one, unless it is still empty. */
    method NewRegion(cookie: int)
      requires Writing()
      modifies this`ptr, this`limit, this`blocks, this`current, this`chain, current`cookie, current`end
      ensures Writing() && old(chain) <= chain && |chain| <= |old(chain)| + 1 && fresh(Elems(chain) - old(Elems(chain)))
      ensures current.owner == old(current.owner) && (ptr < limit ==> current.cookie == cookie && current.start == ptr)
      ensures (ptr, limit) == if old(current.start) == old(ptr) then (old(ptr), old(limit))
        else Allocated(old(ptr), old(limit), METHOD_SIZE)
      ensures Cookies(chain) == if old(current.start) == old(ptr) then
        old(Cookies(chain))[|old(chain)| - 1 := (old(ptr), cookie)]
        else old(Cookies(chain)) + if RoomFor(old(ptr), old(limit), METHOD_SIZE) then [(old(ptr), cookie)] else []
    {
      hide Valid, Committed, FreeValid, NoneEmpty, InPlace, Stacked, NothingLost, DebugWriter.Valid, Linked, Allocated,
        RoomFor, RoundDown;
      if current.start == ptr {
        SetCookie(cookie);
        return;
      }
      Close();
      var at := Alloc(METHOD_SIZE);
      if at == None { return; }
      Attach(cookie);
    }

    /** `_jit_cache_set_cookie`. */
    method SetCookie(cookie: int)
      requires Writing()
      modifies current`cookie
      ensures Writing() && current.cookie == cookie
      ensures Cookies(chain) == old(Cookies(chain))[|chain| - 1 := (current.start, cookie)]
    {
      hide Valid, Stacked, NothingLost, DebugWriter.Valid;
      current.cookie := cookie;
    }

    /** The regions from the `k`th on are in the tree, next to those of `before`; the others are linked backwards. */
    ghost predicate Committing(k: int, before: seq<Node>)
      reads this, lookup, lookup.nodes, chain, before, debug
    {
      && 0 <= k <= |chain| && Tiles(chain, start, ptr) && ClearOf(before, start, ptr)
      && current == (if k == 0 then null else chain[k - 1])
      && BackLinked(chain, k) && Labelled(chain[k..], debug.blocks)
      && lookup.Valid() && Elems(lookup.Regions()) <= lookup.nodes && Spaced(lookup.Regions())
      && Elems(chain[..k]) !! lookup.nodes
      && Elems(lookup.Regions()) == Elems(before) + Elems(chain[k..])
    }

    /** The last part of `_jit_cache_end_method`: add the regions of the method to the lookup tree, newest first. */
    method Commit(ghost before: seq<Node>)
      requires Committing(|chain|, before)
      modifies this`current, lookup, lookup.nodes`left, lookup.nodes`right, lookup.nodes`red
      modifies Elems(chain)`left, Elems(chain)`right, Elems(chain)`red, Elems(chain)`debug
      ensures current == null && Committing(0, before) && lookup.nodes <= old(lookup.nodes) + Elems(chain)
    {
      hide Committing, LookupTree.Valid;
      ghost var k := |chain|;
      Head(k, before);
      while current != null
        invariant Committing(k, before) && (current == null <==> k == 0) && (k > 0 ==> current in Elems(chain))
          && 0 <= k <= |chain|
        invariant lookup.nodes <= old(lookup.nodes) + Elems(chain)
        decreases k
      {
        CommitOne(k, before);
        k := k - 1;
        Head(k, before);
      }
    }

    lemma Head(k: int, before: seq<Node>)
      requires Committing(k, before)
      ensures 0 <= k <= |chain| && (current == null <==> k == 0)
        && (k > 0 ==> current == chain[k - 1] && current in Elems(chain))
    {
    }

    /** One round of that loop. */
    method CommitOne(ghost k: nat, ghost before: seq<Node>)
      requires Committing(k, before) && current != null
      modifies this`current, lookup, lookup.nodes`left, lookup.nodes`right, lookup.nodes`red
      modifies current`left, current`right, current`red, current`debug
      ensures Committing(k - 1, before) && lookup.nodes == old(lookup.nodes) + {chain[k - 1]}
    {
      hide LookupTree.Valid, LookupTree.Linked, LookupTree.Regions, Spaced, Tiles, Taken, ClearOf, Inserted;
      hide Elems, SpacedAt, ClearAt, TilesAt, Ends;
      var region := current;
      BackOne(chain, k);
      SortedRegions();
      NextApart(before, lookup.Regions(), chain, k, start, ptr);
      ghost var after := Inserted(lookup.Regions(), region);
      ghost var e1, e2, e3 := Ends(after), Ends(before), Ends(chain);
      EndsOnly(after, start, ptr);
      EndsOnly(before, start, ptr);
      EndsOnly(chain, start, ptr);
      region.debug := debug.blocks;
      var next := region.right;
      lookup.AddToLookupTree(region);
      current := next;
      assert forall i :: 0 <= i < k - 1 ==> chain[i].right == old(chain[i].right);
      assert BackLinked(chain, k - 1);
      assert Labelled(chain[k - 1..], debug.blocks) by { assert chain[k - 1..] == [region] + chain[k..]; }
      assert lookup.Regions() == after && Ends(after) == e1 && Ends(before) == e2 && Ends(chain) == e3;
      EndsOnly(after, start, ptr);
      EndsOnly(before, start, ptr);
      EndsOnly(chain, start, ptr);
    }

    static lemma BackOne(chain: seq<Node>, k: int)
      requires 0 < k && BackLinked(chain, k)
      ensures chain[k - 1].right == if k == 1 then null else chain[k - 2]
      ensures forall i :: 0 <= i < k - 1 ==> chain[i] in Elems(chain[..k - 1])
    {
      assert forall i :: 0 <= i < k - 1 ==> chain[..k - 1][i] == chain[i];
    }

    lemma SortedRegions()
      requires lookup.Valid()
      ensures Sorted(lookup.Regions())
    {
    }

    // ---- The end of a method ----

    /** Terminate the debug information, if there is any, and flush it.  If there is no room for the last block then
        that block is lost and the position moves to the limit. */
    method FinishDebug()
      requires Writing() && ptr < limit
      modifies this`ptr, this`limit, this`blocks, this`memory, this`marks, this`places, debug, debug.data
      ensures Placed() && debug.data.Length == DEBUG_SIZE && SameOutside(old(memory), memory, limit, freeEnd)
        && old(blocks) <= blocks
      ensures var size := LastFlush(old(debug.open));
        (ptr, limit) == if old(debug.blocks) == [] && old(debug.len) == 0 then (old(ptr), old(limit))
          else Allocated(old(ptr), old(limit), size)
      ensures AllOrdinary(old(marks)) ==> AllReadable(debug.blocks)
      ensures AllOrdinary(old(marks)) ==>
        ReadAll(debug.blocks) == if RoomFor(old(ptr), old(limit), LastFlush(old(debug.open))) then old(marks)
          else Concat(old(debug.chunks))
    {
      hide Placed, Encode, EncodePairs, ReadAll, AllReadable, AllOrdinary, FullBlocks, DebugWriter.Valid;
      ghost var chunks, open := debug.chunks, debug.open;
      Told();
      if debug.blocks != [] || debug.len != 0 {
        WriteCacheDebug(END);
        if debug.len != 0 {
          FlushCacheDebug();
        }
      }
    }

    /** What the debug data holds while nothing is lost, and what it would read back as. */
    lemma Told()
      requires Writing() && ptr < limit
      ensures var block := EncodePairs(debug.open + [END]);
        && marks == Concat(debug.chunks) + debug.open && debug.data.Length == DEBUG_SIZE && 0 < |block|
        && (|block| + 11 <= DEBUG_SIZE ==> |block| <= DEBUG_SIZE)
        && (debug.blocks == [] && debug.len == 0 ==> marks == [] && debug.chunks == [])
        && (AllOrdinary(marks) ==>
              && AllReadable(debug.blocks) && ReadAll(debug.blocks) == Concat(debug.chunks)
              && AllReadable(debug.blocks + [FullBlock(debug.open + [END])])
              && ReadAll(debug.blocks + [FullBlock(debug.open + [END])]) == marks
              && AllReadable(debug.blocks + [block]) && ReadAll(debug.blocks + [block]) == marks)
    {
      hide Encode, Read, Readable, Valid, Committed, FreeValid, ChainValid, Stacked, InPlace;
      DebugWriter.WriteLength(debug.open, END);
      if AllOrdinary(marks) {
        assert EncodePairs(debug.open + [END]) + [] == EncodePairs(debug.open + [END]);
        DebugReads(debug.chunks, debug.open, Encode(-2));
        DebugReads(debug.chunks, debug.open, []);
      }
      if debug.blocks == [] && debug.len == 0 { NoDebug(debug.chunks, debug.open); }
      assert |Encode(-1)| > 0;
    }

    static lemma NoDebug(chunks: seq<seq<Pair>>, open: seq<Pair>)
      requires FullBlocks(chunks) == [] && EncodePairs(open) == []
      ensures chunks == [] && open == []
    {
    }

    /** What the reader gets from the debug blocks of a finished method. */
    static lemma DebugReads(chunks: seq<seq<Pair>>, open: seq<Pair>, tail: seq<Byte>)
      requires AllOrdinary(Concat(chunks) + open) && forall i :: 0 <= i < |chunks| ==>
        |FullBlock(chunks[i])| <= DEBUG_SIZE
      requires |EncodePairs(open + [END]) + tail| <= DEBUG_SIZE
      ensures var blocks := FullBlocks(chunks) + [EncodePairs(open + [END]) + tail];
        AllReadable(blocks) && ReadAll(blocks) == Concat(chunks) + open
      ensures AllReadable(FullBlocks(chunks)) && ReadAll(FullBlocks(chunks)) == Concat(chunks)
    {
      hide Encode, Decode, Readable, Read;
      OrdinaryParts(chunks, open);
      ReadLastBlock(open, tail);
      ReadFullBlocks(chunks, [EncodePairs(open + [END]) + tail]);
      ReadFullBlocks(chunks, []);
      assert FullBlocks(chunks) + [] == FullBlocks(chunks);
    }

    static lemma {:induction false} OrdinaryParts(chunks: seq<seq<Pair>>, open: seq<Pair>)
      requires AllOrdinary(Concat(chunks) + open)
      ensures AllOrdinary(open) && forall i :: 0 <= i < |chunks| ==> AllOrdinary(chunks[i])
    {
      var all := Concat(chunks) + open;
      assert forall i :: 0 <= i < |open| ==> all[|Concat(chunks)| + i] == open[i];
      if chunks != [] {
        var init, last := chunks[..|chunks| - 1], chunks[|chunks| - 1];
        assert AllOrdinary(Concat(init) + last) by {
          assert forall i :: 0 <= i < |Concat(chunks)| ==> all[i] == Concat(chunks)[i];
        }
        OrdinaryParts(init, last);
        assert forall i :: 0 <= i < |chunks| ==> chunks[i] == if i < |init| then init[i] else last;
      }
    }

    /** Free the last page again if nothing was ever committed to it. */
    method FreeLastPage()
      requires Valid() && freeStart != 0
      modifies this`pages, this`freeStart, this`freeEnd, this`pagesLeft
      ensures Valid() && Budget() == old(Budget())
      ensures if FreshPageOf(old(pages), old(freeStart), old(freeEnd))
        then pages == old(pages)[..|old(pages)| - 1] && freeStart == 0
             && pagesLeft == old(pagesLeft) + (if old(pagesLeft) >= 0 then old(pages)[|old(pages)| - 1].factor else 0)
        else pages == old(pages) && freeStart == old(freeStart) && freeEnd == old(freeEnd)
             && pagesLeft == old(pagesLeft)
    {
      hide LookupTree.Valid, Spaced, Kept, NoneEmpty, BlocksApart;
      var p := pages[|pages| - 1];
      if freeStart == p.base && freeEnd == freeStart + p.size {
        KeptLastPage(lookup.Regions(), Layout());
        pages := pages[..|pages| - 1];
        if pagesLeft >= 0 { pagesLeft := pagesLeft + p.factor; }
        freeStart, freeEnd := 0, 0;
      }
    }

    /** Close the last region, make the rest of the page free again and add the regions to the tree. */
    method CommitMethod(ghost before: seq<Node>)
      requires Placed() && before == lookup.Regions()
      modifies this`freeStart, this`freeEnd, this`reserved, this`current, lookup
      modifies lookup.nodes`left, lookup.nodes`right, lookup.nodes`red
      modifies Elems(chain)`left, Elems(chain)`right, Elems(chain)`red, Elems(chain)`debug, Elems(chain)`end
      ensures Committed() && current == null && freeStart == ptr != 0 && freeEnd == limit
        && reserved == old(reserved) + blocks
      ensures lookup.nodes <= old(lookup.nodes) + Elems(chain)
        && Elems(lookup.Regions()) == Elems(before) + Elems(chain)
      ensures Tiles(chain, start, ptr) && Labelled(chain, debug.blocks)
      ensures Valid() <==> chain[|chain| - 1].start < ptr
    {
      hide LookupTree.Valid, Spaced, Kept, NoneEmpty, Tiles, ClearOf, Inside, Committing, Placed, Elems, Labelled,
        BlocksApart;
      hide SpacedAt, ClearAt, TilesAt, KeptAt, NoneEmptyAt, Ends;
      ghost var l := Layout();
      Prepare(before);
      ghost var ends := Ends(before);
      EndsKept(before, l);
      Commit(before);
      assert Ends(before) == ends;
      EndsOnly(before, start, ptr);
      EndsKept(before, l);
      AfterCommit(before);
      KeptWith(before, chain, lookup.Regions(), l, blocks, start, ptr, limit);
    }

    /** Close the last region and make the rest of the page free again. */
    method Prepare(ghost before: seq<Node>)
      requires Placed() && before == lookup.Regions()
      modifies this`freeStart, this`freeEnd, this`reserved, Elems(chain)`end
      ensures Committing(|chain|, before) && FreeValid() && freeStart == ptr != 0 && freeEnd == limit
        && reserved == old(reserved) + blocks
      ensures Kept(before, old(Layout())) && NoneEmpty(before) && BlocksApart(old(Layout()))
      ensures Inside(pages, old(freeStart), old(freeEnd)) && old(freeStart) <= start <= ptr <= limit < old(freeEnd)
      ensures forall i :: 0 <= i < |blocks| ==> limit <= blocks[i].0 <= blocks[i].1 <= old(freeEnd)
    {
      hide LookupTree.Valid, Spaced, Kept, NoneEmpty, Tiles, ClearOf, Inside, Committing, Placed, ChainValid, Elems,
        PagesValid, BlocksApart;
      hide SpacedAt, ClearAt, TilesAt, KeptAt, NoneEmptyAt, Ends;
      AllClear();
      FreeShrinks(ptr, limit);
      BlocksJoin(Layout(), blocks, ptr, limit);
      ghost var l := Layout();
      ghost var ends := Ends(before);
      EndsOnly(before, start, ptr);
      EndsKept(before, l);
      freeStart, freeEnd, reserved := ptr, limit, reserved + blocks;
      Close();
      assert Ends(before) == ends;
      EndsOnly(before, start, ptr);
      EndsKept(before, l);
      ReadyToCommit(before);
    }

    lemma AllClear()
      requires Placed()
      ensures ChainValid() && current in Elems(chain) && current.start <= ptr
      ensures ClearOf(lookup.Regions(), start, ptr) && Inside(pages, freeStart, freeEnd)
      ensures lookup.Valid() && Elems(lookup.Regions()) <= lookup.nodes && Spaced(lookup.Regions())
      ensures Kept(lookup.Regions(), Layout()) && NoneEmpty(lookup.Regions())
      ensures forall n :: n in lookup.Regions() ==> n !in Elems(chain)
      ensures freeStart <= start <= ptr <= limit < freeEnd && FreeValid() && freeStart != 0 && BlocksApart(Layout())
      ensures (forall i :: 0 <= i < |blocks| ==> limit <= blocks[i].0 <= blocks[i].1 <= freeEnd)
           && forall i, j :: 0 <= i < j < |blocks| ==> blocks[j].1 <= blocks[i].0
    {
      hide Clear, BlocksApart;
      var p := pages[|pages| - 1];
      assert Elems(lookup.Regions()) !! Elems(chain);
      assert forall n :: n in lookup.Regions() ==> n in Elems(lookup.Regions());
    }

    lemma FreeShrinks(lo: int, hi: int)
      requires FreeValid() && freeStart != 0 && freeStart <= lo <= hi <= freeEnd
      ensures lo != 0 && var p := pages[|pages| - 1]; p.base <= lo && hi <= p.base + p.size
    {
    }

    lemma ReadyToCommit(before: seq<Node>)
      requires ChainValid() && current.end == ptr && ClearOf(before, start, ptr) && before == lookup.Regions()
      requires lookup.Valid() && Elems(before) <= lookup.nodes && Spaced(before)
      ensures Committing(|chain|, before)
    {
      assert chain[..|chain|] == chain && chain[|chain|..] == [];
    }

    lemma AfterCommit(before: seq<Node>)
      requires Committing(0, before)
      ensures Elems(lookup.Regions()) == Elems(before) + Elems(chain) && Elems(lookup.Regions()) <= lookup.nodes
      ensures lookup.Valid() && Spaced(lookup.Regions()) && Tiles(chain, start, ptr) && Labelled(chain, debug.blocks)
    {
      assert chain[0..] == chain;
    }

    /** The end of a method that did not run out of space. */
    method Complete()
      requires Writing() && ptr < limit
      modifies this, debug, debug.data, lookup, lookup.nodes`left, lookup.nodes`right, lookup.nodes`red
      modifies Elems(chain)`left, Elems(chain)`right, Elems(chain)`red, Elems(chain)`debug, Elems(chain)`end
      ensures Committed() && debug.data.Length == DEBUG_SIZE && lookup.nodes <= old(lookup.nodes) + old(Elems(chain))
      ensures |old(emitted)| == old(ptr) - start && Stores(memory, start, old(emitted))
      ensures SameOutside(old(memory), memory, freeEnd, old(freeEnd))
      ensures chain == old(chain) && start == old(start) && Tiles(chain, start, freeStart)
        && Labelled(chain, debug.blocks)
      ensures Elems(lookup.Regions()) == old(Elems(lookup.Regions())) + Elems(chain)
      ensures Valid() <==> chain[|chain| - 1].start < freeStart
      ensures pages == old(pages) && pagesLeft == old(pagesLeft) && freeStart != 0
      ensures Stacked(blocks, freeEnd, old(freeEnd)) && old(blocks) <= blocks && old(freeStart) <= start
        && freeStart <= freeEnd
      ensures reserved == old(reserved) + blocks && InPlace(memory, places, debug.blocks, blocks)
      ensures (freeStart, freeEnd) == if old(debug.blocks) == [] && old(debug.len) == 0
        then (old(ptr), old(limit)) else Allocated(old(ptr), old(limit), LastFlush(old(debug.open)))
      ensures AllOrdinary(old(marks)) ==> AllReadable(debug.blocks)
      ensures AllOrdinary(old(marks)) ==>
        ReadAll(debug.blocks) == if RoomFor(old(ptr), old(limit), LastFlush(old(debug.open))) then old(marks)
          else Concat(old(debug.chunks))
    {
      hide Committed, FreeValid, ChainValid, Stacked, Tiles, Elems, Labelled, ReadAll, AllReadable, AllOrdinary, Concat,
        NoneEmpty, InPlace, Stores, SameOutside, LastFlush;
      ghost var m := memory;
      FinishDebug();
      CodeStays(m, memory, limit, freeEnd, start, emitted);
      CommitMethod(lookup.Regions());
    }

    static lemma CodeStays(m: Memory, m': Memory, lo: int, hi: int, start: int, code: seq<Byte>)
      requires Stores(m, start, code) && SameOutside(m, m', lo, hi) && start + |code| <= lo
      ensures Stores(m', start, code)
    {
    }

    /** `_jit_cache_end_method`: finish the method, or ask for a restart if it ran out of space. */
    method EndMethod() returns (r: Status)
      requires Writing()
      modifies this, debug, debug.data, lookup, lookup.nodes`left, lookup.nodes`right, lookup.nodes`red
      modifies Elems(chain)`left, Elems(chain)`right, Elems(chain)`red, Elems(chain)`debug, Elems(chain)`end
      ensures r == (if old(ptr) >= old(limit) then RESTART else OK)
      ensures Committed() && Budget() == old(Budget()) && debug.data.Length == DEBUG_SIZE
      ensures lookup.nodes <= old(lookup.nodes) + old(Elems(chain))
      // a restart leaves the committed regions alone, and gives a new page back
      ensures r == RESTART ==>
        Valid() && lookup.Regions() == old(lookup.Regions()) && lookup.nodes == old(lookup.nodes)
        && memory == old(memory)
      ensures r == RESTART && FreshPageOf(old(pages), old(freeStart), old(freeEnd)) ==>
        && pages == old(pages)[..|old(pages)| - 1] && freeStart == 0
        && pagesLeft == old(pagesLeft) + (if old(pagesLeft) >= 0 then old(pages)[|old(pages)| - 1].factor else 0)
      ensures r == RESTART && !FreshPageOf(old(pages), old(freeStart), old(freeEnd)) ==>
        pages == old(pages) && freeStart == old(freeStart) && freeEnd == old(freeEnd) && pagesLeft == old(pagesLeft)
      // a finished method has all its code in place, and regions that cover it
      ensures r == OK ==> |old(emitted)| == old(ptr) - start && Stores(memory, start, old(emitted))
      ensures r == OK ==> SameOutside(old(memory), memory, freeEnd, old(freeEnd))
      ensures r == OK ==>
        chain == old(chain) && start == old(start) && Tiles(chain, start, freeStart) && Labelled(chain, debug.blocks)
      ensures r == OK ==> Elems(lookup.Regions()) == old(Elems(lookup.Regions())) + Elems(chain)
      ensures r == OK ==> (Valid() <==> chain[|chain| - 1].start < freeStart)
      ensures r == OK ==> pages == old(pages) && pagesLeft == old(pagesLeft) && freeStart != 0
      // the auxiliary blocks are aligned, apart and above the code, and stay in use
      ensures r == OK ==>
        Stacked(blocks, freeEnd, old(freeEnd)) && old(blocks) <= blocks && old(freeStart) <= start
        && freeStart <= freeEnd
      ensures reserved == old(reserved) + if r == OK then blocks else []
      ensures r == OK ==> InPlace(memory, places, debug.blocks, blocks)
      ensures r == OK ==> (freeStart, freeEnd) == if old(debug.blocks) == [] && old(debug.len) == 0
        then (old(ptr), old(limit)) else Allocated(old(ptr), old(limit), LastFlush(old(debug.open)))
      // and a debug map that reads back as the marks made
      ensures r == OK && AllOrdinary(old(marks)) ==> AllReadable(debug.blocks)
      ensures r == OK && AllOrdinary(old(marks)) ==>
        ReadAll(debug.blocks) == if RoomFor(old(ptr), old(limit), LastFlush(old(debug.open))) then old(marks)
          else Concat(old(debug.chunks))
    {
      hide Committed, FreeValid, ChainValid, Stacked, Tiles, Elems, Labelled, ReadAll, AllReadable, AllOrdinary, Concat,
        NoneEmpty;
      if ptr >= limit {
        FreeLastPage();
        return RESTART;
      }
      Complete();
      return OK;
    }
  }

  const PAGE_SIZE: nat := 65536    // JIT_CACHE_PAGE_SIZE

  /** The page size: the one asked for, or the default, in whole pages of the system. */
  function RoundedPageSize(asked: int, execPageSize: nat): (r: nat)
    requires execPageSize > 0
    ensures r % execPageSize == 0
    ensures var p := if asked <= 0 then PAGE_SIZE else asked;
      if p < execPageSize then r == execPageSize else r <= p < r + execPageSize
    ensures r > 0
  {
    var p := if asked <= 0 then PAGE_SIZE else asked;
    if p < execPageSize then execPageSize else RoundDown(p, execPageSize)
  }

  /** `_jit_cache_create`: the cache starts out with one page of the default size, or there is no cache. */
  method Create(byteLimit: int, asked: int, execPageSize: nat, maxFactor: int, granted: bool) returns (c: Cache?)
    requires execPageSize > 0
    ensures c == null <==> !granted
    ensures c != null ==>
      fresh(c.Repr()) && c.Valid() && c.lookup.Regions() == [] && c.reserved == [] && c.debug.data.Length == DEBUG_SIZE
    ensures c != null ==>
      c.pageSize == RoundedPageSize(asked, execPageSize) && FreshPageOf(c.pages, c.freeStart, c.freeEnd)
    ensures c != null ==> |c.pages| == 1 && c.pages[0].factor == 1 && c.freeStart != 0
    ensures c != null ==> c.Budget() == PageLimit(byteLimit, c.pageSize)
  {
    hide Cache.Valid, LookupTree.Regions, PageLimit;
    var cache := new Cache(byteLimit, RoundedPageSize(asked, execPageSize), maxFactor);
    cache.AllocCachePage(0, granted);
    assert Factors([]) == 0;
    c := if cache.freeStart == 0 then null else cache;
  }

  /** The free region is the whole of the last page: nothing was committed since it was allocated. */
  predicate FreshPageOf(pages: seq<Page>, freeStart: int, freeEnd: int) {
    |pages| > 0 && var p := pages[|pages| - 1]; freeStart == p.base && freeEnd == p.base + p.size
  }

  /** The size of the block that ends the debug information of a method with the pairs `open` in the buffer. */
  function LastFlush(open: seq<Pair>): nat {
    var n := |EncodePairs(open + [END])|;
    DEBUG_HEADER + if n + 11 > DEBUG_SIZE then n + 1 else n
  }

  /** Whether an auxiliary block of `size` bytes fits between the position and the limit, and both afterwards. */
  predicate RoomFor(ptr: int, limit: int, size: nat) {
    size <= limit - ptr && RoundDown(limit - size, BEST_ALIGNMENT) >= ptr
  }

  function Allocated(ptr: int, limit: int, size: nat): (int, int) {
    if RoomFor(ptr, limit, size) then (ptr, RoundDown(limit - size, BEST_ALIGNMENT)) else (limit, limit)
  }

  /** An aligned place for a block between the position and the limit. */
  predicate IsPlace(ptr: int, limit: int, size: nat, at: int) {
    ptr <= at && at + size <= limit && at % BEST_ALIGNMENT == 0
  }

  /** There is room if there is any such place, and the block gets the last one. */
  lemma RoomIff(ptr: int, limit: int, size: nat)
    ensures RoomFor(ptr, limit, size) <==> exists at :: IsPlace(ptr, limit, size, at)
    ensures RoomFor(ptr, limit, size) ==> IsPlace(ptr, limit, size, Allocated(ptr, limit, size).1)
    ensures RoomFor(ptr, limit, size) ==>
      forall at :: IsPlace(ptr, limit, size, at) ==> at <= Allocated(ptr, limit, size).1
  {
    var last := RoundDown(limit - size, BEST_ALIGNMENT);
    assert RoomFor(ptr, limit, size) ==> IsPlace(ptr, limit, size, last);
    forall at | IsPlace(ptr, limit, size, at) ensures at <= last {
      LastAligned(at, last, limit - size);
    }
  }

  lemma LastAligned(at: int, last: int, x: int)
    requires at % BEST_ALIGNMENT == 0 && last % BEST_ALIGNMENT == 0 && at <= x && last <= x < last + BEST_ALIGNMENT
    ensures at <= last
  {
  }

  /** Where a method starts in the free region [lo, hi), and the limit after its information block is allocated. */
  function Started(lo: int, hi: int, align: int): (int, int) {
    (if align > 1 then RoundUp(lo, align) else lo, RoundDown(hi - METHOD_SIZE, BEST_ALIGNMENT))
  }

  predicate StartFits(lo: int, hi: int, align: int) {
    var (p, q) := Started(lo, hi, align);
    p < hi && METHOD_SIZE <= hi - p && p <= q
  }
}
