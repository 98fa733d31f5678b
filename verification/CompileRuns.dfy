/** Any number of compilations and of allocations for redirectors and closures in one code cache (`compile` in
    jit/jit-function.c, `_jit_cache_alloc_no_method` in jit/jit-cache.c and its callers): what is in the cache stays
    as it is, and is found. */
module CompileRuns {
  import opened Wrappers
  import opened RedBlack
  import opened LookupTrees
  import opened LookupQueries
  import opened DebugMap
  import opened DebugStream
  import DebugQueries
  import opened CodeCache
  import opened CompileLoop

  // ---- A method that stays ----

  /** A finished method: the draft, the blocks of its debug map, and where they are. */
  datatype Deed = Deed(draft: Draft, data: seq<seq<Byte>>, places: seq<int>)

  /** The debug map tells the marks of the method, but for those of the last block if there is no room for it. */
  ghost predicate Tells(x: Deed) {
    AllOrdinary(x.draft.marks) ==> AllReadable(x.data) && ReadAll(x.data) == Remembered(x.draft)
  }

  /** The code and the debug map are in memory, and looking up any address in the code gives the method, the cookie that
      was in force there, and the debug map. */
  ghost predicate Served(c: Cache, x: Deed)
    requires |x.draft.regions| > 0
    reads c, c.lookup, c.lookup.nodes, c.lookup.Regions()
  {
    var d := x.draft;
    && |d.code| == d.ptr - d.start && Stores(c.memory, d.start, d.code)
      && InPlace(c.memory, x.places, x.data, c.reserved)
    && forall pc :: d.start <= pc < d.ptr ==> Answers(Scan(c.lookup.Regions(), pc), x, pc)
  }

  ghost predicate Answers(n: Node?, x: Deed, pc: int)
    requires |x.draft.regions| > 0
    reads n
  {
    n != null && n.owner == x.draft.owner && n.cookie == CookieAt(x.draft.regions, pc) && n.debug == x.data
  }

  /** The cookies and debug maps of regions, as they are now. */
  ghost function Tags(s: seq<Node>): (k: seq<(int, seq<seq<Byte>>)>)
    reads s`cookie, s`debug
    ensures |k| == |s| && forall i :: 0 <= i < |s| ==> k[i] == (s[i].cookie, s[i].debug)
  {
    if s == [] then [] else Tags(s[..|s| - 1]) + [(s[|s| - 1].cookie, s[|s| - 1].debug)]
  }

  /** What is in use at some time: the regions with their ends and tags, the blocks, and memory. */
  datatype Use = Use(s: seq<Node>, e: seq<int>, k: seq<(int, seq<seq<Byte>>)>, reserved: seq<(int, int)>,
                     memory: Memory)

  ghost function InUse(c: Cache): Use
    reads c, c.lookup, c.lookup.Regions()
  {
    Use(c.lookup.Regions(), Ends(c.lookup.Regions()), Tags(c.lookup.Regions()), c.reserved, c.memory)
  }

  ghost predicate ServedBy(u: Use, x: Deed)
    requires |x.draft.regions| > 0
  {
    var d := x.draft;
    && |u.e| == |u.k| == |u.s| && |d.code| == d.ptr - d.start && Stores(u.memory, d.start, d.code)
    && InPlace(u.memory, x.places, x.data, u.reserved)
    && forall pc :: d.start <= pc < d.ptr ==> AnsweredBy(u, x, pc)
  }

  ghost predicate AnsweredBy(u: Use, x: Deed, pc: int)
    requires |x.draft.regions| > 0 && |u.e| == |u.k| == |u.s|
  {
    exists i :: 0 <= i < |u.s| && u.s[i].start <= pc < u.e[i] && u.s[i].owner == x.draft.owner
      && u.k[i] == (CookieAt(x.draft.regions, pc), x.data)
  }

  /** What was in use is still in use, and the same. */
  ghost predicate Carried(c: Cache, u: Use)
    reads c, c.lookup, c.lookup.nodes, c.lookup.Regions(), u.s
  {
    && Spaced(c.lookup.Regions()) && (forall n :: n in u.s ==> n in c.lookup.Regions()) && Ends(u.s) == u.e
      && Tags(u.s) == u.k
    && u.reserved <= c.reserved && SameUsed(u.memory, c.memory, u.s, u.e, u.reserved)
  }

  lemma ServedNow(c: Cache, x: Deed)
    requires |x.draft.regions| > 0 && Served(c, x) && Spaced(c.lookup.Regions())
    ensures ServedBy(InUse(c), x)
  {
    var s, u := c.lookup.Regions(), InUse(c);
    forall pc | x.draft.start <= pc < x.draft.ptr ensures AnsweredBy(u, x, pc) {
      assert Answers(Scan(s, pc), x, pc);
      ScanFinds(s, pc);
      var i :| 0 <= i < |s| && s[i] == Scan(s, pc);
      assert s[i].start <= pc < u.e[i] && u.k[i] == (s[i].cookie, s[i].debug);
    }
  }

  lemma StoredStill(m: Memory, m': Memory, places: seq<int>, data: seq<seq<Byte>>, blocks: seq<(int, int)>,
                    more: seq<(int, int)>)
    requires InPlace(m, places, data, blocks) && SameOn(m, m', blocks) && blocks <= more
    ensures InPlace(m', places, data, more)
  {
    forall i | 0 <= i < |places| ensures Stores(m', places[i], data[i]) {
      var b := (places[i] - DEBUG_HEADER, places[i] + |data[i]|);
      var j :| 0 <= j < |blocks| && blocks[j] == b;
      assert forall a :: blocks[j].0 <= a < blocks[j].1 ==> (a in m' <==> a in m) && (a in m ==> m'[a] == m[a]);
    }
    InPlaceGrows(m', places, data, blocks, more);
  }

  lemma AnsweredStill(c: Cache, x: Deed, u: Use, pc: int)
    requires |x.draft.regions| > 0 && |u.e| == |u.k| == |u.s| && AnsweredBy(u, x, pc)
    requires Spaced(c.lookup.Regions()) && (forall n :: n in u.s ==> n in c.lookup.Regions()) && Ends(u.s) == u.e
      && Tags(u.s) == u.k && SameIn(u.memory, c.memory, u.s, u.e)
    ensures Answers(Scan(c.lookup.Regions(), pc), x, pc)
    ensures pc in u.memory ==> pc in c.memory && c.memory[pc] == u.memory[pc]
  {
    hide CookieAt, Scan, Spaced;
    var i :| 0 <= i < |u.s| && u.s[i].start <= pc < u.e[i] && u.s[i].owner == x.draft.owner
      && u.k[i] == (CookieAt(x.draft.regions, pc), x.data);
    ScanFinds(c.lookup.Regions(), pc);
    assert u.s[i] in u.s && Holds(u.s[i], pc);
  }

  /** As long as what is in use stays so, a method is served. */
  lemma ServedStill(c: Cache, x: Deed, u: Use)
    requires |x.draft.regions| > 0 && ServedBy(u, x) && Carried(c, u)
    ensures Served(c, x)
  {
    StoredStill(u.memory, c.memory, x.places, x.data, u.reserved, c.reserved);
    hide InPlace, SameOn, CookieAt, Scan, SameIn, Spaced, AnsweredBy, Stores, Answers, Ends, Tags;
    var d := x.draft;
    forall pc | d.start <= pc < d.ptr
      ensures Answers(Scan(c.lookup.Regions(), pc), x, pc)
        && (pc in u.memory ==> pc in c.memory && c.memory[pc] == u.memory[pc])
    {
      AnsweredStill(c, x, u, pc);
    }
    StoresStill(u.memory, c.memory, d.start, d.code);
  }

  lemma StoresStill(m: Memory, m': Memory, start: int, code: seq<Byte>)
    requires Stores(m, start, code)
    requires forall a :: start <= a < start + |code| ==> a in m ==> a in m' && m'[a] == m[a]
    ensures Stores(m', start, code)
  {
  }

  /** A method that was just finished is served. */
  lemma ServedFirst(c: Cache, d: Draft, before: set<Node>)
    requires Finished(c, d, before)
    ensures |d.regions| > 0 && Served(c, Deed(d, c.debug.blocks, c.places)) && Tells(Deed(d, c.debug.blocks, c.places))
  {
    assert |c.chain| > 0;
    hide Cache.Committed, Cache.Valid, Tiles, Cookies, Stores, InPlace, AllOrdinary, AllReadable, ReadAll, CookieAt;
    forall pc | d.start <= pc < d.ptr
      ensures Answers(Scan(c.lookup.Regions(), pc), Deed(d, c.debug.blocks, c.places), pc) {
      LooksUp(c, d, before, pc);
    }
  }

  /** `_jit_cache_get_native` for an address in a method that is served answers by the marks of the method. */
  method GetNative(c: Cache, x: Deed, pc: int, offset: Ulong, exact: bool) returns (r: Ulong)
    requires c.Valid() && |x.draft.regions| > 0 && Served(c, x) && Tells(x) && x.draft.start <= pc < x.draft.ptr
    requires AllOrdinary(x.draft.marks)
    ensures r == NativeFor(Remembered(x.draft), offset, exact, NO_OFFSET)
  {
    ghost var n := Scan(c.lookup.Regions(), pc);
    assert Answers(n, x, pc);
    hide AllReadable, ReadAll, NativeFor;
    r := DebugQueries.GetNativeAt(c.lookup, pc, offset, exact, n);
  }

  /** The same for `_jit_cache_get_bytecode`. */
  method GetBytecode(c: Cache, x: Deed, pc: int, native: Ulong, exact: bool) returns (r: Ulong)
    requires c.Valid() && |x.draft.regions| > 0 && Served(c, x) && Tells(x) && x.draft.start <= pc < x.draft.ptr
    requires AllOrdinary(x.draft.marks)
    ensures r == BytecodeFor(Remembered(x.draft), native, exact, NO_OFFSET)
  {
    ghost var n := Scan(c.lookup.Regions(), pc);
    assert Answers(n, x, pc);
    hide AllReadable, ReadAll, BytecodeFor;
    r := DebugQueries.GetBytecodeAt(c.lookup, pc, native, exact, n);
  }

  /** In a valid cache the blocks in use, the committed regions and the free region are apart. */
  lemma NoOverlap(c: Cache)
    requires c.Valid()
    ensures var b := c.reserved;
      forall i, j :: 0 <= i < j < |b| && b[i].0 < b[i].1 && b[j].0 < b[j].1 ==> b[i].1 <= b[j].0 || b[j].1 <= b[i].0
    ensures forall i, n :: 0 <= i < |c.reserved| && c.reserved[i].0 < c.reserved[i].1 && n in c.lookup.Regions() ==>
      c.reserved[i].1 <= n.start || n.end <= c.reserved[i].0
    ensures forall i :: 0 <= i < |c.reserved| && c.reserved[i].0 < c.reserved[i].1 ==>
      c.reserved[i].1 <= c.freeStart || c.freeEnd <= c.reserved[i].0
    ensures forall n :: n in c.lookup.Regions() ==> n.end <= c.freeStart || c.freeEnd <= n.start
  {
    hide Inside;
    forall i, j | 0 <= i < j < |c.reserved| && c.reserved[i].0 < c.reserved[i].1 && c.reserved[j].0 < c.reserved[j].1
      ensures c.reserved[i].1 <= c.reserved[j].0 || c.reserved[j].1 <= c.reserved[i].0
    {
      assert Clear(c.Layout().reserved[..j], c.reserved[j].0, c.reserved[j].1) && c.reserved[..j][i] == c.reserved[i];
    }
    forall i, n | 0 <= i < |c.reserved| && c.reserved[i].0 < c.reserved[i].1 && n in c.lookup.Regions()
      ensures c.reserved[i].1 <= n.start || n.end <= c.reserved[i].0
    {
      assert Secured(c.Layout(), n.start, n.end);
    }
  }

  // ---- One after the other ----

  type Positive = x: int | x > 0 witness 1

  /** What is asked of the cache: to compile a method, or to hand out a block for a redirector or a closure.  `granted`
      says whether the system has memory. */
  datatype Job =
    | Method(gen: Generator, owner: int, granted: int -> bool)
    | Block(size: nat, align: Positive, now: bool)

  /** What became of the free region when a block was asked for. */
  datatype Change = SamePage | NewPage | NoPage

  /** `tried` are the free regions where a method was tried. */
  datatype Outcome =
    | Compiled(deed: Deed, tried: seq<(int, int)>)
    | Failed(tried: seq<(int, int)>)
    | Handed(at: Option<int>, change: Change)

  /** The last region of the method has some code, wherever the method is written. */
  predicate EndsInCode(d: Draft) { |d.regions| > 0 && (d.ptr < d.limit ==> d.regions[|d.regions| - 1].0 < d.ptr) }

  ghost predicate Sound(job: Job, align: int) {
    match job
    case Method(gen, owner, _) => (forall at, top :: Sane(CodeAt(gen, at, top)))
      && forall lo, hi :: EndsInCode(Paper(gen, lo, hi, align, owner))
    case Block(_, _, _) => true
  }

  /** The job's method on paper, in a free region. */
  function PaperAt(job: Job, align: int, r: (int, int)): Draft
    requires job.Method?
  {
    Paper(job.gen, r.0, r.1, align, job.owner)
  }

  /** The draft is what the job's code generator makes of it in some free region, and the debug map tells its marks. */
  ghost predicate Written(job: Job, align: int, x: Deed)
    requires job.Method?
  {
    && |x.draft.regions| > 0 && x.draft.ptr < x.draft.limit && x.draft.owner == job.owner && Tells(x)
    && exists lo, hi :: x.draft == Paper(job.gen, lo, hi, align, job.owner)
  }

  lemma StaysValid(c: Cache, d: Draft, before: set<Node>)
    requires Finished(c, d, before) && EndsInCode(d)
    ensures c.Valid()
  {
    assert Cookies(c.chain)[|c.chain| - 1].0 == c.chain[|c.chain| - 1].start;
  }

  lemma SpacedNow(c: Cache)
    requires c.Valid()
    ensures Spaced(c.lookup.Regions()) && Elems(c.lookup.Regions()) <= c.lookup.nodes
  {
  }

  lemma FinishedFacts(c: Cache, d: Draft, before: set<Node>)
    requires Finished(c, d, before)
    ensures d.ptr < d.limit && c.freeStart != 0 && forall n :: n in before ==> n in c.lookup.Regions()
  {
    assert forall n :: n in Elems(c.lookup.Regions()) ==> n in c.lookup.Regions();
  }

  /** Compile one method more. */
  method RunMethod(c: Cache, job: Job, align: int)
    returns (ok: bool, ghost deed: Deed, ghost tried: seq<(int, int)>)
    requires c.Valid() && c.debug.data.Length == DEBUG_SIZE && job.Method? && Sound(job, align)
    modifies c, c.debug, c.debug.data, c.lookup, c.lookup.nodes`left, c.lookup.nodes`right, c.lookup.nodes`red
    ensures c.Valid() && c.debug.data.Length == DEBUG_SIZE && c.Budget() == old(c.Budget())
      && fresh(c.lookup.nodes - old(c.lookup.nodes))
    ensures Carried(c, old(InUse(c)))
    ensures ok ==> Written(job, align, deed) && Served(c, deed) && c.freeStart != 0
    ensures Searched(job.gen, align, job.owner, job.granted, c.pageSize, c.maxPageFactor, old(HeldBy(c)), HeldBy(c),
                     tried, ok)
    ensures ok ==> |tried| > 0 && deed.draft == PaperAt(job, align, tried[|tried| - 1])
    ensures !ok && Roomy(c, align) ==> c.freeStart == 0
    ensures var enough := exists k: nat :: Enough(c, job.gen, align, job.owner, job.granted, old(c.pagesLeft), k);
      old(c.freeStart) != 0 && enough ==> ok
  {
    hide Cache.Valid, Cache.Committed, LookupTree.Regions, LookupTree.Valid, Served, Finished, Cache.Budget, Spaced,
      Paper;
    hide Tags, Ends, CompileLoop.Fits, EndsInCode, SameUsed, Enough, Roomy, Tells, Searched;
    ghost var before := c.lookup.Regions();
    ghost var ends, tags := Ends(before), Tags(before);
    SpacedNow(c);
    ok, tried := Compile(c, job.gen, align, job.owner, job.granted);
    ghost var (lo, hi) := if ok then tried[|tried| - 1] else (0, 0);
    ghost var d := Paper(job.gen, lo, hi, align, job.owner);
    deed := Deed(d, c.debug.blocks, c.places);
    if ok {
      StaysValid(c, d, Elems(before));
      ServedFirst(c, d, Elems(before));
      FinishedFacts(c, d, Elems(before));
      PaperOwner(job.gen, lo, hi, align, job.owner);
    }
    SpacedNow(c);
    assert Ends(before) == ends && Tags(before) == tags;
  }

  /** What becomes of a request for a block, exactly.  It is cut from the top of the free region, or else of a new
      page, which is asked for if the free region is smaller than the block. */
  ghost predicate Given(size: nat, align: Positive, now: bool, pageSize: nat, maxFactor: nat, before: Held,
                        after: Held, at: Option<int>, change: Change) {
    && change == (if size <= before.free.1 - before.free.0 then SamePage
                  else if now && 1 <= maxFactor && (before.left < 0 || 1 <= before.left) then NewPage else NoPage)
    && match change
       case SamePage =>
         after.pages == before.pages && after.left == before.left && Cut(size, align, before.free, after.free, at)
       case NewPage =>
         && |after.pages| > 0 && after.pages[..|after.pages| - 1] == before.pages
         && var p := after.pages[|after.pages| - 1];
            && p.base > 0 && p.factor == 1 && p.size == pageSize
            && Cut(size, align, (p.base, p.base + pageSize), after.free, at)
       case NoPage => after == Held(before.pages, before.left, (0, 0)) && at == None
  }

  /** Hand out a block. */
  method RunBlock(c: Cache, size: nat, align: Positive, now: bool) returns (at: Option<int>, ghost change: Change)
    requires c.Valid() && c.debug.data.Length == DEBUG_SIZE
    modifies c`pages, c`freeStart, c`freeEnd, c`pagesLeft, c`reserved
    ensures c.Valid() && c.Budget() == old(c.Budget()) && Carried(c, old(InUse(c)))
    ensures at != None ==> at.value % align == 0 && c.reserved == old(c.reserved) + [(at.value, at.value + size)]
    ensures Given(size, align, now, c.pageSize, c.maxPageFactor, old(HeldBy(c)), HeldBy(c), at, change)
  {
    hide Cache.Valid, LookupTree.Regions, LookupTree.Valid, Cache.Budget, Spaced, Ends, Tags;
    ghost var lo, hi, left, before := c.freeStart, c.freeEnd, c.pagesLeft, c.lookup.Regions();
    ghost var ends, tags := Ends(before), Tags(before);
    SameUsedSelf(c.memory, c.lookup.Regions(), c.reserved);
    at := c.AllocNoMethod(size, align, now);
    change := if size <= hi - lo then SamePage
      else if now && 1 <= c.maxPageFactor && (left < 0 || 1 <= left) then NewPage else NoPage;
    SpacedNow(c);
    assert Ends(before) == ends && Tags(before) == tags;
  }

  /** The pages and the free region before and after a job, and the blocks and memory after it. */
  datatype Snap = Snap(before: Held, after: Held, reserved: seq<(int, int)>, memory: Memory)

  /** The blocks that were in use then are in use, and nothing was written to them. */
  ghost predicate Guarded(c: Cache, x: Snap)
    reads c
  {
    x.reserved <= c.reserved && SameOn(x.memory, c.memory, x.reserved)
  }

  lemma GuardedStill(c: Cache, x: Snap, u: Use)
    requires Carried(c, u) && x.reserved <= u.reserved && SameOn(x.memory, u.memory, x.reserved)
    ensures Guarded(c, x)
  {
    assert forall i :: 0 <= i < |x.reserved| ==> x.reserved[i] == u.reserved[i];
    SameOnTwice(x.memory, u.memory, c.memory, x.reserved);
  }

  lemma SameOnSelf(m: Memory, ranges: seq<(int, int)>)
    ensures SameOn(m, m, ranges)
  {
  }

  /** Whether the cache has no free region after jobs with these outcomes, if `dead` says so for the start. */
  predicate Dead(outcomes: seq<Outcome>, dead: bool) {
    if outcomes == [] then dead
    else
      match outcomes[|outcomes| - 1]
      case Compiled(_, _) => false
      case Failed(_) => true
      case Handed(_, NewPage) => false
      case Handed(_, NoPage) => true
      case Handed(_, SamePage) => Dead(outcomes[..|outcomes| - 1], dead)
  }

  /** What a job came to. */
  ghost predicate Done(c: Cache, job: Job, align: int, o: Outcome, x: Snap)
    reads c, c.lookup, c.lookup.nodes, c.lookup.Regions()
  {
    && Guarded(c, x)
    && match job
       case Method(_, _, _) => (o.Compiled? && Written(job, align, o.deed) && Served(c, o.deed)) || o.Failed?
       case Block(size, a, _) =>
         && o.Handed?
         && (o.at != None ==>
           o.at.value % a == 0 && |x.reserved| > 0 && x.reserved[|x.reserved| - 1] == (o.at.value, o.at.value + size))
  }

  /** The same before the next job. */
  ghost predicate Stays(u: Use, job: Job, align: int, o: Outcome, x: Snap) {
    && x.reserved <= u.reserved && SameOn(x.memory, u.memory, x.reserved)
    && match job
       case Method(_, _, _) => (o.Compiled? && Written(job, align, o.deed) && ServedBy(u, o.deed)) || o.Failed?
       case Block(size, a, _) =>
         && o.Handed?
         && (o.at != None ==>
           o.at.value % a == 0 && |x.reserved| > 0 && x.reserved[|x.reserved| - 1] == (o.at.value, o.at.value + size))
  }

  lemma DoneStill(c: Cache, job: Job, align: int, o: Outcome, x: Snap, u: Use)
    requires Carried(c, u) && Stays(u, job, align, o, x)
    ensures Done(c, job, align, o, x)
  {
    hide Carried, ServedBy, Served, Tells;
    GuardedStill(c, x, u);
    if o.Compiled? && job.Method? { ServedStill(c, o.deed, u); }
  }

  /** What a job must come to, given the pages and the free region before it, and what becomes of them. */
  ghost predicate AsExpected(c: Cache, job: Job, align: int, o: Outcome, before: Held, after: Held) {
    match job
    case Method(gen, owner, granted) =>
      && (o.Compiled? || o.Failed?)
      && Searched(gen, align, owner, granted, c.pageSize, c.maxPageFactor, before, after, o.tried, o.Compiled?)
      && (o.Compiled? ==> |o.tried| > 0 && o.deed.draft == PaperAt(job, align, o.tried[|o.tried| - 1]))
      && (before.free.0 != 0 && (exists k: nat :: Enough(c, gen, align, owner, granted, before.left, k)) ==>
        o.Compiled?)
    case Block(size, a, now) =>
      o.Handed? && Given(size, a, now, c.pageSize, c.maxPageFactor, before, after, o.at, o.change)
  }

  /** One job. */
  method RunJob(c: Cache, job: Job, align: int) returns (ghost o: Outcome)
    requires c.Valid() && c.debug.data.Length == DEBUG_SIZE && Sound(job, align)
    modifies c, c.debug, c.debug.data, c.lookup, c.lookup.nodes`left, c.lookup.nodes`right, c.lookup.nodes`red
    ensures c.Valid() && c.debug.data.Length == DEBUG_SIZE && c.Budget() == old(c.Budget())
      && fresh(c.lookup.nodes - old(c.lookup.nodes))
    ensures Carried(c, old(InUse(c)))
      && Done(c, job, align, o, Snap(old(HeldBy(c)), HeldBy(c), c.reserved, c.memory))
    ensures AsExpected(c, job, align, o, old(HeldBy(c)), HeldBy(c))
    ensures Roomy(c, align) ==> (c.freeStart == 0 <==> Dead([o], old(c.freeStart) == 0))
  {
    hide Cache.Valid, LookupTree.Regions, LookupTree.Valid, Cache.Budget, Carried, Served, Enough, Roomy, SameOn,
      Written, Searched;
    match job {
      case Method(_, _, _) =>
        var ok, deed, tried := RunMethod(c, job, align);
        o := if ok then Compiled(deed, tried) else Failed(tried);
      case Block(size, a, now) =>
        var at, change := RunBlock(c, size, a, now);
        o := Handed(at, change);
    }
    SameOnSelf(c.memory, c.reserved);
  }

  lemma BeforeJob(c: Cache, job: Job, align: int, o: Outcome, x: Snap)
    requires c.Valid() && Done(c, job, align, o, x)
    ensures Stays(InUse(c), job, align, o, x)
  {
    SpacedNow(c);
    hide Cache.Valid, ServedBy, Served, Tells, Spaced;
    if o.Compiled? && job.Method? { ServedNow(c, o.deed); }
  }

  /** What the `k`th of some jobs came to.  `dead` says that there was no free region before all of them. */
  ghost predicate CameTo(c: Cache, jobs: seq<Job>, align: int, outcomes: seq<Outcome>, snaps: seq<Snap>, dead: bool,
                         k: nat)
    requires k < |outcomes| == |snaps| <= |jobs|
    reads c, c.lookup, c.lookup.nodes, c.lookup.Regions()
  {
    && Done(c, jobs[k], align, outcomes[k], snaps[k])
    && AsExpected(c, jobs[k], align, outcomes[k], snaps[k].before, snaps[k].after)
    && (Roomy(c, align) ==> (snaps[k].before.free.0 == 0 <==> Dead(outcomes[..k], dead)))
  }

  /** One job after others: what became of them still holds. */
  method NextJob(c: Cache, jobs: seq<Job>, n: nat, align: int, ghost outcomes: seq<Outcome>, ghost snaps: seq<Snap>,
                 ghost dead: bool)
    returns (ghost o: Outcome, ghost x: Snap)
    requires c.Valid() && c.debug.data.Length == DEBUG_SIZE && |outcomes| == |snaps| == n < |jobs|
      && Sound(jobs[n], align)
    requires forall k :: 0 <= k < n ==> CameTo(c, jobs, align, outcomes, snaps, dead, k)
    requires Roomy(c, align) ==> (c.freeStart == 0 <==> Dead(outcomes, dead))
    modifies c, c.debug, c.debug.data, c.lookup, c.lookup.nodes`left, c.lookup.nodes`right, c.lookup.nodes`red
    ensures c.Valid() && c.debug.data.Length == DEBUG_SIZE && c.Budget() == old(c.Budget())
      && fresh(c.lookup.nodes - old(c.lookup.nodes))
    ensures x.before == old(HeldBy(c)) && x.after == HeldBy(c)
    ensures forall k :: 0 <= k <= n ==> CameTo(c, jobs, align, outcomes + [o], snaps + [x], dead, k)
    ensures Roomy(c, align) ==> (c.freeStart == 0 <==> Dead(outcomes + [o], dead))
  {
    hide Cache.Valid, LookupTree.Regions, LookupTree.Valid, Done, Carried, Cache.Budget, Sound, Paper, Enough, Roomy,
      Stays, SameOn, AsExpected, Dead;
    ghost var u, free := InUse(c), c.freeStart;
    forall k | 0 <= k < n
      ensures Stays(u, jobs[k], align, outcomes[k], snaps[k])
    {
      assert CameTo(c, jobs, align, outcomes, snaps, dead, k);
      BeforeJob(c, jobs[k], align, outcomes[k], snaps[k]);
    }
    o := RunJob(c, jobs[n], align);
    x := Snap(old(HeldBy(c)), HeldBy(c), c.reserved, c.memory);
    DeadNext(outcomes, o, dead, free == 0);
    ghost var os, xs := outcomes + [o], snaps + [x];
    forall k | 0 <= k <= n ensures CameTo(c, jobs, align, os, xs, dead, k) {
      assert os[..k] == outcomes[..k];
      if k < n {
        assert old(CameTo(c, jobs, align, outcomes, snaps, dead, k));
        assert os[k] == outcomes[k] && xs[k] == snaps[k];
        DoneStill(c, jobs[k], align, outcomes[k], snaps[k], u);
      }
    }
  }

  /** Each job finds what the one before it has left. */
  ghost predicate Joined(snaps: seq<Snap>, first: Held, last: Held) {
    if snaps == [] then last == first
    else
      && snaps[0].before == first && last == snaps[|snaps| - 1].after
      && forall i :: 0 < i < |snaps| ==> snaps[i].before == snaps[i - 1].after
  }

  lemma JoinedNext(snaps: seq<Snap>, x: Snap, first: Held)
    requires Joined(snaps, first, x.before)
    ensures Joined(snaps + [x], first, x.after)
  {
  }

  /** Any number of jobs in any order.  At the end
      - every method that was compiled is served, and its debug map tells its marks;
      - every block that was handed out, and every auxiliary block of a method, is in use and as it was;
      - the cache is valid: all of these and the free region are apart from one another, and the pages held are within
        the budget.
      What each job comes to is exact: a method is tried in the free region first, and compiled there if it fits; else
      in pages of doubled factors, up to the first where it fits or that is not to be had.  A block is cut from the free
      region if that is large enough.  There is no free region after a failure, until a request for a block gets a
      page. */
  method RunJobs(c: Cache, jobs: seq<Job>, align: int) returns (ghost outcomes: seq<Outcome>, ghost snaps: seq<Snap>)
    requires c.Valid() && c.debug.data.Length == DEBUG_SIZE && forall i :: 0 <= i < |jobs| ==> Sound(jobs[i], align)
    modifies c, c.debug, c.debug.data, c.lookup, c.lookup.nodes`left, c.lookup.nodes`right, c.lookup.nodes`red
    ensures c.Valid() && c.Budget() == old(c.Budget()) && |outcomes| == |snaps| == |jobs|
    ensures var dead := old(c.freeStart) == 0;
      && (forall k :: 0 <= k < |jobs| ==> CameTo(c, jobs, align, outcomes, snaps, dead, k))
      && (Roomy(c, align) ==> (c.freeStart == 0 <==> Dead(outcomes, dead)))
    ensures Joined(snaps, old(HeldBy(c)), HeldBy(c))
  {
    assert Joined([], HeldBy(c), HeldBy(c));
    hide Cache.Valid, LookupTree.Regions, LookupTree.Valid, CameTo, Cache.Budget, Sound, Roomy, Dead, Joined;
    ghost var dead, first := c.freeStart == 0, HeldBy(c);
    outcomes, snaps := [], [];
    assert !Dead([], false) && Dead([], true) by { DeadFirst(); }
    for i := 0 to |jobs|
      invariant c.Valid() && c.debug.data.Length == DEBUG_SIZE && c.Budget() == old(c.Budget())
        && |outcomes| == |snaps| == i
      invariant fresh(c.lookup.nodes - old(c.lookup.nodes))
      invariant forall k :: 0 <= k < i ==> CameTo(c, jobs, align, outcomes, snaps, dead, k)
      invariant Roomy(c, align) ==> (c.freeStart == 0 <==> Dead(outcomes, dead))
      invariant Joined(snaps, first, HeldBy(c))
    {
      ghost var o, x := NextJob(c, jobs, i, align, outcomes, snaps, dead);
      JoinedNext(snaps, x, first);
      outcomes, snaps := outcomes + [o], snaps + [x];
    }
  }

  lemma DeadFirst()
    ensures !Dead([], false) && Dead([], true)
  {
  }

  lemma DeadNext(outcomes: seq<Outcome>, o: Outcome, dead: bool, now: bool)
    ensures Dead(outcomes, dead) == now ==> Dead(outcomes + [o], dead) == Dead([o], now)
    ensures outcomes[..|outcomes|] == outcomes
  {
    assert (outcomes + [o])[..|outcomes|] == outcomes && [o][..0] == [];
    assert Dead([], now) == now;
  }
}
