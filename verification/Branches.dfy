/** Branch threading and branch removal (jit/jit-block.c, `_jit_block_peephole_branch`). */
module Branches {
  /** `Branch` stands for all conditional branches, `Work` for all instructions that are no branches.  A label is a
      number, its `tag`. */
  datatype Insn = Jump(tag: int) | Branch(cond: int, tag: int) | Work(id: int) | Return(id: int)

  const UNDEFINED: int := -1    // jit_label_undefined

  datatype Block = Block(tag: int, code: seq<Insn>, viaTop: bool, viaBranch: bool, endsInDead: bool)

  predicate Entered(b: Block) { b.viaTop || b.viaBranch }

  /** What `compile` generates for the block: nothing if it is never entered. */
  function Code(b: Block): seq<Insn> { if Entered(b) then b.code else [] }

  /** Labels are used once, and branches name labels. */
  predicate Labelled(p: seq<Block>) {
    && (forall i, j :: 0 <= i < j < |p| && p[i].tag != UNDEFINED ==> p[i].tag != p[j].tag)
    && forall i, k :: 0 <= i < |p| && 0 <= k < |p[i].code| ==>
         (p[i].code[k].Jump? || p[i].code[k].Branch?) ==> p[i].code[k].tag != UNDEFINED
  }

  /** `jit_block_from_label`: the block with the label, or the end of the function if there is none. */
  function Find(p: seq<Block>, tag: int): (i: nat)
    ensures i <= |p| && (i < |p| ==> p[i].tag == tag) && (forall j :: 0 <= j < i ==> p[j].tag != tag)
  {
    if p == [] || p[0].tag == tag then 0 else Find(p[1..], tag) + 1
  }

  // ---- Running a function ----

  datatype Config = At(block: nat, insn: nat, events: seq<Insn>) | Done(events: seq<Insn>)

  type Oracle = (int, seq<Insn>) -> bool

  /** Whether the condition of a branch holds, after the given events. */
  function Decide(d: Oracle, cond: int, events: seq<Insn>): bool { d(cond, events) }

  function Step(d: Oracle, p: seq<Block>, c: Config): (c': Config)
    ensures c.events <= c'.events
  {
    match c
    case Done(_) => c
    case At(i, k, events) =>
      if i >= |p| then Done(events)
      else if k >= |Code(p[i])| then At(i + 1, 0, events)
      else
        var n := Code(p[i])[k];
        match n
        case Jump(tag) => At(Find(p, tag), 0, events)
        case Branch(cond, tag) => if Decide(d, cond, events) then At(Find(p, tag), 0, events) else At(i, k + 1, events)
        case Work(_) => At(i, k + 1, events + [n])
        case Return(_) => Done(events + [n])
  }

  function Run(d: Oracle, p: seq<Block>, n: nat, c: Config): (c': Config)
    ensures c.events <= c'.events
  {
    if n == 0 then c else Run(d, p, n - 1, Step(d, p, c))
  }

  lemma {:induction false} RunMore(d: Oracle, p: seq<Block>, n: nat, m: nat, c: Config)
    ensures Run(d, p, n + m, c) == Run(d, p, m, Run(d, p, n, c))
  {
    hide Step;
    if n > 0 { RunMore(d, p, n - 1, m, Step(d, p, c)); }
  }

  /** Started at `c`, the function at some time has had these events, and has or has not come to an end. */
  ghost predicate Shows(d: Oracle, p: seq<Block>, c: Config, events: seq<Insn>, done: bool) {
    exists n: nat :: Run(d, p, n, c).events == events && Run(d, p, n, c).Done? == done
  }

  /** Nobody can tell `p` and `q` apart, wherever they are started. */
  ghost predicate SameRuns(p: seq<Block>, q: seq<Block>) {
    forall d: Oracle, c: Config, events, done :: Shows(d, p, c, events, done) <==> Shows(d, q, c, events, done)
  }

  // ---- The code ----

  /** `block_is_empty_or_dead`. */
  predicate EmptyOrDead(b: Block)
    ensures EmptyOrDead(b) <==> Code(b) == []
  {
    if b.code == [] then true else !b.viaTop && !b.viaBranch
  }

  /** `block_branches_to_next`, for the block before `j`. */
  predicate BranchesToNext(p: seq<Block>, j: nat, tag: int)
    decreases |p| - j
  {
    if j >= |p| then false
    else if p[j].tag == tag then true
    else if EmptyOrDead(p[j]) then BranchesToNext(p, j + 1, tag)
    else if |p[j].code| > 1 then false
    else if p[j].code[0].Jump? then BranchesToNext(p, j + 1, p[j].code[0].tag) && BranchesToNext(p, j + 1, tag)
    else false
  }

  /** The first block from `i` on that is neither empty nor dead. */
  function SkipEmpty(p: seq<Block>, i: nat): (r: nat)
    requires i <= |p|
    ensures i <= r <= |p| && (r < |p| ==> Code(p[r]) != []) && forall j :: i <= j < r ==> Code(p[j]) == []
    decreases |p| - i
  {
    if i < |p| && EmptyOrDead(p[i]) then SkipEmpty(p, i + 1) else i
  }

  /** Follow `tag` through blocks that only jump, `count` links at most, and not past the block's own label. */
  function Thread(p: seq<Block>, own: int, tag: int, count: nat): int
    decreases count
  {
    if tag == own || count == 0 then tag
    else
      var i := SkipEmpty(p, Find(p, tag));
      if i == |p| || |p[i].code| > 1 || !p[i].code[0].Jump? then tag
      else Thread(p, own, p[i].code[0].tag, count - 1)
  }

  predicate EndsInBranch(b: Block) { b.code != [] && (b.code[|b.code| - 1].Jump? || b.code[|b.code| - 1].Branch?) }

  function Threaded(p: seq<Block>, b: nat): (q: seq<Block>)
    requires b < |p| && EndsInBranch(p[b])
    ensures |q| == |p| && EndsInBranch(q[b])
  {
    var last := |p[b].code| - 1;
    p[b := p[b].(code := p[b].code[last := p[b].code[last].(tag := Thread(p, p[b].tag, p[b].code[last].tag, 32))])]
  }

  function Removed(p: seq<Block>, b: nat): seq<Block>
    requires b + 1 < |p| && p[b].code != []
  {
    p[b := p[b].(code := p[b].code[..|p[b].code| - 1], endsInDead := false)][b + 1 := p[b + 1].(viaTop := true)]
  }

  /** `_jit_block_peephole_branch`. */
  function Peephole(p: seq<Block>, b: nat): (r: seq<Block>)
    requires b < |p|
    ensures |r| == |p|
  {
    if !EndsInBranch(p[b]) then p
    else
      var q := Threaded(p, b);
      if BranchesToNext(q, b + 1, q[b].code[|q[b].code| - 1].tag) then Removed(q, b) else q
  }

  /** The search of the target: the loop over links. */
  method FollowLinks(blocks: array<Block>, own: int, start: int) returns (tag: int)
    ensures tag == Thread(blocks[..], own, start, 32)
  {
    tag := start;
    var count := 32;
    while tag != own && count > 0
      invariant 0 <= count <= 32
      invariant Thread(blocks[..], own, start, 32) == Thread(blocks[..], own, tag, count)
      decreases count
    {
      var newBlock := Find(blocks[..], tag);
      ghost var first := newBlock;
      while newBlock < blocks.Length && EmptyOrDead(blocks[newBlock])
        invariant newBlock <= blocks.Length && SkipEmpty(blocks[..], first) == SkipEmpty(blocks[..], newBlock)
        decreases blocks.Length - newBlock
      {
        newBlock := newBlock + 1;
      }
      if newBlock == blocks.Length {
        break;
      }
      if |blocks[newBlock].code| > 1 {
        break;
      }
      var newInsn := blocks[newBlock].code[0];
      if !newInsn.Jump? {
        break;
      }
      tag := newInsn.tag;
      count := count - 1;
    }
  }

  method PeepholeBranch(blocks: array<Block>, b: nat)
    requires b < blocks.Length
    modifies blocks
    ensures blocks[..] == Peephole(old(blocks[..]), b)
  {
    if !EndsInBranch(blocks[b]) {
      return;
    }
    ghost var p := blocks[..];
    var last := |blocks[b].code| - 1;
    var insn := blocks[b].code[last];
    var tag := FollowLinks(blocks, blocks[b].tag, insn.tag);
    blocks[b] := blocks[b].(code := blocks[b].code[last := insn.(tag := tag)]);
    assert blocks[..] == Threaded(p, b);
    if BranchesToNext(blocks[..], b + 1, tag) {
      blocks[b] := blocks[b].(code := blocks[b].code[..last], endsInDead := false);
      blocks[b + 1] := blocks[b + 1].(viaTop := true);
    }
  }

  // ---- How far it goes ----

  /** The label leads to a block that does nothing but jump. */
  predicate JumpsOn(p: seq<Block>, tag: int) {
    var i := SkipEmpty(p, Find(p, tag));
    i < |p| && |Code(p[i])| == 1 && Code(p[i])[0].Jump?
  }

  /** Where `n` such jumps lead to, as far as there are so many. */
  function Links(p: seq<Block>, tag: int, n: nat): int
    decreases n
  {
    if n == 0 || !JumpsOn(p, tag) then tag else Links(p, Code(p[SkipEmpty(p, Find(p, tag))])[0].tag, n - 1)
  }

  /** A threaded branch leads to no block that does nothing but jump, unless it is cut off at its own label or after 32
      links. */
  lemma {:induction false} ThreadEnds(p: seq<Block>, own: int, tag: int, count: nat) returns (n: nat)
    ensures n <= count && Thread(p, own, tag, count) == Links(p, tag, n)
    ensures forall i :: 0 <= i < n ==> Links(p, tag, i) != own && JumpsOn(p, Links(p, tag, i))
    ensures var end := Thread(p, own, tag, count); end == own || n == count || !JumpsOn(p, end)
    decreases count
  {
    hide Find, SkipEmpty;
    n := 0;
    if tag != own && count > 0 && JumpsOn(p, tag) {
      var next := Code(p[SkipEmpty(p, Find(p, tag))])[0].tag;
      n := ThreadEnds(p, own, next, count - 1);
      n := n + 1;
      forall i | 0 <= i < n ensures Links(p, tag, i) != own && JumpsOn(p, Links(p, tag, i)) {
        assert i > 0 ==> Links(p, tag, i) == Links(p, next, i - 1);
      }
    }
  }

  /** Control passes block `i`: it does nothing, or only jumps to what comes next anyway. */
  predicate FallsThrough(p: seq<Block>, i: nat)
    requires i < |p|
  {
    Code(p[i]) == []
    || (|Code(p[i])| == 1 && Code(p[i])[0].Jump? && BranchesToNext(p, i + 1, Code(p[i])[0].tag))
  }

  /** The label is at block `e`, and control falls through from `j` to there. */
  predicate FallsTo(p: seq<Block>, j: nat, tag: int, e: nat) {
    j <= e < |p| && p[e].tag == tag && forall i :: j <= i < e ==> FallsThrough(p, i)
  }

  ghost predicate FallsSomewhere(p: seq<Block>, j: nat, tag: int) { exists e :: FallsTo(p, j, tag, e) }

  /** Exactly when the scan says that a branch goes to the next block. */
  lemma {:induction false} ScanIff(p: seq<Block>, j: nat, tag: int)
    ensures BranchesToNext(p, j, tag) <==> FallsSomewhere(p, j, tag)
    decreases |p| - j
  {
    hide FallsThrough;
    if j < |p| {
      if p[j].tag == tag {
        assert FallsTo(p, j, tag, j);
      } else {
        ScanIff(p, j + 1, tag);
        ScanStep(p, j, tag);
        FallsOn(p, j, tag);
      }
    }
  }

  lemma FallsOn(p: seq<Block>, j: nat, tag: int)
    requires j < |p| && p[j].tag != tag
    ensures FallsSomewhere(p, j, tag) <==> FallsThrough(p, j) && FallsSomewhere(p, j + 1, tag)
  {
    hide FallsThrough;
    if FallsSomewhere(p, j, tag) {
      var e :| FallsTo(p, j, tag, e);
      assert FallsTo(p, j + 1, tag, e);
    }
    if FallsThrough(p, j) && FallsSomewhere(p, j + 1, tag) {
      var e :| FallsTo(p, j + 1, tag, e);
      assert FallsTo(p, j, tag, e);
    }
  }

  lemma ScanStep(p: seq<Block>, j: nat, tag: int)
    requires j < |p| && p[j].tag != tag
    ensures BranchesToNext(p, j, tag) <==> FallsThrough(p, j) && BranchesToNext(p, j + 1, tag)
  {
  }

  /** And then, and only then, the branch is removed. */
  lemma RemovedIff(p: seq<Block>, b: nat)
    requires b < |p| && EndsInBranch(p[b])
    ensures var q, last := Threaded(p, b), |p[b].code| - 1;
      Peephole(p, b)[b].code
        == if FallsSomewhere(q, b + 1, q[b].code[last].tag) then p[b].code[..last] else q[b].code
  {
    var q, last := Threaded(p, b), |p[b].code| - 1;
    ScanIff(q, b + 1, q[b].code[last].tag);
  }

  // ---- When two functions behave alike ----

  /** From `c` on, both get to the same place without an event. */
  ghost predicate Meets(d: Oracle, p: seq<Block>, q: seq<Block>, c: Config) {
    exists m: nat, n: nat :: m > 0 && n > 0 && Run(d, p, m, c) == Run(d, q, n, c) && Silent(c, Run(d, p, m, c))
  }

  predicate Silent(c: Config, c': Config) { c.At? && c'.At? && c'.events == c.events }

  ghost predicate Alike(d: Oracle, p: seq<Block>, q: seq<Block>) {
    forall c: Config :: Step(d, p, c) == Step(d, q, c) || Meets(d, p, q, c)
  }

  lemma {:induction false} SilentBefore(d: Oracle, p: seq<Block>, n: nat, m: nat, c: Config)
    requires n <= m && Silent(c, Run(d, p, m, c))
    ensures Silent(c, Run(d, p, n, c))
  {
    RunMore(d, p, n, m - n, c);
    if Run(d, p, n, c).Done? { StaysDone(d, p, m - n, Run(d, p, n, c)); }
  }

  lemma {:induction false} StaysDone(d: Oracle, p: seq<Block>, n: nat, c: Config)
    requires c.Done?
    ensures Run(d, p, n, c) == c
  {
    if n > 0 { StaysDone(d, p, n - 1, c); }
  }

  /** Whatever `p` shows, `q` shows too. */
  lemma {:induction false} Follows(d: Oracle, p: seq<Block>, q: seq<Block>, n: nat, c: Config) returns (m: nat)
    requires Alike(d, p, q)
    ensures Run(d, q, m, c).events == Run(d, p, n, c).events && Run(d, q, m, c).Done? == Run(d, p, n, c).Done?
    decreases n
  {
    hide Step, Silent;
    if n == 0 {
      m := 0;
    } else if Step(d, p, c) == Step(d, q, c) {
      m := Follows(d, p, q, n - 1, Step(d, p, c));
      m := m + 1;
    } else {
      var i: nat, j: nat :| i > 0 && j > 0 && Run(d, p, i, c) == Run(d, q, j, c) && Silent(c, Run(d, p, i, c));
      if n < i {
        SilentBefore(d, p, n, i, c);
        m := 0;
      } else {
        m := Follows(d, p, q, n - i, Run(d, p, i, c));
        RunMore(d, p, i, n - i, c);
        RunMore(d, q, j, m, c);
        m := j + m;
      }
    }
  }

  lemma AlikeBack(d: Oracle, p: seq<Block>, q: seq<Block>)
    requires Alike(d, p, q)
    ensures Alike(d, q, p)
  {
    forall c: Config | Meets(d, p, q, c) ensures Meets(d, q, p, c) {
      var m: nat, n: nat :| m > 0 && n > 0 && Run(d, p, m, c) == Run(d, q, n, c) && Silent(c, Run(d, p, m, c));
      assert Run(d, q, n, c) == Run(d, p, m, c);
    }
  }

  lemma AlikeSame(p: seq<Block>, q: seq<Block>)
    requires forall d: Oracle :: Alike(d, p, q)
    ensures SameRuns(p, q)
  {
    forall d: Oracle, c: Config, events, done
      ensures Shows(d, p, c, events, done) <==> Shows(d, q, c, events, done)
    {
      if Shows(d, p, c, events, done) {
        var n: nat :| Run(d, p, n, c).events == events && Run(d, p, n, c).Done? == done;
        var m := Follows(d, p, q, n, c);
      }
      AlikeBack(d, p, q);
      if Shows(d, q, c, events, done) {
        var n: nat :| Run(d, q, n, c).events == events && Run(d, q, n, c).Done? == done;
        var m := Follows(d, q, p, n, c);
      }
    }
  }

  lemma {:induction false} FindSame(p: seq<Block>, q: seq<Block>, tag: int)
    requires |p| == |q| && forall i :: 0 <= i < |p| ==> p[i].tag == q[i].tag
    ensures Find(p, tag) == Find(q, tag)
  {
    if p != [] && p[0].tag != tag { FindSame(p[1..], q[1..], tag); }
  }

  // ---- Threading ----

  lemma {:induction false} SkipRuns(d: Oracle, p: seq<Block>, i: nat, events: seq<Insn>)
    requires i <= |p|
    ensures Run(d, p, SkipEmpty(p, i) - i, At(i, 0, events)) == At(SkipEmpty(p, i), 0, events)
    decreases |p| - i
  {
    if i < |p| && EmptyOrDead(p[i]) { SkipRuns(d, p, i + 1, events); }
  }

  lemma ThenOne(d: Oracle, p: seq<Block>, n: nat, c: Config, m: nat)
    ensures Run(d, p, n + (m + 1), c) == Run(d, p, m, Step(d, p, Run(d, p, n, c)))
  {
    hide Step;
    RunMore(d, p, n, m + 1, c);
  }

  lemma JumpStep(d: Oracle, p: seq<Block>, i: nat, events: seq<Insn>)
    requires i < |p| && Code(p[i]) != [] && p[i].code[0].Jump?
    ensures Step(d, p, At(i, 0, events)) == At(Find(p, p[i].code[0].tag), 0, events)
  {
  }

  /** One link, and what follows. */
  lemma LinkRuns(d: Oracle, p: seq<Block>, from: nat, i: nat, n: nat, events: seq<Insn>)
    requires from <= |p| && i == SkipEmpty(p, from) && i < |p| && p[i].code[0].Jump?
    ensures Run(d, p, i - from + (n + 1), At(from, 0, events)) == Run(d, p, n, At(Find(p, p[i].code[0].tag), 0, events))
  {
    hide Step, Find, Run;
    SkipRuns(d, p, from, events);
    JumpStep(d, p, i, events);
    ThenOne(d, p, i - from, At(from, 0, events), n);
  }

  /** The function itself goes from the old target to the new one without an event. */
  lemma {:induction false} ThreadRuns(d: Oracle, p: seq<Block>, own: int, tag: int, count: nat, events: seq<Insn>)
    returns (n: nat)
    ensures Run(d, p, n, At(Find(p, tag), 0, events)) == At(Find(p, Thread(p, own, tag, count)), 0, events)
    decreases count
  {
    hide Find, SkipEmpty, Step;
    n := 0;
    if tag != own && count > 0 {
      var i := SkipEmpty(p, Find(p, tag));
      if i < |p| && |p[i].code| <= 1 && p[i].code[0].Jump? {
        n := ThreadRuns(d, p, own, p[i].code[0].tag, count - 1, events);
        LinkRuns(d, p, Find(p, tag), i, n, events);
        n := i - Find(p, tag) + (n + 1);
      }
    }
  }

  lemma ThreadedCode(p: seq<Block>, b: nat, i: nat)
    requires b < |p| && EndsInBranch(p[b]) && i < |p|
    ensures var q, last := Threaded(p, b), |p[b].code| - 1;
      && (forall j :: 0 <= j < |p| ==> q[j].tag == p[j].tag) && |Code(q[i])| == |Code(p[i])|
      && forall k :: 0 <= k < |Code(p[i])| ==>
           Code(q[i])[k] == if i == b && k == last then p[b].code[last].(tag := q[b].code[last].tag) else Code(p[i])[k]
    ensures Code(p[b]) == p[b].code || Code(p[b]) == []
  {
  }

  /** A step is the same, or the branch is taken. */
  lemma ThreadedStep(d: Oracle, p: seq<Block>, b: nat, c: Config)
    requires b < |p| && EndsInBranch(p[b])
    ensures var q, last := Threaded(p, b), |p[b].code| - 1;
      || Step(d, p, c) == Step(d, q, c)
      || (Step(d, p, c) == At(Find(p, p[b].code[last].tag), 0, c.events)
        && Step(d, q, c) == At(Find(p, q[b].code[last].tag), 0, c.events))
  {
    var q, last := Threaded(p, b), |p[b].code| - 1;
    if c.At? && c.block < |p| {
      ThreadedCode(p, b, c.block);
      hide Find, Thread, Threaded, Code;
      if c.insn < |Code(p[c.block])| {
        var n, m := Code(p[c.block])[c.insn], Code(q[c.block])[c.insn];
        if n.Jump? || n.Branch? {
          FindSame(p, q, n.tag);
          FindSame(p, q, m.tag);
        }
      }
    }
  }

  lemma ThreadedMeets(d: Oracle, p: seq<Block>, b: nat, c: Config)
    requires b < |p| && EndsInBranch(p[b])
    ensures Step(d, p, c) == Step(d, Threaded(p, b), c) || Meets(d, p, Threaded(p, b), c)
  {
    var q, last := Threaded(p, b), |p[b].code| - 1;
    var was, now := p[b].code[last].tag, q[b].code[last].tag;
    ThreadedStep(d, p, b, c);
    hide Step, Find, Thread;
    if Step(d, p, c) != Step(d, q, c) {
      var n := ThreadRuns(d, p, p[b].tag, was, 32, c.events);
      assert Run(d, p, n + 1, c) == Run(d, p, n, Step(d, p, c)) == At(Find(p, now), 0, c.events);
      assert Run(d, q, 1, c) == Run(d, q, 0, Step(d, q, c));
    }
  }

  /** Threading a branch cannot be noticed, even where it goes round in circles. */
  lemma ThreadedSame(p: seq<Block>, b: nat)
    requires b < |p| && EndsInBranch(p[b])
    ensures SameRuns(p, Threaded(p, b))
  {
    hide Step, Meets, Threaded;
    forall d: Oracle ensures Alike(d, p, Threaded(p, b)) {
      forall c: Config ensures Step(d, p, c) == Step(d, Threaded(p, b), c) || Meets(d, p, Threaded(p, b), c) {
        ThreadedMeets(d, p, b, c);
      }
    }
    AlikeSame(p, Threaded(p, b));
  }

  // ---- Removal ----

  /** Where control goes from the start of block `j` without an event; `j` itself if there is one. */
  function Hop(p: seq<Block>, j: nat): (h: nat)
    requires j <= |p|
    ensures h <= |p|
  {
    if j == |p| then j
    else if Code(p[j]) == [] then j + 1
    else if |Code(p[j])| == 1 && Code(p[j])[0].Jump? then Find(p, Code(p[j])[0].tag)
    else j
  }

  /** Hops that only go forward lead from block `j` to block `e`. */
  predicate Leads(p: seq<Block>, j: nat, e: nat)
    requires j <= |p|
    decreases |p| - j
  {
    j == e || (Hop(p, j) > j && Leads(p, Hop(p, j), e))
  }

  /** Control gets from both to the same block. */
  ghost predicate Join(p: seq<Block>, i: nat, j: nat)
    requires i <= |p| && j <= |p|
  {
    exists e :: Leads(p, i, e) && Leads(p, j, e)
  }

  lemma {:induction false} LeadsOn(p: seq<Block>, i: nat, j: nat, e: nat)
    requires i <= |p| && j <= |p| && Leads(p, i, j) && Leads(p, j, e)
    ensures Leads(p, i, e)
    decreases |p| - i
  {
    if i != j { LeadsOn(p, Hop(p, i), j, e); }
  }

  lemma {:induction false} LeadsWithin(p: seq<Block>, i: nat, e: nat)
    requires i <= |p| && Leads(p, i, e)
    ensures i <= e <= |p|
    decreases |p| - i
  {
    if i != e { LeadsWithin(p, Hop(p, i), e); }
  }

  /** There is one way only. */
  lemma {:induction false} OneWay(p: seq<Block>, i: nat, j: nat, e: nat)
    requires i <= |p| && j <= |p| && e <= |p| && Leads(p, i, j) && Leads(p, i, e)
    ensures Leads(p, j, e) || Leads(p, e, j)
    decreases |p| - i
  {
    if i != j && i != e { OneWay(p, Hop(p, i), j, e); }
  }

  lemma JoinBoth(p: seq<Block>, a: nat, b: nat, c: nat)
    requires a <= |p| && b <= |p| && c <= |p| && Join(p, a, b) && Join(p, a, c)
    ensures Join(p, b, c)
  {
    var e :| Leads(p, a, e) && Leads(p, b, e);
    var f :| Leads(p, a, f) && Leads(p, c, f);
    LeadsWithin(p, a, e);
    LeadsWithin(p, a, f);
    OneWay(p, a, e, f);
    if Leads(p, e, f) { LeadsOn(p, b, e, f); } else { LeadsOn(p, c, f, e); }
  }

  lemma JoinHop(p: seq<Block>, j: nat, b: nat)
    requires j < |p| && b <= |p| && Hop(p, j) > j && Join(p, Hop(p, j), b)
    ensures Join(p, j, b)
  {
    var e :| Leads(p, Hop(p, j), e) && Leads(p, b, e);
    assert Leads(p, j, e);
  }

  lemma FindLabelled(p: seq<Block>, j: nat)
    requires Labelled(p) && j < |p| && p[j].tag != UNDEFINED
    ensures Find(p, p[j].tag) == j
  {
  }

  /** What the scan answers: falling through gets to the label's code, or past the label to where that code gets too. */
  lemma {:induction false} ScanJoins(p: seq<Block>, j: nat, tag: int)
    requires Labelled(p) && tag != UNDEFINED && BranchesToNext(p, j, tag)
    ensures j <= Find(p, tag) < |p| && Join(p, j, Find(p, tag))
    decreases |p| - j
  {
    var y := Find(p, tag);
    if p[j].tag == tag {
      FindLabelled(p, j);
      assert Leads(p, j, j);
    } else {
      ScanJoins(p, j + 1, tag);
      if Code(p[j]) == [] {
        JoinHop(p, j, y);
      } else {
        var next := p[j].code[0].tag;
        ScanJoins(p, j + 1, next);
        JoinBoth(p, j + 1, Find(p, next), y);
        JoinHop(p, j, y);
      }
    }
  }

  lemma {:induction false} LeadsRuns(d: Oracle, p: seq<Block>, j: nat, e: nat, events: seq<Insn>) returns (n: nat)
    requires j <= |p| && Leads(p, j, e)
    ensures Run(d, p, n, At(j, 0, events)) == At(e, 0, events)
    decreases |p| - j
  {
    n := 0;
    if j != e {
      n := LeadsRuns(d, p, Hop(p, j), e, events);
      assert Step(d, p, At(j, 0, events)) == At(Hop(p, j), 0, events);
      n := n + 1;
    }
  }

  /** Changes to the blocks up to `b` do not matter to ways that start after them. */
  lemma {:induction false} LeadsSame(p: seq<Block>, q: seq<Block>, b: nat, j: nat, e: nat)
    requires |p| == |q| && b < j <= |p| && Leads(p, j, e)
    requires forall i :: 0 <= i < |p| ==> p[i].tag == q[i].tag && (i != b ==> Code(p[i]) == Code(q[i]))
    ensures Leads(q, j, e)
    decreases |p| - j
  {
    if j != e {
      forall tag ensures Find(p, tag) == Find(q, tag) { FindSame(p, q, tag); }
      LeadsSame(p, q, b, Hop(p, j), e);
    }
  }

  /** The next block would come to life again. */
  predicate Revives(p: seq<Block>, b: nat)
    requires b < |p|
  {
    b + 1 < |p| && !Entered(p[b + 1]) && p[b + 1].code != []
  }

  predicate Removable(p: seq<Block>, b: nat)
    requires b < |p|
  {
    EndsInBranch(p[b]) && BranchesToNext(p, b + 1, p[b].code[|p[b].code| - 1].tag)
  }

  lemma RemovedMeets(d: Oracle, p: seq<Block>, b: nat, events: seq<Insn>)
    requires Labelled(p) && b < |p| && Removable(p, b) && !Revives(p, b) && Entered(p[b]) && b + 1 < |p|
    ensures Meets(d, p, Removed(p, b), At(b, |p[b].code| - 1, events))
  {
    hide Find, Hop, BranchesToNext, Join;
    var q, last := Removed(p, b), |p[b].code| - 1;
    var tag, c := p[b].code[last].tag, At(b, last, events);
    assert Step(d, q, c) == At(b + 1, 0, events);
    if Step(d, p, c) == At(b, last + 1, events) {
      assert Step(d, p, At(b, last + 1, events)) == At(b + 1, 0, events);
      assert Run(d, p, 2, c) == Run(d, p, 1, Step(d, p, c)) == Run(d, p, 0, At(b + 1, 0, events));
      assert Run(d, q, 1, c) == Run(d, q, 0, Step(d, q, c));
      assert Run(d, p, 2, c) == Run(d, q, 1, c);
    } else {
      ScanJoins(p, b + 1, tag);
      var y := Find(p, tag);
      var e :| Leads(p, b + 1, e) && Leads(p, y, e);
      LeadsSame(p, q, b, b + 1, e);
      var m := LeadsRuns(d, p, y, e, events);
      var n := LeadsRuns(d, q, b + 1, e, events);
      assert Run(d, p, m + 1, c) == At(e, 0, events) == Run(d, q, n + 1, c);
    }
  }

  /** Removing a branch cannot be noticed, unless the next block is dead code. */
  lemma RemovedSame(p: seq<Block>, b: nat)
    requires Labelled(p) && b < |p| && Removable(p, b) && !Revives(p, b)
    ensures b + 1 < |p| && SameRuns(p, Removed(p, b))
  {
    hide Meets, Step;
    var last := |p[b].code| - 1;
    ScanJoins(p, b + 1, p[b].code[last].tag);
    var q := Removed(p, b);
    forall d: Oracle ensures Alike(d, p, q) {
      forall c: Config ensures Step(d, p, c) == Step(d, q, c) || Meets(d, p, q, c) {
        if c == At(b, last, c.events) && Entered(p[b]) {
          RemovedMeets(d, p, b, c.events);
        } else {
          RemovedElsewhere(d, p, b, c);
        }
      }
    }
    AlikeSame(p, q);
  }

  lemma RemovedElsewhere(d: Oracle, p: seq<Block>, b: nat, c: Config)
    requires b + 1 < |p| && p[b].code != [] && !Revives(p, b)
    requires !(c.At? && c.block == b && c.insn == |p[b].code| - 1 && Entered(p[b]))
    ensures Step(d, p, c) == Step(d, Removed(p, b), c)
  {
    var q := Removed(p, b);
    if c.At? && c.block < |p| {
      var i, k := c.block, c.insn;
      assert k < |Code(p[i])| ==> k < |Code(q[i])| && Code(q[i])[k] == Code(p[i])[k];
      assert k >= |Code(p[i])| ==> k >= |Code(q[i])|;
      forall tag ensures Find(p, tag) == Find(q, tag) { FindSame(p, q, tag); }
    }
  }

  /** Dead code in the next block that does something, or returns, is executed after the removal, and was not before. */
  lemma RevivedDiffers(d: Oracle, p: seq<Block>, b: nat, events: seq<Insn>)
    requires b < |p| && Removable(p, b) && Revives(p, b) && Entered(p[b])
      && (p[b + 1].code[0].Work? || p[b + 1].code[0].Return?)
    requires p[b + 1].code[0] !in events && forall i :: 0 <= i < |p| ==> p[b + 1].code[0] !in Code(p[i])
    ensures var w := p[b + 1].code[0]; var c, more := At(b, |p[b].code| - 1, events), events + [w];
      Shows(d, Removed(p, b), c, more, w.Return?) && !Shows(d, p, c, more, w.Return?)
  {
    var q, w, c := Removed(p, b), p[b + 1].code[0], At(b, |p[b].code| - 1, events);
    assert Run(d, q, 2, c) == Run(d, q, 1, At(b + 1, 0, events)) == Run(d, q, 0, Step(d, q, At(b + 1, 0, events)));
    assert Run(d, q, 2, c).events == events + [w] && Run(d, q, 2, c).Done? == w.Return?;
    forall n: nat ensures Run(d, p, n, c).events != events + [w] {
      Never(d, p, n, c, w);
      assert w in events + [w];
    }
  }

  lemma {:induction false} Never(d: Oracle, p: seq<Block>, n: nat, c: Config, w: Insn)
    requires w !in c.events && forall i :: 0 <= i < |p| ==> w !in Code(p[i])
    ensures w !in Run(d, p, n, c).events
  {
    if n > 0 { Never(d, p, n - 1, Step(d, p, c), w); }
  }

  // ---- The whole function ----

  /** "If the block is never entered, then replace it with empty." */
  function Discarded(p: seq<Block>, b: nat): seq<Block>
    requires b < |p|
  {
    if Entered(p[b]) then p else p[b := p[b].(code := [])]
  }

  function From(p: seq<Block>, b: nat): (r: seq<Block>)
    requires b <= |p|
    ensures |r| == |p|
    decreases |p| - b
  {
    if b == |p| then p else From(Peephole(Discarded(p, b), b), b + 1)
  }

  /** The part of `_jit_function_compute_liveness` that looks at branches. */
  method PeepholeAll(blocks: array<Block>)
    modifies blocks
    ensures blocks[..] == From(old(blocks[..]), 0)
  {
    var b := 0;
    while b < blocks.Length
      invariant 0 <= b <= blocks.Length && From(blocks[..], b) == From(old(blocks[..]), 0)
    {
      ghost var p := blocks[..];
      if !blocks[b].viaTop && !blocks[b].viaBranch {
        blocks[b] := blocks[b].(code := []);
      }
      assert blocks[..] == Discarded(p, b);
      PeepholeBranch(blocks, b);
      b := b + 1;
    }
  }

  /** No removal on the way brings dead code to life. */
  predicate NoneRevived(p: seq<Block>, b: nat)
    requires b <= |p|
    decreases |p| - b
  {
    b < |p| ==>
      var q := Discarded(p, b);
      && (EndsInBranch(q[b]) && Removable(Threaded(q, b), b) ==> !Revives(q, b))
      && NoneRevived(Peephole(q, b), b + 1)
  }

  lemma ThreadLabelled(p: seq<Block>, own: int, tag: int, count: nat)
    requires Labelled(p) && tag != UNDEFINED
    ensures Thread(p, own, tag, count) != UNDEFINED
    decreases count
  {
    if tag != own && count > 0 {
      var i := SkipEmpty(p, Find(p, tag));
      if i < |p| && |p[i].code| <= 1 && p[i].code[0].Jump? { ThreadLabelled(p, own, p[i].code[0].tag, count - 1); }
    }
  }

  lemma ThreadedLabels(p: seq<Block>, b: nat)
    requires Labelled(p) && b < |p| && EndsInBranch(p[b])
    ensures Labelled(Threaded(p, b))
  {
    ThreadLabelled(p, p[b].tag, p[b].code[|p[b].code| - 1].tag, 32);
  }

  lemma KeepsLabels(p: seq<Block>, b: nat)
    requires Labelled(p) && b < |p|
    ensures Labelled(Discarded(p, b)) && Labelled(Peephole(p, b)) && (EndsInBranch(p[b]) ==> Labelled(Threaded(p, b)))
  {
    hide Threaded, Removed, Labelled;
    DiscardedLabels(p, b);
    if EndsInBranch(p[b]) {
      ThreadedLabels(p, b);
      var q := Threaded(p, b);
      if Removable(q, b) { RemovedLabels(q, b); }
    }
  }

  lemma DiscardedLabels(p: seq<Block>, b: nat)
    requires Labelled(p) && b < |p|
    ensures Labelled(Discarded(p, b))
  {
  }

  lemma RemovedLabels(p: seq<Block>, b: nat)
    requires Labelled(p) && b + 1 < |p| && p[b].code != []
    ensures Labelled(Removed(p, b))
  {
  }

  lemma DiscardedSame(p: seq<Block>, b: nat)
    requires b < |p|
    ensures SameRuns(p, Discarded(p, b))
  {
    var q := Discarded(p, b);
    forall d: Oracle ensures Alike(d, p, q) {
      forall tag ensures Find(p, tag) == Find(q, tag) { FindSame(p, q, tag); }
    }
    AlikeSame(p, q);
  }

  lemma Chained(p: seq<Block>, q: seq<Block>, r: seq<Block>)
    requires SameRuns(p, q) && SameRuns(q, r)
    ensures SameRuns(p, r)
  {
  }

  lemma PeepholeSame(p: seq<Block>, b: nat)
    requires Labelled(p) && b < |p| && (EndsInBranch(p[b]) && Removable(Threaded(p, b), b) ==> !Revives(p, b))
    ensures SameRuns(p, Peephole(p, b))
  {
    if EndsInBranch(p[b]) {
      ThreadedSame(p, b);
      KeepsLabels(p, b);
      var q := Threaded(p, b);
      if Removable(q, b) {
        RemovedSame(q, b);
        Chained(p, q, Removed(q, b));
      }
    }
  }

  /** Nobody can tell the function from what the pass leaves of it. */
  lemma {:induction false} PassSame(p: seq<Block>, b: nat)
    requires Labelled(p) && b <= |p| && NoneRevived(p, b)
    ensures SameRuns(p, From(p, b))
    decreases |p| - b
  {
    hide SameRuns;
    if b < |p| {
      var q := Discarded(p, b);
      DiscardedSame(p, b);
      KeepsLabels(p, b);
      KeepsLabels(q, b);
      PeepholeSame(q, b);
      PassSame(Peephole(q, b), b + 1);
      Chained(p, q, Peephole(q, b));
      Chained(p, Peephole(q, b), From(p, b));
    } else {
      SameSelf(p);
    }
  }

  lemma SameSelf(p: seq<Block>)
    ensures SameRuns(p, p)
  {
  }

  /** Blocks that are never entered are empty already. */
  predicate DeadEmpty(p: seq<Block>) { forall i :: 0 <= i < |p| && !Entered(p[i]) ==> p[i].code == [] }

  lemma {:induction false} NothingToRevive(p: seq<Block>, b: nat)
    requires b <= |p| && DeadEmpty(p)
    ensures NoneRevived(p, b)
    decreases |p| - b
  {
    if b < |p| {
      assert Discarded(p, b) == p;
      assert DeadEmpty(Peephole(p, b));
      NothingToRevive(Peephole(p, b), b + 1);
    }
  }

  /** After the pass, blocks that are never entered are empty. */
  lemma {:induction false} NoDeadCode(p: seq<Block>, b: nat)
    requires b <= |p| && forall i :: 0 <= i < b && !Entered(p[i]) ==> p[i].code == []
    ensures DeadEmpty(From(p, b))
    decreases |p| - b
  {
    if b < |p| {
      var q := Peephole(Discarded(p, b), b);
      assert forall i :: 0 <= i < b ==> q[i] == p[i];
      assert !Entered(q[b]) ==> q[b].code == [];
      NoDeadCode(q, b + 1);
    }
  }

  /** `goto L; work; L: return`: the pass removes the branch, and with it goes the reason not to do the work. */
  lemma SkippedCodeRuns()
    ensures var p := [Block(UNDEFINED, [Jump(1)], true, false, true), Block(UNDEFINED, [Work(9)], false, false, false),
                      Block(1, [Return(2)], true, true, true)];
      Labelled(p) && !SameRuns(p, From(p, 0))
  {
    var p := [Block(UNDEFINED, [Jump(1)], true, false, true), Block(UNDEFINED, [Work(9)], false, false, false),
              Block(1, [Return(2)], true, true, true)];
    var d: Oracle := (_, _) => true;
    assert BranchesToNext(p, 2, 1) && BranchesToNext(p, 1, 1);
    assert Find(p[1..], 1) == 1 && Find(p, 1) == 2;
    assert Thread(p, UNDEFINED, 1, 32) == 1 by { assert SkipEmpty(p, 2) == 2; }
    var q := Removed(p, 0);
    assert Threaded(p, 0) == p by { assert p[0].code[0 := Jump(1)] == p[0].code; }
    assert Peephole(Discarded(p, 0), 0) == q;
    assert Peephole(Discarded(q, 1), 1) == q && Peephole(Discarded(q, 2), 2) == q;
    assert From(q, 3) == q && From(q, 2) == q && From(q, 1) == q;
    RevivedDiffers(d, p, 0, []);
  }
}
