/** The depth-first walk of the flow graph with an explicit stack (jit/jit-cfg.c, `compute_depth_first_order`). */
module DepthFirst {
  import opened GlobalLiveness

  datatype Frame = Frame(node: nat, index: nat)

  /** A way from one node to another that does not go through `exit`. */
  ghost predicate Path(g: Graph, exit: nat, path: seq<nat>) {
    && |path| > 0 && (forall i :: 0 <= i < |path| ==> path[i] < |g.succs|)
    && forall i, j :: 0 <= i < j < |path| && j == i + 1 ==> path[j] in g.succs[path[i]] && path[j] != exit
  }

  /** Some way of at least one step leads from `entry` to `n`. */
  ghost predicate Reached(g: Graph, entry: nat, exit: nat, n: nat) {
    exists path :: Path(g, exit, path) && |path| > 1 && path[0] == entry && path[|path| - 1] == n
  }

  lemma ReachedNext(g: Graph, entry: nat, exit: nat, n: nat, s: nat)
    requires Valid(g) && entry < |g.succs| && (n == entry || Reached(g, entry, exit, n))
    requires n < |g.succs| && s in g.succs[n] && s != exit
    ensures Reached(g, entry, exit, s)
  {
    var path := [entry];
    if Reached(g, entry, exit, n) {
      path :| Path(g, exit, path) && |path| > 1 && path[0] == entry && path[|path| - 1] == n;
    }
    var longer := path + [s];
    assert forall i :: 0 <= i < |longer| ==> longer[i] == if i < |path| then path[i] else s;
    assert Path(g, exit, longer) && |longer| > 1 && longer[0] == entry && longer[|longer| - 1] == s;
  }

  predicate Distinct(s: seq<nat>) { forall i, j :: 0 <= i < j < |s| ==> s[i] != s[j] }

  lemma {:induction false} Pigeons(s: seq<nat>, all: set<nat>)
    requires Distinct(s) && forall i :: 0 <= i < |s| ==> s[i] in all
    ensures |s| <= |all|
  {
    if s != [] {
      var last := |s| - 1;
      assert s[last] in all;
      Pigeons(s[..last], all - {s[last]});
    }
  }

  /** The entry and the exit are nodes of their own, and nothing leads back to the entry. */
  predicate Flow(g: Graph, entry: nat, exit: nat) {
    && Valid(g) && entry < |g.succs| && exit < |g.succs| && entry != exit
    && forall n, i :: 0 <= n < |g.succs| && 0 <= i < |g.succs[n]| ==> g.succs[n][i] != entry
  }

  function Below(n: nat): (r: set<nat>)
    ensures |r| == n && forall x: nat :: x in r <==> x < n
  {
    if n == 0 then {} else Below(n - 1) + {n - 1}
  }

  /** The nodes in between: the `num_nodes` nodes that stand for blocks. */
  function Inner(g: Graph, entry: nat, exit: nat): (r: set<nat>)
    requires Flow(g, entry, exit)
    ensures |r| == |g.succs| - 2 && forall x: nat :: x in r <==> x < |g.succs| && x != entry && x != exit
  {
    Below(|g.succs|) - {entry, exit}
  }

  /** All successors of `n` but `exit` are in `seen`. */
  predicate Handled(g: Graph, exit: nat, seen: set<nat>, n: nat, upTo: nat)
    requires n < |g.succs| && upTo <= |g.succs[n]|
  {
    forall k :: 0 <= k < upTo ==> g.succs[n][k] == exit || g.succs[n][k] in seen
  }

  ghost predicate OnStack(stack: seq<Frame>, n: nat) { exists i :: 0 <= i < |stack| && stack[i].node == n }

  /** The frames above the first one hold different nodes, none of which is done. */
  predicate Apart(stack: seq<Frame>, done: seq<nat>) {
    && Distinct(done) && (forall i, j :: 1 <= i < j < |stack| ==> stack[i].node != stack[j].node)
    && forall i, j :: 1 <= i < |stack| && 0 <= j < |done| ==> stack[i].node != done[j]
  }

  predicate FramesValid(g: Graph, entry: nat, exit: nat, stack: seq<Frame>, seen: set<nat>) {
    && (|stack| > 0 ==> stack[0].node == entry) && (forall i :: 1 <= i < |stack| ==> stack[i].node in seen)
    && forall i :: 0 <= i < |stack| ==>
         && stack[i].node < |g.succs| && stack[i].index <= |g.succs[stack[i].node]|
         && Handled(g, exit, seen, stack[i].node, stack[i].index)
  }

  /** Nodes that were seen are on the stack or finished. */
  ghost predicate Accounted(g: Graph, entry: nat, exit: nat, stack: seq<Frame>, done: seq<nat>, seen: set<nat>)
    requires entry < |g.succs|
  {
    && (forall n :: n in seen ==> n < |g.succs| && n != entry && n != exit && Reached(g, entry, exit, n))
    && (forall n :: n in seen ==> n in done || OnStack(stack, n))
    && (forall n :: n in seen + {entry} ==> OnStack(stack, n) || Handled(g, exit, seen, n, |g.succs[n]|))
  }

  /** What the loop keeps.  `done` are the nodes that are in the order. */
  ghost predicate Walking(g: Graph, entry: nat, exit: nat, stack: seq<Frame>, done: seq<nat>, seen: set<nat>)
    requires Flow(g, entry, exit)
  {
    && Apart(stack, done) && FramesValid(g, entry, exit, stack, seen) && Accounted(g, entry, exit, stack, done, seen)
    && forall i :: 0 <= i < |done| ==> done[i] in seen
  }

  lemma PathPrefix(g: Graph, exit: nat, path: seq<nat>, n: nat)
    requires Path(g, exit, path) && 0 < n <= |path|
    ensures Path(g, exit, path[..n]) && path[..n][0] == path[0] && path[..n][n - 1] == path[n - 1]
  {
    var q := path[..n];
    forall i, j | 0 <= i < j < |q| && j == i + 1 ensures q[j] in g.succs[q[i]] && q[j] != exit {
      assert q[i] == path[i] && q[j] == path[j];
    }
    assert forall i :: 0 <= i < n ==> q[i] == path[i];
  }

  /** When the stack is empty, everything that can be reached was seen. */
  lemma {:induction false} AllSeen(g: Graph, entry: nat, exit: nat, done: seq<nat>, seen: set<nat>, path: seq<nat>)
    requires Flow(g, entry, exit) && Walking(g, entry, exit, [], done, seen)
    requires Path(g, exit, path) && path[0] == entry
    ensures path[|path| - 1] in seen + {entry} && (|path| > 1 ==> path[|path| - 1] in seen)
  {
    var last := |path| - 1;
    if last > 0 {
      var before := path[..last];
      PathPrefix(g, exit, path, last);
      AllSeen(g, entry, exit, done, seen, before);
      var n := path[last - 1];
      assert path[last] in g.succs[n] && path[last] != exit;
      hide Path;
      assert Handled(g, exit, seen, n, |g.succs[n]|);
    }
  }

  lemma StillOn(stack: seq<Frame>, more: seq<Frame>, n: nat)
    requires OnStack(stack, n) && |stack| <= |more| && forall i :: 0 <= i < |stack| ==> more[i].node == stack[i].node
    ensures OnStack(more, n)
  {
    var i :| 0 <= i < |stack| && stack[i].node == n;
    assert more[i].node == n;
  }

  /** The top frame looks at a node that was not seen. */
  predicate Finds(g: Graph, exit: nat, stack: seq<Frame>, seen: set<nat>, succ: nat) {
    && |stack| > 0 && stack[|stack| - 1].node < |g.succs| && succ != exit && succ !in seen
    && var top := stack[|stack| - 1]; top.index < |g.succs[top.node]| && g.succs[top.node][top.index] == succ
  }

  lemma Found(g: Graph, entry: nat, exit: nat, stack: seq<Frame>, done: seq<nat>, seen: set<nat>, succ: nat)
    requires Flow(g, entry, exit) && Walking(g, entry, exit, stack, done, seen) && Finds(g, exit, stack, seen, succ)
    ensures succ < |g.succs| && succ != entry && Reached(g, entry, exit, succ)
    ensures FramesValid(g, entry, exit, stack, seen + {succ}) && |stack| <= |g.succs| - 2 && |done| < |g.succs| - 2
    ensures forall n :: n in seen + {entry} ==> OnStack(stack, n) || Handled(g, exit, seen + {succ}, n, |g.succs[n]|)
  {
    var top := stack[|stack| - 1];
    assert top.node == entry || Reached(g, entry, exit, top.node);
    ReachedNext(g, entry, exit, top.node, succ);
    FewOpen(stack, seen, succ, Inner(g, entry, exit));
    FewDone(done, seen, succ, Inner(g, entry, exit));
  }

  lemma FewOpen(stack: seq<Frame>, seen: set<nat>, succ: nat, all: set<nat>)
    requires |stack| > 0 && (forall i, j :: 1 <= i < j < |stack| ==> stack[i].node != stack[j].node)
    requires (forall i :: 1 <= i < |stack| ==> stack[i].node in seen) && succ !in seen && succ in all && seen <= all
    ensures |stack| <= |all|
  {
    var open := seq(|stack| - 1, i requires 0 <= i < |stack| - 1 => stack[i + 1].node);
    assert forall i :: 0 <= i < |open| ==> open[i] == stack[i + 1].node;
    Pigeons(open + [succ], all);
  }

  lemma FewDone(done: seq<nat>, seen: set<nat>, succ: nat, all: set<nat>)
    requires Distinct(done) && (forall i :: 0 <= i < |done| ==> done[i] in seen) && succ !in seen && succ in all
      && seen <= all
    ensures |done| < |all|
  {
    Pigeons(done + [succ], all);
  }

  lemma Top(g: Graph, entry: nat, exit: nat, stack: seq<Frame>, done: seq<nat>, seen: set<nat>)
    requires Flow(g, entry, exit) && Walking(g, entry, exit, stack, done, seen) && |stack| > 0
    ensures var top := stack[|stack| - 1]; top.node < |g.succs| && top.index <= |g.succs[top.node]|
    ensures seen <= Inner(g, entry, exit)
  {
  }

  lemma Push(g: Graph, entry: nat, exit: nat, stack: seq<Frame>, done: seq<nat>, seen: set<nat>, succ: nat)
    requires Flow(g, entry, exit) && Walking(g, entry, exit, stack, done, seen) && Finds(g, exit, stack, seen, succ)
    ensures succ < |g.succs| && |stack| <= |g.succs| - 2
    ensures Walking(g, entry, exit, stack + [Frame(succ, 0)], done, seen + {succ})
  {
    hide Reached, Inner, Valid;
    var more := stack + [Frame(succ, 0)];
    Found(g, entry, exit, stack, done, seen, succ);
    assert more[|stack|].node == succ;
    forall n | OnStack(stack, n) ensures OnStack(more, n) { StillOn(stack, more, n); }
  }

  /** A node without successors is done at once. */
  lemma Leaf(g: Graph, entry: nat, exit: nat, stack: seq<Frame>, done: seq<nat>, seen: set<nat>, succ: nat)
    requires Flow(g, entry, exit) && Walking(g, entry, exit, stack, done, seen) && Finds(g, exit, stack, seen, succ)
    requires succ < |g.succs| && g.succs[succ] == []
    ensures |done| < |g.succs| - 2 && Walking(g, entry, exit, stack, done + [succ], seen + {succ})
  {
    Found(g, entry, exit, stack, done, seen, succ);
    var path :| Path(g, exit, path) && |path| > 1 && path[0] == entry && path[|path| - 1] == succ;
    assert path[1] in g.succs[entry];
    assert succ in done + [succ];
    forall n | n in done ensures n in done + [succ] { }
  }

  /** The top frame has looked at all its successors. */
  lemma Pop(g: Graph, entry: nat, exit: nat, stack: seq<Frame>, done: seq<nat>, seen: set<nat>)
    requires Flow(g, entry, exit) && Walking(g, entry, exit, stack, done, seen) && |stack| > 0
    requires var top := stack[|stack| - 1]; top.node < |g.succs| && top.index == |g.succs[top.node]|
    ensures var top := stack[|stack| - 1];
      Walking(g, entry, exit, stack[..|stack| - 1], if top.node == entry then done else done + [top.node], seen)
    ensures stack[|stack| - 1].node != entry ==> |done| < |g.succs| - 2
  {
    hide Accounted, FramesValid, Apart;
    var last := |stack| - 1;
    var top := stack[last];
    Top(g, entry, exit, stack, done, seen);
    PopAccounted(g, entry, exit, stack, done, seen);
    PopFrames(g, entry, exit, stack, seen);
    if top.node != entry {
      FreshDone(stack, done);
      Pigeons(done + [top.node], Inner(g, entry, exit));
    } else {
      SameDone(stack, done);
    }
  }

  lemma PopFrames(g: Graph, entry: nat, exit: nat, stack: seq<Frame>, seen: set<nat>)
    requires FramesValid(g, entry, exit, stack, seen) && |stack| > 0
    ensures FramesValid(g, entry, exit, stack[..|stack| - 1], seen)
    ensures (|stack| == 1 ==> stack[0].node == entry) && (|stack| > 1 ==> stack[|stack| - 1].node in seen)
  {
    hide Handled;
  }

  lemma SameDone(stack: seq<Frame>, done: seq<nat>)
    requires Apart(stack, done) && |stack| > 0
    ensures Apart(stack[..|stack| - 1], done)
  {
  }

  lemma FreshDone(stack: seq<Frame>, done: seq<nat>)
    requires Apart(stack, done) && |stack| > 1
    ensures Apart(stack[..|stack| - 1], done + [stack[|stack| - 1].node]) && Distinct(done + [stack[|stack| - 1].node])
  {
  }

  lemma PopAccounted(g: Graph, entry: nat, exit: nat, stack: seq<Frame>, done: seq<nat>, seen: set<nat>)
    requires entry < |g.succs| && FramesValid(g, entry, exit, stack, seen)
      && Accounted(g, entry, exit, stack, done, seen) && |stack| > 0
    requires var top := stack[|stack| - 1]; top.node < |g.succs| && top.index == |g.succs[top.node]|
    ensures var top := stack[|stack| - 1];
      Accounted(g, entry, exit, stack[..|stack| - 1], if top.node == entry then done else done + [top.node], seen)
  {
    var last := |stack| - 1;
    var top, less := stack[last], stack[..last];
    var now := if top.node == entry then done else done + [top.node];
    forall n | OnStack(stack, n) ensures n == top.node || OnStack(less, n) {
      var i :| 0 <= i < |stack| && stack[i].node == n;
      if i < last { assert less[i].node == n; }
    }
    forall n | n in seen && n != entry ensures n in now || OnStack(less, n) {
      if n in done { assert n in now; } else if n == top.node { assert now[|done|] == n; }
    }
    assert Handled(g, exit, seen, top.node, |g.succs[top.node]|);
  }

  /** The top frame goes on to its next successor. */
  lemma Advance(g: Graph, entry: nat, exit: nat, stack: seq<Frame>, done: seq<nat>, seen: set<nat>)
    requires Flow(g, entry, exit) && Walking(g, entry, exit, stack, done, seen) && |stack| > 0
    requires var top := stack[|stack| - 1];
      top.node < |g.succs| && top.index < |g.succs[top.node]|
        && (g.succs[top.node][top.index] == exit || g.succs[top.node][top.index] in seen)
    ensures var top := stack[|stack| - 1];
      Walking(g, entry, exit, stack[|stack| - 1 := Frame(top.node, top.index + 1)], done, seen)
  {
    var top := stack[|stack| - 1];
    var more := stack[|stack| - 1 := Frame(top.node, top.index + 1)];
    AdvanceFrames(g, entry, exit, stack, seen);
    AdvanceAccounted(g, entry, exit, stack, done, seen);
    hide FramesValid, Accounted, Flow, Reached;
  }

  lemma AdvanceFrames(g: Graph, entry: nat, exit: nat, stack: seq<Frame>, seen: set<nat>)
    requires FramesValid(g, entry, exit, stack, seen) && |stack| > 0
    requires var top := stack[|stack| - 1];
      top.node < |g.succs| && top.index < |g.succs[top.node]|
        && (g.succs[top.node][top.index] == exit || g.succs[top.node][top.index] in seen)
    ensures var top := stack[|stack| - 1];
      FramesValid(g, entry, exit, stack[|stack| - 1 := Frame(top.node, top.index + 1)], seen)
  {
  }

  lemma AdvanceAccounted(g: Graph, entry: nat, exit: nat, stack: seq<Frame>, done: seq<nat>, seen: set<nat>)
    requires entry < |g.succs| && Accounted(g, entry, exit, stack, done, seen) && |stack| > 0
    ensures var top := stack[|stack| - 1];
      Accounted(g, entry, exit, stack[|stack| - 1 := Frame(top.node, top.index + 1)], done, seen)
  {
    hide Handled;
    var top := stack[|stack| - 1];
    var more := stack[|stack| - 1 := Frame(top.node, top.index + 1)];
    forall n | OnStack(stack, n) ensures OnStack(more, n) { StillOn(stack, more, n); }
  }

  // ---- The order ----

  /** Some way leads from `n` to `m`; one without a step if they are the same. */
  ghost predicate LeadsTo(g: Graph, exit: nat, n: nat, m: nat) {
    exists path :: Path(g, exit, path) && path[0] == n && path[|path| - 1] == m
  }

  /** Each frame was pushed for a successor of the one below it. */
  ghost predicate Chained(g: Graph, exit: nat, stack: seq<Frame>) {
    && (forall i :: 0 <= i < |stack| ==> stack[i].node < |g.succs|)
    && forall i, j :: 0 <= i < j < |stack| && j == i + 1 ==>
         stack[j].node in g.succs[stack[i].node] && stack[j].node != exit
  }

  /** The successors of a node come before it, but for those that lead back to it. */
  ghost predicate After(g: Graph, exit: nat, before: seq<nat>, n: nat)
    requires n < |g.succs|
  {
    forall v :: v in g.succs[n] && v != exit ==> v in before || LeadsTo(g, exit, v, n)
  }

  ghost predicate PostOrdered(g: Graph, exit: nat, done: seq<nat>) {
    forall k :: 0 <= k < |done| ==> done[k] < |g.succs| && After(g, exit, done[..k], done[k])
  }

  lemma PostOrderedNext(g: Graph, exit: nat, done: seq<nat>, n: nat)
    requires PostOrdered(g, exit, done) && n < |g.succs| && After(g, exit, done, n)
    ensures PostOrdered(g, exit, done + [n])
  {
    hide After;
    var more := done + [n];
    forall k | 0 <= k < |more| ensures more[k] < |g.succs| && After(g, exit, more[..k], more[k]) {
      assert more[..k] == done[..k];
      if k == |done| { assert done[..k] == done; }
    }
  }

  lemma ChainedPush(g: Graph, exit: nat, stack: seq<Frame>, seen: set<nat>, succ: nat)
    requires Chained(g, exit, stack) && Finds(g, exit, stack, seen, succ) && succ < |g.succs|
    ensures Chained(g, exit, stack + [Frame(succ, 0)])
  {
  }

  lemma ChainedLess(g: Graph, exit: nat, stack: seq<Frame>, more: seq<Frame>)
    requires Chained(g, exit, stack) && |more| <= |stack|
      && forall i :: 0 <= i < |more| ==> more[i].node == stack[i].node
    ensures Chained(g, exit, more)
  {
  }

  /** The frames from `i` on are a way. */
  lemma ChainLeads(g: Graph, exit: nat, stack: seq<Frame>, i: nat)
    requires Chained(g, exit, stack) && i < |stack|
    ensures LeadsTo(g, exit, stack[i].node, stack[|stack| - 1].node)
  {
    var path := seq(|stack| - i, k requires 0 <= k < |stack| - i => stack[i + k].node);
    forall k, l | 0 <= k < l < |path| && l == k + 1 ensures path[l] in g.succs[path[k]] && path[l] != exit {
      assert path[l] == stack[i + l].node && path[k] == stack[i + k].node && i + l == i + k + 1;
    }
    assert Path(g, exit, path);
  }

  /** A node that is left: its successors are done, or still on the stack, and then they lead to it. */
  lemma PopOrdered(g: Graph, entry: nat, exit: nat, stack: seq<Frame>, done: seq<nat>, seen: set<nat>)
    requires Flow(g, entry, exit) && Walking(g, entry, exit, stack, done, seen) && |stack| > 0
    requires Chained(g, exit, stack) && PostOrdered(g, exit, done)
    requires var top := stack[|stack| - 1]; top.node < |g.succs| && top.index == |g.succs[top.node]|
    ensures PostOrdered(g, exit, done + [stack[|stack| - 1].node])
  {
    var n := stack[|stack| - 1].node;
    forall v | v in g.succs[n] && v != exit ensures v in done || LeadsTo(g, exit, v, n) {
      var k :| 0 <= k < |g.succs[n]| && g.succs[n][k] == v;
      assert v in seen;
      if v !in done {
        var i :| 0 <= i < |stack| && stack[i].node == v;
        ChainLeads(g, exit, stack, i);
      }
    }
    PostOrderedNext(g, exit, done, n);
  }

  // ---- Termination ----

  /** The looks that the frames still have to take. */
  function Looks(g: Graph, stack: seq<Frame>): nat
  {
    if stack == [] then 0
    else
      var top := stack[|stack| - 1];
      var more := if top.node < |g.succs| && top.index <= |g.succs[top.node]| then |g.succs[top.node]| - top.index
        else 0;
      Looks(g, stack[..|stack| - 1]) + more + 1
  }

  lemma SeenBound(seen: set<nat>, n: nat)
    requires forall x :: x in seen ==> x < n
    ensures |seen| <= n
  {
    SubsetSize(seen, Below(n));
  }

  // ---- The code ----

  ghost function Seen(visited: seq<bool>): (r: set<nat>)
    ensures forall n: nat :: n in r <==> n < |visited| && visited[n]
  {
    set n: nat | n < |visited| && visited[n]
  }

  function Order(done: seq<nat>, size: nat): (r: seq<Slot>)
    requires |done| <= size
    ensures |r| == size && forall i :: 0 <= i < size ==> r[i] == if i < |done| then Node(done[i]) else Empty
  {
    seq(size, i => if 0 <= i < |done| then Node(done[i]) else Empty)
  }

  /** The variables of `compute_depth_first_order`. */
  class Walk {
    const g: Graph
    const entry: nat
    const exit: nat
    const visited: array<bool>
    const order: array<Slot>
    const stack: array<Frame>
    var sp: nat
    var postOrderNum: nat
    ghost var done: seq<nat>
    ghost var seen: set<nat>

    constructor (g: Graph, entry: nat, exit: nat)
      requires Flow(g, entry, exit)
      ensures Valid() && fresh(visited) && fresh(order) && fresh(stack)
      ensures this.g == g && this.entry == entry && this.exit == exit
    {
      this.g, this.entry, this.exit := g, entry, exit;
      visited := new bool[|g.succs|](_ => false);
      order := new Slot[|g.succs| - 2](_ => Empty);
      stack := new Frame[|g.succs| - 1](_ => Frame(0, 0));
      sp, postOrderNum, done, seen := 1, 0, [], {};
      new;
      stack[0] := Frame(entry, 0);
      Start(g, entry, exit);
      assert stack[..1] == [Frame(entry, 0)];
    }

    ghost predicate Valid()
      reads this, visited, order, stack
    {
      && Flow(g, entry, exit) && visited.Length == |g.succs| && order.Length == |g.succs| - 2
        && stack.Length == |g.succs| - 1
      && sp <= stack.Length && postOrderNum == |done| <= order.Length
        && Walking(g, entry, exit, stack[..sp], done, seen)
      && seen == Seen(visited[..]) && order[..] == Order(done, order.Length)
      && Chained(g, exit, stack[..sp]) && PostOrdered(g, exit, done)
    }

    /** A successor that was not visited. */
    method Descend(succ: nat)
      requires Valid() && Finds(g, exit, stack[..sp], seen, succ)
      modifies this, visited, order, stack
      ensures Valid() && seen == old(seen) + {succ} && |seen| == |old(seen)| + 1 && |seen| <= |g.succs|
    {
      hide Walking, Seen, Order, Inner, FramesValid, Reached, OnStack, Handled, Chained, PostOrdered;
      ghost var frames := stack[..sp];
      Top(g, entry, exit, frames, done, seen);
      Found(g, entry, exit, frames, done, seen, succ);
      SeenBound(seen + {succ}, |g.succs|);
      MarkVisited(succ);
      if |g.succs[succ]| > 0 {
        Push(g, entry, exit, frames, done, seen, succ);
        ChainedPush(g, exit, frames, seen, succ);
        PushFrame(succ);
      } else {
        Leaf(g, entry, exit, frames, done, seen, succ);
        PostOrderedNext(g, exit, done, succ);
        AddNode(succ);
      }
      seen := seen + {succ};
    }

    method PushFrame(n: nat)
      requires sp < stack.Length
      modifies this`sp, stack
      ensures sp == old(sp) + 1 && sp <= stack.Length && stack[..sp] == old(stack[..sp]) + [Frame(n, 0)]
    {
      stack[sp] := Frame(n, 0);
      sp := sp + 1;
    }

    method MarkVisited(n: nat)
      requires n < visited.Length
      modifies visited
      ensures Seen(visited[..]) == Seen(old(visited[..])) + {n}
    {
      visited[n] := true;
    }

    method AddNode(n: nat)
      requires postOrderNum == |done| < order.Length && order[..] == Order(done, order.Length)
      modifies this`postOrderNum, this`done, order
      ensures done == old(done) + [n] && postOrderNum == |done| <= order.Length
        && order[..] == Order(done, order.Length)
    {
      order[postOrderNum] := Node(n);
      postOrderNum := postOrderNum + 1;
      done := done + [n];
    }

    /** The end of a node's successors. */
    method Leave()
      requires Valid() && sp > 0 && var top := stack[sp - 1]; top.node < |g.succs| && top.index == |g.succs[top.node]|
      modifies this, order
      ensures Valid() && seen == old(seen) && Looks(g, stack[..sp]) < old(Looks(g, stack[..sp]))
    {
      hide Walking, Seen, Order, Looks, Chained, PostOrdered;
      ghost var frames := stack[..sp];
      var node := stack[sp - 1].node;
      Pop(g, entry, exit, frames, done, seen);
      PopOrdered(g, entry, exit, frames, done, seen);
      ChainedLess(g, exit, frames, frames[..sp - 1]);
      if node != entry {
        AddNode(node);
      }
      sp := sp - 1;
      assert stack[..sp] == frames[..sp];
      FewerLooks(g, frames, stack[..sp]);
    }

    /** One round of the loop. */
    method Look()
      requires Valid() && sp > 0
      modifies this, visited, order, stack
      ensures Valid() && |seen| <= |g.succs|
      ensures |seen| > |old(seen)| || (seen == old(seen) && Looks(g, stack[..sp]) < old(Looks(g, stack[..sp])))
    {
      hide Walking, Seen, Order, Looks, Chained, PostOrdered;
      ghost var frames := stack[..sp];
      Top(g, entry, exit, frames, done, seen);
      SeenBound(seen, |g.succs|);
      var node, index := stack[sp - 1].node, stack[sp - 1].index;
      if index < |g.succs[node]| {
        var succ := g.succs[node][index];
        if succ != exit && !visited[succ] {
          Descend(succ);
        } else {
          Advance(g, entry, exit, frames, done, seen);
          stack[sp - 1] := Frame(node, index + 1);
          assert stack[..sp] == frames[sp - 1 := Frame(node, index + 1)];
          ChainedLess(g, exit, frames, stack[..sp]);
          FewerLooks(g, frames, stack[..sp]);
        }
      } else {
        Leave();
      }
    }
  }

  /** `compute_depth_first_order`, with the bound of a node's successors tested before they are read.  Neither the
      stack nor the order overflows, and the order has every node once that can be reached from the entry, except for
      the entry and the exit.  It is a post order: the successors of a node come before it, but for those that lead back
      to it. */
  method ComputeDepthFirstOrder(g: Graph, entry: nat, exit: nat) returns (order: array<Slot>)
    requires Flow(g, entry, exit)
    ensures order.Length == |g.succs| - 2 && OrderValid(g, order[..])
    ensures forall n :: Node(n) in order[..] <==> n != entry && Reached(g, entry, exit, n)
    ensures forall i, j :: 0 <= i < j < order.Length && order[i].Node? ==> order[i] != order[j]
    ensures forall j, v :: 0 <= j < order.Length && order[j].Node? && v in g.succs[order[j].n] && v != exit ==>
      Node(v) in order[..j] || LeadsTo(g, exit, v, order[j].n)
  {
    var walk := new Walk(g, entry, exit);
    hide Walking, Seen, Order, Looks, Reached;
    while walk.sp > 0
      invariant walk.Valid() && fresh(walk) && fresh(walk.visited) && fresh(walk.order) && fresh(walk.stack)
      decreases |g.succs| - |walk.seen|, Looks(g, walk.stack[..walk.sp])
    {
      walk.Look();
    }
    assert walk.stack[..0] == [];
    Finished(g, entry, exit, walk.done, walk.seen);
    Complete(g, walk.done, walk.order[..]);
    Successors(g, exit, walk.done, walk.order[..]);
    order := walk.order;
  }

  lemma Complete(g: Graph, done: seq<nat>, order: seq<Slot>)
    requires |done| <= |order| && order == Order(done, |order|) && Distinct(done)
    requires forall i :: 0 <= i < |done| ==> done[i] < |g.succs|
    ensures OrderValid(g, order) && forall n :: Node(n) in order <==> n in done
    ensures forall i, j :: 0 <= i < j < |order| && order[i].Node? ==> order[i] != order[j]
  {
    forall n | n in done ensures Node(n) in order {
      var i :| 0 <= i < |done| && done[i] == n;
      assert order[i] == Node(n);
    }
  }

  lemma Successors(g: Graph, exit: nat, done: seq<nat>, order: seq<Slot>)
    requires |done| <= |order| && order == Order(done, |order|) && PostOrdered(g, exit, done)
    ensures forall j, v :: 0 <= j < |order| && order[j].Node? && v in g.succs[order[j].n] && v != exit ==>
      Node(v) in order[..j] || LeadsTo(g, exit, v, order[j].n)
  {
    hide LeadsTo;
    forall j, v | 0 <= j < |order| && order[j].Node? && v in g.succs[order[j].n] && v != exit
      ensures Node(v) in order[..j] || LeadsTo(g, exit, v, order[j].n)
    {
      assert After(g, exit, done[..j], done[j]);
      if v in done[..j] {
        var i :| 0 <= i < j && done[i] == v;
        assert order[..j][i] == Node(v);
      }
    }
  }

  lemma Start(g: Graph, entry: nat, exit: nat)
    requires Flow(g, entry, exit)
    ensures Walking(g, entry, exit, [Frame(entry, 0)], [], {})
  {
    assert [Frame(entry, 0)][0].node == entry;
  }

  lemma FewerLooks(g: Graph, stack: seq<Frame>, less: seq<Frame>)
    requires |stack| > 0
    requires less != stack[..|stack| - 1] ==>
      var top := stack[|stack| - 1];
      top.node < |g.succs| && top.index < |g.succs[top.node]|
        && less == stack[|stack| - 1 := Frame(top.node, top.index + 1)]
    ensures Looks(g, less) < Looks(g, stack)
  {
    if |less| == |stack| { assert less[..|stack| - 1] == stack[..|stack| - 1]; }
  }

  lemma Finished(g: Graph, entry: nat, exit: nat, done: seq<nat>, seen: set<nat>)
    requires Flow(g, entry, exit) && Walking(g, entry, exit, [], done, seen)
    ensures Distinct(done) && forall n :: n in done <==> n != entry && Reached(g, entry, exit, n)
    ensures forall i :: 0 <= i < |done| ==> done[i] < |g.succs|
  {
    forall n | n != entry && Reached(g, entry, exit, n) ensures n in done {
      var path :| Path(g, exit, path) && |path| > 1 && path[0] == entry && path[|path| - 1] == n;
      AllSeen(g, entry, exit, done, seen, path);
    }
    forall n | n in done ensures n != entry && Reached(g, entry, exit, n) {
      var i :| 0 <= i < |done| && done[i] == n;
    }
  }

  /** With this order the result of the liveness analysis is about all ways through the graph. */
  lemma EveryWay(g: Graph, entry: nat, exit: nat, order: seq<Slot>, path: seq<nat>, v: nat)
    requires Flow(g, entry, exit) && (forall n :: Node(n) in order <==> n != entry && Reached(g, entry, exit, n))
    requires Path(g, exit, path) && path[0] != entry && Reached(g, entry, exit, path[0])
    requires (forall i :: 0 <= i < |path| - 1 ==> v !in g.def[path[i]]) && v in g.use[path[|path| - 1]]
    ensures Live(g, order, path[0], v)
  {
    forall i | 0 <= i < |path| ensures Node(path[i]) in order { AllReached(g, entry, exit, path, i); }
    assert Way(g, order, path, v);
  }

  lemma {:induction false} AllReached(g: Graph, entry: nat, exit: nat, path: seq<nat>, i: nat)
    requires Flow(g, entry, exit) && Path(g, exit, path) && path[0] != entry && Reached(g, entry, exit, path[0])
      && i < |path|
    ensures path[i] != entry && Reached(g, entry, exit, path[i])
  {
    if i > 0 {
      AllReached(g, entry, exit, path, i - 1);
      assert path[i] in g.succs[path[i - 1]] && path[i] != exit;
      ReachedNext(g, entry, exit, path[i - 1], path[i]);
    }
  }
}
