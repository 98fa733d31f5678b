/** Liveness of values across the blocks of a function (jit/jit-cfg.c, `compute_global_live_sets`). */
module GlobalLiveness {
  /** The flow graph: successors of each node, values used in it before they are defined in it, and values defined,
      all by their index.  Sets that are not allocated are empty. */
  datatype Graph = Graph(succs: seq<seq<nat>>, use: seq<set<nat>>, def: seq<set<nat>>)

  predicate Valid(g: Graph) {
    && |g.use| == |g.succs| && |g.def| == |g.succs|
    && forall n, i :: 0 <= n < |g.succs| && 0 <= i < |g.succs[n]| ==> g.succs[n][i] < |g.succs|
  }

  /** An entry of `post_order`. */
  datatype Slot = Empty | Node(n: nat)

  predicate OrderValid(g: Graph, order: seq<Slot>) {
    forall i :: 0 <= i < |order| && order[i].Node? ==> order[i].n < |g.succs|
  }

  /** The values live on entry to some successor in `s`. */
  function Joined(s: seq<nat>, liveIn: seq<set<nat>>): (r: set<nat>)
    requires forall i :: 0 <= i < |s| ==> s[i] < |liveIn|
    ensures forall v :: v in r <==> exists i :: 0 <= i < |s| && v in liveIn[s[i]]
  {
    if s == [] then {} else Joined(s[..|s| - 1], liveIn) + liveIn[s[|s| - 1]]
  }

  /** The values live at the start of a node, given those live at its end. */
  function Transfer(g: Graph, n: nat, out: set<nat>): set<nat>
    requires Valid(g) && n < |g.succs|
  {
    (out - g.def[n]) + g.use[n]
  }

  // ---- What liveness means ----

  /** A way through nodes of the order from one node to another that uses the value, with no definition on the way. */
  ghost predicate Way(g: Graph, order: seq<Slot>, path: seq<nat>, v: nat)
    requires Valid(g)
  {
    && |path| > 0 && (forall i :: 0 <= i < |path| ==> path[i] < |g.succs| && Node(path[i]) in order)
    && (forall i :: 0 <= i < |path| - 1 ==> path[i + 1] in g.succs[path[i]] && v !in g.def[path[i]])
    && v in g.use[path[|path| - 1]]
  }

  ghost predicate Live(g: Graph, order: seq<Slot>, n: nat, v: nat)
    requires Valid(g)
  {
    exists path :: Way(g, order, path, v) && path[0] == n
  }

  /** The equations that hold for a solution. */
  ghost predicate Solved(g: Graph, order: seq<Slot>, liveIn: seq<set<nat>>, liveOut: seq<set<nat>>)
    requires Valid(g) && OrderValid(g, order) && |liveIn| == |liveOut| == |g.succs|
  {
    forall i :: 0 <= i < |order| && order[i].Node? ==>
      var n := order[i].n;
      liveOut[n] == Joined(g.succs[n], liveIn) && liveIn[n] == Transfer(g, n, liveOut[n])
  }

  /** Any sets that solve the equations contain all that is live. */
  lemma {:induction false} LiveInSolution(g: Graph, order: seq<Slot>, liveIn: seq<set<nat>>, liveOut: seq<set<nat>>,
                                          path: seq<nat>, v: nat)
    requires Valid(g) && OrderValid(g, order) && |liveIn| == |liveOut| == |g.succs|
    requires Solved(g, order, liveIn, liveOut) && Way(g, order, path, v)
    ensures v in liveIn[path[0]]
  {
    var k :| 0 <= k < |order| && order[k] == Node(path[0]);
    if |path| > 1 {
      var rest := path[1..];
      assert forall i :: 0 <= i < |rest| ==> rest[i] == path[i + 1];
      LiveInSolution(g, order, liveIn, liveOut, rest, v);
      var i :| 0 <= i < |g.succs[path[0]]| && g.succs[path[0]][i] == path[1];
      assert v in liveOut[path[0]];
    }
  }

  /** The sets hold only what is live, and are no larger than the equations ask for. */
  ghost predicate Sound(g: Graph, order: seq<Slot>, liveIn: seq<set<nat>>, liveOut: seq<set<nat>>)
    requires Valid(g)
  {
    && |liveIn| == |liveOut| == |g.succs|
    && (forall n, v :: 0 <= n < |g.succs| && v in liveIn[n] ==> Live(g, order, n, v))
    && (forall n :: 0 <= n < |g.succs| ==>
      liveOut[n] <= Joined(g.succs[n], liveIn) && liveIn[n] <= Transfer(g, n, liveOut[n]))
  }

  lemma LiveStep(g: Graph, order: seq<Slot>, n: nat, s: nat, v: nat)
    requires Valid(g) && n < |g.succs| && Node(n) in order && s in g.succs[n] && v !in g.def[n] && Live(g, order, s, v)
    ensures Live(g, order, n, v)
  {
    var path :| Way(g, order, path, v) && path[0] == s;
    var longer := [n] + path;
    assert Way(g, order, longer, v) && longer[0] == n;
  }

  lemma LiveUse(g: Graph, order: seq<Slot>, n: nat, v: nat)
    requires Valid(g) && n < |g.succs| && Node(n) in order && v in g.use[n]
    ensures Live(g, order, n, v)
  {
    assert Way(g, order, [n], v);
  }

  /** Looking at one node again. */
  lemma Refresh(g: Graph, order: seq<Slot>, n: nat, liveIn: seq<set<nat>>, liveOut: seq<set<nat>>)
    requires Valid(g) && Sound(g, order, liveIn, liveOut) && n < |g.succs| && Node(n) in order
    ensures var out := Joined(g.succs[n], liveIn);
      var now := liveIn[n := Transfer(g, n, out)];
      && liveOut[n] <= out && liveIn[n] <= Transfer(g, n, out) && Sound(g, order, now, liveOut[n := out])
  {
    var out := Joined(g.succs[n], liveIn);
    var now := liveIn[n := Transfer(g, n, out)];
    forall v | v in now[n] ensures Live(g, order, n, v) {
      if v in g.use[n] {
        LiveUse(g, order, n, v);
      } else {
        var i :| 0 <= i < |g.succs[n]| && v in liveIn[g.succs[n][i]];
        LiveStep(g, order, n, g.succs[n][i], v);
      }
    }
  }

  // ---- Termination ----

  function Total(s: seq<set<nat>>): nat { if s == [] then 0 else Total(s[..|s| - 1]) + |s[|s| - 1]| }

  lemma {:induction false} TotalUpdate(s: seq<set<nat>>, n: nat, x: set<nat>)
    requires n < |s|
    ensures Total(s[n := x]) == Total(s) - |s[n]| + |x|
  {
    var last := |s| - 1;
    if n < last {
      TotalUpdate(s[..last], n, x);
      assert s[n := x][..last] == s[..last][n := x];
    } else {
      assert s[n := x][..last] == s[..last];
    }
  }

  lemma {:induction false} TotalBound(s: seq<set<nat>>, all: set<nat>)
    requires forall i :: 0 <= i < |s| ==> s[i] <= all
    ensures Total(s) <= |s| * |all|
  {
    if s != [] {
      var last := |s| - 1;
      TotalBound(s[..last], all);
      SubsetSize(s[last], all);
      assert last * |all| + |all| == |s| * |all|;
    }
  }

  lemma SubsetSize(a: set<nat>, b: set<nat>)
    requires a <= b
    ensures |a| <= |b| && (|a| == |b| ==> a == b)
  {
    assert b == a + (b - a);
    assert |b| == |a| + |b - a|;
  }

  function Uses(s: seq<set<nat>>): (r: set<nat>)
    ensures forall i :: 0 <= i < |s| ==> s[i] <= r
  {
    if s == [] then {} else Uses(s[..|s| - 1]) + s[|s| - 1]
  }

  /** How much the sets could still grow. */
  ghost function Room(g: Graph, liveIn: seq<set<nat>>, liveOut: seq<set<nat>>): int {
    2 * (|g.succs| * |Uses(g.use)|) - Total(liveIn) - Total(liveOut)
  }

  lemma RoomLeft(g: Graph, order: seq<Slot>, liveIn: seq<set<nat>>, liveOut: seq<set<nat>>)
    requires Valid(g) && Sound(g, order, liveIn, liveOut)
    ensures Room(g, liveIn, liveOut) >= 0
  {
    AllUsed(g, order, liveIn, liveOut);
    hide Sound, Uses;
    TotalBound(liveIn, Uses(g.use));
    TotalBound(liveOut, Uses(g.use));
  }

  lemma AllUsed(g: Graph, order: seq<Slot>, liveIn: seq<set<nat>>, liveOut: seq<set<nat>>)
    requires Valid(g) && Sound(g, order, liveIn, liveOut)
    ensures |liveIn| == |liveOut| == |g.succs|
    ensures forall n :: 0 <= n < |g.succs| ==> liveIn[n] <= Uses(g.use) && liveOut[n] <= Uses(g.use)
  {
    forall n, v | 0 <= n < |g.succs| && v in liveIn[n] ensures v in Uses(g.use) {
      assert Live(g, order, n, v);
    }
    forall n | 0 <= n < |g.succs| ensures liveOut[n] <= Uses(g.use) {
      assert liveOut[n] <= Joined(g.succs[n], liveIn);
    }
  }

  // ---- The code ----

  /** The body of the inner loop of `compute_global_live_sets`. */
  method Visit(g: Graph, n: nat, liveIn: array<set<nat>>, liveOut: array<set<nat>>, before: bool) returns (change: bool)
    requires Valid(g) && n < |g.succs| && liveIn.Length == liveOut.Length == |g.succs| && liveIn != liveOut
    modifies liveIn, liveOut
    ensures var out := Joined(g.succs[n], old(liveIn[..]));
      && liveOut[..] == old(liveOut[..])[n := out] && liveIn[..] == old(liveIn[..])[n := Transfer(g, n, out)]
      && change == (before || liveOut[..] != old(liveOut[..]) || liveIn[..] != old(liveIn[..]))
  {
    change := before;
    var bitset: set<nat> := {};
    for i := 0 to |g.succs[n]|
      invariant bitset == Joined(g.succs[n][..i], liveIn[..])
    {
      assert g.succs[n][..i + 1][..i] == g.succs[n][..i];
      bitset := bitset + liveIn[g.succs[n][i]];
    }
    assert g.succs[n][..|g.succs[n]|] == g.succs[n];
    if liveOut[n] != bitset { change := true; }
    liveOut[n] := bitset;
    bitset := bitset - g.def[n] + g.use[n];
    if liveIn[n] != bitset { change := true; }
    liveIn[n] := bitset;
  }

  lemma Grows(g: Graph, n: nat, i: seq<set<nat>>, o: seq<set<nat>>, x: set<nat>, y: set<nat>)
    requires n < |i| == |o| && i[n] <= x && o[n] <= y
    ensures Total(i[n := x]) + Total(o[n := y]) >= Total(i) + Total(o)
    ensures i[n := x] != i || o[n := y] != o ==> Total(i[n := x]) + Total(o[n := y]) > Total(i) + Total(o)
  {
    TotalUpdate(i, n, x);
    TotalUpdate(o, n, y);
    SubsetSize(i[n], x);
    SubsetSize(o[n], y);
  }

  lemma NothingYet(g: Graph, order: seq<Slot>, liveIn: seq<set<nat>>, liveOut: seq<set<nat>>)
    requires Valid(g) && |liveIn| == |liveOut| == |g.succs|
    requires forall n :: 0 <= n < |g.succs| ==> liveIn[n] == {} && liveOut[n] == {}
    ensures Sound(g, order, liveIn, liveOut)
  {
  }

  /** One round of the outer loop: the sets only grow, and if they do not then the equations hold. */
  method OneRound(g: Graph, order: seq<Slot>, liveIn: array<set<nat>>, liveOut: array<set<nat>>) returns (change: bool)
    requires Valid(g) && OrderValid(g, order) && liveIn.Length == liveOut.Length == |g.succs| && liveIn != liveOut
    requires Sound(g, order, liveIn[..], liveOut[..])
    modifies liveIn, liveOut
    ensures Sound(g, order, liveIn[..], liveOut[..])
    ensures forall n :: 0 <= n < |g.succs| ==> old(liveIn[n]) <= liveIn[n] && old(liveOut[n]) <= liveOut[n]
    ensures change ==> Total(liveIn[..]) + Total(liveOut[..]) > old(Total(liveIn[..]) + Total(liveOut[..]))
    ensures !change ==>
      liveIn[..] == old(liveIn[..]) && liveOut[..] == old(liveOut[..]) && Solved(g, order, liveIn[..], liveOut[..])
  {
    hide Total, Sound, Joined, Transfer;
    change := false;
    ghost var i0, o0 := liveIn[..], liveOut[..];
    for index := 0 to |order|
      invariant Sound(g, order, liveIn[..], liveOut[..])
      invariant forall n :: 0 <= n < |g.succs| ==> i0[n] <= liveIn[n] && o0[n] <= liveOut[n]
      invariant if change then Total(liveIn[..]) + Total(liveOut[..]) > Total(i0) + Total(o0)
        else liveIn[..] == i0 && liveOut[..] == o0
      invariant !change ==> Solved(g, order[..index], i0, o0)
    {
      assert order[..index + 1] == order[..index] + [order[index]];
      if order[index].Node? {
        var n := order[index].n;
        ghost var i1, o1 := liveIn[..], liveOut[..];
        Refresh(g, order, n, i1, o1);
        Grows(g, n, i1, o1, Transfer(g, n, Joined(g.succs[n], i1)), Joined(g.succs[n], i1));
        change := Visit(g, n, liveIn, liveOut, change);
      }
    }
    assert order[..|order|] == order;
  }

  /** `compute_global_live_sets`.  It comes to an end, and a value is live at the start of a node if and only if there
      is a way from there to a use of it with no definition before. */
  method ComputeGlobalLiveSets(g: Graph, order: seq<Slot>, liveIn: array<set<nat>>, liveOut: array<set<nat>>)
    requires Valid(g) && OrderValid(g, order) && liveIn.Length == liveOut.Length == |g.succs| && liveIn != liveOut
    requires forall n :: 0 <= n < |g.succs| ==> liveIn[n] == {} && liveOut[n] == {}
    modifies liveIn, liveOut
    ensures Solved(g, order, liveIn[..], liveOut[..])
    ensures forall n, v :: 0 <= n < |g.succs| ==> (v in liveIn[n] <==> Live(g, order, n, v))
  {
    hide Total, Joined, Transfer, Solved;
    var change := true;
    NothingYet(g, order, liveIn[..], liveOut[..]);
    while change
      invariant Sound(g, order, liveIn[..], liveOut[..])
      invariant !change ==> Solved(g, order, liveIn[..], liveOut[..])
      decreases Room(g, liveIn[..], liveOut[..]) + if change then 1 else 0
    {
      RoomLeft(g, order, liveIn[..], liveOut[..]);
      change := OneRound(g, order, liveIn, liveOut);
      RoomLeft(g, order, liveIn[..], liveOut[..]);
    }
    forall n, v | 0 <= n < |g.succs| && Live(g, order, n, v) ensures v in liveIn[n] {
      var path :| Way(g, order, path, v) && path[0] == n;
      LiveInSolution(g, order, liveIn[..], liveOut[..], path, v);
    }
  }
}
