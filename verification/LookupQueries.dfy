/** The searches of the method lookup tree, each proved against a plain pass over the in-order list of regions. */
module LookupQueries {
  import opened RedBlack
  import opened LookupTrees
  import opened Wrappers

  predicate Holds(n: Node, pc: int)
    reads n`end
  {
    n.start <= pc < n.end
  }

  /** The regions do not overlap. */
  ghost predicate Spaced(s: seq<Node>)
    reads s`end
  {
    && (forall i :: 0 <= i < |s| ==> s[i].start <= s[i].end)
    && (forall i, j :: 0 <= i < j < |s| ==> s[i].end <= s[j].start)
  }

  function Elems(s: seq<Node>): set<Node> { set n | n in s }

  /** A region that is apart from all others can be put in its place. */
  lemma SpacedInserted(s: seq<Node>, n: Node)
    requires Sorted(s) && Spaced(s) && !Taken(s, n.start) && n.start <= n.end
    requires forall x :: x in s ==> x.end <= n.start || n.end <= x.start
    ensures Spaced(Inserted(s, n)) && Elems(Inserted(s, n)) == Elems(s) + {n}
  {
    hide Spaced, Inserted;
    SpacedOrder(s);
    var k := Place(s, n);
    var a, b := s[..k], s[k..];
    assert s == a + b;
    forall i | 0 <= i < |a| ensures a[i].end <= n.start { assert a[i] in s && a[i] == s[i]; }
    forall i | 0 <= i < |b| ensures n.end <= b[i].start { assert b[i] in s && b[i] == s[k + i]; }
    SpacedAround(a, n, b);
    InsertedMembers(s, n);
  }

  lemma {:induction false} InsertedMembers(s: seq<Node>, n: Node)
    ensures forall x :: x in Inserted(s, n) <==> x == n || x in s
  {
    if s != [] && s[0].start <= n.start {
      InsertedMembers(s[1..], n);
      assert s == [s[0]] + s[1..];
    }
  }

  lemma SpacedOrder(s: seq<Node>)
    requires Spaced(s)
    ensures forall n :: n in s ==> n.start <= n.end
  {
  }

  lemma SpacedAround(a: seq<Node>, n: Node, b: seq<Node>)
    requires Spaced(a + b) && n.start <= n.end
    requires forall i :: 0 <= i < |a| ==> a[i].end <= n.start
    requires forall i :: 0 <= i < |b| ==> n.end <= b[i].start
    ensures Spaced(a + [n] + b)
  {
    var s, t := a + [n] + b, a + b;
    forall i | 0 <= i < |s|
      ensures s[i] == (if i < |a| then a[i] else if i == |a| then n else b[i - |a| - 1])
      ensures s[i].start <= s[i].end
    {
      if i != |a| { assert s[i] == t[if i < |a| then i else i - 1]; }
    }
    forall i, j | 0 <= i < j < |s| ensures s[i].end <= s[j].start {
      if i < |a| && |a| < j { assert t[i] == a[i] && t[j - 1] == b[j - |a| - 1]; }
      if j < |a| { assert t[i] == a[i] && t[j] == a[j]; }
      if |a| < i { assert t[i - 1] == b[i - |a| - 1] && t[j - 1] == b[j - |a| - 1]; }
    }
  }

  lemma {:induction false} Place(s: seq<Node>, n: Node) returns (k: nat)
    requires Sorted(s)
    ensures k <= |s| && Inserted(s, n) == s[..k] + [n] + s[k..]
    ensures (forall i :: 0 <= i < k ==> s[i].start <= n.start) && (forall i :: k <= i < |s| ==> n.start < s[i].start)
  {
    if s == [] || n.start < s[0].start { return 0; }
    k := Place(s[1..], n);
    assert s == [s[0]] + s[1..];
    assert [s[0]] + (s[1..][..k] + [n] + s[1..][k..]) == s[..k + 1] + [n] + s[k + 1..];
    assert forall i :: 1 <= i < |s| ==> s[i] == s[1..][i - 1];
    k := k + 1;
  }

  /** A plain scan: the first region that contains `pc`, or null. */
  ghost function Scan(s: seq<Node>, pc: int): (n: Node?)
    reads s`end
    ensures n != null ==> n in s && Holds(n, pc)
  {
    if s == [] then null else if Holds(s[0], pc) then s[0] else Scan(s[1..], pc)
  }

  lemma {:induction false} ScanSkip(a: seq<Node>, b: seq<Node>, pc: int)
    requires forall i :: 0 <= i < |a| ==> !Holds(a[i], pc)
    ensures Scan(a + b, pc) == Scan(b, pc)
  {
    if a == [] {
      assert a + b == b;
    } else {
      assert (a + b)[1..] == a[1..] + b;
      ScanSkip(a[1..], b, pc);
    }
  }

  lemma {:induction false} ScanStop(a: seq<Node>, b: seq<Node>, pc: int)
    requires forall i :: 0 <= i < |b| ==> !Holds(b[i], pc)
    ensures Scan(a + b, pc) == Scan(a, pc)
  {
    if a == [] {
      ScanSkip(b, [], pc);
      assert a + b == b == b + [];
    } else {
      assert (a + b)[1..] == a[1..] + b;
      ScanStop(a[1..], b, pc);
    }
  }

  /** The scan finds the one region that contains `pc`, or there is none. */
  lemma {:induction false} ScanFinds(s: seq<Node>, pc: int)
    requires Spaced(s)
    ensures forall n :: n in s && Holds(n, pc) ==> Scan(s, pc) == n
    ensures Scan(s, pc) != null ==> Scan(s, pc) in s && Holds(Scan(s, pc), pc)
  {
    if s != [] {
      assert forall i :: 0 <= i < |s[1..]| ==> s[1..][i] == s[i + 1];
      ScanFinds(s[1..], pc);
      assert forall n :: n in s ==> n == s[0] || n in s[1..];
    }
  }

  lemma SpacedParts(l: seq<Node>, n: Node, r: seq<Node>)
    requires Spaced(l + [n] + r)
    ensures Spaced(l) && Spaced(r) && n.start <= n.end
    ensures forall i :: 0 <= i < |l| ==> l[i].end <= n.start
    ensures forall i :: 0 <= i < |r| ==> n.end <= r[i].start
  {
    var s := l + [n] + r;
    assert s[|l|] == n;
    assert forall i :: 0 <= i < |l| ==> s[i] == l[i];
    assert forall i :: 0 <= i < |r| ==> s[|l| + 1 + i] == r[i];
  }

  /** One comparison of the search: the other side of the node cannot contain `pc`. */
  lemma ScanTurn(l: seq<Node>, n: Node, r: seq<Node>, pc: int)
    requires Spaced(l + [n] + r)
    ensures pc < n.start ==> Scan(l + [n] + r, pc) == Scan(l, pc)
    ensures pc >= n.end ==> Scan(l + [n] + r, pc) == Scan(r, pc)
    ensures Holds(n, pc) ==> Scan(l + [n] + r, pc) == n
  {
    SpacedParts(l, n, r);
    if pc >= n.end {
      ScanSkip(l + [n], r, pc);
    } else {
      assert l + [n] + r == l + ([n] + r);
      if pc < n.start { ScanStop(l, [n] + r, pc); } else { ScanSkip(l, [n] + r, pc); }
    }
  }

  /** One step of the search down the tree. */
  lemma SearchStep(m: Links, nil: Node, node: Node, t: Tree, pc: int)
    requires Rep(m, nil, node, t) && node != nil && Spaced(InOrder(t))
    ensures t.Br? && t.n == node && node in m
    ensures var s, l, r := InOrder(t), InOrder(t.l), InOrder(t.r);
      if pc < node.start then Rep(m, nil, m[node].left, t.l) && Spaced(l) && Scan(s, pc) == Scan(l, pc)
      else if pc >= node.end then Rep(m, nil, m[node].right, t.r) && Spaced(r) && Scan(s, pc) == Scan(r, pc)
      else Scan(s, pc) == node
    ensures Height(t.l) < Height(t) && Height(t.r) < Height(t)
  {
    SpacedParts(InOrder(t.l), t.n, InOrder(t.r));
    ScanTurn(InOrder(t.l), t.n, InOrder(t.r), pc);
  }

  lemma SearchStart(cache: LookupTree)
    requires cache.Valid()
    ensures cache.head in cache.nodes && Rep(cache.Mem(), cache.nil, cache.head.right, cache.tree)
    ensures InOrder(cache.tree) == cache.Regions()
  {
    assert cache.Mem()[cache.head].right == cache.head.right;
  }

  lemma SearchEnd(m: Links, nil: Node, t: Tree, pc: int)
    requires Rep(m, nil, nil, t)
    ensures Scan(InOrder(t), pc) == null
  {
  }

  lemma {:induction false} EachInNodes(t: Tree)
    ensures forall i :: 0 <= i < |InOrder(t)| ==> InOrder(t)[i] in Nodes(t)
  {
    if t.Br? {
      EachInNodes(t.l);
      EachInNodes(t.r);
    }
  }

  lemma InNodes(cache: LookupTree)
    requires cache.Valid()
    ensures forall i :: 0 <= i < |cache.Regions()| ==> cache.Regions()[i] in cache.nodes
  {
    assert cache.Mem().Keys == Nodes(cache.tree) + {cache.head, cache.nil} && cache.Mem().Keys == cache.nodes;
    EachInNodes(cache.tree);
  }

  lemma FewSteps(cache: LookupTree, steps: nat)
    requires cache.Valid() && steps <= Height(cache.tree)
    ensures Pow2(steps) <= (|cache.Regions()| + 1) * (|cache.Regions()| + 1)
  {
    DepthBound(cache.tree);
    Pow2Monotone(steps, Height(cache.tree));
  }

  /** The region that contains `pc`, found in at most 2*log2(n+1) steps. */
  method FindRegion(cache: LookupTree, pc: int) returns (node: Node, ghost steps: nat)
    requires cache.Valid() && Spaced(cache.Regions())
    ensures Scan(cache.Regions(), pc) == null ==> node == cache.nil
    ensures Scan(cache.Regions(), pc) != null ==>
      node == Scan(cache.Regions(), pc) && Holds(node, pc) && node != cache.nil
    ensures Pow2(steps) <= (|cache.Regions()| + 1) * (|cache.Regions()| + 1)
  {
    hide LookupTree.Valid, LookupTree.Regions, Spaced, Coloured, Pow2, Rep, InOrder, Scan, Height;
    ghost var m, t := cache.Mem(), cache.tree;
    SearchStart(cache);
    node := cache.head.right;
    steps := 0;
    while node != cache.nil
      invariant Rep(m, cache.nil, node, t) && Spaced(InOrder(t))
      invariant Scan(InOrder(t), pc) == Scan(cache.Regions(), pc)
      invariant steps + Height(t) <= Height(cache.tree)
      decreases t
    {
      steps := steps + 1;
      SearchStep(m, cache.nil, node, t, pc);
      assert m[node] == Link(node.left, node.right, node.red);
      if pc < node.start {
        node, t := node.left, t.l;
      } else if pc >= node.end {
        node, t := node.right, t.r;
      } else {
        break;
      }
    }
    if node == cache.nil { SearchEnd(m, cache.nil, t, pc); }
    FewSteps(cache, steps);
  }

  /** `_jit_cache_get_method`: the method and cookie of the region that contains `pc`. */
  method GetMethod(cache: LookupTree, pc: int) returns (r: Option<(int, int)>)
    requires cache.Valid() && Spaced(cache.Regions())
    ensures var n := Scan(cache.Regions(), pc); r == if n == null then None else Some((n.owner, n.cookie))
  {
    var node, _ := FindRegion(cache, pc);
    r := if node == cache.nil then None else Some((node.owner, node.cookie));
  }

  // ---- The end of a method ----

  /** The position of the last region in the run of regions of one method that starts at `k`. */
  function RunEnd(s: seq<Node>, k: nat): (m: nat)
    requires k < |s|
    ensures k <= m < |s|
    ensures forall i :: k <= i <= m ==> s[i].owner == s[k].owner
    ensures m + 1 < |s| ==> s[m + 1].owner != s[k].owner
    decreases |s| - k
  {
    if k + 1 < |s| && s[k + 1].owner == s[k].owner then RunEnd(s, k + 1) else k
  }

  /** The nodes on a path, from the root down: what the stack of parents holds. */
  function Ancestors(c: Path): seq<Node> { if c.Top? then [] else Ancestors(c.up) + [c.n] }

  /** The walk stands at the sub-tree `t` below the path `c`, with the path's nodes on its stack. */
  ghost predicate Walking(m: Links, cache: LookupTree, c: Path, p: Node?, t: Tree, parents: seq<Node>)
    reads cache
  {
    && m.Keys == cache.nodes && NilIn(cache, m)
    && At(m, cache.head, cache.nil, c, p, t) && Join(c, t) == cache.tree && parents == Ancestors(c)
  }

  ghost predicate NilIn(cache: LookupTree, m: Links) {
    cache.nil in m && m[cache.nil] == Link(cache.nil, cache.nil, false)
  }

  lemma WalkDown(m: Links, cache: LookupTree, c: Path, t: Tree, parents: seq<Node>)
    requires t.Br? && Walking(m, cache, c, t.n, t, parents)
    ensures t.n in m && Walking(m, cache, InL(c, t.n, t.red, t.r), m[t.n].left, t.l, parents + [t.n])
    ensures Walking(m, cache, InR(c, t.l, t.n, t.red), m[t.n].right, t.r, parents + [t.n])
  {
    HangAt(m, cache.head, cache.nil, InL(c, t.n, t.red, t.r), m[t.n].left, t.l);
    HangAt(m, cache.head, cache.nil, InR(c, t.l, t.n, t.red), m[t.n].right, t.r);
  }

  lemma WalkUp(m: Links, cache: LookupTree, c: Path, p: Node?, t: Tree, parents: seq<Node>)
    requires !c.Top? && Walking(m, cache, c, p, t, parents)
    ensures parents != [] && parents[|parents| - 1] == c.n && c.n in m
    ensures Walking(m, cache, c.up, c.n, Hung(c, t), parents[..|parents| - 1])
    ensures t.Br? ==> (m[c.n].left == t.n <==> c.InL?)
  {
    HangAt(m, cache.head, cache.nil, c, p, t);
  }

  /** Where the walk is in the list of all regions. */
  lemma WalkIndex(c: Path, t: Tree)
    requires t.Br?
    ensures var s, i := InOrder(Join(c, t)), |Before(c)| + |InOrder(t.l)|;
      && i < |s| && s[i] == t.n && |s| == |Before(c)| + |InOrder(t)| + |After(c)|
  {
    JoinInOrder(c, t);
  }

  lemma {:induction false} JoinHeight(c: Path, t: Tree)
    ensures |Ancestors(c)| + Height(t) <= Height(Join(c, t))
  {
    match c
    case Top =>
    case InL(up, n, red, r) => JoinHeight(up, Br(t, n, red, r));
    case InR(up, l, n, red) => JoinHeight(up, Br(l, n, red, t));
  }

  lemma Sixteen(depth: nat, n: nat)
    requires Pow2(depth) <= n * n && n <= 362
    ensures depth <= 16
  {
    SquareMonotone(n, 362);
    assert Pow2(17) == 131072 by { Pow2Sum(8, 9); assert Pow2(4) == 16 && Pow2(8) == 256; }
    if depth > 16 { Pow2Monotone(17, depth); }
  }

  /** The stack of ancestors never holds more than 2*log2(n+1) nodes: its buffer of 16 is enough for 361 regions. */
  lemma StackBound(cache: LookupTree, m: Links, c: Path, p: Node?, t: Tree, parents: seq<Node>)
    requires cache.Valid() && Walking(m, cache, c, p, t, parents)
    ensures Pow2(|parents|) <= (|cache.Regions()| + 1) * (|cache.Regions()| + 1)
    ensures |cache.Regions()| <= 361 ==> |parents| <= 16
  {
    JoinHeight(c, t);
    FewSteps(cache, |parents|);
    if |cache.Regions()| <= 361 { Sixteen(|parents|, |cache.Regions()| + 1); }
  }

  /** A stack of `max` places could not be doubled, and that is not more than the tree may need. */
  predicate NoRoomAt(max: nat, regions: nat, granted: nat -> bool) {
    max >= 16 && !granted(2 * max) && Pow2(max + 1) <= (regions + 1) * (regions + 1)
  }

  ghost predicate NoRoom(regions: nat, granted: nat -> bool) { exists max :: NoRoomAt(max, regions, granted) }

  /** `add_parent`.  The first 16 places are on the C stack; `granted` says for which numbers of places the system has
      memory. */
  function AddParent(parents: seq<Node>, max: nat, granted: nat -> bool, node: Node): (r: (bool, seq<Node>, nat))
    requires |parents| <= max && max >= 16
    ensures if r.0 then r.1 == parents + [node] && |r.1| <= r.2 && r.2 >= max
            else |parents| == max && !granted(2 * max)
  {
    if |parents| < max then (true, parents + [node], max)
    else if granted(2 * max) then (true, parents + [node], 2 * max)
    else (false, parents, max)
  }

  /** With few regions the buffer is never outgrown. */
  lemma AlwaysRoom(regions: nat, granted: nat -> bool)
    requires regions <= 361
    ensures !NoRoom(regions, granted)
  {
    forall max: nat ensures !NoRoomAt(max, regions, granted) {
      if max >= 16 && Pow2(max + 1) <= (regions + 1) * (regions + 1) { Sixteen(max + 1, regions + 1); }
    }
  }

  lemma Outgrown(cache: LookupTree, m: Links, c: Path, p: Node?, t: Tree, parents: seq<Node>, max: nat,
                 granted: nat -> bool)
    requires cache.Valid() && Walking(m, cache, c, p, t, parents) && |parents| == max + 1 && max >= 16
    requires !granted(2 * max)
    ensures NoRoom(|cache.Regions()|, granted)
  {
    StackBound(cache, m, c, p, t, parents);
    assert NoRoomAt(max, |cache.Regions()|, granted);
  }

  /** Move down the left-most sub-tree of the right sub-tree. */
  method FirstOfRight(cache: LookupTree, node: Node, parents: seq<Node>, max: nat, granted: nat -> bool,
                      ghost c: Path, ghost t: Tree)
    returns (ok: bool, next: Node, parents': seq<Node>, max': nat, ghost c': Path, ghost t': Tree)
    requires cache.Valid() && 16 <= max && |parents| <= max
    requires t.Br? && t.r.Br? && Walking(cache.Mem(), cache, c, node, t, parents)
    ensures !ok ==> NoRoom(|cache.Regions()|, granted)
    ensures ok ==> t'.Br? && t'.l == Leaf && Walking(cache.Mem(), cache, c', next, t', parents')
    ensures ok ==> |parents'| <= max' && max' >= 16 && |Before(c')| == |Before(c)| + |InOrder(t.l)| + 1
  {
    hide LookupTree.Valid, LookupTree.Regions, Walking, NoRoom, InOrder, Before;
    ghost var m := cache.Mem();
    WalkLinks(m, cache, c, node, t, parents);
    WalkDown(m, cache, c, t, parents);
    assert m[node] == Link(node.left, node.right, node.red);
    next, c', t' := node.right, InR(c, t.l, t.n, t.red), t.r;
    BeforeRight(c, t);
    var added := AddParent(parents, max, granted, node);
    ok, parents', max' := added.0, added.1, added.2;
    if !ok {
      Outgrown(cache, m, c', next, t', parents + [node], max, granted);
      return;
    }
    WalkLinks(m, cache, c', next, t', parents');
    assert m[next] == Link(next.left, next.right, next.red);
    while next.left != cache.nil
      invariant t'.Br? && Walking(m, cache, c', next, t', parents') && |parents'| <= max' && max' >= 16
      invariant |Before(c')| == |Before(c)| + |InOrder(t.l)| + 1
      invariant next == t'.n && next in m && m[next] == Link(next.left, next.right, next.red)
      invariant next.left != null && (next.left != cache.nil <==> t'.l.Br?)
      decreases t'
    {
      WalkDown(m, cache, c', t', parents');
      ghost var p0, m0 := parents', max';
      added := AddParent(parents', max', granted, next);
      ok, parents', max' := added.0, added.1, added.2;
      BeforeLeft(c', t');
      c', t', next := InL(c', t'.n, t'.red, t'.r), t'.l, next.left;
      if !ok {
        Outgrown(cache, m, c', next, t', p0 + [c'.n], m0, granted);
        return;
      }
      WalkLinks(m, cache, c', next, t', parents');
      assert m[next] == Link(next.left, next.right, next.red);
    }
  }

  lemma BeforeRight(c: Path, t: Tree)
    requires t.Br?
    ensures |Before(InR(c, t.l, t.n, t.red))| == |Before(c)| + |InOrder(t.l)| + 1
  {
  }

  lemma BeforeLeft(c: Path, t: Tree)
    requires t.Br?
    ensures Before(InL(c, t.n, t.red, t.r)) == Before(c)
  {
  }

  /** The links of the node where the walk is. */
  lemma WalkLinks(m: Links, cache: LookupTree, c: Path, p: Node?, t: Tree, parents: seq<Node>)
    requires t.Br? && Walking(m, cache, c, p, t, parents)
    ensures p != null && p == t.n && p in m && m.Keys == cache.nodes
    ensures m[p].left != null && m[p].right != null
    ensures (m[p].left != cache.nil <==> t.l.Br?) && (m[p].right != cache.nil <==> t.r.Br?)
  {
    assert Rep(m, cache.nil, m[p].left, t.l) && Rep(m, cache.nil, m[p].right, t.r);
  }

  /** Find an ancestor that contains the node within its left sub-tree. */
  method Climb(cache: LookupTree, node: Node, parents: seq<Node>, ghost c: Path, ghost t: Tree)
    returns (next: Node?, parents': seq<Node>, ghost c': Path, ghost t': Tree)
    requires t.Br? && Walking(cache.Mem(), cache, c, node, t, parents)
    ensures |parents'| <= |parents|
    ensures next == null ==> |Before(c)| + |InOrder(t)| == |InOrder(cache.tree)|
    ensures next != null ==> t'.Br? && |Before(c')| + |InOrder(t'.l)| == |Before(c)| + |InOrder(t)|
                             && Walking(cache.Mem(), cache, c', next, t', parents')
  {
    ghost var m := cache.Mem();
    parents', c', t' := parents, c, t;
    var at := node;
    while |parents'| != 0
      invariant t'.Br? && Walking(m, cache, c', at, t', parents') && |parents'| <= |parents|
      invariant |Before(c')| + |InOrder(t')| == |Before(c)| + |InOrder(t)|
      decreases c'
    {
      WalkUp(m, cache, c', at, t', parents');
      var parent := parents'[|parents'| - 1];
      parents' := parents'[..|parents'| - 1];
      assert m[parent] == Link(parent.left, parent.right, parent.red);
      c', t' := c'.up, Hung(c', t');
      if parent.left == at {
        next := parent;
        return;
      }
      at := parent;
    }
    next := null;
    JoinInOrder(c', t');
  }

  /** Move to the next region in address order, or to null after the last. */
  method Next(cache: LookupTree, node: Node, parents: seq<Node>, max: nat, granted: nat -> bool, ghost c: Path,
              ghost t: Tree)
    returns (ok: bool, next: Node?, parents': seq<Node>, max': nat, ghost c': Path, ghost t': Tree)
    requires cache.Valid() && 16 <= max && |parents| <= max
    requires t.Br? && Walking(cache.Mem(), cache, c, node, t, parents)
    ensures !ok ==> NoRoom(|cache.Regions()|, granted)
    ensures ok ==>
      var s, i := InOrder(cache.tree), |Before(c)| + |InOrder(t.l)| + 1;
      if next == null then i == |s|
      else && i < |s| && next == s[i] && t'.Br? && i == |Before(c')| + |InOrder(t'.l)|
           && Walking(cache.Mem(), cache, c', next, t', parents') && |parents'| <= max' && max' >= 16
  {
    ghost var m := cache.Mem();
    WalkLinks(m, cache, c, node, t, parents);
    hide LookupTree.Valid, NoRoom;
    if node.right != cache.nil {
      ok, next, parents', max', c', t' := FirstOfRight(cache, node, parents, max, granted, c, t);
    } else {
      next, parents', c', t' := Climb(cache, node, parents, c, t);
      ok, max' := true, max;
    }
    if ok && next != null { WalkIndex(c', t'); }
  }

  lemma WalkStart(cache: LookupTree)
    requires cache.Valid()
    ensures cache.head.right != null && InOrder(cache.tree) == cache.Regions()
    ensures Walking(cache.Mem(), cache, Top, cache.head.right, cache.tree, [])
  {
    SearchStart(cache);
  }

  lemma WalkRep(m: Links, cache: LookupTree, c: Path, p: Node?, t: Tree, parents: seq<Node>)
    requires Walking(m, cache, c, p, t, parents)
    ensures Rep(m, cache.nil, p, t) && m.Keys == cache.nodes
  {
  }

  lemma StartsAt(cache: LookupTree, c: Path, t: Tree, node: Node, stack: seq<Node>)
    requires t.Br? && Walking(cache.Mem(), cache, c, node, t, stack)
    ensures var s, i := InOrder(cache.tree), |Before(c)| + |InOrder(t.l)|; i < |s| && s[i] == node
  {
    WalkIndex(c, t);
  }

  /** Search for the region of `pc`, remembering the nodes passed. */
  method FindWithParents(cache: LookupTree, pc: int, granted: nat -> bool)
    returns (ok: bool, node: Node, parents: seq<Node>, max: nat, ghost c: Path, ghost t: Tree)
    requires cache.Valid() && Spaced(cache.Regions())
    ensures !ok ==> NoRoom(|cache.Regions()|, granted)
    ensures ok && Scan(cache.Regions(), pc) == null ==> node == cache.nil
    ensures ok && Scan(cache.Regions(), pc) != null ==>
      && node == Scan(cache.Regions(), pc) && node != cache.nil && t.Br?
      && Walking(cache.Mem(), cache, c, node, t, parents) && |parents| <= max && max >= 16
  {
    hide LookupTree.Valid, LookupTree.Regions, Walking, Spaced, Scan, InOrder, Rep, NoRoom;
    ghost var m, s := cache.Mem(), cache.Regions();
    c, t := Top, cache.tree;
    parents, max := [], 16;
    WalkStart(cache);
    node := cache.head.right;
    while node != cache.nil
      invariant Walking(m, cache, c, node, t, parents) && |parents| <= max && max >= 16 && Spaced(InOrder(t))
      invariant Scan(InOrder(t), pc) == Scan(s, pc)
      decreases t
    {
      WalkRep(m, cache, c, node, t, parents);
      SearchStep(m, cache.nil, node, t, pc);
      WalkDown(m, cache, c, t, parents);
      assert m[node] == Link(node.left, node.right, node.red);
      if pc < node.start || pc >= node.end {
        ghost var p0, m0 := parents + [node], max;
        var added := AddParent(parents, max, granted, node);
        ok, parents, max := added.0, added.1, added.2;
        if pc < node.start {
          node, c, t := node.left, InL(c, t.n, t.red, t.r), t.l;
        } else {
          node, c, t := node.right, InR(c, t.l, t.n, t.red), t.r;
        }
        if !ok {
          Outgrown(cache, m, c, node, t, p0, m0, granted);
          return;
        }
      } else {
        ok := true;
        return;
      }
    }
    WalkRep(m, cache, c, node, t, parents);
    SearchEnd(m, cache.nil, t, pc);
    ok := true;
  }

  /** `_jit_cache_get_end_method`: the end of the last region in the run that starts at the region of `pc`; null if no
      region contains `pc`, or if there is no room for the stack of ancestors. */
  method GetEndMethod(cache: LookupTree, pc: int, granted: nat -> bool) returns (r: Option<int>)
    requires cache.Valid() && Spaced(cache.Regions())
    ensures var s := cache.Regions();
      match r
      case None => Scan(s, pc) == null || NoRoom(|s|, granted)
      case Some(end) => exists k :: 0 <= k < |s| && s[k] == Scan(s, pc) && end == s[RunEnd(s, k)].end
  {
    ghost var s := cache.Regions();
    assert s == InOrder(cache.tree);
    hide LookupTree.Valid, Spaced, Walking, Scan, RunEnd, InOrder, Before, NoRoom;
    var ok, node, parents, max, c, t := FindWithParents(cache, pc, granted);
    if !ok || node == cache.nil { return None; }
    StartsAt(cache, c, t, node, parents);
    ghost var k := |Before(c)| + |InOrder(t.l)|;
    assert s[k] == Scan(s, pc);
    var end;
    ok, end := LastEnd(cache, node, parents, max, granted, c, t, s, k);
    if !ok { return None; }
    assert cache.Regions() == s && s[k] == Scan(s, pc) && end == s[RunEnd(s, k)].end;
    r := Some(end);
  }

  lemma RunEndStep(s: seq<Node>, i: nat)
    requires i < |s|
    ensures RunEnd(s, i) == if i + 1 < |s| && s[i + 1].owner == s[i].owner then RunEnd(s, i + 1) else i
  {
  }

  /** The in-order traversal from `start` to the last region of its method. */
  method LastEnd(cache: LookupTree, start: Node, stack: seq<Node>, places: nat, granted: nat -> bool, ghost c0: Path,
                 ghost t0: Tree, ghost s: seq<Node>, ghost k: nat)
    returns (ok: bool, end: int)
    requires cache.Valid() && 16 <= places && |stack| <= places
    requires t0.Br? && Walking(cache.Mem(), cache, c0, start, t0, stack)
    requires s == InOrder(cache.tree) && k == |Before(c0)| + |InOrder(t0.l)|
    ensures if ok then k < |s| && end == s[RunEnd(s, k)].end else NoRoom(|cache.Regions()|, granted)
  {
    hide LookupTree.Valid, Walking, Join, InOrder, Before, RunEnd, NoRoom;
    var owner, last, parents, max, node := start.owner, start, stack, places, start;
    ghost var c, t, i := c0, t0, k;
    StartsAt(cache, c, t, start, stack);
    while true
      invariant t.Br? && Walking(cache.Mem(), cache, c, node, t, parents) && |parents| <= max && max >= 16
      invariant k <= i < |s| && i == |Before(c)| + |InOrder(t.l)| && s[i] == node == last && node.owner == owner
      invariant RunEnd(s, i) == RunEnd(s, k)
      decreases |s| - i
    {
      var next;
      ok, next, parents, max, c, t := NextOf(cache, node, parents, max, granted, c, t, s, i);
      if !ok { return false, 0; }
      if next == null || next.owner != owner { break; }
      i := i + 1;
      node := next;
      last := node;
    }
    ok, end := true, last.end;
  }

  /** One step of that traversal: it ends where the run of regions of one method does. */
  method NextOf(cache: LookupTree, node: Node, parents: seq<Node>, max: nat, granted: nat -> bool, ghost c: Path,
                ghost t: Tree, ghost s: seq<Node>, ghost i: nat)
    returns (ok: bool, next: Node?, parents': seq<Node>, max': nat, ghost c': Path, ghost t': Tree)
    requires cache.Valid() && 16 <= max && |parents| <= max
    requires t.Br? && Walking(cache.Mem(), cache, c, node, t, parents)
    requires s == InOrder(cache.tree) && i == |Before(c)| + |InOrder(t.l)| && i < |s| && s[i] == node
    ensures !ok ==> NoRoom(|cache.Regions()|, granted)
    ensures ok ==>
      if next == null || next.owner != node.owner then RunEnd(s, i) == i
      else && i + 1 < |s| && s[i + 1] == next && RunEnd(s, i) == RunEnd(s, i + 1)
           && t'.Br? && Walking(cache.Mem(), cache, c', next, t', parents') && i + 1 == |Before(c')| + |InOrder(t'.l)|
           && |parents'| <= max' && max' >= 16
  {
    hide LookupTree.Valid, Walking, Join, InOrder, Before, RunEnd, NoRoom;
    RunEndStep(s, i);
    ok, next, parents', max', c', t' := Next(cache, node, parents, max, granted, c, t);
  }

  // ---- The list of methods ----

  /** The owners of the regions in order, leaving out null and repeats of the owner before. */
  function Owners(s: seq<Node>, prev: int): seq<int> {
    if s == [] then []
    else if s[0].owner != 0 && s[0].owner != prev then [s[0].owner] + Owners(s[1..], s[0].owner)
    else Owners(s[1..], prev)
  }

  function LastOwner(s: seq<Node>, prev: int): int {
    if s == [] then prev else LastOwner(s[1..], if s[0].owner != 0 then s[0].owner else prev)
  }

  lemma {:induction false} OwnersAppend(a: seq<Node>, b: seq<Node>, prev: int)
    ensures Owners(a + b, prev) == Owners(a, prev) + Owners(b, LastOwner(a, prev))
    ensures LastOwner(a + b, prev) == LastOwner(b, LastOwner(a, prev))
  {
    if a == [] {
      assert a + b == b;
    } else {
      assert (a + b)[1..] == a[1..] + b;
      OwnersAppend(a[1..], b, if a[0].owner != 0 then a[0].owner else prev);
    }
  }

  /** Splitting the list at a node, as both traversals do. */
  lemma OwnersAround(l: seq<Node>, n: Node, r: seq<Node>, prev: int)
    ensures var p := LastOwner(l, prev);
      var counts := n.owner != 0 && n.owner != p;
      var p' := if counts then n.owner else p;
      && Owners(l + [n] + r, prev) == Owners(l, prev) + (if counts then [n.owner] else []) + Owners(r, p')
      && LastOwner(l + [n] + r, prev) == LastOwner(r, p')
  {
    OwnersAppend(l, [n], prev);
    OwnersAppend(l + [n], r, prev);
    assert Owners([n][1..], n.owner) == [] && LastOwner([n][1..], n.owner) == n.owner;
  }

  method CountMethods(cache: LookupTree, node: Node, prev: int, ghost t: Tree) returns (num: nat, prev': int)
    requires Rep(cache.Mem(), cache.nil, node, t)
    ensures num == |Owners(InOrder(t), prev)| && prev' == LastOwner(InOrder(t), prev)
    decreases t
  {
    if node == cache.nil { return 0, prev; }
    assert cache.Mem()[node] == Link(node.left, node.right, node.red);
    OwnersAround(InOrder(t.l), t.n, InOrder(t.r), prev);
    num, prev' := CountMethods(cache, node.left, prev, t.l);
    if node.owner != 0 && node.owner != prev' {
      num := num + 1;
      prev' := node.owner;
    }
    var more;
    more, prev' := CountMethods(cache, node.right, prev', t.r);
    num := num + more;
  }

  lemma OwnersNone(prev: int)
    ensures Owners([], prev) == [] && LastOwner([], prev) == prev
  {
  }

  /** Fill the list from position `at` on. */
  method FillMethodList(list: array<int>, at: nat, cache: LookupTree, node: Node, prev: int, ghost t: Tree)
    returns (num: nat, prev': int)
    requires Rep(cache.Mem(), cache.nil, node, t)
    requires at + |Owners(InOrder(t), prev)| <= list.Length
    modifies list
    ensures num == |Owners(InOrder(t), prev)| && prev' == LastOwner(InOrder(t), prev)
    ensures list[..] == Filled(old(list[..]), at, Owners(InOrder(t), prev))
    decreases t
  {
    hide Owners, LastOwner, Filled;
    OwnersNone(prev);
    ghost var s0 := list[..];
    if node == cache.nil {
      FillNone(s0, at);
      return 0, prev;
    }
    ghost var m := cache.Mem();
    assert m[node] == Link(node.left, node.right, node.red);
    OwnersAround(InOrder(t.l), t.n, InOrder(t.r), prev);
    num, prev' := FillMethodList(list, at, cache, node.left, prev, t.l);
    ghost var o, s1 := Owners(InOrder(t.l), prev), list[..];
    assert s1 == Filled(s0, at, o);
    if node.owner != 0 && node.owner != prev' {
      list[at + num] := node.owner;
      FillOne(s0, at, o, node.owner);
      num := num + 1;
      prev' := node.owner;
      o := o + [node.owner];
    }
    ghost var s2 := list[..];
    assert s2 == Filled(s0, at, o) && num == |o| && cache.Mem() == m;
    ghost var rest := Owners(InOrder(t.r), prev');
    assert Owners(InOrder(t), prev) == o + rest;
    var more;
    more, prev' := FillMethodList(list, at + num, cache, node.right, prev', t.r);
    assert list[..] == Filled(s2, at + num, rest);
    FillMore(s0, at, o, rest);
    num := num + more;
  }

  function Filled(s: seq<int>, at: nat, o: seq<int>): seq<int>
    requires at + |o| <= |s|
  {
    s[..at] + o + s[at + |o|..]
  }

  lemma FillNone(s: seq<int>, at: nat)
    requires at <= |s|
    ensures Filled(s, at, []) == s
  {
  }

  lemma FillOne(s: seq<int>, at: nat, o: seq<int>, x: int)
    requires at + |o| < |s|
    ensures Filled(s, at, o)[at + |o| := x] == Filled(s, at, o + [x])
  {
  }

  lemma FillMore(s: seq<int>, at: nat, o: seq<int>, rest: seq<int>)
    requires at + |o| + |rest| <= |s|
    ensures Filled(Filled(s, at, o), at + |o|, rest) == Filled(s, at, o + rest)
  {
  }

  /** `_jit_cache_get_method_list`: the methods in address order, followed by null. */
  method GetMethodList(cache: LookupTree) returns (list: array<int>)
    requires cache.Valid()
    ensures list[..] == Owners(cache.Regions(), 0) + [0]
  {
    assert cache.Mem()[cache.head].right == cache.head.right;
    var num, _ := CountMethods(cache, cache.head.right, 0, cache.tree);
    list := new int[num + 1];
    var _, _ := FillMethodList(list, 0, cache, cache.head.right, 0, cache.tree);
    list[num] := 0;
  }

  /** The list names every method with a region, and nothing else. */
  lemma {:induction false} OwnersComplete(s: seq<Node>, prev: int)
    ensures forall o :: o in Owners(s, prev) ==> o != 0 && exists i :: 0 <= i < |s| && s[i].owner == o
    ensures forall i :: 0 <= i < |s| && s[i].owner != 0 && s[i].owner != prev ==> s[i].owner in Owners(s, prev)
  {
    if s != [] {
      OwnersComplete(s[1..], if s[0].owner != 0 && s[0].owner != prev then s[0].owner else prev);
      assert forall i :: 1 <= i < |s| ==> s[i] == s[1..][i - 1];
    }
  }
}
