/** The shape and colour theory of the method lookup tree (jit/jit-cache.c): trees of region nodes,
    the path from the root to the place being visited, and the rotations that repair two reds in a row.
    Everything here is about values; `LookupTree` ties it to the nodes in memory. */
module RedBlack {
  import DebugMap


  /** A method region block.  The colour that the C code keeps in the low bit of `left` is a field. */
  class Node {
    const start: int
    const owner: int   // the method that the region belongs to; 0 is the null pointer
    var end: int
    var cookie: int
    var debug: seq<seq<DebugMap.Byte>>
    var left: Node?
    var right: Node?
    var red: bool

    constructor (start: int, end: int, owner: int, cookie: int)
      ensures this.start == start && this.end == end && this.owner == owner && this.cookie == cookie
      ensures left == null && right == null && !red && debug == []
    {
      this.start, this.end, this.owner, this.cookie := start, end, owner, cookie;
      left, right, red, debug := null, null, false, [];
    }

    /** A sentinel that is its own left and right sub-tree. */
    constructor Nil()
      ensures left == this && right == this && !red
    {
      start, end, owner, cookie, debug := 0, 0, 0, 0, [];
      left, right, red := this, this, false;
    }
  }

  datatype Tree = Leaf | Br(l: Tree, n: Node, red: bool, r: Tree)

  /** The path from the head of the tree down to a hole; `up` is the part above the last step. */
  datatype Path = Top | InL(up: Path, n: Node, red: bool, r: Tree) | InR(up: Path, l: Tree, n: Node, red: bool)

  function Nodes(t: Tree): set<Node> {
    match t
    case Leaf => {}
    case Br(l, n, _, r) => Nodes(l) + {n} + Nodes(r)
  }

  function PathNodes(c: Path): set<Node> {
    match c
    case Top => {}
    case InL(up, n, _, r) => {n} + Nodes(r) + PathNodes(up)
    case InR(up, l, n, _) => {n} + Nodes(l) + PathNodes(up)
  }

  /** No node occurs twice. */
  predicate Apart(t: Tree) {
    t.Br? ==> t.n !in Nodes(t.l) + Nodes(t.r) && Nodes(t.l) !! Nodes(t.r) && Apart(t.l) && Apart(t.r)
  }

  predicate PathApart(c: Path) {
    match c
    case Top => true
    case InL(up, n, _, r) => n !in Nodes(r) + PathNodes(up) && Nodes(r) !! PathNodes(up) && Apart(r) && PathApart(up)
    case InR(up, l, n, _) => n !in Nodes(l) + PathNodes(up) && Nodes(l) !! PathNodes(up) && Apart(l) && PathApart(up)
  }

  function InOrder(t: Tree): seq<Node> {
    match t
    case Leaf => []
    case Br(l, n, _, r) => InOrder(l) + [n] + InOrder(r)
  }

  function Before(c: Path): seq<Node> {
    match c
    case Top => []
    case InL(up, _, _, _) => Before(up)
    case InR(up, l, n, _) => Before(up) + InOrder(l) + [n]
  }

  function After(c: Path): seq<Node> {
    match c
    case Top => []
    case InL(up, n, _, r) => [n] + InOrder(r) + After(up)
    case InR(up, _, _, _) => After(up)
  }

  /** The whole tree: `t` put back into the hole at the end of the path. */
  function Join(c: Path, t: Tree): Tree {
    match c
    case Top => t
    case InL(up, n, red, r) => Join(up, Br(t, n, red, r))
    case InR(up, l, n, red) => Join(up, Br(l, n, red, t))
  }

  predicate Sorted(s: seq<Node>) {
    forall i, j :: 0 <= i < j < |s| ==> s[i].start < s[j].start
  }

  predicate IsRed(t: Tree) { t.Br? && t.red }

  /** The number of black nodes on the leftmost path. */
  function BlackHeight(t: Tree): nat {
    match t
    case Leaf => 0
    case Br(l, _, red, _) => BlackHeight(l) + if red then 0 else 1
  }

  /** No red node has a red child, and every path down carries the same number of black nodes. */
  predicate Coloured(t: Tree) {
    t.Br? ==>
      && Coloured(t.l) && Coloured(t.r)
      && BlackHeight(t.l) == BlackHeight(t.r)
      && (t.red ==> !IsRed(t.l) && !IsRed(t.r))
  }

  /** What the path must satisfy for a hole of black height `h` and the given colour. */
  predicate PathColoured(c: Path, h: nat, holeRed: bool) {
    match c
    case Top => true
    case InL(up, _, red, r) =>
      && Coloured(r) && BlackHeight(r) == h && !(red && (holeRed || IsRed(r)))
      && PathColoured(up, h + (if red then 0 else 1), red)
    case InR(up, l, _, red) =>
      && Coloured(l) && BlackHeight(l) == h && !(red && (holeRed || IsRed(l)))
      && PathColoured(up, h + (if red then 0 else 1), red)
  }

  lemma {:induction false} JoinInOrder(c: Path, t: Tree)
    ensures InOrder(Join(c, t)) == Before(c) + InOrder(t) + After(c)
  {
    match c
    case Top =>
    case InL(up, n, red, r) => JoinInOrder(up, Br(t, n, red, r));
    case InR(up, l, n, red) => JoinInOrder(up, Br(l, n, red, t));
  }

  lemma {:induction false} JoinNodes(c: Path, t: Tree)
    ensures Nodes(Join(c, t)) == PathNodes(c) + Nodes(t)
    ensures Apart(Join(c, t)) <==> PathApart(c) && Apart(t) && PathNodes(c) !! Nodes(t)
  {
    match c
    case Top =>
    case InL(up, n, red, r) => JoinNodes(up, Br(t, n, red, r));
    case InR(up, l, n, red) => JoinNodes(up, Br(l, n, red, t));
  }

  lemma {:induction false} JoinColoured(c: Path, t: Tree)
    requires PathColoured(c, BlackHeight(t), IsRed(t)) && Coloured(t)
    ensures Coloured(Join(c, t))
  {
    match c
    case Top =>
    case InL(up, n, red, r) => JoinColoured(up, Br(t, n, red, r));
    case InR(up, l, n, red) => JoinColoured(up, Br(l, n, red, t));
  }

  lemma {:induction false} InOrderNodes(t: Tree)
    ensures forall n :: n in InOrder(t) <==> n in Nodes(t)
  {
    if t.Br? { InOrderNodes(t.l); InOrderNodes(t.r); }
  }

  // ---- Depth ----

  function Height(t: Tree): nat {
    match t
    case Leaf => 0
    case Br(l, _, _, r) => 1 + if Height(l) > Height(r) then Height(l) else Height(r)
  }

  function Pow2(k: nat): nat { if k == 0 then 1 else 2 * Pow2(k - 1) }

  lemma {:induction false} EnoughNodes(t: Tree)
    requires Coloured(t)
    ensures |InOrder(t)| + 1 >= Pow2(BlackHeight(t))
    ensures Height(t) <= 2 * BlackHeight(t) + if IsRed(t) then 1 else 0
  {
    if t.Br? { EnoughNodes(t.l); EnoughNodes(t.r); }
  }

  /** A coloured tree with a black root and `n` nodes is at most 2*log2(n+1) deep:
      2^Height <= (n+1)^2. */
  lemma DepthBound(t: Tree)
    requires Coloured(t) && !IsRed(t)
    ensures Pow2(Height(t)) <= (|InOrder(t)| + 1) * (|InOrder(t)| + 1)
  {
    EnoughNodes(t);
    var b := BlackHeight(t);
    Pow2Monotone(Height(t), b + b);
    Pow2Sum(b, b);
    SquareMonotone(Pow2(b), |InOrder(t)| + 1);
  }

  lemma SquareMonotone(a: nat, b: nat)
    requires a <= b
    ensures a * a <= b * b
  {
    assert a * a <= a * b;
  }

  lemma {:induction false} Pow2Sum(a: nat, b: nat)
    ensures Pow2(a + b) == Pow2(a) * Pow2(b)
  {
    if a > 0 { Pow2Sum(a - 1, b); }
  }

  lemma {:induction false} Pow2Monotone(a: nat, b: nat)
    requires a <= b
    ensures Pow2(a) <= Pow2(b)
  {
    if a < b { Pow2Monotone(a, b - 1); }
  }

  // ---- The repairs made on the way down ----

  /** Split a black node with two red children: the node turns red, its children black. */
  function Recolour(t: Tree): Tree
    requires t.Br? && t.l.Br? && t.r.Br?
  {
    Br(t.l.(red := false), t.n, true, t.r.(red := false))
  }

  /** Black, not empty, and without a red child: such a node is never split. */
  predicate Quiet(t: Tree) { t.Br? && !t.red && !IsRed(t.l) && !IsRed(t.r) }

  predicate JustSplit(t: Tree) { t.Br? && t.red && Quiet(t.l) && Quiet(t.r) }

  lemma BlackenedFacts(t: Tree)
    requires IsRed(t) && Coloured(t)
    ensures var s := t.(red := false);
      && Coloured(s) && Quiet(s) && BlackHeight(s) == BlackHeight(t) + 1
      && InOrder(s) == InOrder(t) && Nodes(s) == Nodes(t) && (Apart(t) ==> Apart(s))
  {
  }

  lemma RecolourFacts(t: Tree)
    requires t.Br? && !t.red && IsRed(t.l) && IsRed(t.r) && Coloured(t)
    ensures var s := Recolour(t);
      && Coloured(s) && BlackHeight(s) == BlackHeight(t) && JustSplit(s)
      && InOrder(s) == InOrder(t) && Nodes(s) == Nodes(t) && (Apart(t) ==> Apart(s))
  {
    BlackenedFacts(t.l);
    BlackenedFacts(t.r);
  }

  predicate IsRedStep(c: Path) { !c.Top? && c.red }

  /** There is no black sibling at the last step of the path: a red node here could not be lifted. */
  predicate Crowded(c: Path) {
    match c
    case Top => true
    case InL(_, _, _, r) => IsRed(r)
    case InR(_, l, _, _) => IsRed(l)
  }

  /** Rotate a red `t` under a red parent: the grandparent goes down, the middle node of the three comes up. */
  function Lifted(c: Path, t: Tree): Tree
    requires IsRed(t) && !c.Top? && !c.up.Top?
  {
    match (c.up, c)
    case (InL(_, g, _, gr), InL(_, p, _, pr)) => Br(t, p, false, Br(pr, g, true, gr))
    case (InL(_, g, _, gr), InR(_, pl, p, pred)) => Br(Br(pl, p, pred, t.l), t.n, false, Br(t.r, g, true, gr))
    case (InR(_, gl, g, _), InR(_, pl, p, _)) => Br(Br(gl, g, true, pl), p, false, t)
    case (InR(_, gl, g, _), InL(_, p, pred, pr)) => Br(Br(gl, g, true, t.l), t.n, false, Br(t.r, p, pred, pr))
  }

  lemma LiftedColoured(c: Path, t: Tree)
    requires IsRed(t) && IsRedStep(c) && !Crowded(c.up)
    requires Coloured(t) && PathColoured(c, BlackHeight(t), false)
    ensures Coloured(Lifted(c, t)) && PathColoured(c.up.up, BlackHeight(Lifted(c, t)), false)
  {
    var s := Lifted(c, t);
    match (c.up, c) {
      case (InL(_, g, _, gr), InL(_, p, _, pr)) => assert Coloured(s.r);
      case (InL(_, g, _, gr), InR(_, pl, p, pred)) => assert Coloured(s.l) && Coloured(s.r);
      case (InR(_, gl, g, _), InR(_, pl, p, _)) => assert Coloured(s.l);
      case (InR(_, gl, g, _), InL(_, p, pred, pr)) => assert Coloured(s.l) && Coloured(s.r);
    }
  }

  lemma LiftedInOrder(c: Path, t: Tree)
    requires IsRed(t) && !c.Top? && !c.up.Top?
    ensures Before(c.up.up) + InOrder(Lifted(c, t)) + After(c.up.up) == Before(c) + InOrder(t) + After(c)
  {
    match (c.up, c)
    case (InL(u, g, _, gr), InL(_, p, _, pr)) =>
      Straight(Before(u), InOrder(t), [p], InOrder(pr), [g], InOrder(gr), After(u));
    case (InL(u, g, _, gr), InR(_, pl, p, pred)) =>
      Zigzag(Before(u), InOrder(pl), [p], InOrder(t.l), [t.n], InOrder(t.r), [g], InOrder(gr), After(u));
    case (InR(u, gl, g, _), InR(_, pl, p, _)) =>
      Straight(Before(u), InOrder(gl), [g], InOrder(pl), [p], InOrder(t), After(u));
    case (InR(u, gl, g, _), InL(_, p, pred, pr)) =>
      Zigzag(Before(u), InOrder(gl), [g], InOrder(t.l), [t.n], InOrder(t.r), [p], InOrder(pr), After(u));
  }

  lemma Straight<T>(a: seq<T>, b: seq<T>, c: seq<T>, d: seq<T>, e: seq<T>, f: seq<T>, g: seq<T>)
    ensures a + (b + c + (d + e + f)) + g == a + b + (c + d + (e + f + g))
    ensures a + (b + c + d + e + f) + g == a + b + c + d + e + f + g
  {
  }

  lemma Zigzag<T>(a: seq<T>, b: seq<T>, c: seq<T>, d: seq<T>, e: seq<T>, f: seq<T>, g: seq<T>, h: seq<T>, i: seq<T>)
    ensures a + (b + c + d + e + (f + g + h)) + i == (a + b + c) + (d + e + f) + (g + h + i)
  {
  }

  lemma LiftedNodes(c: Path, t: Tree)
    requires IsRed(t) && !c.Top? && !c.up.Top?
    ensures PathNodes(c.up.up) + Nodes(Lifted(c, t)) == PathNodes(c) + Nodes(t)
  {
    var s := Lifted(c, t);
    match (c.up, c) {
      case (InL(u, g, _, gr), InL(_, p, _, pr)) => assert Nodes(s.r) == Nodes(pr) + {g} + Nodes(gr);
      case (InL(u, g, _, gr), InR(_, pl, p, pred)) =>
        assert Nodes(s.l) == Nodes(pl) + {p} + Nodes(t.l) && Nodes(s.r) == Nodes(t.r) + {g} + Nodes(gr);
      case (InR(u, gl, g, _), InR(_, pl, p, _)) => assert Nodes(s.l) == Nodes(gl) + {g} + Nodes(pl);
      case (InR(u, gl, g, _), InL(_, p, pred, pr)) =>
        assert Nodes(s.l) == Nodes(gl) + {g} + Nodes(t.l) && Nodes(s.r) == Nodes(t.r) + {p} + Nodes(pr);
    }
  }

  /** The sub-tree that hangs at the last step of a path. */
  function Hung(c: Path, t: Tree): (s: Tree)
    requires !c.Top?
    ensures s.Br? && s.n == c.n && s.red == c.red
  {
    match c
    case InL(_, n, red, r) => Br(t, n, red, r)
    case InR(_, l, n, red) => Br(l, n, red, t)
  }

  /** A single rotation: the node at the hole comes above the node at the last step. */
  function Single(c: Path, t: Tree): (s: Tree)
    requires t.Br? && !c.Top?
    ensures s.Br? && s.n == t.n && s.red == t.red
  {
    match c
    case InL(_, n, red, r) => Br(t.l, t.n, t.red, Br(t.r, n, red, r))
    case InR(_, l, n, red) => Br(Br(l, n, red, t.l), t.n, t.red, t.r)
  }

  lemma SingleFacts(c: Path, t: Tree)
    requires t.Br? && !c.Top? && PathApart(c) && Apart(t) && PathNodes(c) !! Nodes(t)
    ensures PathApart(c.up) && Apart(Single(c, t)) && PathNodes(c.up) !! Nodes(Single(c, t))
    ensures PathNodes(c.up) + Nodes(Single(c, t)) == PathNodes(c) + Nodes(t)
  {
  }
}
