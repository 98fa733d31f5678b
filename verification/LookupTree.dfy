/** The method lookup tree in memory: one-pass top-down insertion (`AddToLookupTree`, `CacheRotate`, `Split`)
    and the searches that walk the tree. */
module LookupTrees {
  import opened RedBlack

  /** What memory holds for a node: its links and its colour. */
  datatype Link = Link(left: Node?, right: Node?, red: bool)
  type Links = map<Node, Link>

  /** The pointer `p` leads to nodes in memory that form the tree `t`. */
  ghost predicate Rep(m: Links, nil: Node, p: Node?, t: Tree) {
    match t
    case Leaf => p == nil
    case Br(l, n, red, r) =>
      p == n && n != nil && n in m && m[n].red == red && Rep(m, nil, m[n].left, l) && Rep(m, nil, m[n].right, r)
  }

  /** The nodes in memory from the head down form the path `c`, and its last link holds `p`. */
  ghost predicate RepPath(m: Links, head: Node, nil: Node, p: Node?, c: Path)
    decreases c
  {
    match c
    case Top => head in m && m[head].right == p
    case InL(up, n, red, r) =>
      n != nil && n in m && m[n].red == red && m[n].left == p && Rep(m, nil, m[n].right, r)
        && RepPath(m, head, nil, n, up)
    case InR(up, l, n, red) =>
      n != nil && n in m && m[n].red == red && m[n].right == p && Rep(m, nil, m[n].left, l)
        && RepPath(m, head, nil, n, up)
  }

  ghost predicate Same(m: Links, m': Links, s: set<Node>) {
    forall n :: n in s && n in m ==> n in m' && m'[n] == m[n]
  }

  lemma {:induction false} RepSame(m: Links, m': Links, nil: Node, p: Node?, t: Tree)
    requires Rep(m, nil, p, t) && Same(m, m', Nodes(t))
    ensures Rep(m', nil, p, t)
  {
    if t.Br? { RepSame(m, m', nil, m[t.n].left, t.l); RepSame(m, m', nil, m[t.n].right, t.r); }
  }

  lemma {:induction false} RepPathSame(m: Links, m': Links, head: Node, nil: Node, p: Node?, c: Path)
    requires RepPath(m, head, nil, p, c) && Same(m, m', PathNodes(c) + {head})
    ensures RepPath(m', head, nil, p, c)
    decreases c
  {
    match c
    case Top =>
    case InL(up, n, red, r) => RepSame(m, m', nil, m[n].right, r); RepPathSame(m, m', head, nil, n, up);
    case InR(up, l, n, red) => RepSame(m, m', nil, m[n].left, l); RepPathSame(m, m', head, nil, n, up);
  }

  lemma {:induction false} RepJoin(m: Links, head: Node, nil: Node, p: Node?, c: Path, t: Tree)
    requires RepPath(m, head, nil, p, c) && Rep(m, nil, p, t)
    ensures head in m && Rep(m, nil, m[head].right, Join(c, t))
  {
    match c
    case Top =>
    case InL(up, n, red, r) => RepJoin(m, head, nil, n, up, Br(t, n, red, r));
    case InR(up, l, n, red) => RepJoin(m, head, nil, n, up, Br(l, n, red, t));
  }

  /** The node at the last step of a path. */
  function Last(c: Path, head: Node): Node { if c.Top? then head else c.n }
  function Up(c: Path): Path { if c.Top? then Top else c.up }

  // ---- Keys ----

  predicate Below(s: seq<Node>, key: int) { forall i :: 0 <= i < |s| ==> s[i].start < key }
  predicate Above(s: seq<Node>, key: int) { forall i :: 0 <= i < |s| ==> key < s[i].start }

  ghost predicate Taken(s: seq<Node>, key: int) { exists n :: n in s && n.start == key }

  /** The sorted list with `n` put in its place. */
  function Inserted(s: seq<Node>, n: Node): seq<Node> {
    if s == [] || n.start < s[0].start then [n] + s else [s[0]] + Inserted(s[1..], n)
  }

  lemma {:induction false} InsertedBetween(a: seq<Node>, n: Node, b: seq<Node>)
    requires Below(a, n.start) && Above(b, n.start)
    ensures Inserted(a + b, n) == a + [n] + b
  {
    if a == [] {
      assert a + b == b;
    } else {
      assert (a + b)[1..] == a[1..] + b;
      InsertedBetween(a[1..], n, b);
    }
  }

  lemma SortedBetween(a: seq<Node>, n: Node, b: seq<Node>)
    requires Sorted(a + b) && Below(a, n.start) && Above(b, n.start)
    ensures Sorted(a + [n] + b)
  {
    var s := a + [n] + b;
    forall i, j | 0 <= i < j < |s| ensures s[i].start < s[j].start {
      assert s[i] == (if i < |a| then (a + b)[i] else if i == |a| then n else (a + b)[i - 1]);
      assert s[j] == (if j < |a| then (a + b)[j] else if j == |a| then n else (a + b)[j - 1]);
    }
  }

  /** The child that the search for `key` moves to. */
  function Toward(t: Tree, key: int): Tree
    requires t.Br?
  {
    if key < t.n.start then t.l else t.r
  }

  function Extended(c: Path, t: Tree, key: int): Path
    requires t.Br?
  {
    if key < t.n.start then InL(c, t.n, t.red, t.r) else InR(c, t.l, t.n, t.red)
  }

  /** The path to the place of `key` below the path `c`. */
  function WayTo(c: Path, t: Tree, key: int): Path
    decreases t
  {
    if t.Leaf? || key == t.n.start then c else WayTo(Extended(c, t, key), Toward(t, key), key)
  }

  /** The number of nodes that the search for `key` visits. */
  function Steps(t: Tree, key: int): nat {
    if t.Leaf? || key == t.n.start then 0 else 1 + Steps(Toward(t, key), key)
  }

  /** The search for `key` stands at the hole: all earlier regions start below it, all later ones above it. */
  predicate OnTrack(c: Path, key: int) { Below(Before(c), key) && Above(After(c), key) }

  lemma SortedAround(a: seq<Node>, l: seq<Node>, n: Node, r: seq<Node>, b: seq<Node>)
    requires Sorted(a + (l + [n] + r) + b)
    ensures Below(l, n.start) && Above(r, n.start)
  {
    var s, k := a + (l + [n] + r) + b, |a| + |l|;
    assert s[k] == n;
    assert forall i :: 0 <= i < |l| ==> s[|a| + i] == l[i];
    assert forall i :: 0 <= i < |r| ==> s[k + 1 + i] == r[i];
  }

  lemma StepDown(c: Path, t: Tree, key: int)
    requires t.Br? && key != t.n.start && OnTrack(c, key)
    requires Sorted(InOrder(Join(c, t)))
    ensures OnTrack(Extended(c, t, key), key) && Join(Extended(c, t, key), Toward(t, key)) == Join(c, t)
  {
    JoinInOrder(c, t);
    SortedAround(Before(c), InOrder(t.l), t.n, InOrder(t.r), After(c));
  }

  // ---- How far the ancestor pointers lag behind after a rotation ----

  /** `AtHead`: nothing visited yet.  `Fresh`: the three ancestor pointers are right.  After a rotation the
      search stands at the lifted node (`Lift`), then at its red child (`Low`), then at a node that was just
      made black (`Calm`); one, two and then all three pointers have caught up. */
  datatype Phase = AtHead | Fresh | Lift | Low | Calm

  predicate Settled(c: Path, t: Tree) {
    && (IsRed(t) && Crowded(c) ==> JustSplit(t))
    && (IsRedStep(c) && Crowded(c.up) ==> Quiet(t))
    && !(t.Br? && IsRed(t.l) && IsRed(t.r))
  }

  predicate Tracked(ph: Phase, c: Path, t: Tree, key: int, head: Node, p: Node, g: Node, gg: Node) {
    match ph
    case AtHead => c == Top && p == head && g == head && gg == head && !IsRed(t)
    case Fresh => p == Last(c, head) && g == Last(Up(c), head) && gg == Last(Up(Up(c)), head) && Settled(c, t)
    case Lift => LiftedOver(t, key)
    case Low => p == Last(c, head) && IsRed(t) && (key != t.n.start ==> Quiet(Toward(t, key)))
    case Calm => p == Last(c, head) && g == Last(Up(c), head) && Quiet(t)
  }

  /** The search for `key` runs into a black node, its red child and a quiet node, unless it ends earlier. */
  predicate LiftedOver(t: Tree, key: int) {
    && t.Br? && !t.red
    && (key != t.n.start ==>
          var u := Toward(t, key);
          IsRed(u) && (key != u.n.start ==> Quiet(Toward(u, key))))
  }

  function Caught(ph: Phase): Phase {
    match ph
    case AtHead => Fresh
    case Fresh => Fresh
    case Lift => Low
    case Low => Calm
    case Calm => Fresh
  }

  /** One step down, before the new node is split. */
  lemma Arrive(ph: Phase, c: Path, t: Tree, key: int, head: Node, p: Node, g: Node, gg: Node)
    requires Tracked(ph, c, t, key, head, p, g, gg) && Coloured(t)
    requires !ph.AtHead? && t.Br? && key != t.n.start
    ensures var c', t' := Extended(c, t, key), Toward(t, key);
      && (t'.Br? && IsRed(t'.l) && IsRed(t'.r) ==>
            Caught(ph).Fresh? && t.n == Last(c', head) && (IsRedStep(c') ==> !Crowded(c)))
      && (!(t'.Br? && IsRed(t'.l) && IsRed(t'.r)) ==> Tracked(Caught(ph), c', t', key, head, t.n, p, g))
      && (IsRedStep(c') && Caught(ph).Fresh? ==> p == Last(c, head) && g == Last(Up(c), head))
  {
  }

  /** The node reached by one step down was split, and its parent is black. */
  lemma SplitBlack(ph: Phase, c: Path, t: Tree, key: int, head: Node, p: Node, g: Node, gg: Node)
    requires Tracked(ph, c, t, key, head, p, g, gg) && Coloured(t)
    requires !ph.AtHead? && t.Br? && key != t.n.start && Toward(t, key).Br?
    requires IsRed(Toward(t, key).l) && IsRed(Toward(t, key).r) && !t.red
    ensures Tracked(Fresh, Extended(c, t, key), Recolour(Toward(t, key)), key, head, t.n, p, g)
  {
    assert Coloured(Toward(t, key));
    RecolourFacts(Toward(t, key));
  }

  /** The node reached by one step down was split and lifted. */
  lemma SplitRed(c: Path, t: Tree, key: int)
    requires JustSplit(t) && IsRedStep(c) && !c.up.Top? && OnTrack(c, key)
    ensures LiftedOver(Lifted(c, t), key)
    ensures Steps(Lifted(c, t), key) <= 1 + Steps(t, key)
  {
    PathKeys(c, key);
    PathKeys(c.up, key);
    var s := Lifted(c, t);
    if key != s.n.start {
      var u := Toward(s, key);
      assert Steps(s, key) == 1 + Steps(u, key);
      if key != u.n.start { assert Steps(u, key) == 1 + Steps(Toward(u, key), key); }
    }
  }

  lemma RecolourSteps(t: Tree, key: int)
    requires t.Br? && t.l.Br? && t.r.Br?
    ensures Steps(Recolour(t), key) == Steps(t, key)
  {
    if key != t.n.start {
      var u, v := Toward(t, key), Toward(Recolour(t), key);
      assert key != u.n.start ==> Toward(u, key) == Toward(v, key);
    }
  }

  lemma PathKeys(c: Path, key: int)
    requires !c.Top? && OnTrack(c, key)
    ensures OnTrack(c.up, key)
    ensures if c.InL? then key < c.n.start else c.n.start < key
  {
    match c
    case InL(up, n, red, r) =>
      assert After(c)[0] == n;
      assert forall i :: 0 <= i < |After(up)| ==> After(c)[1 + |InOrder(r)| + i] == After(up)[i];
    case InR(up, l, n, red) =>
      assert Before(c)[|Before(up)| + |InOrder(l)|] == n;
      assert forall i :: 0 <= i < |Before(up)| ==> Before(c)[i] == Before(up)[i];
  }

  // ---- Rotation ----

  /** The hole at the end of `c` holds `p`, the root of `t`, and no node is shared. */
  ghost predicate At(m: Links, head: Node, nil: Node, c: Path, p: Node?, t: Tree) {
    && head != nil && head !in PathNodes(c) + Nodes(t) && nil !in PathNodes(c) + Nodes(t)
    && PathApart(c) && Apart(t) && PathNodes(c) !! Nodes(t)
    && RepPath(m, head, nil, p, c) && Rep(m, nil, p, t)
  }

  /** The three writes of one rotation. */
  function Relinked(m: Links, head: Node, c: Path, t: Tree): Links
    requires t.Br? && !c.Top? && {Last(c.up, head), c.n, t.n} <= m.Keys
  {
    var around, child, top := Last(c.up, head), c.n, t.n;
    m[child := if c.InL? then m[child].(left := m[top].right) else m[child].(right := m[top].left)]
     [top := if c.InL? then m[top].(right := child) else m[top].(left := child)]
     [around := if c.up.InL? then m[around].(left := top) else m[around].(right := top)]
  }

  /** The sentinels: `nil` is as before and the head has its colour. */
  predicate KeepsEnds(m: Links, m': Links, head: Node, nil: Node) {
    && (nil in m ==> nil in m' && m'[nil] == m[nil])
    && (head in m ==> head in m' && m'[head].red == m[head].red)
  }

  lemma RelinkedRep(m: Links, m': Links, head: Node, nil: Node, c: Path, t: Tree)
    requires t.Br? && !c.Top? && RepPath(m, head, nil, t.n, c) && Rep(m, nil, t.n, t)
    requires {Last(c.up, head), c.n, t.n} <= m.Keys && m' == Relinked(m, head, c, t)
    requires {Last(c.up, head), c.n, t.n} !! Nodes(t.l) + Nodes(t.r) + (if c.InL? then Nodes(c.r) else Nodes(c.l))
    requires c.n != t.n && Last(c.up, head) !in {c.n, t.n}
    ensures Rep(m', nil, t.n, Single(c, t))
  {
    RepSame(m, m', nil, m[t.n].left, t.l);
    RepSame(m, m', nil, m[t.n].right, t.r);
    match c
    case InL(up, n, _, r) => RepSame(m, m', nil, m[n].right, r);
    case InR(up, l, n, _) => RepSame(m, m', nil, m[n].left, l);
  }

  lemma RelinkedPath(m: Links, m': Links, head: Node, nil: Node, c: Path, p: Node, q: Node)
    requires RepPath(m, head, nil, p, c) && PathApart(c) && head !in PathNodes(c)
    requires {p, q} !! PathNodes(c) + {head}
    requires Last(c, head) in m && m.Keys == m'.Keys
    requires forall n :: n in m && n !in {p, q, Last(c, head)} ==> m'[n] == m[n]
    requires m'[Last(c, head)] == if c.InL? then m[c.n].(left := q) else m[Last(c, head)].(right := q)
    ensures RepPath(m', head, nil, q, c)
  {
    match c
    case Top =>
    case InL(up, n, _, r) => RepSame(m, m', nil, m[n].right, r); RepPathSame(m, m', head, nil, n, up);
    case InR(up, l, n, _) => RepSame(m, m', nil, m[n].left, l); RepPathSame(m, m', head, nil, n, up);
  }

  lemma RelinkedAt(m: Links, head: Node, nil: Node, c: Path, t: Tree)
    requires t.Br? && !c.Top? && At(m, head, nil, c, t.n, t)
    ensures {Last(c.up, head), c.n, t.n} <= m.Keys
    ensures var m' := Relinked(m, head, c, t);
      At(m', head, nil, c.up, t.n, Single(c, t)) && KeepsEnds(m, m', head, nil)
  {
    SingleFacts(c, t);
    assert RepPath(m, head, nil, c.n, c.up);
    assert Last(c.up, head) in PathNodes(c.up) + {head};
    var m' := Relinked(m, head, c, t);
    RelinkedRep(m, m', head, nil, c, t);
    RelinkedPath(m, m', head, nil, c.up, c.n, t.n);
  }

  /** Change the colour of the node at the hole. */
  lemma PaintRoot(m: Links, head: Node, nil: Node, c: Path, t: Tree, red: bool)
    requires t.Br? && At(m, head, nil, c, t.n, t)
    ensures At(m[t.n := m[t.n].(red := red)], head, nil, c, t.n, t.(red := red))
  {
    var m' := m[t.n := m[t.n].(red := red)];
    RepSame(m, m', nil, m[t.n].left, t.l);
    RepSame(m, m', nil, m[t.n].right, t.r);
    RepPathSame(m, m', head, nil, t.n, c);
  }

  /** Put the last step of the path back on top of the hole. */
  lemma HangAt(m: Links, head: Node, nil: Node, c: Path, p: Node?, t: Tree)
    requires !c.Top?
    requires PathNodes(c) !! Nodes(t)
    ensures At(m, head, nil, c, p, t) ==> At(m, head, nil, c.up, c.n, Hung(c, t))
    ensures At(m, head, nil, c.up, c.n, Hung(c, t)) ==>
      (c.n in m && At(m, head, nil, c, if c.InL? then m[c.n].left else m[c.n].right, t))
  {
  }

  /** Go back to the root. */
  lemma JoinAt(m: Links, head: Node, nil: Node, c: Path, p: Node?, t: Tree)
    requires At(m, head, nil, c, p, t)
    ensures head in m && At(m, head, nil, Top, m[head].right, Join(c, t))
  {
    RepJoin(m, head, nil, p, c, t);
    JoinNodes(c, t);
  }

  lemma {:induction false} RootColour(c: Path, t: Tree)
    ensures Join(c, t).Br? <==> !c.Top? || t.Br?
    ensures IsRed(Join(c, t)) == if c.Top? then IsRed(t) else TopRed(c)
  {
    match c
    case Top =>
    case InL(up, n, red, r) => RootColour(up, Br(t, n, red, r));
    case InR(up, l, n, red) => RootColour(up, Br(l, n, red, t));
  }

  function TopRed(c: Path): bool
    requires !c.Top?
  {
    if c.up.Top? then c.red else TopRed(c.up)
  }

  /** Change the colour of the last step. */
  lemma PaintStep(m: Links, head: Node, nil: Node, c: Path, p: Node?, t: Tree, red: bool)
    requires !c.Top? && At(m, head, nil, c, p, t)
    ensures c.n in m && At(m[c.n := m[c.n].(red := red)], head, nil, c.(red := red), p, t)
  {
    HangAt(m, head, nil, c, p, t);
    PaintRoot(m, head, nil, c.up, Hung(c, t), red);
    HangAt(m[c.n := m[c.n].(red := red)], head, nil, c.(red := red), p, t);
  }

  class LookupTree {
    const head: Node
    const nil: Node
    ghost var tree: Tree
    ghost var nodes: set<Node>   // every node the tree may touch

    constructor ()
      ensures Valid() && fresh(nodes) && tree == Leaf && Regions() == [] && nodes == {head, nil} && head != nil
      ensures head.right == nil && !head.red && nil.left == nil == nil.right && !nil.red
    {
      var z := new Node.Nil();
      var h := new Node.Nil();
      h.right := z;
      nil, head, tree, nodes := z, h, Leaf, {h, z};
    }

    /** The regions in the tree, in order of their start addresses. */
    ghost function Regions(): seq<Node>
      reads this
    {
      InOrder(tree)
    }

    /** Everything but the colour of the root. */
    ghost predicate Linked()
      reads this, nodes
    {
      Forms(Mem(), tree)
    }

    ghost predicate Forms(m: Links, t: Tree) {
      && m.Keys == Nodes(t) + {head, nil}
      && At(m, head, nil, Top, m[head].right, t)
      && m[nil] == Link(nil, nil, false) && !m[head].red
      && Coloured(t) && Sorted(InOrder(t))
    }

    ghost predicate Valid()
      reads this, nodes
    {
      Linked() && !IsRed(tree)
    }

    /** What memory holds for those nodes. */
    ghost function Mem(): Links
      reads this`nodes, nodes
    {
      map n | n in nodes :: Link(n.left, n.right, n.red)
    }

    /** Compare a key against a node; every key is greater than the sentinels. */
    function Compare(key: int, node: Node): int {
      if node == nil || node == head then 1
      else if key < node.start then -1
      else if key > node.start then 1
      else 0
    }

    method SetLeft(node: Node, value: Node?)
      requires node in nodes
      modifies node`left
      ensures Mem() == old(Mem())[node := old(Mem())[node].(left := value)]
    {
      node.left := value;
    }

    method SetRight(node: Node, value: Node?)
      requires node in nodes
      modifies node`right
      ensures Mem() == old(Mem())[node := old(Mem())[node].(right := value)]
    {
      node.right := value;
    }

    method SetRed(node: Node)
      requires node in nodes
      modifies node`red
      ensures Mem() == old(Mem())[node := old(Mem())[node].(red := true)]
    {
      node.red := true;
    }

    method SetBlack(node: Node)
      requires node in nodes
      modifies node`red
      ensures Mem() == old(Mem())[node := old(Mem())[node].(red := false)]
    {
      node.red := false;
    }

    /** The pointers that a rotation follows: from the node above the last step of `c` down to the root of `t`. */
    ghost predicate Chain(m: Links, key: int, c: Path, t: Tree)
      requires t.Br? && !c.Top?
    {
      var around := Last(c.up, head);
      && {around, c.n, t.n} <= m.Keys && around != c.n && around != t.n && c.n != t.n
      && (Compare(key, around) < 0 <==> c.up.InL?) && (Compare(key, c.n) < 0 <==> c.InL?)
      && c.n == (if c.up.InL? then m[around].left else m[around].right)
      && t.n == (if c.InL? then m[c.n].left else m[c.n].right)
    }

    lemma ChainAt(m: Links, key: int, c: Path, t: Tree)
      requires t.Br? && !c.Top? && OnTrack(c, key) && At(m, head, nil, c, t.n, t)
      ensures Chain(m, key, c, t)
    {
      PathKeys(c, key);
      if !c.up.Top? { PathKeys(c.up, key); }
      assert RepPath(m, head, nil, c.n, c.up);
      assert Last(c.up, head) in PathNodes(c.up) + {head};
    }

    /** Rotate a sub-tree around a node: the key's grandchild of `around` comes above the key's child. */
    method CacheRotate(key: int, around: Node, ghost c: Path, ghost t: Tree) returns (grandChild: Node)
      requires t.Br? && !c.Top? && Chain(Mem(), key, c, t) && around == Last(c.up, head)
      modifies nodes`left, nodes`right
      ensures grandChild == t.n && Mem() == Relinked(old(Mem()), head, c, t)
    {
      var child: Node?;
      var setOnLeft := Compare(key, around) < 0;
      if setOnLeft { child := around.left; } else { child := around.right; }
      if Compare(key, child) < 0 {
        grandChild := child.left;
        SetLeft(child, grandChild.right);
        SetRight(grandChild, child);
      } else {
        grandChild := child.right;
        SetRight(child, grandChild.left);
        SetLeft(grandChild, child);
      }
      if setOnLeft { SetLeft(around, grandChild); } else { SetRight(around, grandChild); }
    }

    /** The path with its second last step painted red. */
    static function Painted(c: Path): Path
      requires !c.Top? && !c.up.Top?
    {
      c.(up := c.up.(red := true))
    }

    lemma PaintedAt(m: Links, c: Path, t: Tree)
      requires t.Br? && !c.Top? && !c.up.Top? && At(m, head, nil, c, t.n, t)
      ensures c.up.n in m && At(m[c.up.n := m[c.up.n].(red := true)], head, nil, Painted(c), t.n, t)
      ensures At(m[c.up.n := m[c.up.n].(red := true)], head, nil, Painted(c).up, c.n, Hung(c, t))
    {
      HangAt(m, head, nil, c, t.n, t);
      PaintStep(m, head, nil, c.up, c.n, Hung(c, t), true);
      HangAt(m[c.up.n := m[c.up.n].(red := true)], head, nil, Painted(c), t.n, t);
    }

    /** One rotation for a straight path, two for a zigzag. */
    method RotateTwice(key: int, parent: Node, grandParent: Node, greatGrandParent: Node, ghost c: Path, ghost t: Tree)
      returns (parent': Node, temp': Node)
      requires t.Br? && !c.Top? && !c.up.Top? && OnTrack(c, key) && OnTrack(c.up, key)
      requires At(Mem(), head, nil, c, t.n, t) && At(Mem(), head, nil, c.up, c.n, Hung(c, t))
      requires parent == c.n && grandParent == c.up.n && greatGrandParent == Last(c.up.up, head)
      modifies nodes`left, nodes`right
      ensures KeepsEnds(old(Mem()), Mem(), head, nil)
      ensures var s := Single(c.up, if c.InL? == c.up.InL? then Hung(c, t) else Single(c, t));
        temp' == s.n && At(Mem(), head, nil, c.up.up, temp', s)
    {
      hide At, Relinked, OnTrack;
      parent' := parent;
      ChainAt(Mem(), key, c, t);
      if (Compare(key, grandParent) < 0) != (Compare(key, parent) < 0) {
        RelinkedAt(Mem(), head, nil, c, t);
        parent' := CacheRotate(key, grandParent, c, t);
        ChainAt(Mem(), key, c.up, Single(c, t));
        RelinkedAt(Mem(), head, nil, c.up, Single(c, t));
        temp' := CacheRotate(key, greatGrandParent, c.up, Single(c, t));
      } else {
        ChainAt(Mem(), key, c.up, Hung(c, t));
        RelinkedAt(Mem(), head, nil, c.up, Hung(c, t));
        temp' := CacheRotate(key, greatGrandParent, c.up, Hung(c, t));
      }
    }

    lemma PaintedOnTrack(c: Path, t: Tree, key: int)
      requires IsRed(t) && IsRedStep(c) && !c.up.Top? && OnTrack(c, key)
      ensures OnTrack(Painted(c), key) && OnTrack(Painted(c).up, key)
      ensures var s := Single(Painted(c).up, if c.InL? == c.up.InL? then Hung(c, t) else Single(Painted(c), t));
        s.Br? && Lifted(c, t) == s.(red := false)
    {
      PaintedSides(c);
      PathKeys(Painted(c), key);
    }

    lemma PaintedSides(c: Path)
      requires !c.Top? && !c.up.Top?
      ensures Before(Painted(c)) == Before(c) && After(Painted(c)) == After(c)
    {
      hide InOrder;
      assert Before(c.up.(red := true)) == Before(c.up) && After(c.up.(red := true)) == After(c.up);
    }

    /** The second half of `Split`: lift the red node at the hole over its red parent. */
    method Rotate(key: int, parent: Node, grandParent: Node, greatGrandParent: Node, ghost c: Path, ghost t: Tree)
      returns (parent': Node, temp': Node)
      requires IsRed(t) && IsRedStep(c) && !c.up.Top? && OnTrack(c, key) && At(Mem(), head, nil, c, t.n, t)
      requires parent == c.n && grandParent == c.up.n && greatGrandParent == Last(c.up.up, head)
      modifies nodes`left, nodes`right, nodes`red
      ensures KeepsEnds(old(Mem()), Mem(), head, nil)
      ensures At(Mem(), head, nil, c.up.up, temp', Lifted(c, t)) && temp' == Lifted(c, t).n
    {
      PaintedAt(Mem(), c, t);
      PaintedOnTrack(c, t, key);
      SetRed(grandParent);
      parent', temp' := RotateTwice(key, parent, grandParent, greatGrandParent, Painted(c), t);
      ghost var c' := Painted(c);
      PaintRoot(Mem(), head, nil, c.up.up, Single(c'.up, if c.InL? == c.up.InL? then Hung(c, t) else Single(c', t)),
        false);
      SetBlack(temp');
    }

    /** The `Split` macro.  At a node with two red children it makes the node red and its children black; at
        `nil` (where it follows an insertion) that has no effect.  Then the red node at the hole is lifted if its
        parent is red too.  `s` is the sub-tree at the hole between the two halves. */
    method Split(key: int, temp: Node, parent: Node, grandParent: Node, greatGrandParent: Node,
                 ghost c: Path, ghost t: Tree, ghost s: Tree)
      returns (parent': Node, temp': Node)
      requires t.Br? && At(Mem(), head, nil, c, t.n, t) && OnTrack(c, key) && IsRed(s)
      requires nil in nodes && head in nodes && Mem()[nil] == Link(nil, nil, false) && !Mem()[head].red
      requires (temp == nil && s == t) || (temp == t.n && t.l.Br? && t.r.Br? && s == Recolour(t))
      requires parent == Last(c, head)
      requires IsRedStep(c) ==> !c.up.Top? && grandParent == c.up.n && greatGrandParent == Last(c.up.up, head)
      modifies nodes`left, nodes`right, nodes`red
      ensures Mem()[nil] == Link(nil, nil, false) && !Mem()[head].red
      ensures if IsRedStep(c) then At(Mem(), head, nil, c.up.up, temp', Lifted(c, s)) && temp' == Lifted(c, s).n
              else At(Mem(), head, nil, c, s.n, s) && parent' == parent && temp' == temp
    {
      parent', temp' := parent, temp;
      ghost var m := Mem();
      RecolouredAt(m, c, t, temp, s);
      SetRed(temp);
      SetBlack(temp.left);
      SetBlack(temp.right);
      assert Mem()[parent].red == parent.red;
      if parent.red {
        parent', temp' := Rotate(key, parent, grandParent, greatGrandParent, c, s);
      }
    }

    /** The three writes of the first half of `Split`. */
    static function Recoloured(m: Links, temp: Node): Links
      requires temp in m && m[temp].left in m && m[temp].right in m && m[temp].left != null && m[temp].right != null
    {
      var m1 := m[temp := m[temp].(red := true)];
      var m2 := m1[m[temp].left := m1[m[temp].left].(red := false)];
      m2[m[temp].right := m2[m[temp].right].(red := false)]
    }

    lemma RecolouredAt(m: Links, c: Path, t: Tree, temp: Node, s: Tree)
      requires t.Br? && At(m, head, nil, c, t.n, t)
      requires nil in m && m[nil] == Link(nil, nil, false)
      requires (temp == nil && s == t) || (temp == t.n && t.l.Br? && t.r.Br? && s == Recolour(t))
      ensures temp in m && m[temp].left in m && m[temp].right in m && m[temp].left != null && m[temp].right != null
      ensures var m' := Recoloured(m, temp);
        At(m', head, nil, c, s.n, s) && KeepsEnds(m, m', head, nil)
    {
      if temp == nil {
        assert Recoloured(m, nil) == m by { assert m[nil].(red := false) == m[nil]; }
      } else {
        assert Rep(m, nil, m[temp].left, t.l) && Rep(m, nil, m[temp].right, t.r);
        PaintRoot(m, head, nil, c, t, true);
        var m1 := m[temp := m[temp].(red := true)];
        var m2 := m1[m[temp].left := m1[m[temp].left].(red := false)];
        var left, right := InL(c, t.n, true, t.r), InR(c, t.l.(red := false), t.n, true);
        HangAt(m1, head, nil, left, t.l.n, t.l);
        PaintRoot(m1, head, nil, left, t.l, false);
        HangAt(m2, head, nil, left, t.l.n, t.l.(red := false));
        HangAt(m2, head, nil, right, t.r.n, t.r);
        PaintRoot(m2, head, nil, right, t.r, false);
        assert m2[m[temp].right := m2[m[temp].right].(red := false)] == Recoloured(m, temp);
        HangAt(Recoloured(m, temp), head, nil, right, t.r.n, t.r.(red := false));
      }
    }

    predicate BothRed(t: Tree) { t.Br? && IsRed(t.l) && IsRed(t.r) }

    /** No node on the way to `key` has two red children. */
    predicate Quick(t: Tree, key: int) {
      t.Leaf? || (!BothRed(t) && (key == t.n.start || Quick(Toward(t, key), key)))
    }

    /** Where the insertion of `key` stands, leaving out its ancestor pointers. */
    ghost predicate Standing(m: Links, c: Path, temp: Node?, t: Tree, key: int, all: seq<Node>)
    {
      && head in m && nil in m && m[nil] == Link(nil, nil, false) && !m[head].red
      && m.Keys == PathNodes(c) + Nodes(t) + {head, nil}
      && At(m, head, nil, c, temp, t)
      && Coloured(t) && PathColoured(c, BlackHeight(t), IsRed(t)) && OnTrack(c, key)
      && InOrder(Join(c, t)) == all && Sorted(all)
    }

    lemma StandLower(m: Links, c: Path, temp: Node, t: Tree, key: int, all: seq<Node>)
      requires Standing(m, c, temp, t, key, all) && t.Br? && key != t.n.start
      ensures var down := if key < t.n.start then m[temp].left else m[temp].right;
        Standing(m, Extended(c, t, key), down, Toward(t, key), key, all)
      ensures Join(Extended(c, t, key), Toward(t, key)) == Join(c, t)
    {
      hide Coloured, PathColoured, OnTrack, InOrder, Join, Sorted, BlackHeight, IsRed;
      StepDown(c, t, key);
      ColoursLower(c, t, key);
      var down := if key < t.n.start then m[temp].left else m[temp].right;
      HangAt(m, head, nil, Extended(c, t, key), down, Toward(t, key));
    }

    lemma ColoursLower(c: Path, t: Tree, key: int)
      requires t.Br? && Coloured(t) && PathColoured(c, BlackHeight(t), IsRed(t))
      ensures var c', t' := Extended(c, t, key), Toward(t, key);
        Coloured(t') && PathColoured(c', BlackHeight(t'), IsRed(t'))
    {
    }

    lemma Kids(m: Links, c: Path, temp: Node?, t: Tree, key: int, all: seq<Node>)
      requires Standing(m, c, temp, t, key, all)
      ensures temp != null && temp in m && m[temp].left != null && m[temp].right != null
      ensures m[temp].left in m && m[temp].right in m
      ensures m[m[temp].left].red && m[m[temp].right].red <==> BothRed(t)
    {
      if t.Br? { assert Rep(m, nil, m[t.n].left, t.l) && Rep(m, nil, m[t.n].right, t.r); }
    }

    lemma LiftedStands(c: Path, t: Tree, key: int)
      requires IsRedStep(c) && !Crowded(c.up) && OnTrack(c, key) && IsRed(t)
      requires Coloured(t) && PathColoured(c, BlackHeight(t), false)
      ensures var s := Lifted(c, t);
        && OnTrack(c.up.up, key) && InOrder(Join(c.up.up, s)) == InOrder(Join(c, t))
        && Coloured(s) && PathColoured(c.up.up, BlackHeight(s), IsRed(s))
        && PathNodes(c.up.up) + Nodes(s) == PathNodes(c) + Nodes(t)
        && IsRed(Join(c.up.up, s)) == IsRed(Join(c, t))
    {
      PathKeys(c, key);
      PathKeys(c.up, key);
      JoinInOrder(c, t);
      JoinInOrder(c.up.up, Lifted(c, t));
      LiftedInOrder(c, t);
      LiftedNodes(c, t);
      LiftedColoured(c, t);
      RootColour(c, t);
      RootColour(c.up.up, Lifted(c, t));
    }

    lemma RecolouredStands(c: Path, t: Tree)
      requires BothRed(t) && !t.red && Coloured(t)
      ensures var s := Recolour(t);
        && InOrder(Join(c, s)) == InOrder(Join(c, t)) && Coloured(s) && JustSplit(s)
        && BlackHeight(s) == BlackHeight(t) && Nodes(s) == Nodes(t)
        && (IsRed(Join(c, s)) <==> c.Top? || IsRed(Join(c, t)))
    {
      RecolourFacts(t);
      JoinInOrder(c, t);
      JoinInOrder(c, Recolour(t));
      RootColour(c, t);
      RootColour(c, Recolour(t));
    }

    lemma {:induction false} ReColourPath(c: Path, h: nat)
      requires PathColoured(c, h, false) && !IsRedStep(c)
      ensures PathColoured(c, h, true)
    {
    }

    /** The place after `Split` repaired the colours around it. */
    lemma StandRepaired(m: Links, m': Links, c: Path, temp: Node?, t: Tree, temp': Node, key: int, all: seq<Node>)
      requires Standing(m, c, temp, t, key, all) && BothRed(t)
      requires IsRedStep(c) ==> !Crowded(c.up)
      requires KeepsEnds(m, m', head, nil) && m'.Keys == m.Keys
      requires if IsRedStep(c) then At(m', head, nil, c.up.up, temp', Lifted(c, Recolour(t)))
        else At(m', head, nil, c, temp', Recolour(t))
      ensures var c' := if IsRedStep(c) then c.up.up else c;
        var t' := if IsRedStep(c) then Lifted(c, Recolour(t)) else Recolour(t);
        Standing(m', c', temp', t', key, all) && (IsRed(Join(c', t')) <==> c.Top? || IsRed(Join(c, t)))
    {
      RecolouredStands(c, t);
      if IsRedStep(c) { LiftedStands(c, Recolour(t), key); } else { ReColourPath(c, BlackHeight(t)); }
    }

    /** The part of the descent that follows a step down: split the node reached if both its children are red. */
    method SplitIfFull(key: int, node: Node, parent: Node, grandParent: Node, greatGrandParent: Node,
                       ghost oldGreat: Node, ghost ph: Phase, ghost c: Path, ghost t: Tree,
                       ghost c1: Path, ghost t1: Tree, ghost all: seq<Node>)
      returns (parent': Node, temp: Node, ghost ph': Phase, ghost c': Path, ghost t': Tree)
      requires Standing(Mem(), c1, node, t1, key, all) && parent == Last(c1, head)
      requires Tracked(ph, c, t, key, head, grandParent, greatGrandParent, oldGreat) && Coloured(t)
      requires if ph.AtHead? then c1 == Top && t1 == t
               else t.Br? && key != t.n.start && c1 == Extended(c, t, key) && t1 == Toward(t, key)
      modifies nodes`left, nodes`right, nodes`red
      ensures Standing(Mem(), c', temp, t', key, all) && !ph'.AtHead?
      ensures Tracked(ph', c', t', key, head, parent', grandParent, greatGrandParent)
      ensures IsRed(Join(c', t')) == (if ph.AtHead? then BothRed(t) else IsRed(Join(c1, t1)))
      ensures Steps(t', key) <= Steps(t1, key)
        || (ph'.Lift? && Caught(ph).Fresh? && Steps(t', key) <= 1 + Steps(t1, key))
      ensures !BothRed(t1) ==> c' == c1 && t' == t1
    {
      hide RepPath, Apart, PathApart, InOrder, Sorted, OnTrack, BlackHeight, PathColoured;
      parent', temp, ph', c', t' := parent, node, Caught(ph), c1, t1;
      if !ph.AtHead? { Arrive(ph, c, t, key, head, grandParent, greatGrandParent, oldGreat); }
      Kids(Mem(), c1, node, t1, key, all);
      if node.left.red && node.right.red {
        RecolourSteps(t1, key);
        RecolouredStands(c1, t1);
        ghost var m, s := Mem(), Recolour(t1);
        parent', temp := Split(key, temp, parent, grandParent, greatGrandParent, c1, t1, s);
        StandRepaired(m, Mem(), c1, t1.n, t1, temp, key, all);
        if IsRedStep(c1) {
          SplitRed(c1, s, key);
          ph', c', t' := Lift, c1.up.up, Lifted(c1, s);
        } else {
          if !ph.AtHead? { SplitBlack(ph, c, t, key, head, grandParent, greatGrandParent, oldGreat); }
          ph', t' := Fresh, s;
        }
      }
    }

    /** Hang a new red leaf at the empty place reached. */
    lemma Planted(m: Links, m': Links, c: Path, region: Node)
      requires At(m, head, nil, c, nil, Leaf) && region !in m && nil in m && Last(c, head) in m && region != head
        && head in m
      requires m'.Keys == m.Keys + {region} && m'[region] == Link(nil, nil, true)
      requires forall n :: n in m && n != Last(c, head) ==> m'[n] == m[n]
      requires m'[Last(c, head)] == if c.InL? then m[c.n].(left := region) else m[Last(c, head)].(right := region)
      ensures At(m', head, nil, c, region, Br(Leaf, region, true, Leaf)) && nil in m'
    {
      InPath(m, c, nil);
      PlantedPath(m, m', c, region);
    }

    lemma {:induction false} InPath(m: Links, c: Path, p: Node?)
      requires RepPath(m, head, nil, p, c)
      ensures PathNodes(c) + {head} <= m.Keys
      decreases c
    {
      match c
      case Top =>
      case InL(up, n, _, r) => InTree(m, m[n].right, r); InPath(m, up, n);
      case InR(up, l, n, _) => InTree(m, m[n].left, l); InPath(m, up, n);
    }

    lemma {:induction false} InTree(m: Links, p: Node?, t: Tree)
      requires Rep(m, nil, p, t)
      ensures Nodes(t) <= m.Keys
    {
      if t.Br? { InTree(m, m[t.n].left, t.l); InTree(m, m[t.n].right, t.r); }
    }

    lemma PlantedPath(m: Links, m': Links, c: Path, q: Node)
      requires RepPath(m, head, nil, nil, c) && PathApart(c) && head !in PathNodes(c) && q !in PathNodes(c)
      requires Last(c, head) in m && m.Keys <= m'.Keys
      requires forall n :: n in m && n != Last(c, head) ==> m'[n] == m[n]
      requires m'[Last(c, head)] == if c.InL? then m[c.n].(left := q) else m[Last(c, head)].(right := q)
      ensures RepPath(m', head, nil, q, c)
    {
      match c
      case Top =>
      case InL(up, n, _, r) => RepSame(m, m', nil, m[n].right, r); RepPathSame(m, m', head, nil, n, up);
      case InR(up, l, n, _) => RepSame(m, m', nil, m[n].left, l); RepPathSame(m, m', head, nil, n, up);
    }

    /** The colours after the last repair, once the root is painted black. */
    lemma PlantedColours(c: Path, region: Node)
      requires PathColoured(c, 0, false) && (IsRedStep(c) ==> !Crowded(c.up))
      ensures var t := Br(Leaf, region, true, Leaf);
        var root := if IsRedStep(c) then Join(c.up.up, Lifted(c, t)) else Join(c, t);
        && root.Br? && Coloured(root.(red := false)) && InOrder(root.(red := false)) == InOrder(Join(c, t))
        && Nodes(root.(red := false)) == PathNodes(c) + {region}
    {
      var t := Br(Leaf, region, true, Leaf);
      if IsRedStep(c) {
        var s := Lifted(c, t);
        LiftedColoured(c, t);
        LiftedInOrder(c, t);
        LiftedNodes(c, t);
        JoinInOrder(c, t);
        JoinInOrder(c.up.up, s);
        JoinNodes(c.up.up, s);
        JoinColoured(c.up.up, s);
        RootColour(c.up.up, s);
      } else {
        ReColourPath(c, 0);
        JoinNodes(c, t);
        JoinColoured(c, t);
        RootColour(c, t);
      }
    }

    /** The place where `region` goes and how it is linked in. */
    method Attach(region: Node, parent: Node, ghost c: Path)
      requires At(Mem(), head, nil, c, nil, Leaf) && region !in nodes && region != head && region != nil
      requires OnTrack(c, region.start) && parent == Last(c, head) && nil in nodes && head in nodes
      modifies this`nodes, parent`left, parent`right, region`left, region`right, region`red
      ensures nodes == old(nodes) + {region} && old(nodes) >= PathNodes(c)
      ensures At(Mem(), head, nil, c, region, Br(Leaf, region, true, Leaf))
      ensures KeepsEnds(old(Mem()), Mem(), head, nil)
    {
      hide RepPath, Rep, PathApart, Apart, OnTrack;
      ghost var m := Mem();
      InPath(m, c, nil);
      if !c.Top? { PathKeys(c, region.start); }
      region.left, region.red, region.right := nil, true, nil;
      nodes := nodes + {region};
      assert parent in old(nodes);
      if Compare(region.start, parent) < 0 { SetLeft(parent, region); } else { SetRight(parent, region); }
      Planted(m, Mem(), c, region);
    }

    /** The whole tree once the colours around the new node are repaired and the root is painted black. */
    lemma PlantedForms(m: Links, c: Path, temp: Node, region: Node, all: seq<Node>)
      requires PathColoured(c, 0, false) && (IsRedStep(c) ==> !Crowded(c.up))
      requires OnTrack(c, region.start) && InOrder(Join(c, Leaf)) == all && Sorted(all)
      requires m.Keys == PathNodes(c) + {region, head, nil}
      requires m[nil] == Link(nil, nil, false) && !m[head].red
      requires var t := Br(Leaf, region, true, Leaf);
        if IsRedStep(c) then At(m, head, nil, c.up.up, temp, Lifted(c, t)) else At(m, head, nil, c, region, t)
      ensures var root := Grown(c, region);
        && root.Br? && root.n in m && m[head].right == root.n && Forms(m[root.n := m[root.n].(red := false)], root)
        && !root.red && InOrder(root) == Inserted(all, region)
    {
      hide PathColoured, Coloured, OnTrack, RepPath, Apart, PathApart, Lifted, Inserted;
      var t := Br(Leaf, region, true, Leaf);
      PlantedOrder(c, region, all);
      PlantedColours(c, region);
      if IsRedStep(c) {
        JoinAt(m, head, nil, c.up.up, temp, Lifted(c, t));
      } else {
        JoinAt(m, head, nil, c, region, t);
      }
      PaintRoot(m, head, nil, Top, if IsRedStep(c) then Join(c.up.up, Lifted(c, t)) else Join(c, t), false);
    }

    static function Grown(c: Path, region: Node): Tree {
      var t := Br(Leaf, region, true, Leaf);
      match if IsRedStep(c) && !Crowded(c.up) then Join(c.up.up, Lifted(c, t)) else Join(c, t)
      case Leaf => Leaf
      case Br(l, n, _, r) => Br(l, n, false, r)
    }

    /** Repair the colours around the new red leaf one last time. */
    method Finish(region: Node, parent: Node, grandParent: Node, greatGrandParent: Node, ghost c: Path,
                  ghost all: seq<Node>)
      requires At(Mem(), head, nil, c, region, Br(Leaf, region, true, Leaf))
        && nodes == PathNodes(c) + {region, head, nil}
      requires Mem()[nil] == Link(nil, nil, false) && !Mem()[head].red
      requires PathColoured(c, 0, false) && OnTrack(c, region.start) && InOrder(Join(c, Leaf)) == all && Sorted(all)
      requires Tracked(Fresh, c, Leaf, region.start, head, parent, grandParent, greatGrandParent)
      modifies this`tree, nodes`left, nodes`right, nodes`red
      ensures Valid() && Regions() == Inserted(all, region) && tree == Grown(c, region)
    {
      hide At, Coloured, PathColoured, OnTrack, Inserted, Sorted, InOrder, Join, Grown, Lifted, Forms;
      ghost var t := Br(Leaf, region, true, Leaf);
      var _, temp := Split(region.start, nil, parent, grandParent, greatGrandParent, c, t, t);
      PlantedForms(Mem(), c, temp, region, all);
      tree := Grown(c, region);
      assert Mem()[head].right == head.right;
      SetBlack(head.right);
    }

    /** Insert the new node at the empty place reached. */
    method Insert(region: Node, parent: Node, grandParent: Node, greatGrandParent: Node, ghost c: Path,
                  ghost all: seq<Node>)
      requires Standing(Mem(), c, nil, Leaf, region.start, all) && region !in nodes
      requires Tracked(Fresh, c, Leaf, region.start, head, parent, grandParent, greatGrandParent)
      modifies this, nodes`left, nodes`right, nodes`red, region`left, region`right, region`red
      ensures Valid() && Regions() == Inserted(all, region) && nodes == old(nodes) + {region}
      ensures tree == Grown(c, region)
    {
      InPath(Mem(), c, nil);
      assert parent in nodes;
      Attach(region, parent, c);
      Finish(region, parent, grandParent, greatGrandParent, c, all);
    }

    lemma PlantedOrder(c: Path, region: Node, all: seq<Node>)
      requires OnTrack(c, region.start) && InOrder(Join(c, Leaf)) == all && Sorted(all)
      ensures InOrder(Join(c, Br(Leaf, region, true, Leaf))) == Inserted(all, region) && Sorted(Inserted(all, region))
    {
      JoinInOrder(c, Leaf);
      JoinInOrder(c, Br(Leaf, region, true, Leaf));
      assert all == Before(c) + After(c);
      InsertedBetween(Before(c), region, After(c));
      SortedBetween(Before(c), region, After(c));
    }

    method Child(key: int, node: Node, cmp: int, ghost atHead: bool, ghost hole: Node?, ghost c: Path, ghost t: Tree,
                 ghost all: seq<Node>)
      returns (down: Node)
      requires Standing(Mem(), c, hole, t, key, all) && cmp == Compare(key, node) && cmp != 0
      requires if atHead then node == head && hole == head.right && c == Top else node == hole && t.Br?
      ensures if atHead then down == hole
              else Standing(Mem(), Extended(c, t, key), down, Toward(t, key), key, all) && key != t.n.start
      ensures !atHead ==> Join(Extended(c, t, key), Toward(t, key)) == Join(c, t)
    {
      Kids(Mem(), c, hole, t, key, all);
      assert Mem()[node] == Link(node.left, node.right, node.red);
      if cmp < 0 { down := node.left; } else { down := node.right; }
      if !atHead { StandLower(Mem(), c, node, t, key, all); }
    }

    /** Search for the insert position, splitting full nodes on the way down.  `hole` is what the last link holds. */
    method Descend(key: int) returns (found: bool, parent: Node, grandParent: Node, greatGrandParent: Node,
                                      ghost c: Path, ghost t: Tree)
      requires Valid()
      modifies nodes`left, nodes`right, nodes`red
      ensures IsRed(Join(c, t)) == BothRed(tree)
      ensures found ==> Forms(Mem(), Join(c, t)) && InOrder(Join(c, t)) == Regions() && Taken(Regions(), key)
      ensures !found ==> t == Leaf && Standing(Mem(), c, nil, Leaf, key, Regions())
      ensures !found ==> Tracked(Fresh, c, Leaf, key, head, parent, grandParent, greatGrandParent)
      ensures !found && Quick(tree, key) ==> c == WayTo(Top, tree, key)
    {
      hide At, Standing, Tracked, Forms, Coloured, PathColoured, Join, InOrder, Sorted, IsRed, BothRed,
        Quick;
      StartDescent(key);
      var temp: Node := head;
      greatGrandParent, grandParent, parent := temp, temp, temp;
      ghost var all := Regions();
      ghost var ph, hole := AtHead, head.right;
      c, t := Top, tree;
      while temp != nil
        invariant Standing(Mem(), c, hole, t, key, all) && hole == if ph.AtHead? then head.right else temp
        invariant Tracked(ph, c, t, key, head, parent, grandParent, greatGrandParent)
        invariant ph.AtHead? ==> temp == head && t == tree && c == Top
        invariant !ph.AtHead? ==> IsRed(Join(c, t)) == BothRed(tree)
        invariant Quick(tree, key) ==> Quick(t, key) && WayTo(c, t, key) == WayTo(Top, tree, key)
        decreases if ph.AtHead? then 1 else 0, Steps(t, key), if ph.Lift? then 0 else 1
      {
        ghost var oldGreat := greatGrandParent;
        greatGrandParent := grandParent;
        grandParent := parent;
        parent := temp;
        var cmp := Compare(key, temp);
        Here(Mem(), ph, c, hole, t, key, all);
        if cmp == 0 {
          FoundDuplicate(Mem(), c, temp, t, key, all);
          found := true;
          return;
        }
        ghost var c1, t1 := if ph.AtHead? then Top else Extended(c, t, key), if ph.AtHead? then t else Toward(t, key);
        temp := Child(key, temp, cmp, ph.AtHead?, hole, c, t, all);
        QuickOn(c, t, key);
        QuickOn(c1, t1, key);
        parent, temp, ph, c, t :=
          SplitIfFull(key, temp, parent, grandParent, greatGrandParent, oldGreat, ph, c, t, c1, t1, all);
        hole := temp;
      }
      EndDescent(ph, c, t, key, parent, grandParent, greatGrandParent, all);
      found := false;
    }

    lemma QuickOn(c: Path, t: Tree, key: int)
      ensures Quick(t, key) ==> !BothRed(t)
      ensures Quick(t, key) && t.Br? && key != t.n.start ==>
        Quick(Toward(t, key), key) && WayTo(Extended(c, t, key), Toward(t, key), key) == WayTo(c, t, key)
    {
    }

    lemma StartDescent(key: int)
      requires Valid()
      ensures Standing(Mem(), Top, head.right, tree, key, Regions())
        && Tracked(AtHead, Top, tree, key, head, head, head, head)
      ensures head in nodes && nil in nodes && head != nil
    {
      assert Mem()[head].right == head.right;
    }

    lemma Here(m: Links, ph: Phase, c: Path, hole: Node?, t: Tree, key: int, all: seq<Node>)
      requires Standing(m, c, hole, t, key, all)
      ensures hole == (if t.Br? then t.n else nil) && (t.Br? ==> t.n != nil && t.n != head) && Coloured(t)
      ensures nil in m && head in m && head != nil
    {
    }

    lemma EndDescent(ph: Phase, c: Path, t: Tree, key: int, p: Node, g: Node, gg: Node, all: seq<Node>)
      requires Standing(Mem(), c, nil, t, key, all) && Tracked(ph, c, t, key, head, p, g, gg) && !ph.AtHead?
      ensures ph == Fresh && t == Leaf
    {
    }

    /** Add a region to the tree.  A region whose start address is already taken is ignored, but the nodes split on
        the way to it stay split. */
    method AddToLookupTree(region: Node)
      requires Valid() && region !in nodes
      modifies this, nodes`left, nodes`right, nodes`red, region`left, region`right, region`red
      ensures Taken(old(Regions()), region.start) ==>
        && Linked() && Regions() == old(Regions()) && nodes == old(nodes)
        && (Valid() <==> !BothRed(old(tree)))
      ensures !Taken(old(Regions()), region.start) ==>
        && Valid() && Regions() == Inserted(old(Regions()), region) && nodes == old(nodes) + {region}
      // with nothing to split on the way, the tree grows a leaf at its place, and is repaired there
      ensures !Taken(old(Regions()), region.start) && Quick(old(tree), region.start) ==>
        tree == Grown(WayTo(Top, old(tree), region.start), region)
    {
      hide Forms, Tracked, InOrder, Join, Taken, Inserted, IsRed, BothRed, At, Coloured, PathColoured, Sorted, Grown,
        WayTo, Quick;
      var found, parent, grandParent, greatGrandParent, c, t := Descend(region.start);
      if found {
        tree := Join(c, t);
        return;
      }
      NoDuplicate(c, region.start, Regions());
      Insert(region, parent, grandParent, greatGrandParent, c, Regions());
    }

    lemma FoundDuplicate(m: Links, c: Path, temp: Node, t: Tree, key: int, all: seq<Node>)
      requires Standing(m, c, temp, t, key, all) && t.Br? && t.n.start == key
      ensures var s := Join(c, t);
        Forms(m, s) && InOrder(s) == all && Taken(all, key)
    {
      InOrderNodes(Join(c, t));
      JoinNodes(c, t);
      JoinAt(m, head, nil, c, temp, t);
      JoinColoured(c, t);
    }

    lemma NoDuplicate(c: Path, key: int, all: seq<Node>)
      requires OnTrack(c, key) && InOrder(Join(c, Leaf)) == all
      ensures !Taken(all, key)
    {
      JoinInOrder(c, Leaf);
    }
  }

  function RedLeaf(n: Node): Tree { Br(Leaf, n, true, Leaf) }

  function Three(one: Node, two: Node, three: Node): Tree { Br(RedLeaf(one), two, false, RedLeaf(three)) }

  /** Insertion in the order 2, 1, 3, step by step. */
  lemma ThreeGrow(t: LookupTree, one: Node, two: Node, three: Node)
    requires one.start < two.start < three.start
    ensures t.Quick(Leaf, two.start) && LookupTree.Grown(WayTo(Top, Leaf, two.start), two) == Br(Leaf, two, false, Leaf)
    ensures var s := Br(Leaf, two, false, Leaf);
      t.Quick(s, one.start) && LookupTree.Grown(WayTo(Top, s, one.start), one) == Br(RedLeaf(one), two, false, Leaf)
    ensures var s := Br(RedLeaf(one), two, false, Leaf);
      t.Quick(s, three.start) && LookupTree.Grown(WayTo(Top, s, three.start), three) == Three(one, two, three)
  {
    var c, d := InL(Top, two, false, Leaf), InR(Top, RedLeaf(one), two, false);
    assert WayTo(Top, Br(Leaf, two, false, Leaf), one.start) == WayTo(c, Leaf, one.start) == c;
    assert WayTo(Top, Br(RedLeaf(one), two, false, Leaf), three.start) == WayTo(d, Leaf, three.start) == d;
    assert Join(c, RedLeaf(one)) == Join(Top, Br(RedLeaf(one), two, false, Leaf));
    assert Join(d, RedLeaf(three)) == Join(Top, Three(one, two, three));
  }

  lemma ThreeOrder(one: Node, two: Node, three: Node)
    ensures InOrder(Leaf) == [] && InOrder(Br(Leaf, two, false, Leaf)) == [two]
    ensures InOrder(Br(RedLeaf(one), two, false, Leaf)) == [one, two]
    ensures InOrder(Three(one, two, three)) == [one, two, three]
  {
    assert InOrder(RedLeaf(one)) == [] + [one] + [] && InOrder(RedLeaf(three)) == [] + [three] + [];
  }

  /** Insertion in the order 2, 1, 3 gives a tree of three regions whose root has two red children.  A second region
      that starts at 2 is not inserted, but leaves the root red. */
  method SpoiledByDuplicate() returns (t: LookupTree)
    ensures t.Linked() && !t.Valid() && |t.Regions()| == 3
  {
    hide LookupTree.Valid, LookupTree.Linked, LookupTree.Quick, LookupTree.Grown, InOrder, WayTo, Inserted;
    t := new LookupTree();
    var one := new Node(1, 2, 7, 0);
    var two := new Node(2, 3, 7, 0);
    var three := new Node(3, 4, 7, 0);
    var again := new Node(2, 3, 8, 0);
    ThreeGrow(t, one, two, three);
    ThreeOrder(one, two, three);
    t.AddToLookupTree(two);
    t.AddToLookupTree(one);
    t.AddToLookupTree(three);
    assert t.Regions()[1] == two && two in t.Regions();
    t.AddToLookupTree(again);
  }
}
