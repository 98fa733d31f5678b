/** The values that one block uses and defines (jit/jit-cfg.c, `create_value_entries` and
    `compute_local_live_sets`). */
module LocalLiveness {
  import opened Instructions
  import opened Liveness
  import Global = GlobalLiveness

  /** `get_dest`, `get_value1` and `get_value2`. */
  function GetDest(n: Insn): Value? { if n.op.Nop? then null else Tracked(n.destOther, n.dest) }
  function GetValue1(n: Insn): Value? { if n.op.Nop? then null else Tracked(n.value1Other, n.value1) }
  function GetValue2(n: Insn): Value? { if n.op.Nop? then null else Tracked(n.value2Other, n.value2) }

  function Just(v: Value?): set<Value> { if v == null then {} else {v} }

  /** The values that get an entry, and with it an index: `create_value_entries` looks at the destination and at the
      first operand, and then at the first operand once more in place of the second. */
  function Entries(blocks: seq<seq<Insn>>): set<Value> {
    if blocks == [] then {} else Entries(blocks[..|blocks| - 1]) + BlockEntries(blocks[|blocks| - 1])
  }

  function BlockEntries(b: seq<Insn>): set<Value> {
    if b == [] then {} else BlockEntries(b[..|b| - 1]) + Just(GetDest(b[|b| - 1])) + Just(GetValue1(b[|b| - 1]))
  }

  /** `use_value`. */
  function Used(use: set<Value>, def: set<Value>, entries: set<Value>, v: Value?): set<Value> {
    if v == null || v !in entries || v in def then use else use + {v}
  }

  /** The sets after the first instructions of a block. */
  ghost predicate LocalSets(b: seq<Insn>, entries: set<Value>, use: set<Value>, def: set<Value>) {
    && (forall v :: v in use ==> v in entries)
    && (forall v :: v in entries && !v.isConstant ==> (v in use <==> NextUse(b, v)) && (v in def <==> !Unwritten(b, v)))
    && (forall v :: v in entries && v.isConstant ==> v !in use && v !in def)
  }

  lemma NextUseLast(s: seq<Insn>, n: Insn, v: Value)
    ensures NextUse(s + [n], v) <==> NextUse(s, v) || (Unwritten(s, v) && Reads(n, v))
    ensures Unwritten(s + [n], v) <==> Unwritten(s, v) && Def(n) != v
  {
    var t := s + [n];
    if NextUse(s, v) {
      var j :| 0 <= j < |s| && Reads(s[j], v) && Unwritten(s[..j], v);
      assert t[..j] == s[..j] && Reads(t[j], v);
    }
    if Unwritten(s, v) && Reads(n, v) { assert t[..|s|] == s && Reads(t[|s|], v); }
    if NextUse(t, v) {
      var j :| 0 <= j < |t| && Reads(t[j], v) && Unwritten(t[..j], v);
      if j < |s| { assert t[..j] == s[..j] && Reads(s[j], v); } else { assert t[..j] == s; }
    }
    assert forall i :: 0 <= i < |s| ==> t[i] == s[i];
    if Unwritten(t, v) { assert Def(t[|s|]) != v; }
  }

  /** One instruction more. */
  lemma LocalStep(s: seq<Insn>, n: Insn, entries: set<Value>, use: set<Value>, def: set<Value>)
    requires LocalSets(s, entries, use, def) && Just(GetDest(n)) + Just(GetValue1(n)) <= entries
    ensures var dest := GetDest(n);
      var read := Used(Used(use, def, entries, GetValue1(n)), def, entries, GetValue2(n));
      LocalSets(s + [n], entries, if dest != null && n.destIsValue then Used(read, def, entries, dest) else read,
        if dest != null && !n.destIsValue then def + {dest} else def)
  {
    hide NextUse, Unwritten;
    AllLast(s, n, entries);
    assert forall v: Value :: !v.isConstant ==>
      (Reads(n, v) <==> GetValue1(n) == v || GetValue2(n) == v || (n.destIsValue && GetDest(n) == v));
    assert forall v: Value :: !v.isConstant ==> (Def(n) == v <==> !n.destIsValue && GetDest(n) == v);
    hide Reads, Def, GetDest, GetValue1, GetValue2;
  }

  lemma AllLast(s: seq<Insn>, n: Insn, entries: set<Value>)
    ensures forall v :: v in entries ==>
      && (NextUse(s + [n], v) <==> NextUse(s, v) || (Unwritten(s, v) && Reads(n, v)))
      && (Unwritten(s + [n], v) <==> Unwritten(s, v) && Def(n) != v)
  {
    forall v | v in entries ensures
      && (NextUse(s + [n], v) <==> NextUse(s, v) || (Unwritten(s, v) && Reads(n, v)))
      && (Unwritten(s + [n], v) <==> Unwritten(s, v) && Def(n) != v)
    {
      NextUseLast(s, n, v);
    }
  }

  /** `compute_local_live_sets` for one block: a value is in `use` if and only if it has an entry and is read before it
      is written in the block, and in `def` if and only if it is written. */
  method ComputeLocalLiveSets(block: seq<Insn>, entries: set<Value>) returns (use: set<Value>, def: set<Value>)
    requires BlockEntries(block) <= entries
    ensures LocalSets(block, entries, use, def)
  {
    use, def := {}, {};
    for k := 0 to |block|
      invariant LocalSets(block[..k], entries, use, def)
    {
      hide LocalSets, Used, GetDest, GetValue1, GetValue2;
      var insn := block[k];
      assert block[..k + 1] == block[..k] + [insn];
      EntryOf(block, k);
      LocalStep(block[..k], insn, entries, use, def);
      var dest, value1, value2 := GetDest(insn), GetValue1(insn), GetValue2(insn);
      use := Used(use, def, entries, value1);
      use := Used(use, def, entries, value2);
      if dest != null {
        if insn.destIsValue {
          use := Used(use, def, entries, dest);
        } else {
          def := def + {dest};
        }
      }
    }
    assert block[..|block|] == block;
  }

  lemma {:induction false} EntryOf(b: seq<Insn>, k: nat)
    requires k < |b|
    ensures Just(GetDest(b[k])) + Just(GetValue1(b[k])) <= BlockEntries(b)
  {
    if k < |b| - 1 { EntryOf(b[..|b| - 1], k); }
  }

  /** A value that all blocks read as a second operand only has no entry, so no block counts as using it. */
  lemma {:induction false} SecondOperandOnly(blocks: seq<seq<Insn>>, v: Value)
    ensures v in Entries(blocks) <==>
      exists i, k :: 0 <= i < |blocks| && 0 <= k < |blocks[i]|
        && (GetDest(blocks[i][k]) == v || GetValue1(blocks[i][k]) == v)
  {
    if blocks != [] {
      var last := |blocks| - 1;
      SecondOperandOnly(blocks[..last], v);
      InBlock(blocks[last], v);
      assert forall i :: 0 <= i < last ==> blocks[..last][i] == blocks[i];
    }
  }

  lemma {:induction false} InBlock(b: seq<Insn>, v: Value)
    ensures v in BlockEntries(b) <==> exists k :: 0 <= k < |b| && (GetDest(b[k]) == v || GetValue1(b[k]) == v)
  {
    if b != [] {
      var last := |b| - 1;
      InBlock(b[..last], v);
      assert forall i :: 0 <= i < last ==> b[..last][i] == b[i];
    }
  }

  /** The set of values used is right for every value exactly when each value that is read before it is written has an
      entry. */
  lemma UseExact(b: seq<Insn>, entries: set<Value>, use: set<Value>, def: set<Value>)
    requires LocalSets(b, entries, use, def)
    ensures (forall v: Value :: !v.isConstant ==> (v in use <==> NextUse(b, v)))
       <==> (forall v: Value :: !v.isConstant && NextUse(b, v) ==> v in entries)
  {
  }

  /** `if a < v goto L`, and no block that writes `v` or has it first: `v` is read and not in `use`. */
  lemma MissedUse(a: Value, v: Value, use: set<Value>, def: set<Value>)
    requires a != v && !v.isConstant
    requires LocalSets(CompareAndBranch(a, v), Entries([CompareAndBranch(a, v)]), use, def)
    ensures NextUse(CompareAndBranch(a, v), v) && v !in use
  {
    var b := CompareAndBranch(a, v);
    assert Reads(b[0], v) && Unwritten(b[..0], v);
    SecondOperandOnly([b], v);
  }

  function CompareAndBranch(a: Value, v: Value): seq<Insn> {
    [Insn(Other(0), true, false, false, false, Bits(false, false, false, false, false, false), null, a, v)]
  }

  // ---- What that means for the whole function ----

  /** Some way from the start of the path leads to a block that reads the value first, and no block before writes it. */
  ghost predicate WayTo(blocks: seq<seq<Insn>>, succs: seq<seq<nat>>, order: seq<Global.Slot>, path: seq<nat>, v: Value)
    requires |blocks| == |succs|
  {
    && |path| > 0 && (forall i :: 0 <= i < |path| ==> path[i] < |succs| && Global.Node(path[i]) in order)
    && (forall i :: 0 <= i < |path| - 1 ==> path[i + 1] in succs[path[i]] && Unwritten(blocks[path[i]], v))
    && NextUse(blocks[path[|path| - 1]], v)
  }

  ghost predicate LiveAt(blocks: seq<seq<Insn>>, succs: seq<seq<nat>>, order: seq<Global.Slot>, n: nat, v: Value)
    requires |blocks| == |succs|
  {
    exists path :: WayTo(blocks, succs, order, path, v) && path[0] == n
  }

  /** The sets of the graph are those of the blocks, by the indices of the values with an entry. */
  ghost predicate Represents(g: Global.Graph, blocks: seq<seq<Insn>>, index: map<Value, nat>,
                             use: seq<set<Value>>, def: seq<set<Value>>) {
    && Global.Valid(g) && |blocks| == |use| == |def| == |g.succs|
    && (forall v, w :: v in index && w in index && index[v] == index[w] ==> v == w)
    && (forall n :: 0 <= n < |blocks| ==> LocalSets(blocks[n], index.Keys, use[n], def[n]))
    && forall n, v :: 0 <= n < |blocks| && v in index ==>
      (index[v] in g.use[n] <==> v in use[n]) && (index[v] in g.def[n] <==> v in def[n])
  }

  lemma SameWays(g: Global.Graph, blocks: seq<seq<Insn>>, index: map<Value, nat>, use: seq<set<Value>>,
                 def: seq<set<Value>>, order: seq<Global.Slot>, path: seq<nat>, v: Value)
    requires Represents(g, blocks, index, use, def) && v in index && !v.isConstant
    ensures WayTo(blocks, g.succs, order, path, v) <==> Global.Way(g, order, path, index[v])
  {
  }

  lemma LiveOfEntry(g: Global.Graph, blocks: seq<seq<Insn>>, index: map<Value, nat>, use: seq<set<Value>>,
                    def: seq<set<Value>>, order: seq<Global.Slot>, n: nat, v: Value)
    requires Represents(g, blocks, index, use, def) && v in index && !v.isConstant
    ensures LiveAt(blocks, g.succs, order, n, v) <==> Global.Live(g, order, n, index[v])
  {
    hide Represents, NextUse, Unwritten;
    assert Global.Valid(g) && |blocks| == |g.succs| by { Sizes(g, blocks, index, use, def); }
    if LiveAt(blocks, g.succs, order, n, v) {
      var path :| WayTo(blocks, g.succs, order, path, v) && path[0] == n;
      SameWays(g, blocks, index, use, def, order, path, v);
    }
    if Global.Live(g, order, n, index[v]) {
      var path :| Global.Way(g, order, path, index[v]) && path[0] == n;
      SameWays(g, blocks, index, use, def, order, path, v);
    }
  }

  lemma Sizes(g: Global.Graph, blocks: seq<seq<Insn>>, index: map<Value, nat>, use: seq<set<Value>>,
              def: seq<set<Value>>)
    requires Represents(g, blocks, index, use, def)
    ensures Global.Valid(g) && |blocks| == |g.succs|
  {
  }

  /** The sets `live_in` of the whole function tell what is live at the start of each block, for all values, exactly
      when each value that some block reads before writing it has an entry. */
  lemma LiveInExact(g: Global.Graph, blocks: seq<seq<Insn>>, index: map<Value, nat>, use: seq<set<Value>>,
                    def: seq<set<Value>>, order: seq<Global.Slot>, liveIn: seq<set<nat>>)
    requires Represents(g, blocks, index, use, def) && |liveIn| == |g.succs|
    requires forall n, x :: 0 <= n < |g.succs| ==> (x in liveIn[n] <==> Global.Live(g, order, n, x))
    ensures (forall n: nat, v: Value :: n < |blocks| && !v.isConstant ==>
              (LiveAt(blocks, g.succs, order, n, v) <==> v in index && index[v] in liveIn[n]))
       <==> (forall n: nat, v: Value ::
              n < |blocks| && !v.isConstant && Global.Node(n) in order && NextUse(blocks[n], v) ==> v in index)
  {
    hide NextUse;
    forall n: nat, v: Value | n < |blocks| && v in index && !v.isConstant
      ensures LiveAt(blocks, g.succs, order, n, v) <==> index[v] in liveIn[n]
    {
      LiveOfEntry(g, blocks, index, use, def, order, n, v);
    }
    forall n: nat, v: Value | n < |blocks| && Global.Node(n) in order && NextUse(blocks[n], v)
      ensures LiveAt(blocks, g.succs, order, n, v)
    {
      assert WayTo(blocks, g.succs, order, [n], v);
    }
    forall n: nat, v: Value | n < |blocks| && LiveAt(blocks, g.succs, order, n, v)
      ensures exists k: nat :: k < |blocks| && Global.Node(k) in order && NextUse(blocks[k], v)
    {
      var path :| WayTo(blocks, g.succs, order, path, v) && path[0] == n;
      assert NextUse(blocks[path[|path| - 1]], v);
    }
  }
}
