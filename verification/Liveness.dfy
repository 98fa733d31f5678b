/** Liveness of values in a block, and removal of instructions without effect (jit/jit-live.c,
    `compute_liveness_for_block` and `reset_liveness_flags`). */
module Liveness {
  import opened Instructions

  /** The marks on the values: those that are live, and those with a next use. */
  datatype Facts = Facts(live: set<Value>, next: set<Value>)

  function Operand(other: bool, v: Value?): set<Value> { if other || v == null then {} else {v} }

  function Operands(n: Insn): set<Value> {
    Operand(n.destOther, n.dest) + Operand(n.value1Other, n.value1) + Operand(n.value2Other, n.value2)
  }

  /** The values that appear in the block. */
  function Mentioned(b: seq<Insn>): set<Value> {
    if b == [] then {} else Operands(b[0]) + Mentioned(b[1..])
  }

  /** The operand that takes part in the analysis, or null. */
  function Tracked(other: bool, v: Value?): Value? { if other || v == null || v.isConstant then null else v }

  function With(s: set<Value>, v: Value?): set<Value> { if v == null then s else s + {v} }

  function BitsOf(n: Insn, f: Facts): Bits {
    var d, x, y := Tracked(n.destOther, n.dest), Tracked(n.value1Other, n.value1), Tracked(n.value2Other, n.value2);
    Bits(d != null && d in f.live, d != null && d in f.next, x != null && x in f.live, x != null && x in f.next,
         y != null && y in f.live, y != null && y in f.next)
  }

  /** One instruction of the backward scan: what becomes of it, and the marks before it. */
  function Mark(n: Insn, f: Facts): (Insn, Facts) {
    var d, x, y := Tracked(n.destOther, n.dest), Tracked(n.value1Other, n.value1), Tracked(n.value2Other, n.value2);
    var n' := n.(bits := BitsOf(n, f));
    if n.op.Nop? then (n, f)
    else if d != null && !n.destIsValue && d !in f.next && d !in f.live then (n'.(op := Nop), f)
    else
      var live := if d == null then f.live else if n.destIsValue then f.live + {d} else f.live - {d};
      var next := if d == null then f.next else if n.destIsValue then f.next + {d} else f.next - {d};
      (n', Facts(With(With(live, x), y), With(With(next, x), y)))
  }

  /** The backward scan: the block that is left, and the marks at its start. */
  function Pass(b: seq<Insn>, f: Facts): (r: (seq<Insn>, Facts))
    ensures |r.0| == |b|
  {
    if b == [] then ([], f)
    else
      var rest := Pass(b[1..], f);
      var first := Mark(b[0], rest.1);
      ([first.0] + rest.0, first.1)
  }

  /** Values that live on after the block. */
  predicate Durable(v: Value) { !v.isConstant && !v.isTemporary }

  /** The marks at the end of the block. */
  function AtEnd(b: seq<Insn>): Facts { Facts(set v | v in Mentioned(b) && Durable(v), {}) }

  /** The block after both functions. */
  function Cleaned(b: seq<Insn>): (r: seq<Insn>)
    ensures |r| == |b|
  {
    Pass(b, AtEnd(b)).0
  }

  // ---- The code ----

  ghost function Marks(m: set<Value>): Facts
    reads m`live, m`nextUse
  {
    Facts(set v | v in m && v.live, set v | v in m && v.nextUse)
  }

  ghost predicate Fresh(v: Value)
    reads v
  {
    v.live == Durable(v) && !v.nextUse
  }

  /** `reset_value_liveness`. */
  method ResetValue(value: Value?)
    modifies value
    ensures value != null ==> Fresh(value)
  {
    if value != null {
      value.live := !value.isConstant && !value.isTemporary;
      value.nextUse := false;
    }
  }

  /** `reset_liveness_flags`.  `resetAll` clears flags of the instructions in a local variable only. */
  method ResetLivenessFlags(block: array<Insn>, resetAll: bool, ghost m: set<Value>)
    requires m == Mentioned(block[..])
    modifies m
    ensures Marks(m) == AtEnd(block[..])
  {
    ghost var b := block[..];
    assert b[0..] == b;
    var k := 0;
    while k < block.Length
      invariant 0 <= k <= block.Length && block[..] == b && forall v :: v in m ==> allocated(v)
      invariant Mentioned(b[k..]) <= m
      invariant forall v :: v in m ==> v in Mentioned(b[k..]) || Fresh(v)
    {
      var insn := block[k];
      assert b[k..][1..] == b[k + 1..] && b[k..][0] == insn;
      assert Mentioned(b[k..]) == Operands(insn) + Mentioned(b[k + 1..]);
      ResetInsn(insn);
      k := k + 1;
    }
  }

  method ResetInsn(insn: Insn)
    modifies Operands(insn)
    ensures forall v :: v in Operands(insn) ==> Fresh(v)
  {
    if !insn.destOther { ResetValue(insn.dest); }
    if !insn.value1Other { ResetValue(insn.value1); }
    if !insn.value2Other { ResetValue(insn.value2); }
  }

  /** `compute_liveness_for_block`. */
  method ComputeLiveness(block: array<Insn>, ghost m: set<Value>)
    requires m == Mentioned(block[..])
    modifies block, m
    ensures (block[..], Marks(m)) == Pass(old(block[..]), old(Marks(m)))
  {
    ghost var b, f := block[..], Marks(m);
    var k := block.Length;
    while k > 0
      invariant 0 <= k <= block.Length && block[..k] == b[..k]
      invariant (block[k..], Marks(m)) == Pass(b[k..], f)
    {
      k := k - 1;
      ghost var n, marks, rest := block[k], Marks(m), block[k + 1..];
      MentionedAt(b, k);
      assert n == b[k] by { assert block[..k + 1][k] == b[..k + 1][k]; }
      ComputeLivenessForInsn(block, k, m);
      assert b[k..][1..] == b[k + 1..] && b[k..][0] == n && block[k..] == [block[k]] + rest;
    }
    assert block[..] == block[0..] && b[0..] == b;
  }

  lemma {:induction false} MentionedAt(b: seq<Insn>, k: nat)
    requires k < |b|
    ensures Operands(b[k]) <= Mentioned(b)
  {
    if k > 0 { MentionedAt(b[1..], k - 1); }
  }

  /** The body of its loop. */
  method ComputeLivenessForInsn(block: array<Insn>, k: nat, ghost m: set<Value>)
    requires k < block.Length && Operands(block[k]) <= m
    modifies block, m
    ensures (block[k], Marks(m)) == Mark(old(block[k]), old(Marks(m)))
    ensures block[..] == old(block[..])[k := block[k]]
  {
    var insn := block[k];
    if insn.op.Nop? {
      return;
    }
    var dest := if insn.destOther || insn.dest == null || insn.dest.isConstant then null else insn.dest;
    var value1 := if insn.value1Other || insn.value1 == null || insn.value1.isConstant then null else insn.value1;
    var value2 := if insn.value2Other || insn.value2 == null || insn.value2.isConstant then null else insn.value2;
    ghost var f := Marks(m);
    var bits := Bits(dest != null && dest.live, dest != null && dest.nextUse, value1 != null && value1.live,
                     value1 != null && value1.nextUse, value2 != null && value2.live, value2 != null && value2.nextUse);
    assert bits == BitsOf(insn, f);
    if dest != null && !insn.destIsValue && !dest.nextUse && !dest.live {
      block[k] := insn.(bits := bits, op := Nop);
      return;
    }
    block[k] := insn.(bits := bits);
    SetOperands(dest, insn.destIsValue, value1, value2, m);
  }

  method SetOperands(dest: Value?, on: bool, value1: Value?, value2: Value?, ghost m: set<Value>)
    requires (dest != null ==> dest in m) && (value1 != null ==> value1 in m) && (value2 != null ==> value2 in m)
    modifies dest, value1, value2
    ensures var f := old(Marks(m));
      var live := if dest == null then f.live else if on then f.live + {dest} else f.live - {dest};
      var next := if dest == null then f.next else if on then f.next + {dest} else f.next - {dest};
      Marks(m) == Facts(With(With(live, value1), value2), With(With(next, value1), value2))
  {
    SetMarks(dest, on, m);
    SetMarks(value1, true, m);
    SetMarks(value2, true, m);
  }

  /** "Live, next use" or "not live, no next use". */
  method SetMarks(value: Value?, on: bool, ghost m: set<Value>)
    requires value != null ==> value in m
    modifies value
    ensures var f := old(Marks(m)); Marks(m) == if value == null then f
      else if on then Facts(f.live + {value}, f.next + {value}) else Facts(f.live - {value}, f.next - {value})
  {
    if value != null {
      value.live, value.nextUse := on, on;
    }
  }

  // ---- What the marks mean ----

  /** Some instruction reads the value before one writes it. */
  ghost predicate NextUse(s: seq<Insn>, v: Value) {
    exists j :: 0 <= j < |s| && Reads(s[j], v) && Unwritten(s[..j], v)
  }

  predicate Unwritten(s: seq<Insn>, v: Value) { forall i :: 0 <= i < |s| ==> Def(s[i]) != v }

  lemma NextUseFirst(s: seq<Insn>, v: Value)
    requires s != []
    ensures NextUse(s, v) <==> Reads(s[0], v) || (Def(s[0]) != v && NextUse(s[1..], v))
    ensures Unwritten(s, v) <==> Def(s[0]) != v && Unwritten(s[1..], v)
  {
    if Reads(s[0], v) { assert Unwritten(s[..0], v); }
    if Def(s[0]) != v && NextUse(s[1..], v) {
      var j :| 0 <= j < |s| - 1 && Reads(s[1..][j], v) && Unwritten(s[1..][..j], v);
      var p, q := s[..j + 1], s[1..][..j];
      forall i | 0 <= i < |p| ensures Def(p[i]) != v {
        if i > 0 { assert p[i] == q[i - 1]; }
      }
      assert Reads(s[j + 1], v) && Unwritten(s[..j + 1], v);
    }
    if NextUse(s, v) && !Reads(s[0], v) {
      var j :| 0 <= j < |s| && Reads(s[j], v) && Unwritten(s[..j], v);
      var p, q := s[..j], s[1..][..j - 1];
      forall i | 0 <= i < |q| ensures Def(q[i]) != v {
        assert q[i] == p[i + 1];
      }
      assert s[..j][0] == s[0] && Reads(s[1..][j - 1], v) && Unwritten(s[1..][..j - 1], v);
    }
    assert forall i :: 0 < i < |s| ==> s[i] == s[1..][i - 1];
  }

  /** The marks before a block tell exactly what the instructions that are left do. */
  lemma {:induction false} Exact(b: seq<Insn>, f: Facts, v: Value)
    requires !v.isConstant
    ensures var r := Pass(b, f);
      && (v in r.1.next <==> NextUse(r.0, v) || (v in f.next && Unwritten(r.0, v)))
      && (v in r.1.live <==> NextUse(r.0, v) || (v in f.live && Unwritten(r.0, v)))
  {
    if b != [] {
      var r := Pass(b, f);
      Exact(b[1..], f, v);
      assert r.0[1..] == Pass(b[1..], f).0;
      NextUseFirst(r.0, v);
    }
  }

  /** The flags on an operand: whether the value is used again after the instruction, and whether it is used again
      or else lives on after the block. */
  ghost predicate Accurate(other: bool, v: Value?, rest: seq<Insn>, live: bool, next: bool) {
    if Tracked(other, v) == null then !live && !next
    else (next <==> NextUse(rest, v)) && (live <==> NextUse(rest, v) || (Durable(v) && Unwritten(rest, v)))
  }

  ghost predicate AllAccurate(n: Insn, rest: seq<Insn>) {
    && Accurate(n.destOther, n.dest, rest, n.bits.destLive, n.bits.destNext)
    && Accurate(n.value1Other, n.value1, rest, n.bits.value1Live, n.bits.value1Next)
    && Accurate(n.value2Other, n.value2, rest, n.bits.value2Live, n.bits.value2Next)
  }

  lemma {:induction false} PassAt(b: seq<Insn>, f: Facts, k: nat)
    requires k < |b|
    ensures var r := Pass(b, f).0; r[k] == Mark(b[k], Pass(b[k + 1..], f).1).0 && r[k + 1..] == Pass(b[k + 1..], f).0
  {
    if k > 0 {
      PassAt(b[1..], f, k - 1);
      assert b[1..][k - 1 + 1..] == b[k + 1..];
      assert Pass(b, f).0[k + 1..] == Pass(b[1..], f).0[k..];
    }
  }

  /** The flags of every instruction that is left are exact with respect to the instructions that are left, and no
      instruction is left that only computes a value nobody needs. */
  lemma FlagsExact(b: seq<Insn>, k: nat)
    requires k < |b| && !Cleaned(b)[k].op.Nop?
    ensures AllAccurate(Cleaned(b)[k], Cleaned(b)[k + 1..])
    ensures var n := Cleaned(b)[k]; var d := Def(n); d != null && !d.isConstant ==>
      NextUse(Cleaned(b)[k + 1..], d) || (Durable(d) && Unwritten(Cleaned(b)[k + 1..], d))
  {
    var f, n := AtEnd(b), b[k];
    PassAt(b, f, k);
    MentionedAt(b, k);
    if Tracked(n.destOther, n.dest) != null { Exact(b[k + 1..], f, n.dest); }
    if Tracked(n.value1Other, n.value1) != null { Exact(b[k + 1..], f, n.value1); }
    if Tracked(n.value2Other, n.value2) != null { Exact(b[k + 1..], f, n.value2); }
  }

  lemma {:induction false} PassAgain(b: seq<Insn>, f: Facts)
    ensures Pass(Pass(b, f).0, f) == Pass(b, f)
  {
    if b != [] {
      PassAgain(b[1..], f);
      assert Pass(b, f).0[1..] == Pass(b[1..], f).0;
    }
  }

  lemma {:induction false} PassMentions(b: seq<Insn>, f: Facts)
    ensures Mentioned(Pass(b, f).0) == Mentioned(b)
  {
    if b != [] {
      PassMentions(b[1..], f);
      assert Pass(b, f).0[1..] == Pass(b[1..], f).0;
    }
  }

  /** One scan removes everything there is to remove: another one leaves the block as it is, flags included. */
  lemma OneScan(b: seq<Insn>)
    ensures Cleaned(Cleaned(b)) == Cleaned(b)
  {
    PassMentions(b, AtEnd(b));
    PassAgain(b, AtEnd(b));
  }

  // ---- Removing instructions changes nothing that can be seen ----

  /** The states agree on everything that is needed later. */
  ghost predicate Agree(s: State, s': State, needed: set<Value>) {
    && s.vals.Keys == s'.vals.Keys && s.events == s'.events
    && forall v :: v in s.vals && (v in needed || v.isConstant) ==> s.vals[v] == s'.vals[v]
  }

  lemma {:induction false} PassSound(f: Eval, b: seq<Insn>, facts: Facts, s: State, s': State, u: set<Value>)
    requires Over(b, u) && s.vals.Keys == u && facts.next <= facts.live
    requires Agree(s, s', Pass(b, facts).1.live)
    ensures Agree(Run(f, b, s), Run(f, Pass(b, facts).0, s'), facts.live)
    ensures Pass(b, facts).1.next <= Pass(b, facts).1.live && Over(Pass(b, facts).0, u)
  {
    if b != [] {
      var r, rest := Pass(b, facts), Pass(b[1..], facts);
      NextInLive(b[1..], facts);
      assert r.0[1..] == rest.0;
      MarkSound(f, b[0], rest.1, s, s', u);
      PassSound(f, b[1..], facts, Step(f, b[0], s), Step(f, r.0[0], s'), u);
      assert forall i :: 0 < i < |b| ==> r.0[i] == rest.0[i - 1];
    }
  }

  lemma {:induction false} NextInLive(b: seq<Insn>, facts: Facts)
    requires facts.next <= facts.live
    ensures Pass(b, facts).1.next <= Pass(b, facts).1.live
  {
    if b != [] { NextInLive(b[1..], facts); }
  }

  lemma MarkSound(f: Eval, n: Insn, facts: Facts, s: State, s': State, u: set<Value>)
    requires WellFormed(n) && Within(n, u) && s.vals.Keys == u && facts.next <= facts.live
    requires Agree(s, s', Mark(n, facts).1.live)
    ensures Agree(Step(f, n, s), Step(f, Mark(n, facts).0, s'), facts.live)
    ensures Step(f, n, s).vals.Keys == u
  {
    var n' := Mark(n, facts).0;
    if !n'.op.Nop? {
      assert n.value1 != null ==> Get(s, n.value1) == Get(s', n.value1);
      assert n.value2 != null ==> Get(s, n.value2) == Get(s', n.value2);
      assert n.destIsValue && n.dest != null ==> Get(s, n.dest) == Get(s', n.dest);
    }
  }

  lemma {:induction false} Untouched(f: Eval, b: seq<Insn>, s: State, v: Value)
    requires v !in Mentioned(b)
    ensures Get(Run(f, b, s), v) == Get(s, v)
  {
    if b != [] { Untouched(f, b[1..], Step(f, b[0], s), v); }
  }

  /** The block that is left does what the block did, as far as the rest of the function can see. */
  lemma CleanedSound(f: Eval, b: seq<Insn>, s: State, u: set<Value>)
    requires Over(b, u) && s.vals.Keys == u
    ensures SameOutcome(Run(f, b, s), Run(f, Cleaned(b), s)) && Over(Cleaned(b), u)
  {
    var facts := AtEnd(b);
    PassSound(f, b, facts, s, s, u);
    RunKeys(f, b, s, u);
    PassMentions(b, facts);
    var r, r' := Run(f, b, s), Run(f, Cleaned(b), s);
    forall v | v in r.vals && !v.isTemporary ensures r'.vals[v] == r.vals[v] {
      if v !in Mentioned(b) {
        Untouched(f, b, s, v);
        Untouched(f, Cleaned(b), s, v);
        assert Get(r, v) == Get(r', v);
      }
    }
  }
}
