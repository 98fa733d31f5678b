/** What `_jit_function_compute_liveness` (jit/jit-live.c) does with the instructions of one block. */
module BlockOptimiser {
  import opened Instructions
  import opened Liveness
  import Forward = ForwardPropagation
  import Backward = BackwardPropagation

  /** The block as it enters backward propagation. */
  function Prepared(b: seq<Insn>): (r: seq<Insn>)
    ensures |r| == |b|
  {
    Cleaned(Forward.From(b, 0).0)
  }

  function Optimized(b: seq<Insn>): seq<Insn> {
    var r := Backward.Before(Prepared(b), |b|);
    if r.1 then Cleaned(r.0) else r.0
  }

  /** The passes over one block. */
  method Optimize(block: array<Insn>, ghost u: set<Value>)
    requires Over(block[..], u)
    modifies block, u
    ensures block[..] == Optimized(old(block[..]))
  {
    ghost var b := block[..];
    AllWithin(b, u);
    var _ := Forward.Propagate(block);
    ghost var b1 := block[..];
    ForwardOver(b, u);
    AllWithin(b1, u);
    ResetLivenessFlags(block, false, Mentioned(block[..]));
    ComputeLiveness(block, Mentioned(block[..]));
    PassMentions(b1, AtEnd(b1));
    var changed := Backward.Propagate(block);
    if changed {
      ghost var b3 := block[..];
      CleanedOver(b1, u);
      BackwardOver(Prepared(b), |b|, u);
      AllWithin(b3, u);
      ResetLivenessFlags(block, true, Mentioned(block[..]));
      ComputeLiveness(block, Mentioned(block[..]));
    }
  }

  lemma {:induction false} AllWithin(b: seq<Insn>, u: set<Value>)
    requires Over(b, u)
    ensures Mentioned(b) <= u
  {
    if b != [] { AllWithin(b[1..], u); }
  }

  lemma CleanedOver(b: seq<Insn>, u: set<Value>)
    requires Over(b, u)
    ensures Over(Cleaned(b), u)
  {
    CleanedSound((_, _, _, _) => 0, b, State(map v | v in u :: 0, []), u);
  }

  lemma ForwardOver(b: seq<Insn>, u: set<Value>)
    requires Over(b, u)
    ensures Over(Forward.From(b, 0).0, u)
  {
    Forward.Sound((_, _, _, _) => 0, b, 0, State(map v | v in u :: 0, []), u);
  }

  lemma {:induction false} BackwardOver(b: seq<Insn>, k: nat, u: set<Value>)
    requires k <= |b| && Over(b, u)
    ensures Over(Backward.Before(b, k).0, u)
    decreases k
  {
    if k > 0 {
      assert Over(Backward.At(b, k - 1).0, u) by { AtOver(b, k - 1, u); }
      BackwardOver(Backward.At(b, k - 1).0, k - 1, u);
    }
  }

  lemma AtOver(b: seq<Insn>, k: nat, u: set<Value>)
    requires k < |b| && Over(b, u)
    ensures Over(Backward.At(b, k).0, u)
  {
    hide Backward.Target;
  }

  /** The optimised block does what the block did, as far as the rest of the function can see, if neither slip in
      backward propagation strikes. */
  lemma OptimizedSound(f: Eval, b: seq<Insn>, s: State, u: set<Value>)
    requires Over(b, u) && s.vals.Keys == u && Backward.AllClean(Prepared(b), |b|)
    ensures SameOutcome(Run(f, b, s), Run(f, Optimized(b), s))
  {
    var b1, b2 := Forward.From(b, 0).0, Prepared(b);
    Forward.Sound(f, b, 0, s, u);
    CleanedSound(f, b1, s, u);
    Backward.CleanedPending(b1);
    Backward.Sound(f, b2, |b|, s, u);
    CleanedSound(f, Backward.Before(b2, |b|).0, s, u);
  }

  /** Nothing is left to remove, and the flags are those of the optimised block: scanning it again changes nothing. */
  lemma OptimizedScanned(b: seq<Insn>)
    ensures Cleaned(Optimized(b)) == Optimized(b)
  {
    var p := Prepared(b);
    Backward.ChangeReported(p, |b|);
    hide Cleaned, Backward.Before, Forward.From;
    OneScan(Forward.From(b, 0).0);
    OneScan(Backward.Before(p, |b|).0);
  }

  /** The condition asks no more than that each rewriting by itself is faithful in all runs. */
  lemma ConditionExact(b: seq<Insn>, u: set<Value>)
    requires Over(b, u)
    ensures var p := Prepared(b);
      Backward.AllClean(p, |p|) <==>
        forall i: nat, j: nat, f: Eval, s: State ::
          s.vals.Keys == u ==> Backward.FaithfulAt(p, |p|, i, j, f, s)
  {
    var b1, p := Forward.From(b, 0).0, Prepared(b);
    ForwardOver(b, u);
    CleanedOver(b1, u);
    ForwardLeavesNone(b, 0);
    CleanedLeavesNone(b1);
    Backward.CleanExactly(p, |p|, u);
  }

  /** None of the first `k` instructions copies a value to itself. */
  predicate NoneToItself(b: seq<Insn>, k: nat)
    requires k <= |b|
  {
    forall i :: 0 <= i < k ==> !Backward.SelfCopy(b[i])
  }

  /** Forward propagation leaves no copy of a value to itself. */
  lemma {:induction false} ForwardLeavesNone(b: seq<Insn>, k: nat)
    requires k <= |b| && NoneToItself(b, k)
    ensures NoneToItself(Forward.From(b, k).0, |b|)
    decreases |b| - k
  {
    if k < |b| {
      hide Forward.Scan;
      var r := Forward.At(b, k).0;
      assert NoneToItself(r, k + 1);
      ForwardLeavesNone(r, k + 1);
    }
  }

  lemma CleanedLeavesNone(b: seq<Insn>)
    requires NoneToItself(b, |b|)
    ensures NoneToItself(Cleaned(b), |b|)
  {
    forall i | 0 <= i < |b| ensures !Backward.SelfCopy(Cleaned(b)[i]) {
      PassAt(b, AtEnd(b), i);
      assert !Backward.SelfCopy(b[i]);
    }
  }

  /** Everything up to backward propagation is sound for all blocks. */
  lemma PreparedSound(f: Eval, b: seq<Insn>, s: State, u: set<Value>)
    requires Over(b, u) && s.vals.Keys == u
    ensures SameOutcome(Run(f, b, s), Run(f, Prepared(b), s))
  {
    Forward.Sound(f, b, 0, s, u);
    CleanedSound(f, Forward.From(b, 0).0, s, u);
  }

  /** A copy that the flags call the last use of its original. */
  predicate LastCopy(n: Insn) { Copies(n.op) && n.value1 != null && !n.bits.value1Live && !n.bits.value1Next }

  /** A condition on the instructions before `k` alone: no NOP, and no value that is read as a second operand and then
      copied for the last time. */
  predicate Plain(b: seq<Insn>, k: nat)
    requires k <= |b|
  {
    && (forall i :: 0 <= i < k ==> !b[i].op.Nop?)
    && forall i, c :: 0 <= i < c < k && LastCopy(b[c]) ==> b[i].value2Other || b[i].value2 != b[c].value1
  }

  /** Where neither slip can strike. */
  lemma {:induction false} PlainClean(b: seq<Insn>, k: nat)
    requires k <= |b| && Plain(b, k)
    ensures Backward.AllClean(b, k)
    decreases k
  {
    hide Backward.Target;
    if k > 0 { PlainClean(Backward.At(b, k - 1).0, k - 1); }
  }

  // ---- What the slips do ----

  const NO_BITS := Bits(false, false, false, false, false, false)

  function Compute(code: int, d: Value, x: Value?, y: Value?): Insn {
    Insn(Other(code), false, false, false, false, NO_BITS, d, x, y)
  }
  function CopyTo(d: Value, x: Value): Insn { Insn(CopyInt, false, false, false, false, NO_BITS, d, x, null) }

  predicate Distinct(t: Value, x: Value, y: Value, z: Value) {
    && t != x && t != y && t != z && x != y && x != z && y != z && t.isTemporary
    && (forall v :: v in {x, y, z} ==> !v.isTemporary)
    && (forall v :: v in {t, x, y, z} ==> !v.isConstant && !v.isAddressable && !v.isVolatile && v.kind == Int)
  }

  /** What three instructions that are no NOPs but for the middle one become in the backward scan. */
  lemma PassThree(b: seq<Insn>, f: Facts)
    requires |b| == 3
    ensures var r2 := Mark(b[2], f);
      var r1 := Mark(b[1], r2.1);
      var r0 := Mark(b[0], r1.1);
      Pass(b, f) == ([r0.0, r1.0, r2.0], r0.1)
  {
    assert b[1..][1..] == b[2..] && b[2..][1..] == [];
    var r2 := Mark(b[2], f);
    var r1 := Mark(b[1], r2.1);
    var r0 := Mark(b[0], r1.1);
    assert Pass([], f) == ([], f) && [r2.0] + [] == [r2.0];
    assert Pass(b[2..], f) == ([r2.0], r2.1);
    assert Pass(b[1..], f) == ([r1.0] + [r2.0], r1.1);
    assert [r0.0] + ([r1.0] + [r2.0]) == [r0.0, r1.0, r2.0];
  }

  lemma MentionedThree(b: seq<Insn>)
    requires |b| == 3
    ensures Mentioned(b) == Operands(b[0]) + Operands(b[1]) + Operands(b[2])
  {
    assert b[1..][1..] == b[2..] && b[2..][1..] == [];
    assert Mentioned(b[2..]) == Operands(b[2]);
  }

  lemma RunThree(f: Eval, b: seq<Insn>, s: State)
    requires |b| == 3
    ensures Run(f, b, s) == Step(f, b[2], Step(f, b[1], Step(f, b[0], s)))
  {
    assert b[1..][1..] == b[2..] && b[2..][1..] == [];
    assert Run(f, b[2..], Step(f, b[1], Step(f, b[0], s))) == Step(f, b[2], Step(f, b[1], Step(f, b[0], s)));
  }

  /** When the third instruction is the only copy, and the pass finds `j` for it. */
  lemma OneRewriting(b: seq<Insn>, b': seq<Insn>, j: nat)
    requires |b| == 3 && j < 2 && Backward.Reaches(b, j, 2) && Backward.Movable(b[2])
      && b' == Backward.Rewritten(b, j, 2)
    requires !IsCopy(b'[0]) && !IsCopy(b'[1])
    ensures Backward.Before(b, 3) == (b', true)
  {
    assert Backward.At(b, 2) == (b', true);
    assert Backward.At(b', 1) == (b', false) && Backward.At(b', 0) == (b', false);
    assert Backward.Before(b', 0) == (b', false) && Backward.Before(b', 1) == (b', false)
      && Backward.Before(b', 2) == (b', false);
  }

  predicate FourPlain(t: Value, x: Value, s: Value, y: Value) {
    && t != x && t != s && t != y && x != s && x != y && s != y
    && t.isTemporary && s.isTemporary && !x.isTemporary && !y.isTemporary
    && forall v :: v in {t, x, s, y} ==> !v.isConstant && !v.isAddressable && !v.isVolatile && v.kind == Int
  }

  lemma ForwardCopyGoes(t: Value, x: Value, s: Value, y: Value) returns (p: seq<Insn>)
    requires FourPlain(t, x, s, y)
    ensures |p| == 3 && p == Prepared([CopyTo(t, x), Compute(7, s, t, null), CopyTo(y, s)])
    ensures p[0].op.Nop? && p[1] == Compute(7, s, x, null).(bits := p[1].bits)
      && p[2] == CopyTo(y, s).(bits := p[2].bits) && !p[2].bits.value1Live && !p[2].bits.value1Next
  {
    var n0, n1, n2 := CopyTo(t, x), Compute(7, s, t, null), CopyTo(y, s);
    var b := [n0, n1, n2];
    var b1 := [n0, n1.(value1 := x), n2];
    assert Forward.From(b, 0).0 == b1 by {
      assert Forward.At(b, 0).0 == b1 by {
        Forward.AtOne(b, 0, 0);
        Forward.AtOne(b, 0, 1);
        Forward.AtOne(b, 0, 2);
      }
      ForwardThree(b, b1);
    }
    MentionedThree(b1);
    assert Mentioned(b1) == {t, x, s, y};
    PassThree(b1, AtEnd(b1));
    p := Prepared(b);
  }

  /** What the pipeline is for: `t = x; s = op(t); y = s` becomes `y = op(x)`. */
  lemma BothCopiesGo(t: Value, x: Value, s: Value, y: Value) returns (r: seq<Insn>)
    requires FourPlain(t, x, s, y)
    ensures |r| == 3 && r == Optimized([CopyTo(t, x), Compute(7, s, t, null), CopyTo(y, s)])
    ensures r[0].op == r[2].op == Nop && r[1] == Compute(7, y, x, null).(bits := r[1].bits)
  {
    var b := [CopyTo(t, x), Compute(7, s, t, null), CopyTo(y, s)];
    var p := ForwardCopyGoes(t, x, s, y);
    hide Prepared;
    assert Backward.Target(p[..2], y, s) == Backward.There(1);
    var b3 := [p[0], p[1].(dest := y), p[2].(op := Nop)];
    r := Optimized(b);
    assert r == Cleaned(b3) by { OneRewriting(p, b3, 1); }
    MentionedThree(b3);
    PassThree(b3, AtEnd(b3));
  }

  /** When the first of three instructions is the only copy that moves forward. */
  lemma ForwardThree(b: seq<Insn>, b1: seq<Insn>)
    requires |b| == |b1| == 3 && Forward.At(b, 0).0 == b1
    requires !IsCopy(b1[1]) && IsCopy(b1[2]) && b1[2].dest != b1[2].value1 && !Forward.Movable(b1[2])
    ensures Forward.From(b, 0).0 == b1
  {
    assert Forward.At(b1, 1).0 == b1 && Forward.At(b1, 2).0 == b1;
    assert Forward.From(b1, 3).0 == b1 && Forward.From(b1, 2).0 == b1 && Forward.From(b1, 1).0 == b1;
  }

  /** What the pipeline makes of `t = op(x); t = t; y = t`. */
  lemma NopSlipCode(t: Value, x: Value, y: Value, z: Value) returns (r: seq<Insn>)
    requires Distinct(t, x, y, z)
    ensures |r| == 3 && r == Optimized([Compute(7, t, x, null), CopyTo(t, t), CopyTo(y, t)])
    ensures r[0].op == r[1].op == r[2].op == Nop
  {
    var n0, n1, n2 := Compute(7, t, x, null), CopyTo(t, t), CopyTo(y, t);
    var b := [n0, n1, n2];
    var b1 := [n0, n1.(op := Nop), n2];
    assert Forward.From(b, 0).0 == b1 by {
      assert Forward.At(b, 0).0 == b && Forward.At(b, 1).0 == b1 && Forward.At(b1, 2).0 == b1;
      assert Forward.From(b1, 3).0 == b1 && Forward.From(b1, 2).0 == b1 && Forward.From(b, 1).0 == b1;
    }
    MentionedThree(b1);
    assert Mentioned(b1) == {t, x, y};
    PassThree(b1, AtEnd(b1));
    var b2 := Prepared(b);
    assert b2 == [n0.(bits := b2[0].bits), n1.(op := Nop), n2.(bits := b2[2].bits)];
    assert Backward.Target(b2[..2], y, t) == Backward.There(1);
    var b3 := [b2[0], b2[1].(dest := y), b2[2].(op := Nop)];
    r := Optimized(b);
    assert r == Cleaned(b3) by { OneRewriting(b2, b3, 1); }
    PassThree(b3, AtEnd(b3));
  }

  /** `t = op(x); t = t; y = t` is optimised to nothing: the NOP that was `t = t` is taken for the instruction that
      computes `t`, and the copy is dropped. */
  lemma NopSlip(t: Value, x: Value, y: Value, z: Value) returns (f: Eval, s: State)
    requires Distinct(t, x, y, z)
    ensures var b := [Compute(7, t, x, null), CopyTo(t, t), CopyTo(y, t)];
      Over(b, {t, x, y, z}) && s.vals.Keys == {t, x, y, z} && !SameOutcome(Run(f, b, s), Run(f, Optimized(b), s))
  {
    var b := [Compute(7, t, x, null), CopyTo(t, t), CopyTo(y, t)];
    assert Over(b, {t, x, y, z});
    f := (_, _, _, _) => 1;
    s := State(map[t := 0, x := 0, y := 0, z := 0], []);
    var r := NopSlipCode(t, x, y, z);
    hide Optimized;
    RunThree(f, b, s);
    RunThree(f, r, s);
    assert Result(f, Other(7), 0, 0, []) == 1;
    assert Run(f, b, s).vals[y] == 1 && Run(f, r, s).vals[y] == 0;
  }

  /** What the pipeline makes of `t = op(x); z = op'(x, t); y = t`. */
  lemma ReadSlipCode(t: Value, x: Value, y: Value, z: Value) returns (r: seq<Insn>)
    requires Distinct(t, x, y, z)
    ensures |r| == 3 && r == Optimized([Compute(7, t, x, null), Compute(8, z, x, t), CopyTo(y, t)])
    ensures r[0] == Compute(7, y, x, null).(bits := r[0].bits) && r[1] == Compute(8, z, x, t).(bits := r[1].bits)
      && r[2].op == Nop
  {
    var n0, n1, n2 := Compute(7, t, x, null), Compute(8, z, x, t), CopyTo(y, t);
    var b := [n0, n1, n2];
    assert Forward.From(b, 0).0 == b by {
      assert Forward.At(b, 0).0 == b && Forward.At(b, 1).0 == b && Forward.At(b, 2).0 == b;
      assert Forward.From(b, 3).0 == b && Forward.From(b, 2).0 == b && Forward.From(b, 1).0 == b;
    }
    MentionedThree(b);
    assert Mentioned(b) == {t, x, y, z};
    PassThree(b, AtEnd(b));
    var b2 := Prepared(b);
    assert b2 == [n0.(bits := b2[0].bits), n1.(bits := b2[1].bits), n2.(bits := b2[2].bits)];
    assert Backward.Target(b2[..2], y, t) == Backward.There(0) by {
      assert b2[..2][..1] == b2[..1];
      assert Backward.Target(b2[..1], y, t) == Backward.There(0);
    }
    hide Backward.Target, Forward.From, Backward.Before;
    var b3 := [b2[0].(dest := y), b2[1], b2[2].(op := Nop)];
    assert Optimized(b) == Cleaned(b3) by { OneRewriting(b2, b3, 0); }
    MentionedThree(b3);
    PassThree(b3, AtEnd(b3));
    r := Optimized(b);
  }

  /** `t = op(x); z = op'(x, t); y = t` is optimised to `y = op(x); z = op'(x, t)`, which uses an old `t`. */
  lemma ReadSlip(t: Value, x: Value, y: Value, z: Value) returns (f: Eval, s: State)
    requires Distinct(t, x, y, z)
    ensures var b := [Compute(7, t, x, null), Compute(8, z, x, t), CopyTo(y, t)];
      Over(b, {t, x, y, z}) && s.vals.Keys == {t, x, y, z} && !SameOutcome(Run(f, b, s), Run(f, Optimized(b), s))
  {
    var n0, n1, n2 := Compute(7, t, x, null), Compute(8, z, x, t), CopyTo(y, t);
    var b := [n0, n1, n2];
    assert Over(b, {t, x, y, z});
    f := (op: Op, a: int, b: int, _) => if op == Other(7) then 1 else b;
    s := State(map[t := 0, x := 0, y := 0, z := 0], []);
    var b4 := ReadSlipCode(t, x, y, z);
    RunThree(f, b, s);
    RunThree(f, b4, s);
    assert Result(f, Other(7), 0, 0, []) == 1 && Result(f, Other(8), 0, 1, []) == 1
      && Result(f, Other(8), 0, 0, []) == 0;
    assert Run(f, b, s).vals[z] == 1 && Run(f, b4, s).vals[z] == 0;
  }
}
