/** Backward copy propagation in a block (jit/jit-live.c, `backward_propagation`), as it is coded: with a test for
    NOPs that looks at the wrong instruction, and a test of `value2` that looks at `value1`. */
module BackwardPropagation {
  import opened Instructions
  import opened Liveness

  datatype Found = Nowhere | There(at: nat)

  /** Where the backward scan from a copy `y = t` finds the instruction that computes `t`. */
  function Target(b: seq<Insn>, y: Value, t: Value): (r: Found)
    ensures r.There? ==> r.at < |b| && !b[r.at].destOther && !b[r.at].destIsValue && b[r.at].dest == t
  {
    if b == [] then Nowhere
    else
      var last := |b| - 1;
      var n := b[last];
      if !n.destOther && n.dest == y then Nowhere
      else if !n.destOther && n.dest == t then (if n.destIsValue then Nowhere else There(last))
      else if !n.value1Other && (n.value1 == y || n.value1 == t) then Nowhere
      else if !n.value2Other && (n.value2 == y || n.value1 == t) then Nowhere
      else Target(b[..last], y, t)
  }

  /** A copy whose original is not needed afterwards, of values that nothing else can see or change. */
  predicate Movable(n: Insn)
    requires n.dest != null && n.value1 != null
  {
    && !n.bits.value1Live && !n.bits.value1Next
    && !n.dest.isAddressable && !n.dest.isVolatile && !n.value1.isAddressable && !n.value1.isVolatile
  }

  /** Let the instruction at `j` compute the destination of the copy at `k`, and drop the copy. */
  function Rewritten(b: seq<Insn>, j: nat, k: nat): seq<Insn>
    requires j < k < |b|
  {
    b[k := b[k].(op := Nop)][j := b[j].(dest := b[k].dest)]
  }

  /** The block after the copy at `k` was looked at, and whether it changed. */
  function At(b: seq<Insn>, k: nat): (r: (seq<Insn>, bool))
    requires k < |b|
    ensures |r.0| == |b|
  {
    var n := b[k];
    if !IsCopy(n) then (b, false)
    else if n.dest == n.value1 then (b[k := n.(op := Nop)], true)
    else if !Movable(n) then (b, false)
    else
      match Target(b[..k], n.dest, n.value1)
      case Nowhere => (b, false)
      case There(j) => (Rewritten(b, j, k), true)
  }

  /** The block after all instructions before `k` were looked at, last to first. */
  function Before(b: seq<Insn>, k: nat): (r: (seq<Insn>, bool))
    requires k <= |b|
    ensures |r.0| == |b|
    decreases k
  {
    if k == 0 then (b, false)
    else
      var r := At(b, k - 1);
      var q := Before(r.0, k - 1);
      (q.0, r.1 || q.1)
  }

  /** `backward_propagation`. */
  method Propagate(block: array<Insn>) returns (optimized: bool)
    modifies block
    ensures (block[..], optimized) == Before(old(block[..]), block.Length)
  {
    hide Target;
    optimized := false;
    var k := block.Length;
    while k > 0
      invariant 0 <= k <= block.Length
      invariant var r := Before(block[..], k); Before(old(block[..]), block.Length) == (r.0, optimized || r.1)
    {
      k := k - 1;
      ghost var b := block[..];
      var insn := block[k];
      if IsCopy(insn) {
        var dest, value := insn.dest, insn.value1;
        if dest == value {
          block[k] := insn.(op := Nop);
          optimized := true;
        } else if Movable(insn) {
          var r := FindTarget(block, k, dest, value);
          if r.There? {
            block[k] := insn.(op := Nop);
            block[r.at] := block[r.at].(dest := dest);
            optimized := true;
          }
        }
      }
    }
  }

  /** Its inner loop. */
  method FindTarget(block: array<Insn>, k: nat, dest: Value, value: Value) returns (r: Found)
    requires k < block.Length
    ensures r == Target(block[..k], dest, value)
  {
    var j := k;
    while j > 0
      invariant 0 <= j <= k && Target(block[..k], dest, value) == Target(block[..j], dest, value)
    {
      j := j - 1;
      var insn2 := block[j];
      assert block[..j + 1][..j] == block[..j];
      if !insn2.destOther {
        if insn2.dest == dest { return Nowhere; }
        if insn2.dest == value {
          return if !insn2.destIsValue then There(j) else Nowhere;
        }
      }
      if !insn2.value1Other {
        if insn2.value1 == dest || insn2.value1 == value { return Nowhere; }
      }
      if !insn2.value2Other {
        if insn2.value2 == dest || insn2.value1 == value { return Nowhere; }
      }
    }
    return Nowhere;
  }

  lemma {:induction false} BeforeStays(b: seq<Insn>, k: nat, i: nat)
    requires k <= i < |b|
    ensures Before(b, k).0[i] == b[i]
    decreases k
  {
    hide Target;
    if k > 0 { BeforeStays(At(b, k - 1).0, k - 1, i); }
  }

  /** The pass reports a change if and only if it made one. */
  lemma {:induction false} ChangeReported(b: seq<Insn>, k: nat)
    requires k <= |b|
    ensures Before(b, k).1 <==> Before(b, k).0 != b
    decreases k
  {
    if k > 0 {
      var r := At(b, k - 1);
      ChangeReported(r.0, k - 1);
      BeforeStays(r.0, k - 1, k - 1);
      assert r.1 ==> r.0[k - 1].op.Nop? && !b[k - 1].op.Nop? by { hide Target; }
      assert !r.1 ==> r.0 == b by { hide Target; }
    }
  }

  // ---- The two slips ----

  predicate ReadsLate(n: Insn, t: Value) { !n.op.Nop? && !n.value2Other && n.value2 == t }

  /** The scan went past an instruction that reads `t` as its second operand. */
  ghost predicate MissedRead(b: seq<Insn>, j: nat, k: nat, t: Value)
    requires j < k <= |b|
  {
    exists i :: j < i < k && ReadsLate(b[i], t)
  }

  /** Neither slip affects what would become of the copy at `k`, if there is one. */
  ghost predicate Clean(b: seq<Insn>, k: nat)
    requires k < |b|
  {
    IsCopy(b[k]) ==>
      var r := Target(b[..k], b[k].dest, b[k].value1);
      r.There? ==> !b[r.at].op.Nop? && !MissedRead(b, r.at, k, b[k].value1)
  }

  /** The instruction at `k` leads to no rewriting, or to one that neither slip affects. */
  ghost predicate Unharmed(b: seq<Insn>, k: nat)
    requires k < |b|
  {
    IsCopy(b[k]) && Movable(b[k]) ==> Clean(b, k)
  }

  /** So it is with all instructions before `k`, when their turn comes. */
  ghost predicate AllClean(b: seq<Insn>, k: nat)
    requires k <= |b|
    decreases k
  {
    k > 0 ==> Unharmed(b, k - 1) && AllClean(At(b, k - 1).0, k - 1)
  }

  /** The instructions neither read nor write `t` and `y`. */
  predicate Clear(m: seq<Insn>, t: Value, y: Value) {
    forall i :: 0 <= i < |m| ==> !Reads(m[i], t) && !Reads(m[i], y) && Def(m[i]) != t && Def(m[i]) != y
  }

  /** What the scan knows of the instructions it went past. */
  predicate Passed(n: Insn, t: Value, y: Value) {
    Def(n) != t && Def(n) != y && !Reads(n, y) && (Reads(n, t) ==> ReadsLate(n, t))
  }

  lemma {:induction false} TargetPassed(b: seq<Insn>, y: Value, t: Value)
    requires Target(b, y, t).There?
    ensures forall i :: Target(b, y, t).at < i < |b| ==> Passed(b[i], t, y)
  {
    var last := |b| - 1;
    if Target(b, y, t).at < last { TargetPassed(b[..last], y, t); }
  }

  /** The scan does not tell a NOP from the instruction that it was. */
  function Awake(n: Insn): Insn { if n.op.Nop? then n.(op := Other(0)) else n }

  /** An instruction that the scan goes past: it writes neither value, does not read `y`, and reads `t` at most as its
      second operand. */
  predicate GoesPast(n: Insn, t: Value, y: Value) {
    && Def(n) != t && Def(n) != y && !Reads(n, y)
    && n.value1 != t && !(n.destIsValue && n.dest == t)
  }

  /** Exactly when the scan finds the instruction at `j`. */
  lemma {:induction false} TargetIff(b: seq<Insn>, y: Value, t: Value, j: nat)
    requires y != t && j < |b| && forall i :: 0 <= i < |b| ==> WellFormed(b[i])
    ensures Target(b, y, t) == There(j) <==>
      Def(Awake(b[j])) == t && forall i :: j < i < |b| ==> GoesPast(Awake(b[i]), t, y)
  {
    var last := |b| - 1;
    var n := b[last];
    if j < last {
      TargetIff(b[..last], y, t, j);
      assert forall i :: 0 <= i < last ==> b[..last][i] == b[i];
    }
  }

  // ---- Values that are not needed ----

  /** Nothing reads the value before it is written, and it does not live on after the block. */
  predicate Dead(s: seq<Insn>, v: Value) {
    if s == [] then !Durable(v) else !Reads(s[0], v) && (Def(s[0]) == v || Dead(s[1..], v))
  }

  lemma {:induction false} DeadExactly(s: seq<Insn>, v: Value)
    ensures Dead(s, v) <==> !NextUse(s, v) && (Durable(v) ==> !Unwritten(s, v))
  {
    if s != [] {
      NextUseFirst(s, v);
      DeadExactly(s[1..], v);
    }
  }

  lemma {:induction false} DeadCongruent(s: seq<Insn>, s': seq<Insn>, v: Value)
    requires |s| == |s'| && Dead(s, v)
    requires forall i :: 0 <= i < |s| ==> (Reads(s'[i], v) ==> Reads(s[i], v)) && (Def(s'[i]) == v <==> Def(s[i]) == v)
    ensures Dead(s', v)
  {
    if s != [] && Def(s[0]) != v { DeadCongruent(s[1..], s'[1..], v); }
  }

  lemma {:induction false} ClearDead(m: seq<Insn>, q: seq<Insn>, t: Value, y: Value)
    requires Clear(m, t, y)
    ensures Dead(m + q, t) <==> Dead(q, t)
  {
    if m == [] {
      assert m + q == q;
    } else {
      assert (m + q)[1..] == m[1..] + q;
      ClearDead(m[1..], q, t, y);
    }
  }

  /** `AgreeOff`: equal but for one value. */
  ghost predicate AgreeOff(s: State, s': State, v: Value) {
    && s.vals.Keys == s'.vals.Keys && s.events == s'.events
    && forall x :: x in s.vals && x != v ==> s.vals[x] == s'.vals[x]
  }

  lemma {:induction false} DeadSound(f: Eval, b: seq<Insn>, s: State, s': State, v: Value, u: set<Value>)
    requires Over(b, u) && AgreeOff(s, s', v) && s.vals.Keys == u && Dead(b, v) && !v.isConstant
    ensures SameOutcome(Run(f, b, s), Run(f, b, s'))
  {
    if b == [] {
    } else if Def(b[0]) == v {
      assert Step(f, b[0], s) == Step(f, b[0], s');
      RunKeys(f, b, s, u);
    } else {
      DeadSound(f, b[1..], Step(f, b[0], s), Step(f, b[0], s'), v, u);
    }
  }

  // ---- One rewriting ----

  /** What `t` would have held is in `y`. */
  ghost predicate Carried(s: State, s': State, t: Value, y: Value) {
    && s.vals.Keys == s'.vals.Keys && s.events == s'.events && t in s.vals && y in s.vals && s'.vals[y] == s.vals[t]
    && forall x :: x in s.vals && x != t && x != y ==> s.vals[x] == s'.vals[x]
  }

  predicate SameOperands(n: Insn, n': Insn, s: State, s': State) {
    && Get(s, n.value1) == Get(s', n'.value1) && Get(s, n.value2) == Get(s', n'.value2)
    && (n.destIsValue ==> Get(s, n.dest) == Get(s', n'.dest))
  }

  /** Instructions that are in both blocks read the same. */
  predicate Matches(f: Eval, a: seq<Insn>, b: seq<Insn>, s: State, s': State)
    requires |a| == |b|
  {
    a != [] ==>
      && (!a[0].op.Nop? && !b[0].op.Nop? ==> SameOperands(a[0], b[0], s, s'))
      && Matches(f, a[1..], b[1..], Step(f, a[0], s), Step(f, b[0], s'))
  }

  lemma {:induction false} MatchesConcat(f: Eval, a: seq<Insn>, b: seq<Insn>, c: seq<Insn>, d: seq<Insn>, s: State,
                                         s': State)
    requires |a| == |b| && |c| == |d|
    ensures Matches(f, a + c, b + d, s, s') <==>
      Matches(f, a, b, s, s') && Matches(f, c, d, Run(f, a, s), Run(f, b, s'))
  {
    if a == [] {
      assert a + c == c && b + d == d;
    } else {
      assert (a + c)[1..] == a[1..] + c && (b + d)[1..] == b[1..] + d;
      MatchesConcat(f, a[1..], b[1..], c, d, Step(f, a[0], s), Step(f, b[0], s'));
    }
  }

  lemma {:induction false} ClearCarries(f: Eval, m: seq<Insn>, s: State, s': State, t: Value, y: Value, u: set<Value>)
    requires Over(m, u) && Clear(m, t, y) && Carried(s, s', t, y) && s.vals.Keys == u
    ensures Carried(Run(f, m, s), Run(f, m, s'), t, y) && Matches(f, m, m, s, s')
  {
    if m != [] { ClearCarries(f, m[1..], Step(f, m[0], s), Step(f, m[0], s'), t, y, u); }
  }

  /** The scan from the copy at `k` found `j`. */
  predicate Reaches(b: seq<Insn>, j: nat, k: nat) {
    k < |b| && IsCopy(b[k]) && b[k].dest != b[k].value1 && Target(b[..k], b[k].dest, b[k].value1) == There(j)
  }

  /** The instructions from `j` to `k` before and after. */
  lemma Cut(b: seq<Insn>, j: nat, k: nat)
    requires Reaches(b, j, k)
    ensures j < k && b[j..k + 1] == [b[j]] + b[j + 1..k] + [b[k]] && b == b[..j] + b[j..k + 1] + b[k + 1..]
    ensures var r := Rewritten(b, j, k);
      && r[j..k + 1] == [b[j].(dest := b[k].dest)] + b[j + 1..k] + [b[k].(op := Nop)]
      && r == b[..j] + r[j..k + 1] + b[k + 1..]
  {
  }

  lemma Middle(b: seq<Insn>, j: nat, k: nat)
    requires Reaches(b, j, k)
    ensures forall i :: j < i < k ==> Passed(b[i], b[k].value1, b[k].dest)
    ensures Clean(b, k) ==> Clear(b[j + 1..k], b[k].value1, b[k].dest) && !b[j].op.Nop? && Def(b[j]) == b[k].value1
  {
    TargetPassed(b[..k], b[k].dest, b[k].value1);
    var p, m := b[..k], b[j + 1..k];
    assert forall i :: j < i < k ==> p[i] == b[i];
    forall i | 0 <= i < |m|
      ensures Passed(m[i], b[k].value1, b[k].dest) && (Clean(b, k) ==> !Reads(m[i], b[k].value1)) {
      assert m[i] == b[j + 1 + i];
    }
  }

  /** The runs of the two, taken apart. */
  lemma Apart(f: Eval, n: Insn, n': Insn, m: seq<Insn>, c: Insn, c': Insn, s: State)
    ensures Run(f, [n] + m + [c], s) == Step(f, c, Run(f, m, Step(f, n, s)))
    ensures Run(f, [n'] + m + [c'], s) == Step(f, c', Run(f, m, Step(f, n', s)))
    ensures Matches(f, [n] + m + [c], [n'] + m + [c'], s, s) <==>
      && Matches(f, [n], [n'], s, s) && Matches(f, m, m, Step(f, n, s), Step(f, n', s))
      && Matches(f, [c], [c'], Run(f, m, Step(f, n, s)), Run(f, m, Step(f, n', s)))
  {
    MatchesConcat(f, [n], [n'], m, m, s, s);
    MatchesConcat(f, [n] + m, [n'] + m, [c], [c'], s, s);
    RunConcat(f, [n], m, s);
    RunConcat(f, [n'], m, s);
    RunConcat(f, [n] + m, [c], s);
    RunConcat(f, [n'] + m, [c'], s);
  }

  /** Without a slip every instruction reads what it read before, and only `t` is left with another value. */
  lemma CleanFaithful(f: Eval, b: seq<Insn>, j: nat, k: nat, s: State, u: set<Value>)
    requires Over(b, u) && s.vals.Keys == u && Reaches(b, j, k) && Clean(b, k)
    ensures var c, d := b[j..k + 1], Rewritten(b, j, k)[j..k + 1];
      Matches(f, c, d, s, s) && AgreeOff(Run(f, c, s), Run(f, d, s), b[k].value1) && Run(f, c, s).vals.Keys == u
  {
    hide Target;
    var t, y, m := b[k].value1, b[k].dest, b[j + 1..k];
    var n, n' := b[j], b[j].(dest := y);
    Cut(b, j, k);
    Middle(b, j, k);
    var s1, s1' := Step(f, n, s), Step(f, n', s);
    assert Carried(s1, s1', t, y) && Over(m, u);
    ClearCarries(f, m, s1, s1', t, y, u);
    RunKeys(f, m, s1, u);
    Apart(f, n, n', m, b[k], b[k].(op := Nop), s);
    MatchesOne(f, n, n', s, s);
    MatchesOne(f, b[k], b[k].(op := Nop), Run(f, m, s1), Run(f, m, s1'));
  }

  lemma MatchesOne(f: Eval, n: Insn, n': Insn, s: State, s': State)
    ensures Matches(f, [n], [n'], s, s') <==> (!n.op.Nop? && !n'.op.Nop? ==> SameOperands(n, n', s, s'))
  {
    assert [n][1..] == [] && [n'][1..] == [];
  }

  /** If `t` is not needed after the copy, the rewriting cannot be seen. */
  lemma RewriteSound(f: Eval, b: seq<Insn>, j: nat, k: nat, s: State, u: set<Value>)
    requires Over(b, u) && s.vals.Keys == u && Reaches(b, j, k) && Clean(b, k)
    requires Dead(b[k + 1..], b[k].value1) && !b[k].value1.isConstant
    ensures SameOutcome(Run(f, b, s), Run(f, Rewritten(b, j, k), s))
  {
    hide Target;
    var r := Rewritten(b, j, k);
    var s1 := Run(f, b[..j], s);
    RunKeys(f, b[..j], s, u);
    Cut(b, j, k);
    CleanFaithful(f, b, j, k, s1, u);
    DeadSound(f, b[k + 1..], Run(f, b[j..k + 1], s1), Run(f, r[j..k + 1], s1), b[k].value1, u);
    RunConcat(f, b[..j], b[j..k + 1], s);
    RunConcat(f, b[..j] + b[j..k + 1], b[k + 1..], s);
    RunConcat(f, b[..j], r[j..k + 1], s);
    RunConcat(f, b[..j] + r[j..k + 1], b[k + 1..], s);
  }

  /** With a slip there is a run in which some instruction reads another value than before, or something other than
      `t` is left with another value. */
  lemma SlipUnfaithful(b: seq<Insn>, j: nat, k: nat, u: set<Value>) returns (f: Eval, s: State)
    requires Over(b, u) && Reaches(b, j, k) && !Clean(b, k) && !(Copies(b[j].op) && b[j].value1 == b[k].value1)
    ensures s.vals.Keys == u
    ensures var c, d := b[j..k + 1], Rewritten(b, j, k)[j..k + 1];
      !(Matches(f, c, d, s, s) && AgreeOff(Run(f, c, s), Run(f, d, s), b[k].value1))
  {
    var t, y, m := b[k].value1, b[k].dest, b[j + 1..k];
    f := (_, _, _, _) => 0;
    s := State(map v | v in u :: if v == t then 1 else 0, []);
    var n, n', c, c' := b[j], b[j].(dest := y), b[k], b[k].(op := Nop);
    SlipFacts(b, j, k, u);
    Cut(b, j, k);
    hide Target, Clean, MissedRead, Over, Matches, Reads;
    Apart(f, n, n', m, c, c', s);
    if n.op.Nop? {
      KeepsBoth(f, m, s, t, y);
    } else {
      Moved(f, n, t, y, s);
      LateRead(f, b, j, k, Step(f, n, s), Step(f, n', s), t, y);
    }
  }

  lemma SlipFacts(b: seq<Insn>, j: nat, k: nat, u: set<Value>)
    requires Over(b, u) && Reaches(b, j, k) && !Clean(b, k)
    ensures j < k && b[j].dest == b[k].value1 && !b[j].destOther && !b[j].destIsValue && IsCopy(b[k])
    ensures WellFormed(b[j]) && WellFormed(b[k]) && b[k].value1 in u && b[k].dest in u && b[k].dest != b[k].value1
    ensures b[j].op.Nop? || MissedRead(b, j, k, b[k].value1)
    ensures var m := b[j + 1..k]; forall i :: 0 <= i < |m| ==> Kept(m[i], b[k].value1, b[k].dest)
  {
    hide Target;
    TargetAt(b, j, k);
    KeptIn(b, j, k);
  }

  /** With `y` as destination, an instruction that computes zero leaves `t` alone. */
  lemma Moved(f: Eval, n: Insn, t: Value, y: Value, s: State)
    requires !n.op.Nop? && n.dest == t && !n.destOther && !n.destIsValue && y != t && t in s.vals && s.vals[t] == 1
    requires Computed(f, n, s) == 0
    ensures Get(Step(f, n, s), t) == 0 && Get(Step(f, n.(dest := y), s), t) == 1
  {
  }

  lemma LateRead(f: Eval, b: seq<Insn>, j: nat, k: nat, s: State, s': State, t: Value, y: Value)
    requires j < k <= |b| && MissedRead(b, j, k, t) && Get(s, t) != Get(s', t)
    requires var m := b[j + 1..k]; forall i :: 0 <= i < |m| ==> Kept(m[i], t, y)
    ensures var m := b[j + 1..k]; !Matches(f, m, m, s, s')
  {
    var i :| j < i < k && ReadsLate(b[i], t);
    Differs(f, b[j + 1..k], i - j - 1, s, s', t, y);
  }

  /** Writes neither. */
  predicate Kept(n: Insn, t: Value, y: Value) { Def(n) != t && Def(n) != y }

  lemma TargetAt(b: seq<Insn>, j: nat, k: nat)
    requires Reaches(b, j, k)
    ensures b[j].dest == b[k].value1 && !b[j].destOther && !b[j].destIsValue
  {
    assert b[..k][j] == b[j];
  }

  lemma KeptIn(b: seq<Insn>, j: nat, k: nat)
    requires Reaches(b, j, k)
    ensures var m := b[j + 1..k]; forall i :: 0 <= i < |m| ==> Kept(m[i], b[k].value1, b[k].dest)
  {
    hide Target;
    Middle(b, j, k);
    var m := b[j + 1..k];
    forall i | 0 <= i < |m| ensures Kept(m[i], b[k].value1, b[k].dest) { assert m[i] == b[j + 1 + i]; }
  }

  lemma {:induction false} KeepsBoth(f: Eval, m: seq<Insn>, s: State, t: Value, y: Value)
    requires forall i :: 0 <= i < |m| ==> Kept(m[i], t, y)
    ensures Get(Run(f, m, s), t) == Get(s, t) && Get(Run(f, m, s), y) == Get(s, y)
  {
    if m != [] { KeepsBoth(f, m[1..], Step(f, m[0], s), t, y); }
  }

  lemma {:induction false} Differs(f: Eval, m: seq<Insn>, i: nat, s: State, s': State, t: Value, y: Value)
    requires i < |m| && ReadsLate(m[i], t) && forall i :: 0 <= i < |m| ==> Kept(m[i], t, y)
    requires Get(s, t) != Get(s', t)
    ensures !Matches(f, m, m, s, s')
  {
    if i > 0 { Differs(f, m[1..], i - 1, Step(f, m[0], s), Step(f, m[0], s'), t, y); }
  }

  /** The target copies `t` to itself.  Then it does not matter where `t` is read. */
  predicate CopiesItself(b: seq<Insn>, j: nat, k: nat) {
    j < k < |b| && Copies(b[j].op) && b[j].value1 == b[k].value1
  }

  /** The two agree but for `y`, which has the value of `t` in the second. */
  ghost predicate Ahead(s: State, s': State, t: Value, y: Value) {
    Carried(s, s', t, y) && s'.vals[t] == s.vals[t]
  }

  lemma {:induction false} AheadStays(f: Eval, m: seq<Insn>, s: State, s': State, t: Value, y: Value, u: set<Value>)
    requires Over(m, u) && Ahead(s, s', t, y) && s.vals.Keys == u
    requires forall i :: 0 <= i < |m| ==> Passed(m[i], t, y)
    ensures Ahead(Run(f, m, s), Run(f, m, s'), t, y) && Matches(f, m, m, s, s') && Run(f, m, s).vals.Keys == u
  {
    if m != [] { AheadStays(f, m[1..], Step(f, m[0], s), Step(f, m[0], s'), t, y, u); }
  }

  lemma AheadFirst(f: Eval, n: Insn, t: Value, y: Value, s: State)
    requires Copies(n.op) && n.value1 == n.dest == t && !n.destOther && !n.destIsValue
    requires t in s.vals && y in s.vals && t != y
    ensures Ahead(Step(f, n, s), Step(f, n.(dest := y), s), t, y) && Step(f, n, s).vals.Keys == s.vals.Keys
  {
  }

  lemma AheadLast(f: Eval, c: Insn, t: Value, y: Value, s: State, s': State)
    requires Ahead(s, s', t, y) && WellFormed(c) && IsCopy(c) && c.value1 == t && c.dest == y
    ensures AgreeOff(Step(f, c, s), Step(f, c.(op := Nop), s'), t)
  {
  }

  lemma Stretch(b: seq<Insn>, j: nat, k: nat, u: set<Value>)
    requires Over(b, u) && Reaches(b, j, k)
    ensures j < k && b[j].dest == b[k].value1 && !b[j].destOther && !b[j].destIsValue && WellFormed(b[k])
    ensures b[k].value1 in u && b[k].dest in u
    ensures var m := b[j + 1..k];
      Over(m, u) && forall i :: 0 <= i < |m| ==> Passed(m[i], b[k].value1, b[k].dest)
  {
    hide Target;
    Middle(b, j, k);
    TargetAt(b, j, k);
    hide Passed, WellFormed;
    var m := b[j + 1..k];
    forall i | 0 <= i < |m| ensures Passed(m[i], b[k].value1, b[k].dest) { assert m[i] == b[j + 1 + i]; }
  }

  lemma CopiesItselfFaithful(f: Eval, b: seq<Insn>, j: nat, k: nat, s: State, u: set<Value>)
    requires Over(b, u) && s.vals.Keys == u && Reaches(b, j, k) && CopiesItself(b, j, k)
    ensures Faithful(f, b, j, k, s)
  {
    hide Target, Over, Passed, Reads, Def, Ahead;
    var t, y, m := b[k].value1, b[k].dest, b[j + 1..k];
    var n, n' := b[j], b[j].(dest := y);
    Cut(b, j, k);
    Stretch(b, j, k, u);
    var s1, s1' := Step(f, n, s), Step(f, n', s);
    AheadFirst(f, n, t, y, s);
    AheadStays(f, m, s1, s1', t, y, u);
    AheadLast(f, b[k], t, y, Run(f, m, s1), Run(f, m, s1'));
    Apart(f, n, n', m, b[k], b[k].(op := Nop), s);
    MatchesOne(f, n, n', s, s);
    MatchesOne(f, b[k], b[k].(op := Nop), Run(f, m, s1), Run(f, m, s1'));
  }

  /** Every instruction of the stretch reads what it read before, and only `t` may end up different. */
  ghost predicate Faithful(f: Eval, b: seq<Insn>, j: nat, k: nat, s: State)
    requires Reaches(b, j, k)
  {
    Cut(b, j, k);
    var c, d := b[j..k + 1], Rewritten(b, j, k)[j..k + 1];
    Matches(f, c, d, s, s) && AgreeOff(Run(f, c, s), Run(f, d, s), b[k].value1)
  }

  /** Exactly when a rewriting is right, whatever the operations compute and whatever the values are. */
  lemma FaithfulIff(b: seq<Insn>, j: nat, k: nat, u: set<Value>)
    requires Over(b, u) && Reaches(b, j, k)
    ensures (forall f: Eval, s: State :: s.vals.Keys == u ==> Faithful(f, b, j, k, s))
       <==> Clean(b, k) || CopiesItself(b, j, k)
  {
    hide Target, Clean;
    if Clean(b, k) || CopiesItself(b, j, k) {
      forall f: Eval, s: State | s.vals.Keys == u ensures Faithful(f, b, j, k, s) {
        if Clean(b, k) { CleanFaithful(f, b, j, k, s, u); } else { CopiesItselfFaithful(f, b, j, k, s, u); }
      }
    } else {
      Cut(b, j, k);
      var f, s := SlipUnfaithful(b, j, k, u);
      assert !Faithful(f, b, j, k, s);
    }
  }

  // ---- The whole pass ----

  /** Instructions whose flags say that their first operand is not needed afterwards. */
  predicate LastUse(n: Insn) {
    && !n.op.Nop? && !n.value1Other && n.value1 != null && !n.value1.isConstant && Def(n) != n.value1
    && !n.bits.value1Live && !n.bits.value1Next
  }

  /** The flags are still right in this respect. */
  ghost predicate Pending(b: seq<Insn>, k: nat)
    requires k <= |b|
  {
    forall i :: 0 <= i < k && LastUse(b[i]) ==> Dead(b[i + 1..], b[i].value1)
  }

  /** `c` is a copy of `t` to `y`. */
  predicate CopyOf(c: Insn, t: Value, y: Value) {
    Copies(c.op) && !c.destOther && !c.destIsValue && !c.value1Other && c.dest == y && c.value1 == t && c.value2 == null
      && t != y
  }

  lemma DeadInside(m: seq<Insn>, c: Insn, q: seq<Insn>, v: Value, t: Value, y: Value)
    requires CopyOf(c, t, y) && Clear(m, t, y) && Dead(q, t) && v != y && (v != t ==> Dead(m + ([c] + q), v))
    ensures Dead(m + ([c.(op := Nop)] + q), v)
  {
    var c' := c.(op := Nop);
    if v == t {
      ClearDead(m, [c'] + q, t, y);
      assert ([c'] + q)[1..] == q;
    } else {
      DeadCongruent(m + ([c] + q), m + ([c'] + q), v);
    }
  }

  lemma DeadFirst(n: Insn, m: seq<Insn>, c: Insn, q: seq<Insn>, v: Value, t: Value, y: Value)
    requires Def(n) == t && CopyOf(c, t, y) && Clear(m, t, y) && Dead(q, t) && Dead([n] + m + [c] + q, v)
    ensures Dead([n.(dest := y)] + m + [c.(op := Nop)] + q, v)
  {
    var s, s' := [n] + m + [c] + q, [n.(dest := y)] + m + [c.(op := Nop)] + q;
    assert s[1..] == m + ([c] + q) && s'[1..] == m + ([c.(op := Nop)] + q);
    if v != y { DeadInside(m, c, q, v, t, y); }
  }

  lemma {:induction false} DeadBefore(p: seq<Insn>, n: Insn, m: seq<Insn>, c: Insn, q: seq<Insn>, v: Value, t: Value,
                                      y: Value)
    requires Def(n) == t && CopyOf(c, t, y) && Clear(m, t, y) && Dead(q, t) && Dead(p + ([n] + m + [c] + q), v)
    ensures Dead(p + ([n.(dest := y)] + m + [c.(op := Nop)] + q), v)
  {
    var s, s' := [n] + m + [c] + q, [n.(dest := y)] + m + [c.(op := Nop)] + q;
    if p == [] {
      assert p + s == s && p + s' == s';
      DeadFirst(n, m, c, q, v, t, y);
    } else {
      hide Clear, CopyOf;
      assert (p + s)[1..] == p[1..] + s && (p + s')[1..] == p[1..] + s';
      if Def(p[0]) != v { DeadBefore(p[1..], n, m, c, q, v, t, y); }
    }
  }

  lemma Pieces<T>(s: seq<T>, i: nat, j: nat, k: nat)
    requires i <= j < k < |s|
    ensures s[i..] == s[i..j] + ([s[j]] + s[j + 1..k] + [s[k]] + s[k + 1..])
  {
  }

  /** What the next two lemmas use of a rewriting. */
  lemma CleanStretch(b: seq<Insn>, j: nat, k: nat)
    requires Reaches(b, j, k) && Clean(b, k) && WellFormed(b[k])
    ensures j < k && CopyOf(b[k], b[k].value1, b[k].dest) && Def(b[j]) == b[k].value1 && b[j].dest == b[k].value1
    ensures Clear(b[j + 1..k], b[k].value1, b[k].dest)
  {
    hide Target;
    Middle(b, j, k);
    TargetAt(b, j, k);
  }

  lemma StillDeadBefore(b: seq<Insn>, j: nat, k: nat, i: nat, v: Value)
    requires Reaches(b, j, k) && Clean(b, k) && WellFormed(b[k]) && i < j
    requires Dead(b[i + 1..], v) && Dead(b[k + 1..], b[k].value1)
    ensures Dead(Rewritten(b, j, k)[i + 1..], v)
  {
    CleanStretch(b, j, k);
    hide Target, Reaches, Clean, Clear, CopyOf, Dead, WellFormed, Def;
    var t, y, r := b[k].value1, b[k].dest, Rewritten(b, j, k);
    var p, m, q := b[i + 1..j], b[j + 1..k], b[k + 1..];
    Pieces(b, i + 1, j, k);
    Pieces(r, i + 1, j, k);
    assert r[i + 1..j] == p && r[j + 1..k] == m && r[k + 1..] == q;
    DeadBefore(p, b[j], m, b[k], q, v, t, y);
  }

  lemma StillDeadInside(b: seq<Insn>, j: nat, k: nat, i: nat, v: Value)
    requires Reaches(b, j, k) && Clean(b, k) && WellFormed(b[k]) && j <= i < k && v != b[k].dest
    requires (v != b[k].value1 ==> Dead(b[i + 1..], v)) && Dead(b[k + 1..], b[k].value1)
    ensures Dead(Rewritten(b, j, k)[i + 1..], v)
  {
    CleanStretch(b, j, k);
    var t, y, r := b[k].value1, b[k].dest, Rewritten(b, j, k);
    var m, q := b[i + 1..k], b[k + 1..];
    assert m == b[j + 1..k][i - j..];
    assert Clear(m, t, y);
    hide Target, Reaches, Clean, Clear, CopyOf, Dead, WellFormed, Def;
    assert b[i + 1..] == m + ([b[k]] + q) && r[i + 1..] == m + ([r[k]] + q);
    DeadInside(m, b[k], q, v, t, y);
  }

  /** After a rewriting `v` is still not needed after the instruction at `i`. */
  lemma StillDead(b: seq<Insn>, j: nat, k: nat, i: nat)
    requires Reaches(b, j, k) && Clean(b, k) && i < k && LastUse(Rewritten(b, j, k)[i])
    requires LastUse(b[i]) ==> Dead(b[i + 1..], b[i].value1)
    requires Dead(b[k + 1..], b[k].value1) && WellFormed(b[k])
    ensures Dead(Rewritten(b, j, k)[i + 1..], b[i].value1)
  {
    var r := Rewritten(b, j, k);
    CleanStretch(b, j, k);
    Middle(b, j, k);
    hide Target, Clean, Dead, Clear;
    if i < j {
      StillDeadBefore(b, j, k, i, b[i].value1);
    } else {
      StillDeadInside(b, j, k, i, b[i].value1);
    }
  }

  /** Dropping `v = v` does not change what is needed. */
  lemma {:induction false} DeadSelf(p: seq<Insn>, c: Insn, q: seq<Insn>, v: Value)
    requires !c.op.Nop? && Def(c) != null && Reads(c, Def(c)) && Dead(p + ([c] + q), v)
    ensures Dead(p + ([c.(op := Nop)] + q), v)
  {
    var c' := c.(op := Nop);
    var s, s' := [c] + q, [c'] + q;
    if p == [] {
      assert p + s == s && p + s' == s' && s[1..] == q && s'[1..] == q;
    } else {
      assert (p + s)[1..] == p[1..] + s && (p + s')[1..] == p[1..] + s';
      if Def(p[0]) != v { DeadSelf(p[1..], c, q, v); }
    }
  }

  lemma SelfCopySound(f: Eval, b: seq<Insn>, k: nat, s: State, u: set<Value>)
    requires Over(b, u) && s.vals.Keys == u && k < |b| && IsCopy(b[k]) && b[k].dest == b[k].value1
    ensures Run(f, b[k := b[k].(op := Nop)], s) == Run(f, b, s)
  {
    var r, s1 := b[k := b[k].(op := Nop)], Run(f, b[..k], s);
    RunKeys(f, b[..k], s, u);
    assert b == b[..k] + b[k..] && r == b[..k] + r[k..] && b[k..][1..] == b[k + 1..] == r[k..][1..];
    RunConcat(f, b[..k], b[k..], s);
    RunConcat(f, b[..k], r[k..], s);
    assert Step(f, b[k], s1) == s1;
  }

  lemma SelfCopyDead(b: seq<Insn>, k: nat, i: nat)
    requires i < k < |b| && WellFormed(b[k]) && IsCopy(b[k]) && b[k].dest == b[k].value1
    requires b[i].value1 != null && Dead(b[i + 1..], b[i].value1)
    ensures Dead(At(b, k).0[i + 1..], b[i].value1)
  {
    var p, q, r := b[i + 1..k], b[k + 1..], At(b, k).0;
    assert b[i + 1..] == p + ([b[k]] + q) && r[i + 1..] == p + ([r[k]] + q);
    DeadSelf(p, b[k], q, b[i].value1);
  }

  lemma AtSound(f: Eval, b: seq<Insn>, k: nat, s: State, u: set<Value>)
    requires k < |b| && Over(b, u) && s.vals.Keys == u && Unharmed(b, k) && Pending(b, k + 1)
    ensures SameOutcome(Run(f, b, s), Run(f, At(b, k).0, s)) && Over(At(b, k).0, u) && Pending(At(b, k).0, k)
  {
    hide Target;
    var n, r := b[k], At(b, k).0;
    if !IsCopy(n) {
    } else if n.dest == n.value1 {
      SelfCopySound(f, b, k, s, u);
      forall i | 0 <= i < k && LastUse(r[i]) ensures Dead(r[i + 1..], r[i].value1) { SelfCopyDead(b, k, i); }
    } else if Movable(n) && Target(b[..k], n.dest, n.value1).There? {
      var j := Target(b[..k], n.dest, n.value1).at;
      assert Reaches(b, j, k);
      TargetAt(b, j, k);
      RewriteSound(f, b, j, k, s, u);
      forall i | 0 <= i < k && LastUse(r[i]) ensures Dead(r[i + 1..], r[i].value1) { StillDead(b, j, k, i); }
    }
  }

  /** When neither slip strikes, the pass changes nothing that can be seen. */
  lemma {:induction false} Sound(f: Eval, b: seq<Insn>, k: nat, s: State, u: set<Value>)
    requires k <= |b| && Over(b, u) && s.vals.Keys == u && AllClean(b, k) && Pending(b, k)
    ensures SameOutcome(Run(f, b, s), Run(f, Before(b, k).0, s)) && Over(Before(b, k).0, u)
    decreases k
  {
    if k > 0 {
      AtSound(f, b, k - 1, s, u);
      Sound(f, At(b, k - 1).0, k - 1, s, u);
    }
  }

  // ---- How exact the condition is ----

  predicate SelfCopy(n: Insn) { Copies(n.op) && n.dest != null && n.dest == n.value1 }

  /** A value that is copied to itself is not copied again before `k`. */
  predicate SelfAlone(b: seq<Insn>, k: nat)
    requires k <= |b|
  {
    forall i, c :: 0 <= i < c < k && SelfCopy(b[i]) && Copies(b[c].op) ==> b[c].value1 != b[i].dest
  }

  lemma SelfAloneAt(b: seq<Insn>, k: nat, u: set<Value>)
    requires k < |b| && Over(b, u) && SelfAlone(b, k + 1)
    ensures SelfAlone(At(b, k).0, k) && Over(At(b, k).0, u)
    ensures forall j: nat :: Reaches(b, j, k) ==> !CopiesItself(b, j, k)
  {
    hide Target;
    forall j: nat | Reaches(b, j, k) ensures !CopiesItself(b, j, k) && SelfAlone(Rewritten(b, j, k), k) {
      Stretch(b, j, k, u);
      forall c | j < c < k && Copies(b[c].op) ensures b[c].value1 != b[k].dest {
        assert b[j + 1..k][c - j - 1] == b[c] && WellFormed(b[c]);
      }
    }
  }

  /** The block when the turn of the instruction at `i` comes, in a pass over the instructions before `k`. */
  function Turn(b: seq<Insn>, k: nat, i: nat): (r: seq<Insn>)
    requires i < k <= |b|
    ensures |r| == |b|
    decreases k
  {
    if i == k - 1 then b else Turn(At(b, k - 1).0, k - 1, i)
  }

  /** The pass rewrites the copy at `i`, and the instruction at `j` with it. */
  predicate Rewrites(b: seq<Insn>, k: nat, i: nat, j: nat)
    requires k <= |b|
  {
    i < k && Reaches(Turn(b, k, i), j, i) && Movable(Turn(b, k, i)[i])
  }

  /** If the pass rewrites these two, the rewriting is faithful in this run. */
  ghost predicate FaithfulAt(b: seq<Insn>, k: nat, i: nat, j: nat, f: Eval, s: State)
    requires k <= |b|
  {
    Rewrites(b, k, i, j) ==> Faithful(f, Turn(b, k, i), j, i, s)
  }

  /** `AllClean` says exactly that every rewriting of the pass is faithful in all runs. */
  lemma {:induction false} CleanExactly(b: seq<Insn>, k: nat, u: set<Value>)
    requires k <= |b| && Over(b, u) && SelfAlone(b, k)
    ensures AllClean(b, k) <==>
      forall i: nat, j: nat, f: Eval, s: State :: s.vals.Keys == u ==> FaithfulAt(b, k, i, j, f, s)
    decreases k
  {
    if k > 0 {
      var r := At(b, k - 1).0;
      SelfAloneAt(b, k - 1, u);
      UnharmedExactly(b, k - 1, u);
      CleanExactly(r, k - 1, u);
      hide Unharmed, Faithful, At;
      if AllClean(b, k) {
        forall i: nat, j: nat, f: Eval, s: State | s.vals.Keys == u ensures FaithfulAt(b, k, i, j, f, s) {
          TurnAt(b, k, i, j, f, s);
          assert FaithfulAt(r, k - 1, i, j, f, s) && FaithfulNow(b, k - 1, j, f, s);
        }
      } else if !Unharmed(b, k - 1) {
        var j: nat, f: Eval, s: State :| s.vals.Keys == u && !FaithfulNow(b, k - 1, j, f, s);
        TurnAt(b, k, k - 1, j, f, s);
      } else {
        var i: nat, j: nat, f: Eval, s: State :| s.vals.Keys == u && !FaithfulAt(r, k - 1, i, j, f, s);
        TurnAt(b, k, i, j, f, s);
      }
    }
  }

  lemma TurnAt(b: seq<Insn>, k: nat, i: nat, j: nat, f: Eval, s: State)
    requires 0 < k <= |b|
    ensures if i == k - 1 then FaithfulAt(b, k, i, j, f, s) <==> FaithfulNow(b, i, j, f, s)
      else FaithfulAt(b, k, i, j, f, s) <==> FaithfulAt(At(b, k - 1).0, k - 1, i, j, f, s)
  {
    hide Faithful, At, Reaches;
  }

  ghost predicate FaithfulNow(b: seq<Insn>, k: nat, j: nat, f: Eval, s: State)
    requires k < |b|
  {
    Reaches(b, j, k) && Movable(b[k]) ==> Faithful(f, b, j, k, s)
  }

  lemma UnharmedExactly(b: seq<Insn>, k: nat, u: set<Value>)
    requires k < |b| && Over(b, u) && forall j: nat :: Reaches(b, j, k) ==> !CopiesItself(b, j, k)
    ensures Unharmed(b, k) <==> forall j: nat, f: Eval, s: State :: s.vals.Keys == u ==> FaithfulNow(b, k, j, f, s)
  {
    hide Faithful, CopiesItself;
    if IsCopy(b[k]) && b[k].dest != b[k].value1 && Target(b[..k], b[k].dest, b[k].value1).There? {
      var j := Target(b[..k], b[k].dest, b[k].value1).at;
      assert Reaches(b, j, k);
      FaithfulIff(b, j, k, u);
      hide Target;
      assert forall i: nat :: Reaches(b, i, k) ==> i == j;
      if Movable(b[k]) && !Clean(b, k) {
        var f: Eval, s: State :| s.vals.Keys == u && !Faithful(f, b, j, k, s);
        assert !FaithfulNow(b, k, j, f, s);
      }
    } else if IsCopy(b[k]) {
      NeverSelf(b[..k], b[k].dest);
    }
  }

  lemma {:induction false} NeverSelf(b: seq<Insn>, y: Value)
    ensures !Target(b, y, y).There?
  {
    if b != [] { NeverSelf(b[..|b| - 1], y); }
  }

  /** The flags that the liveness pass leaves are right. */
  /** Which copies of a cleaned block may move: those of private values, whose original nobody needs any more. */
  lemma MovableIff(b: seq<Insn>, k: nat)
    requires k < |b| && IsCopy(Cleaned(b)[k]) && !Cleaned(b)[k].value1Other
    ensures var n, rest := Cleaned(b)[k], Cleaned(b)[k + 1..];
      Movable(n) <==>
        && !n.dest.isAddressable && !n.dest.isVolatile && !n.value1.isAddressable && !n.value1.isVolatile
        && (n.value1.isConstant || Dead(rest, n.value1))
  {
    FlagsExact(b, k);
    DeadExactly(Cleaned(b)[k + 1..], Cleaned(b)[k].value1);
  }

  lemma CleanedPending(b: seq<Insn>)
    ensures Pending(Cleaned(b), |b|)
  {
    var r := Cleaned(b);
    forall i | 0 <= i < |b| && LastUse(r[i]) ensures Dead(r[i + 1..], r[i].value1) {
      FlagsExact(b, i);
      DeadExactly(r[i + 1..], r[i].value1);
    }
  }
}
