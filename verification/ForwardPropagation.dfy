/** Forward copy propagation in a block (jit/jit-live.c, `forward_propagation`). */
module ForwardPropagation {
  import opened Instructions
  import opened Sequences

  /** The instruction writes the copy or the original.  This looks at the destination field even of a NOP: the test
      that should skip NOPs looks at the copy itself, and never skips anything. */
  predicate Stops(n: Insn, t: Value, x: Value) { !n.destOther && !n.destIsValue && (n.dest == t || n.dest == x) }

  /** Read `x` in place of its copy `t`. */
  function Subst(n: Insn, t: Value, x: Value): Insn {
    n.(dest := if !n.destOther && n.destIsValue && n.dest == t then x else n.dest,
       value1 := if !n.value1Other && n.value1 == t then x else n.value1,
       value2 := if !n.value2Other && n.value2 == t then x else n.value2)
  }

  /** Replace `t` by `x` up to the first instruction that writes either. */
  function Scan(b: seq<Insn>, t: Value, x: Value): (r: (seq<Insn>, bool))
    ensures |r.0| == |b|
  {
    if b == [] || Stops(b[0], t, x) then (b, false)
    else
      var rest := Scan(b[1..], t, x);
      ([Subst(b[0], t, x)] + rest.0, Subst(b[0], t, x) != b[0] || rest.1)
  }

  /** Copies that may be propagated: of nothing that other code can see or change. */
  predicate Movable(n: Insn)
    requires n.dest != null && n.value1 != null
  {
    n.dest.isTemporary && !n.dest.isAddressable && !n.dest.isVolatile && !n.value1.isAddressable && !n.value1.isVolatile
  }

  /** The block after the copy at `k` was looked at, and whether it changed. */
  function At(b: seq<Insn>, k: nat): (r: (seq<Insn>, bool))
    requires k < |b|
    ensures |r.0| == |b|
  {
    var n := b[k];
    if !IsCopy(n) then (b, false)
    else if n.dest == n.value1 then (b[k := n.(op := Nop)], true)
    else if !Movable(n) then (b, false)
    else
      var r := Scan(b[k + 1..], n.dest, n.value1);
      (b[..k + 1] + r.0, r.1)
  }

  function From(b: seq<Insn>, k: nat): (r: (seq<Insn>, bool))
    requires k <= |b|
    ensures |r.0| == |b|
    decreases |b| - k
  {
    if k == |b| then (b, false)
    else
      var r := At(b, k);
      var q := From(r.0, k + 1);
      (q.0, r.1 || q.1)
  }

  /** `forward_propagation`. */
  method Propagate(block: array<Insn>) returns (optimized: bool)
    requires forall i :: 0 <= i < block.Length ==> WellFormed(block[i])
    modifies block
    ensures (block[..], optimized) == From(old(block[..]), 0)
  {
    optimized := false;
    var k := 0;
    while k < block.Length
      invariant 0 <= k <= block.Length
      invariant var r := From(block[..], k); From(old(block[..]), 0) == (r.0, optimized || r.1)
    {
      ghost var b := block[..];
      var insn := block[k];
      if IsCopy(insn) {
        var dest, value := insn.dest, insn.value1;
        if dest == value {
          block[k] := insn.(op := Nop);
          optimized := true;
        } else if Movable(insn) {
          optimized := Rewrite(block, k, dest, value, optimized);
        }
      }
      k := k + 1;
    }
  }

  /** The inner loop: rewrite the instructions after the copy at `k`. */
  method Rewrite(block: array<Insn>, k: nat, dest: Value, value: Value, before: bool) returns (optimized: bool)
    requires k < block.Length && dest != value
    modifies block
    ensures var r := Scan(old(block[..])[k + 1..], dest, value);
      block[..] == old(block[..])[..k + 1] + r.0 && optimized == (before || r.1)
  {
    hide Subst, Stops, Scan;
    optimized := before;
    var j := k + 1;
    ghost var b, done, r := block[..], [], Scan(block[..][k + 1..], dest, value);
    while j < block.Length && !Stops(block[j], dest, value)
      invariant k < j <= block.Length && |done| == j - k - 1 && block[..] == b[..k + 1] + done + b[j..]
      invariant var q := Scan(b[j..], dest, value); r.0 == done + q.0 && (before || r.1) == (optimized || q.1)
    {
      ghost var n := Subst(block[j], dest, value);
      assert block[j] == b[j] by { assert block[..][j] == b[j]; }
      ScanOne(b, j, dest, value);
      Advance(b, k, done, j, n, Scan(b[j + 1..], dest, value).0);
      optimized := RewriteOne(block, j, dest, value, optimized);
      done := done + [n];
      j := j + 1;
    }
    if j < block.Length {
      assert block[j] == b[j] by { assert block[..][j] == b[j]; }
      ScanOne(b, j, dest, value);
    } else {
      ScanNone(b[j..], dest, value);
    }
    Regroup(b[..k + 1], done, b[j..]);
  }

  lemma ScanNone(b: seq<Insn>, t: Value, x: Value)
    requires b == []
    ensures Scan(b, t, x) == (b, false)
  {
  }

  lemma ScanOne(b: seq<Insn>, j: nat, t: Value, x: Value)
    requires j < |b|
    ensures Stops(b[j], t, x) ==> Scan(b[j..], t, x) == (b[j..], false)
    ensures !Stops(b[j], t, x) ==> var r, n := Scan(b[j + 1..], t, x), Subst(b[j], t, x);
      Scan(b[j..], t, x) == ([n] + r.0, n != b[j] || r.1)
  {
    assert b[j..][1..] == b[j + 1..] && b[j..][0] == b[j];
  }

  lemma Advance(b: seq<Insn>, k: nat, done: seq<Insn>, j: nat, n: Insn, rest: seq<Insn>)
    requires k < j < |b| && |done| == j - k - 1
    ensures (b[..k + 1] + done + b[j..])[j := n] == b[..k + 1] + (done + [n]) + b[j + 1..]
    ensures done + ([n] + rest) == (done + [n]) + rest
  {
  }

  /** The rest of the inner loop's body. */
  method RewriteOne(block: array<Insn>, j: nat, dest: Value, value: Value, before: bool) returns (optimized: bool)
    requires j < block.Length && dest != value
    modifies block
    ensures var n := Subst(old(block[j]), dest, value);
      block[..] == old(block[..])[j := n] && optimized == (before || n != old(block[j]))
  {
    optimized := before;
    var insn2 := block[j];
    if !insn2.destOther && insn2.destIsValue && insn2.dest == dest {
      block[j] := block[j].(dest := value);
      optimized := true;
    }
    if !insn2.value1Other && insn2.value1 == dest {
      block[j] := block[j].(value1 := value);
      optimized := true;
    }
    if !insn2.value2Other && insn2.value2 == dest {
      block[j] := block[j].(value2 := value);
      optimized := true;
    }
  }

  // ---- Forward propagation changes nothing ----

  /** While the copy and the original hold the same, reading one or the other is the same. */
  lemma {:induction false} ScanSound(f: Eval, b: seq<Insn>, t: Value, x: Value, s: State, u: set<Value>)
    requires Over(b, u) && t in u && x in u && s.vals.Keys == u && Get(s, t) == Get(s, x)
    ensures Run(f, Scan(b, t, x).0, s) == Run(f, b, s)
    ensures Over(Scan(b, t, x).0, u)
  {
    if b != [] && !Stops(b[0], t, x) {
      var r := Scan(b, t, x).0;
      assert Step(f, r[0], s) == Step(f, b[0], s);
      assert r[1..] == Scan(b[1..], t, x).0;
      ScanSound(f, b[1..], t, x, Step(f, b[0], s), u);
      assert forall i :: 0 < i < |b| ==> r[i] == r[1..][i - 1];
    }
  }

  lemma Split(f: Eval, b: seq<Insn>, k: nat, s: State)
    requires k < |b|
    ensures Run(f, b, s) == Run(f, b[k + 1..], Step(f, b[k], Run(f, b[..k], s)))
  {
    assert b == b[..k] + b[k..];
    RunConcat(f, b[..k], b[k..], s);
  }

  lemma AtSound(f: Eval, b: seq<Insn>, k: nat, s: State, u: set<Value>)
    requires k < |b| && Over(b, u) && s.vals.Keys == u
    ensures Run(f, At(b, k).0, s) == Run(f, b, s) && Over(At(b, k).0, u)
  {
    var n, r, rest := b[k], At(b, k).0, b[k + 1..];
    var s1 := Run(f, b[..k], s);
    RunKeys(f, b[..k], s, u);
    Split(f, b, k, s);
    Split(f, r, k, s);
    if IsCopy(n) && n.dest == n.value1 {
      assert Step(f, n, s1) == s1 && r[k + 1..] == rest;
    } else if IsCopy(n) && Movable(n) {
      ScanSound(f, rest, n.dest, n.value1, Step(f, n, s1), u);
      assert r[..k] == b[..k] && r[k] == n && r[k + 1..] == Scan(rest, n.dest, n.value1).0;
      assert forall i :: k < i < |b| ==> r[i] == r[k + 1..][i - k - 1];
    }
  }

  /** The block computes what it did before: every value, not only those that outlive it, and every effect. */
  lemma {:induction false} Sound(f: Eval, b: seq<Insn>, k: nat, s: State, u: set<Value>)
    requires k <= |b| && Over(b, u) && s.vals.Keys == u
    ensures Run(f, From(b, k).0, s) == Run(f, b, s) && Over(From(b, k).0, u)
    decreases |b| - k
  {
    if k < |b| {
      AtSound(f, b, k, s, u);
      Sound(f, At(b, k).0, k + 1, s, u);
    }
  }

  // ---- And reaches every use of a copy ----

  /** The instruction names the value as something it reads, even if it is a NOP. */
  predicate Names(n: Insn, v: Value) {
    || (!n.destOther && n.destIsValue && n.dest == v)
    || (!n.value1Other && n.value1 == v)
    || (!n.value2Other && n.value2 == v)
  }

  /** No instruction in b[lo..hi] writes `t` or `x`. */
  predicate Unbroken(b: seq<Insn>, lo: nat, hi: nat, t: Value, x: Value) {
    forall i :: lo <= i < hi && i < |b| ==> !Stops(b[i], t, x)
  }

  /** No other code can see or change the value. */
  predicate Private(v: Value) { !v.isAddressable && !v.isVolatile }

  /** A copy is not one of a value to itself.  If it is a temporary, and both values are private, then nothing reads it
      up to the next write to it or to its original. */
  predicate Propagated(b: seq<Insn>, k: nat)
    requires k < |b|
  {
    IsCopy(b[k]) ==>
      && b[k].dest != b[k].value1
      && (b[k].dest.isTemporary && Private(b[k].dest) && Private(b[k].value1) ==>
        forall j :: k < j < |b| && Unbroken(b, k + 1, j + 1, b[k].dest, b[k].value1) ==> !Names(b[j], b[k].dest))
  }

  lemma {:induction false} ScanAt(b: seq<Insn>, t: Value, x: Value, j: nat)
    requires j < |b|
    ensures Scan(b, t, x).0[j] == if Unbroken(b, 0, j + 1, t, x) then Subst(b[j], t, x) else b[j]
  {
    hide Stops, Subst;
    if !Stops(b[0], t, x) && j > 0 {
      ScanAt(b[1..], t, x, j - 1);
      assert forall i :: 0 < i < |b| ==> b[i] == b[1..][i - 1];
      assert forall i :: 0 <= i < |b| - 1 ==> b[1..][i] == b[i + 1];
    }
  }

  /** What happens to instruction `j` when the copy at `k` has its turn. */
  lemma AtOne(b: seq<Insn>, k: nat, j: nat)
    requires k < |b| && j < |b|
    ensures var n, r := b[k], At(b, k).0;
      if j == k && IsCopy(n) && n.dest == n.value1 then r[j] == n.(op := Nop)
      else if j > k && IsCopy(n) && n.dest != n.value1 && Movable(n) && Unbroken(b, k + 1, j + 1, n.dest, n.value1) then
        r[j] == Subst(b[j], n.dest, n.value1)
      else r[j] == b[j]
  {
    hide Stops, Subst;
    var n, rest := b[k], b[k + 1..];
    if j > k && IsCopy(n) && n.dest != n.value1 && Movable(n) {
      ScanAt(rest, n.dest, n.value1, j - k - 1);
      assert forall i :: 0 <= i < |rest| ==> rest[i] == b[i + k + 1];
      assert forall i :: k < i < |b| ==> b[i] == rest[i - k - 1];
      assert Unbroken(rest, 0, j - k, n.dest, n.value1) <==> Unbroken(b, k + 1, j + 1, n.dest, n.value1);
    }
  }

  lemma SubstNames(n: Insn, t: Value, x: Value, v: Value)
    requires t != x
    ensures Names(Subst(n, t, x), v) <==> v != t && (Names(n, v) || (v == x && Names(n, t)))
    ensures forall p: Value, q: Value :: Stops(Subst(n, t, x), p, q) <==> Stops(n, p, q)
    ensures WellFormed(n) ==> WellFormed(Subst(n, t, x))
  {
  }

  predicate AllWell(b: seq<Insn>) { forall i :: 0 <= i < |b| ==> WellFormed(b[i]) }

  /** A turn changes no instruction's destination. */
  lemma AtStops(b: seq<Insn>, k: nat, j: nat)
    requires k < |b| && j < |b|
    ensures forall p: Value, q: Value :: Stops(At(b, k).0[j], p, q) <==> Stops(b[j], p, q)
    ensures WellFormed(b[j]) ==> WellFormed(At(b, k).0[j])
  {
    AtOne(b, k, j);
    var n := b[k];
    hide At, Subst;
    if IsCopy(n) && n.dest != n.value1 { SubstNames(b[j], n.dest, n.value1, n.dest); }
  }

  lemma AtUnbroken(b: seq<Insn>, k: nat, lo: nat, hi: nat, t: Value, x: Value)
    requires k < |b|
    ensures Unbroken(At(b, k).0, lo, hi, t, x) <==> Unbroken(b, lo, hi, t, x)
  {
    hide At, Stops;
    forall i | 0 <= i < |b| ensures Stops(At(b, k).0[i], t, x) <==> Stops(b[i], t, x) { AtStops(b, k, i); }
  }

  /** The turn of the copy at `k` does it. */
  lemma AtDone(b: seq<Insn>, k: nat)
    requires k < |b| && AllWell(b)
    ensures Propagated(At(b, k).0, k)
  {
    var n, r := b[k], At(b, k).0;
    AtOne(b, k, k);
    if IsCopy(n) && n.dest != n.value1 && Movable(n) {
      forall j | k < j < |b| && Unbroken(r, k + 1, j + 1, n.dest, n.value1) ensures !Names(r[j], n.dest) {
        AtUnbroken(b, k, k + 1, j + 1, n.dest, n.value1);
        AtOne(b, k, j);
        SubstNames(b[j], n.dest, n.value1, n.dest);
      }
    }
  }

  /** Later turns keep it. */
  lemma AtKeeps(b: seq<Insn>, k: nat, i: nat)
    requires i < k < |b| && AllWell(b) && Propagated(b, i)
    ensures Propagated(At(b, k).0, i)
  {
    var c, n, r := b[i], b[k], At(b, k).0;
    AtOne(b, k, i);
    hide At, Stops, Subst, Unbroken;
    if IsCopy(c) && Movable(c) {
      forall j | i < j < |b| && Unbroken(r, i + 1, j + 1, c.dest, c.value1) ensures !Names(r[j], c.dest) {
        AtUnbroken(b, k, i + 1, j + 1, c.dest, c.value1);
        AtOne(b, k, j);
        if j > k && IsCopy(n) && n.dest != n.value1 {
          SubstNames(b[j], n.dest, n.value1, c.dest);
          Shorter(b, i + 1, k + 1, j + 1, c.dest, c.value1);
          assert !Names(n, c.dest);
        }
      }
    }
  }

  lemma Shorter(b: seq<Insn>, lo: nat, mid: nat, hi: nat, t: Value, x: Value)
    requires Unbroken(b, lo, hi, t, x) && mid <= hi
    ensures Unbroken(b, lo, mid, t, x)
  {
  }

  /** So it is with every copy after the whole pass: it has reached all uses that it may. */
  lemma {:induction false} CopiesReach(b: seq<Insn>, k: nat)
    requires k <= |b| && AllWell(b) && forall i :: 0 <= i < k ==> Propagated(b, i)
    ensures forall i :: 0 <= i < |b| ==> Propagated(From(b, k).0, i)
    decreases |b| - k
  {
    if k < |b| {
      var r := At(b, k).0;
      forall i | 0 <= i < |b| ensures WellFormed(r[i]) { AtStops(b, k, i); }
      AtDone(b, k);
      forall i | 0 <= i < k ensures Propagated(r, i) { AtKeeps(b, k, i); }
      hide At, Propagated;
      CopiesReach(r, k + 1);
    }
  }
}
