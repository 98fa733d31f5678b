/** Values and instructions of a basic block (jit/jit-internal.h), and what running a block means.

    An instruction computes its destination from its operands and from what was stored before it, or it has an effect
    of its own.  What operations compute is left open: all results hold for every choice of `Eval`. */
module Instructions {
  datatype Kind = Int | UInt | OtherKind(code: int)

  /** `_jit_value`: what a value is, and the marks that the liveness pass leaves on it. */
  class Value {
    const isConstant: bool
    const isTemporary: bool
    const isAddressable: bool
    const isVolatile: bool
    const kind: Kind
    var live: bool
    var nextUse: bool

    constructor (isConstant: bool, isTemporary: bool, isAddressable: bool, isVolatile: bool, kind: Kind)
      ensures this.isConstant == isConstant && this.isTemporary == isTemporary && this.kind == kind
      ensures this.isAddressable == isAddressable && this.isVolatile == isVolatile && !live && !nextUse
    {
      this.isConstant, this.isTemporary, this.kind := isConstant, isTemporary, kind;
      this.isAddressable, this.isVolatile, live, nextUse := isAddressable, isVolatile, false, false;
    }
  }

  /** `Copy` stands for the copying opcodes other than JIT_OP_COPY_INT. */
  datatype Op = Nop | CopyInt | Copy(code: int) | Other(code: int)

  /** The liveness flags of an instruction. */
  datatype Bits = Bits(destLive: bool, destNext: bool, value1Live: bool, value1Next: bool, value2Live: bool,
                       value2Next: bool)

  /** An operand with its OTHER flag set is a label, a function or the like, not a value: it is part of `op`, and the
      field is null.  With `destIsValue` the destination is read, not written. */
  datatype Insn = Insn(op: Op, destOther: bool, value1Other: bool, value2Other: bool, destIsValue: bool, bits: Bits,
                       dest: Value?, value1: Value?, value2: Value?)

  predicate Copies(op: Op) { op.CopyInt? || op.Copy? }

  predicate WellFormed(n: Insn) {
    && (n.destOther ==> n.dest == null) && (n.value1Other ==> n.value1 == null) && (n.value2Other ==> n.value2 == null)
    && (Copies(n.op) ==> !n.destIsValue && n.dest != null && n.value1 != null && n.value2 == null)
    && (n.dest != null && !n.destIsValue ==> !n.dest.isConstant)
  }

  /** A block whose values all belong to `u`. */
  predicate Over(b: seq<Insn>, u: set<Value>) {
    forall i :: 0 <= i < |b| ==> WellFormed(b[i]) && Within(b[i], u)
  }

  predicate Within(n: Insn, u: set<Value>) {
    && (n.dest != null ==> n.dest in u) && (n.value1 != null ==> n.value1 in u) && (n.value2 != null ==> n.value2 in u)
  }

  /** The value that an instruction writes. */
  function Def(n: Insn): Value? { if n.op.Nop? || n.destOther || n.destIsValue then null else n.dest }

  predicate Reads(n: Insn, v: Value) {
    && !n.op.Nop?
    && ((!n.destOther && n.destIsValue && n.dest == v) || (!n.value1Other && n.value1 == v)
      || (!n.value2Other && n.value2 == v))
  }

  // ---- Running a block ----

  datatype Event = Event(op: Op, dest: int, value1: int, value2: int)
  datatype State = State(vals: map<Value, int>, events: seq<Event>)

  type Eval = (Op, int, int, seq<Event>) -> int

  function Result(f: Eval, op: Op, a: int, b: int, events: seq<Event>): int { f(op, a, b, events) }

  function Get(s: State, v: Value?): int { if v != null && v in s.vals then s.vals[v] else 0 }

  function Computed(f: Eval, n: Insn, s: State): int {
    if Copies(n.op) then Get(s, n.value1) else Result(f, n.op, Get(s, n.value1), Get(s, n.value2), s.events)
  }

  function Step(f: Eval, n: Insn, s: State): State {
    if n.op.Nop? then s
    else if Def(n) != null then s.(vals := s.vals[Def(n) := Computed(f, n, s)])
    else s.(events := s.events + [Event(n.op, Get(s, n.dest), Get(s, n.value1), Get(s, n.value2))])
  }

  function Run(f: Eval, b: seq<Insn>, s: State): State {
    if b == [] then s else Run(f, b[1..], Step(f, b[0], s))
  }

  lemma {:induction false} RunConcat(f: Eval, a: seq<Insn>, b: seq<Insn>, s: State)
    ensures Run(f, a + b, s) == Run(f, b, Run(f, a, s))
  {
    if a == [] {
      assert a + b == b;
    } else {
      assert (a + b)[1..] == a[1..] + b;
      RunConcat(f, a[1..], b, Step(f, a[0], s));
    }
  }

  lemma {:induction false} RunKeys(f: Eval, b: seq<Insn>, s: State, u: set<Value>)
    requires s.vals.Keys == u && Over(b, u)
    ensures Run(f, b, s).vals.Keys == u
  {
    if b != [] { RunKeys(f, b[1..], Step(f, b[0], s), u); }
  }

  /** What the rest of the function can see after the block: the values that are not temporaries, and the effects. */
  ghost predicate SameOutcome(s: State, s': State) {
    && s.vals.Keys == s'.vals.Keys && s.events == s'.events
    && forall v :: v in s.vals && !v.isTemporary ==> s'.vals[v] == s.vals[v]
  }

  /** `is_copy_insn`. */
  predicate IsCopy(n: Insn) {
    && n.dest != null && n.value1 != null
    && match n.op
       case CopyInt => n.dest.kind == n.value1.kind
         || ((n.dest.kind.Int? || n.dest.kind.UInt?) && (n.value1.kind.Int? || n.value1.kind.UInt?))
       case Copy(_) => true
       case _ => false
  }
}
