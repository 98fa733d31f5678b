/** Where x86-64 parameters go: registers and stack slots (jit/jit-apply-x86-64.c, `_jit_alloc_param_slot`,
    `_jit_classify_struct` and `_jit_classify_param`).  Compare the System V AMD64 ABI, section 3.2.3. */
module ParamSlots {
  import opened Arithmetic
  import opened Sequences

  /** X87 is a class of return values only: parameters of that type are in class MEMORY. */
  datatype Class = NO_CLASS | INTEGER | MEMORY | SSE

  /** Rounded up to a multiple of 8, an alignment is a power of two. */
  type Alignment = a: nat | a > 0 witness 1

  /** The type of a parameter.  The classes of the parts of a structure come from `_jit_classify_structpart`; `second`
      is the class of its second eight bytes, if it has any. */
  datatype Type =
    | Scalar(size: nat, alignment: Alignment, cls: Class)
    | Struct(size: nat, alignment: Alignment, first: Class, second: Class)

  /** A register by its place among the registers for parameters. */
  datatype Reg = WordReg(index: nat) | FloatReg(index: nat)

  /** How a parameter is passed.  `Unassigned` is left for classes that the code does not handle. */
  datatype Param = Unassigned | InRegs(regs: seq<Reg>) | OnStack(offset: nat, pad: nat)

  /** `jit_param_passing_t`. */
  datatype Passing = Passing(stackSize: nat, wordIndex: nat, floatIndex: nat, maxWords: nat, maxFloats: nat)

  /** A number of bytes rounded up to whole stack slots. */
  function RoundStack(n: nat): (r: nat)
    ensures n <= r < n + 8 && r % 8 == 0
  {
    (n + 7) / 8 * 8
  }

  /** The alignment of a slot: not less than 8. */
  function SlotAlignment(t: Type): (a: nat)
    ensures a > 0
  {
    RoundStack(t.alignment)
  }

  /** `_jit_alloc_param_slot`: the padding is the misalignment, not what is missing to the next multiple. */
  function OnSlot(t: Type, p: Passing): (Param, Passing) {
    var padding := p.stackSize % SlotAlignment(t);
    var offset := p.stackSize + padding;
    (OnStack(offset, padding / 8), p.(stackSize := offset + RoundStack(t.size)))
  }

  function OneWord(t: Type, p: Passing): (Param, Passing) {
    if p.wordIndex < p.maxWords then (InRegs([WordReg(p.wordIndex)]), p.(wordIndex := p.wordIndex + 1))
    else OnSlot(t, p)
  }

  function OneFloat(t: Type, p: Passing): (Param, Passing) {
    if p.floatIndex < p.maxFloats then (InRegs([FloatReg(p.floatIndex)]), p.(floatIndex := p.floatIndex + 1))
    else OnSlot(t, p)
  }

  function Else(c: Class): Class { if c == NO_CLASS then SSE else c }

  /** `_jit_classify_struct`. */
  function PlaceStruct(t: Type, p: Passing): (Param, Passing)
    requires t.Struct?
  {
    var c1, c2 := Else(t.first), Else(t.second);
    if t.size <= 8 then
      if c1 == INTEGER then OneWord(t, p) else if c1 == SSE then OneFloat(t, p) else OnSlot(t, p)
    else if t.size <= 16 then
      if c1 == SSE && c2 == SSE then OneFloat(t, p)
      else if c1 == MEMORY || c2 == MEMORY then OnSlot(t, p)
      else if c1 == INTEGER && c2 == INTEGER then
        if p.wordIndex + 1 < p.maxWords then
          (InRegs([WordReg(p.wordIndex), WordReg(p.wordIndex + 1)]), p.(wordIndex := p.wordIndex + 2))
        else OnSlot(t, p)
      else if p.wordIndex < p.maxWords && p.floatIndex < p.maxFloats then
        var w, f := WordReg(p.wordIndex), FloatReg(p.floatIndex);
        (InRegs(if c1 == INTEGER then [w, f] else [f, w]),
          p.(wordIndex := p.wordIndex + 1, floatIndex := p.floatIndex + 1))
      else OnSlot(t, p)
    else OnSlot(t, p)
  }

  /** `_jit_classify_param`. */
  function Place(t: Type, p: Passing): (Param, Passing) {
    match t
    case Struct(_, _, _, _) => PlaceStruct(t, p)
    case Scalar(_, _, INTEGER) => OneWord(t, p)
    case Scalar(_, _, SSE) => OneFloat(t, p)
    case Scalar(_, _, MEMORY) => OnSlot(t, p)
    case _ => (Unassigned, p)
  }

  /** All parameters in order. */
  function PlaceAll(ts: seq<Type>, p: Passing): (r: (seq<Param>, Passing))
    ensures |r.0| == |ts|
  {
    if ts == [] then ([], p)
    else
      var before := PlaceAll(ts[..|ts| - 1], p);
      var last := Place(ts[|ts| - 1], before.1);
      (before.0 + [last.0], last.1)
  }

  // ---- Registers ----

  function Regs(params: seq<Param>): seq<Reg> {
    if params == [] then [] else
      var last := params[|params| - 1];
      Regs(params[..|params| - 1]) + if last.InRegs? then last.regs else []
  }

  /** Some registers are the ones from `words` and `floats` on, up to `words'` and `floats'`, and each of them once. */
  ghost predicate Covers(regs: seq<Reg>, words: nat, floats: nat, words': nat, floats': nat) {
    && words <= words' && floats <= floats'
    && (forall i, j :: 0 <= i < j < |regs| ==> regs[i] != regs[j])
    && forall r :: r in regs <==> if r.WordReg? then words <= r.index < words' else floats <= r.index < floats'
  }

  function OfKind(r: Reg, word: bool): seq<nat> { if r.WordReg? == word then [r.index] else [] }

  /** The registers of one kind, in the order in which they are given out. */
  function Kind(regs: seq<Reg>, word: bool): seq<nat> {
    if regs == [] then [] else OfKind(regs[0], word) + Kind(regs[1..], word)
  }

  predicate Counts(s: seq<nat>, from: nat, to: nat) {
    from <= to && |s| == to - from && forall i :: 0 <= i < |s| ==> s[i] == from + i
  }

  /** Registers of each kind are given out one after the other. */
  predicate InTurn(regs: seq<Reg>, words: nat, floats: nat, words': nat, floats': nat) {
    Counts(Kind(regs, true), words, words') && Counts(Kind(regs, false), floats, floats')
  }

  lemma KindTwo(a: Reg, b: Reg)
    ensures Kind([], true) == [] && Kind([], false) == []
    ensures Kind([a], a.WordReg?) == [a.index] && Kind([a], a.FloatReg?) == []
    ensures Kind([a, b], true) == Kind([a], true) + Kind([b], true)
    ensures Kind([a, b], false) == Kind([a], false) + Kind([b], false)
  {
    assert [a][1..] == [] && [b][1..] == [] && [a, b][1..] == [b];
  }

  lemma {:induction false} KindConcat(a: seq<Reg>, b: seq<Reg>, word: bool)
    ensures Kind(a + b, word) == Kind(a, word) + Kind(b, word)
  {
    hide OfKind;
    if a == [] {
      assert a + b == b;
    } else {
      KindConcat(a[1..], b, word);
      assert (a + b)[1..] == a[1..] + b;
      Regroup(OfKind(a[0], word), Kind(a[1..], word), Kind(b, word));
    }
  }

  lemma PlaceCovers(t: Type, p: Passing)
    requires p.wordIndex <= p.maxWords && p.floatIndex <= p.maxFloats
    ensures var r := Place(t, p);
      && Covers(if r.0.InRegs? then r.0.regs else [], p.wordIndex, p.floatIndex, r.1.wordIndex, r.1.floatIndex)
      && r.1.wordIndex <= r.1.maxWords == p.maxWords && r.1.floatIndex <= r.1.maxFloats == p.maxFloats
  {
  }

  lemma PlaceInTurn(t: Type, p: Passing)
    ensures var r := Place(t, p);
      InTurn(if r.0.InRegs? then r.0.regs else [], p.wordIndex, p.floatIndex, r.1.wordIndex, r.1.floatIndex)
  {
    var w, f := WordReg(p.wordIndex), FloatReg(p.floatIndex);
    hide OnSlot, Kind;
    KindTwo(w, WordReg(p.wordIndex + 1));
    KindTwo(w, f);
    KindTwo(f, w);
    KindTwo(WordReg(p.wordIndex + 1), f);
    SlotOnly(t, p);
  }

  lemma SlotOnly(t: Type, p: Passing)
    ensures var r := OnSlot(t, p); r.0.OnStack? && r.1.wordIndex == p.wordIndex && r.1.floatIndex == p.floatIndex
  {
  }

  lemma CoversConcat(a: seq<Reg>, b: seq<Reg>, w0: nat, f0: nat, w1: nat, f1: nat, w2: nat, f2: nat)
    requires Covers(a, w0, f0, w1, f1) && Covers(b, w1, f1, w2, f2)
    ensures Covers(a + b, w0, f0, w2, f2)
  {
    forall i, j | 0 <= i < |a| && 0 <= j < |b| ensures a[i] != b[j] { assert a[i] in a && b[j] in b; }
    forall r ensures r in a + b <==> if r.WordReg? then w0 <= r.index < w2 else f0 <= r.index < f2 {
      assert r in a + b <==> r in a || r in b;
    }
  }

  /** For every list of parameters, each register is given out at most once, in order and without gaps. */
  lemma {:induction false} RegistersOnce(ts: seq<Type>, p: Passing)
    requires p.wordIndex == 0 && p.floatIndex == 0
    ensures var r := PlaceAll(ts, p);
      && Covers(Regs(r.0), 0, 0, r.1.wordIndex, r.1.floatIndex)
      && InTurn(Regs(r.0), 0, 0, r.1.wordIndex, r.1.floatIndex)
      && r.1.wordIndex <= r.1.maxWords == p.maxWords && r.1.floatIndex <= r.1.maxFloats == p.maxFloats
  {
    if ts != [] {
      RegistersOnce(ts[..|ts| - 1], p);
      var before := PlaceAll(ts[..|ts| - 1], p);
      PlaceCovers(ts[|ts| - 1], before.1);
      PlaceInTurn(ts[|ts| - 1], before.1);
      var last := Place(ts[|ts| - 1], before.1);
      var regs := if last.0.InRegs? then last.0.regs else [];
      CoversConcat(Regs(before.0), regs, 0, 0, before.1.wordIndex, before.1.floatIndex, last.1.wordIndex,
        last.1.floatIndex);
      KindConcat(Regs(before.0), regs, true);
      KindConcat(Regs(before.0), regs, false);
      assert PlaceAll(ts, p).0[..|ts| - 1] == before.0;
    }
  }

  /** The classes of the eightbytes of a parameter, as section 3.2.3 of the System V AMD64 ABI counts them. */
  function Eightbytes(t: Type): seq<Class> {
    match t
    case Scalar(_, _, cls) => [cls]
    case Struct(size, _, first, second) =>
      if size <= 8 then [first] else if size <= 16 then [first, second] else [MEMORY]
  }

  /** The registers that the ABI wants for them: a word register for each INTEGER eightbyte, a vector register for each
      SSE eightbyte (there is no class SSEUP here), in their order. */
  function Wanted(classes: seq<Class>): seq<Class> {
    if classes == [] then []
    else (if classes[0] == INTEGER || classes[0] == SSE then [classes[0]] else []) + Wanted(classes[1..])
  }

  function Count(classes: seq<Class>, c: Class): nat {
    if classes == [] then 0 else (if classes[0] == c then 1 else 0) + Count(classes[1..], c)
  }

  predicate Fits(classes: seq<Class>, p: Passing) {
    p.wordIndex + Count(classes, INTEGER) <= p.maxWords && p.floatIndex + Count(classes, SSE) <= p.maxFloats
  }

  /** Each eightbyte has the next register of its kind. */
  predicate NextRegs(regs: seq<Reg>, classes: seq<Class>, p: Passing) {
    |regs| == |classes| && forall i :: 0 <= i < |regs| ==>
      regs[i] == if classes[i] == INTEGER then WordReg(p.wordIndex + Count(classes[..i], INTEGER))
                 else FloatReg(p.floatIndex + Count(classes[..i], SSE))
  }

  /** A parameter gets all the registers that the ABI wants, if as many are left, and none otherwise. */
  predicate ByTheBook(t: Type, p: Passing) {
    var classes, r := Eightbytes(t), Place(t, p);
    if MEMORY !in classes && Wanted(classes) == [] then r == (Unassigned, p)
    else if MEMORY !in classes && Fits(classes, p) then
      r.0.InRegs? && NextRegs(r.0.regs, Wanted(classes), p) && r.1.stackSize == p.stackSize
    else r.0.OnStack? && r.1.wordIndex == p.wordIndex && r.1.floatIndex == p.floatIndex
  }

  /** Where the code departs from the ABI: two SSE eightbytes share one register, and eightbytes of padding alone are
      passed as if they were of class SSE. */
  predicate Departs(t: Type, p: Passing) {
    && t.Struct?
    && if t.size <= 8 then t.first == NO_CLASS
       else
         && t.size <= 16
         && if t.first == SSE && t.second == SSE then p.floatIndex < p.maxFloats
            else if t.first == NO_CLASS then t.second == NO_CLASS || (t.second == INTEGER && p.wordIndex < p.maxWords)
            else t.second == NO_CLASS && t.first == INTEGER && p.wordIndex < p.maxWords
  }

  lemma CountOne(c: Class)
    ensures Wanted([c]) == if c == INTEGER || c == SSE then [c] else []
    ensures forall e :: Count([c], e) == if c == e then 1 else 0
  {
    assert [c][1..] == [] && Wanted([]) == [];
    forall e ensures Count([c], e) == if c == e then 1 else 0 { assert Count([], e) == 0; }
  }

  lemma CountTwo(c: Class, d: Class)
    ensures Wanted([c, d]) == Wanted([c]) + Wanted([d])
    ensures forall e :: Count([c, d], e) == Count([c], e) + Count([d], e)
  {
    CountOne(c);
    CountOne(d);
    assert [c, d][1..] == [d];
  }

  /** The exact condition, for every parameter at every point of a parameter list. */
  lemma AllOrNone(t: Type, p: Passing)
    requires p.wordIndex <= p.maxWords && p.floatIndex <= p.maxFloats
    ensures ByTheBook(t, p) <==> !Departs(t, p)
  {
    hide OnSlot;
    SlotOnly(t, p);
    match t
    case Scalar(_, _, cls) => CountOne(cls);
    case Struct(size, _, first, second) =>
      if size > 16 {
        assert MEMORY in Eightbytes(t);
      } else if size > 8 {
        TwoEightbytes(t, p);
      } else {
        CountOne(first);
      }
  }

  lemma TwoEightbytes(t: Type, p: Passing)
    requires p.wordIndex <= p.maxWords && p.floatIndex <= p.maxFloats && t.Struct? && 8 < t.size <= 16
    ensures ByTheBook(t, p) <==> !Departs(t, p)
  {
    hide OnSlot;
    SlotOnly(t, p);
    CountOne(t.first);
    CountOne(t.second);
    CountTwo(t.first, t.second);
    assert MEMORY in Eightbytes(t) <==> t.first == MEMORY || t.second == MEMORY;
  }

  /** `{double, double}` as the first parameter gets one register, and the ABI wants two. */
  lemma TwoDoubles()
    ensures var t, p := Struct(16, 8, SSE, SSE), Passing(0, 0, 0, 6, 8);
      PlaceAll([t], p).0 == [InRegs([FloatReg(0)])] && Wanted(Eightbytes(t)) == [SSE, SSE] && !ByTheBook(t, p)
  {
    var t, p := Struct(16, 8, SSE, SSE), Passing(0, 0, 0, 6, 8);
    CountOne(SSE);
    CountTwo(SSE, SSE);
    AllOrNone(t, p);
    assert [t][..0] == [] && PlaceAll([], p) == ([], p);
  }

  // ---- The stack ----

  /** The slot that a parameter has on the stack. */
  predicate Slots(ts: seq<Type>, params: seq<Param>, stackSize: nat)
    requires |ts| == |params|
  {
    && (forall k :: 0 <= k < |ts| && params[k].OnStack? ==> params[k].offset + ts[k].size <= stackSize)
    && forall i, k :: 0 <= i < k < |ts| && params[i].OnStack? && params[k].OnStack? ==>
      params[i].offset + ts[i].size <= params[k].offset
  }

  lemma SlotAbove(t: Type, p: Passing)
    ensures var r := Place(t, p); r.1.stackSize >= p.stackSize
    ensures var r := Place(t, p); r.0.OnStack? ==> r.0.offset >= p.stackSize && r.0.offset + t.size <= r.1.stackSize
  {
  }

  /** Slots do not overlap and lie within the argument area, whatever the alignments. */
  lemma {:induction false} SlotsApart(ts: seq<Type>, p: Passing)
    ensures Slots(ts, PlaceAll(ts, p).0, PlaceAll(ts, p).1.stackSize)
    ensures PlaceAll(ts, p).1.stackSize >= p.stackSize
  {
    if ts != [] {
      var before := PlaceAll(ts[..|ts| - 1], p);
      SlotsApart(ts[..|ts| - 1], p);
      SlotAbove(ts[|ts| - 1], before.1);
      hide Place;
    }
  }

  /** The slot is aligned if and only if twice the misalignment is a multiple of the alignment. */
  lemma AlignedIff(t: Type, p: Passing)
    ensures var a := SlotAlignment(t); OnSlot(t, p).0.offset % a == 0 <==> (2 * (p.stackSize % a)) % a == 0
  {
    var a, s := SlotAlignment(t), p.stackSize;
    Double(s, a);
  }

  lemma Double(s: nat, a: nat)
    requires a > 0
    ensures (s + s % a) % a == (2 * (s % a)) % a
  {
    var q, m := s / a, s % a;
    assert s == a * q + m;
    if 2 * m < a {
      DivMod(s + m, a, q, 2 * m);
      DivMod(2 * m, a, 0, 2 * m);
    } else {
      assert s + m == a * (q + 1) + (2 * m - a);
      DivMod(s + m, a, q + 1, 2 * m - a);
      DivMod(2 * m, a, 1, 2 * m - a);
    }
  }

  /** With alignments up to 16 every slot is aligned. */
  predicate Modest(t: Type) { t.alignment in {1, 2, 4, 8, 16} }

  /** The first multiple of `a` from `from` on. */
  predicate NextMultiple(n: nat, from: nat, a: nat)
    requires a > 0
  {
    from <= n < from + a && n % a == 0
  }

  /** A parameter on the stack has the next aligned place there is, and no more than its size in whole slots; any other
      has nothing of the stack. */
  predicate Packed(t: Type, r: Param, before: nat, after: nat) {
    if r.OnStack? then
      && NextMultiple(r.offset, before, SlotAlignment(t)) && r.offset == before + 8 * r.pad
      && after >= r.offset && NextMultiple(after - r.offset, t.size, 8)
    else after == before
  }

  predicate PackedAt(ts: seq<Type>, p: Passing, k: nat)
    requires k < |ts|
  {
    Packed(ts[k], PlaceAll(ts, p).0[k], PlaceAll(ts[..k], p).1.stackSize, PlaceAll(ts[..k + 1], p).1.stackSize)
  }

  lemma PackedLonger(ts: seq<Type>, t: Type, p: Passing, k: nat)
    requires k < |ts| && PackedAt(ts, p, k)
    ensures PackedAt(ts + [t], p, k)
  {
    hide Packed, Place;
    var all := ts + [t];
    assert all[..|all| - 1] == ts && ts[..k] == all[..k] && ts[..k + 1] == all[..k + 1];
  }

  /** For every list of such parameters. */
  lemma {:induction false} SlotsAligned(ts: seq<Type>, p: Passing)
    requires p.stackSize % 8 == 0 && forall k :: 0 <= k < |ts| ==> Modest(ts[k])
    ensures PlaceAll(ts, p).1.stackSize % 8 == 0
    ensures forall k :: 0 <= k < |ts| ==> PackedAt(ts, p, k)
  {
    if ts != [] {
      var first, t := ts[..|ts| - 1], ts[|ts| - 1];
      SlotsAligned(first, p);
      SlotPacked(t, PlaceAll(first, p).1);
      assert PackedAt(ts, p, |ts| - 1) by { assert ts[..|ts|] == ts; }
      hide PackedAt;
      forall k | 0 <= k < |first| ensures PackedAt(ts, p, k) {
        PackedLonger(first, t, p, k);
        assert first + [t] == ts;
      }
    }
  }

  lemma SlotPacked(t: Type, p: Passing)
    requires p.stackSize % 8 == 0 && Modest(t)
    ensures var r := Place(t, p); r.1.stackSize % 8 == 0 && Packed(t, r.0, p.stackSize, r.1.stackSize)
  {
    hide Place, OnSlot;
    SlotOrRegisters(t, p);
    EightOnSlot(t, p);
    AlignedIff(t, p);
    assert SlotAlignment(t) == 8 || SlotAlignment(t) == 16;
    TwiceEight(p.stackSize, SlotAlignment(t));
    SlotSize(t, p);
  }

  lemma SlotSize(t: Type, p: Passing)
    requires p.stackSize % 8 == 0 && SlotAlignment(t) in {8, 16}
    ensures var r := OnSlot(t, p);
      && r.0.OnStack? && p.stackSize <= r.0.offset < p.stackSize + SlotAlignment(t)
      && r.0.offset == p.stackSize + 8 * r.0.pad && r.1.stackSize == r.0.offset + RoundStack(t.size)
  {
    EightSum(p.stackSize, SlotAlignment(t), 0);
  }

  lemma TwiceEight(s: nat, a: nat)
    requires (a == 8 || a == 16) && s % 8 == 0
    ensures (2 * (s % a)) % a == 0
  {
  }

  lemma SlotOrRegisters(t: Type, p: Passing)
    ensures var r := Place(t, p); r == OnSlot(t, p) || (!r.0.OnStack? && r.1.stackSize == p.stackSize)
  {
  }

  lemma EightOnSlot(t: Type, p: Passing)
    requires p.stackSize % 8 == 0 && Modest(t)
    ensures OnSlot(t, p).1.stackSize % 8 == 0
  {
    assert SlotAlignment(t) == 8 || SlotAlignment(t) == 16;
    EightSum(p.stackSize, 8, RoundStack(t.size));
    EightSum(p.stackSize, 16, RoundStack(t.size));
  }

  lemma EightSum(s: nat, a: nat, rounded: nat)
    requires (a == 8 || a == 16) && s % 8 == 0 && rounded % 8 == 0
    ensures (s + s % a + rounded) % 8 == 0
  {
    assert s % 16 == 0 || s % 16 == 8;
  }

  /** After a structure of 24 bytes a parameter with an alignment of 32 is misplaced. */
  lemma MisalignedAt32()
    ensures var t, u := Struct(24, 8, INTEGER, INTEGER), Struct(32, 32, MEMORY, MEMORY);
      PlaceAll([t, u], Passing(0, 0, 0, 6, 8)).0 == [OnStack(0, 0), OnStack(48, 3)]
  {
    var t, u, p := Struct(24, 8, INTEGER, INTEGER), Struct(32, 32, MEMORY, MEMORY), Passing(0, 0, 0, 6, 8);
    assert [t, u][..1] == [t] && [t][..0] == [] && PlaceAll([], p) == ([], p);
    assert Place(t, p) == (OnStack(0, 0), p.(stackSize := 24));
    assert PlaceAll([t], p) == ([] + [OnStack(0, 0)], p.(stackSize := 24));
    assert Place(u, p.(stackSize := 24)).0 == OnStack(48, 3);
  }

  // ---- The code ----

  /** `jit_param_passing_t`, as it changes. */
  class ParamPassing {
    var stackSize: nat
    var wordIndex: nat
    var floatIndex: nat
    const maxWordRegs: nat
    const maxFloatRegs: nat

    constructor (maxWordRegs: nat, maxFloatRegs: nat)
      ensures Now() == Passing(0, 0, 0, maxWordRegs, maxFloatRegs)
    {
      this.maxWordRegs, this.maxFloatRegs := maxWordRegs, maxFloatRegs;
      stackSize, wordIndex, floatIndex := 0, 0, 0;
    }

    function Now(): Passing
      reads this
    {
      Passing(stackSize, wordIndex, floatIndex, maxWordRegs, maxFloatRegs)
    }

    method AllocParamSlot(t: Type) returns (param: Param)
      modifies this`stackSize
      ensures (param, Now()) == OnSlot(t, old(Now()))
    {
      var size := RoundStack(t.size);
      var alignment := SlotAlignment(t);
      var pad := 0;
      if stackSize % alignment != 0 {
        var padding := stackSize % alignment;
        stackSize := stackSize + padding;
        pad := padding / 8;
      }
      param := OnStack(stackSize, pad);
      stackSize := stackSize + size;
    }

    method TakeWord(t: Type) returns (param: Param)
      modifies this
      ensures (param, Now()) == OneWord(t, old(Now()))
    {
      if wordIndex < maxWordRegs {
        param := InRegs([WordReg(wordIndex)]);
        wordIndex := wordIndex + 1;
      } else {
        param := AllocParamSlot(t);
      }
    }

    method TakeFloat(t: Type) returns (param: Param)
      modifies this
      ensures (param, Now()) == OneFloat(t, old(Now()))
    {
      if floatIndex < maxFloatRegs {
        param := InRegs([FloatReg(floatIndex)]);
        floatIndex := floatIndex + 1;
      } else {
        param := AllocParamSlot(t);
      }
    }

    method ClassifyStruct(t: Type) returns (param: Param)
      requires t.Struct?
      modifies this
      ensures (param, Now()) == PlaceStruct(t, old(Now()))
    {
      var class1 := Else(t.first);
      if t.size <= 8 {
        if class1 == INTEGER {
          param := TakeWord(t);
        } else if class1 == SSE {
          param := TakeFloat(t);
        } else {
          param := AllocParamSlot(t);
        }
      } else if t.size <= 16 {
        var class2 := Else(t.second);
        if class1 == SSE && class2 == SSE {
          param := TakeFloat(t);
        } else if class1 == MEMORY || class2 == MEMORY {
          param := AllocParamSlot(t);
        } else if class1 == INTEGER && class2 == INTEGER {
          if wordIndex + 1 < maxWordRegs {
            param := InRegs([WordReg(wordIndex), WordReg(wordIndex + 1)]);
            wordIndex := wordIndex + 2;
          } else {
            param := AllocParamSlot(t);
          }
        } else if wordIndex < maxWordRegs && floatIndex < maxFloatRegs {
          if class1 == INTEGER {
            param := InRegs([WordReg(wordIndex), FloatReg(floatIndex)]);
          } else {
            param := InRegs([FloatReg(floatIndex), WordReg(wordIndex)]);
          }
          wordIndex := wordIndex + 1;
          floatIndex := floatIndex + 1;
        } else {
          param := AllocParamSlot(t);
        }
      } else {
        param := AllocParamSlot(t);
      }
    }

    method ClassifyParam(t: Type) returns (param: Param)
      modifies this
      ensures (param, Now()) == Place(t, old(Now()))
    {
      param := Unassigned;
      if t.Struct? {
        param := ClassifyStruct(t);
      } else if t.cls == INTEGER {
        param := TakeWord(t);
      } else if t.cls == SSE {
        param := TakeFloat(t);
      } else if t.cls == MEMORY {
        param := AllocParamSlot(t);
      }
    }

    /** All parameters of a call, in order. */
    method ClassifyAll(ts: seq<Type>) returns (params: seq<Param>)
      modifies this
      ensures (params, Now()) == PlaceAll(ts, old(Now()))
    {
      hide Place;
      params := [];
      for k := 0 to |ts|
        invariant (params, Now()) == PlaceAll(ts[..k], old(Now()))
      {
        assert ts[..k + 1][..k] == ts[..k];
        var param := ClassifyParam(ts[k]);
        params := params + [param];
      }
      assert ts[..|ts|] == ts;
    }
  }
}
