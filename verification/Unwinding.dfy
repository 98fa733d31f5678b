/** Exceptions by setjmp and longjmp (jit/jit-except.c, `jit_function_apply_vararg` in jit/jit-function.c, and the code
    that `initialize_setjmp_block` in jit/jit-insn.c puts in front of functions with a "try"). */
module Unwinding {
  /** What a thread does while it runs, as a tree of calls.  `Apply` gets the entry point of a function, which may
      throw, and runs the function.  `Try` is a call of a function with a "try": `NoCatcher` when no catch block covers
      the place of the exception. */
  datatype Op =
    | BacktracePush(pc: int)
    | BacktracePop
    | Throw(value: int)
    | Apply(entry: seq<Op>, body: seq<Op>)
    | Try(body: seq<Op>, catcher: Catcher)

  datatype Catcher = NoCatcher | Catch(code: seq<Op>)

  /** `jit_backtrace` and `jit_jmp_buf` records, linked by `parent`.  `id` names the call that the buffer returns to. */
  datatype Traces = NoTrace | Trace(pc: int, parent: Traces)
  datatype Jumps = NoJump | Jump(id: nat, trace: Traces, parent: Jumps)

  /** The thread control block, and the number of setjmp calls so far. */
  datatype State = State(setjmpHead: Jumps, backtraceHead: Traces, lastException: int, calls: nat)

  /** Control comes out at the end, or is transferred to the call with the given number. */
  datatype Outcome = Normal | LongJmp(id: nat)

  /** `_jit_unwind_push_setjmp`, `_jit_unwind_pop_setjmp` and `_jit_unwind_pop_and_rethrow`. */
  function Pushed(s: State): State {
    s.(setjmpHead := Jump(s.calls, s.backtraceHead, s.setjmpHead), calls := s.calls + 1)
  }

  function Popped(s: State): State {
    if s.setjmpHead == NoJump then s else s.(backtraceHead := s.setjmpHead.trace, setjmpHead := s.setjmpHead.parent)
  }

  /** `jit_exception_throw`: it returns if there is nobody to catch. */
  function Thrown(s: State, value: int): (State, Outcome) {
    if s.setjmpHead == NoJump then (s.(lastException := value), Normal)
    else (s.(lastException := value, backtraceHead := s.setjmpHead.trace), LongJmp(s.setjmpHead.id))
  }

  function Rethrown(s: State): (State, Outcome) { Thrown(Popped(s), s.lastException) }

  /** Run a list of operations up to its end or to the first jump out of it. */
  function Run(ops: seq<Op>, s: State): (State, Outcome)
    decreases ops, 1
  {
    if ops == [] then (s, Normal)
    else
      var r := Perform(ops[0], s);
      if r.1 == Normal then Run(ops[1..], r.0) else r
  }

  function Perform(op: Op, s: State): (State, Outcome)
    decreases op, 1
  {
    match op
    case BacktracePush(pc) => (s.(backtraceHead := Trace(pc, s.backtraceHead)), Normal)
    case BacktracePop => (if s.backtraceHead == NoTrace then s else s.(backtraceHead := s.backtraceHead.parent), Normal)
    case Throw(value) => Thrown(s, value)
    case Apply(_, _) => var r := Applied(op, s); (r.0, r.1)
    case Try(body, catcher) =>
      var id := s.calls;
      var r := Run(body, Pushed(s));
      if r.1 == Normal then (Popped(r.0), Normal)
      else if r.1 != LongJmp(id) then r
      else if catcher == NoCatcher then Rethrown(r.0)
      else
        var q := Run(catcher.code, r.0);
        if q.1 == Normal then (Popped(q.0), Normal) else if q.1 == LongJmp(id) then Rethrown(q.0) else q
  }

  /** `jit_function_apply_vararg`, and what it returns. */
  function Applied(op: Op, s: State): (State, Outcome, bool)
    requires op.Apply?
    decreases op, 0
  {
    var id := s.calls;
    var pushed := Pushed(s);
    var traced := pushed.(backtraceHead := Trace(0, pushed.backtraceHead));
    var e := Run(op.entry, traced);
    var r := if e.1 == Normal then Run(op.body, e.0.(lastException := 0)) else e;
    if r.1 == Normal then (Popped(r.0), Normal, true)
    else if r.1 == LongJmp(id) then (Popped(r.0), Normal, false)
    else (r.0, r.1, false)
  }

  // ---- What exceptions mean ----

  datatype Raised = Nothing | Exception(value: int)

  /** The exception that leaves the operations, if any: the meaning of exceptions without any jumps. */
  function Raises(ops: seq<Op>): Raised
    decreases ops, 1
  {
    if ops == [] then Nothing
    else
      var r := RaisesOne(ops[0]);
      if r == Nothing then Raises(ops[1..]) else r
  }

  function RaisesOne(op: Op): Raised
    decreases op, 0
  {
    match op
    case Throw(value) => Exception(value)
    case Try(body, catcher) =>
      var r := Raises(body);
      if r == Nothing || catcher == NoCatcher then r else Raises(catcher.code)
    case _ => Nothing
  }

  /** The last exception recorded after the operations, if it was `last` before: again without any jumps. */
  function LastOf(ops: seq<Op>, last: int): int
    decreases ops, 1
  {
    if ops == [] then last
    else
      var l := LastOfOne(ops[0], last);
      if RaisesOne(ops[0]) == Nothing then LastOf(ops[1..], l) else l
  }

  function LastOfOne(op: Op, last: int): int
    decreases op, 0
  {
    match op
    case Throw(value) => value
    case Apply(entry, body) => if Raises(entry) == Nothing then LastOf(body, 0) else LastOf(entry, last)
    case Try(body, catcher) =>
      var l := LastOf(body, last);
      if Raises(body) == Nothing || catcher == NoCatcher then l else LastOf(catcher.code, l)
    case _ => last
  }

  /** The exceptions that are thrown anywhere in the operations. */
  function Throws(ops: seq<Op>): set<int>
    decreases ops, 1
  {
    if ops == [] then {} else ThrowsOne(ops[0]) + Throws(ops[1..])
  }

  function ThrowsOne(op: Op): set<int>
    decreases op, 0
  {
    match op
    case Throw(value) => {value}
    case Apply(entry, body) => Throws(entry) + Throws(body)
    case Try(body, catcher) => Throws(body) + if catcher == NoCatcher then {} else Throws(catcher.code)
    case _ => {}
  }

  /** It is cleared, or thrown there, or the one before. */
  lemma {:induction false} LastFrom(ops: seq<Op>, last: int)
    ensures LastOf(ops, last) in Throws(ops) + {0, last}
    ensures Raises(ops).Exception? ==> Raises(ops).value == LastOf(ops, last) && LastOf(ops, last) in Throws(ops)
    decreases ops, 1
  {
    if ops != [] {
      LastFromOne(ops[0], last);
      LastFrom(ops[1..], LastOfOne(ops[0], last));
    }
  }

  lemma {:induction false} LastFromOne(op: Op, last: int)
    ensures LastOfOne(op, last) in ThrowsOne(op) + {0, last}
    ensures RaisesOne(op).Exception? ==>
      RaisesOne(op).value == LastOfOne(op, last) && LastOfOne(op, last) in ThrowsOne(op)
    decreases op, 0
  {
    match op
    case Apply(entry, body) =>
      LastFrom(entry, last);
      LastFrom(body, 0);
    case Try(body, catcher) =>
      LastFrom(body, last);
      if catcher != NoCatcher { LastFrom(catcher.code, LastOf(body, last)); }
    case _ =>
  }

  /** What running operations below a pending setjmp does to the heads. */
  ghost predicate Unwound(s: State, s': State, out: Outcome, raised: Raised, last: int) {
    && s'.setjmpHead == s.setjmpHead && s'.calls >= s.calls && s'.lastException == last
    && (out == Normal <==> raised == Nothing)
    && (raised.Exception? ==>
      s.setjmpHead.Jump? && out == LongJmp(s.setjmpHead.id) && s'.backtraceHead == s.setjmpHead.trace
      && last == raised.value)
  }

  /** Buffers on the list are numbered downwards. */
  predicate Numbered(j: Jumps, calls: nat) { j.Jump? ==> j.id < calls && Numbered(j.parent, j.id) }

  lemma {:induction false} NumberedMore(j: Jumps, a: nat, b: nat)
    requires Numbered(j, a) && a <= b
    ensures Numbered(j, b)
  {
  }

  /** Every throw reaches the innermost pending setjmp, and does there what an exception should do: the jumps
      implement structured exceptions. */
  lemma {:induction false} RunUnwinds(ops: seq<Op>, s: State)
    requires s.setjmpHead.Jump? && Numbered(s.setjmpHead, s.calls)
    ensures Unwound(s, Run(ops, s).0, Run(ops, s).1, Raises(ops), LastOf(ops, s.lastException))
      && Numbered(s.setjmpHead, Run(ops, s).0.calls)
    decreases ops, 1
  {
    if ops != [] {
      PerformUnwinds(ops[0], s);
      var r := Perform(ops[0], s);
      if r.1 == Normal { RunUnwinds(ops[1..], r.0); }
    }
  }

  lemma {:induction false} PerformUnwinds(op: Op, s: State)
    requires s.setjmpHead.Jump? && Numbered(s.setjmpHead, s.calls)
    ensures Unwound(s, Perform(op, s).0, Perform(op, s).1, RaisesOne(op), LastOfOne(op, s.lastException))
      && Numbered(s.setjmpHead, Perform(op, s).0.calls)
    decreases op, 1
  {
    if op.Apply? {
      AppliedUnwinds(op, s);
    } else if op.Try? {
      TryUnwinds(op, s);
    }
  }

  lemma TryUnwinds(op: Op, s: State)
    requires op.Try? && s.setjmpHead.Jump? && Numbered(s.setjmpHead, s.calls)
    ensures Unwound(s, Perform(op, s).0, Perform(op, s).1, RaisesOne(op), LastOfOne(op, s.lastException))
      && Numbered(s.setjmpHead, Perform(op, s).0.calls)
    decreases op, 0
  {
    RunUnwinds(op.body, Pushed(s));
    var r := Run(op.body, Pushed(s));
    NumberedMore(s.setjmpHead, s.calls, r.0.calls);
    if r.1 != Normal && op.catcher != NoCatcher {
      NumberedMore(s.setjmpHead, s.calls, r.0.calls);
      RunUnwinds(op.catcher.code, r.0);
      NumberedMore(s.setjmpHead, s.calls, Run(op.catcher.code, r.0).0.calls);
    }
  }

  /** `jit_function_apply_vararg` returns with both heads as they were, for every tree of calls, and returns 0 if and
      only if an exception leaves the function or its entry point cannot be had.  That is the last exception then;
      otherwise it is 0 or one that was thrown, and caught, in the function. */
  lemma {:induction false} AppliedUnwinds(op: Op, s: State)
    requires op.Apply? && Numbered(s.setjmpHead, s.calls)
    ensures var r := Applied(op, s);
      && r.1 == Normal && r.0.setjmpHead == s.setjmpHead && r.0.backtraceHead == s.backtraceHead && r.0.calls >= s.calls
      && (r.2 <==> Raises(op.entry) == Nothing && Raises(op.body) == Nothing)
      && (Raises(op.entry).Exception? ==> r.0.lastException == Raises(op.entry).value)
      && (Raises(op.entry).Nothing? && Raises(op.body).Exception? ==> r.0.lastException == Raises(op.body).value)
      && (r.2 ==> r.0.lastException in Throws(op.body) + {0}) && r.0.lastException == LastOfOne(op, s.lastException)
      && Numbered(s.setjmpHead, r.0.calls)
    decreases op, 0
  {
    var pushed := Pushed(s);
    var traced := pushed.(backtraceHead := Trace(0, pushed.backtraceHead));
    RunUnwinds(op.entry, traced);
    var e := Run(op.entry, traced);
    if e.1 == Normal { RunUnwinds(op.body, e.0.(lastException := 0)); }
    LastFrom(op.body, 0);
    NumberedMore(s.setjmpHead, s.calls, Applied(op, s).0.calls);
  }

  // ---- The code ----

  /** `jit_thread_control`. */
  class Control {
    var setjmpHead: Jumps
    var backtraceHead: Traces
    var lastException: int
    var calls: nat

    constructor ()
      ensures Now() == State(NoJump, NoTrace, 0, 0)
    {
      setjmpHead, backtraceHead, lastException, calls := NoJump, NoTrace, 0, 0;
    }

    function Now(): State
      reads this
    {
      State(setjmpHead, backtraceHead, lastException, calls)
    }

    method UnwindPushSetjmp() returns (id: nat)
      modifies this
      ensures Now() == Pushed(old(Now())) && id == old(calls)
    {
      id := calls;
      setjmpHead := Jump(id, backtraceHead, setjmpHead);
      calls := calls + 1;
    }

    method UnwindPopSetjmp()
      modifies this
      ensures Now() == Popped(old(Now()))
    {
      if setjmpHead.Jump? {
        backtraceHead := setjmpHead.trace;
        setjmpHead := setjmpHead.parent;
      }
    }

    method ExceptionThrow(value: int) returns (out: Outcome)
      modifies this
      ensures (Now(), out) == Thrown(old(Now()), value)
    {
      lastException := value;
      if setjmpHead.Jump? {
        backtraceHead := setjmpHead.trace;
        return LongJmp(setjmpHead.id);
      }
      return Normal;
    }

    method UnwindPopAndRethrow() returns (out: Outcome)
      modifies this
      ensures (Now(), out) == Rethrown(old(Now()))
    {
      UnwindPopSetjmp();
      out := ExceptionThrow(lastException);
    }

    method BacktracePushed(pc: int)
      modifies this
      ensures (Now(), Normal) == Perform(BacktracePush(pc), old(Now()))
    {
      backtraceHead := Trace(pc, backtraceHead);
    }

    method BacktracePopped()
      modifies this
      ensures (Now(), Normal) == Perform(BacktracePop, old(Now()))
    {
      if backtraceHead.Trace? {
        backtraceHead := backtraceHead.parent;
      }
    }

    method Execute(ops: seq<Op>) returns (out: Outcome)
      modifies this
      ensures (Now(), out) == Run(ops, old(Now()))
      decreases ops, 1
    {
      if ops == [] {
        return Normal;
      }
      out := ExecuteOne(ops[0]);
      if out == Normal {
        out := Execute(ops[1..]);
      }
    }

    method ExecuteOne(op: Op) returns (out: Outcome)
      modifies this
      ensures (Now(), out) == Perform(op, old(Now()))
      decreases op, 1
    {
      match op
      case BacktracePush(pc) =>
        BacktracePushed(pc);
        return Normal;
      case BacktracePop =>
        BacktracePopped();
        return Normal;
      case Throw(value) =>
        out := ExceptionThrow(value);
      case Apply(entry, body) =>
        var result;
        out, result := ApplyVararg(entry, body);
      case Try(body, catcher) =>
        out := CallWithTry(body, catcher);
    }

    /** A function with a "try": the code of `initialize_setjmp_block`, and the pop before it returns. */
    method CallWithTry(body: seq<Op>, catcher: Catcher) returns (out: Outcome)
      modifies this
      ensures (Now(), out) == Perform(Try(body, catcher), old(Now()))
      decreases Try(body, catcher), 0
    {
      var id := UnwindPushSetjmp();
      out := Execute(body);
      if out == LongJmp(id) {
        if catcher == NoCatcher {
          out := UnwindPopAndRethrow();
          return;
        }
        out := Execute(catcher.code);
        if out == LongJmp(id) {
          out := UnwindPopAndRethrow();
          return;
        }
      }
      if out == Normal {
        UnwindPopSetjmp();
      }
    }

    /** `jit_function_apply_vararg`. */
    method ApplyVararg(entry: seq<Op>, body: seq<Op>) returns (out: Outcome, result: bool)
      modifies this
      ensures (Now(), out, result) == Applied(Apply(entry, body), old(Now()))
      decreases Apply(entry, body), 0
    {
      var id := UnwindPushSetjmp();
      BacktracePushed(0);
      out := Execute(entry);
      if out == Normal {
        lastException := 0;
        out := Execute(body);
      }
      if out == Normal {
        UnwindPopSetjmp();
        return Normal, true;
      }
      if out == LongJmp(id) {
        UnwindPopSetjmp();
        return Normal, false;
      }
      return out, false;
    }
  }
}
