/** Compiling a function when it is first called, by any number of threads (jit/jit-function.c, `jit_function_compile`,
    `_jit_function_compile_on_demand` and `jit_function_apply_vararg`).  Each step reads or writes shared data once. */
module OnDemand {
  /** What `entry_point` leads to: the redirector at first, then the code of the `n`th successful compilation. */
  datatype Entry = Redirector | Code(n: nat)

  datatype Result = OK | COMPILE_ERROR | OUT_OF_MEMORY | OTHER(code: int)

  /** What a call of `jit_function_compile` returns to. */
  datatype Return = ToCallback | ToDriver | ToClient

  datatype Pc =
    | Calling                       // `jit_function_apply_vararg`, before it looks at `is_compiled`
    | FastPath                      // it was set: read the entry point
    | Locking                       // the driver, before it takes the builder lock
    | Checking                      // holding the lock, before it looks at `is_compiled`
    | InCallback                    // in the user's on-demand compiler
    | CalledBack                    // which has returned OK
    | Compiling(ret: Return)        // at the start of `jit_function_compile`
    | Generating(ret: Return)       // in `compile`
    | Generated(ret: Return, n: nat)     // `compile` has succeeded, the entry point is not recorded yet
    | Recorded(ret: Return, n: nat)      // the entry point is recorded, `is_compiled` is not set yet
    | Compiled(ret: Return, ok: bool)    // `jit_function_compile` returns
    | Freeing                       // about to free the builder
    | Unlocking                     // about to release the lock
    | Applying                      // about to jump to the function's entry point
    | Finished(used: Entry)
    | Excepted(result: Result)      // an exception was thrown, with the lock released
    | ThrownOut                     // the user's on-demand compiler threw an exception of its own
    | Client                        // a thread that builds and compiles the function itself
    | Building                      // which holds the lock
    | ClientDone

  datatype Thread = Thread(pc: Pc, result: Result, client: bool)

  datatype Lock = Free | Held(owner: nat)

  /** The data that all threads share. */
  datatype Shared = Shared(lock: Lock, isCompiled: bool, entryPoint: Entry, builder: bool, onDemand: bool,
                           successes: nat)

  datatype State = State(sh: Shared, threads: seq<Thread>)

  predicate Initial(s: State) {
    && s.sh.lock == Free && !s.sh.isCompiled && s.sh.entryPoint == Redirector && s.sh.successes == 0
    && forall i :: 0 <= i < |s.threads| ==> s.threads[i].pc == if s.threads[i].client then Client else Calling
  }

  /** One step of thread `i`, from `h` and `t` to `h'` and `t'`.  A step that takes the lock is possible only when the
      lock is free. */
  ghost predicate Move(i: nat, h: Shared, t: Thread, h': Shared, t': Thread) {
    match t.pc
    case Calling => h' == h && t' == t.(pc := if h.isCompiled then FastPath else Locking)
    case FastPath => h' == h && t' == t.(pc := Applying)
    case Locking => h.lock == Free && h' == h.(lock := Held(i)) && t' == t.(pc := Checking, result := OK)
    case Checking =>
      h' == h && t' == if h.isCompiled then t.(pc := Unlocking)
                       else if h.onDemand then t.(pc := InCallback)
                       else t.(pc := Unlocking, result := COMPILE_ERROR)
    case InCallback =>
      // the user may build, even what is compiled, may call the compiler, and returns a result
      || (h' == h.(builder := true) && t' == t)
      || (h' == h && t' == t.(pc := Compiling(ToCallback)))
      || (h' == h && t' == t.(pc := if t'.result == OK then CalledBack else Freeing, result := t'.result))
      || (h' == h && t' == t.(pc := ThrownOut))
    case CalledBack => h' == h && t' == t.(pc := if h.isCompiled then Freeing else Compiling(ToDriver))
    case Compiling(ret) =>
      h' == h && t' == t.(pc := if h.isCompiled && !h.builder then Compiled(ret, true)
                                else if !h.builder then Compiled(ret, false)
                                else Generating(ret))
    case Generating(ret) =>
      || (h' == h && t' == t.(pc := Compiled(ret, false)))
      || (h' == h.(successes := h.successes + 1, builder := false) && t' == t.(pc := Generated(ret, h.successes)))
    case Generated(ret, n) => h' == h.(entryPoint := Code(n)) && t' == t.(pc := Recorded(ret, n))
    case Recorded(ret, n) => h' == h.(isCompiled := true) && t' == t.(pc := Compiled(ret, true))
    case Compiled(ret, ok) =>
      h' == h && t' == if ret == ToCallback then t.(pc := InCallback)
                       else if ret == ToClient then t.(pc := Unlocking)
                       else t.(pc := Freeing, result := if ok then t.result else OUT_OF_MEMORY)
    case Freeing => h' == h.(builder := false) && t' == t.(pc := Unlocking)
    case Unlocking =>
      h' == h.(lock := Free)
        && t' == t.(pc := if t.client then ClientDone else if t.result == OK then Applying else Excepted(t.result))
    case Applying => h' == h && t' == t.(pc := Finished(h.entryPoint))
    case Client => h.lock == Free && h' == h.(lock := Held(i)) && t' == t.(pc := Building, result := OK)
    case Building =>
      || (h' == h.(builder := true) && t' == t)
      || (h' == h && t' == t.(pc := Compiling(ToClient)))
      || (h' == h && t' == t.(pc := Unlocking))
    case _ => false
  }

  ghost predicate Step(s: State, i: nat, s': State) {
    && i < |s.threads| == |s'.threads| && s'.threads == s.threads[i := s'.threads[i]]
    && Move(i, s.sh, s.threads[i], s'.sh, s'.threads[i])
  }

  predicate Ended(pc: Pc) { pc.Finished? || pc.Excepted? || pc.ThrownOut? || pc.ClientDone? }

  /** Holding the builder lock. */
  predicate Inside(pc: Pc) { !Ended(pc) && !(pc in {Calling, FastPath, Locking, Applying, Client}) }

  // ---- What every step keeps ----

  predicate ForClient(ret: Return) { ret == ToClient }

  /** The step gives a builder to a function that is compiled. */
  predicate Rebuilds(h: Shared, h': Shared) { h.isCompiled && !h.builder && h'.builder }

  /** What holds of a thread, given the shared data.  `once` says that no compiled function was given a builder. */
  predicate Good(h: Shared, t: Thread, once: bool) {
    match t.pc
    case Calling => !t.client
    case Locking => !t.client
    case FastPath => !t.client && h.isCompiled
    case Checking => !t.client && t.result == OK
    case InCallback => !t.client && t.result == OK
    case CalledBack => !t.client && t.result == OK
    case Compiling(ret) => t.client == ForClient(ret) && t.result == OK
    case Generating(ret) => t.client == ForClient(ret) && t.result == OK && h.builder && (once ==> !h.isCompiled)
    case Generated(ret, n) => t.client == ForClient(ret) && t.result == OK && JustDone(h, n, once)
    case Recorded(ret, n) =>
      t.client == ForClient(ret) && t.result == OK && JustDone(h, n, once) && h.entryPoint == Code(n)
    case Compiled(ret, ok) => t.client == ForClient(ret) && t.result == OK && (ok ==> h.isCompiled)
    case Freeing => !t.client && (t.result == OK ==> h.isCompiled)
    case Unlocking =>
      !t.client ==> (t.result == OK ==> h.isCompiled) && (t.result != OK && h.onDemand ==> !h.builder)
    case Applying => !t.client && h.isCompiled
    case Finished(used) => !t.client && h.isCompiled && IsCode(used, h)
    case Excepted(r) => !t.client && r != OK
    case ThrownOut => !t.client
    case Client => t.client
    case Building => t.client && t.result == OK
    case ClientDone => t.client
  }

  /** The code of some successful compilation. */
  predicate IsCode(e: Entry, h: Shared) { e.Code? && e.n < h.successes }

  predicate JustDone(h: Shared, n: nat, once: bool) {
    h.successes == n + 1 && !h.builder && (once ==> !h.isCompiled)
  }

  /** Between the success of a compilation and the moment it is known. */
  predicate Midway(pc: Pc) { pc.Generated? || pc.Recorded? }

  /** The shared data but for the lock. */
  predicate SharedInv(h: Shared, midway: bool, once: bool) {
    && (h.isCompiled ==> IsCode(h.entryPoint, h))
    && (!h.isCompiled ==> h.successes == if midway then 1 else 0)
    && (once && h.isCompiled ==> h.successes == 1 && !h.builder && !midway)
  }

  /** Whether the thread that holds the lock is between success and its record. */
  ghost predicate SomeMidway(s: State) {
    s.sh.lock.Held? && s.sh.lock.owner < |s.threads| && Midway(s.threads[s.sh.lock.owner].pc)
  }

  ghost predicate Inv(s: State, once: bool) {
    && (forall i :: 0 <= i < |s.threads| ==> Good(s.sh, s.threads[i], once))
    && (forall i :: 0 <= i < |s.threads| ==>
      (Inside(s.threads[i].pc) || s.threads[i].pc.ThrownOut? <==> s.sh.lock == Held(i)))
    && (s.sh.lock.Held? ==> s.sh.lock.owner < |s.threads|)
    && SharedInv(s.sh, SomeMidway(s), once)
  }

  lemma InitialInv(s: State, once: bool)
    requires Initial(s)
    ensures Inv(s, once)
  {
  }

  /** What a step does to the thread that makes it, and to the shared data. */
  lemma MoveGood(i: nat, h: Shared, t: Thread, h': Shared, t': Thread, midway: bool, once: bool)
    requires Good(h, t, once) && Move(i, h, t, h', t') && SharedInv(h, midway, once) && !(once && Rebuilds(h, h'))
    requires Inside(t.pc) ==> midway == Midway(t.pc)
    ensures Good(h', t', once)
    ensures if Inside(t.pc) then SharedInv(h', Midway(t'.pc), once) && Later(h, h')
      else h' == h.(lock := h'.lock) && !Midway(t'.pc)
  {
    MoveShared(i, h, t, h', t', midway, once);
  }

  lemma MoveShared(i: nat, h: Shared, t: Thread, h': Shared, t': Thread, midway: bool, once: bool)
    requires Good(h, t, once) && Move(i, h, t, h', t') && SharedInv(h, midway, once) && !(once && Rebuilds(h, h'))
    requires Inside(t.pc) ==> midway == Midway(t.pc)
    ensures if Inside(t.pc) then SharedInv(h', Midway(t'.pc), once) && Later(h, h')
      else h' == h.(lock := h'.lock) && !Midway(t'.pc)
  {
  }

  /** What is compiled stays compiled, and successes are not taken back. */
  predicate Later(h: Shared, h': Shared) { (h.isCompiled ==> h'.isCompiled) && h.successes <= h'.successes }

  lemma MoveLock(i: nat, h: Shared, t: Thread, h': Shared, t': Thread)
    requires Move(i, h, t, h', t')
    ensures !t.pc.ThrownOut? && (t'.pc.ThrownOut? ==> Inside(t.pc))
    ensures if Inside(t'.pc) && !Inside(t.pc) then h.lock == Free && h'.lock == Held(i)
      else if Inside(t.pc) && !Inside(t'.pc) && !t'.pc.ThrownOut? then h'.lock == Free
      else h'.lock == h.lock
  {
  }

  lemma GoodKept(h: Shared, h': Shared, t: Thread, once: bool)
    requires Good(h, t, once) && (h' == h.(lock := h'.lock) || (!Inside(t.pc) && Later(h, h')))
    ensures Good(h', t, once)
  {
  }

  lemma StepInv(s: State, i: nat, s': State, once: bool)
    requires Inv(s, once) && Step(s, i, s') && !(once && Rebuilds(s.sh, s'.sh))
    ensures Inv(s', once) && Later(s.sh, s'.sh)
  {
    hide Move, Good, SharedInv;
    var t, t' := s.threads[i], s'.threads[i];
    MoveGood(i, s.sh, t, s'.sh, t', SomeMidway(s), once);
    MoveLock(i, s.sh, t, s'.sh, t');
    forall j | 0 <= j < |s.threads| ensures Good(s'.sh, s'.threads[j], once) {
      if j != i { GoodKept(s.sh, s'.sh, s.threads[j], once); }
    }
    forall j | 0 <= j < |s.threads|
      ensures Inside(s'.threads[j].pc) || s'.threads[j].pc.ThrownOut? <==> s'.sh.lock == Held(j)
    {
      assert j != i ==> s'.threads[j] == s.threads[j];
    }
    if !Inside(t.pc) { SameButLock(s.sh, s'.sh, SomeMidway(s), once); }
    assert SomeMidway(s') == if Inside(t.pc) then Midway(t'.pc) else SomeMidway(s);
  }

  lemma SameButLock(h: Shared, h': Shared, midway: bool, once: bool)
    requires h' == h.(lock := h'.lock) && SharedInv(h, midway, once)
    ensures SharedInv(h', midway, once)
  {
  }

  // ---- Whole runs ----

  /** Any interleaving: `schedule[k]` is the thread that makes step `k`. */
  ghost predicate Path(states: seq<State>, schedule: seq<nat>) {
    |states| == |schedule| + 1 && forall k :: 0 <= k < |schedule| ==> StepAt(states, schedule, k)
  }

  ghost predicate IsRun(states: seq<State>, schedule: seq<nat>) {
    Path(states, schedule) && Initial(states[0])
  }

  ghost predicate StepAt(states: seq<State>, schedule: seq<nat>, k: nat)
    requires k < |schedule| && |states| == |schedule| + 1
  {
    Step(states[k], schedule[k], states[k + 1])
  }

  lemma Joins(a: seq<State>, p: seq<nat>, i: nat, b: seq<State>, q: seq<nat>)
    requires Path(a, p) && Path(b, q) && Step(a[|a| - 1], i, b[0])
    ensures Path(a + b, p + [i] + q)
  {
    hide Step;
    var s, r, n := a + b, p + [i] + q, |p|;
    forall k | 0 <= k < |r| ensures StepAt(s, r, k) {
      if k < n {
        assert StepAt(a, p, k) && s[k] == a[k] && s[k + 1] == a[k + 1] && r[k] == p[k];
      } else if k == n {
        assert s[k] == a[n] && s[k + 1] == b[0] && r[k] == i;
      } else {
        assert StepAt(b, q, k - n - 1) && s[k] == b[k - n - 1] && s[k + 1] == b[k - n] && r[k] == q[k - n - 1];
      }
    }
  }

  lemma {:induction false} RunInv(states: seq<State>, schedule: seq<nat>, k: nat, once: bool)
    requires IsRun(states, schedule) && k < |states| && (once ==> NeverRebuilt(states))
    ensures Inv(states[k], once)
  {
    if k == 0 {
      InitialInv(states[0], once);
    } else {
      RunInv(states, schedule, k - 1, once);
      assert StepAt(states, schedule, k - 1);
      assert once ==> !RebuiltAt(states, k - 1);
      StepInv(states[k - 1], schedule[k - 1], states[k], once);
    }
  }

  ghost predicate RebuiltAt(states: seq<State>, k: nat)
    requires k + 1 < |states|
  {
    Rebuilds(states[k].sh, states[k + 1].sh)
  }

  /** No step gives a builder to a function that is compiled. */
  ghost predicate NeverRebuilt(states: seq<State>) {
    forall k: nat :: k + 1 < |states| ==> !RebuiltAt(states, k)
  }

  /** Whatever the threads do: a function that is known as compiled has an entry point that some successful compilation
      recorded, stays compiled, and every thread that applies it uses such an entry point. */
  lemma Safety(states: seq<State>, schedule: seq<nat>, k: nat, i: nat)
    requires IsRun(states, schedule) && k < |states| && i < |states[k].threads|
    ensures states[k].sh.isCompiled ==> IsCode(states[k].sh.entryPoint, states[k].sh)
    ensures states[k].threads[i].pc.FastPath? || states[k].threads[i].pc.Applying? ==> states[k].sh.isCompiled
    ensures states[k].threads[i].pc.Finished? ==> IsCode(states[k].threads[i].pc.used, states[k].sh)
    ensures k + 1 < |states| ==> Later(states[k].sh, states[k + 1].sh)
  {
    RunInv(states, schedule, k, false);
    assert Good(states[k].sh, states[k].threads[i], false);
    if k + 1 < |states| {
      assert StepAt(states, schedule, k);
      StepInv(states[k], schedule[k], states[k + 1], false);
    }
  }

  /** As long as nobody builds what is compiled, the function is compiled successfully at most once, and every thread
      that applies it uses the entry point of that compilation. */
  lemma OnceOnly(states: seq<State>, schedule: seq<nat>, k: nat, i: nat)
    requires IsRun(states, schedule) && NeverRebuilt(states) && k < |states| && i < |states[k].threads|
    ensures states[k].sh.successes <= 1
      && (states[k].sh.isCompiled ==> states[k].sh.successes == 1 && states[k].sh.entryPoint == Code(0))
    ensures states[k].threads[i].pc.Finished? ==> states[k].threads[i].pc.used == Code(0)
  {
    RunInv(states, schedule, k, true);
    assert Good(states[k].sh, states[k].threads[i], true);
  }

  // ---- What a call comes to ----

  /** The step by which the driver fails: there is no on-demand compiler, or it returns a result of its own, or there is
      nothing to compile after it, or that cannot be compiled. */
  predicate Fails(h: Shared, t: Thread, t': Thread, r: Result) {
    match t.pc
    case Checking => !h.isCompiled && !h.onDemand && r == COMPILE_ERROR
    case InCallback => t'.pc == Freeing && t'.result == r != OK
    case Compiling(ToDriver) => !h.builder && r == OUT_OF_MEMORY
    case Generating(ToDriver) => t'.pc == Compiled(ToDriver, false) && r == OUT_OF_MEMORY
    case _ => false
  }

  ghost predicate FailsAt(states: seq<State>, schedule: seq<nat>, k: nat, i: nat, r: Result)
    requires k < |schedule| && |states| == |schedule| + 1
  {
    schedule[k] == i && i < |states[k].threads| == |states[k + 1].threads|
      && Fails(states[k].sh, states[k].threads[i], states[k + 1].threads[i], r)
  }

  /** The thread made such a step before state `k`. */
  ghost predicate Failed(states: seq<State>, schedule: seq<nat>, k: nat, i: nat, r: Result)
    requires k <= |schedule| && |states| == |schedule| + 1
  {
    exists j :: 0 <= j < k && FailsAt(states, schedule, j, i, r)
  }

  /** The thread is on its way to an exception with the result, or has thrown it. */
  predicate Doomed(t: Thread, r: Result) {
    && r != OK && !t.client
    && match t.pc
       case Compiled(ToDriver, false) => r == OUT_OF_MEMORY
       case Freeing => t.result == r
       case Unlocking => t.result == r
       case Excepted(e) => e == r
       case _ => false
  }

  lemma MoveDoomed(i: nat, h: Shared, t: Thread, h': Shared, t': Thread, r: Result)
    requires Move(i, h, t, h', t') && Good(h, t, false) && (t.pc == Compiling(ToDriver) ==> !h.isCompiled)
    ensures Doomed(t', r) <==> Doomed(t, r) || Fails(h, t, t', r)
  {
  }

  /** The driver compiles only what is not compiled: nobody else can change that while it holds the lock. */
  predicate Needed(h: Shared, t: Thread) {
    t.pc == Compiling(ToDriver) ==> !h.isCompiled
  }

  lemma MoveNeeded(i: nat, h: Shared, t: Thread, h': Shared, t': Thread)
    requires Move(i, h, t, h', t')
    ensures Needed(h', t') && (Inside(t.pc) || h'.isCompiled == h.isCompiled)
  {
  }

  lemma {:induction false} RunNeeded(states: seq<State>, schedule: seq<nat>, k: nat, i: nat)
    requires IsRun(states, schedule) && k < |states| && i < |states[k].threads|
    ensures Needed(states[k].sh, states[k].threads[i])
  {
    if k > 0 {
      assert StepAt(states, schedule, k - 1);
      var s, s', j := states[k - 1], states[k], schedule[k - 1];
      RunInv(states, schedule, k - 1, false);
      RunNeeded(states, schedule, k - 1, i);
      MoveNeeded(j, s.sh, s.threads[j], s'.sh, s'.threads[j]);
      hide Move;
    }
  }

  lemma {:induction false} RunDoomed(states: seq<State>, schedule: seq<nat>, k: nat, i: nat, r: Result)
    requires IsRun(states, schedule) && k < |states| && i < |states[k].threads|
    ensures Doomed(states[k].threads[i], r) <==> Failed(states, schedule, k, i, r)
  {
    if k > 0 {
      assert StepAt(states, schedule, k - 1);
      var s, s', j := states[k - 1], states[k], schedule[k - 1];
      RunDoomed(states, schedule, k - 1, i, r);
      RunInv(states, schedule, k - 1, false);
      if j == i {
        RunNeeded(states, schedule, k - 1, i);
        MoveDoomed(i, s.sh, s.threads[i], s'.sh, s'.threads[i], r);
      }
      hide Move, Fails, Doomed, Good, SharedInv;
      assert FailsAt(states, schedule, k - 1, i, r) <==> j == i && Fails(s.sh, s.threads[i], s'.threads[i], r);
      assert Failed(states, schedule, k, i, r)
        <==> Failed(states, schedule, k - 1, i, r) || FailsAt(states, schedule, k - 1, i, r);
    }
  }

  /** In every run a call ends with an exception if and only if its driver has failed, with the result that says how;
      when it has not, the function was applied. */
  lemma CallOutcome(states: seq<State>, schedule: seq<nat>, k: nat, i: nat)
    requires IsRun(states, schedule) && k < |states| && i < |states[k].threads| && Ended(states[k].threads[i].pc)
    requires !states[k].threads[i].client && states[k].threads[i].pc != ThrownOut
    ensures forall r :: states[k].threads[i].pc == Excepted(r) <==> Failed(states, schedule, k, i, r)
    ensures states[k].threads[i].pc.Finished? <==> forall r :: !Failed(states, schedule, k, i, r)
  {
    var t := states[k].threads[i];
    RunInv(states, schedule, k, false);
    forall r ensures t.pc == Excepted(r) <==> Failed(states, schedule, k, i, r) {
      RunDoomed(states, schedule, k, i, r);
    }
  }

  /** A call that failed leaves no builder behind when it releases the lock, if there is an on-demand compiler. */
  lemma FailureFrees(states: seq<State>, schedule: seq<nat>, k: nat, i: nat, r: Result)
    requires IsRun(states, schedule) && k < |states| && i < |states[k].threads|
    requires states[k].threads[i].pc == Unlocking && Failed(states, schedule, k, i, r)
    ensures states[k].sh.onDemand ==> !states[k].sh.builder
  {
    RunInv(states, schedule, k, false);
    RunDoomed(states, schedule, k, i, r);
    assert Good(states[k].sh, states[k].threads[i], false);
  }

  /** In the user's on-demand compiler, or in a compilation that it asked for. */
  predicate CalledUp(pc: Pc) {
    match pc
    case InCallback => true
    case Compiling(ret) => ret == ToCallback
    case Generating(ret) => ret == ToCallback
    case Generated(ret, _) => ret == ToCallback
    case Recorded(ret, _) => ret == ToCallback
    case Compiled(ret, _) => ret == ToCallback
    case _ => false
  }

  /** Once the function is compiled, the user's on-demand compiler is not called any more. */
  lemma {:induction false} NoMoreCallbacks(states: seq<State>, schedule: seq<nat>, k: nat, m: nat, i: nat)
    requires IsRun(states, schedule) && k <= m < |states| && i < |states[k].threads|
    requires states[k].sh.isCompiled && !CalledUp(states[k].threads[i].pc)
    ensures |states[m].threads| == |states[k].threads|
    ensures states[m].sh.isCompiled && !CalledUp(states[m].threads[i].pc)
  {
    if k < m {
      assert StepAt(states, schedule, m - 1);
      NoMoreCallbacks(states, schedule, k, m - 1, i);
      RunInv(states, schedule, m - 1, false);
      StepInv(states[m - 1], schedule[m - 1], states[m], false);
    }
  }

  /** The user's compiler only builds the function.  The driver compiles it, and the call applies it; a second call
      finds it compiled and takes no lock. */
  lemma DriverCompiles() returns (states: seq<State>, schedule: seq<nat>)
    ensures IsRun(states, schedule) && |states| == 18 && |states[17].threads| == 2
    ensures states[17].threads[0].pc == states[17].threads[1].pc == Finished(Code(0))
    ensures states[17].sh == Shared(Free, true, Code(0), false, true, 1)
  {
    var h := Shared(Free, false, Redirector, false, true, 0);
    var b := h.(lock := Held(0), builder := true);
    var c := Shared(Held(0), true, Code(0), false, true, 1);
    var x, y, z := Built(h), DriverCompilation(b), BothApplied(c.(lock := Free));
    BuiltSteps(h);
    DriverSteps(b);
    AppliedSteps(c.(lock := Free));
    assert Step(x[5], 0, y[0]) && Step(y[6], 0, z[0]);
    states, schedule := x + y, seq(5, _ => 0) + [0] + seq(6, _ => 0);
    Joins(x, seq(5, _ => 0), 0, y, seq(6, _ => 0));
    Joins(states, schedule, 0, z, [1, 1, 0, 1]);
    states, schedule := states + z, schedule + [0] + [1, 1, 0, 1];
    assert states[0] == x[0] && states[17] == z[4];
  }

  function Built(h: Shared): (s: seq<State>)
    ensures |s| == 6
  {
    var h0 := h.(lock := Held(0));
    var b := h0.(builder := true);
    [Two(h, Calling, Calling), Two(h, Locking, Calling), Two(h0, Checking, Calling), Two(h0, InCallback, Calling),
     Two(b, InCallback, Calling), Two(b, CalledBack, Calling)]
  }

  lemma BuiltSteps(h: Shared)
    requires h.lock == Free && !h.isCompiled && h.onDemand
    ensures Path(Built(h), seq(5, _ => 0))
  {
  }

  function DriverCompilation(b: Shared): (s: seq<State>)
    ensures |s| == 7
  {
    var g := b.(successes := 1, builder := false);
    var e := g.(entryPoint := Code(0));
    var c := e.(isCompiled := true);
    [Two(b, Compiling(ToDriver), Calling), Two(b, Generating(ToDriver), Calling),
     Two(g, Generated(ToDriver, 0), Calling), Two(e, Recorded(ToDriver, 0), Calling),
     Two(c, Compiled(ToDriver, true), Calling), Two(c, Freeing, Calling), Two(c, Unlocking, Calling)]
  }

  lemma DriverSteps(b: Shared)
    requires !b.isCompiled && b.builder && b.successes == 0
    ensures Path(DriverCompilation(b), seq(6, _ => 0))
  {
  }

  function BothApplied(h: Shared): (s: seq<State>)
    ensures |s| == 5
  {
    var used := Finished(h.entryPoint);
    [Two(h, Applying, Calling), Two(h, Applying, FastPath), Two(h, Applying, Applying), Two(h, used, Applying),
     Two(h, used, used)]
  }

  lemma AppliedSteps(h: Shared)
    requires h.isCompiled
    ensures Path(BothApplied(h), [1, 1, 0, 1])
  {
  }

  /** With any result but OK a call can fail: the user's compiler returns it. */
  lemma CallFails(r: Result) returns (states: seq<State>, schedule: seq<nat>)
    requires r != OK
    ensures IsRun(states, schedule) && |states| == 7
    ensures states[6].threads == [Thread(Excepted(r), r, false)] && states[6].sh.lock == Free
  {
    var h := Shared(Free, false, Redirector, false, true, 0);
    var h0 := h.(lock := Held(0));
    FirstSteps(h);
    states := [One(h, Calling), One(h, Locking), One(h0, Checking), One(h0, InCallback),
               State(h0, [Thread(Freeing, r, false)]), State(h0, [Thread(Unlocking, r, false)]),
               State(h, [Thread(Excepted(r), r, false)])];
    schedule := [0, 0, 0, 0, 0, 0];
  }

  /** And the function that the user's compiler built may fail to compile. */
  lemma CompilationFails() returns (states: seq<State>, schedule: seq<nat>)
    ensures IsRun(states, schedule) && |states| == 12 && |states[11].threads| == 2
    ensures states[11].threads[0].pc == Excepted(OUT_OF_MEMORY) && states[11].threads[1].pc == Calling
    ensures states[11].sh == Shared(Free, false, Redirector, false, true, 0)
  {
    var h := Shared(Free, false, Redirector, false, true, 0);
    var b := h.(lock := Held(0), builder := true);
    var x, y := Built(h), CompilationFailing(b);
    BuiltSteps(h);
    assert Path(y, seq(5, _ => 0)) by { FailingSteps(b); }
    assert Step(x[5], 0, y[0]);
    states, schedule := x + y, seq(5, _ => 0) + [0] + seq(5, _ => 0);
    Joins(x, seq(5, _ => 0), 0, y, seq(5, _ => 0));
    assert states[0] == x[0] && states[11] == y[5];
  }

  function CompilationFailing(b: Shared): (s: seq<State>)
    ensures |s| == 6
  {
    var t, q := (pc: Pc) => Thread(pc, OUT_OF_MEMORY, false), Thread(Calling, OK, false);
    var h := b.(builder := false);
    [Two(b, Compiling(ToDriver), Calling), Two(b, Generating(ToDriver), Calling),
     Two(b, Compiled(ToDriver, false), Calling), State(b, [t(Freeing), q]), State(h, [t(Unlocking), q]),
     State(h.(lock := Free), [t(Excepted(OUT_OF_MEMORY)), q])]
  }

  lemma FailingSteps(b: Shared)
    requires b.builder && !b.isCompiled
    ensures Path(CompilationFailing(b), seq(5, _ => 0))
  {
  }

  /** A client that compiles the function itself. */
  lemma ClientCompiles() returns (states: seq<State>, schedule: seq<nat>)
    ensures IsRun(states, schedule) && |states| == 10 && |states[9].threads| == 1
    ensures states[9].threads[0].pc == ClientDone && states[9].sh == Shared(Free, true, Code(0), false, false, 1)
  {
    var h := Shared(Free, false, Redirector, false, false, 0);
    var x, y := ClientBuilds(h), ClientCompilation(h.(lock := Held(0), builder := true));
    ClientBuildSteps(h);
    ClientSteps(h.(lock := Held(0), builder := true));
    assert Step(x[2], 0, y[0]);
    Joins(x, [0, 0], 0, y, seq(6, _ => 0));
    states, schedule := x + y, [0, 0] + [0] + seq(6, _ => 0);
    assert states[0] == x[0] && states[9] == y[6];
  }

  function ClientBuilds(h: Shared): (s: seq<State>)
    ensures |s| == 3
  {
    var h0 := h.(lock := Held(0));
    [Alone(h, Client), Alone(h0, Building), Alone(h0.(builder := true), Building)]
  }

  lemma ClientBuildSteps(h: Shared)
    requires h.lock == Free
    ensures Path(ClientBuilds(h), [0, 0])
  {
  }

  function ClientCompilation(b: Shared): (s: seq<State>)
    ensures |s| == 7
  {
    var g := b.(successes := 1, builder := false);
    var e := g.(entryPoint := Code(0));
    var c := e.(isCompiled := true);
    [Alone(b, Compiling(ToClient)), Alone(b, Generating(ToClient)), Alone(g, Generated(ToClient, 0)),
     Alone(e, Recorded(ToClient, 0)), Alone(c, Compiled(ToClient, true)), Alone(c, Unlocking),
     Alone(c.(lock := Free), ClientDone)]
  }

  lemma ClientSteps(b: Shared)
    requires b.builder && !b.isCompiled && b.successes == 0
    ensures Path(ClientCompilation(b), seq(6, _ => 0))
  {
  }

  function Alone(h: Shared, pc: Pc): State { State(h, [Thread(pc, OK, true)]) }

  function Two(h: Shared, p: Pc, q: Pc): State { State(h, [Thread(p, OK, false), Thread(q, OK, false)]) }

  // ---- When a function is compiled at most once ----

  /** A builder is made only when `may` allows it to the thread. */
  ghost predicate Obeys(states: seq<State>, schedule: seq<nat>, may: (Shared, Thread) -> bool)
    requires IsRun(states, schedule)
  {
    forall k :: 0 <= k < |schedule| ==> AllowedAt(states, schedule, k, may)
  }

  ghost predicate AllowedAt(states: seq<State>, schedule: seq<nat>, k: nat, may: (Shared, Thread) -> bool)
    requires k < |schedule| && |states| == |schedule| + 1 && StepAt(states, schedule, k)
  {
    !states[k].sh.builder && states[k + 1].sh.builder ==> may(states[k].sh, states[k].threads[schedule[k]])
  }

  ghost predicate AtMostOnce(states: seq<State>) {
    forall k :: 0 <= k < |states| ==> states[k].sh.successes <= 1
  }

  /** Whatever rule the threads follow when they build: all runs have at most one success if and only if in no run a
      compiled function is built. */
  lemma OnceIff(may: (Shared, Thread) -> bool)
    ensures (forall states: seq<State>, schedule: seq<nat> ::
               IsRun(states, schedule) && Obeys(states, schedule, may) ==> AtMostOnce(states))
       <==> (forall states: seq<State>, schedule: seq<nat> ::
               IsRun(states, schedule) && Obeys(states, schedule, may) ==> NeverRebuilt(states))
  {
    forall states: seq<State>, schedule: seq<nat> | IsRun(states, schedule) && NeverRebuilt(states)
      ensures AtMostOnce(states)
    {
      forall k | 0 <= k < |states| ensures states[k].sh.successes <= 1 { RunInv(states, schedule, k, true); }
    }
    forall states: seq<State>, schedule: seq<nat>, k: nat
      | IsRun(states, schedule) && Obeys(states, schedule, may) && k + 1 < |states| && RebuiltAt(states, k)
      ensures exists states': seq<State>, schedule': seq<nat> ::
        IsRun(states', schedule') && Obeys(states', schedule', may) && !AtMostOnce(states')
    {
      var states', schedule' := Again(states, schedule, k, may);
    }
  }

  /** After a compiled function was given a builder, the same thread can compile it again. */
  lemma Again(states: seq<State>, schedule: seq<nat>, k: nat, may: (Shared, Thread) -> bool)
    returns (states': seq<State>, schedule': seq<nat>)
    requires IsRun(states, schedule) && Obeys(states, schedule, may) && k + 1 < |states| && RebuiltAt(states, k)
    ensures IsRun(states', schedule') && Obeys(states', schedule', may) && !AtMostOnce(states')
    ensures states[..k + 2] <= states'
  {
    var i, s := schedule[k], states[k + 1];
    RunInv(states, schedule, k, false);
    assert StepAt(states, schedule, k);
    var t := s.threads[i];
    var ret := if t.pc.Building? then ToClient else ToCallback;
    var s1 := s.(threads := s.threads[i := t.(pc := Compiling(ret))]);
    var s2 := s.(threads := s.threads[i := t.(pc := Generating(ret))]);
    var s3 := State(s.sh.(successes := s.sh.successes + 1, builder := false),
                    s.threads[i := t.(pc := Generated(ret, s.sh.successes))]);
    assert Step(s, i, s1) && Step(s1, i, s2) && Step(s2, i, s3);
    states', schedule' := states[..k + 2] + [s1, s2, s3], schedule[..k + 1] + [i, i, i];
    forall j | 0 <= j < |schedule'| ensures StepAt(states', schedule', j) && AllowedAt(states', schedule', j, may) {
      if j <= k { assert StepAt(states, schedule, j) && AllowedAt(states, schedule, j, may); }
    }
    assert states'[k + 4] == s3;
  }

  /** One thread whose callback builds and compiles the function, and then does so again. */
  lemma BuiltTwice() returns (states: seq<State>, schedule: seq<nat>)
    ensures IsRun(states, schedule) && |states| == 16 && |states[15].threads| == 1
    ensures states[15].sh.isCompiled && states[15].sh.successes == 2 && states[15].sh.entryPoint == Code(1)
  {
    var h := Shared(Free, false, Redirector, false, true, 0);
    var h0 := h.(lock := Held(0));
    var h1 := h0.(successes := 1, entryPoint := Code(0), isCompiled := true);
    var x, y, z := [One(h, Calling), One(h, Locking), One(h0, Checking)], Compilation(h0), Compilation(h1);
    FirstSteps(h);
    CompilationSteps(h0);
    CompilationSteps(h1);
    assert Path(x, [0, 0]);
    assert Step(x[2], 0, y[0]) && Step(y[6], 0, z[0]);
    states, schedule := x + y, [0, 0] + [0] + seq(6, _ => 0);
    Joins(x, [0, 0], 0, y, seq(6, _ => 0));
    Joins(states, schedule, 0, z[..6], seq(5, _ => 0));
    states, schedule := states + z[..6], schedule + [0] + seq(5, _ => 0);
    assert states[0] == x[0] && states[15] == z[5];
  }

  /** The callback builds and compiles. */
  function Compilation(h: Shared): (s: seq<State>)
    ensures |s| == 7
  {
    var n, b := h.successes, h.(builder := true);
    var done := h.(successes := n + 1, builder := false);
    [One(h, InCallback), One(b, InCallback), One(b, Compiling(ToCallback)), One(b, Generating(ToCallback)),
     One(done, Generated(ToCallback, n)), One(done.(entryPoint := Code(n)), Recorded(ToCallback, n)),
     One(done.(entryPoint := Code(n), isCompiled := true), Compiled(ToCallback, true))]
  }

  lemma CompilationSteps(h: Shared)
    ensures Path(Compilation(h), seq(6, _ => 0)) && Path(Compilation(h)[..6], seq(5, _ => 0))
  {
  }

  lemma FirstSteps(h: Shared)
    requires h.lock == Free && !h.isCompiled && h.onDemand
    ensures var held := h.(lock := Held(0));
      && Step(One(h, Calling), 0, One(h, Locking)) && Step(One(h, Locking), 0, One(held, Checking))
      && Step(One(held, Checking), 0, One(held, InCallback))
  {
  }

  function One(h: Shared, pc: Pc): State { State(h, [Thread(pc, OK, false)]) }

  /** A thread that has come to an end holds the builder lock if and only if the user's on-demand compiler threw an
      exception of its own. */
  lemma LockReleased(states: seq<State>, schedule: seq<nat>, k: nat, i: nat)
    requires IsRun(states, schedule) && k < |states| && i < |states[k].threads| && Ended(states[k].threads[i].pc)
    ensures states[k].sh.lock == Held(i) <==> states[k].threads[i].pc == ThrownOut
  {
    RunInv(states, schedule, k, false);
  }

  /** As long as that has not happened, some thread can go on until all have come to an end. */
  lemma Progress(states: seq<State>, schedule: seq<nat>, k: nat) returns (i: nat, next: State)
    requires IsRun(states, schedule) && k < |states|
    requires (forall j :: 0 <= j < |states[k].threads| ==> states[k].threads[j].pc != ThrownOut)
    requires exists j :: 0 <= j < |states[k].threads| && !Ended(states[k].threads[j].pc)
    ensures Step(states[k], i, next)
  {
    var s := states[k];
    RunInv(states, schedule, k, false);
    i :| 0 <= i < |s.threads| && !Ended(s.threads[i].pc);
    if s.sh.lock.Held? { i := s.sh.lock.owner; }
    var h, t := SomeMove(i, s.sh, s.threads[i]);
    next := State(h, s.threads[i := t]);
  }

  lemma SomeMove(i: nat, h: Shared, t: Thread) returns (h': Shared, t': Thread)
    requires !Ended(t.pc) && (h.lock == Free || Inside(t.pc))
    ensures Move(i, h, t, h', t')
  {
    h', t' := h, t;
    match t.pc
    case Calling => t' := t.(pc := if h.isCompiled then FastPath else Locking);
    case FastPath => t' := t.(pc := Applying);
    case Locking => h', t' := h.(lock := Held(i)), t.(pc := Checking, result := OK);
    case Checking =>
      t' := if h.isCompiled then t.(pc := Unlocking)
            else if h.onDemand then t.(pc := InCallback)
            else t.(pc := Unlocking, result := COMPILE_ERROR);
    case InCallback => t' := t.(pc := CalledBack, result := OK);
    case CalledBack => t' := t.(pc := if h.isCompiled then Freeing else Compiling(ToDriver));
    case Compiling(ret) =>
      t' := t.(pc := if h.isCompiled && !h.builder then Compiled(ret, true)
                     else if !h.builder then Compiled(ret, false)
                     else Generating(ret));
    case Generating(ret) => t' := t.(pc := Compiled(ret, false));
    case Generated(ret, n) => h', t' := h.(entryPoint := Code(n)), t.(pc := Recorded(ret, n));
    case Recorded(ret, n) => h', t' := h.(isCompiled := true), t.(pc := Compiled(ret, true));
    case Compiled(ret, ok) =>
      t' := if ret == ToCallback then t.(pc := InCallback)
            else if ret == ToClient then t.(pc := Unlocking)
            else t.(pc := Freeing, result := if ok then t.result else OUT_OF_MEMORY);
    case Freeing => h', t' := h.(builder := false), t.(pc := Unlocking);
    case Unlocking =>
      h', t' :=
        h.(lock := Free),
        t.(pc := if t.client then ClientDone else if t.result == OK then Applying else Excepted(t.result));
    case Applying => t' := t.(pc := Finished(h.entryPoint));
    case Client => h', t' := h.(lock := Held(i)), t.(pc := Building, result := OK);
    case Building => t' := t.(pc := Unlocking);
  }

  /** After the user's on-demand compiler threw, no thread ever gets the lock again. */
  lemma StuckForever(s: State, i: nat, s': State, j: nat)
    requires Inv(s, false) && j < |s.threads| && Step(s, i, s') && s.threads[j].pc == ThrownOut
    ensures s'.threads[j].pc == ThrownOut && s'.sh == s.sh
  {
    hide Good, SharedInv;
    assert s.sh.lock == Held(j);
  }

  /** It takes one thread and four steps to get there. */
  lemma CallbackThrows() returns (states: seq<State>, schedule: seq<nat>)
    ensures IsRun(states, schedule) && |states| == 5 && |states[4].threads| == 1
    ensures states[4].threads[0].pc == ThrownOut && states[4].sh.lock == Held(0)
  {
    var h := Shared(Free, false, Redirector, false, true, 0);
    var held := h.(lock := Held(0));
    FirstSteps(h);
    states := [One(h, Calling), One(h, Locking), One(held, Checking), One(held, InCallback), One(held, ThrownOut)];
    schedule := [0, 0, 0, 0];
  }
}
