/**
  The thread pipeline: a feeder, stages that add ten and hand over, and a final stage that prints.
  Every stage has a monitor (a lock and one condition variable), a product slot and a flag.

  Thread 0 is the feeder; thread t >= 1 owns stage t - 1; thread t hands over to stage t.  There
  are `n` stages and `total` products.  Any thread may move at any time, one statement per step.
 */
module Pipeline {

  datatype Pc =
    | LockOwn | TestOwn | WaitOwn | WokenOwn | Work
    | LockNext | TestNext | WaitNext | WokenNext
    | Put | SetFlag | NotifyNext | UnlockNext
    | Clear | NotifyOwn | Finished

  const FREE := -1

  /**
    `pc`: where each thread is.  `have`, `product`, `lock`: flag, slot and lock holder per stage.
    `i`: the feeder's counter.  `printed`: what the final stage has printed.  `passed` is a history
    variable: how many products each thread has handed over (or printed) so far.
   */
  datatype Sys = Sys(pc: seq<Pc>, have: seq<bool>, product: seq<int>, lock: seq<int>, i: nat, printed: seq<int>,
                     passed: seq<nat>)

  predicate Shape(n: nat, s: Sys) {
    && n >= 1 && |s.pc| == n + 1 && |s.passed| == n + 1
    && |s.have| == n && |s.product| == n && |s.lock| == n
  }

  /** Every stage starts with its flag down; the slots hold whatever was in memory. */
  predicate Init(n: nat, total: nat, s: Sys) {
    && Shape(n, s)
    && s.pc[0] == (if total == 0 then Finished else LockNext)
    && (forall t :: 1 <= t <= n ==> s.pc[t] == LockOwn)
    && (forall k :: 0 <= k < n ==> !s.have[k] && s.lock[k] == FREE)
    && (forall t :: 0 <= t <= n ==> s.passed[t] == 0)
    && s.i == 0 && s.printed == []
  }

  // ----- steps -----

  predicate Enabled(n: nat, s: Sys, t: nat)
    requires Shape(n, s)
  {
    && t <= n
    && match s.pc[t]
       case LockOwn => t >= 1 && s.lock[t - 1] == FREE
       case WokenOwn => t >= 1 && s.lock[t - 1] == FREE
       case LockNext => t < n && s.lock[t] == FREE
       case WokenNext => t < n && s.lock[t] == FREE
       case WaitOwn => false
       case WaitNext => false
       case Finished => false
       case TestOwn => t >= 1
       case Work => t >= 1
       case Clear => t >= 1
       case NotifyOwn => t >= 1
       case _ => t < n
  }

  function Goto(s: Sys, t: nat, pc: Pc): Sys
    requires t < |s.pc|
  {
    s.(pc := s.pc[t := pc])
  }

  /** Thread `w` waits, not yet signalled, on the condition of stage `k`. */
  predicate WaitsOn(s: Sys, k: nat, w: nat) {
    (w == k + 1 && w < |s.pc| && s.pc[w] == WaitOwn) || (w == k && w < |s.pc| && s.pc[w] == WaitNext)
  }

  /** A notify wakes one waiting thread, any of them; with nobody waiting it does nothing. */
  predicate MayWake(s: Sys, k: nat, w: nat) {
    WaitsOn(s, k, w) || (!WaitsOn(s, k, k) && !WaitsOn(s, k, k + 1))
  }

  function Wake(s: Sys, k: nat, w: nat): Sys {
    if WaitsOn(s, k, w) then Goto(s, w, if w == k then WokenNext else WokenOwn) else s
  }

  function Acquire(s: Sys, t: nat, k: nat, pc: Pc): Sys
    requires t < |s.pc| && k < |s.lock|
  {
    Goto(s, t, pc).(lock := s.lock[k := t])
  }

  function Release(s: Sys, t: nat, k: nat, pc: Pc): Sys
    requires t < |s.pc| && k < |s.lock|
  {
    Goto(s, t, pc).(lock := s.lock[k := FREE])
  }

  /** One statement of thread `t`; `w` is the thread that a notify wakes. */
  function Next(n: nat, total: nat, s: Sys, t: nat, w: nat): Sys
    requires Shape(n, s) && Enabled(n, s, t)
  {
    match s.pc[t]
    case LockOwn => Acquire(s, t, t - 1, TestOwn)
    case WokenOwn => Acquire(s, t, t - 1, TestOwn)
    case TestOwn => if s.have[t - 1] then Goto(s, t, Work) else Release(s, t, t - 1, WaitOwn)
    case Work =>
      if t == n then
        Goto(s, t, Clear).(printed := s.printed + [s.product[t - 1]], passed := s.passed[t := s.passed[t] + 1])
      else Goto(s, t, LockNext).(product := s.product[t - 1 := s.product[t - 1] + 10])
    case LockNext => Acquire(s, t, t, TestNext)
    case WokenNext => Acquire(s, t, t, TestNext)
    case TestNext => if s.have[t] then Release(s, t, t, WaitNext) else Goto(s, t, Put)
    case Put =>
      Goto(s, t, SetFlag).(product := s.product[t := if t == 0 then s.i else s.product[t - 1]])
    case SetFlag =>
      Goto(s, t, NotifyNext).(have := s.have[t := true], passed := s.passed[t := s.passed[t] + 1])
    case NotifyNext => Wake(Goto(s, t, UnlockNext), t, w)
    case UnlockNext =>
      if t == 0 then
        Release(s, t, t, if s.i + 1 < total then LockNext else Finished).(i := s.i + 1)
      else Release(s, t, t, Clear)
    case Clear => Goto(s, t, NotifyOwn).(have := s.have[t - 1 := false])
    case NotifyOwn => Wake(Goto(s, t, TestOwn), t - 1, w)
  }

  predicate Step(n: nat, total: nat, s: Sys, t: nat, w: nat, s': Sys) {
    && Shape(n, s) && Enabled(n, s, t)
    && (s.pc[t] == NotifyNext ==> MayWake(s, t, w))
    && (s.pc[t] == NotifyOwn ==> MayWake(s, t - 1, w))
    && s' == Next(n, total, s, t, w)
  }

  /** The platform may also wake a waiting thread for no reason. */
  predicate Spurious(n: nat, s: Sys, t: nat, s': Sys) {
    && Shape(n, s) && t <= n
    && (s.pc[t] == WaitOwn || s.pc[t] == WaitNext)
    && s' == Goto(s, t, if s.pc[t] == WaitOwn then WokenOwn else WokenNext)
  }

  // ----- the invariant -----

  predicate HoldsOwn(pc: Pc) {
    pc != LockOwn && pc != WaitOwn && pc != WokenOwn
  }

  predicate HoldsNext(pc: Pc) {
    pc == TestNext || pc == Put || pc == SetFlag || pc == NotifyNext || pc == UnlockNext
  }

  /** Past the hand-over (or the print) and before the own flag is cleared. */
  predicate HandedOver(pc: Pc) {
    pc == NotifyNext || pc == UnlockNext || pc == Clear
  }

  /** Between the work on a product and its hand-over. */
  predicate Worked(pc: Pc) {
    pc == LockNext || pc == TestNext || pc == WaitNext || pc == WokenNext || pc == Put || pc == SetFlag
  }

  predicate PcOk(n: nat, pc: Pc, t: nat) {
    if t == 0 then Worked(pc) || pc == NotifyNext || pc == UnlockNext || pc == Finished
    else if t == n then !Worked(pc) && pc != NotifyNext && pc != UnlockNext && pc != Finished
    else pc != Finished
  }

  /** Stage `k` holds a product that its thread has not handed over yet. */
  predicate Pending(s: Sys, k: nat)
    requires k < |s.have| && k + 1 < |s.pc|
  {
    s.have[k] && !HandedOver(s.pc[k + 1])
  }

  /** What the thread with the `j`-th product and program counter `pc` finds in the slot of stage `k`. */
  function ValueAt(j: nat, k: nat, pc: Pc): int {
    j + 10 * k + if Worked(pc) then 10 else 0
  }

  predicate StageInv(n: nat, s: Sys, k: nat)
    requires Shape(n, s) && k < n
  {
    var owner, pred := s.pc[k + 1], s.pc[k];
    && (s.lock[k] == k + 1 <==> HoldsOwn(owner))
    && (s.lock[k] == k <==> HoldsNext(pred))
    && (s.lock[k] == k || s.lock[k] == k + 1 || s.lock[k] == FREE)
    // a thread that waits unsignalled waits for what is not there, or its signal is on the way
    && (owner == WaitOwn && s.have[k] ==> pred == NotifyNext)
    && (pred == WaitNext && !s.have[k] ==> owner == NotifyOwn)
    // the flag and the program counters agree
    && (Worked(owner) || HandedOver(owner) || owner == Work ==> s.have[k])
    && (owner == NotifyOwn ==> !s.have[k])
    && (pred == Put || pred == SetFlag ==> !s.have[k])
    && (pred == NotifyNext || pred == UnlockNext ==> s.have[k])
    // the product in the slot is the next one for the owner
    && s.passed[k] == s.passed[k + 1] + (if Pending(s, k) then 1 else 0)
    && (Pending(s, k) ==> s.product[k] == ValueAt(s.passed[k + 1], k, owner))
    && (pred == SetFlag ==> s.product[k] == s.passed[k] + 10 * k)
  }

  predicate PcsOk(n: nat, s: Sys) {
    Shape(n, s) && forall t :: 0 <= t <= n ==> PcOk(n, s.pc[t], t)
  }

  predicate FeederInv(n: nat, total: nat, s: Sys) {
    && Shape(n, s)
    && s.passed[0] == s.i + (if s.pc[0] == NotifyNext || s.pc[0] == UnlockNext then 1 else 0)
    && (if s.pc[0] == Finished then s.i == total else s.i < total)
  }

  predicate PrinterInv(n: nat, s: Sys) {
    Shape(n, s) && s.printed == Products(n, s.passed[n])
  }

  predicate Inv(n: nat, total: nat, s: Sys) {
    && PcsOk(n, s) && FeederInv(n, total, s) && PrinterInv(n, s)
    && forall k :: 0 <= k < n ==> StageInv(n, s, k)
  }

  /** The first `m` products as the final stage should see them. */
  function Products(n: nat, m: nat): (r: seq<int>)
    requires n >= 1
    ensures |r| == m && forall j :: 0 <= j < m ==> r[j] == j + 10 * (n - 1)
  {
    seq(m, j => j + 10 * (n - 1))
  }

  lemma InitInv(n: nat, total: nat, s: Sys)
    requires Init(n, total, s)
    ensures Inv(n, total, s)
  {
  }

  // A step of thread t bears on stage k in one of three ways.

  lemma OwnerStep(n: nat, total: nat, s: Sys, t: nat, w: nat, s': Sys, k: nat)
    requires Step(n, total, s, t, w, s') && k < n && t == k + 1
    requires StageInv(n, s, k) && PcOk(n, s.pc[t], t)
    ensures Shape(n, s') && StageInv(n, s', k)
  {
    hide StageInv, Next;
    if s.pc[t] == NotifyOwn || s.pc[t] == Clear {
      OwnerClears(n, total, s, t, w, s', k);
    } else if Worked(s.pc[t]) || HandedOver(s.pc[t]) {
      OwnerPasses(n, total, s, t, w, s', k);
    } else {
      OwnerTakes(n, total, s, t, w, s', k);
    }
  }

  lemma OwnerTakes(n: nat, total: nat, s: Sys, t: nat, w: nat, s': Sys, k: nat)
    requires Step(n, total, s, t, w, s') && k < n && t == k + 1 && StageInv(n, s, k)
    requires s.pc[t] == LockOwn || s.pc[t] == WokenOwn || s.pc[t] == TestOwn || s.pc[t] == Work
    ensures Shape(n, s') && StageInv(n, s', k)
  {
    hide StageInv, Next;
    if s.pc[t] == Work {
      OwnerWorks(n, total, s, t, w, s', k);
    } else {
      OwnerEnters(n, total, s, t, w, s', k);
    }
  }

  lemma OwnerEnters(n: nat, total: nat, s: Sys, t: nat, w: nat, s': Sys, k: nat)
    requires Step(n, total, s, t, w, s') && k < n && t == k + 1 && StageInv(n, s, k)
    requires s.pc[t] == LockOwn || s.pc[t] == WokenOwn || s.pc[t] == TestOwn
    ensures Shape(n, s') && StageInv(n, s', k)
  {
  }

  lemma OwnerWorks(n: nat, total: nat, s: Sys, t: nat, w: nat, s': Sys, k: nat)
    requires Step(n, total, s, t, w, s') && k < n && t == k + 1 && StageInv(n, s, k) && s.pc[t] == Work
    ensures Shape(n, s') && StageInv(n, s', k)
  {
  }

  lemma OwnerPasses(n: nat, total: nat, s: Sys, t: nat, w: nat, s': Sys, k: nat)
    requires Step(n, total, s, t, w, s') && k < n && t == k + 1 && StageInv(n, s, k)
    requires (Worked(s.pc[t]) || HandedOver(s.pc[t])) && s.pc[t] != Clear
    ensures Shape(n, s') && StageInv(n, s', k)
  {
    assert Shape(n, s) && t <= n;
    hide Step, Next, Enabled, StageInv;
    PassingFrame(n, total, s, t, w, s', k);
    PassingKeeps(n, s, s', k);
  }

  lemma PassingKeeps(n: nat, s: Sys, s': Sys, k: nat)
    requires Shape(n, s) && Shape(n, s') && k < n && StageInv(n, s, k)
    requires s'.passed[k] == s.passed[k] && s'.pc[k] == s.pc[k]
    requires s'.have[k] == s.have[k] && s'.product[k] == s.product[k] && s'.lock[k] == s.lock[k]
    requires (Worked(s.pc[k + 1]) || HandedOver(s.pc[k + 1])) && (Worked(s'.pc[k + 1]) || HandedOver(s'.pc[k + 1]))
    requires Worked(s'.pc[k + 1]) ==> Worked(s.pc[k + 1])
    requires s'.passed[k + 1] == s.passed[k + 1] + if Worked(s.pc[k + 1]) && !Worked(s'.pc[k + 1]) then 1 else 0
    ensures StageInv(n, s', k)
  {
  }

  /** While a thread hands over, its own stage does not change. */
  lemma PassingFrame(n: nat, total: nat, s: Sys, t: nat, w: nat, s': Sys, k: nat)
    requires Step(n, total, s, t, w, s') && k < n && t == k + 1
    requires (Worked(s.pc[t]) || HandedOver(s.pc[t])) && s.pc[t] != Clear
    ensures Shape(n, s') && (s.pc[t] == SetFlag ==> s'.pc[t] == NotifyNext && s'.passed[t] == s.passed[t] + 1)
    ensures s.pc[t] != SetFlag ==> Worked(s'.pc[t]) == Worked(s.pc[t]) && HandedOver(s'.pc[t]) == HandedOver(s.pc[t])
    ensures s.pc[t] != SetFlag ==> s'.passed[t] == s.passed[t]
    ensures s'.passed[k] == s.passed[k] && s'.pc[k] == s.pc[k]
    ensures s'.have[k] == s.have[k] && s'.product[k] == s.product[k] && s'.lock[k] == s.lock[k]
  {
  }

  lemma OwnerClears(n: nat, total: nat, s: Sys, t: nat, w: nat, s': Sys, k: nat)
    requires Step(n, total, s, t, w, s') && k < n && t == k + 1 && StageInv(n, s, k)
    requires s.pc[t] == NotifyOwn || s.pc[t] == Clear
    ensures Shape(n, s') && StageInv(n, s', k)
  {
  }

  lemma PredecessorStep(n: nat, total: nat, s: Sys, t: nat, w: nat, s': Sys, k: nat)
    requires Step(n, total, s, t, w, s') && k < n && t == k
    requires StageInv(n, s, k) && PcOk(n, s.pc[t], t)
    requires s.pc[k] == Put ==> (if k == 0 then s.i else s.product[k - 1]) == s.passed[k] + 10 * k
    ensures Shape(n, s') && StageInv(n, s', k)
  {
    hide StageInv;
    if s.pc[k] == NotifyNext || s.pc[k] == SetFlag || s.pc[k] == Put {
      HandOverStep(n, total, s, t, w, s', k);
    } else if HoldsNext(s.pc[k]) || s.pc[k] == LockNext || s.pc[k] == WokenNext {
      ApproachStep(n, total, s, t, w, s', k);
    } else {
      PredecessorElsewhere(n, total, s, t, w, s', k);
    }
  }

  lemma HandOverStep(n: nat, total: nat, s: Sys, t: nat, w: nat, s': Sys, k: nat)
    requires Step(n, total, s, t, w, s') && k < n && t == k && StageInv(n, s, k)
    requires s.pc[k] == NotifyNext || s.pc[k] == SetFlag || s.pc[k] == Put
    requires s.pc[k] == Put ==> (if k == 0 then s.i else s.product[k - 1]) == s.passed[k] + 10 * k
    ensures Shape(n, s') && StageInv(n, s', k)
  {
  }

  lemma ApproachStep(n: nat, total: nat, s: Sys, t: nat, w: nat, s': Sys, k: nat)
    requires Step(n, total, s, t, w, s') && k < n && t == k && StageInv(n, s, k)
    requires s.pc[k] == LockNext || s.pc[k] == WokenNext || s.pc[k] == TestNext || s.pc[k] == UnlockNext
    ensures Shape(n, s') && StageInv(n, s', k)
  {
  }

  lemma PredecessorElsewhere(n: nat, total: nat, s: Sys, t: nat, w: nat, s': Sys, k: nat)
    requires Step(n, total, s, t, w, s') && k < n && t == k && StageInv(n, s, k)
    requires !HoldsNext(s.pc[k]) && s.pc[k] != LockNext && s.pc[k] != WokenNext
    ensures Shape(n, s') && StageInv(n, s', k)
  {
    assert t >= 1;
    assert s'.have[k] == s.have[k] && s'.product[k] == s.product[k] && s'.lock[k] == s.lock[k];
    assert s'.pc[k + 1] == s.pc[k + 1];
    assert !HoldsNext(s'.pc[k]);
  }

  predicate MaybeWoken(pc: Pc, pc': Pc) {
    pc' == pc || (pc == WaitOwn && pc' == WokenOwn) || (pc == WaitNext && pc' == WokenNext)
  }

  lemma WokenAlike(pc: Pc, pc': Pc)
    requires MaybeWoken(pc, pc')
    ensures HoldsOwn(pc') == HoldsOwn(pc) && HoldsNext(pc') == HoldsNext(pc)
    ensures HandedOver(pc') == HandedOver(pc) && Worked(pc') == Worked(pc)
  {
  }

  /** A stage whose threads are at most woken keeps its invariant. */
  lemma StageWoken(n: nat, s: Sys, s': Sys, k: nat)
    requires Shape(n, s) && Shape(n, s') && k < n && StageInv(n, s, k)
    requires MaybeWoken(s.pc[k], s'.pc[k]) && MaybeWoken(s.pc[k + 1], s'.pc[k + 1])
    requires s'.passed[k] == s.passed[k] && s'.passed[k + 1] == s.passed[k + 1]
    requires s'.have[k] == s.have[k] && s'.product[k] == s.product[k] && s'.lock[k] == s.lock[k]
    ensures StageInv(n, s', k)
  {
    hide HoldsOwn, HoldsNext, HandedOver, Worked;
    WokenAlike(s.pc[k], s'.pc[k]);
    WokenAlike(s.pc[k + 1], s'.pc[k + 1]);
  }

  /** What a step leaves alone: other threads may at most be woken, other stages do not change. */
  lemma StepFrame(n: nat, total: nat, s: Sys, t: nat, w: nat, s': Sys)
    requires Step(n, total, s, t, w, s')
    ensures t <= n && Shape(n, s')
    ensures forall u :: 0 <= u <= n && u != t ==>
              s'.passed[u] == s.passed[u] &&
              MaybeWoken(s.pc[u], s'.pc[u])
    ensures forall k :: 0 <= k < n && k != t && k + 1 != t ==>
              s'.have[k] == s.have[k] && s'.product[k] == s.product[k] && s'.lock[k] == s.lock[k]
    ensures t != 0 ==> s'.i == s.i
    ensures t != n ==> s'.printed == s.printed
  {
  }

  lemma OtherStep(n: nat, total: nat, s: Sys, t: nat, w: nat, s': Sys, k: nat)
    requires Step(n, total, s, t, w, s') && k < n && t != k && t != k + 1
    requires StageInv(n, s, k)
    ensures Shape(n, s') && StageInv(n, s', k)
  {
    assert Shape(n, s);
    hide Step, Next, StageInv, MaybeWoken;
    StepFrame(n, total, s, t, w, s');
    StageWoken(n, s, s', k);
  }

  /** What a thread is about to put into the next slot is the next product. */
  lemma PutValue(n: nat, total: nat, s: Sys, k: nat)
    requires Inv(n, total, s) && k < n && s.pc[k] == Put
    ensures (if k == 0 then s.i else s.product[k - 1]) == s.passed[k] + 10 * k
  {
    if k > 0 {
      assert StageInv(n, s, k - 1);
    }
  }

  lemma StepInv(n: nat, total: nat, s: Sys, t: nat, w: nat, s': Sys)
    requires Inv(n, total, s) && Step(n, total, s, t, w, s')
    ensures Inv(n, total, s')
  {
    hide StageInv, Step, Next, FeederInv, PrinterInv, Enabled;
    StepPcs(n, total, s, t, w, s');
    forall k | 0 <= k < n ensures StageInv(n, s', k) {
      if t == k && s.pc[k] == Put { PutValue(n, total, s, k); }
      if t == k + 1 {
        OwnerStep(n, total, s, t, w, s', k);
      } else if t == k {
        PredecessorStep(n, total, s, t, w, s', k);
      } else {
        OtherStep(n, total, s, t, w, s', k);
      }
    }
    StepFeeder(n, total, s, t, w, s');
    if s.pc[n] == Work { PrintValue(n, total, s); }
    StepPrinter(n, total, s, t, w, s');
  }

  lemma StepPcs(n: nat, total: nat, s: Sys, t: nat, w: nat, s': Sys)
    requires PcsOk(n, s) && Step(n, total, s, t, w, s')
    ensures t <= n && PcsOk(n, s')
  {
    hide Step, Next, PcOk, MaybeWoken;
    StepFrame(n, total, s, t, w, s');
    MoverPc(n, total, s, t, w, s');
    forall u | 0 <= u <= n && u != t ensures PcOk(n, s'.pc[u], u) {
      WokenPc(n, s.pc[u], s'.pc[u], u);
    }
  }

  lemma MoverPc(n: nat, total: nat, s: Sys, t: nat, w: nat, s': Sys)
    requires Step(n, total, s, t, w, s') && PcOk(n, s.pc[t], t)
    ensures t <= n && Shape(n, s') && PcOk(n, s'.pc[t], t)
  {
  }

  lemma WokenPc(n: nat, pc: Pc, pc': Pc, u: nat)
    requires PcOk(n, pc, u)
    requires MaybeWoken(pc, pc')
    ensures PcOk(n, pc', u)
  {
  }

  lemma StepFeeder(n: nat, total: nat, s: Sys, t: nat, w: nat, s': Sys)
    requires FeederInv(n, total, s) && PcsOk(n, s) && Step(n, total, s, t, w, s')
    ensures FeederInv(n, total, s')
  {
    StepFrame(n, total, s, t, w, s');
    if t == 0 {
      assert PcOk(n, s.pc[0], 0);
    } else {
      hide Step, Next;
    }
  }

  lemma StepPrinter(n: nat, total: nat, s: Sys, t: nat, w: nat, s': Sys)
    requires PrinterInv(n, s) && PcsOk(n, s) && Step(n, total, s, t, w, s')
    requires s.pc[n] == Work ==> s.product[n - 1] == s.passed[n] + 10 * (n - 1)
    ensures PrinterInv(n, s')
  {
    hide Step, Next, Products;
    StepFrame(n, total, s, t, w, s');
    if t == n {
      assert PcOk(n, s.pc[n], n);
      PrinterMoves(n, total, s, w, s');
      OneMoreProduct(n, s.passed[n]);
    }
  }

  /** The final stage prints when it works, and passes one product then. */
  lemma PrinterMoves(n: nat, total: nat, s: Sys, w: nat, s': Sys)
    requires Step(n, total, s, n, w, s') && PcOk(n, s.pc[n], n)
    ensures Shape(n, s')
    ensures s'.passed[n] == s.passed[n] + if s.pc[n] == Work then 1 else 0
    ensures s'.printed == s.printed + if s.pc[n] == Work then [s.product[n - 1]] else []
  {
  }

  lemma OneMoreProduct(n: nat, m: nat)
    requires n >= 1
    ensures Products(n, m + 1) == Products(n, m) + [m + 10 * (n - 1)]
  {
  }

  lemma PrintValue(n: nat, total: nat, s: Sys)
    requires Inv(n, total, s) && s.pc[n] == Work
    ensures s.product[n - 1] == s.passed[n] + 10 * (n - 1)
  {
    assert StageInv(n, s, n - 1);
  }

  lemma SpuriousStage(n: nat, s: Sys, t: nat, s': Sys, k: nat)
    requires Spurious(n, s, t, s') && k < n && StageInv(n, s, k)
    ensures Shape(n, s') && StageInv(n, s', k)
  {
    hide StageInv;
    StageWoken(n, s, s', k);
  }

  lemma SpuriousInv(n: nat, total: nat, s: Sys, t: nat, s': Sys)
    requires Inv(n, total, s) && Spurious(n, s, t, s')
    ensures Inv(n, total, s')
  {
    hide StageInv;
    forall k | 0 <= k < n ensures Shape(n, s') && StageInv(n, s', k) { SpuriousStage(n, s, t, s', k); }
  }

  // ----- runs -----

  datatype Move = Turn(t: nat, w: nat) | Wakeup(t: nat)

  predicate Moves(n: nat, total: nat, s: Sys, m: Move, s': Sys) {
    match m
    case Turn(t, w) => Step(n, total, s, t, w, s')
    case Wakeup(t) => Spurious(n, s, t, s')
  }

  /** The moves `ms` lead from `s` to `s'`. */
  ghost predicate Run(n: nat, total: nat, s: Sys, ms: seq<Move>, s': Sys)
    decreases |ms|
  {
    if ms == [] then s == s'
    else
      var before, last := ms[..|ms| - 1], ms[|ms| - 1];
      exists mid :: Run(n, total, s, before, mid) && Moves(n, total, mid, last, s')
  }

  lemma {:induction false} RunInv(n: nat, total: nat, s: Sys, ms: seq<Move>, s': Sys)
    requires Init(n, total, s) && Run(n, total, s, ms, s')
    ensures Inv(n, total, s')
    decreases |ms|
  {
    hide Inv, Step, Spurious, Init;
    if ms == [] {
      InitInv(n, total, s);
    } else {
      var before, last := ms[..|ms| - 1], ms[|ms| - 1];
      var mid :| Run(n, total, s, before, mid) && Moves(n, total, mid, last, s');
      RunInv(n, total, s, ms[..|ms| - 1], mid);
      match ms[|ms| - 1]
      case Turn(t, w) => StepInv(n, total, mid, t, w, s');
      case Wakeup(t) => SpuriousInv(n, total, mid, t, s');
    }
  }

  // ----- no product is lost, doubled or overtaken -----

  /** How many products the feeder has handed over. */
  function Fed(s: Sys): nat
    requires s.pc != []
  {
    s.i + if s.pc[0] == NotifyNext || s.pc[0] == UnlockNext then 1 else 0
  }

  /** The product of stage `k` as it will be printed: ten more for each stage still to work on it. */
  function Due(n: nat, s: Sys, k: nat): int
    requires Shape(n, s) && k < n
  {
    s.product[k] + 10 * (n - 1 - k) - if Worked(s.pc[k + 1]) then 10 else 0
  }

  /** The products in stages `k` and later that are not handed over, oldest first. */
  function InFlight(n: nat, s: Sys, k: nat): seq<int>
    requires Shape(n, s) && k <= n
    decreases n - k
  {
    if k == n then [] else InFlight(n, s, k + 1) + if Pending(s, k) then [Due(n, s, k)] else []
  }

  lemma {:induction false} FlightFrom(n: nat, total: nat, s: Sys, k: nat)
    requires Inv(n, total, s) && k <= n
    ensures s.printed + InFlight(n, s, k) == Products(n, s.passed[k])
    decreases n - k
  {
    assert Shape(n, s);
    hide Inv, StageInv, Products, Pending, Due;
    if k < n {
      FlightFrom(n, total, s, k + 1);
      StageFlight(n, total, s, k);
      var due := if Pending(s, k) then [Due(n, s, k)] else [];
      assert s.printed + InFlight(n, s, k) == (s.printed + InFlight(n, s, k + 1)) + due;
    } else {
      PrintedAll(n, total, s);
      assert s.printed + InFlight(n, s, k) == s.printed;
    }
  }

  lemma PrintedAll(n: nat, total: nat, s: Sys)
    requires Inv(n, total, s)
    ensures s.printed == Products(n, s.passed[n])
  {
  }

  /** What stage `k` holds is the next product behind those of the later stages. */
  lemma StageFlight(n: nat, total: nat, s: Sys, k: nat)
    requires Inv(n, total, s) && k < n
    ensures Products(n, s.passed[k]) ==
            Products(n, s.passed[k + 1]) + if Pending(s, k) then [Due(n, s, k)] else []
  {
    assert StageInv(n, s, k);
    if Pending(s, k) {
      assert Due(n, s, k) == s.passed[k + 1] + 10 * (n - 1);
    }
  }

  /**
    In every state of every run: what is printed, followed by what is in flight, is exactly the
    products fed so far, in order and each raised by ten per stage before the last.
   */
  lemma ExactlyOnceInOrder(n: nat, total: nat, s: Sys, ms: seq<Move>, s': Sys)
    requires Init(n, total, s) && Run(n, total, s, ms, s')
    ensures Shape(n, s') && s'.printed + InFlight(n, s', 0) == Products(n, Fed(s'))
  {
    RunInv(n, total, s, ms, s');
    FlightFrom(n, total, s', 0);
  }

  // ----- no deadlock -----

  /** Owner and predecessor never both wait unsignalled on one monitor, so waking one is enough. */
  lemma OneWaiter(n: nat, total: nat, s: Sys, k: nat)
    requires Inv(n, total, s) && k < n
    ensures !(WaitsOn(s, k, k) && WaitsOn(s, k, k + 1))
  {
    assert StageInv(n, s, k);
  }

  predicate Stuck(n: nat, s: Sys)
    requires Shape(n, s)
  {
    forall t :: 0 <= t <= n ==> !Enabled(n, s, t)
  }

  /** In a stuck state every thread from `t` on waits for work that is not there. */
  lemma {:induction false} StuckThreadsWait(n: nat, total: nat, s: Sys, t: nat)
    requires Inv(n, total, s) && Stuck(n, s) && 1 <= t <= n
    ensures s.pc[t] == WaitOwn && !s.have[t - 1] && s.lock[t - 1] == FREE
    decreases n - t
  {
    hide StageInv, Enabled;
    if t < n {
      StuckThreadsWait(n, total, s, t + 1);
    }
    StuckThreadWaits(n, s, t);
  }

  lemma StuckThreadWaits(n: nat, s: Sys, t: nat)
    requires Shape(n, s) && 1 <= t <= n && !Enabled(n, s, t) && !Enabled(n, s, t - 1)
    requires StageInv(n, s, t - 1) && PcOk(n, s.pc[t], t) && PcOk(n, s.pc[t - 1], t - 1)
    requires t < n ==> StageInv(n, s, t) && s.pc[t + 1] == WaitOwn && !s.have[t] && s.lock[t] == FREE
    ensures s.pc[t] == WaitOwn && !s.have[t - 1] && s.lock[t - 1] == FREE
  {
  }

  lemma {:induction false} NothingInFlight(n: nat, s: Sys, k: nat)
    requires Shape(n, s) && k <= n && forall j :: 0 <= j < n ==> !s.have[j]
    ensures InFlight(n, s, k) == []
    decreases n - k
  {
    if k < n {
      NothingInFlight(n, s, k + 1);
    }
  }

  /** A reachable state in which no thread can move is one where every product has been printed. */
  lemma StuckMeansDone(n: nat, total: nat, s: Sys, ms: seq<Move>, s': Sys)
    requires Init(n, total, s) && Run(n, total, s, ms, s') && Shape(n, s') && Stuck(n, s')
    ensures s'.pc[0] == Finished && s'.printed == Products(n, total)
  {
    hide Init, Run;
    RunInv(n, total, s, ms, s');
    forall j | 0 <= j < n ensures !s'.have[j] { StuckThreadsWait(n, total, s', j + 1); }
    StuckThreadsWait(n, total, s', 1);
    assert StageInv(n, s', 0) && PcOk(n, s'.pc[0], 0) && !Enabled(n, s', 0);
    NothingInFlight(n, s', 0);
    ExactlyOnceInOrder(n, total, s, ms, s');
  }

  lemma EnabledMoves(n: nat, total: nat, s: Sys, t: nat)
    requires Shape(n, s) && Enabled(n, s, t)
    ensures exists w, s' :: Step(n, total, s, t, w, s')
  {
    var k := if s.pc[t] == NotifyOwn then t - 1 else t;
    var w := if WaitsOn(s, k, k) then k else k + 1;
    assert Step(n, total, s, t, w, Next(n, total, s, t, w));
  }

  /** Until everything has been printed, some thread can take a step in every state of every run. */
  lemma UnfinishedMoves(n: nat, total: nat, s: Sys, ms: seq<Move>, s': Sys)
    requires Init(n, total, s) && Run(n, total, s, ms, s') && s'.printed != Products(n, total)
    ensures exists t, w, next :: Step(n, total, s', t, w, next)
  {
    hide Init, Run, Step, Enabled;
    RunInv(n, total, s, ms, s');
    if Stuck(n, s') {
      StuckMeansDone(n, total, s, ms, s');
    } else {
      var t: nat :| t <= n && Enabled(n, s', t);
      EnabledMoves(n, total, s', t);
    }
  }

  // ----- every run delivers -----

  /** How far a thread is from its next hand-over, given its own flag and the flag it fills. */
  function Distance(pc: Pc, own: bool, next: bool): nat {
    match pc
    case NotifyNext => 25
    case UnlockNext => 24
    case Clear => 23
    case NotifyOwn => 22
    case LockOwn => 20
    case WokenOwn => if own then 15 else 19
    case TestOwn => if own then 14 else 18
    case WaitOwn => if own then 16 else 17
    case Work => 13
    case LockNext => 12
    case WokenNext => if next then 11 else 7
    case TestNext => if next then 10 else 6
    case WaitNext => if next then 9 else 8
    case Put => 5
    case SetFlag => 4
    case Finished => 0
  }

  function ThreadRank(n: nat, total: nat, s: Sys, t: nat): int
    requires Shape(n, s) && t <= n
  {
    30 * (total - s.passed[t]) + Distance(s.pc[t], t >= 1 && s.have[t - 1], t < n && s.have[t])
  }

  /** The distance of threads `t` and later. */
  function Rank(n: nat, total: nat, s: Sys, t: nat): int
    requires Shape(n, s) && t <= n + 1
    decreases n + 1 - t
  {
    if t == n + 1 then 0 else ThreadRank(n, total, s, t) + Rank(n, total, s, t + 1)
  }

  lemma MoverRank(n: nat, total: nat, s: Sys, t: nat, w: nat, s': Sys)
    requires Step(n, total, s, t, w, s')
    ensures t <= n && Shape(n, s') && ThreadRank(n, total, s', t) < ThreadRank(n, total, s, t)
  {
  }

  /** Raising the own flag or lowering the next one brings a thread closer. */
  lemma DistanceMonotone(pc: Pc, own: bool, next: bool, own': bool, next': bool)
    requires (own ==> own') && (next' ==> next)
    ensures Distance(pc, own', next') <= Distance(pc, own, next)
  {
  }

  /** What the owner of stage `t` sees of a step of its predecessor: its flag rises, or it is woken to work. */
  lemma SuccessorSees(n: nat, total: nat, s: Sys, t: nat, w: nat, s': Sys)
    requires Step(n, total, s, t, w, s') && t < n && (s.pc[t] == NotifyNext ==> s.have[t])
    ensures Shape(n, s') && s'.passed[t + 1] == s.passed[t + 1] && (t + 1 < n ==> s'.have[t + 1] == s.have[t + 1])
    ensures s.have[t] ==> s'.have[t]
    ensures s'.pc[t + 1] == s.pc[t + 1] || (s.pc[t + 1] == WaitOwn && s'.pc[t + 1] == WokenOwn && s.have[t])
  {
  }

  lemma SuccessorRank(n: nat, total: nat, s: Sys, t: nat, w: nat, s': Sys)
    requires Step(n, total, s, t, w, s') && t < n && (s.pc[t] == NotifyNext ==> s.have[t])
    ensures Shape(n, s') && ThreadRank(n, total, s', t + 1) <= ThreadRank(n, total, s, t + 1)
  {
    SuccessorSees(n, total, s, t, w, s');
    hide Step, Next;
    var next := t + 1 < n && s.have[t + 1];
    DistanceMonotone(s.pc[t + 1], s.have[t], next, s'.have[t], next);
  }

  /** What thread `t - 1` sees of a step of the stage it fills: the flag falls, or it is woken to fill it. */
  lemma PredecessorSees(n: nat, total: nat, s: Sys, t: nat, w: nat, s': Sys)
    requires Step(n, total, s, t, w, s') && t >= 1 && (s.pc[t] == NotifyOwn ==> !s.have[t - 1])
    ensures Shape(n, s') && s'.passed[t - 1] == s.passed[t - 1] && (t >= 2 ==> s'.have[t - 2] == s.have[t - 2])
    ensures s'.have[t - 1] ==> s.have[t - 1]
    ensures s'.pc[t - 1] == s.pc[t - 1] || (s.pc[t - 1] == WaitNext && s'.pc[t - 1] == WokenNext && !s.have[t - 1])
  {
  }

  lemma PredecessorRank(n: nat, total: nat, s: Sys, t: nat, w: nat, s': Sys)
    requires Step(n, total, s, t, w, s') && t >= 1 && (s.pc[t] == NotifyOwn ==> !s.have[t - 1])
    ensures Shape(n, s') && ThreadRank(n, total, s', t - 1) <= ThreadRank(n, total, s, t - 1)
  {
    PredecessorSees(n, total, s, t, w, s');
    hide Step, Next;
    var own := t >= 2 && s.have[t - 2];
    DistanceMonotone(s.pc[t - 1], own, s.have[t - 1], own, s'.have[t - 1]);
  }

  lemma FarRank(n: nat, total: nat, s: Sys, t: nat, w: nat, s': Sys, u: nat)
    requires Step(n, total, s, t, w, s') && u <= n && u != t && u != t + 1 && u + 1 != t
    ensures Shape(n, s') && ThreadRank(n, total, s', u) == ThreadRank(n, total, s, u)
  {
    assert s'.pc[u] == s.pc[u];
    assert u >= 1 ==> s'.have[u - 1] == s.have[u - 1];
    assert u < n ==> s'.have[u] == s.have[u];
  }

  /** A notify is sent when the flag is what the thread on the other side waits for. */
  lemma NotifiesTruly(n: nat, total: nat, s: Sys, t: nat)
    requires Inv(n, total, s) && t <= n
    ensures t < n && s.pc[t] == NotifyNext ==> s.have[t]
    ensures t >= 1 && s.pc[t] == NotifyOwn ==> !s.have[t - 1]
  {
    assert t < n ==> StageInv(n, s, t);
    assert t >= 1 ==> StageInv(n, s, t - 1);
  }

  /** Every step of a thread brings the system closer to the end. */
  lemma {:induction false} StepRank(n: nat, total: nat, s: Sys, t: nat, w: nat, s': Sys, u: nat)
    requires Inv(n, total, s) && Step(n, total, s, t, w, s') && u <= n + 1
    ensures Shape(n, s') && Rank(n, total, s', u) <= Rank(n, total, s, u)
    ensures u <= t ==> Rank(n, total, s', u) < Rank(n, total, s, u)
    decreases n + 1 - u
  {
    hide Step, ThreadRank, Next, StageInv, Enabled;
    MoverRank(n, total, s, t, w, s');
    if u <= n {
      StepRank(n, total, s, t, w, s', u + 1);
      if u == t + 1 {
        NotifiesTruly(n, total, s, t);
        SuccessorRank(n, total, s, t, w, s');
      } else if u + 1 == t {
        NotifiesTruly(n, total, s, t);
        PredecessorRank(n, total, s, t, w, s');
      } else if u != t {
        FarRank(n, total, s, t, w, s', u);
      }
    }
  }

  /** A spurious wakeup costs at most two. */
  lemma {:induction false} SpuriousRank(n: nat, total: nat, s: Sys, t: nat, s': Sys, u: nat)
    requires Spurious(n, s, t, s') && u <= n + 1
    ensures Shape(n, s') && Rank(n, total, s', u) <= Rank(n, total, s, u) + if u <= t then 2 else 0
    decreases n + 1 - u
  {
    if u <= n {
      SpuriousRank(n, total, s, t, s', u + 1);
    }
  }

  lemma {:induction false} PassedBound(n: nat, total: nat, s: Sys, t: nat)
    requires Inv(n, total, s) && t <= n
    ensures s.passed[t] <= total
  {
    if t > 0 {
      PassedBound(n, total, s, t - 1);
      assert StageInv(n, s, t - 1);
    }
  }

  lemma {:induction false} RankIsNat(n: nat, total: nat, s: Sys, t: nat)
    requires Inv(n, total, s) && t <= n + 1
    ensures 0 <= Rank(n, total, s, t)
    decreases n + 1 - t
  {
    if t <= n {
      PassedBound(n, total, s, t);
      RankIsNat(n, total, s, t + 1);
    }
  }

  lemma {:induction false} InitialRank(n: nat, total: nat, s: Sys, t: nat)
    requires Init(n, total, s) && t <= n + 1
    ensures Rank(n, total, s, t) <= (n + 1 - t) * (30 * total + 20)
    decreases n + 1 - t
  {
    if t <= n {
      InitialRank(n, total, s, t + 1);
      assert ThreadRank(n, total, s, t) <= 30 * total + 20;
      assert (n + 1 - t) * (30 * total + 20) == (n + 1 - (t + 1)) * (30 * total + 20) + (30 * total + 20);
    }
  }

  function Wakeups(ms: seq<Move>): nat
    decreases |ms|
  {
    if ms == [] then 0 else Wakeups(ms[..|ms| - 1]) + if ms[|ms| - 1].Wakeup? then 1 else 0
  }

  lemma {:induction false} RunRank(n: nat, total: nat, s: Sys, ms: seq<Move>, s': Sys)
    requires Init(n, total, s) && Run(n, total, s, ms, s')
    ensures Shape(n, s') && |ms| + Rank(n, total, s', 0) <= Rank(n, total, s, 0) + 3 * Wakeups(ms)
    decreases |ms|
  {
    assert Shape(n, s);
    hide Inv, Step, Spurious, Rank, Init;
    if ms != [] {
      var before, last := ms[..|ms| - 1], ms[|ms| - 1];
      var mid :| Run(n, total, s, before, mid) && Moves(n, total, mid, last, s');
      RunRank(n, total, s, ms[..|ms| - 1], mid);
      RunInv(n, total, s, ms[..|ms| - 1], mid);
      match ms[|ms| - 1]
      case Turn(t, w) => StepRank(n, total, mid, t, w, s', 0);
      case Wakeup(t) => SpuriousRank(n, total, mid, t, s', 0);
    }
  }

  /**
    No schedule can go on for ever: a run is no longer than a bound in stages, products and
    spurious wakeups, and by StuckMeansDone it can only end once everything has been printed.
    Fairness is not needed.
   */
  lemma EveryRunEnds(n: nat, total: nat, s: Sys, ms: seq<Move>, s': Sys)
    requires Init(n, total, s) && Run(n, total, s, ms, s')
    ensures |ms| <= (n + 1) * (30 * total + 20) + 3 * Wakeups(ms)
  {
    hide Init, Run, Inv, Rank, Wakeups;
    RunRank(n, total, s, ms, s');
    RunInv(n, total, s, ms, s');
    RankIsNat(n, total, s', 0);
    InitialRank(n, total, s, 0);
  }

  // ----- the flag that the program does not initialise -----

  /** The start as the program arranges it: the flags of all stages but the last are lowered. */
  predicate ProgramStart(n: nat, total: nat, s: Sys) {
    && Shape(n, s)
    && s.pc[0] == (if total == 0 then Finished else LockNext)
    && (forall t :: 1 <= t <= n ==> s.pc[t] == LockOwn)
    && (forall k :: 0 <= k < n ==> s.lock[k] == FREE)
    && (forall k :: 0 <= k < n - 1 ==> !s.have[k])
    && (forall t :: 0 <= t <= n ==> s.passed[t] == 0)
    && s.i == 0 && s.printed == []
  }

  /** The start of the program is that of the proofs except that the flag of the last stage may be up or down. */
  lemma LastFlagIsFree(n: nat, total: nat, s: Sys, up: bool)
    requires Shape(n, s)
    ensures ProgramStart(n, total, s.(have := s.have[n - 1 := up])) <==>
            Init(n, total, s.(have := s.have[n - 1 := false]))
  {
    var a, b := s.have[n - 1 := up], s.have[n - 1 := false];
    assert forall k :: 0 <= k < n - 1 ==> a[k] == b[k];
  }

  ghost predicate DeliversInOrder(n: nat, total: nat, s: Sys) {
    forall ms, s' :: Run(n, total, s, ms, s') ==>
      Shape(n, s') && s'.printed + InFlight(n, s', 0) == Products(n, Fed(s'))
  }

  /** With that flag up the final stage prints before anything was fed. */
  lemma StrayPrint(n: nat, total: nat, s: Sys) returns (ms: seq<Move>, s': Sys)
    requires ProgramStart(n, total, s) && s.have[n - 1]
    ensures Run(n, total, s, ms, s') && Shape(n, s') && s'.printed == [s.product[n - 1]] && Fed(s') == 0
  {
    assert Shape(n, s);
    hide Run, ProgramStart, Step, Next;
    var s1 := s.(pc := s.pc[n := TestOwn], lock := s.lock[n - 1 := n]);
    var s2 := s1.(pc := s.pc[n := Work]);
    s' := s2.(pc := s.pc[n := Clear], printed := [s.product[n - 1]], passed := s.passed[n := 1]);
    var m := Turn(n, 0);
    ms := [] + [m] + [m] + [m];
    StraySteps(n, total, s, s1, s2, s');
    RunNowhere(n, total, s);
    RunOneMore(n, total, s, [], s, m, s1);
    RunOneMore(n, total, s, [] + [m], s1, m, s2);
    RunOneMore(n, total, s, [] + [m] + [m], s2, m, s');
  }

  /** The final stage takes its lock, finds its flag up and prints. */
  lemma StraySteps(n: nat, total: nat, s: Sys, s1: Sys, s2: Sys, s': Sys)
    requires ProgramStart(n, total, s) && s.have[n - 1]
    requires s1 == s.(pc := s.pc[n := TestOwn], lock := s.lock[n - 1 := n]) && s2 == s1.(pc := s.pc[n := Work])
    requires s' == s2.(pc := s.pc[n := Clear], printed := [s.product[n - 1]], passed := s.passed[n := 1])
    ensures Step(n, total, s, n, 0, s1) && Step(n, total, s1, n, 0, s2) && Step(n, total, s2, n, 0, s')
    ensures Shape(n, s') && Fed(s') == 0
  {
    assert s1.pc[n := Work] == s.pc[n := Work] && s2.pc[n := Clear] == s.pc[n := Clear];
    assert s2.printed + [s.product[n - 1]] == [s.product[n - 1]];
  }

  lemma RunNowhere(n: nat, total: nat, s: Sys)
    ensures Run(n, total, s, [], s)
  {
  }

  lemma RunOneMore(n: nat, total: nat, s: Sys, ms: seq<Move>, mid: Sys, m: Move, s': Sys)
    requires Run(n, total, s, ms, mid) && Moves(n, total, mid, m, s')
    ensures Run(n, total, s, ms + [m], s')
  {
    hide Moves;
    assert (ms + [m])[..|ms|] == ms;
  }

  /** Delivery is right in all runs exactly when that flag happens to start lowered. */
  lemma DeliveryNeedsTheLastFlag(n: nat, total: nat, s: Sys)
    requires ProgramStart(n, total, s)
    ensures DeliversInOrder(n, total, s) <==> !s.have[n - 1]
  {
    if s.have[n - 1] {
      var ms, s' := StrayPrint(n, total, s);
      assert |s'.printed + InFlight(n, s', 0)| > 0;
    } else {
      forall ms, s' | Run(n, total, s, ms, s')
        ensures Shape(n, s') && s'.printed + InFlight(n, s', 0) == Products(n, Fed(s'))
      {
        ExactlyOnceInOrder(n, total, s, ms, s');
      }
    }
  }
}
