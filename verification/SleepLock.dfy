/**
  One sleep lock shared by all processes, as a state machine at the grain of lock operations:
  acquiresleep and releasesleep with the sleep and wakeup they call, the scheduler, kill,
  preemption, and sleeping on other channels. A section that holds only another process's p->lock
  is one step, taken while that lock is free.
 */
module SleepLock {

  const NPROC := 64
  const NONE := NPROC   // nobody

  datatype PState = Running | Runnable | Sleeping

  datatype Chan = NoChan | ThisLock | OtherChan

  /** Where a process is. */
  datatype Pc =
    | Out                  // outside, without the sleep lock
    | Want                 // before acquire(&lk->lk), on entry or when woken up
    | Check                // holds lk->lk, at the loop's test
    | Sleep1               // in sleep: before acquire(&p->lock)
    | Sleep2               // before release(lk)
    | Sleep3               // before p->chan = chan
    | Sleep4               // before p->state = SLEEPING
    | Sleep5               // before sched()
    | Asleep               // switched away
    | Back1                // sched() has returned, before p->chan = 0
    | Back2                // before release(&p->lock)
    | Take                 // saw locked == 0
    | Took                 // locked and pid set, before release(&lk->lk)
    | Holder               // has the sleep lock
    | Give                 // before acquire(&lk->lk) in releasesleep
    | Clear                // holds lk->lk, before locked = 0
    | Wakeup(i: nat)       // in wakeup's loop, at process i

  datatype State = State(pc: seq<Pc>, st: seq<PState>, chan: seq<Chan>, plock: seq<bool>,
                         inner: nat,    // who holds lk->lk
                         locked: bool, pid: nat)

  datatype Step =
    | Advance(p: nat)      // the process's own next step
    | Dispatch(p: nat)     // the scheduler picks it
    | Kill(p: nat)         // kkill's effect on a sleeper
    | Preempt(p: nat)
    | SleepElsewhere(p: nat)
    | WakeElsewhere(p: nat)

  ghost predicate Shape(s: State) {
    && |s.pc| == NPROC && |s.st| == NPROC && |s.chan| == NPROC && |s.plock| == NPROC
    && s.inner <= NPROC && s.pid <= NPROC
  }

  predicate HasInner(pc: Pc) {
    pc.Check? || pc.Sleep1? || pc.Sleep2? || pc.Take? || pc.Took? || pc.Clear? || pc.Wakeup?
  }

  predicate HasOwnLock(pc: Pc) {
    pc.Sleep2? || pc.Sleep3? || pc.Sleep4? || pc.Sleep5? || pc.Back1? || pc.Back2?
  }

  predicate HasSleepLock(pc: Pc) {
    pc.Took? || pc.Holder? || pc.Give? || pc.Clear?
  }

  predicate Interruptible(pc: Pc) {
    pc.Out? || pc.Want? || pc.Holder? || pc.Give?
  }

  /** When a process can take its own next step. */
  ghost predicate CanAdvance(s: State, p: nat)
    requires Shape(s) && p < NPROC
  {
    match s.pc[p]
    case Want => s.st[p].Running? && s.inner == NONE
    case Give => s.st[p].Running? && s.inner == NONE
    case Sleep1 => s.st[p].Running? && !s.plock[p]
    case Sleep5 => true
    case Asleep => false
    case Wakeup(i) => s.st[p].Running? && (i < NPROC && i != p ==> !s.plock[i])
    case _ => s.st[p].Running?
  }

  ghost predicate Enabled(s: State, step: Step)
    requires Shape(s)
  {
    match step
    case Advance(p) => p < NPROC && CanAdvance(s, p)
    case Dispatch(p) => p < NPROC && s.st[p].Runnable? && !s.plock[p]
    case Kill(p) => p < NPROC && s.st[p].Sleeping? && !s.plock[p]
    case Preempt(p) => p < NPROC && s.st[p].Running? && Interruptible(s.pc[p])
    case SleepElsewhere(p) => p < NPROC && s.st[p].Running? && (s.pc[p].Out? || s.pc[p].Holder?)
    case WakeElsewhere(p) => p < NPROC && s.st[p].Sleeping? && s.chan[p].OtherChan?
  }

  ghost function At(s: State, p: nat, pc: Pc): State
    requires Shape(s) && p < NPROC
  {
    s.(pc := s.pc[p := pc])
  }

  /** The process's own next step. */
  ghost function Advanced(s: State, p: nat): State
    requires Shape(s) && p < NPROC && CanAdvance(s, p)
  {
    match s.pc[p]
    case Out => At(s, p, Want)
    case Want => At(s, p, Check).(inner := p)
    case Check => At(s, p, if s.locked then Sleep1 else Take)
    case Sleep1 => At(s, p, Sleep2).(plock := s.plock[p := true])
    case Sleep2 => At(s, p, Sleep3).(inner := NONE)
    case Sleep3 => At(s, p, Sleep4).(chan := s.chan[p := ThisLock])
    case Sleep4 => At(s, p, Sleep5).(st := s.st[p := Sleeping])
    case Sleep5 => At(s, p, Asleep).(plock := s.plock[p := false])
    case Asleep => s
    case Back1 => At(s, p, Back2).(chan := s.chan[p := NoChan])
    case Back2 => At(s, p, Want).(plock := s.plock[p := false])
    case Take => At(s, p, Took).(locked := true, pid := p)
    case Took => At(s, p, Holder).(inner := NONE)
    case Holder => At(s, p, Give)
    case Give => At(s, p, Clear).(inner := p)
    case Clear => At(s, p, Wakeup(0)).(locked := false, pid := NONE)
    case Wakeup(i) =>
      if i >= NPROC then At(s, p, Out).(inner := NONE)
      else if i != p && s.st[i].Sleeping? && s.chan[i].ThisLock? then At(s, p, Wakeup(i + 1)).(st := s.st[i := Runnable])
      else At(s, p, Wakeup(i + 1))
  }

  ghost function Do(s: State, step: Step): State
    requires Shape(s) && Enabled(s, step)
  {
    match step
    case Advance(p) => Advanced(s, p)
    case Dispatch(p) =>
      if s.pc[p].Asleep? then At(s, p, Back1).(st := s.st[p := Running], plock := s.plock[p := true])
      else s.(st := s.st[p := Running], chan := s.chan[p := NoChan])
    case Kill(p) => s.(st := s.st[p := Runnable])
    case Preempt(p) => s.(st := s.st[p := Runnable])
    case SleepElsewhere(p) => s.(st := s.st[p := Sleeping], chan := s.chan[p := OtherChan])
    case WakeElsewhere(p) => s.(st := s.st[p := Runnable])
  }

  // ------------------------------------------------------------------ invariant

  /** Sleeping on the lock, or past release(lk) on the way to it. */
  predicate Waiting(pc: Pc, st: PState) {
    pc.Sleep3? || pc.Sleep4? || pc.Sleep5? || (pc.Asleep? && st.Sleeping?)
  }

  /** What is known of process `p`. */
  ghost predicate ProcOk(s: State, p: nat)
    requires Shape(s) && p < NPROC
  {
    var pc, st := s.pc[p], s.st[p];
    && (s.plock[p] <==> HasOwnLock(pc))
    && (s.inner == p <==> HasInner(pc))
    && (s.pid == p <==> HasSleepLock(pc))
    && (!Interruptible(pc) && !pc.Sleep5? && !pc.Asleep? ==> st.Running?)
    && (pc.Sleep5? ==> st.Sleeping?)
    && (pc.Asleep? ==> !st.Running?)
    && (s.chan[p].ThisLock? <==> pc.Sleep4? || pc.Sleep5? || pc.Asleep? || pc.Back1?)
    && (pc.Sleep1? || pc.Sleep2? ==> s.locked)
    && (pc.Take? || pc.Wakeup? ==> !s.locked)
    && (st.Sleeping? ==> !s.chan[p].NoChan?)
    && (s.chan[p].OtherChan? ==> (pc.Out? || pc.Holder?) && !st.Running?)
    && (Waiting(pc, st) && !s.locked ==> Coming(s, p))
  }

  /** A wakeup that has not reached process `p` yet is under way. */
  ghost predicate Coming(s: State, p: nat)
    requires Shape(s)
  {
    s.inner < NPROC && s.pc[s.inner].Wakeup? && s.pc[s.inner].i <= p
  }

  ghost predicate Inv(s: State) {
    Shape(s) && (s.locked <==> s.pid != NONE) && forall p :: 0 <= p < NPROC ==> ProcOk(s, p)
  }

  ghost predicate Init(s: State) {
    && Shape(s) && !s.locked && s.pid == NONE && s.inner == NONE
    && forall p :: 0 <= p < NPROC ==> s.pc[p].Out? && s.st[p].Runnable? && s.chan[p].NoChan? && !s.plock[p]
  }

  lemma InitInv(s: State)
    requires Init(s)
    ensures Inv(s)
  {
  }

  predicate OnSleepPath(pc: Pc) {
    pc.Sleep1? || pc.Sleep2? || pc.Sleep3?
  }

  predicate OnSwitchPath(pc: Pc) {
    pc.Sleep4? || pc.Sleep5? || pc.Asleep? || pc.Back1? || pc.Back2?
  }

  predicate OnReleasePath(pc: Pc) {
    pc.Holder? || pc.Give? || pc.Clear?
  }

  lemma AcquireStep(s: State, p: nat, q: nat)
    requires Inv(s) && p < NPROC && q < NPROC && CanAdvance(s, p) && !OnSleepPath(s.pc[p]) && !OnSwitchPath(s.pc[p]) && !OnReleasePath(s.pc[p]) && !s.pc[p].Wakeup?
    ensures Shape(Advanced(s, p)) && ProcOk(Advanced(s, p), q)
  {
    assert ProcOk(s, p) && ProcOk(s, q);
  }

  lemma SleepStep(s: State, p: nat, q: nat)
    requires Inv(s) && p < NPROC && q < NPROC && CanAdvance(s, p) && OnSleepPath(s.pc[p])
    ensures Shape(Advanced(s, p)) && ProcOk(Advanced(s, p), q)
  {
    assert ProcOk(s, p) && ProcOk(s, q);
  }

  lemma SwitchStep(s: State, p: nat, q: nat)
    requires Inv(s) && p < NPROC && q < NPROC && q != p && CanAdvance(s, p) && OnSwitchPath(s.pc[p])
    ensures Shape(Advanced(s, p)) && ProcOk(Advanced(s, p), q)
  {
    hide Coming;
    assert ProcOk(s, p) && ProcOk(s, q);
    ComingStays(s, p, q);
  }

  lemma SwitchSelf(s: State, p: nat)
    requires Inv(s) && p < NPROC && CanAdvance(s, p) && OnSwitchPath(s.pc[p])
    ensures Shape(Advanced(s, p)) && ProcOk(Advanced(s, p), p)
  {
    hide Coming;
    assert ProcOk(s, p);
    ComingStays(s, p, p);
  }

  lemma ComingStays(s: State, p: nat, q: nat)
    requires Inv(s) && p < NPROC && q < NPROC && CanAdvance(s, p) && OnSwitchPath(s.pc[p])
    ensures Shape(Advanced(s, p)) && (Coming(s, q) ==> Coming(Advanced(s, p), q))
  {
    assert ProcOk(s, p);
  }

  lemma ReleaseStep(s: State, p: nat, q: nat)
    requires Inv(s) && p < NPROC && q < NPROC && CanAdvance(s, p) && OnReleasePath(s.pc[p])
    ensures Shape(Advanced(s, p)) && ProcOk(Advanced(s, p), q)
  {
    assert ProcOk(s, p) && ProcOk(s, q);
  }

  lemma WakeStep(s: State, p: nat, q: nat)
    requires Inv(s) && p < NPROC && q < NPROC && CanAdvance(s, p) && s.pc[p].Wakeup?
    ensures Shape(Advanced(s, p)) && ProcOk(Advanced(s, p), q)
  {
    assert ProcOk(s, p) && ProcOk(s, q);
  }

  lemma AdvanceKeepsAt(s: State, p: nat, q: nat)
    requires Inv(s) && p < NPROC && q < NPROC && CanAdvance(s, p)
    ensures Shape(Advanced(s, p)) && ProcOk(Advanced(s, p), q)
  {
    hide ProcOk, Advanced;
    if OnSleepPath(s.pc[p]) {
      SleepStep(s, p, q);
    } else if OnSwitchPath(s.pc[p]) {
      if p == q { SwitchSelf(s, p); } else { SwitchStep(s, p, q); }
    } else if OnReleasePath(s.pc[p]) {
      ReleaseStep(s, p, q);
    } else if s.pc[p].Wakeup? {
      WakeStep(s, p, q);
    } else {
      AcquireStep(s, p, q);
    }
  }

  lemma OtherKeepsAt(s: State, step: Step, q: nat)
    requires Inv(s) && Enabled(s, step) && !step.Advance? && q < NPROC
    ensures Shape(Do(s, step)) && ProcOk(Do(s, step), q)
  {
    assert ProcOk(s, step.p) && ProcOk(s, q);
    if s.inner < NPROC { assert ProcOk(s, s.inner); }
  }

  /** Every step of every process, of the scheduler and of kill keeps the invariant. */
  lemma StepKeeps(s: State, step: Step)
    requires Inv(s) && Enabled(s, step)
    ensures Inv(Do(s, step))
  {
    hide ProcOk;
    var s' := Do(s, step);
    assert Shape(s') by {
      if step.Advance? { AdvanceKeepsAt(s, step.p, 0); } else { OtherKeepsAt(s, step, 0); }
    }
    forall q | 0 <= q < NPROC ensures ProcOk(s', q) {
      if step.Advance? { AdvanceKeepsAt(s, step.p, q); } else { OtherKeepsAt(s, step, q); }
    }
    PidKept(s, step);
  }

  lemma PidKept(s: State, step: Step)
    requires Inv(s) && Enabled(s, step)
    ensures Do(s, step).locked <==> Do(s, step).pid != NONE
  {
  }

  /** A run: each step enabled where it is taken. */
  ghost predicate CanRun(s: State, steps: seq<Step>)
    decreases |steps|
  {
    steps == [] || (Shape(s) && Enabled(s, steps[0]) && CanRun(Do(s, steps[0]), steps[1..]))
  }

  ghost function Run(s: State, steps: seq<Step>): State
    requires CanRun(s, steps)
    decreases |steps|
  {
    if steps == [] then s else Run(Do(s, steps[0]), steps[1..])
  }

  lemma {:induction false} RunKeeps(s: State, steps: seq<Step>)
    requires Inv(s) && CanRun(s, steps)
    ensures Inv(Run(s, steps))
    decreases |steps|
  {
    if steps != [] {
      StepKeeps(s, steps[0]);
      RunKeeps(Do(s, steps[0]), steps[1..]);
    }
  }

  // -------------------------------------------------------------------- theorems

  /** In every interleaving at most one process has the sleep lock, and it is the one lk->pid names. */
  lemma OneHolder(s: State, steps: seq<Step>, p: nat, q: nat)
    requires Init(s) && CanRun(s, steps) && p < NPROC && q < NPROC
    ensures var t := Run(s, steps);
            Shape(t) && (HasSleepLock(t.pc[p]) ==> t.locked && t.pid == p && (HasSleepLock(t.pc[q]) ==> p == q))
  {
    InitInv(s);
    RunKeeps(s, steps);
    var t := Run(s, steps);
    assert ProcOk(t, p) && ProcOk(t, q);
  }

  /**
    In every interleaving, when the sleep lock is free and its inner spinlock is too, nobody is
    sleeping on it and nobody is on the way from release(lk) to being asleep.
   */
  lemma NoLostWakeup(s: State, steps: seq<Step>, p: nat)
    requires Init(s) && CanRun(s, steps) && p < NPROC
    requires !Run(s, steps).locked && Run(s, steps).inner == NONE
    ensures var t := Run(s, steps);
            && Shape(t) && !(t.pc[p].Sleep3? || t.pc[p].Sleep4? || t.pc[p].Sleep5?)
            && !(t.st[p].Sleeping? && t.chan[p].ThisLock?)
  {
    InitInv(s);
    RunKeeps(s, steps);
    assert ProcOk(Run(s, steps), p);
  }

  /** sched's panics are not met: it is entered with p->lock held, no other lock, and not RUNNING. */
  lemma SchedChecks(s: State, steps: seq<Step>, p: nat)
    requires Init(s) && CanRun(s, steps) && p < NPROC
    ensures var t := Run(s, steps); Shape(t) && (t.pc[p].Sleep5? ==> t.plock[p] && t.inner != p && !t.st[p].Running?)
  {
    InitInv(s);
    RunKeeps(s, steps);
    assert ProcOk(Run(s, steps), p);
  }

  /** While a wakeup runs, each process it has passed is no longer sleeping on the lock. */
  lemma WakeupReaches(s: State, steps: seq<Step>, w: nat, p: nat)
    requires Init(s) && CanRun(s, steps) && w < NPROC && p < NPROC
    requires Shape(Run(s, steps)) && Run(s, steps).pc[w].Wakeup? && p < Run(s, steps).pc[w].i
    ensures !Run(s, steps).locked && !(Run(s, steps).st[p].Sleeping? && Run(s, steps).chan[p].ThisLock?)
  {
    InitInv(s);
    RunKeeps(s, steps);
    assert ProcOk(Run(s, steps), w) && ProcOk(Run(s, steps), p);
  }

  // -------------------------------------------------- how the lock changes hands

  lemma RunMore(s: State, step: Step, rest: seq<Step>)
    requires Shape(s) && Enabled(s, step) && CanRun(Do(s, step), rest)
    ensures CanRun(s, [step] + rest) && Run(s, [step] + rest) == Run(Do(s, step), rest)
  {
    hide Shape, Enabled, Do;
    assert ([step] + rest)[1..] == rest;
  }

  lemma {:induction false} RunBoth(s: State, xs: seq<Step>, ys: seq<Step>)
    requires CanRun(s, xs) && CanRun(Run(s, xs), ys)
    ensures CanRun(s, xs + ys) && Run(s, xs + ys) == Run(Run(s, xs), ys)
    decreases |xs|
  {
    hide Shape, Enabled, Do;
    if xs == [] {
      assert xs + ys == ys;
    } else {
      RunBoth(Do(s, xs[0]), xs[1..], ys);
      assert (xs + ys)[1..] == xs[1..] + ys;
    }
  }

  /** The process takes `n` steps of its own. */
  ghost function Steps(p: nat, n: nat): seq<Step> {
    if n == 0 then [] else [Advance(p)] + Steps(p, n - 1)
  }

  lemma StepsMore(s: State, p: nat, n: nat)
    requires Shape(s) && p < NPROC && CanAdvance(s, p) && CanRun(Advanced(s, p), Steps(p, n))
    ensures CanRun(s, Steps(p, n + 1)) && Run(s, Steps(p, n + 1)) == Run(Advanced(s, p), Steps(p, n))
  {
    hide Shape, CanAdvance, Advanced;
    RunMore(s, Advance(p), Steps(p, n));
  }

  /** acquiresleep of a free lock, undisturbed: the process has it. */
  lemma AcquiresFree(s: State, p: nat)
    requires Shape(s) && p < NPROC && s.pc[p].Out? && s.st[p].Running? && !s.locked && s.inner == NONE
    ensures CanRun(s, Steps(p, 5)) && Run(s, Steps(p, 5)) == s.(pc := s.pc[p := Holder], locked := true, pid := p)
  {
    hide CanRun, Run, Steps;
    var s1 := At(s, p, Want);
    TakesFree(s1, p);
    StepsMore(s, p, 4);
    assert s1.pc[p := Holder] == s.pc[p := Holder];
  }

  /** The same from the loop on. */
  lemma TakesFree(s: State, p: nat)
    requires Shape(s) && p < NPROC && s.pc[p].Want? && s.st[p].Running? && !s.locked && s.inner == NONE
    ensures CanRun(s, Steps(p, 4)) && Run(s, Steps(p, 4)) == s.(pc := s.pc[p := Holder], locked := true, pid := p)
  {
    hide CanRun, Run, Steps;
    var s1 := At(s, p, Check).(inner := p);
    var s2 := At(s1, p, Take);
    var s3 := At(s2, p, Took).(locked := true, pid := p);
    var s4 := At(s3, p, Holder).(inner := NONE);
    assert s4 == s.(pc := s.pc[p := Holder], locked := true, pid := p);
    Done(s4, p);
    StepsMore(s3, p, 0);
    StepsMore(s2, p, 1);
    StepsMore(s1, p, 2);
    StepsMore(s, p, 3);
  }

  lemma Done(s: State, p: nat)
    ensures CanRun(s, Steps(p, 0)) && Run(s, Steps(p, 0)) == s
  {
  }

  /** acquiresleep of a lock that is held, undisturbed: the process sleeps on it and holds no lock. */
  lemma SleepsWhenHeld(s: State, p: nat)
    requires Shape(s) && p < NPROC && s.pc[p].Want? && s.st[p].Running? && s.locked && s.inner == NONE && !s.plock[p]
    ensures CanRun(s, Steps(p, 7))
    ensures Run(s, Steps(p, 7)) == s.(pc := s.pc[p := Asleep], st := s.st[p := Sleeping], chan := s.chan[p := ThisLock])
  {
    hide CanRun, Run, Steps;
    var s1 := At(s, p, Check).(inner := p);
    var s2 := At(s1, p, Sleep1);
    var s3 := At(s2, p, Sleep2).(plock := s.plock[p := true]);
    var s4 := At(s3, p, Sleep3).(inner := NONE);
    var s5 := At(s4, p, Sleep4).(chan := s.chan[p := ThisLock]);
    var s6 := At(s5, p, Sleep5).(st := s.st[p := Sleeping]);
    var s7 := At(s6, p, Asleep).(plock := s6.plock[p := false]);
    assert s7 == s.(pc := s.pc[p := Asleep], st := s.st[p := Sleeping], chan := s.chan[p := ThisLock]) by {
      assert s7.plock == s.plock && s7.pc == s.pc[p := Asleep];
    }
    Done(s7, p);
    StepsMore(s6, p, 0);
    StepsMore(s5, p, 1);
    StepsMore(s4, p, 2);
    StepsMore(s3, p, 3);
    StepsMore(s2, p, 4);
    StepsMore(s1, p, 5);
    StepsMore(s, p, 6);
  }

  /** What a whole wakeup by `p`, from process `i` on, makes of a process. */
  ghost function Woken(s: State, p: nat, i: nat): seq<PState>
    requires Shape(s)
  {
    seq(NPROC, q requires 0 <= q < NPROC => if q >= i && q != p && s.st[q].Sleeping? && s.chan[q].ThisLock? then Runnable else s.st[q])
  }

  /** wakeup's loop to its end, when nobody else holds a process's lock. */
  lemma {:induction false} WakeupRuns(s: State, p: nat, i: nat)
    requires Shape(s) && p < NPROC && s.pc[p] == Wakeup(i) && i <= NPROC && s.st[p].Running? && forall q :: 0 <= q < NPROC ==> !s.plock[q]
    ensures CanRun(s, Steps(p, NPROC - i + 1))
    ensures Run(s, Steps(p, NPROC - i + 1)) == s.(pc := s.pc[p := Out], st := Woken(s, p, i), inner := NONE)
    decreases NPROC - i
  {
    hide CanRun, Run, Steps;
    var s1 := Advanced(s, p);
    if i == NPROC {
      Done(s1, p);
      assert Woken(s, p, i) == s.st;
    } else {
      WakeupRuns(s1, p, i + 1);
      assert Woken(s1, p, i + 1) == Woken(s, p, i);
      assert s1.pc[p := Out] == s.pc[p := Out];
    }
    StepsMore(s, p, NPROC - i);
  }

  /** releasesleep, undisturbed: the lock is free and everybody who slept on it is runnable. */
  lemma ReleasesAll(s: State, p: nat)
    requires Shape(s) && p < NPROC && s.pc[p].Holder? && s.st[p].Running? && s.inner == NONE && forall q :: 0 <= q < NPROC ==> !s.plock[q]
    ensures CanRun(s, Steps(p, NPROC + 4))
    ensures Run(s, Steps(p, NPROC + 4)) == s.(pc := s.pc[p := Out], st := Woken(s, p, 0), locked := false, pid := NONE)
  {
    hide CanRun, Run, Steps, Woken;
    var s1 := At(s, p, Give);
    var s2 := At(s1, p, Clear).(inner := p);
    var s3 := At(s2, p, Wakeup(0)).(locked := false, pid := NONE);
    WakeupRuns(s3, p, 0);
    SameWoken(s, s3, p, 0);
    StepsMore(s2, p, NPROC + 1);
    StepsMore(s1, p, NPROC + 2);
    StepsMore(s, p, NPROC + 3);
    assert s3.pc[p := Out] == s.pc[p := Out];
  }

  lemma SameWoken(s: State, s': State, p: nat, i: nat)
    requires Shape(s) && Shape(s') && s'.st == s.st && s'.chan == s.chan
    ensures Woken(s', p, i) == Woken(s, p, i)
  {
  }

  /** A woken process that is scheduled is back at acquiring the lock. */
  lemma ComesBack(s: State, q: nat)
    requires Shape(s) && q < NPROC && s.pc[q].Asleep? && s.st[q].Runnable? && !s.plock[q]
    ensures CanRun(s, [Dispatch(q)] + Steps(q, 2))
    ensures Run(s, [Dispatch(q)] + Steps(q, 2)) == s.(pc := s.pc[q := Want], st := s.st[q := Running], chan := s.chan[q := NoChan])
  {
    hide CanRun, Run, Steps;
    var s1 := At(s, q, Back1).(st := s.st[q := Running], plock := s.plock[q := true]);
    var s2 := At(s1, q, Back2).(chan := s.chan[q := NoChan]);
    var s3 := At(s2, q, Want).(plock := s2.plock[q := false]);
    assert s3 == s.(pc := s.pc[q := Want], st := s.st[q := Running], chan := s.chan[q := NoChan]) by {
      assert s3.plock == s.plock && s3.pc == s.pc[q := Want];
    }
    Done(s3, q);
    StepsMore(s2, q, 0);
    StepsMore(s1, q, 1);
    RunMore(s, Dispatch(q), Steps(q, 2));
  }

  /**
    The lock is handed over: from any state in which one process has it, another sleeps on it and
    no lock of the protocol is held, a release by the first leads to the second having it.
   */
  lemma HandedOver(s: State, p: nat, q: nat) returns (steps: seq<Step>)
    requires Shape(s) && p < NPROC && q < NPROC && p != q && s.inner == NONE && forall x :: 0 <= x < NPROC ==> !s.plock[x]
    requires s.pc[p].Holder? && s.st[p].Running? && s.pc[q].Asleep? && s.st[q].Sleeping? && s.chan[q].ThisLock?
    ensures CanRun(s, steps)
    ensures var t := Run(s, steps); Shape(t) && t.pc[p].Out? && t.pc[q].Holder? && t.locked && t.pid == q && t.st[q].Running?
  {
    hide CanRun, Run, Steps;
    ReleasesAll(s, p);
    var s1 := Run(s, Steps(p, NPROC + 4));
    ComesBack(s1, q);
    var back := [Dispatch(q)] + Steps(q, 2);
    var s2 := Run(s1, back);
    TakesFree(s2, q);
    RunBoth(s1, back, Steps(q, 4));
    RunBoth(s, Steps(p, NPROC + 4), back + Steps(q, 4));
    steps := Steps(p, NPROC + 4) + (back + Steps(q, 4));
  }

  /** A process killed while it sleeps on the lock comes back to the loop's test, and not past it. */
  lemma KilledRetries(s: State, q: nat)
    requires Shape(s) && q < NPROC && s.pc[q].Asleep? && s.st[q].Sleeping? && !s.plock[q]
    ensures CanRun(s, [Kill(q)] + ([Dispatch(q)] + Steps(q, 2)))
    ensures Run(s, [Kill(q)] + ([Dispatch(q)] + Steps(q, 2))) == s.(pc := s.pc[q := Want], st := s.st[q := Running], chan := s.chan[q := NoChan])
  {
    hide CanRun, Run, Steps;
    var s1 := s.(st := s.st[q := Runnable]);
    ComesBack(s1, q);
    RunMore(s, Kill(q), [Dispatch(q)] + Steps(q, 2));
  }

  /** A process that is preempted goes on where it was. */
  lemma PreemptedGoesOn(s: State, p: nat)
    requires Shape(s) && p < NPROC && s.st[p].Running? && s.chan[p].NoChan? && !s.plock[p] && Interruptible(s.pc[p])
    ensures CanRun(s, [Preempt(p), Dispatch(p)]) && Run(s, [Preempt(p), Dispatch(p)]) == s
  {
    hide CanRun, Run, Steps;
    Done(s, p);
    var s1 := s.(st := s.st[p := Runnable]);
    assert Do(s1, Dispatch(p)) == s;
    RunMore(s1, Dispatch(p), Steps(p, 0));
    RunMore(s, Preempt(p), [Dispatch(p)] + Steps(p, 0));
    assert [Preempt(p)] + ([Dispatch(p)] + Steps(p, 0)) == [Preempt(p), Dispatch(p)] by { NoSteps(p); }
  }

  lemma NoSteps(p: nat)
    ensures Steps(p, 0) == []
  {
  }

  /** So does one that sleeps on another channel and is woken there. */
  lemma SleeperElsewhereGoesOn(s: State, p: nat)
    requires Shape(s) && p < NPROC && s.st[p].Running? && s.chan[p].NoChan? && !s.plock[p] && (s.pc[p].Out? || s.pc[p].Holder?)
    ensures CanRun(s, [SleepElsewhere(p), WakeElsewhere(p), Dispatch(p)]) && Run(s, [SleepElsewhere(p), WakeElsewhere(p), Dispatch(p)]) == s
  {
    hide CanRun, Run, Steps;
    Done(s, p);
    NoSteps(p);
    var s1 := s.(st := s.st[p := Sleeping], chan := s.chan[p := OtherChan]);
    var s2 := s1.(st := s.st[p := Runnable]);
    assert Do(s1, WakeElsewhere(p)) == s2 by { assert s1.st[p := Runnable] == s.st[p := Runnable]; }
    assert Do(s2, Dispatch(p)) == s;
    RunMore(s2, Dispatch(p), Steps(p, 0));
    RunMore(s1, WakeElsewhere(p), [Dispatch(p)] + Steps(p, 0));
    RunMore(s, SleepElsewhere(p), [WakeElsewhere(p)] + ([Dispatch(p)] + Steps(p, 0)));
    assert [SleepElsewhere(p)] + ([WakeElsewhere(p)] + ([Dispatch(p)] + Steps(p, 0))) == [SleepElsewhere(p), WakeElsewhere(p), Dispatch(p)];
  }
}
