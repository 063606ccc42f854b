/**
  A run of the log machine that fills the log: three operations are admitted together and each
  logs its ten blocks. From there logging a block again meets a panic, and the commit that
  follows is stuck.
 */
module LogFull {
  import opened Common
  import opened Disk
  import opened LogSpec
  import opened LogMachine

  /** The steps lead from `s` to `t`. */
  ghost predicate Reaches(s: State, steps: seq<Step>, t: State)
    decreases |steps|
  {
    if steps == [] then s == t else Enabled(s, steps[0]) && Reaches(Do(s, steps[0]), steps[1..], t)
  }

  lemma {:induction false} ReachesConcat(s: State, xs: seq<Step>, t: State, ys: seq<Step>, u: State)
    requires Reaches(s, xs, t) && Reaches(t, ys, u)
    ensures Reaches(s, xs + ys, u)
    decreases |xs|
  {
    if xs == [] {
      assert xs + ys == ys;
    } else {
      ReachesConcat(Do(s, xs[0]), xs[1..], t, ys, u);
      assert (xs + ys)[1..] == xs[1..] + ys;
    }
  }

  /** The states the steps go through. */
  ghost function States(s: State, steps: seq<Step>, t: State): (states: seq<State>)
    requires Reaches(s, steps, t)
    ensures |states| == |steps| + 1 && states[0] == s && states[|steps|] == t
    decreases |steps|
  {
    if steps == [] then [s] else [s] + States(Do(s, steps[0]), steps[1..], t)
  }

  lemma {:induction false} StatesFollow(s: State, steps: seq<Step>, t: State, i: nat)
    requires Reaches(s, steps, t) && i < |steps|
    ensures var states := States(s, steps, t); Enabled(states[i], steps[i]) && states[i + 1] == Do(states[i], steps[i])
    decreases |steps|
  {
    if i > 0 {
      StatesFollow(Do(s, steps[0]), steps[1..], t, i - 1);
    }
  }

  lemma ReachesIsRun(s: State, steps: seq<Step>, t: State)
    requires Init(s) && Reaches(s, steps, t)
    ensures Run(States(s, steps, t), steps)
  {
    hide Init, Enabled, Do;
    forall i | 0 <= i < |steps|
      ensures Enabled(States(s, steps, t)[i], steps[i]) && States(s, steps, t)[i + 1] == Do(States(s, steps, t)[i], steps[i])
    {
      StatesFollow(s, steps, t, i);
    }
  }

  // ------------------------------------------------------------- an empty file system

  const FIRST := LOGBLOCKS + 1   // the log is blocks 0..30, the home blocks are 31..60
  const COUNT := 3 * MAXOPBLOCKS
  const BLOCKS := FIRST + COUNT

  function Zero(): (b: Block)
    ensures |b.word| == WORDS && forall i :: 0 <= i < WORDS ==> b.word[i] == 0
  {
    Block(seq(WORDS, _ => 0))
  }

  ghost function EmptyDisk(): Disk {
    map b | b in Range(0, BLOCKS) :: Zero()
  }

  ghost function EmptyHome(): Disk {
    map b | b in Range(FIRST, COUNT) :: Zero()
  }

  function Least(x: nat, y: nat): nat {
    if x < y then x else y
  }

  /** What operation `p` has logged when `j` blocks are logged in all. */
  ghost function LoggedBy(p: nat, j: nat): set<nat> {
    if j <= p * MAXOPBLOCKS then {} else Range(FIRST + p * MAXOPBLOCKS, Least(MAXOPBLOCKS, j - p * MAXOPBLOCKS))
  }

  ghost function Ops(j: nat): seq<Op> {
    [Inside(LoggedBy(0, j)), Inside(LoggedBy(1, j)), Inside(LoggedBy(2, j))]
  }

  /** A logged block's buffer, pinned and otherwise unused. */
  function Pinning(): Buf {
    Buf(true, Zero(), 1, {}, None, false)
  }

  ghost function Cached(j: nat): map<nat, Buf> {
    map b | b in Range(FIRST, j) :: Pinning()
  }

  ghost function Listed(j: nat): (lh: seq<nat>)
    ensures |lh| == j && forall i :: 0 <= i < j ==> lh[i] == FIRST + i
  {
    seq(j, i => FIRST + i)
  }

  /** Three operations are running and the first `j` home blocks are logged. */
  ghost function Filled(j: nat): State {
    State(0, EmptyDisk(), Cached(j), Listed(j), 3, false, Ops(j), Ready, EmptyHome(), EmptyHome())
  }

  ghost function Idle(phase: Phase): State {
    State(0, EmptyDisk(), map[], [], 0, false, [Outside, Outside, Outside], phase, EmptyHome(), EmptyHome())
  }

  lemma EmptyHeader()
    ensures IsHead(Zero()) && ReadHead(Zero()) == [] && HeadBlock(Zero(), []) == Zero()
    ensures 0 in EmptyDisk() && EmptyDisk()[0] == Zero() && EmptyDisk()[0 := Zero()] == EmptyDisk()
  {
    assert HeadBlock(Zero(), []).word == Zero().word;
  }

  lemma BootInit()
    ensures Init(Idle(Boot))
  {
    EmptyHeader();
    assert Home(0, EmptyDisk()) == EmptyHome();
  }

  /** Recovery finds an empty header. */
  lemma Recovered()
    ensures Reaches(Idle(Boot), [ReadHeader, RecoverClear], Idle(Ready))
  {
    hide HeadBlock, ReadHead, IsHead, EmptyDisk, EmptyHome, Zero;
    EmptyHeader();
    var steps := [ReadHeader, RecoverClear];
    assert Enabled(Idle(Boot), ReadHeader) && Do(Idle(Boot), ReadHeader) == Idle(Recovering(0, EmptyDisk()));
    assert |Zero().word| == WORDS by { ZeroLength(); }
    assert Do(Idle(Recovering(0, EmptyDisk())), RecoverClear) == Idle(Ready);
    assert steps[1..] == [RecoverClear] && steps[1..][1..] == [];
  }

  lemma ZeroLength()
    ensures |Zero().word| == WORDS
  {
  }

  /** Three operations are admitted. */
  lemma Admitted()
    ensures Reaches(Idle(Ready), [BeginOp(0), BeginOp(1), BeginOp(2)], Filled(0))
  {
    hide EmptyDisk, EmptyHome, Zero;
    var s := Idle(Ready);
    var steps := [BeginOp(0), BeginOp(1), BeginOp(2)];
    var s1 := s.(outstanding := 1, ops := [Inside({}), Outside, Outside]);
    var s2 := s.(outstanding := 2, ops := [Inside({}), Inside({}), Outside]);
    assert Do(s, BeginOp(0)) == s1 && Do(s1, BeginOp(1)) == s2;
    assert Cached(0) == map[] && Listed(0) == [];
    assert Do(s2, BeginOp(2)) == Filled(0);
    assert steps[1..] == [BeginOp(1), BeginOp(2)] && steps[1..][1..] == [BeginOp(2)] && steps[1..][1..][1..] == [];
  }

  // ---------------------------------------------------------------- one block after another

  ghost function OneBlock(p: nat, b: nat): seq<Step> {
    [Get(p, b, 0), Lock(p, b), Fill(p, b), Modify(p, b, Zero()), LogWrite(p, b)]
  }

  /** The state after `OneBlock` for home block number `j`: its buffer is still locked. */
  ghost function Holding(j: nat): State
    requires j < COUNT
  {
    var p := j / MAXOPBLOCKS;
    Filled(j + 1).(cache := Cached(j)[FIRST + j := Buf(true, Zero(), 2, {p}, Some(p), false)])
  }

  lemma CachedSize(j: nat)
    ensures |Cached(j)| == j
    decreases j
  {
    if j > 0 {
      CachedSize(j - 1);
      assert Cached(j) == Cached(j - 1)[FIRST + j - 1 := Pinning()];
    } else {
      assert Cached(0) == map[];
    }
  }

  lemma OpsNext(j: nat)
    requires j < COUNT
    ensures var p := j / MAXOPBLOCKS;
            && p < 3 && |Ops(j)| == 3 && Ops(j)[p] == Inside(LoggedBy(p, j)) && Ops(j + 1) == Ops(j)[p := Inside(LoggedBy(p, j) + {FIRST + j})]
            && FIRST + j !in LoggedBy(p, j) && |LoggedBy(p, j)| < MAXOPBLOCKS
  {
    hide LoggedBy;
    LoggedNext(0, j);
    LoggedNext(1, j);
    LoggedNext(2, j);
  }

  lemma LoggedNext(q: nat, j: nat)
    requires j < COUNT && q < 3
    ensures if q == j / MAXOPBLOCKS then
              && LoggedBy(q, j + 1) == LoggedBy(q, j) + {FIRST + j}
              && FIRST + j !in LoggedBy(q, j) && |LoggedBy(q, j)| < MAXOPBLOCKS
            else LoggedBy(q, j + 1) == LoggedBy(q, j)
  {
    hide Range, Least;
    var lo := q * MAXOPBLOCKS;
    LeastIs(j, lo);
    if q == j / MAXOPBLOCKS {
      assert lo <= j < lo + MAXOPBLOCKS;
      RangeSize(FIRST + lo, j - lo);
      RangeNext(FIRST + lo, j - lo);
    } else {
      assert j < lo || j >= lo + MAXOPBLOCKS;
    }
  }

  lemma LeastIs(j: nat, lo: nat)
    ensures lo <= j < lo + MAXOPBLOCKS ==> Least(MAXOPBLOCKS, j - lo) == j - lo && Least(MAXOPBLOCKS, j + 1 - lo) == j + 1 - lo
    ensures j >= lo + MAXOPBLOCKS ==> Least(MAXOPBLOCKS, j - lo) == Least(MAXOPBLOCKS, j + 1 - lo) == MAXOPBLOCKS
  {
  }

  lemma RangeNext(b: nat, n: nat)
    ensures Range(b, 0) == {} && Range(b, n + 1) == Range(b, n) + {b + n} && b + n !in Range(b, n)
  {
  }

  lemma {:induction false} RangeSize(b: nat, n: nat)
    ensures |Range(b, n)| == n
  {
    if n > 0 {
      RangeSize(b, n - 1);
    }
  }

  lemma BlockLogged(j: nat)
    requires j < COUNT
    ensures Reaches(Filled(j), OneBlock(j / MAXOPBLOCKS, FIRST + j), Holding(j))
  {
    hide Reaches, Filled, Holding;
    var p, b := j / MAXOPBLOCKS, FIRST + j;
    BlockRead(j);
    BlockWritten(j);
    ReachesConcat(Filled(j), [Get(p, b, 0), Lock(p, b), Fill(p, b)], Loaded(j), [Modify(p, b, Zero()), LogWrite(p, b)], Holding(j));
    assert [Get(p, b, 0), Lock(p, b), Fill(p, b)] + [Modify(p, b, Zero()), LogWrite(p, b)] == OneBlock(p, b);
  }

  /** bread has returned home block number `j` to its operation. */
  ghost function Loaded(j: nat): State {
    var p := j / MAXOPBLOCKS;
    Filled(j).(cache := Cached(j)[FIRST + j := Buf(true, Zero(), 1, {p}, Some(p), false)])
  }

  lemma BlockRead(j: nat)
    requires j < COUNT
    ensures var p, b := j / MAXOPBLOCKS, FIRST + j; Reaches(Filled(j), [Get(p, b, 0), Lock(p, b), Fill(p, b)], Loaded(j))
  {
    hide EmptyDisk, EmptyHome, Zero, Cached, Ops, LoggedBy, Reaches;
    var p, b, s := j / MAXOPBLOCKS, FIRST + j, Filled(j);
    CachedSize(j);
    HomeBlock(j);
    var c := s.cache;
    assert c - {0} == c;
    var s1 := s.(cache := c[b := Buf(false, Block([]), 1, {p}, None, false)]);
    var s2 := s.(cache := c[b := Buf(false, Block([]), 1, {p}, Some(p), false)]);
    assert Do(s, Get(p, b, 0)) == s1;
    assert Do(s1, Lock(p, b)) == s2;
    assert Do(s2, Fill(p, b)) == Loaded(j);
    TwoSteps(s1, Lock(p, b), s2, Fill(p, b), Loaded(j));
    Then(s, Get(p, b, 0), [Lock(p, b), Fill(p, b)], Loaded(j));
    assert [Get(p, b, 0)] + [Lock(p, b), Fill(p, b)] == [Get(p, b, 0), Lock(p, b), Fill(p, b)];
  }

  lemma BlockWritten(j: nat)
    requires j < COUNT
    ensures var p, b := j / MAXOPBLOCKS, FIRST + j; Reaches(Loaded(j), [Modify(p, b, Zero()), LogWrite(p, b)], Holding(j))
  {
    hide EmptyDisk, EmptyHome, Zero, Cached, Ops, LoggedBy, Reaches;
    var p, b, s := j / MAXOPBLOCKS, FIRST + j, Loaded(j);
    OpsNext(j);
    HomeBlock(j);
    var s1 := s.(cache := Cached(j)[b := Buf(true, Zero(), 1, {p}, Some(p), true)]);
    assert Do(s, Modify(p, b, Zero())) == s1;
    assert Listed(j) + [b] == Listed(j + 1);
    assert Do(s1, LogWrite(p, b)) == Holding(j);
    TwoSteps(s, Modify(p, b, Zero()), s1, LogWrite(p, b), Holding(j));
  }

  lemma Stop(s: State)
    ensures Reaches(s, [], s)
  {
  }

  lemma Then(s: State, step: Step, rest: seq<Step>, t: State)
    requires Enabled(s, step) && Reaches(Do(s, step), rest, t)
    ensures Reaches(s, [step] + rest, t)
  {
    hide Enabled, Do;
    assert ([step] + rest)[1..] == rest;
  }

  lemma TwoSteps(s: State, x: Step, s1: State, y: Step, t: State)
    requires Enabled(s, x) && Do(s, x) == s1 && Enabled(s1, y) && Do(s1, y) == t
    ensures Reaches(s, [x, y], t)
  {
    hide Enabled, Do, Reaches;
    Stop(t);
    Then(s1, y, [], t);
    assert [y] + [] == [y];
    Then(s, x, [y], t);
    assert [x] + [y] == [x, y];
  }

  lemma HomeBlock(j: nat)
    requires j < COUNT
    ensures FIRST + j in EmptyDisk() && EmptyDisk()[FIRST + j] == Zero() && EmptyHome()[FIRST + j := Zero()] == EmptyHome()
    ensures FIRST + j !in Cached(j) && 0 !in Cached(j) && FIRST + j !in Listed(j)
  {
  }

  /** The buffer is released; only the pin is left. */
  lemma BlockReleased(j: nat)
    requires j < COUNT
    ensures var p, b := j / MAXOPBLOCKS, FIRST + j; Reaches(Holding(j), [Unlock(p, b), Unref(p, b)], Filled(j + 1))
  {
    hide EmptyDisk, EmptyHome, Zero, Cached, Ops, LoggedBy, Reaches;
    var p, b, s := j / MAXOPBLOCKS, FIRST + j, Holding(j);
    var s1 := s.(cache := s.cache[b := Buf(true, Zero(), 2, {p}, None, false)]);
    assert Do(s, Unlock(p, b)) == s1;
    assert s.cache[b := Pinning()] == Cached(j + 1) by { CachedNext(j); }
    assert {p} - {p} == {};
    assert s1.cache[b := Pinning()] == s.cache[b := Pinning()];
    assert Do(s1, Unref(p, b)) == Filled(j + 1);
    TwoSteps(s, Unlock(p, b), s1, Unref(p, b), Filled(j + 1));
  }

  lemma CachedNext(j: nat)
    requires j < COUNT
    ensures Holding(j).cache[FIRST + j := Pinning()] == Cached(j + 1)
  {
  }

  /** However many of the blocks: they can be logged. */
  lemma {:induction false} FillUp(j: nat) returns (steps: seq<Step>)
    requires j <= COUNT
    ensures Reaches(Idle(Boot), steps, Filled(j))
  {
    hide Reaches, Filled, Holding, Idle;
    if j == 0 {
      Recovered();
      Admitted();
      steps := [ReadHeader, RecoverClear] + [BeginOp(0), BeginOp(1), BeginOp(2)];
      ReachesConcat(Idle(Boot), [ReadHeader, RecoverClear], Idle(Ready), [BeginOp(0), BeginOp(1), BeginOp(2)], Filled(0));
    } else {
      var p, b := (j - 1) / MAXOPBLOCKS, FIRST + j - 1;
      var before := FillUp(j - 1);
      BlockLogged(j - 1);
      BlockReleased(j - 1);
      ReachesConcat(Idle(Boot), before, Filled(j - 1), OneBlock(p, b), Holding(j - 1));
      ReachesConcat(Idle(Boot), before + OneBlock(p, b), Holding(j - 1), [Unlock(p, b), Unref(p, b)], Filled(j));
      steps := before + OneBlock(p, b) + [Unlock(p, b), Unref(p, b)];
    }
  }

  // ---------------------------------------------------------------------- what follows

  /**
    A run that keeps to every rule and ends with a full log, in which an operation that logs one
    of its own blocks again meets log_write's panic.
   */
  lemma RelogReachesPanic() returns (states: seq<State>, steps: seq<Step>, p: nat, b: nat)
    ensures Run(states, steps)
    ensures var s := states[|steps|];
            |s.lh| == LOGBLOCKS && CanModify(s, p, b) && b in s.ops[p].logged && !CanLogWrite(s, p, b)
  {
    hide Reaches, Run, Init, Filled, Holding, Idle, CanModify, CanLogWrite;
    var j := COUNT - 1;
    p, b := j / MAXOPBLOCKS, FIRST + j;
    var before := FillUp(j);
    BlockLogged(j);
    steps := before + OneBlock(p, b);
    ReachesConcat(Idle(Boot), before, Filled(j), OneBlock(p, b), Holding(j));
    BootInit();
    ReachesIsRun(Idle(Boot), steps, Holding(j));
    states := States(Idle(Boot), steps, Holding(j));
    HoldingLast();
  }

  lemma HoldingLast()
    ensures var s, p, b := Holding(COUNT - 1), (COUNT - 1) / MAXOPBLOCKS, FIRST + COUNT - 1;
            p < |s.ops| && s.ops[p].Inside? && |s.lh| == LOGBLOCKS && CanModify(s, p, b) && b in s.ops[p].logged && !CanLogWrite(s, p, b)
  {
    hide Range, EmptyDisk, EmptyHome;
    OpsNext(COUNT - 1);
  }

  ghost function Ending(): State {
    Filled(COUNT).(outstanding := 0, committing := true, ops := [Outside, Outside, Outside], phase := Committing(0, Listed(COUNT), EmptyDisk()))
  }

  lemma AllEnd()
    ensures Reaches(Filled(COUNT), [EndOp(0), EndOp(1), EndOp(2)], Ending())
  {
    hide EmptyDisk, EmptyHome, Zero, LoggedBy;
    var s, steps := Filled(COUNT), [EndOp(0), EndOp(1), EndOp(2)];
    var s1 := s.(outstanding := 2, ops := [Outside, s.ops[1], s.ops[2]]);
    var s2 := s.(outstanding := 1, ops := [Outside, Outside, s.ops[2]]);
    assert Do(s, EndOp(0)) == s1 && Do(s1, EndOp(1)) == s2;
    assert Do(s2, EndOp(2)) == Ending();
    assert steps[1..] == [EndOp(1), EndOp(2)] && steps[1..][1..] == [EndOp(2)] && steps[1..][1..][1..] == [];
  }

  /** A run to a commit of LOGBLOCKS blocks, which is where no further step helps. */
  lemma FullCommitReached() returns (states: seq<State>, steps: seq<Step>)
    ensures Run(states, steps)
    ensures var s := states[|steps|]; s.phase.Committing? && s.phase.k == 0 && |s.lh| == LOGBLOCKS
  {
    hide Reaches, Run, Init, LoggedBy, EmptyDisk;
    var before := FillUp(COUNT);
    AllEnd();
    steps := before + [EndOp(0), EndOp(1), EndOp(2)];
    ReachesConcat(Idle(Boot), before, Filled(COUNT), [EndOp(0), EndOp(1), EndOp(2)], Ending());
    BootInit();
    ReachesIsRun(Idle(Boot), steps, Ending());
    states := States(Idle(Boot), steps, Ending());
  }
}
