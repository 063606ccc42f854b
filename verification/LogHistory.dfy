/**
  What whole runs of the log machine do to blocks, told by the runs' steps alone: which write a
  reader finds, and which writes survive a crash.
 */
module LogHistory {
  import opened Common
  import opened Disk
  import opened LogSpec
  import opened LogMachine
  import opened LogFull

  ghost predicate Writes(step: Step, b: nat) {
    step.Modify? && step.b == b
  }

  /** Step `j` is the last write to `b` among the first `i` steps, with no crash behind it. */
  ghost predicate LastWrite(steps: seq<Step>, i: nat, b: nat, j: nat) {
    && j < i <= |steps| && Writes(steps[j], b)
    && forall k :: j < k < i ==> !steps[k].Crash? && !Writes(steps[k], b)
  }

  /** Where the machine last booted: the start, or right behind the last crash. */
  ghost function LastBoot(steps: seq<Step>, i: nat): (k: nat)
    requires i <= |steps|
    ensures k <= i && (k > 0 ==> steps[k - 1].Crash?) && forall j :: k <= j < i ==> !steps[j].Crash?
  {
    if i == 0 || steps[i - 1].Crash? then i else LastBoot(steps, i - 1)
  }

  /** The writes among the steps, one after the other. */
  ghost function Replay(base: Disk, steps: seq<Step>): Disk {
    if steps == [] then base
    else
      var d, last := Replay(base, steps[..|steps| - 1]), steps[|steps| - 1];
      if last.Modify? then d[last.b := last.data] else d
  }

  /** A replayed block is what the last write to it put there. */
  lemma {:induction false} ReplayLast(base: Disk, steps: seq<Step>, b: nat, j: nat)
    requires j < |steps| && Writes(steps[j], b) && forall k :: j < k < |steps| ==> !Writes(steps[k], b)
    ensures b in Replay(base, steps) && Replay(base, steps)[b] == steps[j].data
  {
    var n := |steps| - 1;
    if j < n {
      assert !Writes(steps[n], b);
      ReplayLast(base, steps[..n], b, j);
    }
  }

  lemma {:induction false} ReplayKeeps(base: Disk, steps: seq<Step>, b: nat)
    requires b in base && forall j :: 0 <= j < |steps| ==> !Writes(steps[j], b)
    ensures b in Replay(base, steps) && Replay(base, steps)[b] == base[b]
  {
    if steps != [] {
      var n := |steps| - 1;
      assert !Writes(steps[n], b);
      ReplayKeeps(base, steps[..n], b);
    }
  }

  /** What one step does to the callers' blocks and to those a crash leaves. */
  lemma StepWrites(s: State, step: Step)
    requires Enabled(s, step)
    ensures Do(s, step).logical == match step
                                   case Modify(_, b, data) => s.logical[b := data]
                                   case Crash => s.committed
                                   case _ => s.logical
    ensures Do(s, step).committed == if step.WriteHead? then s.logical else s.committed
  {
    hide CanBeginOp, CanEndOp, CanGet, CanLock, CanFill, CanModify, CanLogWrite, CanUnlock, CanUnref, CanCopyToLog,
         CanWriteHead, CanInstall, CanForgetTxn, CanClearHead, CanReadHeader, CanRecoverInstall, CanRecoverClear, HeadBlock, ReadHead, Absorb;
    match step
    case BeginOp(p) =>
    case EndOp(p) =>
    case Get(p, b, victim) =>
    case Lock(p, b) =>
    case Fill(p, b) =>
    case Modify(p, b, data) =>
    case LogWrite(p, b) =>
    case Unlock(p, b) =>
    case Unref(p, b) =>
    case CopyToLog(p) =>
    case WriteHead(p) =>
    case Install(p) =>
    case ForgetTxn =>
    case ClearHead(p) =>
    case CommitDone =>
    case Crash =>
    case ReadHeader =>
    case RecoverInstall =>
    case RecoverClear =>
  }

  /** At every moment of every run the callers' blocks are what was committed at boot with all writes since. */
  lemma {:induction false} LogicalIsReplay(states: seq<State>, steps: seq<Step>, i: nat)
    requires Run(states, steps) && i <= |steps|
    ensures var k := LastBoot(steps, i); states[i].logical == Replay(states[k].committed, steps[k..i])
    decreases i
  {
    hide Enabled, Do, Init;
    var k := LastBoot(steps, i);
    if i == 0 {
      BootsClean(states[0]);
    } else {
      StepWrites(states[i - 1], steps[i - 1]);
      if k < i {
        LogicalIsReplay(states, steps, i - 1);
        assert steps[k..i][..i - k - 1] == steps[k..i - 1];
      }
    }
  }

  lemma BootsClean(s: State)
    requires Init(s)
    ensures s.logical == s.committed
  {
  }

  /**
    Reads see the last write: in any run, a process that holds a home block's buffer finds in it
    the data of the last write to that block since the machine booted, and without one what the
    block durably held at boot.
   */
  lemma ReadsLastWrite(states: seq<State>, steps: seq<Step>, i: nat, p: nat, b: nat)
    requires Run(states, steps) && i <= |steps| && Holds(states[i], p, b) && !InLog(states[i].start, b)
    ensures forall j: nat :: LastWrite(steps, i, b, j) ==> states[i].cache[b].data == steps[j].data
    ensures (forall j: nat :: !LastWrite(steps, i, b, j)) ==>
              var k := LastBoot(steps, i); b in states[k].committed && states[i].cache[b].data == states[k].committed[b]
  {
    hide Init, Enabled, Do;
    ReadsLatest(states, steps, i, p, b);
    LogicalIsReplay(states, steps, i);
    LatestIs(states, steps, i, b);
    BlockAtBoot(states, steps, i, b);
  }

  /** The replay, block by block. */
  lemma LatestIs(states: seq<State>, steps: seq<Step>, i: nat, b: nat)
    requires |states| == |steps| + 1 && i <= |steps| && var k := LastBoot(steps, i); states[i].logical == Replay(states[k].committed, steps[k..i])
    ensures forall j: nat :: LastWrite(steps, i, b, j) ==> b in states[i].logical && states[i].logical[b] == steps[j].data
    ensures (forall j: nat :: !LastWrite(steps, i, b, j)) ==>
              var k := LastBoot(steps, i); b in states[k].committed ==> b in states[i].logical && states[i].logical[b] == states[k].committed[b]
  {
    hide LastBoot, Replay;
    var k := LastBoot(steps, i);
    forall j: nat | LastWrite(steps, i, b, j) ensures b in states[i].logical && states[i].logical[b] == steps[j].data {
      InPart(steps, k, i, b, j);
      ReplayLast(states[k].committed, steps[k..i], b, j - k);
    }
    if (forall j: nat :: !LastWrite(steps, i, b, j)) && b in states[k].committed {
      NoneWrites(steps, k, i, b);
      ReplayKeeps(states[k].committed, steps[k..i], b);
    }
  }

  lemma InPart(steps: seq<Step>, k: nat, i: nat, b: nat, j: nat)
    requires LastWrite(steps, i, b, j) && k <= i && (k > 0 ==> steps[k - 1].Crash?)
    ensures k <= j && steps[k..i][j - k] == steps[j] && forall x :: j - k < x < i - k ==> !Writes(steps[k..i][x], b)
  {
    var part := steps[k..i];
    forall x | j - k < x < |part| ensures !Writes(part[x], b) { assert part[x] == steps[k + x]; }
  }

  lemma {:induction false} NoneWrites(steps: seq<Step>, k: nat, i: nat, b: nat)
    requires k <= i <= |steps| && (forall j :: k <= j < i ==> !steps[j].Crash?) && forall j: nat :: !LastWrite(steps, i, b, j)
    ensures forall x :: 0 <= x < i - k ==> !Writes(steps[k..i][x], b)
  {
    if x :| k <= x < i && Writes(steps[x], b) {
      var j := LatestOf(steps, x, i, b);
      assert LastWrite(steps, i, b, j);
    }
  }

  /** The last write at or behind `x`. */
  lemma {:induction false} LatestOf(steps: seq<Step>, x: nat, i: nat, b: nat) returns (j: nat)
    requires x < i <= |steps| && Writes(steps[x], b)
    ensures x <= j < i && Writes(steps[j], b) && forall k :: j < k < i ==> !Writes(steps[k], b)
    decreases i
  {
    if Writes(steps[i - 1], b) {
      j := i - 1;
    } else {
      j := LatestOf(steps, x, i - 1, b);
    }
  }

  /** The blocks there are do not change. */
  lemma BlockAtBoot(states: seq<State>, steps: seq<Step>, i: nat, b: nat)
    requires Run(states, steps) && i <= |steps|
    ensures b in states[i].logical ==> b in states[LastBoot(steps, i)].committed
  {
    hide Init, Enabled, Do;
    RunBlocks(states, steps, i);
    RunBlocks(states, steps, LastBoot(steps, i));
  }

  lemma {:induction false} RunBlocks(states: seq<State>, steps: seq<Step>, i: nat)
    requires Run(states, steps) && i <= |steps|
    ensures states[i].logical.Keys == states[i].committed.Keys == states[0].committed.Keys
    decreases i
  {
    hide Enabled, Do, Init, Inv;
    RunKeeps(states, steps, i);
    SameBlocks(states[i]);
    if i > 0 {
      RunBlocks(states, steps, i - 1);
      StepWrites(states[i - 1], steps[i - 1]);
    }
  }

  lemma SameBlocks(s: State)
    requires Inv(s)
    ensures s.logical.Keys == s.committed.Keys
  {
    hide Admission, Phased, CacheOk, Current, Home;
  }

  /**
    The committed blocks change at header writes only, and there become what was committed at
    boot with every write since: all of the ended operations, as no operation is running then.
   */
  lemma CommitReplays(states: seq<State>, steps: seq<Step>, i: nat)
    requires Run(states, steps) && i < |steps|
    ensures !steps[i].WriteHead? ==> states[i + 1].committed == states[i].committed
    ensures steps[i].WriteHead? ==>
              var k := LastBoot(steps, i);
              && states[i + 1].committed == Replay(states[k].committed, steps[k..i])
              && (forall p :: 0 <= p < |states[i].ops| ==> states[i].ops[p].Outside?)
              && (forall b :: b in states[i].cache ==> !states[i].cache[b].unlogged)
  {
    hide Init, Inv, Enabled, Do;
    StepAt(states, steps, i);
    StepWrites(states[i], steps[i]);
    LogicalIsReplay(states, steps, i);
    RunKeeps(states, steps, i);
    if steps[i].WriteHead? {
      CommitIsRunning(states[i], steps[i].p);
      CommittingIsQuiet(states[i]);
    }
  }

  lemma StepAt(states: seq<State>, steps: seq<Step>, i: nat)
    requires Run(states, steps) && i < |steps|
    ensures Enabled(states[i], steps[i]) && states[i + 1] == Do(states[i], steps[i])
  {
    hide Enabled, Do, Init;
  }

  lemma CommitIsRunning(s: State, p: nat)
    requires Enabled(s, WriteHead(p))
    ensures s.phase.Committing?
  {
  }

  /** Step `j` is the last header write of a commit among the first `i` steps. */
  ghost predicate LastCommit(steps: seq<Step>, i: nat, j: nat) {
    j < i <= |steps| && steps[j].WriteHead? && forall k :: j < k < i ==> !steps[k].WriteHead?
  }

  lemma {:induction false} CommittedSince(states: seq<State>, steps: seq<Step>, j: nat, i: nat)
    requires Run(states, steps) && j <= i <= |steps| && forall k :: j <= k < i ==> !steps[k].WriteHead?
    ensures states[i].committed == states[j].committed
    decreases i
  {
    hide Enabled, Do, Init;
    if j < i {
      CommittedSince(states, steps, j, i - 1);
      StepWrites(states[i - 1], steps[i - 1]);
    }
  }

  /**
    Crash safety by the run's steps: power off after any number of steps, interrupt recovery any
    number of times, and let it finish. Every home block then holds the last write to it before
    the last commit since that commit's boot, and without one what it held at that boot; before
    any commit all blocks are as they were in the beginning.
   */
  lemma CrashKeepsCommits(states: seq<State>, steps: seq<Step>, i: nat, crashes: seq<nat>, b: nat)
    requires Run(states, steps) && i <= |steps| && b in states[0].committed
    ensures var s := states[i];
            && Bootable(s.start, s.disk) && Bootable(s.start, CrashedRecoveries(s.start, s.disk, crashes))
            && var home := Home(s.start, Recover(s.start, CrashedRecoveries(s.start, s.disk, crashes)));
               && b in home
               && ((forall j: nat :: !LastCommit(steps, i, j)) ==> home[b] == states[0].committed[b])
               && (forall j: nat :: LastCommit(steps, i, j) ==>
                     && (forall w: nat :: LastWrite(steps, j, b, w) ==> home[b] == steps[w].data)
                     && ((forall w: nat :: !LastWrite(steps, j, b, w)) ==>
                           b in states[LastBoot(steps, j)].committed && home[b] == states[LastBoot(steps, j)].committed[b]))
  {
    hide Init, Enabled, Do, Inv, LastBoot, Bootable, CrashedRecoveries, Recover, Home, Replay;
    CrashSafe(states, steps, i, crashes);
    RunBlocks(states, steps, i);
    if forall j: nat :: !LastCommit(steps, i, j) {
      NoCommit(steps, i);
      CommittedSince(states, steps, 0, i);
    }
    forall j: nat | LastCommit(steps, i, j)
      ensures (forall w: nat :: LastWrite(steps, j, b, w) ==> states[i].committed[b] == steps[w].data)
      ensures (forall w: nat :: !LastWrite(steps, j, b, w)) ==>
                b in states[LastBoot(steps, j)].committed && states[i].committed[b] == states[LastBoot(steps, j)].committed[b]
    {
      AfterCommit(states, steps, i, j, b);
    }
  }

  lemma NoCommit(steps: seq<Step>, i: nat)
    requires i <= |steps| && forall j: nat :: !LastCommit(steps, i, j)
    ensures forall k :: 0 <= k < i ==> !steps[k].WriteHead?
  {
    if x :| 0 <= x < i && steps[x].WriteHead? {
      var j := LatestCommit(steps, x, i);
      assert LastCommit(steps, i, j);
    }
  }

  lemma {:induction false} LatestCommit(steps: seq<Step>, x: nat, i: nat) returns (j: nat)
    requires x < i <= |steps| && steps[x].WriteHead?
    ensures j < i && steps[j].WriteHead? && forall k :: j < k < i ==> !steps[k].WriteHead?
    decreases i
  {
    if steps[i - 1].WriteHead? {
      j := i - 1;
    } else {
      j := LatestCommit(steps, x, i - 1);
    }
  }

  lemma AfterCommit(states: seq<State>, steps: seq<Step>, i: nat, j: nat, b: nat)
    requires Run(states, steps) && i <= |steps| && LastCommit(steps, i, j) && b in states[0].committed
    ensures b in states[i].committed
    ensures forall w: nat :: LastWrite(steps, j, b, w) ==> states[i].committed[b] == steps[w].data
    ensures (forall w: nat :: !LastWrite(steps, j, b, w)) ==>
              b in states[LastBoot(steps, j)].committed && states[i].committed[b] == states[LastBoot(steps, j)].committed[b]
  {
    hide Init, Enabled, Do, Inv, LastBoot;
    CommittedSince(states, steps, j + 1, i);
    CommitReplays(states, steps, j);
    LogicalIsReplay(states, steps, j);
    RunBlocks(states, steps, j);
    RunBlocks(states, steps, i);
    RunBlocks(states, steps, LastBoot(steps, j));
    LatestIs(states, steps, j, b);
  }

  // --------------------------------------------------------- a write on its way to the disk

  const B: nat := FIRST  // the block written
  const L: nat := 1      // the log block it goes through

  function Own(data: Block, refcnt: int): Buf {
    Buf(true, data, refcnt, {0}, Some(0), false)
  }

  /** The disk with three blocks set: the header, the log block and the home block. */
  ghost function DiskWith(head: Block, log: Block, home: Block): Disk {
    EmptyDisk()[0 := head][L := log][B := home]
  }

  ghost function HomeWith(data: Block): Disk {
    EmptyHome()[B := data]
  }

  /** One process does everything; the buffers it has got are its own. */
  ghost function Alone(disk: Disk, cache: map<nat, Buf>, lh: seq<nat>, inside: bool, committing: bool, phase: Phase, logical: Disk, committed: Disk): State {
    State(0, disk, cache, lh, if inside then 1 else 0, committing, [if inside then Inside(Elems(lh)) else Outside, Outside, Outside], phase, logical, committed)
  }

  /** The operation has ended and the commit is about to begin. */
  ghost function Begun(data: Block): State {
    Alone(EmptyDisk(), map[B := Buf(true, data, 1, {}, None, false)], [B], false, true, Committing(0, [B], EmptyDisk()), HomeWith(data), EmptyHome())
  }

  lemma Blocks()
    ensures 0 in EmptyDisk() && L in EmptyDisk() && B in EmptyDisk() && B in EmptyHome()
    ensures EmptyDisk()[0] == EmptyDisk()[L] == EmptyDisk()[B] == Zero() && |Zero().word| == WORDS
    ensures DiskWith(Zero(), Zero(), Zero()) == EmptyDisk() && HomeWith(Zero()) == EmptyHome()
    ensures InLog(0, 0) && InLog(0, L) && !InLog(0, B)
  {
  }

  ghost function BreadSteps(b: nat): seq<Step> {
    [Get(0, b, BLOCKS), Lock(0, b), Fill(0, b)]
  }

  lemma GetRuns(s: State, b: nat)
    requires Up(s) && b in s.disk && b !in s.cache && BLOCKS !in s.cache && |s.cache| < NBUF
    ensures Enabled(s, Get(0, b, BLOCKS))
    ensures Do(s, Get(0, b, BLOCKS)) == s.(cache := s.cache[b := Buf(false, Block([]), 1, {0}, None, false)])
  {
    assert s.cache - {BLOCKS} == s.cache;
  }

  lemma LockRuns(s: State, b: nat)
    ensures var s1 := s.(cache := s.cache[b := Buf(false, Block([]), 1, {0}, None, false)]);
            Enabled(s1, Lock(0, b)) && Do(s1, Lock(0, b)) == s.(cache := s.cache[b := Buf(false, Block([]), 1, {0}, Some(0), false)])
  {
    assert s.cache[b := Buf(false, Block([]), 1, {0}, None, false)][b := Buf(false, Block([]), 1, {0}, Some(0), false)]
        == s.cache[b := Buf(false, Block([]), 1, {0}, Some(0), false)];
  }

  lemma FillRuns(s: State, b: nat)
    requires b in s.disk
    ensures var s2 := s.(cache := s.cache[b := Buf(false, Block([]), 1, {0}, Some(0), false)]);
            Enabled(s2, Fill(0, b)) && Do(s2, Fill(0, b)) == s.(cache := s.cache[b := Own(s.disk[b], 1)])
  {
    assert s.cache[b := Buf(false, Block([]), 1, {0}, Some(0), false)][b := Own(s.disk[b], 1)] == s.cache[b := Own(s.disk[b], 1)];
  }

  /** bread of a block that is not cached, with room in the cache. */
  lemma BreadRuns(s: State, b: nat)
    requires Up(s) && b in s.disk && b !in s.cache && BLOCKS !in s.cache && |s.cache| < NBUF
    ensures Reaches(s, BreadSteps(b), s.(cache := s.cache[b := Own(s.disk[b], 1)]))
  {
    hide Reaches;
    var s1 := s.(cache := s.cache[b := Buf(false, Block([]), 1, {0}, None, false)]);
    var s2 := s.(cache := s.cache[b := Buf(false, Block([]), 1, {0}, Some(0), false)]);
    var t := s.(cache := s.cache[b := Own(s.disk[b], 1)]);
    GetRuns(s, b);
    LockRuns(s, b);
    FillRuns(s, b);
    hide Enabled, Do;
    TwoSteps(s1, Lock(0, b), s2, Fill(0, b), t);
    Then(s, Get(0, b, BLOCKS), [Lock(0, b), Fill(0, b)], t);
    assert [Get(0, b, BLOCKS)] + [Lock(0, b), Fill(0, b)] == BreadSteps(b);
  }

  /** The operation has read the block. */
  ghost function ReadIn(): State {
    Alone(EmptyDisk(), map[B := Own(Zero(), 1)], [], true, false, Ready, EmptyHome(), EmptyHome())
  }

  /** It has written and logged it. */
  ghost function Logged(data: Block): State {
    Alone(EmptyDisk(), map[B := Own(data, 2)], [B], true, false, Ready, HomeWith(data), EmptyHome())
  }

  /** bread, a write, log_write, brelse and end_op: the commit has its transaction. */
  lemma OperationRuns(data: Block) returns (steps: seq<Step>)
    ensures Reaches(Idle(Ready), steps, Begun(data)) && exists i :: 0 <= i < |steps| && steps[i] == Modify(0, B, data)
  {
    hide Reaches, Idle, Begun, ReadIn, Logged;
    var read := ReadRuns();
    WriteRuns(data);
    var write := [Modify(0, B, data), LogWrite(0, B)];
    var end := EndRuns(data);
    ReachesConcat(Idle(Ready), read, ReadIn(), write, Logged(data));
    ReachesConcat(Idle(Ready), read + write, Logged(data), end, Begun(data));
    steps := read + write + end;
    assert steps[|read|] == write[0];
  }

  lemma ReadRuns() returns (steps: seq<Step>)
    ensures Reaches(Idle(Ready), steps, ReadIn())
  {
    hide EmptyDisk, EmptyHome, Zero, Reaches, DiskWith;
    Blocks();
    NoneListed();
    var s := Alone(EmptyDisk(), map[], [], true, false, Ready, EmptyHome(), EmptyHome());
    BreadRuns(s, B);
    assert s.(cache := s.cache[B := Own(Zero(), 1)]) == ReadIn();
    steps := First(Idle(Ready), BeginOp(0), s, BreadSteps(B), ReadIn());
  }

  lemma WriteRuns(data: Block)
    ensures Reaches(ReadIn(), [Modify(0, B, data), LogWrite(0, B)], Logged(data))
  {
    hide EmptyDisk, EmptyHome, Zero, Reaches, DiskWith;
    Blocks();
    NoneListed();
    var s := ReadIn().(cache := map[B := Own(data, 1).(unlogged := true)], logical := HomeWith(data));
    JoinOne(s, Logged(data));
    TwoSteps(ReadIn(), Modify(0, B, data), s, LogWrite(0, B), Logged(data));
  }

  lemma EndRuns(data: Block) returns (steps: seq<Step>)
    ensures Reaches(Logged(data), steps, Begun(data))
  {
    hide EmptyDisk, EmptyHome, Zero, Reaches, DiskWith, HomeWith;
    var s1 := Logged(data).(cache := map[B := Own(data, 2).(holder := None)]);
    var s2 := Logged(data).(cache := map[B := Buf(true, data, 1, {}, None, false)]);
    assert Do(s1, Unref(0, B)) == s2 by { assert {0} - {0} == {}; }
    Stop(Begun(data));
    steps := First(s2, EndOp(0), Begun(data), [], Begun(data));
    steps := First(s1, Unref(0, B), s2, steps, Begun(data));
    steps := First(Logged(data), Unlock(0, B), s1, steps, Begun(data));
  }

  lemma JoinOne(s: State, s': State)
    requires s.lh == [] && s'.lh == [B] && s.ops == [Inside({}), Outside, Outside] && s'.ops == [Inside({B}), Outside, Outside]
    ensures Absorb(s.lh, B) == s'.lh && s.ops[0 := Inside({} + {B})] == s'.ops
  {
    var none: set<nat> := {};
    assert none + {B} == {B};
  }

  lemma NoneListed()
    ensures var none: seq<nat> := []; Elems(none) == {} && Elems([B]) == {B}
  {
  }

  lemma First(s: State, step: Step, s': State, rest: seq<Step>, t: State) returns (steps: seq<Step>)
    requires Enabled(s, step) && Do(s, step) == s' && Reaches(s', rest, t)
    ensures steps == [step] + rest && Reaches(s, steps, t)
  {
    hide Enabled, Do, Reaches;
    Then(s, step, rest, t);
    steps := [step] + rest;
  }

  /** The transaction is in the log, its home buffer and the log buffer still held. */
  ghost function Copied(data: Block): State {
    Begun(data).(disk := DiskWith(Zero(), data, Zero()), cache := map[B := Own(data, 2), L := Own(data, 1)], phase := Committing(1, [B], EmptyDisk()))
  }

  ghost function Head(): Block {
    HeadBlock(Zero(), [B])
  }

  /** The header is written. */
  ghost function Committed(data: Block): State {
    Begun(data).(disk := DiskWith(Head(), data, Zero()), cache := map[B := Own(data, 2), L := Own(data, 1), 0 := Own(Head(), 1)],
                 phase := Committing(2, [B], EmptyDisk()), committed := HomeWith(data))
  }

  /** write_log. */
  lemma CopyRuns(data: Block) returns (steps: seq<Step>)
    ensures Reaches(Begun(data), steps, Copied(data))
  {
    hide Reaches;
    var s0, t := Begun(data), Copied(data);
    var s4 := s0.(cache := map[B := Buf(true, data, 2, {0}, None, false), L := Own(Zero(), 1)]);
    var s5 := s0.(cache := map[B := Own(data, 2), L := Own(Zero(), 1)]);
    var s3 := LogBread(data);
    HomeGet(data);
    HomeLock(data);
    CopyStep(data);
    Stop(t);
    hide Enabled, Do, Begun, Copied;
    var rest := First(s5, CopyToLog(0), t, [], t);
    rest := First(s4, Lock(0, B), s5, rest, t);
    rest := First(s3, Get(0, B, B), s4, rest, t);
    ReachesConcat(s0, BreadSteps(L), s3, rest, t);
    steps := BreadSteps(L) + rest;
  }

  lemma LogBread(data: Block) returns (s: State)
    ensures s == Begun(data).(cache := map[B := Buf(true, data, 1, {}, None, false), L := Own(Zero(), 1)])
    ensures Reaches(Begun(data), BreadSteps(L), s)
  {
    hide EmptyDisk, EmptyHome, Zero, Reaches, HomeWith, DiskWith;
    Blocks();
    BreadRuns(Begun(data), L);
    s := Begun(data).(cache := Begun(data).cache[L := Own(Zero(), 1)]);
  }

  lemma HomeGet(data: Block)
    ensures var s := Begun(data).(cache := map[B := Buf(true, data, 1, {}, None, false), L := Own(Zero(), 1)]);
            Enabled(s, Get(0, B, B)) && Do(s, Get(0, B, B)) == Begun(data).(cache := map[B := Buf(true, data, 2, {0}, None, false), L := Own(Zero(), 1)])
  {
    hide EmptyDisk, EmptyHome, Zero, HomeWith, DiskWith;
    Blocks();
    Joins();
  }

  lemma HomeLock(data: Block)
    ensures var s := Begun(data).(cache := map[B := Buf(true, data, 2, {0}, None, false), L := Own(Zero(), 1)]);
            Enabled(s, Lock(0, B)) && Do(s, Lock(0, B)) == Begun(data).(cache := map[B := Own(data, 2), L := Own(Zero(), 1)])
  {
    hide EmptyDisk, EmptyHome, Zero, HomeWith;
  }

  lemma CopyStep(data: Block)
    ensures var s := Begun(data).(cache := map[B := Own(data, 2), L := Own(Zero(), 1)]);
            Enabled(s, CopyToLog(0)) && Do(s, CopyToLog(0)) == Copied(data)
  {
    hide EmptyDisk, EmptyHome, Zero, HeadBlock, HomeWith;
    Blocks();
    assert EmptyDisk()[L := data] == DiskWith(Zero(), data, Zero());
  }

  lemma Joins()
    ensures var none: set<nat> := {}; none + {0} == {0}
  {
  }

  /** write_head, the commit point. */
  lemma HeadRuns(data: Block) returns (steps: seq<Step>)
    ensures Reaches(Copied(data), steps, Committed(data)) && exists i :: 0 <= i < |steps| && steps[i].WriteHead?
  {
    hide EmptyDisk, EmptyHome, Zero, Reaches, HeadBlock, HomeWith;
    Blocks();
    var s0, t := Copied(data), Committed(data);
    var s3 := s0.(cache := s0.cache[0 := Own(Zero(), 1)]);
    BreadRuns(s0, 0);
    HeadStep(data);
    Stop(t);
    var rest := First(s3, WriteHead(0), t, [], t);
    ReachesConcat(s0, BreadSteps(0), s3, rest, t);
    steps := BreadSteps(0) + rest;
    assert steps[3] == WriteHead(0);
  }

  lemma HeadStep(data: Block)
    ensures var s := Copied(data).(cache := Copied(data).cache[0 := Own(Zero(), 1)]);
            Enabled(s, WriteHead(0)) && Do(s, WriteHead(0)) == Committed(data)
  {
    hide EmptyDisk, EmptyHome, Zero, HeadBlock, HomeWith;
    Blocks();
    assert DiskWith(Zero(), data, Zero())[0 := Head()] == DiskWith(Head(), data, Zero());
  }

  /** The home block is written. */
  ghost function Installed(data: Block): State {
    Committed(data).(cache := map[B := Own(data, 1), L := Own(data, 1), 0 := Own(Head(), 1)], disk := DiskWith(Head(), data, data),
                     phase := Committing(3, [B], EmptyDisk()))
  }

  /** The header is empty again. */
  ghost function Cleared(data: Block): State {
    var head := HeadBlock(Head(), []);
    Installed(data).(lh := [], cache := map[B := Own(data, 1), L := Own(data, 1), 0 := Own(head, 1)], disk := DiskWith(head, data, data), phase := Finishing)
  }

  lemma InstallStep(data: Block)
    ensures Enabled(Committed(data), Install(0)) && Do(Committed(data), Install(0)) == Installed(data)
  {
    hide EmptyDisk, EmptyHome, Zero, HeadBlock, HomeWith;
    assert DiskWith(Head(), data, Zero())[B := data] == DiskWith(Head(), data, data);
  }

  lemma ClearStep(data: Block)
    ensures var s := Installed(data).(lh := []); Enabled(s, ClearHead(0)) && Do(s, ClearHead(0)) == Cleared(data)
  {
    hide EmptyDisk, EmptyHome, Zero, HeadBlock, HomeWith;
    Blocks();
    HeadLength(Zero(), [B]);
    var head := HeadBlock(Head(), []);
    assert DiskWith(Head(), data, data)[0 := head] == DiskWith(head, data, data);
  }

  /** install_trans and the header cleared: the block is at home and the log is empty. */
  lemma InstallRuns(data: Block) returns (steps: seq<Step>, last: State)
    ensures Reaches(Committed(data), steps, last)
    ensures last.phase.Ready? && last.lh == [] && B in last.disk && last.disk[B] == data && B in last.committed && last.committed[B] == data
  {
    hide EmptyDisk, EmptyHome, Zero, Reaches, HeadBlock;
    var forgotten := Installed(data).(lh := []);
    last := Cleared(data).(committing := false, phase := Ready);
    assert Enabled(Installed(data), ForgetTxn) && Do(Installed(data), ForgetTxn) == forgotten;
    assert Enabled(Cleared(data), CommitDone) && Do(Cleared(data), CommitDone) == last;
    InstallStep(data);
    ClearStep(data);
    Stop(last);
    hide Enabled, Do, Installed, Cleared, Committed;
    steps := First(Cleared(data), CommitDone, last, [], last);
    steps := First(forgotten, ClearHead(0), Cleared(data), steps, last);
    steps := First(Installed(data), ForgetTxn, forgotten, steps, last);
    steps := First(Committed(data), Install(0), Installed(data), steps, last);
  }

  lemma HeadLength(b: Block, lh: seq<nat>)
    requires |b.word| == WORDS && |lh| <= LOGBLOCKS
    ensures |HeadBlock(b, lh).word| == WORDS
  {
  }

  /** A run that boots, writes any data to a block, commits it and is ready again with the block at home. */
  lemma WriteIsCommitted(data: Block) returns (states: seq<State>, steps: seq<Step>)
    ensures Run(states, steps) && exists i :: 0 <= i < |steps| && steps[i] == Modify(0, B, data)
    ensures exists i :: 0 <= i < |steps| && steps[i].WriteHead?
    ensures var s := states[|steps|];
            s.phase.Ready? && s.lh == [] && B in s.disk && s.disk[B] == data && B in s.committed && s.committed[B] == data
  {
    hide Reaches, Run, Init, Idle, Begun, Copied, Committed;
    Recovered();
    var boot := [ReadHeader, RecoverClear];
    var op := OperationRuns(data);
    var copy := CopyRuns(data);
    var head := HeadRuns(data);
    var install, last := InstallRuns(data);
    ReachesConcat(Idle(Boot), boot, Idle(Ready), op, Begun(data));
    ReachesConcat(Idle(Boot), boot + op, Begun(data), copy, Copied(data));
    ReachesConcat(Idle(Boot), boot + op + copy, Copied(data), head, Committed(data));
    ReachesConcat(Idle(Boot), boot + op + copy + head, Committed(data), install, last);
    steps := boot + op + copy + head + install;
    BootInit();
    ReachesIsRun(Idle(Boot), steps, last);
    states := States(Idle(Boot), steps, last);
    var w :| 0 <= w < |op| && op[w] == Modify(0, B, data);
    assert steps[|boot| + w] == op[w];
    var i :| 0 <= i < |head| && head[i].WriteHead?;
    assert steps[|boot + op + copy| + i] == head[i];
  }
}
