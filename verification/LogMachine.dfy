/**
  The log, the buffer cache and the disk under every interleaving of processes, and under a
  crash (or a kernel panic, which stops the machine) at any moment.

  Each step is one critical section or one block write of the C code: bget's and brelse's
  sections under bcache.lock, taking and dropping a buffer's sleep lock, a disk read, a
  begin_op / end_op / log_write section under log.lock, and each block write of commit and of
  recovery. The callers' discipline is in the steps' guards: only a lock holder inside an
  operation changes a buffer, a changed buffer is passed to log_write before it is unlocked,
  and an operation logs at most MAXOPBLOCKS distinct blocks.
 */
module LogMachine {
  import opened Common
  import opened Disk
  import opened LogSpec

  /**
    A cached block. `users` are the processes that got a reference from bget and have not
    dropped it; `holder` has the sleep lock; `unlogged` says the holder changed the data and
    has not called log_write since.
   */
  datatype Buf = Buf(valid: bool, data: Block, refcnt: int, users: set<nat>, holder: Option<nat>, unlogged: bool)

  /** What a process is doing: nothing transactional, or an operation that logged these blocks. */
  datatype Op = Outside | Inside(logged: set<nat>)

  /**
    Where the commit and recovery code is. `Committing(k, txn, d0)` has issued `k` of the
    block writes of the transaction `txn`, which found the disk at `d0`.
   */
  datatype Phase =
    | Ready
    | Committing(k: nat, txn: seq<nat>, d0: Disk)
    | Finishing
    | Boot
    | Recovering(done: nat, found: Disk)

  /**
    `logical` is the plain block map the callers believe in, `committed` what they are
    entitled to find after a crash.
   */
  datatype State = State(
    start: nat,
    disk: Disk,
    cache: map<nat, Buf>,
    lh: seq<nat>,
    outstanding: int,
    committing: bool,
    ops: seq<Op>,
    phase: Phase,
    logical: Disk,
    committed: Disk)

  datatype Step =
    | BeginOp(p: nat)
    | EndOp(p: nat)
    | Get(p: nat, b: nat, victim: nat)
    | Lock(p: nat, b: nat)
    | Fill(p: nat, b: nat)
    | Modify(p: nat, b: nat, data: Block)
    | LogWrite(p: nat, b: nat)
    | Unlock(p: nat, b: nat)
    | Unref(p: nat, b: nat)
    | CopyToLog(p: nat)
    | WriteHead(p: nat)
    | Install(p: nat)
    | ForgetTxn
    | ClearHead(p: nat)
    | CommitDone
    | Crash
    | ReadHeader
    | RecoverInstall
    | RecoverClear

  // ------------------------------------------------------------------- steps

  ghost predicate Up(s: State) {
    !s.phase.Boot? && !s.phase.Recovering?
  }

  ghost predicate Holds(s: State, p: nat, b: nat) {
    b in s.cache && s.cache[b].valid && s.cache[b].holder == Some(p)
  }

  /** The process `p` has a change in a buffer that no log_write has recorded yet. */
  ghost predicate HasUnlogged(s: State, p: nat) {
    exists b :: b in s.cache && s.cache[b].unlogged && s.cache[b].holder == Some(p)
  }

  ghost function SetBuf(s: State, b: nat, buf: Buf): State {
    s.(cache := s.cache[b := buf])
  }

  /** begin_op goes ahead: nobody commits and the new operation's worst case still fits. */
  ghost predicate CanBeginOp(s: State, p: nat) {
    && Up(s) && p < |s.ops| && s.ops[p].Outside?
    && !s.committing
    && |s.lh| + (s.outstanding + 1) * MAXOPBLOCKS <= LOGBLOCKS
  }

  ghost function DoBeginOp(s: State, p: nat): State
    requires CanBeginOp(s, p)
  {
    s.(outstanding := s.outstanding + 1, ops := s.ops[p := Inside({})])
  }

  ghost predicate CanEndOp(s: State, p: nat) {
    Up(s) && p < |s.ops| && s.ops[p].Inside? && !HasUnlogged(s, p)
  }

  /** end_op: the last operation out turns to commit(), which has work only if blocks were logged. */
  ghost function DoEndOp(s: State, p: nat): State
    requires CanEndOp(s, p)
  {
    var s' := s.(outstanding := s.outstanding - 1, ops := s.ops[p := Outside]);
    if s'.outstanding != 0 then s'
    else s'.(committing := true, phase := if s.lh == [] then Finishing else Committing(0, s.lh, s.disk))
  }

  /** bget, under bcache.lock: a hit, a slot that holds no block yet, or an unreferenced victim. */
  ghost predicate CanGet(s: State, p: nat, b: nat, victim: nat) {
    && Up(s) && b in s.disk
    && (b in s.cache ==> p !in s.cache[b].users)
    && (b !in s.cache ==> if victim in s.cache then s.cache[victim].refcnt == 0 else |s.cache| < NBUF)
  }

  ghost function DoGet(s: State, p: nat, b: nat, victim: nat): State
    requires CanGet(s, p, b, victim)
  {
    if b in s.cache then
      var buf := s.cache[b];
      SetBuf(s, b, buf.(refcnt := buf.refcnt + 1, users := buf.users + {p}))
    else
      s.(cache := (s.cache - {victim})[b := Buf(false, Block([]), 1, {p}, None, false)])
  }

  ghost predicate CanLock(s: State, p: nat, b: nat) {
    b in s.cache && p in s.cache[b].users && s.cache[b].holder.None?
  }

  ghost function DoLock(s: State, p: nat, b: nat): State
    requires CanLock(s, p, b)
  {
    SetBuf(s, b, s.cache[b].(holder := Some(p)))
  }

  /** bread's disk read. */
  ghost predicate CanFill(s: State, p: nat, b: nat) {
    b in s.cache && s.cache[b].holder == Some(p) && !s.cache[b].valid && b in s.disk
  }

  ghost function DoFill(s: State, p: nat, b: nat): State
    requires CanFill(s, p, b)
  {
    SetBuf(s, b, s.cache[b].(valid := true, data := s.disk[b]))
  }

  ghost predicate CanModify(s: State, p: nat, b: nat) {
    Holds(s, p, b) && !InLog(s.start, b) && p < |s.ops| && s.ops[p].Inside?
  }

  ghost function DoModify(s: State, p: nat, b: nat, data: Block): State
    requires CanModify(s, p, b)
  {
    SetBuf(s, b, s.cache[b].(data := data, unlogged := true)).(logical := s.logical[b := data])
  }

  ghost predicate CanLogWrite(s: State, p: nat, b: nat) {
    && CanModify(s, p, b)
    && (b in s.ops[p].logged || |s.ops[p].logged| < MAXOPBLOCKS)
    && |s.lh| < LOGBLOCKS && s.outstanding >= 1
  }

  ghost function DoLogWrite(s: State, p: nat, b: nat): State
    requires CanLogWrite(s, p, b)
  {
    var buf := s.cache[b];
    var pin := if b in s.lh then 0 else 1;
    SetBuf(s, b, buf.(refcnt := buf.refcnt + pin, unlogged := false))
      .(lh := Absorb(s.lh, b), ops := s.ops[p := Inside(s.ops[p].logged + {b})])
  }

  /** The first half of brelse: drop the sleep lock. */
  ghost predicate CanUnlock(s: State, p: nat, b: nat) {
    Holds(s, p, b) && !s.cache[b].unlogged
  }

  ghost function DoUnlock(s: State, p: nat, b: nat): State
    requires CanUnlock(s, p, b)
  {
    SetBuf(s, b, s.cache[b].(holder := None))
  }

  /** The second half of brelse: drop the reference. */
  ghost predicate CanUnref(s: State, p: nat, b: nat) {
    b in s.cache && p in s.cache[b].users && s.cache[b].holder != Some(p)
  }

  ghost function DoUnref(s: State, p: nat, b: nat): State
    requires CanUnref(s, p, b)
  {
    var buf := s.cache[b];
    SetBuf(s, b, buf.(refcnt := buf.refcnt - 1, users := buf.users - {p}))
  }

  /** One round of write_log: cached block to log block, written through. */
  ghost predicate CanCopyToLog(s: State, p: nat) {
    && s.phase.Committing? && s.phase.k < |s.lh|
    && Holds(s, p, s.start + 1 + s.phase.k) && Holds(s, p, s.lh[s.phase.k])
  }

  ghost function DoCopyToLog(s: State, p: nat): State
    requires CanCopyToLog(s, p)
  {
    var to := s.start + 1 + s.phase.k;
    var data := s.cache[s.lh[s.phase.k]].data;
    SetBuf(s, to, s.cache[to].(data := data))
      .(disk := s.disk[to := data], phase := s.phase.(k := s.phase.k + 1))
  }

  /** write_head with the transaction in it: the commit point. */
  ghost predicate CanWriteHead(s: State, p: nat) {
    && s.phase.Committing? && s.phase.k == |s.lh| <= LOGBLOCKS && s.lh != []
    && Holds(s, p, s.start) && |s.cache[s.start].data.word| == WORDS
  }

  ghost function DoWriteHead(s: State, p: nat): State
    requires CanWriteHead(s, p)
  {
    var data := HeadBlock(s.cache[s.start].data, s.lh);
    SetBuf(s, s.start, s.cache[s.start].(data := data))
      .(disk := s.disk[s.start := data], phase := s.phase.(k := s.phase.k + 1), committed := s.logical)
  }

  /** One round of install_trans: log block to home block, written through, and unpinned. */
  ghost predicate CanInstall(s: State, p: nat) {
    && s.phase.Committing? && |s.lh| < s.phase.k <= 2 * |s.lh|
    && Holds(s, p, s.start + s.phase.k - |s.lh|) && Holds(s, p, s.lh[s.phase.k - |s.lh| - 1])
  }

  ghost function DoInstall(s: State, p: nat): State
    requires CanInstall(s, p)
  {
    var i := s.phase.k - |s.lh| - 1;
    var data := s.cache[s.start + 1 + i].data;
    var buf := s.cache[s.lh[i]];
    SetBuf(s, s.lh[i], buf.(data := data, refcnt := buf.refcnt - 1))
      .(disk := s.disk[s.lh[i] := data], phase := s.phase.(k := s.phase.k + 1))
  }

  ghost predicate CanForgetTxn(s: State) {
    s.phase.Committing? && s.lh != [] && s.phase.k == 2 * |s.lh| + 1
  }

  /** write_head with an empty header. */
  ghost predicate CanClearHead(s: State, p: nat) {
    && s.phase.Committing? && s.lh == []
    && Holds(s, p, s.start) && |s.cache[s.start].data.word| == WORDS
  }

  ghost function DoClearHead(s: State, p: nat): State
    requires CanClearHead(s, p)
  {
    var data := HeadBlock(s.cache[s.start].data, s.lh);
    SetBuf(s, s.start, s.cache[s.start].(data := data)).(disk := s.disk[s.start := data], phase := Finishing)
  }

  /** Power fails or the kernel panics: only the disk survives. */
  ghost function DoCrash(s: State): State {
    s.(cache := map[], lh := [], outstanding := 0, committing := false,
       ops := seq(|s.ops|, _ => Outside), phase := Boot, logical := s.committed)
  }

  ghost predicate CanReadHeader(s: State) {
    s.phase.Boot? && s.start in s.disk && IsHead(s.disk[s.start])
  }

  ghost predicate CanRecoverInstall(s: State) {
    s.phase.Recovering? && s.phase.done < |s.lh| && s.start + 1 + s.phase.done in s.disk
  }

  ghost function DoRecoverInstall(s: State): State
    requires CanRecoverInstall(s)
  {
    s.(disk := s.disk[s.lh[s.phase.done] := s.disk[s.start + 1 + s.phase.done]],
       phase := s.phase.(done := s.phase.done + 1))
  }

  ghost predicate CanRecoverClear(s: State) {
    && s.phase.Recovering? && s.phase.done == |s.lh|
    && s.start in s.disk && |s.disk[s.start].word| == WORDS
  }

  ghost function DoRecoverClear(s: State): State
    requires CanRecoverClear(s)
  {
    s.(disk := s.disk[s.start := HeadBlock(s.disk[s.start], [])], lh := [], phase := Ready)
  }

  ghost predicate Enabled(s: State, step: Step) {
    match step
    case BeginOp(p) => CanBeginOp(s, p)
    case EndOp(p) => CanEndOp(s, p)
    case Get(p, b, victim) => CanGet(s, p, b, victim)
    case Lock(p, b) => CanLock(s, p, b)
    case Fill(p, b) => CanFill(s, p, b)
    case Modify(p, b, data) => CanModify(s, p, b)
    case LogWrite(p, b) => CanLogWrite(s, p, b)
    case Unlock(p, b) => CanUnlock(s, p, b)
    case Unref(p, b) => CanUnref(s, p, b)
    case CopyToLog(p) => CanCopyToLog(s, p)
    case WriteHead(p) => CanWriteHead(s, p)
    case Install(p) => CanInstall(s, p)
    case ForgetTxn => CanForgetTxn(s)
    case ClearHead(p) => CanClearHead(s, p)
    case CommitDone => s.phase.Finishing?
    case Crash => true
    case ReadHeader => CanReadHeader(s)
    case RecoverInstall => CanRecoverInstall(s)
    case RecoverClear => CanRecoverClear(s)
  }

  ghost function Do(s: State, step: Step): State
    requires Enabled(s, step)
  {
    match step
    case BeginOp(p) => DoBeginOp(s, p)
    case EndOp(p) => DoEndOp(s, p)
    case Get(p, b, victim) => DoGet(s, p, b, victim)
    case Lock(p, b) => DoLock(s, p, b)
    case Fill(p, b) => DoFill(s, p, b)
    case Modify(p, b, data) => DoModify(s, p, b, data)
    case LogWrite(p, b) => DoLogWrite(s, p, b)
    case Unlock(p, b) => DoUnlock(s, p, b)
    case Unref(p, b) => DoUnref(s, p, b)
    case CopyToLog(p) => DoCopyToLog(s, p)
    case WriteHead(p) => DoWriteHead(s, p)
    case Install(p) => DoInstall(s, p)
    case ForgetTxn => s.(lh := [])
    case ClearHead(p) => DoClearHead(s, p)
    case CommitDone => s.(committing := false, phase := Ready)
    case Crash => DoCrash(s)
    case ReadHeader => s.(lh := ReadHead(s.disk[s.start]), phase := Recovering(0, s.disk))
    case RecoverInstall => DoRecoverInstall(s)
    case RecoverClear => DoRecoverClear(s)
  }

  /** A machine about to boot from a disk that durably holds `committed`. */
  ghost predicate Init(s: State) {
    && Bootable(s.start, s.disk) && Durable(s.start, s.disk, s.committed)
    && s.cache == map[] && s.lh == [] && s.outstanding == 0 && !s.committing
    && (forall p :: 0 <= p < |s.ops| ==> s.ops[p].Outside?)
    && s.phase.Boot? && s.logical == s.committed
  }

  /** `states` is a run: it starts in Init and each state follows by some enabled step. */
  ghost predicate Run(states: seq<State>, steps: seq<Step>) {
    && |states| == |steps| + 1
    && Init(states[0])
    && forall i :: 0 <= i < |steps| ==> Enabled(states[i], steps[i]) && states[i + 1] == Do(states[i], steps[i])
  }

  // --------------------------------------------------------------- invariant

  /** Log blocks still reserved by the operations that are running. */
  ghost function Reserved(ops: seq<Op>): int {
    if ops == [] then 0
    else Reserved(ops[..|ops| - 1]) + Share(ops[|ops| - 1])
  }

  ghost function Share(op: Op): int {
    match op case Outside => 0 case Inside(logged) => MAXOPBLOCKS - |logged|
  }

  ghost function Running(ops: seq<Op>): nat {
    if ops == [] then 0
    else Running(ops[..|ops| - 1]) + if ops[|ops| - 1].Inside? then 1 else 0
  }

  /** Log admission: what is in the header plus what is still promised fits in the log. */
  ghost predicate Admission(ops: seq<Op>, outstanding: int, lh: seq<nat>) {
    && outstanding == Running(ops)
    && |lh| + Reserved(ops) <= LOGBLOCKS
    && forall p :: 0 <= p < |ops| && ops[p].Inside? ==>
         |ops[p].logged| <= MAXOPBLOCKS && forall b :: b in ops[p].logged ==> b in lh
  }

  /** The blocks the log has pinned in the cache: listed in the header and not yet installed. */
  ghost function Pinned(lh: seq<nat>, phase: Phase): set<nat> {
    match phase
    case Recovering(_, _) => {}
    case Committing(k, _, _) =>
      if k <= |lh| then set b | b in lh else set i | k - |lh| - 1 <= i < |lh| :: lh[i]
    case _ => set b | b in lh
  }

  ghost predicate BufOk(start: nat, disk: Disk, logical: Disk, ops: seq<Op>, pinned: set<nat>, b: nat, buf: Buf) {
    && b in disk
    && buf.refcnt == |buf.users| + (if b in pinned then 1 else 0)
    && (buf.holder.Some? ==> buf.holder.value in buf.users)
    && (buf.valid && InLog(start, b) ==> buf.data == disk[b])
    && (buf.valid && !InLog(start, b) ==> b in logical && buf.data == logical[b])
    && (buf.unlogged ==>
          && buf.valid && !InLog(start, b)
          && buf.holder.Some? && buf.holder.value < |ops| && ops[buf.holder.value].Inside?)
    && (b in pinned ==> buf.valid)
  }

  ghost predicate CacheOk(start: nat, disk: Disk, logical: Disk, ops: seq<Op>, pinned: set<nat>, cache: map<nat, Buf>) {
    && |cache| <= NBUF
    && (forall b :: b in cache ==> BufOk(start, disk, logical, ops, pinned, b, cache[b]))
    && (forall b :: b in pinned ==> b in cache)
  }

  /** A home block's latest contents are on the disk unless the cache still owes them. */
  ghost predicate Current(disk: Disk, logical: Disk, cache: map<nat, Buf>, pinned: set<nat>)
  {
    forall b :: b in logical && b !in pinned && !(b in cache && cache[b].unlogged) ==>
      b in disk && disk[b] == logical[b]
  }

  /** `disk` is `d0` after the first `k` block writes of committing `txn`, and some are left. */
  ghost predicate CommitAt(start: nat, d0: Disk, txn: seq<nat>, logical: Disk, k: nat, disk: Disk) {
    && CommitReady(start, d0, txn, logical)
    && k + 1 <= 2 * |txn| + 2 == |CommitWrites(start, d0[start], txn, logical)|
    && disk == ApplyAll(d0, CommitWrites(start, d0[start], txn, logical)[..k])
  }

  ghost predicate PhaseOk(start: nat, disk: Disk, lh: seq<nat>, outstanding: int, committing: bool, phase: Phase,
                          logical: Disk, committed: Disk)
  {
    match phase
    case Ready =>
      !committing && Bootable(start, disk) && ReadHead(disk[start]) == [] && Home(start, disk) == committed
    case Finishing =>
      && committing && outstanding == 0 && lh == []
      && Bootable(start, disk) && ReadHead(disk[start]) == [] && Home(start, disk) == committed
    case Committing(k, txn, d0) =>
      && committing && outstanding == 0
      && txn != [] && CommitAt(start, d0, txn, logical, k, disk)
      && (lh == txn || (lh == [] && k == 2 * |txn| + 1))
      && Overlay(Home(start, d0), txn, logical) == logical
      && committed == (if k <= |txn| then Home(start, d0) else logical)
    case Boot =>
      && !committing && outstanding == 0 && lh == [] && logical == committed
      && Bootable(start, disk) && Durable(start, disk, committed)
    case Recovering(done, found) =>
      && !committing && outstanding == 0 && logical == committed
      && Bootable(start, found) && Durable(start, found, committed)
      && lh == ReadHead(found[start]) && done <= |lh|
      && disk == ApplyAll(found, RecoveryWrites(start, found)[..done])
  }

  ghost predicate Phased(s: State) {
    PhaseOk(s.start, s.disk, s.lh, s.outstanding, s.committing, s.phase, s.logical, s.committed)
  }

  ghost predicate Shape(start: nat, disk: Disk, lh: seq<nat>, logical: Disk, committed: Disk) {
    && (forall b :: InLog(start, b) ==> b in disk)
    && logical.Keys == committed.Keys == Home(start, disk).Keys
    && Loggable(start, lh) && (forall b :: b in lh ==> b in logical)
  }

  ghost predicate Inv(s: State) {
    && Shape(s.start, s.disk, s.lh, s.logical, s.committed)
    && Admission(s.ops, s.outstanding, s.lh)
    && Phased(s)
    && (!Up(s) ==> s.cache == map[])
    && CacheOk(s.start, s.disk, s.logical, s.ops, Pinned(s.lh, s.phase), s.cache)
    && (Up(s) ==> Current(s.disk, s.logical, s.cache, Pinned(s.lh, s.phase)))
  }

  // ------------------------------------------------------- counting arguments

  lemma {:induction false} UpdateCounts(ops: seq<Op>, p: nat, op: Op)
    requires p < |ops|
    ensures Reserved(ops[p := op]) == Reserved(ops) - Share(ops[p]) + Share(op)
    ensures Running(ops[p := op]) == Running(ops) - (if ops[p].Inside? then 1 else 0) + (if op.Inside? then 1 else 0)
  {
    var n := |ops| - 1;
    if p == n {
      assert ops[p := op][..n] == ops[..n];
    } else {
      UpdateCounts(ops[..n], p, op);
      assert ops[p := op][..n] == ops[..n][p := op];
    }
  }

  lemma {:induction false} NoneRunning(ops: seq<Op>)
    requires Running(ops) == 0
    ensures forall p :: 0 <= p < |ops| ==> ops[p].Outside?
  {
    if ops != [] {
      NoneRunning(ops[..|ops| - 1]);
    }
  }

  lemma {:induction false} AllOutside(ops: seq<Op>)
    requires forall p :: 0 <= p < |ops| ==> ops[p].Outside?
    ensures Running(ops) == 0 && Reserved(ops) == 0
  {
    if ops != [] {
      AllOutside(ops[..|ops| - 1]);
    }
  }

  /** Every running operation accounts for at most MAXOPBLOCKS reserved blocks, and for none at least. */
  lemma {:induction false} ReservedBounds(ops: seq<Op>)
    requires forall p :: 0 <= p < |ops| && ops[p].Inside? ==> |ops[p].logged| <= MAXOPBLOCKS
    ensures 0 <= Reserved(ops) <= MAXOPBLOCKS * Running(ops)
  {
    if ops != [] {
      ReservedBounds(ops[..|ops| - 1]);
    }
  }

  // ------------------------------------------------ every step keeps the invariant

  /** Replacing one buffer by another acceptable one. */
  lemma SetBufKeeps(start: nat, disk: Disk, logical: Disk, ops: seq<Op>, pinned: set<nat>, cache: map<nat, Buf>, b: nat, buf: Buf)
    requires CacheOk(start, disk, logical, ops, pinned, cache) && b in cache
    requires BufOk(start, disk, logical, ops, pinned, b, buf)
    ensures CacheOk(start, disk, logical, ops, pinned, cache[b := buf])
    ensures Current(disk, logical, cache, pinned) && (cache[b].unlogged ==> buf.unlogged) ==>
              Current(disk, logical, cache[b := buf], pinned)
  {
    hide BufOk;
    assert cache[b := buf].Keys == cache.Keys;
  }

  /** Bringing a new buffer in. */
  lemma InsertKeeps(start: nat, disk: Disk, logical: Disk, ops: seq<Op>, pinned: set<nat>, cache: map<nat, Buf>, b: nat, buf: Buf)
    requires CacheOk(start, disk, logical, ops, pinned, cache) && b !in cache && |cache| < NBUF
    requires BufOk(start, disk, logical, ops, pinned, b, buf)
    ensures CacheOk(start, disk, logical, ops, pinned, cache[b := buf])
    ensures Current(disk, logical, cache, pinned) ==> Current(disk, logical, cache[b := buf], pinned)
  {
    hide BufOk;
    InsertCount(cache, b, buf);
  }

  lemma InsertCount(cache: map<nat, Buf>, b: nat, buf: Buf)
    requires b !in cache
    ensures |cache[b := buf]| == |cache| + 1
  {
    assert cache[b := buf].Keys == cache.Keys + {b};
  }

  /** Recycling a buffer nobody references: it is not pinned and holds no unlogged change. */
  lemma EvictKeeps(start: nat, disk: Disk, logical: Disk, ops: seq<Op>, pinned: set<nat>, cache: map<nat, Buf>, victim: nat)
    requires CacheOk(start, disk, logical, ops, pinned, cache)
    requires victim in cache && cache[victim].refcnt == 0
    ensures CacheOk(start, disk, logical, ops, pinned, cache - {victim})
    ensures |cache - {victim}| == |cache| - 1
    ensures Current(disk, logical, cache, pinned) ==> Current(disk, logical, cache - {victim}, pinned)
  {
    assert BufOk(start, disk, logical, ops, pinned, victim, cache[victim]);
    assert victim !in pinned && !cache[victim].unlogged;
    hide BufOk;
    assert (cache - {victim}).Keys == cache.Keys - {victim};
  }

  lemma CacheFacts(s: State, b: nat)
    requires Inv(s)
    ensures b in s.cache ==> BufOk(s.start, s.disk, s.logical, s.ops, Pinned(s.lh, s.phase), b, s.cache[b])
    ensures |s.cache| <= NBUF && forall x :: x in Pinned(s.lh, s.phase) ==> x in s.cache
  {
    hide PhaseOk, Shape, Admission, Pinned, Current, BufOk;
  }

  lemma GetKeeps(s: State, p: nat, b: nat, victim: nat)
    requires Inv(s) && CanGet(s, p, b, victim)
    ensures Inv(DoGet(s, p, b, victim))
  {
    hide PhaseOk, Shape, Admission, Pinned, Current, CacheOk;
    var pinned := Pinned(s.lh, s.phase);
    CacheFacts(s, b);
    if b in s.cache {
      var buf := s.cache[b];
      SetBufKeeps(s.start, s.disk, s.logical, s.ops, pinned, s.cache, b, buf.(refcnt := buf.refcnt + 1, users := buf.users + {p}));
    } else {
      GetMissCache(s.start, s.disk, s.logical, s.ops, pinned, s.cache, p, b, victim);
    }
  }

  lemma GetMissCache(start: nat, disk: Disk, logical: Disk, ops: seq<Op>, pinned: set<nat>, cache: map<nat, Buf>,
                     p: nat, b: nat, victim: nat)
    requires CacheOk(start, disk, logical, ops, pinned, cache) && b in disk && b !in cache && b !in pinned && |cache| <= NBUF
    requires if victim in cache then cache[victim].refcnt == 0 else |cache| < NBUF
    ensures var cache' := (cache - {victim})[b := Buf(false, Block([]), 1, {p}, None, false)];
            && CacheOk(start, disk, logical, ops, pinned, cache')
            && (Current(disk, logical, cache, pinned) ==> Current(disk, logical, cache', pinned))
  {
    hide CacheOk, Current;
    if victim in cache {
      EvictKeeps(start, disk, logical, ops, pinned, cache, victim);
    } else {
      assert cache - {victim} == cache;
    }
    InsertKeeps(start, disk, logical, ops, pinned, cache - {victim}, b, Buf(false, Block([]), 1, {p}, None, false));
  }

  lemma LockKeeps(s: State, p: nat, b: nat)
    requires Inv(s) && CanLock(s, p, b)
    ensures Inv(DoLock(s, p, b))
  {
    hide PhaseOk, Shape, Admission, Pinned, Current, CacheOk;
    var pinned := Pinned(s.lh, s.phase);
    CacheFacts(s, b);
    SetBufKeeps(s.start, s.disk, s.logical, s.ops, pinned, s.cache, b, s.cache[b].(holder := Some(p)));
  }

  /** A block that is not validly cached is on the disk in its latest version. */
  lemma FillKeeps(s: State, p: nat, b: nat)
    requires Inv(s) && CanFill(s, p, b)
    ensures Inv(DoFill(s, p, b))
  {
    var pinned := Pinned(s.lh, s.phase);
    assert BufOk(s.start, s.disk, s.logical, s.ops, pinned, b, s.cache[b]);
    assert !InLog(s.start, b) ==> b in s.logical;
    hide PhaseOk, Shape, Admission, Pinned, CacheOk;
    SetBufKeeps(s.start, s.disk, s.logical, s.ops, pinned, s.cache, b, s.cache[b].(valid := true, data := s.disk[b]));
  }

  lemma UnlockKeeps(s: State, p: nat, b: nat)
    requires Inv(s) && CanUnlock(s, p, b)
    ensures Inv(DoUnlock(s, p, b))
  {
    hide PhaseOk, Shape, Admission, Pinned, Current, CacheOk;
    var pinned := Pinned(s.lh, s.phase);
    CacheFacts(s, b);
    SetBufKeeps(s.start, s.disk, s.logical, s.ops, pinned, s.cache, b, s.cache[b].(holder := None));
  }

  lemma UnrefKeeps(s: State, p: nat, b: nat)
    requires Inv(s) && CanUnref(s, p, b)
    ensures Inv(DoUnref(s, p, b))
  {
    hide PhaseOk, Shape, Admission, Pinned, Current, CacheOk;
    var pinned := Pinned(s.lh, s.phase);
    var buf := s.cache[b];
    CacheFacts(s, b);
    SetBufKeeps(s.start, s.disk, s.logical, s.ops, pinned, s.cache, b, buf.(refcnt := buf.refcnt - 1, users := buf.users - {p}));
  }

  lemma BeginOpKeeps(s: State, p: nat)
    requires Inv(s) && CanBeginOp(s, p)
    ensures Inv(DoBeginOp(s, p))
  {
    hide Shape, Current, Pinned, Admission;
    BeginOpAdmission(s.ops, s.outstanding, s.lh, p);
  }

  /** One more operation whose worst case fits. */
  lemma BeginOpAdmission(ops: seq<Op>, outstanding: int, lh: seq<nat>, p: nat)
    requires Admission(ops, outstanding, lh) && p < |ops| && ops[p].Outside?
    requires |lh| + (outstanding + 1) * MAXOPBLOCKS <= LOGBLOCKS
    ensures Admission(ops[p := Inside({})], outstanding + 1, lh)
  {
    UpdateCounts(ops, p, Inside({}));
    ReservedBounds(ops);
  }

  /** A running operation keeps the commit code out. */
  lemma InsideMeansReady(s: State, p: nat)
    requires Inv(s) && p < |s.ops| && s.ops[p].Inside?
    ensures s.outstanding >= 1 && !s.committing && s.phase.Ready?
  {
    UpdateCounts(s.ops, p, Outside);
  }

  /** An operation that leaves no unlogged change behind can be forgotten by the cache. */
  lemma EndOpCache(s: State, p: nat)
    requires Inv(s) && CanEndOp(s, p)
    ensures CacheOk(s.start, s.disk, s.logical, s.ops[p := Outside], Pinned(s.lh, s.phase), s.cache)
    ensures Running(s.ops[p := Outside]) == 0 ==> forall b :: b in s.cache ==> !s.cache[b].unlogged
  {
    hide PhaseOk, Admission, Shape, Current, Pinned;
    forall b | b in s.cache
      ensures BufOk(s.start, s.disk, s.logical, s.ops[p := Outside], Pinned(s.lh, s.phase), b, s.cache[b])
    {
      assert s.cache[b].unlogged ==> s.cache[b].holder != Some(p);
    }
    if Running(s.ops[p := Outside]) == 0 {
      NoneRunning(s.ops[p := Outside]);
    }
  }

  lemma EndOpKeeps(s: State, p: nat)
    requires Inv(s) && CanEndOp(s, p)
    ensures Inv(DoEndOp(s, p))
  {
    hide Shape, Admission, Current, Pinned, CommitAt, CacheOk, HasUnlogged, Bootable, Home, Overlay;
    InsideMeansReady(s, p);
    var s' := DoEndOp(s, p);
    EndOpAdmission(s.ops, s.outstanding, s.lh, p);
    EndOpCache(s, p);
    PinsUnchanged(s.lh, s.phase, s'.phase);
    if s'.outstanding == 0 && s.lh != [] {
      CommitStarts(s);
    }
  }

  lemma PinsUnchanged(lh: seq<nat>, phase: Phase, phase': Phase)
    requires phase.Ready?
    requires phase'.Ready? || phase'.Finishing? || (phase'.Committing? && phase'.k == 0)
    ensures Pinned(lh, phase') == Pinned(lh, phase)
  {
  }

  lemma EndOpAdmission(ops: seq<Op>, outstanding: int, lh: seq<nat>, p: nat)
    requires Admission(ops, outstanding, lh) && p < |ops| && ops[p].Inside?
    ensures Admission(ops[p := Outside], outstanding - 1, lh)
    ensures Running(ops[p := Outside]) == outstanding - 1
  {
    UpdateCounts(ops, p, Outside);
  }

  /** With no change outstanding, the logical blocks are the home blocks overlaid with the header's. */
  lemma CommitStarts(s: State)
    requires Shape(s.start, s.disk, s.lh, s.logical, s.committed) && s.phase.Ready? && Phased(s)
    requires Current(s.disk, s.logical, s.cache, Pinned(s.lh, s.phase))
    requires forall b :: b in s.cache ==> !s.cache[b].unlogged
    ensures CommitAt(s.start, s.disk, s.lh, s.logical, 0, s.disk)
    ensures Overlay(Home(s.start, s.disk), s.lh, s.logical) == s.logical
  {
    hide CommitWrites, Durable, Overlay, Current, Home, LogCopies, HeadBlock, ReadHead, Contents;
    ReadyToCommit(s);
    CommitPoint(s.start, s.disk, s.lh, s.logical);
    OverlayIsLogical(s);
  }

  lemma ReadyToCommit(s: State)
    requires Shape(s.start, s.disk, s.lh, s.logical, s.committed) && s.phase.Ready? && Phased(s)
    ensures CommitReady(s.start, s.disk, s.lh, s.logical)
  {
    forall b | b in s.lh ensures b in s.disk {
      assert b in Home(s.start, s.disk);
    }
  }

  lemma OverlayIsLogical(s: State)
    requires Shape(s.start, s.disk, s.lh, s.logical, s.committed) && s.phase.Ready?
    requires Current(s.disk, s.logical, s.cache, Pinned(s.lh, s.phase))
    requires forall b :: b in s.cache ==> !s.cache[b].unlogged
    ensures Overlay(Home(s.start, s.disk), s.lh, s.logical) == s.logical
  {
    hide Loggable;
    var home := Home(s.start, s.disk);
    var o := Overlay(home, s.lh, s.logical);
    forall b | b in s.logical ensures b in o && o[b] == s.logical[b] {
      assert b in home;
      if b !in s.lh {
        assert b !in Pinned(s.lh, s.phase);
      }
    }
  }

  /** A change by the lock holder moves the logical block and its buffer together. */
  lemma ModifyCache(start: nat, disk: Disk, logical: Disk, ops: seq<Op>, pinned: set<nat>, cache: map<nat, Buf>, b: nat, data: Block)
    requires CacheOk(start, disk, logical, ops, pinned, cache) && Current(disk, logical, cache, pinned)
    requires b in cache && b in logical && cache[b].valid && !InLog(start, b)
    requires cache[b].holder.Some? && cache[b].holder.value < |ops| && ops[cache[b].holder.value].Inside?
    ensures var cache' := cache[b := cache[b].(data := data, unlogged := true)];
            && CacheOk(start, disk, logical[b := data], ops, pinned, cache')
            && Current(disk, logical[b := data], cache', pinned)
  {
    var cache' := cache[b := cache[b].(data := data, unlogged := true)];
    assert cache'.Keys == cache.Keys;
    assert BufOk(start, disk, logical, ops, pinned, b, cache[b]);
  }

  lemma ModifyKeeps(s: State, p: nat, b: nat, data: Block)
    requires Inv(s) && CanModify(s, p, b)
    ensures Inv(DoModify(s, p, b, data))
  {
    hide Admission, Home, Bootable, Pinned, CacheOk, Current, Loggable;
    InsideMeansReady(s, p);
    HolderSees(s, p, b);
    assert s.logical[b := data].Keys == s.logical.Keys;
    ModifyCache(s.start, s.disk, s.logical, s.ops, Pinned(s.lh, s.phase), s.cache, b, data);
  }

  /** Recording a changed block pins its buffer. */
  lemma LogWriteCache(start: nat, disk: Disk, logical: Disk, ops: seq<Op>, pinned: set<nat>, cache: map<nat, Buf>, p: nat, b: nat)
    requires CacheOk(start, disk, logical, ops, pinned, cache) && Current(disk, logical, cache, pinned)
    requires p < |ops| && ops[p].Inside?
    requires b in cache && cache[b].valid
    ensures var pin := if b in pinned then 0 else 1;
            var cache' := cache[b := cache[b].(refcnt := cache[b].refcnt + pin, unlogged := false)];
            && CacheOk(start, disk, logical, ops[p := Inside(ops[p].logged + {b})], pinned + {b}, cache')
            && Current(disk, logical, cache', pinned + {b})
  {
    var pin := if b in pinned then 0 else 1;
    var cache' := cache[b := cache[b].(refcnt := cache[b].refcnt + pin, unlogged := false)];
    assert cache'.Keys == cache.Keys;
    assert BufOk(start, disk, logical, ops, pinned, b, cache[b]);
  }

  lemma LogWritePins(start: nat, lh: seq<nat>, phase: Phase, b: nat)
    requires Loggable(start, lh) && |lh| < LOGBLOCKS && !InLog(start, b) && phase.Ready?
    ensures Loggable(start, Absorb(lh, b))
    ensures Pinned(Absorb(lh, b), phase) == Pinned(lh, phase) + {b}
    ensures b in lh <==> b in Pinned(lh, phase)
  {
  }

  lemma LogWriteKeeps(s: State, p: nat, b: nat)
    requires Inv(s) && CanLogWrite(s, p, b)
    ensures Inv(DoLogWrite(s, p, b))
  {
    hide Admission, Home, Bootable, Pinned, CacheOk, Current, Loggable, Absorb;
    InsideMeansReady(s, p);
    HolderSees(s, p, b);
    LogWriteAdmission(s.ops, s.outstanding, s.lh, p, b);
    LogWritePins(s.start, s.lh, s.phase, b);
    LogWriteCache(s.start, s.disk, s.logical, s.ops, Pinned(s.lh, s.phase), s.cache, p, b);
  }

  lemma LogWriteAdmission(ops: seq<Op>, outstanding: int, lh: seq<nat>, p: nat, b: nat)
    requires Admission(ops, outstanding, lh) && p < |ops| && ops[p].Inside?
    requires b in ops[p].logged || |ops[p].logged| < MAXOPBLOCKS
    ensures Admission(ops[p := Inside(ops[p].logged + {b})], outstanding, Absorb(lh, b))
  {
    var logged := ops[p].logged;
    UpdateCounts(ops, p, Inside(logged + {b}));
    if b in logged {
      assert logged + {b} == logged;
    } else {
      assert |logged + {b}| == |logged| + 1;
    }
  }

  lemma CrashKeeps(s: State)
    requires Inv(s)
    ensures Inv(DoCrash(s))
  {
    hide Bootable, Durable, Home, Current, CacheOk, Pinned, Admission, PhaseOk;
    var ops: seq<Op> := seq(|s.ops|, _ => Outside);
    IdleAdmission(ops, []);
    StaysDurable(s);
    CrashPhase(s);
    EmptyCacheOk(s.start, s.disk, s.committed, ops);
    NothingPinned([], Boot);
  }

  lemma CrashPhase(s: State)
    requires Bootable(s.start, s.disk) && Durable(s.start, s.disk, s.committed)
    ensures PhaseOk(s.start, s.disk, [], 0, false, Boot, s.committed, s.committed)
  {
  }

  // ------------------------------------------------------- the commit steps

  /** The writes of a commit, one by one. */
  lemma CommitWriteAt(start: nat, d0: Disk, txn: seq<nat>, logical: Disk, k: nat)
    requires CommitReady(start, d0, txn, logical) && k <= 2 * |txn| + 1
    ensures var ws := CommitWrites(start, d0[start], txn, logical);
            && |ws| == 2 * |txn| + 2
            && (k < |txn| ==> ws[k] == Write(start + 1 + k, logical[txn[k]]))
            && (k == |txn| ==> ws[k] == Write(start, HeadBlock(d0[start], txn)))
            && (|txn| < k <= 2 * |txn| ==> ws[k] == Write(txn[k - |txn| - 1], logical[txn[k - |txn| - 1]]))
            && (k == 2 * |txn| + 1 ==> ws[k] == Write(start, HeadBlock(HeadBlock(d0[start], txn), [])))
  {
  }

  lemma CommitAdvance(start: nat, d0: Disk, txn: seq<nat>, logical: Disk, k: nat, disk: Disk)
    requires CommitAt(start, d0, txn, logical, k, disk)
    ensures var w := CommitWrites(start, d0[start], txn, logical)[k];
            && (k < 2 * |txn| + 1 ==> CommitAt(start, d0, txn, logical, k + 1, disk[w.blockno := w.data]))
            && (k == 2 * |txn| + 1 ==> disk[w.blockno := w.data] == ApplyAll(d0, CommitWrites(start, d0[start], txn, logical)))
  {
    hide CommitWrites;
    var ws := CommitWrites(start, d0[start], txn, logical);
    ApplyNext(d0, ws, k);
    if k == 2 * |txn| + 1 {
      assert ws[..k + 1] == ws;
    }
  }

  /** The next write while the log is being filled. */
  lemma AdvanceLog(start: nat, d0: Disk, txn: seq<nat>, logical: Disk, k: nat, disk: Disk)
    requires CommitAt(start, d0, txn, logical, k, disk) && k < |txn|
    ensures txn[k] in logical
    ensures CommitAt(start, d0, txn, logical, k + 1, disk[start + 1 + k := logical[txn[k]]])
  {
    hide CommitWrites, ApplyAll, CopiedHome;
    CommitAdvance(start, d0, txn, logical, k, disk);
    CommitWriteAt(start, d0, txn, logical, k);
  }

  /** The commit point. */
  lemma AdvanceHead(start: nat, d0: Disk, txn: seq<nat>, logical: Disk, disk: Disk)
    requires CommitAt(start, d0, txn, logical, |txn|, disk) && txn != []
    ensures start in disk && |disk[start].word| == WORDS && |txn| <= LOGBLOCKS
    ensures CommitAt(start, d0, txn, logical, |txn| + 1, disk[start := HeadBlock(disk[start], txn)])
  {
    hide CommitWrites, ApplyAll, CopiedHome;
    CommitDiskEarly(start, d0, txn, logical, |txn|);
    CommitAdvance(start, d0, txn, logical, |txn|, disk);
    CommitWriteAt(start, d0, txn, logical, |txn|);
  }

  /** The next write while the home blocks are being installed. */
  lemma AdvanceInstall(start: nat, d0: Disk, txn: seq<nat>, logical: Disk, i: nat, disk: Disk)
    requires CommitAt(start, d0, txn, logical, |txn| + 1 + i, disk) && i < |txn|
    ensures start + 1 + i in disk && txn[i] in logical && disk[start + 1 + i] == logical[txn[i]]
    ensures CommitAt(start, d0, txn, logical, |txn| + 2 + i, disk[txn[i] := logical[txn[i]]])
  {
    hide CommitWrites, ApplyAll, CopiedHome, Bootable, LogCopies, Contents, HeadBlock, ReadHead;
    CommitAdvance(start, d0, txn, logical, |txn| + 1 + i, disk);
    CommitWriteAt(start, d0, txn, logical, |txn| + 1 + i);
    CommitDiskLate(start, d0, txn, logical, i);
    CopyAt(start, disk, txn, logical, i);
  }

  lemma CopyAt(start: nat, disk: Disk, txn: seq<nat>, logical: Disk, i: nat)
    requires i < |txn| <= LOGBLOCKS
    requires forall b :: InLog(start, b) ==> b in disk
    requires forall b :: b in txn ==> b in logical
    requires LogCopies(start, disk, |txn|) == Contents(txn, logical)
    ensures start + 1 + i in disk && disk[start + 1 + i] == logical[txn[i]]
  {
    assert InLog(start, start + 1 + i);
    assert LogCopies(start, disk, |txn|)[i] == Contents(txn, logical)[i];
  }

  /** The last write. */
  lemma AdvanceClear(start: nat, d0: Disk, txn: seq<nat>, logical: Disk, disk: Disk)
    requires CommitAt(start, d0, txn, logical, 2 * |txn| + 1, disk) && txn != []
    requires Overlay(Home(start, d0), txn, logical) == logical
    ensures start in disk && |disk[start].word| == WORDS
    ensures var d' := disk[start := HeadBlock(disk[start], [])];
            Bootable(start, d') && ReadHead(d'[start]) == [] && Home(start, d') == logical
  {
    hide CommitWrites, ApplyAll, CopiedHome, LogCopies, Contents, HeadBlock;
    CommitAdvance(start, d0, txn, logical, 2 * |txn| + 1, disk);
    CommitWriteAt(start, d0, txn, logical, 2 * |txn| + 1);
    CommitDiskLate(start, d0, txn, logical, |txn|);
    CommitComplete(start, d0, txn, logical);
  }

  /** What a lock holder finds in a valid buffer. */
  lemma HolderSees(s: State, p: nat, b: nat)
    requires Inv(s) && Holds(s, p, b)
    ensures BufOk(s.start, s.disk, s.logical, s.ops, Pinned(s.lh, s.phase), b, s.cache[b])
    ensures b in s.disk && (b in s.logical <==> !InLog(s.start, b))
    ensures s.cache[b].data == if InLog(s.start, b) then s.disk[b] else s.logical[b]
  {
    hide PhaseOk, Admission, Current, Pinned, Loggable;
  }

  /** A block written to its buffer and to the disk together, possibly losing its pin. */
  lemma WriteThroughKeeps(start: nat, disk: Disk, logical: Disk, ops: seq<Op>, pinned: set<nat>, pinned': set<nat>,
                          cache: map<nat, Buf>, b: nat, data: Block, buf: Buf)
    requires CacheOk(start, disk, logical, ops, pinned, cache) && Current(disk, logical, cache, pinned)
    requires b in cache && b in disk && pinned' <= pinned <= pinned' + {b}
    requires BufOk(start, disk[b := data], logical, ops, pinned', b, buf)
    requires b in logical ==> data == logical[b]
    requires cache[b].unlogged ==> buf.unlogged
    ensures CacheOk(start, disk[b := data], logical, ops, pinned', cache[b := buf])
    ensures Current(disk[b := data], logical, cache[b := buf], pinned')
  {
    assert cache[b := buf].Keys == cache.Keys;
    forall x | x in cache && x != b ensures BufOk(start, disk[b := data], logical, ops, pinned', x, cache[x]) {
      assert BufOk(start, disk, logical, ops, pinned, x, cache[x]);
    }
  }

  lemma ShapeKeeps(start: nat, disk: Disk, lh: seq<nat>, logical: Disk, committed: Disk, b: nat, data: Block)
    requires Shape(start, disk, lh, logical, committed) && b in disk
    ensures Shape(start, disk[b := data], lh, logical, committed)
  {
    assert disk[b := data].Keys == disk.Keys;
    assert Home(start, disk[b := data]).Keys == Home(start, disk).Keys;
  }

  /** The facts about the header list every commit step needs. */
  lemma CommittingList(s: State)
    requires Inv(s) && s.phase.Committing?
    ensures Loggable(s.start, s.phase.txn) && Loggable(s.start, s.lh)
    ensures Admission(s.ops, 0, [])
  {
    NobodyInside(s);
  }

  lemma CopyToLogKeeps(s: State, p: nat)
    requires Inv(s) && CanCopyToLog(s, p)
    ensures Inv(DoCopyToLog(s, p))
  {
    hide CacheOk, Current, Shape, Admission, Pinned, CommitAt, Home, Overlay;
    var k, from, to := s.phase.k, s.lh[s.phase.k], s.start + 1 + s.phase.k;
    var data := s.cache[from].data;
    var pinned := Pinned(s.lh, s.phase);
    CommittingList(s);
    HolderSees(s, p, from);
    HolderSees(s, p, to);
    CopyKeepsPins(s.lh, s.phase);
    AdvanceLog(s.start, s.phase.d0, s.lh, s.logical, k, s.disk);
    ShapeKeeps(s.start, s.disk, s.lh, s.logical, s.committed, to, data);
    WriteThroughKeeps(s.start, s.disk, s.logical, s.ops, pinned, pinned, s.cache, to, data, s.cache[to].(data := data));
  }

  lemma CopyKeepsPins(lh: seq<nat>, phase: Phase)
    requires phase.Committing? && phase.k <= |lh|
    ensures Pinned(lh, phase.(k := phase.k + 1)) == Pinned(lh, phase)
  {
  }

  lemma WriteHeadKeeps(s: State, p: nat)
    requires Inv(s) && CanWriteHead(s, p)
    ensures Inv(DoWriteHead(s, p))
  {
    hide CacheOk, Current, Shape, Admission, Pinned, CommitAt, Home, Overlay;
    var data := HeadBlock(s.cache[s.start].data, s.lh);
    var pinned := Pinned(s.lh, s.phase);
    HolderSees(s, p, s.start);
    CopyKeepsPins(s.lh, s.phase);
    AdvanceHead(s.start, s.phase.d0, s.lh, s.logical, s.disk);
    ShapeKeeps(s.start, s.disk, s.lh, s.logical, s.committed, s.start, data);
    ShapeCommits(s.start, s.disk[s.start := data], s.lh, s.logical, s.committed);
    WriteThroughKeeps(s.start, s.disk, s.logical, s.ops, pinned, pinned, s.cache, s.start, data, s.cache[s.start].(data := data));
  }

  lemma ShapeCommits(start: nat, disk: Disk, lh: seq<nat>, logical: Disk, committed: Disk)
    requires Shape(start, disk, lh, logical, committed)
    ensures Shape(start, disk, lh, logical, logical) && Shape(start, disk, [], logical, committed)
  {
  }

  lemma InstallUnpins(lh: seq<nat>, phase: Phase)
    requires phase.Committing? && |lh| < phase.k <= 2 * |lh| && Distinct(lh)
    ensures Pinned(lh, phase.(k := phase.k + 1)) == Pinned(lh, phase) - {lh[phase.k - |lh| - 1]}
    ensures lh[phase.k - |lh| - 1] in Pinned(lh, phase)
  {
  }

  lemma InstallKeeps(s: State, p: nat)
    requires Inv(s) && CanInstall(s, p)
    ensures Inv(DoInstall(s, p))
  {
    hide CacheOk, Current, Shape, Admission, Pinned, CommitAt, Home, Overlay;
    var i := s.phase.k - |s.lh| - 1;
    var from, to := s.start + 1 + i, s.lh[i];
    var data, buf := s.cache[from].data, s.cache[to];
    var pinned := Pinned(s.lh, s.phase);
    CommittingList(s);
    HolderSees(s, p, from);
    HolderSees(s, p, to);
    InstallUnpins(s.lh, s.phase);
    AdvanceInstall(s.start, s.phase.d0, s.lh, s.logical, i, s.disk);
    ShapeKeeps(s.start, s.disk, s.lh, s.logical, s.committed, to, data);
    WriteThroughKeeps(s.start, s.disk, s.logical, s.ops, pinned, pinned - {to}, s.cache, to, data,
                      buf.(data := data, refcnt := buf.refcnt - 1));
  }

  lemma NothingPinned(lh: seq<nat>, phase: Phase)
    requires match phase
             case Committing(k, _, _) => lh == [] || k == 2 * |lh| + 1
             case Recovering(_, _) => true
             case _ => lh == []
    ensures Pinned(lh, phase) == {}
  {
  }

  lemma ForgetTxnKeeps(s: State)
    requires Inv(s) && CanForgetTxn(s)
    ensures Inv(s.(lh := []))
  {
    hide CacheOk, Current, Shape, Admission, Pinned, CommitAt, Home, Overlay;
    NothingPinned(s.lh, s.phase);
    NothingPinned([], s.phase);
    CommittingList(s);
    ShapeCommits(s.start, s.disk, s.lh, s.logical, s.committed);
  }

  lemma NobodyInside(s: State)
    requires Inv(s) && s.outstanding == 0
    ensures forall p :: 0 <= p < |s.ops| ==> s.ops[p].Outside?
    ensures Admission(s.ops, 0, [])
    ensures Loggable(s.start, s.lh) ==> Admission(s.ops, 0, s.lh)
  {
    NoneRunning(s.ops);
    AllOutside(s.ops);
  }

  lemma ClearHeadKeeps(s: State, p: nat)
    requires Inv(s) && CanClearHead(s, p)
    ensures Inv(DoClearHead(s, p))
  {
    hide CacheOk, Current, Shape, Admission, Pinned, CommitAt, Home, Bootable, Overlay;
    var data := HeadBlock(s.cache[s.start].data, s.lh);
    HolderSees(s, p, s.start);
    NothingPinned([], s.phase);
    NothingPinned([], Finishing);
    AdvanceClear(s.start, s.phase.d0, s.phase.txn, s.logical, s.disk);
    ShapeKeeps(s.start, s.disk, s.lh, s.logical, s.committed, s.start, data);
    WriteThroughKeeps(s.start, s.disk, s.logical, s.ops, {}, {}, s.cache, s.start, data, s.cache[s.start].(data := data));
  }

  lemma CommitDoneKeeps(s: State)
    requires Inv(s) && s.phase.Finishing?
    ensures Inv(s.(committing := false, phase := Ready))
  {
    hide CacheOk, Current, Shape, Admission, Pinned, Home, Bootable;
    NothingPinned(s.lh, Finishing);
    NothingPinned(s.lh, Ready);
  }

  // ----------------------------------------------------- the recovery steps

  lemma ReadHeaderKeeps(s: State)
    requires Inv(s) && CanReadHeader(s)
    ensures Inv(s.(lh := ReadHead(s.disk[s.start]), phase := Recovering(0, s.disk)))
  {
    hide CacheOk, Current, Pinned, Durable, Admission;
    var lh := ReadHead(s.disk[s.start]);
    NobodyInside(s);
    IdleAdmission(s.ops, lh);
    NothingPinned([], Boot);
    NothingPinned(lh, Recovering(0, s.disk));
    forall b | b in lh ensures b in s.logical {
      assert b in Home(s.start, s.disk);
    }
  }

  lemma IdleAdmission(ops: seq<Op>, lh: seq<nat>)
    requires |lh| <= LOGBLOCKS && forall p :: 0 <= p < |ops| ==> ops[p].Outside?
    ensures Admission(ops, 0, lh)
  {
    AllOutside(ops);
  }

  lemma RecoveryWriteAt(start: nat, found: Disk, k: nat)
    requires Bootable(start, found) && k < |ReadHead(found[start])|
    ensures |RecoveryWrites(start, found)| == |ReadHead(found[start])| + 1 && InLog(start, start + 1 + k)
    ensures RecoveryWrites(start, found)[k] == Write(ReadHead(found[start])[k], found[start + 1 + k])
  {
  }

  /** The next block recovery copies home is the one in the log of the disk it found. */
  lemma RecoverAdvance(start: nat, found: Disk, k: nat, disk: Disk)
    requires Bootable(start, found) && k < |ReadHead(found[start])|
    requires disk == ApplyAll(found, RecoveryWrites(start, found)[..k])
    ensures |RecoveryWrites(start, found)| == |ReadHead(found[start])| + 1
    ensures start + 1 + k in disk
    ensures ApplyAll(found, RecoveryWrites(start, found)[..k + 1]) == disk[ReadHead(found[start])[k] := disk[start + 1 + k]]
  {
    hide ApplyAll, CopiedHome, RecoveryWrites, LogCopies;
    var lh := ReadHead(found[start]);
    TailInstalls(start, found, lh, k);
    LogSurvivesInstall(start, found, disk, lh, LogCopies(start, found, |lh|), k);
    assert InLog(start, start + 1 + k);
    RecoveryWriteAt(start, found, k);
    ApplyNext(found, RecoveryWrites(start, found), k);
  }

  lemma RecoverInstallKeeps(s: State)
    requires Inv(s) && CanRecoverInstall(s)
    ensures Inv(DoRecoverInstall(s))
  {
    hide CacheOk, Current, Admission, Durable, RecoveryWrites, ApplyAll, Bootable, Pinned, Home;
    var k := s.phase.done;
    var s' := DoRecoverInstall(s);
    RecoverAdvance(s.start, s.phase.found, k, s.disk);
    assert s.lh[k] in s.disk by {
      ShapeHome(s.start, s.disk, s.lh, s.logical, s.committed, k);
    }
    ShapeKeeps(s.start, s.disk, s.lh, s.logical, s.committed, s.lh[k], s.disk[s.start + 1 + k]);
    EmptyCacheOk(s.start, s'.disk, s.logical, s.ops);
    NothingPinned(s.lh, s'.phase);
  }

  lemma ShapeHome(start: nat, disk: Disk, lh: seq<nat>, logical: Disk, committed: Disk, k: nat)
    requires Shape(start, disk, lh, logical, committed) && k < |lh|
    ensures lh[k] in disk
  {
    assert lh[k] in Home(start, disk);
  }

  lemma EmptyCacheOk(start: nat, disk: Disk, logical: Disk, ops: seq<Op>)
    ensures CacheOk(start, disk, logical, ops, {}, map[])
  {
  }

  lemma RecoverClearKeeps(s: State)
    requires Inv(s) && CanRecoverClear(s)
    ensures Inv(DoRecoverClear(s))
  {
    hide CacheOk, Admission, Durable, RecoveryWrites, ApplyAll, Bootable, Pinned, Home, Shape, Current;
    var s' := DoRecoverClear(s);
    NobodyInside(s);
    RecoverFinishes(s.start, s.phase.found, s.committed, s.disk);
    NothingPinned([], Ready);
    EmptyCacheOk(s.start, s'.disk, s.logical, s.ops);
    ShapeKeeps(s.start, s.disk, s.lh, s.logical, s.committed, s.start, HeadBlock(s.disk[s.start], []));
    ShapeCommits(s.start, s'.disk, s.lh, s.logical, s.committed);
    HomeIsCurrent(s.start, s'.disk, s.logical);
  }

  lemma HomeIsCurrent(start: nat, disk: Disk, logical: Disk)
    requires Home(start, disk) == logical
    ensures Current(disk, logical, map[], {})
  {
    forall b | b in logical ensures b in disk && disk[b] == logical[b] {
      assert b in Home(start, disk);
    }
  }

  lemma RecoverFinishes(start: nat, found: Disk, home: Disk, disk: Disk)
    requires Bootable(start, found) && Durable(start, found, home)
    requires disk == ApplyAll(found, RecoveryWrites(start, found)[..|ReadHead(found[start])|])
    ensures start in disk && |disk[start].word| == WORDS
    ensures var d' := disk[start := HeadBlock(disk[start], [])];
            Bootable(start, d') && ReadHead(d'[start]) == [] && Home(start, d') == home
  {
    hide ApplyAll, Durable, CopiedHome;
    var ws, n := RecoveryWrites(start, found), |ReadHead(found[start])|;
    TailInstalls(start, found, ReadHead(found[start]), n);
    LogSurvivesInstall(start, found, disk, ReadHead(found[start]), LogCopies(start, found, n), n);
    RecoveryPrefix(start, found, home, n + 1);
    ApplyNext(found, ws, n);
  }

  /** In every phase the disk durably holds the committed blocks. */
  lemma StaysDurable(s: State)
    requires Shape(s.start, s.disk, s.lh, s.logical, s.committed) && Phased(s)
    ensures Bootable(s.start, s.disk) && Durable(s.start, s.disk, s.committed)
  {
    hide Overlay;
    match s.phase
    case Committing(k, txn, d0) => CrashAtomic(s.start, d0, txn, s.logical, k);
    case Recovering(done, found) => RecoveryPrefix(s.start, found, s.committed, done);
    case _ =>
  }

  // ---------------------------------------------------------------- theorems

  /** Every step keeps the invariant. */
  lemma StepKeeps(s: State, step: Step)
    requires Inv(s) && Enabled(s, step)
    ensures Inv(Do(s, step))
  {
    hide Inv, CanBeginOp, CanEndOp, CanGet, CanLock, CanFill, CanModify, CanLogWrite, CanUnlock, CanUnref, CanCopyToLog,
         CanWriteHead, CanInstall, CanForgetTxn, CanClearHead, CanReadHeader, CanRecoverInstall, CanRecoverClear;
    match step
    case BeginOp(p) => BeginOpKeeps(s, p);
    case EndOp(p) => EndOpKeeps(s, p);
    case Get(p, b, victim) => GetKeeps(s, p, b, victim);
    case Lock(p, b) => LockKeeps(s, p, b);
    case Fill(p, b) => FillKeeps(s, p, b);
    case Modify(p, b, data) => ModifyKeeps(s, p, b, data);
    case LogWrite(p, b) => LogWriteKeeps(s, p, b);
    case Unlock(p, b) => UnlockKeeps(s, p, b);
    case Unref(p, b) => UnrefKeeps(s, p, b);
    case CopyToLog(p) => CopyToLogKeeps(s, p);
    case WriteHead(p) => WriteHeadKeeps(s, p);
    case Install(p) => InstallKeeps(s, p);
    case ForgetTxn => ForgetTxnKeeps(s);
    case ClearHead(p) => ClearHeadKeeps(s, p);
    case CommitDone => CommitDoneKeeps(s);
    case Crash => CrashKeeps(s);
    case ReadHeader => ReadHeaderKeeps(s);
    case RecoverInstall => RecoverInstallKeeps(s);
    case RecoverClear => RecoverClearKeeps(s);
  }

  lemma InitInv(s: State)
    requires Init(s)
    ensures Inv(s)
  {
    hide Bootable, Durable, Home, Current, CacheOk, Pinned, Admission, PhaseOk;
    CrashPhase(s);
    IdleAdmission(s.ops, []);
    EmptyCacheOk(s.start, s.disk, s.committed, s.ops);
    NothingPinned([], Boot);
    InitShape(s);
  }

  lemma InitShape(s: State)
    requires Init(s)
    ensures Shape(s.start, s.disk, s.lh, s.logical, s.committed)
  {
  }

  /** Every state of every run satisfies the invariant. */
  lemma {:induction false} RunKeeps(states: seq<State>, steps: seq<Step>, i: nat)
    requires Run(states, steps) && i < |states|
    ensures Inv(states[i])
  {
    hide Inv, Init, Enabled, Do;
    if i == 0 {
      InitInv(states[0]);
    } else {
      RunKeeps(states, steps, i - 1);
      StepKeeps(states[i - 1], steps[i - 1]);
    }
  }

  /**
    Crash safety of whole runs: power off in any state of any run, let recovery be interrupted
    any number of times, then finish it. The home blocks are the committed ones.
   */
  lemma CrashSafe(states: seq<State>, steps: seq<Step>, i: nat, crashes: seq<nat>)
    requires Run(states, steps) && i < |states|
    ensures var s := states[i];
            && Bootable(s.start, s.disk)
            && Bootable(s.start, CrashedRecoveries(s.start, s.disk, crashes))
            && Home(s.start, Recover(s.start, CrashedRecoveries(s.start, s.disk, crashes))) == s.committed
  {
    hide Run, Bootable, Durable, CrashedRecoveries, Recover, Home;
    RunKeeps(states, steps, i);
    var s := states[i];
    StaysDurable(s);
    RecoveryIdempotent(s.start, s.disk, s.committed, crashes);
  }

  /**
    The committed blocks change only at the header write of a commit. At that moment no
    operation is running, so they become exactly what the ended operations wrote.
   */
  lemma CommitsWholeOperations(s: State, step: Step)
    requires Inv(s) && Enabled(s, step) && Do(s, step).committed != s.committed
    ensures step.WriteHead? && Do(s, step).committed == s.logical
    ensures forall p :: 0 <= p < |s.ops| ==> s.ops[p].Outside?
    ensures forall b :: b in s.cache ==> !s.cache[b].unlogged
  {
    hide Inv, CanBeginOp, CanEndOp, CanGet, CanLock, CanFill, CanModify, CanLogWrite, CanUnlock, CanUnref, CanCopyToLog,
         CanInstall, CanForgetTxn, CanClearHead, CanReadHeader, CanRecoverInstall, CanRecoverClear;
    CommittingIsQuiet(s);
  }

  lemma CommittingIsQuiet(s: State)
    requires Inv(s)
    ensures s.phase.Committing? ==>
              && (forall p :: 0 <= p < |s.ops| ==> s.ops[p].Outside?)
              && forall b :: b in s.cache ==> !s.cache[b].unlogged
  {
    hide CommitAt, Current, Shape, Pinned;
    if s.phase.Committing? {
      NobodyInside(s);
    }
  }

  /**
    Reads see the latest write: a process holding a buffer that bread returned finds the
    block's logical contents in it, whether the buffer was cached, pinned or read back.
   */
  lemma ReadsLatest(states: seq<State>, steps: seq<Step>, i: nat, p: nat, b: nat)
    requires Run(states, steps) && i < |states|
    requires Holds(states[i], p, b) && !InLog(states[i].start, b)
    ensures b in states[i].logical && states[i].cache[b].data == states[i].logical[b]
  {
    hide Run;
    RunKeeps(states, steps, i);
    HolderSees(states[i], p, b);
  }

  /** bget never recycles a pinned buffer: what the log still owes the disk stays in the cache. */
  lemma PinnedStays(s: State, p: nat, b: nat, victim: nat, x: nat)
    requires Inv(s) && CanGet(s, p, b, victim) && x in Pinned(s.lh, s.phase)
    ensures x in DoGet(s, p, b, victim).cache && DoGet(s, p, b, victim).cache[x].valid
    ensures DoGet(s, p, b, victim).cache[x].data == s.cache[x].data
  {
    hide PhaseOk, Shape, Admission, Pinned, Current, CacheOk;
    CacheFacts(s, x);
    CacheFacts(s, victim);
  }

  /** Admission: while an operation has allowance left, the log has room. */
  lemma AllowanceMeansRoom(ops: seq<Op>, outstanding: int, lh: seq<nat>, p: nat)
    requires Admission(ops, outstanding, lh) && p < |ops| && ops[p].Inside?
    ensures outstanding >= 1 && |lh| + MAXOPBLOCKS - |ops[p].logged| <= LOGBLOCKS
  {
    UpdateCounts(ops, p, Outside);
    ReservedBounds(ops[p := Outside]);
  }

  /**
    Log admission: a block that is new to a running operation which has not used up its
    allowance never meets a full log, so log_write's "too big a transaction" and "outside of
    trans" panics cannot happen for it.
   */
  lemma NewBlockFits(s: State, p: nat, b: nat)
    requires Inv(s) && CanModify(s, p, b)
    requires b !in s.ops[p].logged && |s.ops[p].logged| < MAXOPBLOCKS
    ensures |s.lh| < LOGBLOCKS && s.outstanding >= 1
    ensures CanLogWrite(s, p, b)
  {
    hide PhaseOk, Shape, Pinned, Current, CacheOk, Admission;
    AllowanceMeansRoom(s.ops, s.outstanding, s.lh, p);
  }

  /**
    A caller that keeps to its allowance meets log_write's panic exactly when the log is full.
    That takes an operation whose allowance is used up and which logs one of its blocks again.
   */
  lemma RelogPanics(s: State, p: nat, b: nat)
    requires Inv(s) && CanModify(s, p, b) && (b in s.ops[p].logged || |s.ops[p].logged| < MAXOPBLOCKS)
    ensures !CanLogWrite(s, p, b) <==> |s.lh| == LOGBLOCKS
    ensures !CanLogWrite(s, p, b) ==> b in s.ops[p].logged && |s.ops[p].logged| == MAXOPBLOCKS
  {
    hide PhaseOk, Pinned, Current, CacheOk;
    AllowanceMeansRoom(s.ops, s.outstanding, s.lh, p);
  }

  /** end_op's panic is unreachable: a running operation never finds a commit in progress. */
  lemma NoCommitWhileRunning(s: State, p: nat)
    requires Inv(s) && p < |s.ops| && s.ops[p].Inside?
    ensures !s.committing && s.outstanding >= 1
  {
    InsideMeansReady(s, p);
  }

  /** A full log means that no running operation has any of its allowance left. */
  lemma FullLogMeansNoAllowance(s: State, p: nat)
    requires Inv(s) && |s.lh| == LOGBLOCKS && p < |s.ops| && s.ops[p].Inside?
    ensures |s.ops[p].logged| == MAXOPBLOCKS
  {
    hide PhaseOk, Shape, Pinned, Current, CacheOk;
    AllowanceMeansRoom(s.ops, s.outstanding, s.lh, p);
  }

  /** A commit of a full log finds every buffer pinned by the log itself: none is left for a log block. */
  lemma FullCommitHasNoBuffer(s: State, p: nat, b: nat, victim: nat)
    requires Inv(s) && s.phase.Committing? && s.phase.k <= |s.lh| == LOGBLOCKS && InLog(s.start, b)
    ensures b !in s.cache && !CanGet(s, p, b, victim)
  {
    hide PhaseOk, Admission, Current;
    DistinctSize(s.lh);
    assert Pinned(s.lh, s.phase) == Elems(s.lh);
    SameWhenFull(Elems(s.lh), s.cache.Keys);
    assert b !in s.lh;
    if victim in s.cache {
      assert BufOk(s.start, s.disk, s.logical, s.ops, Pinned(s.lh, s.phase), victim, s.cache[victim]);
    }
  }

  lemma SameWhenFull(a: set<nat>, b: set<nat>)
    requires a <= b && |b| <= |a|
    ensures a == b
  {
    if x :| x in b && x !in a {
      SubsetSize(a, b - {x});
    }
  }

  /**
    So a transaction of LOGBLOCKS blocks is never committed: whatever the processes do, the
    commit stays before its first block write until the machine stops.
   */
  lemma FullCommitIsStuck(s: State, step: Step)
    requires Inv(s) && s.phase.Committing? && s.phase.k == 0 && |s.lh| == LOGBLOCKS && Enabled(s, step) && !step.Crash?
    ensures Do(s, step).phase == s.phase && Do(s, step).lh == s.lh && Do(s, step).committed == s.committed
  {
    hide Inv;
    FullCommitHasNoBuffer(s, 0, s.start + 1, 0);
    CommittingIsQuiet(s);
  }
}
