/**
  The write-ahead log's own code, run by one thread over the buffer cache. Every method that
  reads blocks can stop on the cache's "no buffers" panic; it then returns false, having issued
  a prefix of its block writes, which is exactly a crash at that point.
 */
module Log {
  import opened Common
  import opened Disk
  import opened LogSpec
  import opened BufferCache
  import opened Mirror
  import M = LogMachine

  datatype Outcome = Done | TooBig | OutsideTrans

  class WriteAheadLog {
    const cache: Bcache
    const dev: nat
    const start: nat
    const block: array<nat>  // lh.block
    var n: nat               // lh.n
    var outstanding: int
    var committing: bool

    ghost var ops: seq<M.Op> // what each process has logged in its running operation

    ghost predicate Shaped()
      reads this, block
    {
      block.Length == LOGBLOCKS && n <= LOGBLOCKS && dev != 0
    }

    /** The header lists each block once, and what is listed plus what is promised fits the log. */
    ghost predicate Valid()
      reads this, block
    {
      Shaped() && Distinct(block[..n]) && M.Admission(ops, outstanding, block[..n])
    }

    /** Nobody is in an operation while a commit runs. */
    ghost predicate CommitsAlone()
      reads this
    {
      committing ==> outstanding == 0
    }

    /** The log machine's state `s` is this log over this cache. */
    ghost predicate Matches(s: M.State)
      reads this, block, cache, cache.buf
    {
      && Shaped() && s.lh == block[..n] && s.outstanding == outstanding && s.committing == committing && s.ops == ops
      && Mirrors(cache.buf[..], dev, s.cache)
    }

    /** initlog, before it calls recovery. */
    constructor (cache: Bcache, dev: nat, start: nat, ghost nproc: nat)
      requires dev != 0
      ensures Valid() && CommitsAlone() && n == 0 && outstanding == 0 && !committing
      ensures this.cache == cache && this.dev == dev && this.start == start && fresh(block)
      ensures |ops| == nproc && forall p :: 0 <= p < nproc ==> ops[p].Outside?
    {
      this.cache, this.dev, this.start := cache, dev, start;
      block := new nat[LOGBLOCKS];
      n, outstanding, committing := 0, 0, false;
      ops := seq(nproc, _ => M.Outside);
      new;
      M.IdleAdmission(ops, block[..n]);
    }

    /** The block numbers of the transaction being collected. */
    ghost function Header(): (lh: seq<nat>)
      requires Shaped()
      reads this, block
    {
      block[..n]
    }

    ghost predicate Unlocked()
      reads cache, cache.buf
    {
      forall i :: 0 <= i < cache.buf.Length ==> !cache.buf[i].locked
    }

    ghost predicate Sees(view: Disk, owed: set<nat>)
      reads this, cache, cache.buf
    {
      Coherent(cache.buf[..], cache.disk, dev, view, owed)
    }

    /** Nobody uses the cache but the log, which holds one pin for each of `pins`. */
    ghost predicate Calm(pins: set<nat>)
      reads this, cache, cache.buf
    {
      Quiet(cache.buf[..], dev, pins)
    }

    /**
      One pass of begin_op's loop: admitted with a promise of MAXOPBLOCKS log blocks that still
      fit, or back to sleep with nothing changed. It is the machine's BeginOp step.
     */
    method BeginOp(ghost p: nat) returns (admitted: bool)
      requires Valid() && p < |ops| && ops[p].Outside?
      modifies `outstanding, `ops
      ensures Valid() && (old(CommitsAlone()) ==> CommitsAlone())
      ensures admitted <==> !committing && n + (old(outstanding) + 1) * MAXOPBLOCKS <= LOGBLOCKS
      ensures ops == if admitted then old(ops)[p := M.Inside({})] else old(ops)
      ensures forall s :: old(Matches(s)) && M.Up(s) ==>
                (admitted <==> M.CanBeginOp(s, p)) && (if admitted then Matches(M.DoBeginOp(s, p)) else Matches(s))
    {
      hide M.Admission, Mirrors;
      if committing {
        return false;
      } else if n + (outstanding + 1) * MAXOPBLOCKS > LOGBLOCKS {
        return false;
      } else {
        M.BeginOpAdmission(ops, outstanding, block[..n], p);
        outstanding := outstanding + 1;
        ops := ops[p := M.Inside({})];
        return true;
      }
    }

    /**
      end_op up to the commit decision; `panicked` is the "log.committing" panic, which a running
      operation never meets. It is the machine's EndOp step.
     */
    method EndOp(ghost p: nat) returns (doCommit: bool, panicked: bool)
      requires Valid() && p < |ops| && ops[p].Inside?
      modifies `outstanding, `committing, `ops
      ensures Valid() && ops == old(ops)[p := M.Outside]
      ensures panicked <==> old(committing)
      ensures old(CommitsAlone()) ==> !panicked && CommitsAlone()
      ensures doCommit ==> committing && forall q :: 0 <= q < |ops| ==> ops[q].Outside?
      ensures !panicked && !doCommit ==> exists q :: 0 <= q < |ops| && ops[q].Inside?
      ensures forall s :: old(Matches(s)) && M.CanEndOp(s, p) && !panicked ==> Matches(M.DoEndOp(s, p))
    {
      hide M.Admission, Mirrors, M.Running;
      M.EndOpAdmission(ops, outstanding, block[..n], p);
      M.AllowanceMeansRoom(ops, outstanding, block[..n], p);
      doCommit, panicked := false, false;
      outstanding := outstanding - 1;
      ops := ops[p := M.Outside];
      if committing {
        return false, true;
      }
      WhoRuns(ops);
      if outstanding == 0 {
        doCommit := true;
        committing := true;
      }
    }

    /** The caller of log_write is in an operation and keeps to its allowance. */
    ghost predicate Disciplined(p: nat, blockno: nat)
      reads this
    {
      p < |ops| && ops[p].Inside? && (blockno in ops[p].logged || |ops[p].logged| < MAXOPBLOCKS)
    }

    /**
      log_write: absorb a block already listed, else list it and pin its buffer. A disciplined
      caller keeps the admission invariant, and with a block that is new to its operation it
      meets neither panic. It is the machine's LogWrite step.
     */
    method LogWrite(b: nat, ghost p: nat) returns (r: Outcome)
      requires Valid() && cache.Valid() && b < NBUF
      modifies `n, block, cache.buf, `ops
      ensures Shaped() && cache.Valid()
      ensures r.TooBig? <==> old(n) >= LOGBLOCKS
      ensures r.OutsideTrans? <==> old(n) < LOGBLOCKS && outstanding < 1
      ensures !r.Done? ==> Valid() && Header() == old(Header()) && cache.buf[..] == old(cache.buf[..]) && ops == old(ops)
      ensures r.Done? ==> Header() == Absorb(old(Header()), old(cache.buf[b]).blockno)
      ensures r.Done? ==>
                var was := old(cache.buf[b]);
                cache.buf[..] == if was.blockno in old(Header()) then old(cache.buf[..])
                                 else old(cache.buf[..])[b := was.(refcnt := was.refcnt + 1)]
      ensures old(Disciplined(p, cache.buf[b].blockno)) ==>
                Valid() && (old(cache.buf[b]).blockno !in old(ops)[p].logged ==> r.Done?)
                && (r.Done? ==> ops == old(ops)[p := M.Inside(old(ops)[p].logged + {old(cache.buf[b]).blockno})])
      ensures old(Disciplined(p, cache.buf[b].blockno) && cache.buf[b].dev == dev) ==>
                forall s :: old(Matches(s)) && M.CanModify(s, p, old(cache.buf[b]).blockno) ==>
                  && (r.Done? <==> M.CanLogWrite(s, p, old(cache.buf[b]).blockno))
                  && (r.Done? ==> Matches(M.DoLogWrite(s, p, old(cache.buf[b]).blockno)))
    {
      hide M.Admission, Mirrors, Ring, ByRecency, Unique;
      ghost var blockno0, lh0, ops0, bufs0 := cache.buf[b].blockno, block[..n], ops, cache.buf[..];
      if Disciplined(p, blockno0) { M.AllowanceMeansRoom(ops, outstanding, block[..n], p); }
      if n >= LOGBLOCKS {
        return TooBig;
      }
      if outstanding < 1 {
        return OutsideTrans;
      }
      ListBlock(b);
      if Disciplined(p, blockno0) {
        M.LogWriteAdmission(ops, outstanding, lh0, p, blockno0);
        ops := ops[p := M.Inside(ops[p].logged + {blockno0})];
      }
      forall s | old(Matches(s)) && old(Disciplined(p, cache.buf[b].blockno)) && bufs0[b].dev == dev && M.CanModify(s, p, blockno0)
        ensures M.CanLogWrite(s, p, blockno0) && Matches(M.DoLogWrite(s, p, blockno0))
      {
        LogWriteMirrors(s, bufs0, dev, p, blockno0, b);
      }
      return Done;
    }

    /** The search and the update of the header. */
    method ListBlock(b: nat)
      requires Shaped() && n < LOGBLOCKS && cache.Valid() && b < NBUF
      modifies `n, block, cache.buf
      ensures Shaped() && cache.Valid() && Header() == Absorb(old(Header()), old(cache.buf[b]).blockno)
      ensures var was := old(cache.buf[b]);
              cache.buf[..] == if was.blockno in old(Header()) then old(cache.buf[..])
                               else old(cache.buf[..])[b := was.(refcnt := was.refcnt + 1)]
    {
      var blockno := cache.buf[b].blockno;
      var i := 0;
      while i < n && block[i] != blockno
        invariant 0 <= i <= n && blockno !in block[..i]
      {
        i := i + 1;
      }
      ghost var lh := block[..n];
      if i < n {
        assert lh[i] == blockno;
      } else {
        assert block[..i] == lh;
      }
      block[i] := blockno;
      if i == n {
        cache.Bpin(b);
        n := n + 1;
      }
      assert block[..n] == Absorb(lh, blockno);
    }

    /**
      One round of write_log (`toLog`) or install_trans: read the log block and the home
      block, copy one onto the other, write it, unpin the home block if asked, release both.
     */
    method CopyBlock(logb: nat, home: nat, toLog: bool, unpin: bool, ghost view: Disk, ghost owed: set<nat>) returns (ok: bool)
      requires cache.Valid() && dev != 0 && Sees(view, owed) && Unlocked()
      requires logb in view && home in view && logb != home && logb !in owed
      requires toLog ==> home in owed
      requires unpin <==> home in owed && !toLog
      modifies cache, cache.buf, cache.link
      ensures var (dst, src) := if toLog then (logb, home) else (home, logb);
              if ok then
                && cache.Valid() && Unlocked()
                && cache.trace == old(cache.trace) + [Write(dst, view[src])]
                && cache.disk == old(cache.disk)[dst := view[src]]
                && Sees(view[dst := view[src]], owed - {dst})
              else cache.trace == old(cache.trace) && cache.disk == old(cache.disk)
      ensures !ok ==> AllUsed(cache.buf[..])
      ensures old(Calm(owed)) ==> (ok <==> |owed| + (if home in owed then 0 else 1) < NBUF)
      ensures old(Calm(owed)) && ok ==> Calm(if toLog then owed else owed - {home})
    {
      hide Coherent, Ring, Unique, ByRecency, Quiet, AllUsed, Referenced, IsCached;
      ghost var b0 := cache.buf[..];
      var r1 := cache.Bread(dev, logb, view, owed);
      OneRead(b0, dev, owed, logb, r1);
      if r1.None? {
        return false;
      }
      ghost var b1 := cache.buf[..];
      QuietReadIf(b0, b1, dev, owed, logb, r1.value);
      var r2 := cache.Bread(dev, home, view, owed);
      SecondRead(b0, b1, dev, owed, logb, home, r2);
      if r2.None? {
        return false;
      }
      ghost var b2 := cache.buf[..];
      var lbuf, hbuf := r1.value, r2.value;
      if toLog {
        WriteAndRelease(lbuf, hbuf, cache.buf[hbuf].data, false, view, owed);
        assert Unlinked(b2, cache.buf[..], hbuf, 1, lbuf);
        CopyQuiet(b0, b1, b2, cache.buf[..], dev, owed, logb, home, lbuf, hbuf, false);
      } else {
        WriteAndRelease(hbuf, lbuf, cache.buf[lbuf].data, unpin, view, owed);
        assert !unpin ==> owed - {home} == owed;
        CopyQuiet(b0, b1, b2, cache.buf[..], dev, owed, logb, home, lbuf, hbuf, unpin);
      }
      return true;
    }

    /** Write `data` through buffer `dst`, drop the pin on it if asked, release `src` and `dst`. */
    method WriteAndRelease(dst: nat, src: nat, data: Block, unpin: bool, ghost view: Disk, ghost owed: set<nat>)
      requires cache.Valid() && dev != 0 && Sees(view, owed)
      requires dst < NBUF && src < NBUF && dst != src
      requires forall i :: 0 <= i < NBUF ==> (cache.buf[i].locked <==> i == dst || i == src)
      requires cache.buf[dst].dev == dev && cache.buf[dst].valid && cache.buf[dst].refcnt > (if unpin then 1 else 0)
      requires cache.buf[src].dev == dev && cache.buf[src].refcnt > (if cache.buf[src].blockno in owed then 1 else 0)
      requires cache.buf[src].blockno != cache.buf[dst].blockno
      modifies cache, cache.buf, cache.link
      ensures cache.Valid() && Unlocked()
      ensures cache.trace == old(cache.trace) + [Write(old(cache.buf[dst]).blockno, data)]
      ensures cache.disk == old(cache.disk)[old(cache.buf[dst]).blockno := data]
      ensures Sees(view[old(cache.buf[dst]).blockno := data], owed - {old(cache.buf[dst]).blockno})
      ensures Unlinked(old(cache.buf[..]), cache.buf[..], dst, if unpin then 2 else 1, src)
    {
      hide Coherent, Ring, Unique, ByRecency;
      ghost var x := cache.buf[dst].blockno;
      ghost var view', owed' := view[x := data], owed - {x};
      cache.Bwrite(dst, data, dev, view, owed);
      if unpin {
        DropKeepsCoherent(cache.buf[..], dst, true, cache.disk, dev, view', owed');
        cache.Bunpin(dst);
      }
      Release(src, view', owed');
      Release(dst, view', owed');
    }

    /** brelse of a buffer no owed block relies on. */
    method Release(b: nat, ghost view: Disk, ghost owed: set<nat>)
      requires cache.Valid() && Sees(view, owed)
      requires b < NBUF && cache.buf[b].locked && cache.buf[b].refcnt > 0
      requires cache.buf[b].dev == dev && cache.buf[b].blockno in owed ==> cache.buf[b].refcnt > 1
      modifies cache.buf, cache.link, cache`order, cache`moved, cache`now
      ensures cache.Valid() && Sees(view, owed)
      ensures cache.buf[..] == old(cache.buf[..])[b := old(cache.buf[b]).(locked := false, refcnt := old(cache.buf[b]).refcnt - 1)]
    {
      hide Coherent, Ring, Unique, ByRecency;
      DropKeepsCoherent(cache.buf[..], b, false, cache.disk, dev, view, owed);
      cache.Brelse(b);
    }

    /** write_log: the transaction's cached blocks go to the log, one block write each. */
    method WriteLog(ghost view: Disk, ghost owed: set<nat>) returns (ok: bool, ghost k: nat)
      requires Shaped() && cache.Valid() && Sees(view, owed) && Unlocked()
      requires Loggable(start, Header()) && (forall b :: InLog(start, b) ==> b in view && b !in owed)
      requires forall b :: b in Header() ==> b in view && b in owed
      modifies cache, cache.buf, cache.link
      ensures k <= n && (ok ==> k == n)
      ensures var ws := LogPart(start, Contents(Header(), view))[..k];
              && cache.trace == old(cache.trace) + ws
              && cache.disk == ApplyAll(old(cache.disk), ws)
              && (ok ==> cache.Valid() && Unlocked() && Sees(ApplyAll(view, ws), owed))
      ensures !ok ==> AllUsed(cache.buf[..])
      ensures old(Calm(owed)) ==> (ok <==> n == 0 || |owed| < NBUF) && (if ok then Calm(owed) else k == 0)
    {
      hide Coherent, Ring, Unique, ByRecency, LogPart, Contents, ApplyAll, Quiet, AllUsed;
      ghost var lh := Header();
      ghost var ws := LogPart(start, Contents(lh, view));
      ApplyNone(cache.disk, ws);
      ApplyNone(view, ws);
      k := 0;
      var tail := 0;
      while tail < n
        invariant 0 <= tail <= n && k == tail && Header() == lh
        invariant cache.Valid() && Unlocked() && Sees(ApplyAll(view, ws[..tail]), owed)
        invariant old(Calm(owed)) ==> Calm(owed) && (tail > 0 ==> |owed| < NBUF)
        invariant cache.trace == old(cache.trace) + ws[..tail]
        invariant cache.disk == ApplyAll(old(cache.disk), ws[..tail])
      {
        ghost var v := ApplyAll(view, ws[..tail]);
        LogPartReads(start, lh, view, tail);
        ok := CopyBlock(start + tail + 1, block[tail], true, false, v, owed);
        if !ok {
          return false, tail;
        }
        ApplyNext(old(cache.disk), ws, tail);
        ApplyNext(view, ws, tail);
        assert ws[..tail + 1] == ws[..tail] + [ws[tail]];
        assert owed - {start + tail + 1} == owed;
        tail, k := tail + 1, k + 1;
      }
      return true, n;
    }

    /** write_head's loop over the header struct. */
    method FillHead(prior: Block) returns (h: Block)
      requires Shaped() && |prior.word| == WORDS
      ensures h == HeadBlock(prior, Header())
    {
      var w := prior.word[0 := n];
      var i := 0;
      while i < n
        invariant 0 <= i <= n && |w| == WORDS && w[0] == n
        invariant forall j :: 1 <= j < WORDS ==> w[j] == if j <= i then block[j - 1] else prior.word[j]
      {
        w := w[i + 1 := block[i]];
        i := i + 1;
      }
      h := Block(w);
      assert w == HeadBlock(prior, Header()).word;
    }

    /** write_head: the in-memory list goes into the header block, in one block write. */
    method WriteHead(ghost view: Disk, ghost owed: set<nat>) returns (ok: bool)
      requires Shaped() && cache.Valid() && Sees(view, owed) && Unlocked()
      requires start in view && start !in owed && |view[start].word| == WORDS
      modifies cache, cache.buf, cache.link
      ensures var h := HeadBlock(view[start], Header());
              if ok then
                && cache.Valid() && Unlocked() && Sees(view[start := h], owed)
                && cache.trace == old(cache.trace) + [Write(start, h)]
                && cache.disk == old(cache.disk)[start := h]
              else cache.trace == old(cache.trace) && cache.disk == old(cache.disk)
      ensures !ok ==> AllUsed(cache.buf[..])
      ensures old(Calm(owed)) ==> (ok <==> |owed| < NBUF) && (ok ==> Calm(owed))
    {
      hide Coherent, Ring, Unique, ByRecency, Quiet, AllUsed, Referenced, IsCached;
      ghost var b0 := cache.buf[..];
      var r := cache.Bread(dev, start, view, owed);
      OneRead(b0, dev, owed, start, r);
      if r.None? {
        return false;
      }
      ghost var b1 := cache.buf[..];
      var b := r.value;
      var h := FillHead(cache.buf[b].data);
      cache.Bwrite(b, h, dev, view, owed);
      assert owed - {start} == owed;
      Release(b, view[start := h], owed);
      ReadAndDrop(b0, b1, cache.buf[..], dev, owed, start, b);
      return true;
    }

    /**
      install_trans: log blocks go to their home places, one block write each. In a commit the
      home blocks are owed and lose their pins; in recovery nothing is owed.
     */
    method InstallTrans(recovering: bool, ghost view: Disk, ghost owed: set<nat>) returns (ok: bool, ghost k: nat)
      requires Shaped() && cache.Valid() && Sees(view, owed) && Unlocked()
      requires Loggable(start, Header()) && (forall b :: InLog(start, b) ==> b in view)
      requires forall b :: b in Header() ==> b in view
      requires owed == if recovering then {} else Elems(Header())
      modifies cache, cache.buf, cache.link
      ensures k <= n && (ok ==> k == n)
      ensures var ws := HomePart(Header(), LogCopies(start, view, n))[..k];
              && cache.trace == old(cache.trace) + ws
              && cache.disk == ApplyAll(old(cache.disk), ws)
              && (ok ==> cache.Valid() && Unlocked() && Sees(ApplyAll(view, ws), {}))
      ensures !ok ==> AllUsed(cache.buf[..])
      ensures old(Calm(owed)) ==> (ok <==> n == 0 || |owed| < NBUF) && (ok ==> Calm({}))
    {
      hide Coherent, Ring, Unique, ByRecency, HomePart, LogCopies, ApplyAll, Quiet, AllUsed, Elems;
      ghost var lh := Header();
      ghost var ws := HomePart(lh, LogCopies(start, view, n));
      ApplyNone(cache.disk, ws);
      ApplyNone(view, ws);
      ghost var left := owed;
      assert lh[0..] == lh;
      k := 0;
      var tail := 0;
      while tail < n
        invariant 0 <= tail <= n && k == tail && Header() == lh
        invariant left == if recovering then {} else Elems(lh[tail..])
        invariant cache.Valid() && Unlocked() && Sees(ApplyAll(view, ws[..tail]), left)
        invariant old(Calm(owed)) ==> Calm(left) && (tail > 0 ==> |owed| < NBUF)
        invariant cache.trace == old(cache.trace) + ws[..tail]
        invariant cache.disk == ApplyAll(old(cache.disk), ws[..tail])
      {
        ghost var v := ApplyAll(view, ws[..tail]);
        HomePartReads(start, lh, view, tail);
        NextLeft(start, lh, tail);
        SubsetSize(left, owed);
        ok := CopyBlock(start + tail + 1, block[tail], false, !recovering, v, left);
        if !ok {
          return false, tail;
        }
        ApplyNext(old(cache.disk), ws, tail);
        ApplyNext(view, ws, tail);
        assert ws[..tail + 1] == ws[..tail] + [ws[tail]];
        left := left - {lh[tail]};
        tail, k := tail + 1, k + 1;
      }
      NoneLeft(lh);
      return true, n;
    }

    /** read_head: the list the on-disk header names. */
    method ReadHeader(ghost view: Disk) returns (ok: bool)
      requires Shaped() && cache.Valid() && Sees(view, {}) && Unlocked()
      requires start in view && IsHead(view[start])
      modifies `n, block, cache.buf, cache.link, cache`order, cache`moved, cache`now
      ensures ok ==> Shaped() && cache.Valid() && Unlocked() && Sees(view, {}) && Header() == ReadHead(view[start])
      ensures !ok ==> AllUsed(cache.buf[..])
      ensures old(Calm({})) ==> ok && Calm({})
    {
      hide Coherent, Ring, Unique, ByRecency, Quiet, AllUsed, Referenced, IsCached;
      ghost var b0 := cache.buf[..];
      var r := cache.Bread(dev, start, view, {});
      OneRead(b0, dev, {}, start, r);
      if r.None? {
        return false;
      }
      ghost var b1 := cache.buf[..];
      var b := r.value;
      var h := cache.buf[b].data;
      n := h.word[0];
      var i := 0;
      while i < n
        invariant 0 <= i <= n == h.word[0] && Shaped()
        invariant forall j :: 0 <= j < i ==> block[j] == h.word[1 + j]
        invariant cache.Valid() && Sees(view, {}) && b < NBUF
        invariant forall j :: 0 <= j < NBUF ==> (cache.buf[j].locked <==> j == b)
        invariant cache.buf[b].refcnt > 0 && cache.buf[..] == b1
      {
        block[i] := h.word[1 + i];
        i := i + 1;
      }
      Release(b, view, {});
      ReadAndDrop(b0, b1, cache.buf[..], dev, {}, start, b);
      assert Header() == ReadHead(view[start]);
      return true;
    }

    /** The first half of commit: fill the log, then write the header that commits it. */
    method LogTransaction(ghost view: Disk) returns (ok: bool, ghost k: nat)
      requires Shaped() && cache.Valid() && Unlocked() && Sees(view, Elems(Header()))
      requires CommitReady(start, cache.disk, Header(), view)
      modifies cache, cache.buf, cache.link
      ensures k <= n + 1 && (ok ==> k == n + 1)
      ensures var ws := CommitWrites(start, old(cache.disk)[start], Header(), view);
              && |ws| == 2 * n + 2
              && cache.trace == old(cache.trace) + ws[..k]
              && cache.disk == ApplyAll(old(cache.disk), ws[..k])
              && (ok ==> cache.Valid() && Unlocked() && Sees(ApplyAll(view, ws[..k]), Elems(Header())))
      ensures !ok ==> AllUsed(cache.buf[..])
      ensures old(Calm(Elems(Header()))) ==> (ok <==> n < NBUF) && (if ok then Calm(Elems(Header())) else k == 0)
    {
      hide Coherent, Ring, Unique, ByRecency, Quiet, AllUsed, CommitWrites, LogPart, HomePart, ApplyAll, LogCopies, Contents, HeadBlock;
      ghost var lh, d0, owed := Header(), cache.disk, Elems(Header());
      ghost var ws := CommitWrites(start, d0[start], lh, view);
      CommitParts(start, d0, lh, view);
      ViewReady(cache.buf[..], d0, dev, start, lh, view);
      DistinctSize(lh);
      ok, k := WriteLog(view, owed);
      CommitPrefix(start, d0, lh, view, k);
      if ok {
        CommitDiskEarly(start, view, lh, view, n);
        ok := WriteHead(ApplyAll(view, ws[..n]), owed);
        if ok {
          k := n + 1;
          ApplyNext(d0, ws, n);
          ApplyNext(view, ws, n);
          assert ws[..n + 1] == ws[..n] + [ws[n]];
        }
      }
    }

    /** The second half of commit: install the home blocks, then empty the header. */
    method InstallTransaction(ghost view: Disk, ghost h: Block, ghost v: Disk) returns (ok: bool, ghost j: nat)
      requires Shaped() && cache.Valid() && Unlocked() && Sees(v, Elems(Header()))
      requires Loggable(start, Header()) && (forall b :: InLog(start, b) ==> b in v) && |h.word| == WORDS
      requires forall b :: b in Header() ==> b in v && b in view
      requires start in v && v[start] == HeadBlock(h, Header()) && LogCopies(start, v, n) == Contents(Header(), view)
      modifies `n, cache, cache.buf, cache.link
      ensures Shaped() && j <= old(n) + 1 && (n == old(n) || n == 0)
      ensures var lh := old(Header());
              var ws := HomePart(lh, Contents(lh, view)) + [Write(start, HeadBlock(HeadBlock(h, lh), []))];
              && cache.trace == old(cache.trace) + ws[..j]
              && cache.disk == ApplyAll(old(cache.disk), ws[..j])
              && (ok ==> j == |lh| + 1 && n == 0 && cache.Valid() && Unlocked() && Sees(ApplyAll(v, ws), {}))
      ensures !ok ==> AllUsed(cache.buf[..])
      ensures old(Calm(Elems(Header())) && n < NBUF) ==> ok && Calm({})
    {
      hide Coherent, Ring, Unique, ByRecency, Quiet, AllUsed, HomePart, ApplyAll, LogCopies, Contents, HeadBlock;
      ghost var lh, d1, owed := Header(), cache.disk, Elems(Header());
      ghost var home := HomePart(lh, Contents(lh, view));
      ghost var ws := home + [Write(start, HeadBlock(HeadBlock(h, lh), []))];
      DistinctSize(lh);
      ok, j := InstallTrans(false, v, owed);
      assert ws[..j] == home[..j];
      if ok {
        assert ws[..j] == home;
        StartUntouched(start, lh, Contents(lh, view), v);
        n := 0;
        assert Header() == [];
        ok := WriteHead(ApplyAll(v, home), {});
        if ok {
          ApplyNext(d1, ws, |lh|);
          ApplyNext(v, ws, |lh|);
          assert ws[..|lh| + 1] == ws;
          j := |lh| + 1;
        }
      }
    }

    /**
      commit. Whatever happens, the block writes issued are a prefix of CommitWrites, so the
      disk durably holds all of the old home blocks or all of the transaction's; a commit that
      is not cut short issues all of them and leaves an empty header and nothing owed.
     */
    method Commit(ghost view: Disk) returns (ok: bool, ghost k: nat)
      requires Shaped() && cache.Valid() && Unlocked() && Sees(view, Elems(Header()))
      requires CommitReady(start, cache.disk, Header(), view)
      modifies `n, cache, cache.buf, cache.link
      ensures Shaped() && (old(Valid()) && outstanding == 0 ==> Valid())
      ensures var lh := old(Header());
              var ws := CommitWrites(start, old(cache.disk)[start], lh, view);
              && k <= |ws|
              && cache.trace == old(cache.trace) + ws[..k]
              && cache.disk == ApplyAll(old(cache.disk), ws[..k])
              && Bootable(start, cache.disk)
              && Durable(start, cache.disk, if k <= |lh| then Home(start, old(cache.disk))
                                            else Overlay(Home(start, old(cache.disk)), lh, view))
              && (ok ==> cache.Valid() && Unlocked() && n == 0 && k == (if lh == [] then 0 else |ws|)
                         && Sees(ApplyAll(view, ws[..k]), {}))
      ensures !ok ==> AllUsed(cache.buf[..])
      ensures old(Calm(Elems(Header()))) ==> (ok <==> old(n) < NBUF) && (if ok then Calm({}) else k == 0)
    {
      hide Coherent, Ring, Unique, ByRecency, Quiet, AllUsed, CommitWrites, HomePart, ApplyAll, LogCopies, Contents, HeadBlock, Durable, Overlay, Home;
      ghost var lh, d0 := Header(), cache.disk;
      ghost var ws := CommitWrites(start, d0[start], lh, view);
      CommitParts(start, d0, lh, view);
      ok, k := true, 0;
      if n > 0 {
        ok, k := CommitBlocks(view);
      } else {
        ApplyNone(d0, ws);
        ApplyNone(view, ws);
        assert Elems(lh) == {};
        assert Sees(view, {});
      }
      CrashAtomic(start, d0, lh, view, k);
      if old(Valid()) && outstanding == 0 {
        StillAdmitted(ops, lh, block[..n]);
      }
    }

    /** commit's body, with a transaction to write. */
    method CommitBlocks(ghost view: Disk) returns (ok: bool, ghost k: nat)
      requires Shaped() && cache.Valid() && Unlocked() && Sees(view, Elems(Header()))
      requires CommitReady(start, cache.disk, Header(), view)
      modifies `n, cache, cache.buf, cache.link
      ensures Shaped() && (n == old(n) || n == 0)
      ensures var lh := old(Header());
              var ws := CommitWrites(start, old(cache.disk)[start], lh, view);
              && k <= |ws|
              && cache.trace == old(cache.trace) + ws[..k]
              && cache.disk == ApplyAll(old(cache.disk), ws[..k])
              && (ok ==> cache.Valid() && Unlocked() && n == 0 && k == |ws| && Sees(ApplyAll(view, ws[..k]), {}))
      ensures !ok ==> AllUsed(cache.buf[..])
      ensures old(Calm(Elems(Header()))) ==> (ok <==> old(n) < NBUF) && (if ok then Calm({}) else k == 0)
    {
      hide Coherent, Ring, Unique, ByRecency, Quiet, AllUsed, CommitWrites, HomePart, ApplyAll, LogCopies, Contents, HeadBlock, Durable, Overlay, Home;
      ghost var lh, d0 := Header(), cache.disk;
      ghost var ws := CommitWrites(start, d0[start], lh, view);
      ViewReady(cache.buf[..], d0, dev, start, lh, view);
      CommitParts(start, d0, lh, view);
      ok, k := LogTransaction(view);
      if ok {
        ghost var v, j := ApplyAll(view, ws[..|lh| + 1]), 0;
        CommitPoint(start, view, lh, view);
        ok, j := InstallTransaction(view, d0[start], v);
        SplitApply(d0, ws, |lh| + 1, |lh| + 1 + j);
        SplitApply(view, ws, |lh| + 1, |lh| + 1 + j);
        k := |lh| + 1 + j;
        if ok {
          assert ws[|lh| + 1..][..j] == ws[|lh| + 1..];
        }
      }
    }

    /**
      recover_from_log, at boot, with a cache that holds nothing the disk does not. The block
      writes issued are a prefix of RecoveryWrites; all of them when recovery is not cut short.
     */
    method RecoverFromLog() returns (ok: bool, ghost k: nat)
      requires Shaped() && cache.Valid() && Unlocked() && Sees(cache.disk, {})
      requires Bootable(start, cache.disk)
      modifies `n, block, cache, cache.buf, cache.link
      ensures k <= |RecoveryWrites(start, old(cache.disk))|
      ensures var ws := RecoveryWrites(start, old(cache.disk));
              && cache.trace == old(cache.trace) + ws[..k]
              && cache.disk == ApplyAll(old(cache.disk), ws[..k])
              && (ok ==> Shaped() && n == 0 && cache.Valid() && Unlocked()
                         && cache.disk == Recover(start, old(cache.disk)) && Sees(cache.disk, {}))
      ensures !ok ==> AllUsed(cache.buf[..])
      ensures old(Calm({})) ==> ok && Calm({})
      ensures ok && old(Valid()) && outstanding == 0 ==> Valid()
    {
      hide Coherent, Ring, Unique, ByRecency, Quiet, AllUsed, M.Admission, HomePart, ApplyAll, LogCopies, HeadBlock, ReadHead, Elems, Contents, Home, Durable, Overlay;
      ghost var d := cache.disk;
      ghost var ws := RecoveryWrites(start, d);
      ApplyNone(d, ws);
      k := 0;
      ok := ReadHeader(d);
      if ok {
        ghost var lh := Header();
        ghost var home := HomePart(lh, LogCopies(start, d, n));
        ok, k := InstallTrans(true, d, {});
        assert ws[..k] == home[..k];
        if ok {
          assert ws[..k] == home;
          StartUntouched(start, lh, LogCopies(start, d, |lh|), d);
          n := 0;
          assert Header() == [];
          ok := WriteHead(ApplyAll(d, home), {});
          if ok {
            ApplyNext(d, ws, |lh|);
            k := |lh| + 1;
            assert ws[..k] == ws;
            if old(Valid()) && outstanding == 0 { StillAdmitted(ops, old(block[..n]), block[..n]); }
          }
        }
      }
    }
  }

  lemma WhoRuns(ops: seq<M.Op>)
    ensures M.Running(ops) == 0 ==> forall q :: 0 <= q < |ops| ==> ops[q].Outside?
    ensures M.Running(ops) != 0 ==> exists q :: 0 <= q < |ops| && ops[q].Inside?
  {
    if M.Running(ops) == 0 {
      M.NoneRunning(ops);
    } else if forall q :: 0 <= q < |ops| ==> ops[q].Outside? {
      M.AllOutside(ops);
    }
  }

  /** With no operation running the header may shrink. */
  lemma StillAdmitted(ops: seq<M.Op>, lh: seq<nat>, lh': seq<nat>)
    requires M.Admission(ops, 0, lh) && |lh'| <= |lh|
    ensures M.Admission(ops, 0, lh')
  {
    M.NoneRunning(ops);
  }

  /** log_write's pin in the machine's cache. */
  lemma LogWriteMirrors(s: M.State, bufs: seq<Buf>, dev: nat, p: nat, b: nat, i: nat)
    requires Mirrors(bufs, dev, s.cache) && Unique(bufs) && dev != 0 && i < |bufs| && Caches(bufs[i], dev, b) && M.CanLogWrite(s, p, b)
    ensures var bufs' := if b in s.lh then bufs else bufs[i := bufs[i].(refcnt := bufs[i].refcnt + 1)];
            Mirrors(bufs', dev, M.DoLogWrite(s, p, b).cache)
  {
    hide Unique, Mirrors;
    var buf, pin := s.cache[b], if b in s.lh then 0 else 1;
    var bufs' := if b in s.lh then bufs else bufs[i := bufs[i].(refcnt := bufs[i].refcnt + 1)];
    assert bufs[i := bufs[i].(refcnt := bufs[i].refcnt + pin)] == bufs';
    MirrorAt(bufs, dev, s.cache, i);
    MirrorOne(bufs, dev, s.cache, i, bufs[i].(refcnt := bufs[i].refcnt + pin), buf.(refcnt := buf.refcnt + pin, unlogged := false));
  }

  lemma MirrorAt(bufs: seq<Buf>, dev: nat, c: map<nat, M.Buf>, i: nat)
    requires Mirrors(bufs, dev, c) && i < |bufs| && bufs[i].dev == dev
    ensures bufs[i].blockno in c && Same(bufs[i], c[bufs[i].blockno])
  {
  }

  // ---------------------------------------------------- when the cache runs out of buffers

  /** The two buffers of a copy were given up: `dst` lost `drop` references, `src` one. */
  ghost predicate Unlinked(bufs: seq<Buf>, bufs': seq<Buf>, dst: nat, drop: nat, src: nat) {
    && |bufs'| == |bufs|
    && forall i :: 0 <= i < |bufs| ==>
         && Caches(bufs'[i], bufs[i].dev, bufs[i].blockno)
         && bufs'[i].refcnt == bufs[i].refcnt - (if i == dst then drop else if i == src then 1 else 0)
  }

  lemma OneRead(bufs: seq<Buf>, dev: nat, pins: set<nat>, b: nat, r: Option<nat>)
    requires |bufs| == NBUF && Unique(bufs) && dev != 0 && b !in pins && (r.None? <==> !IsCached(bufs, dev, b) && AllUsed(bufs))
    ensures Quiet(bufs, dev, pins) ==> (r.Some? <==> |pins| < NBUF)
  {
    hide Quiet, Unique, AllUsed, IsCached;
    if Quiet(bufs, dev, pins) { QuietRoom(bufs, dev, pins, b); }
  }

  lemma ReadAndDrop(b0: seq<Buf>, b1: seq<Buf>, b2: seq<Buf>, dev: nat, pins: set<nat>, b: nat, j: nat)
    requires Unique(b0) && Unique(b1) && dev != 0 && b !in pins && |b0| == NBUF && Referenced(b0, b1, dev, b, j)
    requires |b2| == NBUF && b2[j].refcnt == b1[j].refcnt - 1
    requires forall i :: 0 <= i < NBUF ==> Caches(b2[i], b1[i].dev, b1[i].blockno) && (i != j ==> b2[i].refcnt == b1[i].refcnt)
    ensures Quiet(b0, dev, pins) ==> Quiet(b2, dev, pins)
  {
    if Quiet(b0, dev, pins) {
      QuietRead(b0, b1, dev, pins, b, j);
      QuietDrop(b1, b2, dev, pins + {b}, b, j);
      assert pins + {b} - {b} == pins;
    }
  }

  lemma StartUntouched(start: nat, lh: seq<nat>, copies: seq<Block>, v: Disk)
    requires Loggable(start, lh) && |copies| == |lh| && start in v
    ensures var v' := ApplyAll(v, HomePart(lh, copies)); start in v' && v'[start] == v[start]
  {
    ApplyUntouched(v, HomePart(lh, copies), start);
  }

  /** The parts commit's writes are made of. */
  lemma CommitParts(start: nat, d0: Disk, lh: seq<nat>, view: Disk)
    requires CommitReady(start, d0, lh, view)
    ensures var ws := CommitWrites(start, d0[start], lh, view);
            var n := |lh|;
            && |ws| == 2 * n + 2
            && ws[n] == Write(start, HeadBlock(d0[start], lh))
            && ws[n + 1..] == HomePart(lh, Contents(lh, view)) + [Write(start, HeadBlock(HeadBlock(d0[start], lh), []))]
  {
  }

  lemma CommitPrefix(start: nat, d0: Disk, lh: seq<nat>, view: Disk, k: nat)
    requires CommitReady(start, d0, lh, view) && k <= |lh|
    ensures CommitWrites(start, d0[start], lh, view)[..k] == LogPart(start, Contents(lh, view))[..k]
    ensures CommitWrites(start, d0[start], lh, view)[..|lh|] == LogPart(start, Contents(lh, view))
  {
  }

  /** The block map the cache shows is itself ready for the commit. */
  lemma ViewReady(bufs: seq<Buf>, disk: Disk, dev: nat, start: nat, lh: seq<nat>, view: Disk)
    requires CommitReady(start, disk, lh, view)
    requires Coherent(bufs, disk, dev, view, Elems(lh))
    ensures CommitReady(start, view, lh, view) && view[start] == disk[start]
    ensures forall b :: InLog(start, b) ==> b in view && b !in lh
  {
  }

  /** While blocks are being installed, the next log block still holds its copy. */
  lemma HomePartReads(start: nat, lh: seq<nat>, view: Disk, k: nat)
    requires Loggable(start, lh) && k < |lh|
    requires forall b :: InLog(start, b) ==> b in view
    requires forall b :: b in lh ==> b in view
    ensures var ws := HomePart(lh, LogCopies(start, view, |lh|));
            var v := ApplyAll(view, ws[..k]);
            && v.Keys == view.Keys && InLog(start, start + k + 1)
            && v[start + k + 1] == view[start + k + 1] && ws[k] == Write(lh[k], view[start + k + 1])
  {
    var ws := HomePart(lh, LogCopies(start, view, |lh|));
    assert InLog(start, start + k + 1);
    ApplyKeys(view, ws[..k]);
    ApplyUntouched(view, ws[..k], start + k + 1);
  }

  /** While the log is being filled, the home blocks and the next log block can still be read. */
  lemma LogPartReads(start: nat, lh: seq<nat>, view: Disk, k: nat)
    requires Loggable(start, lh) && k < |lh|
    requires forall b :: InLog(start, b) ==> b in view
    requires forall b :: b in lh ==> b in view
    ensures var ws := LogPart(start, Contents(lh, view));
            var v := ApplyAll(view, ws[..k]);
            && v.Keys == view.Keys && InLog(start, start + k + 1)
            && v[lh[k]] == view[lh[k]] && ws[k] == Write(start + k + 1, view[lh[k]])
  {
    var ws := LogPart(start, Contents(lh, view));
    assert forall i :: 0 <= i < |ws| ==> InLog(start, ws[i].blockno);
    ApplyKeys(view, ws[..k]);
    ApplyUntouched(view, ws[..k], lh[k]);
  }

  /** The blocks still to be installed, one after the other. */
  lemma NextLeft(start: nat, lh: seq<nat>, k: nat)
    requires Loggable(start, lh) && k < |lh|
    ensures lh[k] in Elems(lh[k..]) && Elems(lh[k..]) - {lh[k]} == Elems(lh[k + 1..]) && Elems(lh[k..]) <= Elems(lh)
    ensures start + k + 1 !in Elems(lh[k..]) && start + k + 1 != lh[k] && (k == 0 ==> lh[k..] == lh)
  {
    assert lh[k..] == [lh[k]] + lh[k + 1..];
    assert InLog(start, start + k + 1);
  }

  lemma NoneLeft(lh: seq<nat>)
    ensures Elems(lh[|lh|..]) == {}
  {
  }

  lemma QuietReadIf(b0: seq<Buf>, b1: seq<Buf>, dev: nat, pins: set<nat>, b: nat, j: nat)
    requires Unique(b0) && dev != 0 && b !in pins && Referenced(b0, b1, dev, b, j)
    ensures Quiet(b0, dev, pins) ==> Quiet(b1, dev, pins + {b})
  {
    hide Quiet, Unique, Referenced;
    if Quiet(b0, dev, pins) { QuietRead(b0, b1, dev, pins, b, j); }
  }

  /** The second: the home block, which is cached when it is pinned. */
  lemma SecondRead(b0: seq<Buf>, b1: seq<Buf>, dev: nat, pins: set<nat>, logb: nat, home: nat, r: Option<nat>)
    requires |b1| == NBUF && Unique(b1) && dev != 0 && logb !in pins && logb != home
    requires Quiet(b0, dev, pins) ==> Quiet(b1, dev, pins + {logb}) && |pins| < NBUF
    requires r.None? <==> !IsCached(b1, dev, home) && AllUsed(b1)
    ensures Quiet(b0, dev, pins) ==> (r.Some? <==> |pins| + (if home in pins then 0 else 1) < NBUF)
  {
    hide Unique, AllUsed, IsCached;
    if Quiet(b0, dev, pins) && home !in pins {
      QuietRoom(b1, dev, pins + {logb}, home);
    }
  }

  /** After both buffers are given up only the pins are left, without the home block's if it was dropped. */
  lemma CopyQuiet(b0: seq<Buf>, b1: seq<Buf>, b2: seq<Buf>, b3: seq<Buf>, dev: nat, pins: set<nat>, logb: nat, home: nat,
                  lbuf: nat, hbuf: nat, unpin: bool)
    requires Unique(b1) && Unique(b2) && dev != 0 && logb !in pins && logb != home && (unpin ==> home in pins)
    requires Quiet(b0, dev, pins) ==> Quiet(b1, dev, pins + {logb})
    requires |b1| == NBUF && lbuf < NBUF && Caches(b1[lbuf], dev, logb) && Referenced(b1, b2, dev, home, hbuf)
    requires Unlinked(b2, b3, hbuf, if unpin then 2 else 1, lbuf)
    ensures Quiet(b0, dev, pins) ==> Quiet(b3, dev, if unpin then pins - {home} else pins)
  {
    if Quiet(b0, dev, pins) {
      if home in pins {
        CopyQuietPinned(b1, b2, b3, dev, pins, logb, home, lbuf, hbuf, unpin);
      } else {
        CopyQuietFree(b1, b2, b3, dev, pins, logb, home, lbuf, hbuf);
      }
    }
  }

  lemma CopyQuietPinned(b1: seq<Buf>, b2: seq<Buf>, b3: seq<Buf>, dev: nat, pins: set<nat>, logb: nat, home: nat,
                        lbuf: nat, hbuf: nat, unpin: bool)
    requires Unique(b1) && dev != 0 && logb !in pins && logb != home && home in pins
    requires Quiet(b1, dev, pins + {logb})
    requires lbuf < NBUF && Caches(b1[lbuf], dev, logb) && Referenced(b1, b2, dev, home, hbuf)
    requires Unlinked(b2, b3, hbuf, if unpin then 2 else 1, lbuf)
    ensures Quiet(b3, dev, if unpin then pins - {home} else pins)
  {
    assert IsCached(b1, dev, home);
    assert Caches(b1[hbuf], dev, home);
    var mid := b1[lbuf := b1[lbuf].(refcnt := 0)];
    QuietDrop(b1, mid, dev, pins + {logb}, logb, lbuf);
    assert pins + {logb} - {logb} == pins;
    assert Quiet(mid, dev, pins);
    if unpin {
      QuietDrop(mid, b3, dev, pins, home, hbuf);
    } else {
      QuietSame(mid, b3, dev, pins);
    }
  }

  lemma QuietSame(b: seq<Buf>, b': seq<Buf>, dev: nat, pins: set<nat>)
    requires Quiet(b, dev, pins) && |b'| == NBUF
    requires forall i :: 0 <= i < NBUF ==> Caches(b'[i], b[i].dev, b[i].blockno) && b'[i].refcnt == b[i].refcnt
    ensures Quiet(b', dev, pins)
  {
    forall x | x in pins ensures IsCached(b', dev, x) {
      assert IsCached(b, dev, x);
      var i :| 0 <= i < |b| && Caches(b[i], dev, x);
      assert Caches(b'[i], dev, x);
    }
  }

  lemma CopyQuietFree(b1: seq<Buf>, b2: seq<Buf>, b3: seq<Buf>, dev: nat, pins: set<nat>, logb: nat, home: nat, lbuf: nat, hbuf: nat)
    requires Unique(b1) && Unique(b2) && dev != 0 && logb !in pins && logb != home && home !in pins
    requires Quiet(b1, dev, pins + {logb})
    requires lbuf < NBUF && Caches(b1[lbuf], dev, logb) && Referenced(b1, b2, dev, home, hbuf)
    requires Unlinked(b2, b3, hbuf, 1, lbuf)
    ensures Quiet(b3, dev, pins)
  {
    QuietRead(b1, b2, dev, pins + {logb}, home, hbuf);
    assert b1[lbuf].refcnt == Pins(b1[lbuf], dev, pins + {logb});
    assert b2[lbuf] == b1[lbuf];
    var mid := b2[lbuf := b2[lbuf].(refcnt := 0)];
    QuietDrop(b2, mid, dev, pins + {logb} + {home}, logb, lbuf);
    assert pins + {logb} + {home} - {logb} == pins + {home};
    QuietDrop(mid, b3, dev, pins + {home}, home, hbuf);
    assert pins + {home} - {home} == pins;
  }
}
