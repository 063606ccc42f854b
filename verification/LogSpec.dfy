/**
  The on-disk log format and the block writes that commit and recovery issue, as pure
  functions, with the crash-atomicity theorem about them.
 */
module LogSpec {
  import opened Common
  import opened Disk

  const MAXOPBLOCKS := 10
  const LOGBLOCKS := MAXOPBLOCKS * 3

  /** The header block and the LOGBLOCKS data blocks behind it. */
  predicate InLog(start: nat, b: nat) {
    start <= b <= start + LOGBLOCKS
  }

  /** A header's block list: no repeats, every entry a home block. */
  ghost predicate Loggable(start: nat, lh: seq<nat>) {
    && |lh| <= LOGBLOCKS
    && Distinct(lh)
    && forall i :: 0 <= i < |lh| ==> !InLog(start, lh[i])
  }

  /** A block that can be read as a log header. */
  predicate IsHead(h: Block) {
    && |h.word| == WORDS
    && 0 <= h.word[0] <= LOGBLOCKS
    && forall i :: 1 <= i <= h.word[0] ==> 0 <= h.word[i]
  }

  /**
    write_head's effect on the header block: the count and the first `|lh|` entries are
    overwritten, the words behind them keep whatever an earlier transaction left there.
   */
  function HeadBlock(prior: Block, lh: seq<nat>): (h: Block)
    requires |prior.word| == WORDS && |lh| <= LOGBLOCKS
    ensures IsHead(h) && ReadHead(h) == lh
  {
    Block([|lh|] + lh + prior.word[|lh| + 1..])
  }

  /** read_head: the block list a header block denotes. */
  function ReadHead(h: Block): (lh: seq<nat>)
    requires IsHead(h)
    ensures |lh| == h.word[0]
  {
    seq(h.word[0], i requires 0 <= i < h.word[0] => h.word[1 + i])
  }

  /** The header's layout: the count, then the block numbers, then what was there before. */
  lemma HeadLayout(prior: Block, lh: seq<nat>)
    requires |prior.word| == WORDS && |lh| <= LOGBLOCKS
    ensures var w := HeadBlock(prior, lh).word;
            && |w| == WORDS && w[0] == |lh| && (forall i :: 0 <= i < |lh| ==> w[1 + i] == lh[i])
            && forall i :: |lh| < i < WORDS ==> w[i] == prior.word[i]
  {
  }

  /** A disk a kernel may boot from: the log area exists and the header is one write_head wrote. */
  ghost predicate Bootable(start: nat, d: Disk) {
    && (forall b :: InLog(start, b) ==> b in d)
    && IsHead(d[start])
    && Loggable(start, ReadHead(d[start]))
    && forall i :: 0 <= i < |ReadHead(d[start])| ==> ReadHead(d[start])[i] in d
  }

  /** The blocks outside the log. */
  ghost function Home(start: nat, d: Disk): Disk {
    map b | b in d && !InLog(start, b) :: d[b]
  }

  /**
    `home` is what the disk durably holds: a block named by the header is represented by its
    copy in the log, any other home block by itself. This says nothing about how recovery runs.
   */
  ghost predicate Durable(start: nat, d: Disk, home: Disk)
    requires Bootable(start, d)
  {
    var lh := ReadHead(d[start]);
    && home.Keys == Home(start, d).Keys
    && (forall i :: 0 <= i < |lh| ==> home[lh[i]] == LogCopies(start, d, |lh|)[i])
    && (forall b :: b in home && b !in lh ==> home[b] == d[b])
  }

  /** The first `n` data blocks of the log. */
  ghost function LogCopies(start: nat, d: Disk, n: nat): (copies: seq<Block>)
    requires n <= LOGBLOCKS
    requires forall b :: InLog(start, b) ==> b in d
    ensures |copies| == n
  {
    seq(n, i requires 0 <= i < n => assert InLog(start, start + 1 + i); d[start + 1 + i])
  }

  /** The contents `view` gives the blocks of `lh`. */
  ghost function Contents(lh: seq<nat>, view: Disk): (copies: seq<Block>)
    requires forall b :: b in lh ==> b in view
    ensures |copies| == |lh|
  {
    seq(|lh|, i requires 0 <= i < |lh| => view[lh[i]])
  }

  /** write_log's block writes. */
  ghost function LogPart(start: nat, copies: seq<Block>): (ws: seq<Write>)
    ensures |ws| == |copies|
  {
    seq(|copies|, i requires 0 <= i < |copies| => Write(start + 1 + i, copies[i]))
  }

  /** install_trans's block writes. */
  ghost function HomePart(lh: seq<nat>, copies: seq<Block>): (ws: seq<Write>)
    requires |lh| == |copies|
    ensures |ws| == |lh|
  {
    seq(|lh|, i requires 0 <= i < |lh| => Write(lh[i], copies[i]))
  }

  /** All block writes of one commit, in order: log copies, header, home blocks, empty header. */
  ghost function CommitWrites(start: nat, h: Block, lh: seq<nat>, view: Disk): seq<Write>
    requires Loggable(start, lh) && |h.word| == WORDS
    requires forall b :: b in lh ==> b in view
  {
    LogPart(start, Contents(lh, view))
    + [Write(start, HeadBlock(h, lh))]
    + (HomePart(lh, Contents(lh, view)) + [Write(start, HeadBlock(HeadBlock(h, lh), []))])
  }

  /** All block writes of one recovery. */
  ghost function RecoveryWrites(start: nat, d: Disk): seq<Write>
    requires Bootable(start, d)
  {
    var lh := ReadHead(d[start]);
    HomePart(lh, LogCopies(start, d, |lh|)) + [Write(start, HeadBlock(d[start], []))]
  }

  ghost function Recover(start: nat, d: Disk): Disk
    requires Bootable(start, d)
  {
    ApplyAll(d, RecoveryWrites(start, d))
  }

  /** `home` with the transaction's blocks replaced by the view it commits. */
  ghost function Overlay(home: Disk, lh: seq<nat>, view: Disk): Disk
    requires forall b :: b in lh ==> b in view
  {
    map b | b in home :: if b in lh then view[b] else home[b]
  }

  // ---------------------------------------------------------------- recovery

  /** `d'` is `d` with the first `k` blocks of `lh` replaced by their copies. */
  ghost predicate CopiedHome(d: Disk, d': Disk, lh: seq<nat>, copies: seq<Block>, k: nat)
    requires k <= |lh| == |copies|
  {
    && d'.Keys == d.Keys
    && (forall i :: 0 <= i < k ==> lh[i] in d' && d'[lh[i]] == copies[i])
    && (forall b :: b in d && b !in lh[..k] ==> d'[b] == d[b])
  }

  lemma CopyOneHome(d: Disk, d': Disk, lh: seq<nat>, copies: seq<Block>, k: nat)
    requires k < |lh| == |copies| && Distinct(lh) && lh[k] in d
    requires CopiedHome(d, d', lh, copies, k)
    ensures CopiedHome(d, d'[lh[k] := copies[k]], lh, copies, k + 1)
  {
    assert lh[..k + 1] == lh[..k] + [lh[k]];
  }

  /** The state in the middle of install_trans: the first `k` home blocks are in place. */
  lemma {:induction false} Installing(d: Disk, lh: seq<nat>, copies: seq<Block>, ws: seq<Write>, k: nat)
    requires k <= |lh| == |copies| <= |ws| && Distinct(lh)
    requires forall i :: 0 <= i < |lh| ==> lh[i] in d && ws[i] == Write(lh[i], copies[i])
    ensures CopiedHome(d, ApplyAll(d, ws[..k]), lh, copies, k)
  {
    if k > 0 {
      Installing(d, lh, copies, ws, k - 1);
      ApplyNext(d, ws, k - 1);
      CopyOneHome(d, ApplyAll(d, ws[..k - 1]), lh, copies, k - 1);
    }
  }

  /** Copying blocks home from the log does not change what is durable. */
  lemma CopyingIsDurable(start: nat, d: Disk, d': Disk, lh: seq<nat>, home: Disk, k: nat)
    requires Bootable(start, d) && ReadHead(d[start]) == lh && k <= |lh|
    requires Durable(start, d, home) && CopiedHome(d, d', lh, LogCopies(start, d, |lh|), k)
    ensures Bootable(start, d') && Durable(start, d', home)
    ensures d'[start] == d[start]
    ensures k == |lh| ==> Home(start, d') == home
  {
    LogSurvivesInstall(start, d, d', lh, LogCopies(start, d, |lh|), k);
    assert forall b :: b in lh[..k] ==> b in lh;
    hide LogCopies;
    if k == |lh| {
      assert lh[..k] == lh;
      forall b | b in home ensures d'[b] == home[b] {
        if b in lh {
          var i :| 0 <= i < |lh| && lh[i] == b;
        }
      }
    }
  }

  /** Emptying the header when every durable block is at home. */
  lemma ClearHeader(start: nat, d: Disk, home: Disk, h: Block)
    requires Bootable(start, d) && Home(start, d) == home
    requires IsHead(h) && ReadHead(h) == []
    ensures Bootable(start, d[start := h]) && Durable(start, d[start := h], home)
    ensures Home(start, d[start := h]) == home
  {
    var d' := d[start := h];
    assert Home(start, d') == Home(start, d);
    forall b | b in home ensures home[b] == d'[b] {
      assert home[b] == d[b];
    }
  }

  /**
    A crash after any number of recovery's writes leaves a disk that is still bootable and
    durably holds the same home blocks.
   */
  lemma RecoveryPrefix(start: nat, d: Disk, home: Disk, k: nat)
    requires Bootable(start, d) && Durable(start, d, home)
    requires k <= |RecoveryWrites(start, d)|
    ensures var d' := ApplyAll(d, RecoveryWrites(start, d)[..k]);
            && Bootable(start, d') && Durable(start, d', home)
            && (k == |RecoveryWrites(start, d)| ==> Home(start, d') == home && ReadHead(d'[start]) == [])
  {
    var lh := ReadHead(d[start]);
    var ws := RecoveryWrites(start, d);
    var n := if k <= |lh| then k else |lh|;
    TailInstalls(start, d, lh, n);
    CopyingIsDurable(start, d, ApplyAll(d, ws[..n]), lh, home, n);
    if k == |lh| + 1 {
      ApplyNext(d, ws, |lh|);
      ClearHeader(start, ApplyAll(d, ws[..n]), home, HeadBlock(d[start], []));
    }
  }

  /** A completed recovery puts every durable block in its home place and empties the header. */
  lemma RecoverInstalls(start: nat, d: Disk, home: Disk)
    requires Bootable(start, d) && Durable(start, d, home)
    ensures Home(start, Recover(start, d)) == home
    ensures Bootable(start, Recover(start, d))
    ensures ReadHead(Recover(start, d)[start]) == []
  {
    var ws := RecoveryWrites(start, d);
    RecoveryPrefix(start, d, home, |ws|);
    assert ws[..|ws|] == ws;
  }

  /** The disk after one crashed recovery for each entry of `crashes`, each entry saying how
      many block writes that recovery managed. */
  ghost function CrashedRecoveries(start: nat, d: Disk, crashes: seq<nat>): Disk
    requires Bootable(start, d)
    decreases |crashes|
  {
    if crashes == [] then d
    else
      var ws := RecoveryWrites(start, d);
      var k := if crashes[0] <= |ws| then crashes[0] else |ws|;
      var d' := ApplyAll(d, ws[..k]);
      if Bootable(start, d') then CrashedRecoveries(start, d', crashes[1..]) else d'
  }

  /**
    Recovery reaches the same home blocks however often it is itself interrupted: crash it at
    any points, any number of times, then let it finish.
   */
  lemma {:induction false} RecoveryIdempotent(start: nat, d: Disk, home: Disk, crashes: seq<nat>)
    requires Bootable(start, d) && Durable(start, d, home)
    ensures var d' := CrashedRecoveries(start, d, crashes);
            Bootable(start, d') && Home(start, Recover(start, d')) == home
    decreases |crashes|
  {
    if crashes == [] {
      RecoverInstalls(start, d, home);
    } else {
      var ws := RecoveryWrites(start, d);
      var k := if crashes[0] <= |ws| then crashes[0] else |ws|;
      RecoveryPrefix(start, d, home, k);
      RecoveryIdempotent(start, ApplyAll(d, ws[..k]), home, crashes[1..]);
    }
  }

  // ------------------------------------------------------------------ commit

  /** What commit needs of the disk and of the in-memory header it is about to write. */
  ghost predicate CommitReady(start: nat, d: Disk, lh: seq<nat>, view: Disk) {
    && Bootable(start, d) && ReadHead(d[start]) == []
    && Loggable(start, lh)
    && (forall b :: b in lh ==> b in d && b in view)
  }

  /** `d'` is `d` with the first `k` copies written into the log. */
  ghost predicate CopiedToLog(start: nat, d: Disk, d': Disk, copies: seq<Block>, k: nat)
    requires k <= |copies|
  {
    && d'.Keys == d.Keys
    && (forall i :: start < i <= start + k ==> i in d' && d'[i] == copies[i - start - 1])
    && (forall b :: b in d && !(start < b <= start + k) ==> d'[b] == d[b])
  }

  lemma LogNone(start: nat, d: Disk, copies: seq<Block>)
    ensures CopiedToLog(start, d, d, copies, 0)
  {
  }

  lemma LogOne(start: nat, d: Disk, d': Disk, copies: seq<Block>, k: nat)
    requires k < |copies| && CopiedToLog(start, d, d', copies, k) && start + 1 + k in d
    ensures CopiedToLog(start, d, d'[start + 1 + k := copies[k]], copies, k + 1)
  {
  }

  /** While the log blocks are written nothing else on the disk changes. */
  lemma {:induction false} Logging(start: nat, d: Disk, copies: seq<Block>, ws: seq<Write>, k: nat)
    requires k <= |copies| <= |ws|
    requires forall b :: InLog(start, b) ==> b in d
    requires |copies| <= LOGBLOCKS
    requires forall i :: 0 <= i < |copies| ==> ws[i] == Write(start + 1 + i, copies[i])
    ensures CopiedToLog(start, d, ApplyAll(d, ws[..k]), copies, k)
  {
    hide CopiedToLog;
    if k == 0 {
      LogNone(start, d, copies);
    } else {
      Logging(start, d, copies, ws, k - 1);
      ApplyNext(d, ws, k - 1);
      assert InLog(start, start + k);
      LogOne(start, d, ApplyAll(d, ws[..k - 1]), copies, k - 1);
    }
  }

  /** Before the header write the old home blocks are the durable ones. */
  lemma LoggingIsInvisible(start: nat, d: Disk, d': Disk, copies: seq<Block>, k: nat)
    requires Bootable(start, d) && ReadHead(d[start]) == []
    requires k <= |copies| <= LOGBLOCKS && CopiedToLog(start, d, d', copies, k)
    ensures Bootable(start, d') && Durable(start, d', Home(start, d))
  {
    assert Home(start, d).Keys == Home(start, d').Keys;
    forall b | b in Home(start, d) ensures d'[b] == d[b] {
      assert !InLog(start, b);
    }
  }

  /** The header write is the commit point. */
  lemma HeaderWriteCommits(start: nat, d: Disk, d': Disk, lh: seq<nat>, view: Disk, h: Block)
    requires CommitReady(start, d, lh, view)
    requires CopiedToLog(start, d, d', Contents(lh, view), |lh|)
    requires IsHead(h) && ReadHead(h) == lh
    ensures Bootable(start, d'[start := h])
    ensures Durable(start, d'[start := h], Overlay(Home(start, d), lh, view))
    ensures LogCopies(start, d'[start := h], |lh|) == Contents(lh, view)
  {
    var d'' := d'[start := h];
    var home := Overlay(Home(start, d), lh, view);
    assert home.Keys == Home(start, d'').Keys;
    assert LogCopies(start, d'', |lh|) == Contents(lh, view);
    forall b | b in home && b !in lh ensures home[b] == d''[b] {
      assert !InLog(start, b);
    }
  }

  /** The disk right after the first header write of a commit. */
  lemma CommitPoint(start: nat, d: Disk, lh: seq<nat>, view: Disk)
    requires CommitReady(start, d, lh, view)
    ensures |CommitWrites(start, d[start], lh, view)| == 2 * |lh| + 2
    ensures var d1 := ApplyAll(d, CommitWrites(start, d[start], lh, view)[..|lh| + 1]);
            && Bootable(start, d1) && d1[start] == HeadBlock(d[start], lh)
            && Durable(start, d1, Overlay(Home(start, d), lh, view))
            && LogCopies(start, d1, |lh|) == Contents(lh, view)
  {
    var ws := CommitWrites(start, d[start], lh, view);
    Logging(start, d, Contents(lh, view), ws, |lh|);
    ApplyNext(d, ws, |lh|);
    HeaderWriteCommits(start, d, ApplyAll(d, ws[..|lh|]), lh, view, HeadBlock(d[start], lh));
  }

  /** From the commit point on, what is left of commit's writes is exactly what recovery would do. */
  lemma CommitTail(start: nat, d1: Disk, h: Block, lh: seq<nat>, view: Disk)
    requires Bootable(start, d1) && Loggable(start, lh) && |h.word| == WORDS
    requires forall b :: b in lh ==> b in view
    requires d1[start] == HeadBlock(h, lh) && LogCopies(start, d1, |lh|) == Contents(lh, view)
    ensures CommitWrites(start, h, lh, view)[|lh| + 1..] == RecoveryWrites(start, d1)
  {
    assert |LogPart(start, Contents(lh, view))| == |lh|;
  }

  lemma CommitSplit(start: nat, d: Disk, lh: seq<nat>, view: Disk, k: nat)
    requires CommitReady(start, d, lh, view)
    requires |lh| < k <= |CommitWrites(start, d[start], lh, view)|
    ensures var ws := CommitWrites(start, d[start], lh, view);
            var d1 := ApplyAll(d, ws[..|lh| + 1]);
            && |ws| == 2 * |lh| + 2
            && Bootable(start, d1)
            && Durable(start, d1, Overlay(Home(start, d), lh, view))
            && |RecoveryWrites(start, d1)| == |lh| + 1
            && ApplyAll(d, ws[..k]) == ApplyAll(d1, RecoveryWrites(start, d1)[..k - |lh| - 1])
  {
    hide CommitWrites, ApplyAll, Durable, Overlay, Home, LogCopies, Contents, HeadBlock, ReadHead;
    CommitPoint(start, d, lh, view);
    var ws := CommitWrites(start, d[start], lh, view);
    CommitTail(start, ApplyAll(d, ws[..|lh| + 1]), d[start], lh, view);
    SplitApply(d, ws, |lh| + 1, k);
  }

  lemma SplitApply(d: Disk, ws: seq<Write>, m: nat, k: nat)
    requires m <= k <= |ws|
    ensures ApplyAll(d, ws[..k]) == ApplyAll(ApplyAll(d, ws[..m]), ws[m..][..k - m])
  {
    assert ws[..k] == ws[..m] + ws[m..][..k - m];
    ApplyConcat(d, ws[..m], ws[m..][..k - m]);
  }

  /**
    Crash atomicity. Stop after any prefix of commit's block writes: the disk is bootable and
    durably holds either the old home blocks or all of the transaction's, the latter exactly
    when the first header write (write number `|lh|`) is among the completed ones.
   */
  lemma CrashAtomic(start: nat, d: Disk, lh: seq<nat>, view: Disk, k: nat)
    requires CommitReady(start, d, lh, view)
    requires k <= |CommitWrites(start, d[start], lh, view)|
    ensures var d' := ApplyAll(d, CommitWrites(start, d[start], lh, view)[..k]);
            && Bootable(start, d')
            && Durable(start, d', if k <= |lh| then Home(start, d) else Overlay(Home(start, d), lh, view))
  {
    var ws := CommitWrites(start, d[start], lh, view);
    if k <= |lh| {
      Logging(start, d, Contents(lh, view), ws, k);
      LoggingIsInvisible(start, d, ApplyAll(d, ws[..k]), Contents(lh, view), k);
    } else {
      CommitSplit(start, d, lh, view, k);
      var d1 := ApplyAll(d, ws[..|lh| + 1]);
      RecoveryPrefix(start, d1, Overlay(Home(start, d), lh, view), k - |lh| - 1);
    }
  }

  /** A commit that is not interrupted ends with the transaction at home and an empty header. */
  lemma CommitComplete(start: nat, d: Disk, lh: seq<nat>, view: Disk)
    requires CommitReady(start, d, lh, view)
    ensures var d' := ApplyAll(d, CommitWrites(start, d[start], lh, view));
            && Bootable(start, d')
            && ReadHead(d'[start]) == []
            && Home(start, d') == Overlay(Home(start, d), lh, view)
  {
    var ws := CommitWrites(start, d[start], lh, view);
    CommitSplit(start, d, lh, view, |ws|);
    var d1 := ApplyAll(d, ws[..|lh| + 1]);
    RecoveryPrefix(start, d1, Overlay(Home(start, d), lh, view), |lh| + 1);
    assert ws[..|ws|] == ws;
  }

  /** Before the header write, commit has touched nothing but the log's data blocks. */
  lemma CommitDiskEarly(start: nat, d: Disk, lh: seq<nat>, view: Disk, k: nat)
    requires CommitReady(start, d, lh, view) && k <= |lh|
    ensures var d' := ApplyAll(d, CommitWrites(start, d[start], lh, view)[..k]);
            && d'.Keys == d.Keys && d'[start] == d[start]
            && (forall b :: b in d && !InLog(start, b) ==> d'[b] == d[b])
  {
    Logging(start, d, Contents(lh, view), CommitWrites(start, d[start], lh, view), k);
  }

  /** After the header write and `j` installs. */
  lemma CommitDiskLate(start: nat, d: Disk, lh: seq<nat>, view: Disk, j: nat)
    requires CommitReady(start, d, lh, view) && j <= |lh|
    ensures |CommitWrites(start, d[start], lh, view)| == 2 * |lh| + 2
    ensures var ws := CommitWrites(start, d[start], lh, view);
            var d' := ApplyAll(d, ws[..|lh| + 1 + j]);
            && CopiedHome(ApplyAll(d, ws[..|lh| + 1]), d', lh, Contents(lh, view), j)
            && (forall b :: InLog(start, b) ==> b in d')
            && d'[start] == HeadBlock(d[start], lh) && LogCopies(start, d', |lh|) == Contents(lh, view)
  {
    hide CommitWrites, ApplyAll, RecoveryWrites, CopiedHome, Durable, Overlay, Home, LogCopies, Contents, HeadBlock, ReadHead;
    CommitPoint(start, d, lh, view);
    CommitSplit(start, d, lh, view, |lh| + 1 + j);
    var ws := CommitWrites(start, d[start], lh, view);
    var d1 := ApplyAll(d, ws[..|lh| + 1]);
    TailInstalls(start, d1, lh, j);
    LogSurvivesInstall(start, d1, ApplyAll(d, ws[..|lh| + 1 + j]), lh, Contents(lh, view), j);
  }

  lemma TailInstalls(start: nat, d: Disk, lh: seq<nat>, j: nat)
    requires Bootable(start, d) && ReadHead(d[start]) == lh && j <= |lh|
    ensures |RecoveryWrites(start, d)| == |lh| + 1
    ensures CopiedHome(d, ApplyAll(d, RecoveryWrites(start, d)[..j]), lh, LogCopies(start, d, |lh|), j)
  {
    Installing(d, lh, LogCopies(start, d, |lh|), RecoveryWrites(start, d), j);
  }

  lemma LogSurvivesInstall(start: nat, d: Disk, d': Disk, lh: seq<nat>, copies: seq<Block>, k: nat)
    requires forall b :: InLog(start, b) ==> b in d
    requires k <= |lh| == |copies| && Loggable(start, lh) && CopiedHome(d, d', lh, copies, k)
    ensures forall b :: InLog(start, b) ==> b in d' && d'[b] == d[b]
    ensures LogCopies(start, d', |lh|) == LogCopies(start, d, |lh|)
  {
    assert forall b :: b in lh[..k] ==> b in lh;
    assert forall b :: InLog(start, b) ==> b !in lh[..k];
  }

  /**
    The end-to-end form: crash anywhere in commit, crash recovery any number of times at any
    points, finally let recovery finish. The home blocks are all old or all new.
   */
  lemma CrashThenRecover(start: nat, d: Disk, lh: seq<nat>, view: Disk, k: nat, crashes: seq<nat>)
    requires CommitReady(start, d, lh, view)
    requires k <= |CommitWrites(start, d[start], lh, view)|
    ensures var d' := ApplyAll(d, CommitWrites(start, d[start], lh, view)[..k]);
            && Bootable(start, d')
            && Bootable(start, CrashedRecoveries(start, d', crashes))
            && Home(start, Recover(start, CrashedRecoveries(start, d', crashes)))
               == if k <= |lh| then Home(start, d) else Overlay(Home(start, d), lh, view)
  {
    CrashAtomic(start, d, lh, view, k);
    var d' := ApplyAll(d, CommitWrites(start, d[start], lh, view)[..k]);
    RecoveryIdempotent(start, d', if k <= |lh| then Home(start, d) else Overlay(Home(start, d), lh, view), crashes);
  }

  // -------------------------------------------------------------- absorption

  /** log_write's header update: a block already listed is absorbed, a new one is appended. */
  function Absorb(lh: seq<nat>, b: nat): (r: seq<nat>)
    ensures b in r
    ensures forall x :: x in r <==> x in lh || x == b
    ensures Distinct(lh) ==> Distinct(r)
    ensures b in lh ==> r == lh
  {
    if b in lh then lh else lh + [b]
  }
}
