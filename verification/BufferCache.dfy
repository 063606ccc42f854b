/**
  The buffer cache: NBUF buffers on a doubly linked ring through a sentinel, most recently
  released first. `buf[0..NBUF)` are the buffers and index HEAD is the sentinel, so a C pointer
  is an index here. Every method is one critical section under bcache.lock, followed where the
  C code does so by taking or dropping the buffer's sleep lock.
 */
module BufferCache {
  import opened Common
  import opened Disk

  const HEAD := NBUF

  datatype Link = Link(prev: nat, next: nat)

  datatype Buf = Buf(valid: bool, dev: nat, blockno: nat, refcnt: nat, locked: bool, data: Block)

  // --------------------------------------------------------------- the ring

  /** The neighbours of the `k`-th buffer of the ring are its neighbours in `order`. */
  ghost predicate Linked(link: seq<Link>, order: seq<nat>, k: nat)
    requires k < |order| && order[k] < |link|
  {
    && link[order[k]].next == (if k + 1 < |order| then order[k + 1] else HEAD)
    && link[order[k]].prev == (if k > 0 then order[k - 1] else HEAD)
  }

  /** `link` is one circle through the sentinel visiting exactly `order`, prev and next inverse. */
  ghost predicate Circle(link: seq<Link>, order: seq<nat>) {
    && |link| == NBUF + 1
    && Distinct(order) && (forall k :: 0 <= k < |order| ==> order[k] < NBUF)
    && link[HEAD].next == (if order == [] then HEAD else order[0])
    && link[HEAD].prev == (if order == [] then HEAD else order[|order| - 1])
    && forall k :: 0 <= k < |order| ==> Linked(link, order, k)
  }

  /** The two pointer writes that take `b` out of the ring. */
  function Unlink(link: seq<Link>, b: nat): seq<Link>
    requires b < |link| && link[b].next < |link| && link[b].prev < |link|
  {
    var l1 := link[link[b].next := link[link[b].next].(prev := link[b].prev)];
    l1[link[b].prev := l1[link[b].prev].(next := link[b].next)]
  }

  /** The four pointer writes that put `b` right behind the sentinel. */
  function PushFront(link: seq<Link>, b: nat): seq<Link>
    requires |link| == NBUF + 1 && b < NBUF && link[HEAD].next <= NBUF
  {
    var l1 := link[b := Link(HEAD, link[HEAD].next)];
    var l2 := l1[l1[HEAD].next := l1[l1[HEAD].next].(prev := b)];
    l2[HEAD := l2[HEAD].(next := b)]
  }

  lemma UnlinkKeepsCircle(link: seq<Link>, order: seq<nat>, k: nat)
    requires Circle(link, order) && k < |order|
    ensures link[order[k]].next <= NBUF && link[order[k]].prev <= NBUF
    ensures Circle(Unlink(link, order[k]), Without(order, k))
  {
    assert Linked(link, order, k);
    var link', order' := Unlink(link, order[k]), Without(order, k);
    forall j | 0 <= j < |order'| ensures Linked(link', order', j) {
      var i := if j < k then j else j + 1;
      assert order'[j] == order[i];
      assert Linked(link, order, i);
    }
  }

  lemma PushKeepsCircle(link: seq<Link>, order: seq<nat>, b: nat)
    requires Circle(link, order) && b < NBUF && b !in order
    ensures link[HEAD].next <= NBUF
    ensures Circle(PushFront(link, b), [b] + order)
  {
    var link', order' := PushFront(link, b), [b] + order;
    forall j | 0 <= j < |order'| ensures Linked(link', order', j) {
      if j > 0 {
        assert Linked(link, order, j - 1);
      }
    }
  }

  /** Moving a buffer to the front of the ring, as brelse does when nobody references it. */
  lemma MoveToFront(link: seq<Link>, order: seq<nat>, k: nat)
    requires Circle(link, order) && k < |order|
    ensures link[order[k]].next <= NBUF && link[order[k]].prev <= NBUF
    ensures Unlink(link, order[k])[HEAD].next <= NBUF
    ensures Unlink(link, order[k])[order[k]] == link[order[k]]
    ensures Circle(PushFront(Unlink(link, order[k]), order[k]), [order[k]] + Without(order, k))
    ensures forall x :: x in order ==> x in [order[k]] + Without(order, k)
  {
    UnlinkKeepsCircle(link, order, k);
    assert order == order[..k] + [order[k]] + order[k + 1..];
    PushKeepsCircle(Unlink(link, order[k]), Without(order, k), order[k]);
  }

  /** brelse's six pointer writes on the array itself. */
  method RelinkFront(link: array<Link>, b: nat)
    requires link.Length == NBUF + 1 && b < NBUF
    requires link[b].next <= NBUF && link[b].prev <= NBUF
    requires Unlink(link[..], b)[HEAD].next <= NBUF
    requires Unlink(link[..], b)[b] == link[b]
    modifies link
    ensures link[..] == PushFront(Unlink(old(link[..]), b), b)
  {
    ghost var before := link[..];
    link[link[b].next] := link[link[b].next].(prev := link[b].prev);
    link[link[b].prev] := link[link[b].prev].(next := link[b].next);
    assert link[..] == Unlink(before, b);
    PushOnArray(link, b);
  }

  /** The insertion half, shared with binit. */
  method PushOnArray(link: array<Link>, b: nat)
    requires link.Length == NBUF + 1 && b < NBUF && link[HEAD].next <= NBUF
    modifies link
    ensures link[..] == PushFront(old(link[..]), b)
  {
    link[b] := Link(HEAD, link[HEAD].next);
    link[link[HEAD].next] := link[link[HEAD].next].(prev := b);
    link[HEAD] := link[HEAD].(next := b);
  }

  // ------------------------------------------------------------ the cache

  predicate Caches(buf: Buf, dev: nat, blockno: nat) {
    buf.dev == dev && buf.blockno == blockno
  }

  /** No block of a real device (device numbers start at 1) has two buffers. */
  ghost predicate Unique(bufs: seq<Buf>) {
    forall i, j :: 0 <= i < j < |bufs| && bufs[i].dev != 0 ==> !Caches(bufs[j], bufs[i].dev, bufs[i].blockno)
  }

  ghost predicate IsCached(bufs: seq<Buf>, dev: nat, blockno: nat) {
    exists i :: 0 <= i < |bufs| && Caches(bufs[i], dev, blockno)
  }

  /** `order` lists the buffers by the time they were last moved to the front, latest first. */
  ghost predicate ByRecency(order: seq<nat>, moved: seq<nat>, now: nat) {
    && (forall k :: 0 <= k < |order| ==> order[k] < |moved| && moved[order[k]] < now)
    && forall i, j :: 0 <= i < j < |order| ==> moved[order[i]] > moved[order[j]]
  }

  lemma RecencyAfterMove(order: seq<nat>, moved: seq<nat>, now: nat, k: nat)
    requires k < |order| && Distinct(order) && ByRecency(order, moved, now)
    ensures ByRecency([order[k]] + Without(order, k), moved[order[k] := now], now + 1)
  {
    var order' := [order[k]] + Without(order, k);
    forall i | 0 < i < |order'|
      ensures order'[i] == order[if i - 1 < k then i - 1 else i] && order'[i] != order[k]
    {
    }
  }

  /**
    What bget must find: the buffer that caches the block if there is one, otherwise the
    unreferenced buffer furthest from the front of the ring, otherwise nothing.
   */
  ghost predicate BgetPicks(bufs: seq<Buf>, order: seq<nat>, dev: nat, blockno: nat, r: Option<nat>)
    requires forall k :: 0 <= k < |order| ==> order[k] < |bufs|
  {
    if IsCached(bufs, dev, blockno) then
      r.Some? && r.value < |bufs| && Caches(bufs[r.value], dev, blockno)
    else if r.Some? then
      && r.value < |bufs| && bufs[r.value].refcnt == 0
      && exists k :: 0 <= k < |order| && order[k] == r.value
                     && forall j :: k < j < |order| ==> bufs[order[j]].refcnt > 0
    else
      forall i :: 0 <= i < |bufs| ==> bufs[i].refcnt > 0
  }

  /** bget's effect on the buffer it picked. */
  function Taken(b: Buf, dev: nat, blockno: nat): Buf {
    if Caches(b, dev, blockno) then b.(refcnt := b.refcnt + 1)
    else b.(dev := dev, blockno := blockno, valid := false, refcnt := 1)
  }

  /** The ring seen as an array: what every operation's scan relies on. */
  ghost predicate Ring(link: array<Link>, order: seq<nat>)
    reads link
  {
    && link.Length == NBUF + 1 && Circle(link[..], order) && |order| == NBUF
    && forall b :: 0 <= b < NBUF ==> b in order
  }

  lemma RingOrder(link: array<Link>, order: seq<nat>)
    requires Ring(link, order)
    ensures Distinct(order) && forall k :: 0 <= k < |order| ==> order[k] < NBUF
  {
  }

  /** bget's first loop: look for the block from the front of the ring. */
  method FindCached(link: array<Link>, buf: array<Buf>, ghost order: seq<nat>, dev: nat, blockno: nat) returns (b: nat)
    requires Ring(link, order) && buf.Length == NBUF
    ensures b <= NBUF
    ensures b != HEAD ==> Caches(buf[b], dev, blockno)
    ensures b == HEAD ==> forall i :: 0 <= i < NBUF ==> !Caches(buf[i], dev, blockno)
  {
    ghost var k := 0;
    b := link[HEAD].next;
    while b != HEAD
      invariant 0 <= k <= NBUF && b == (if k < NBUF then order[k] else HEAD)
      invariant forall j :: 0 <= j < k ==> !Caches(buf[order[j]], dev, blockno)
      decreases NBUF - k
    {
      if buf[b].dev == dev && buf[b].blockno == blockno {
        return;
      }
      assert Linked(link[..], order, k);
      b := link[b].next;
      k := k + 1;
    }
    forall i | 0 <= i < NBUF ensures !Caches(buf[i], dev, blockno) {
      assert i in order;
    }
  }

  /** bget's second loop: look for an unreferenced buffer from the back of the ring. */
  method FindUnused(link: array<Link>, buf: array<Buf>, ghost order: seq<nat>) returns (b: nat, ghost k: int)
    requires Ring(link, order) && buf.Length == NBUF
    ensures b <= NBUF
    ensures b != HEAD ==> 0 <= k < NBUF && order[k] == b && buf[b].refcnt == 0
    ensures b != HEAD ==> forall j :: k < j < NBUF ==> buf[order[j]].refcnt > 0
    ensures b == HEAD ==> forall i :: 0 <= i < NBUF ==> buf[i].refcnt > 0
  {
    k := NBUF - 1;
    b := link[HEAD].prev;
    while b != HEAD
      invariant -1 <= k < NBUF && b == (if k >= 0 then order[k] else HEAD)
      invariant forall j :: k < j < NBUF ==> buf[order[j]].refcnt > 0
      decreases k
    {
      if buf[b].refcnt == 0 {
        return;
      }
      assert Linked(link[..], order, k);
      b := link[b].prev;
      k := k - 1;
    }
    forall i | 0 <= i < NBUF ensures buf[i].refcnt > 0 {
      assert i in order;
    }
  }

  // ------------------------------------------------------------ running out of buffers

  /** Nothing can be recycled. */
  ghost predicate AllUsed(bufs: seq<Buf>) {
    forall i :: 0 <= i < |bufs| ==> bufs[i].refcnt > 0
  }

  /** Buffer `j` got one more reference for block `b`, being recycled for it if it held another. */
  ghost predicate Referenced(bufs: seq<Buf>, bufs': seq<Buf>, dev: nat, b: nat, j: nat) {
    && |bufs'| == |bufs| && j < |bufs| && Caches(bufs'[j], dev, b)
    && (if Caches(bufs[j], dev, b) then bufs'[j].refcnt == bufs[j].refcnt + 1
        else bufs'[j].refcnt == 1 && bufs[j].refcnt == 0 && !IsCached(bufs, dev, b))
    && forall i :: 0 <= i < |bufs| && i != j ==> bufs'[i] == bufs[i]
  }

  /** Buffer `j` keeps its block and has `refcnt` references; the others keep both. */
  ghost predicate Counted(bufs: seq<Buf>, bufs': seq<Buf>, j: nat, refcnt: int) {
    && |bufs'| == |bufs| && j < |bufs| && bufs'[j].refcnt == refcnt
    && forall i :: 0 <= i < |bufs| ==> Caches(bufs'[i], bufs[i].dev, bufs[i].blockno) && (i != j ==> bufs'[i].refcnt == bufs[i].refcnt)
  }

  /** The only references are one pin for each of the `pins`. */
  ghost predicate Quiet(bufs: seq<Buf>, dev: nat, pins: set<nat>) {
    && |bufs| == NBUF
    && (forall i :: 0 <= i < NBUF ==> bufs[i].refcnt == Pins(bufs[i], dev, pins))
    && (forall x :: x in pins ==> IsCached(bufs, dev, x))
  }

  function Pins(b: Buf, dev: nat, pins: set<nat>): nat {
    if b.dev == dev && b.blockno in pins then 1 else 0
  }

  ghost function Blocks(bufs: seq<Buf>): seq<nat> {
    seq(|bufs|, i requires 0 <= i < |bufs| => bufs[i].blockno)
  }

  lemma {:induction false} ElemsBound<T>(s: seq<T>)
    ensures |Elems(s)| <= |s|
  {
    if s != [] {
      ElemsBound(s[..|s| - 1]);
      assert Elems(s) == Elems(s[..|s| - 1]) + {s[|s| - 1]};
    }
  }

  /** In a quiet cache a buffer is left for another block exactly when fewer than NBUF are pinned. */
  lemma QuietRoom(bufs: seq<Buf>, dev: nat, pins: set<nat>, b: nat)
    requires Quiet(bufs, dev, pins) && Unique(bufs) && dev != 0 && b !in pins
    ensures |pins| < NBUF <==> IsCached(bufs, dev, b) || !AllUsed(bufs)
  {
    if AllUsed(bufs) {
      UsedArePinned(bufs, dev, pins);
    } else {
      var k :| 0 <= k < NBUF && bufs[k].refcnt == 0;
      UnusedLeavesRoom(bufs, dev, pins, k);
    }
    if i :| 0 <= i < |bufs| && Caches(bufs[i], dev, b) {
      UnusedLeavesRoom(bufs, dev, pins, i);
    }
  }

  lemma UsedArePinned(bufs: seq<Buf>, dev: nat, pins: set<nat>)
    requires Quiet(bufs, dev, pins) && Unique(bufs) && dev != 0 && AllUsed(bufs)
    ensures |pins| >= NBUF
  {
    var q := Blocks(bufs);
    forall i | 0 <= i < NBUF ensures bufs[i].dev == dev && q[i] in pins {
      assert bufs[i].refcnt == Pins(bufs[i], dev, pins) > 0;
    }
    forall i, j | 0 <= i < j < NBUF ensures q[i] != q[j] {
      assert !Caches(bufs[j], bufs[i].dev, bufs[i].blockno);
    }
    DistinctSize(q);
    SubsetSize(Elems(q), pins);
  }

  lemma UnusedLeavesRoom(bufs: seq<Buf>, dev: nat, pins: set<nat>, k: nat)
    requires Quiet(bufs, dev, pins) && k < NBUF && (bufs[k].refcnt == 0 || !(bufs[k].dev == dev && bufs[k].blockno in pins))
    ensures |pins| < NBUF
  {
    var q := Without(Blocks(bufs), k);
    forall x | x in pins ensures x in Elems(q) {
      assert IsCached(bufs, dev, x);
      var i :| 0 <= i < |bufs| && Caches(bufs[i], dev, x);
      assert i != k && q[if i < k then i else i - 1] == x;
    }
    SubsetSize(pins, Elems(q));
    ElemsBound(q);
  }

  /** Reading a block that is not pinned leaves a cache with one more reference, to it. */
  lemma QuietRead(bufs: seq<Buf>, bufs': seq<Buf>, dev: nat, pins: set<nat>, b: nat, j: nat)
    requires Quiet(bufs, dev, pins) && Unique(bufs) && dev != 0 && b !in pins && Referenced(bufs, bufs', dev, b, j)
    ensures Quiet(bufs', dev, pins + {b})
  {
    forall i | 0 <= i < NBUF ensures bufs'[i].refcnt == Pins(bufs'[i], dev, pins + {b}) {
      assert bufs[i].refcnt == Pins(bufs[i], dev, pins);
      assert Caches(bufs[i], dev, b) ==> IsCached(bufs, dev, b);
    }
    forall x | x in pins + {b} ensures IsCached(bufs', dev, x) {
      if x == b {
        assert Caches(bufs'[j], dev, x);
      } else {
        assert IsCached(bufs, dev, x);
        var i :| 0 <= i < |bufs| && Caches(bufs[i], dev, x);
        assert Caches(bufs'[i], dev, x);
      }
    }
  }

  /** Giving that reference up again. */
  lemma QuietDrop(bufs: seq<Buf>, bufs': seq<Buf>, dev: nat, pins: set<nat>, b: nat, j: nat)
    requires Quiet(bufs, dev, pins) && Unique(bufs) && dev != 0 && b in pins && j < NBUF && Caches(bufs[j], dev, b) && Counted(bufs, bufs', j, 0)
    ensures Quiet(bufs', dev, pins - {b})
  {
    forall i | 0 <= i < NBUF ensures bufs'[i].refcnt == Pins(bufs'[i], dev, pins - {b}) {
      assert bufs[i].refcnt == Pins(bufs[i], dev, pins) && Caches(bufs'[i], bufs[i].dev, bufs[i].blockno);
    }
    forall x | x in pins - {b} ensures IsCached(bufs', dev, x) {
      assert IsCached(bufs, dev, x);
      var i :| 0 <= i < |bufs| && Caches(bufs[i], dev, x);
      assert Caches(bufs'[i], dev, x);
    }
  }

  // ------------------------------------------- the cache as a plain block map

  /** A buffer agrees with the block map `view`. */
  ghost predicate Agrees(b: Buf, dev: nat, view: Disk) {
    b.dev == dev && b.valid ==> b.blockno in view && b.data == view[b.blockno]
  }

  /** Block `x` is kept by a valid buffer somebody references. */
  ghost predicate Kept(bufs: seq<Buf>, dev: nat, x: nat) {
    exists i :: 0 <= i < |bufs| && Caches(bufs[i], dev, x) && bufs[i].valid && bufs[i].refcnt > 0
  }

  /**
    Disk and cache together hold the block map `view`: valid buffers agree with it, and so
    does the disk except for the `owed` blocks, which are kept in the cache.
   */
  ghost predicate Coherent(bufs: seq<Buf>, disk: Disk, dev: nat, view: Disk, owed: set<nat>) {
    && view.Keys == disk.Keys
    && (forall i :: 0 <= i < |bufs| ==> Agrees(bufs[i], dev, view))
    && (forall x :: x in view && x !in owed ==> disk[x] == view[x])
    && (forall x :: x in owed ==> x in view && Kept(bufs, dev, x))
  }

  /** Buffer `i` is replaced; owed blocks that it kept are still kept by it. */
  lemma ReplaceKeepsCoherent(bufs: seq<Buf>, i: nat, b: Buf, disk: Disk, dev: nat, view: Disk, owed: set<nat>)
    requires Coherent(bufs, disk, dev, view, owed) && i < |bufs|
    requires Agrees(b, dev, view)
    requires bufs[i].dev == dev && bufs[i].valid && bufs[i].refcnt > 0 && bufs[i].blockno in owed ==>
               Caches(b, dev, bufs[i].blockno) && b.valid && b.refcnt > 0
    ensures Coherent(bufs[i := b], disk, dev, view, owed)
  {
    var bufs' := bufs[i := b];
    forall x | x in owed ensures Kept(bufs', dev, x) {
      assert Kept(bufs, dev, x);
      var j :| 0 <= j < |bufs| && Caches(bufs[j], dev, x) && bufs[j].valid && bufs[j].refcnt > 0;
      assert bufs'[j] == if j == i then b else bufs[j];
    }
  }

  /** Giving up one reference to buffer `i`, which must not be the one an owed block relies on. */
  lemma DropKeepsCoherent(bufs: seq<Buf>, i: nat, locked: bool, disk: Disk, dev: nat, view: Disk, owed: set<nat>)
    requires Coherent(bufs, disk, dev, view, owed) && i < |bufs| && bufs[i].refcnt > 0
    requires bufs[i].dev == dev && bufs[i].blockno in owed ==> bufs[i].refcnt > 1
    ensures Coherent(bufs[i := bufs[i].(locked := locked, refcnt := bufs[i].refcnt - 1)], disk, dev, view, owed)
  {
    assert Agrees(bufs[i], dev, view);
    ReplaceKeepsCoherent(bufs, i, bufs[i].(locked := locked, refcnt := bufs[i].refcnt - 1), disk, dev, view, owed);
  }

  /** New contents written to the disk through buffer `i`. */
  lemma WriteKeepsCoherent(bufs: seq<Buf>, i: nat, data: Block, disk: Disk, dev: nat, view: Disk, owed: set<nat>)
    requires Coherent(bufs, disk, dev, view, owed) && i < |bufs| && Unique(bufs)
    requires bufs[i].dev == dev != 0 && bufs[i].valid
    ensures var x := bufs[i].blockno;
            && x in view
            && Coherent(bufs[i := bufs[i].(data := data)], disk[x := data], dev, view[x := data], owed - {x})
  {
    var x := bufs[i].blockno;
    var bufs', view' := bufs[i := bufs[i].(data := data)], view[x := data];
    assert Agrees(bufs[i], dev, view);
    forall j | 0 <= j < |bufs'| ensures Agrees(bufs'[j], dev, view') {
      assert Agrees(bufs[j], dev, view);
    }
    forall y | y in owed - {x} ensures Kept(bufs', dev, y) {
      assert Kept(bufs, dev, y);
      var j :| 0 <= j < |bufs| && Caches(bufs[j], dev, y) && bufs[j].valid && bufs[j].refcnt > 0;
      assert bufs'[j] == bufs[j];
    }
  }

  class Bcache {
    const link: array<Link>
    const buf: array<Buf>
    var disk: Disk
    ghost var order: seq<nat>    // from head.next to head.prev
    ghost var moved: seq<nat>    // when each buffer was last moved to the front
    ghost var now: nat
    ghost var trace: seq<Write>  // block writes issued so far

    ghost predicate Valid()
      reads this, link, buf
    {
      && Ring(link, order)
      && |moved| == NBUF && ByRecency(order, moved, now)
      && buf.Length == NBUF && Unique(buf[..])
    }

    /** binit: the ring holds every buffer, the last one initialised in front. */
    constructor (disk: Disk)
      ensures Valid() && fresh(link) && fresh(buf)
      ensures this.disk == disk && trace == []
      ensures forall i :: 0 <= i < NBUF ==> buf[i] == Buf(false, 0, 0, 0, false, Block([]))
    {
      this.disk, trace := disk, [];
      link := new Link[NBUF + 1](_ => Link(HEAD, HEAD));
      buf := new Buf[NBUF](_ => Buf(false, 0, 0, 0, false, Block([])));
      order, moved, now := [], seq(NBUF, i => i), NBUF;
      new;
      LinkAll();
    }

    /** binit's loop. */
    method LinkAll()
      requires link.Length == NBUF + 1 && Circle(link[..], []) && order == []
      modifies link, `order
      ensures Ring(link, order) && forall i :: 0 <= i < NBUF ==> order[i] == NBUF - 1 - i
    {
      var b := 0;
      while b < NBUF
        invariant 0 <= b <= NBUF && |order| == b
        invariant Circle(link[..], order)
        invariant forall i :: 0 <= i < b ==> order[i] == b - 1 - i
      {
        assert b !in order;
        PushKeepsCircle(link[..], order, b);
        PushOnArray(link, b);
        order := [b] + order;
        b := b + 1;
      }
      forall b | 0 <= b < NBUF ensures b in order {
        assert order[NBUF - 1 - b] == b;
      }
    }

    /**
      bget, up to taking the sleep lock. `None` is the "no buffers" panic. The ring does not
      move; the picked buffer gains a reference and, when recycled, the new identity.
     */
    method Bget(dev: nat, blockno: nat) returns (r: Option<nat>)
      requires Valid() && dev != 0
      modifies buf
      ensures Valid()
      ensures BgetPicks(old(buf[..]), order, dev, blockno, r)
      ensures r.None? ==> buf[..] == old(buf[..])
      ensures r.Some? ==> r.value < NBUF && buf[..] == old(buf[..])[r.value := Taken(old(buf[..])[r.value], dev, blockno)]
    {
      var b := FindCached(link, buf, order, dev, blockno);
      if b != HEAD {
        buf[b] := buf[b].(refcnt := buf[b].refcnt + 1);
        return Some(b);
      }
      assert !IsCached(buf[..], dev, blockno);
      ghost var k;
      b, k := FindUnused(link, buf, order);
      if b != HEAD {
        buf[b] := buf[b].(dev := dev, blockno := blockno, valid := false, refcnt := 1);
        return Some(b);
      }
      return None;
    }

    /** brelse: drop the lock and the reference; an unreferenced buffer becomes most recent. */
    method Brelse(b: nat)
      requires Valid() && b < NBUF && buf[b].locked && buf[b].refcnt > 0
      modifies buf, link, `order, `moved, `now
      ensures Valid()
      ensures buf[..] == old(buf[..])[b := old(buf[b]).(locked := false, refcnt := old(buf[b]).refcnt - 1)]
      ensures old(buf[b].refcnt) > 1 ==> order == old(order)
      ensures old(buf[b].refcnt) == 1 ==>
                exists k :: 0 <= k < NBUF && old(order)[k] == b && order == [b] + Without(old(order), k)
    {
      buf[b] := buf[b].(locked := false);
      buf[b] := buf[b].(refcnt := buf[b].refcnt - 1);
      if buf[b].refcnt == 0 {
        Promote(b);
      }
    }

    /** The list half of brelse. */
    method Promote(b: nat)
      requires Ring(link, order) && b < NBUF
      requires |moved| == NBUF && ByRecency(order, moved, now)
      modifies link, `order, `moved, `now
      ensures Ring(link, order)
      ensures |moved| == NBUF && ByRecency(order, moved, now)
      ensures exists k :: 0 <= k < NBUF && old(order)[k] == b && order == [b] + Without(old(order), k)
    {
      hide Circle, ByRecency, PushFront, Unlink, Without;
      RingOrder(link, order);
      assert b in order;
      ghost var k :| 0 <= k < |order| && order[k] == b;
      MoveToFront(link[..], order, k);
      RecencyAfterMove(order, moved, now, k);
      RelinkFront(link, b);
      order := [b] + Without(order, k);
      moved := moved[b := now];
      now := now + 1;
    }

    /** bpin. */
    method Bpin(b: nat)
      requires Valid() && b < NBUF
      modifies buf
      ensures Valid()
      ensures buf[..] == old(buf[..])[b := old(buf[b]).(refcnt := old(buf[b]).refcnt + 1)]
    {
      buf[b] := buf[b].(refcnt := buf[b].refcnt + 1);
    }

    /** bunpin. */
    method Bunpin(b: nat)
      requires Valid() && b < NBUF && buf[b].refcnt > 0
      modifies buf
      ensures Valid()
      ensures buf[..] == old(buf[..])[b := old(buf[b]).(refcnt := old(buf[b]).refcnt - 1)]
    {
      buf[b] := buf[b].(refcnt := buf[b].refcnt - 1);
    }

    /**
      bread: the returned buffer is locked, referenced and holds the block's current contents.
      Recycling a buffer for it loses nothing, because an owed block is never unreferenced.
      Waiting for a buffer somebody else has locked is not part of this sequential view.
     */
    method Bread(dev: nat, blockno: nat, ghost view: Disk, ghost owed: set<nat>) returns (r: Option<nat>)
      requires Valid() && dev != 0 && blockno in view
      requires Coherent(buf[..], disk, dev, view, owed)
      requires forall i :: 0 <= i < NBUF && Caches(buf[i], dev, blockno) ==> !buf[i].locked
      modifies buf
      ensures Valid() && Coherent(buf[..], disk, dev, view, owed)
      ensures r.None? <==> !IsCached(old(buf[..]), dev, blockno) && AllUsed(old(buf[..]))
      ensures r.None? ==> buf[..] == old(buf[..])
      ensures r.Some? ==> Referenced(old(buf[..]), buf[..], dev, blockno, r.value)
      ensures r.Some? ==>
                && r.value < NBUF && Caches(buf[r.value], dev, blockno)
                && buf[r.value].valid && buf[r.value].locked && buf[r.value].data == view[blockno]
                && (forall j :: 0 <= j < NBUF && j != r.value ==> buf[j] == old(buf[j]))
                && (if Caches(old(buf[r.value]), dev, blockno) then buf[r.value].refcnt == old(buf[r.value]).refcnt + 1
                    else buf[r.value].refcnt == 1 && old(buf[r.value]).refcnt == 0)
                && (blockno in owed ==> buf[r.value].refcnt > 1)
    {
      ghost var before := buf[..];
      r := Bget(dev, blockno);
      if r.Some? {
        var b := r.value;
        buf[b] := buf[b].(locked := true);
        if !buf[b].valid {
          buf[b] := buf[b].(data := disk[blockno], valid := true);
        }
        BreadCoherent(before, b, buf[b], disk, dev, blockno, view, owed);
        assert buf[..] == before[b := buf[b]];
      }
    }

    /** memmove into a locked buffer followed by bwrite. */
    method Bwrite(b: nat, data: Block, ghost dev: nat, ghost view: Disk, ghost owed: set<nat>)
      requires Valid() && b < NBUF && buf[b].locked
      requires buf[b].dev == dev != 0 && buf[b].valid
      requires Coherent(buf[..], disk, dev, view, owed)
      modifies buf, `disk, `trace
      ensures Valid()
      ensures buf[..] == old(buf[..])[b := old(buf[b]).(data := data)]
      ensures disk == old(disk)[buf[b].blockno := data]
      ensures trace == old(trace) + [Write(buf[b].blockno, data)]
      ensures Coherent(buf[..], disk, dev, view[buf[b].blockno := data], owed - {buf[b].blockno})
    {
      WriteKeepsCoherent(buf[..], b, data, disk, dev, view, owed);
      buf[b] := buf[b].(data := data);
      disk := disk[buf[b].blockno := buf[b].data];
      trace := trace + [Write(buf[b].blockno, buf[b].data)];
    }
  }

  lemma BreadCoherent(bufs: seq<Buf>, i: nat, b: Buf, disk: Disk, dev: nat, blockno: nat, view: Disk, owed: set<nat>)
    requires Coherent(bufs, disk, dev, view, owed) && Unique(bufs) && i < |bufs| && dev != 0 && blockno in view
    requires Caches(bufs[i], dev, blockno) || (bufs[i].refcnt == 0 && !IsCached(bufs, dev, blockno))
    requires Caches(b, dev, blockno) && b.valid && b.refcnt > 0
    requires b.data == if Caches(bufs[i], dev, blockno) && bufs[i].valid then bufs[i].data else disk[blockno]
    ensures Coherent(bufs[i := b], disk, dev, view, owed)
    ensures b.data == view[blockno]
    ensures blockno in owed ==> Caches(bufs[i], dev, blockno) && bufs[i].refcnt > 0
  {
    assert Agrees(bufs[i], dev, view);
    if blockno in owed {
      assert Kept(bufs, dev, blockno);
      var j :| 0 <= j < |bufs| && Caches(bufs[j], dev, blockno) && bufs[j].valid && bufs[j].refcnt > 0;
      assert IsCached(bufs, dev, blockno);
      assert j == i;
    }
    ReplaceKeepsCoherent(bufs, i, b, disk, dev, view, owed);
  }
}
