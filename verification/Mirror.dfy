/**
  How the cache of `BufferCache` and the cache of the log machine correspond, and that bget in
  the one is the machine's Get step in the other.
 */
module Mirror {
  import opened Common
  import opened Disk
  import opened BufferCache
  import M = LogMachine

  /** The machine's record of a block says what the buffer says. */
  ghost predicate Same(b: Buf, m: M.Buf) {
    m.refcnt == b.refcnt && m.valid == b.valid && (b.valid ==> m.data == b.data)
  }

  /** The machine's cache holds exactly the blocks that some buffer caches, with what it says. */
  ghost predicate Mirrors(bufs: seq<Buf>, dev: nat, c: map<nat, M.Buf>) {
    && (forall x :: x in c <==> IsCached(bufs, dev, x))
    && (forall i :: 0 <= i < |bufs| && bufs[i].dev == dev ==> bufs[i].blockno in c && Same(bufs[i], c[bufs[i].blockno]))
  }

  /** One buffer changes without changing its block. */
  lemma MirrorOne(bufs: seq<Buf>, dev: nat, c: map<nat, M.Buf>, i: nat, b: Buf, m: M.Buf)
    requires Mirrors(bufs, dev, c) && Unique(bufs) && dev != 0 && i < |bufs| && Caches(b, bufs[i].dev, bufs[i].blockno) && bufs[i].dev == dev
    requires Same(b, m)
    ensures Mirrors(bufs[i := b], dev, c[b.blockno := m])
  {
    var bufs', c' := bufs[i := b], c[b.blockno := m];
    forall x ensures x in c' <==> IsCached(bufs', dev, x) {
      CachedAfter(bufs, dev, i, b, x);
    }
    forall j | 0 <= j < |bufs'| && bufs'[j].dev == dev ensures bufs'[j].blockno in c' && Same(bufs'[j], c'[bufs'[j].blockno]) {
      if j != i {
        assert bufs[j].blockno != b.blockno;
      }
    }
  }

  lemma CachedAfter(bufs: seq<Buf>, dev: nat, i: nat, b: Buf, x: nat)
    requires i < |bufs| && Caches(b, bufs[i].dev, bufs[i].blockno)
    ensures IsCached(bufs[i := b], dev, x) <==> IsCached(bufs, dev, x)
  {
    var bufs' := bufs[i := b];
    if j :| 0 <= j < |bufs| && Caches(bufs[j], dev, x) {
      assert Caches(bufs'[j], dev, x);
    }
    if j :| 0 <= j < |bufs'| && Caches(bufs'[j], dev, x) {
      assert Caches(bufs[j], dev, x);
    }
  }

  /** bget's hit. */
  lemma HitMirrors(s: M.State, bufs: seq<Buf>, dev: nat, p: nat, b: nat, i: nat, victim: nat)
    requires Mirrors(bufs, dev, s.cache) && Unique(bufs) && dev != 0 && i < |bufs| && Caches(bufs[i], dev, b)
    requires M.Up(s) && b in s.disk && (b in s.cache ==> p !in s.cache[b].users)
    ensures M.CanGet(s, p, b, victim) && Mirrors(bufs[i := Taken(bufs[i], dev, b)], dev, M.DoGet(s, p, b, victim).cache)
  {
    assert IsCached(bufs, dev, b);
    var buf := s.cache[b];
    MirrorOne(bufs, dev, s.cache, i, Taken(bufs[i], dev, b), buf.(refcnt := buf.refcnt + 1, users := buf.users + {p}));
  }

  /** The cached blocks are at most as many as the buffers, and fewer when one caches none of them. */
  lemma CacheBound(bufs: seq<Buf>, dev: nat, c: map<nat, M.Buf>, k: nat)
    requires Mirrors(bufs, dev, c) && k < |bufs| && bufs[k].dev != dev
    ensures |c| < |bufs|
  {
    var q := Without(Blocks(bufs), k);
    forall x | x in c.Keys ensures x in Elems(q) {
      var i :| 0 <= i < |bufs| && Caches(bufs[i], dev, x);
      assert q[if i < k then i else i - 1] == x;
    }
    SubsetSize(c.Keys, Elems(q));
    ElemsBound(q);
  }

  /** bget's miss: the recycled buffer's block is the victim, if it held one. */
  lemma MissMirrors(s: M.State, bufs: seq<Buf>, dev: nat, p: nat, b: nat, i: nat)
    requires Mirrors(bufs, dev, s.cache) && Unique(bufs) && dev != 0 && |bufs| == NBUF && i < NBUF
    requires !IsCached(bufs, dev, b) && bufs[i].refcnt == 0 && M.Up(s) && b in s.disk
    ensures var victim := if bufs[i].dev == dev then bufs[i].blockno else b;
            M.CanGet(s, p, b, victim) && Mirrors(bufs[i := Taken(bufs[i], dev, b)], dev, M.DoGet(s, p, b, victim).cache)
  {
    hide IsCached, Unique, M.CanGet, M.DoGet;
    var victim := if bufs[i].dev == dev then bufs[i].blockno else b;
    if bufs[i].dev != dev { CacheBound(bufs, dev, s.cache, i); }
    GetMiss(s, p, b, victim);
    var bufs', c' := bufs[i := Taken(bufs[i], dev, b)], M.DoGet(s, p, b, victim).cache;
    forall x ensures x in c' <==> IsCached(bufs', dev, x) {
      MissCached(bufs, dev, i, b, x);
    }
    forall j | 0 <= j < |bufs'| && bufs'[j].dev == dev ensures bufs'[j].blockno in c' && Same(bufs'[j], c'[bufs'[j].blockno]) {
      Elsewhere(bufs, dev, i, b, j);
    }
  }

  lemma GetMiss(s: M.State, p: nat, b: nat, victim: nat)
    requires M.Up(s) && b in s.disk && b !in s.cache && if victim in s.cache then s.cache[victim].refcnt == 0 else |s.cache| < NBUF
    ensures M.CanGet(s, p, b, victim)
    ensures M.DoGet(s, p, b, victim).cache == (s.cache - {victim})[b := M.Buf(false, Block([]), 1, {p}, None, false)]
  {
  }

  /** Another buffer caches neither the new block nor the victim. */
  lemma Elsewhere(bufs: seq<Buf>, dev: nat, i: nat, b: nat, j: nat)
    requires Unique(bufs) && dev != 0 && i < |bufs| && j < |bufs| && !IsCached(bufs, dev, b)
    ensures bufs[j].dev == dev ==> bufs[j].blockno != b && (j != i && bufs[i].dev == dev ==> bufs[j].blockno != bufs[i].blockno)
  {
    assert Caches(bufs[j], dev, b) ==> IsCached(bufs, dev, b);
  }

  lemma MissCached(bufs: seq<Buf>, dev: nat, i: nat, b: nat, x: nat)
    requires Unique(bufs) && dev != 0 && i < |bufs| && !IsCached(bufs, dev, b)
    ensures IsCached(bufs[i := Taken(bufs[i], dev, b)], dev, x) <==> x == b || (IsCached(bufs, dev, x) && !Caches(bufs[i], dev, x))
  {
    var bufs' := bufs[i := Taken(bufs[i], dev, b)];
    assert Caches(bufs'[i], dev, b) by { assert Caches(bufs[i], dev, b) ==> IsCached(bufs, dev, b); }
    if j :| 0 <= j < |bufs'| && Caches(bufs'[j], dev, x) && x != b {
      assert Caches(bufs[j], dev, x);
    }
    if j :| 0 <= j < |bufs| && Caches(bufs[j], dev, x) && !Caches(bufs[i], dev, x) {
      assert Caches(bufs'[j], dev, x);
    }
  }

  /**
    bget simulates the machine's Get: what it picks is a block the machine may pick, with the
    same effect, and where bget panics the machine has no Get step for the block.
   */
  lemma BgetSimulates(s: M.State, bufs: seq<Buf>, order: seq<nat>, dev: nat, p: nat, b: nat, r: Option<nat>) returns (victim: nat)
    requires Mirrors(bufs, dev, s.cache) && Unique(bufs) && dev != 0 && |bufs| == NBUF
    requires (forall k :: 0 <= k < |order| ==> order[k] < |bufs|) && BgetPicks(bufs, order, dev, b, r)
    requires M.Up(s) && b in s.disk && (b in s.cache ==> p !in s.cache[b].users)
    ensures r.Some? ==>
              && r.value < NBUF && M.CanGet(s, p, b, victim)
              && Mirrors(bufs[r.value := Taken(bufs[r.value], dev, b)], dev, M.DoGet(s, p, b, victim).cache)
    ensures r.None? && |s.cache| >= NBUF ==> forall v :: !M.CanGet(s, p, b, v)
  {
    if r.None? {
      victim := b;
      NoVictim(s, bufs, dev, p, b);
    } else if IsCached(bufs, dev, b) {
      victim := b;
      HitMirrors(s, bufs, dev, p, b, r.value, victim);
    } else {
      victim := if bufs[r.value].dev == dev then bufs[r.value].blockno else b;
      MissMirrors(s, bufs, dev, p, b, r.value);
    }
  }

  lemma NoVictim(s: M.State, bufs: seq<Buf>, dev: nat, p: nat, b: nat)
    requires Mirrors(bufs, dev, s.cache) && !IsCached(bufs, dev, b) && AllUsed(bufs)
    ensures |s.cache| >= NBUF ==> forall v :: !M.CanGet(s, p, b, v)
  {
    forall v | v in s.cache ensures s.cache[v].refcnt > 0 {
      assert IsCached(bufs, dev, v);
      var i :| 0 <= i < |bufs| && Caches(bufs[i], dev, v);
      assert Same(bufs[i], s.cache[v]);
    }
  }
}
