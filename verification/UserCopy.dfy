/**
  Moving bytes between the kernel and a user address space, with pages allocated on first touch.
  User memory is seen as one array of bytes per address space in which a page that has not been
  touched yet reads as zeroes, so that allocating it lazily changes nothing.
 */
module UserCopy {
  import opened VmSpec
  import opened FrameCost
  import opened PageTable
  import opened UserVm

  const USERTOP := TRAPFRAME * PGSIZE

  /** The bytes of a user page; zeroes when it is not backed yet. */
  ghost function PageBytes(s: Vm, r: nat, vpn: nat): (b: Bytes)
    requires vpn < NVPN
    ensures |b| == PGSIZE
  {
    BytesOf(s, LeafPte(s, r, vpn))
  }

  ghost function BytesOf(s: Vm, e: Pte): (b: Bytes)
    ensures |b| == PGSIZE
  {
    if e.v && e.pa in s.page && s.page[e.pa].Data? && |s.page[e.pa].bytes| == PGSIZE then s.page[e.pa].bytes else ZeroBytes()
  }

  ghost function Mem(s: Vm, r: nat, a: nat): int
    requires a < USERTOP
  {
    PageBytes(s, r, a / PGSIZE)[a % PGSIZE]
  }

  /** The same bytes in every address space. */
  ghost predicate SameUser(s0: Vm, s: Vm) {
    s.roots == s0.roots && forall t, v :: t in s.roots && 0 <= v < TRAPFRAME ==> PageBytes(s, t, v) == PageBytes(s0, t, v)
  }

  /** Trampoline and trapframe are not open to user accesses. */
  ghost predicate KernelPrivate(s: Vm, r: nat) {
    forall v :: TRAPFRAME <= v < NVPN ==> !LeafPte(s, r, v).u
  }

  /** Growing one user page by zeroes changes no byte of any address space. */
  lemma LazyIsInvisible(s0: Vm, role0: map<nat, Role>, s: Vm, role: map<nat, Role>, r: nat, vpn: nat)
    requires Inv(s0, role0) && r in s0.roots && vpn < TRAPFRAME && !LeafPte(s0, r, vpn).v
    requires Within(s0, role0, s, role, r, vpn, vpn + 1) && PageBytes(s, r, vpn) == ZeroBytes()
    ensures SameUser(s0, s)
    ensures KernelPrivate(s0, r) ==> KernelPrivate(s, r)
  {
    hide LeafPte, NodesOk, FlagsOk, FreeOk, LeavesOk, RoleMove;
    forall t, v | t in s.roots && 0 <= v < TRAPFRAME ensures PageBytes(s, t, v) == PageBytes(s0, t, v) {
      if LeafPte(s0, t, v).v {
        UserLeaf(s0, role0, t, v);
      }
    }
  }

  lemma GrownIsInvisible(s0: Vm, role0: map<nat, Role>, s: Vm, role: map<nat, Role>, r: nat)
    requires Inv(s0, role0) && r in s0.roots && Grown(s0, role0, s, role, r)
    ensures SameUser(s0, s)
    ensures KernelPrivate(s0, r) ==> KernelPrivate(s, r)
  {
    hide LeafPte, NodesOk, FlagsOk, FreeOk, LeavesOk;
    forall t, v | t in s.roots && 0 <= v < TRAPFRAME ensures PageBytes(s, t, v) == PageBytes(s0, t, v) {
      if LeafPte(s0, t, v).v {
        UserLeaf(s0, role0, t, v);
      }
    }
  }

  const LAZY := Pte(0, false, true, true, false, true, 0)   // PTE_W|PTE_U|PTE_R

  /** The level-0 entry of a page, NONE if there is no table; walk without allocation. */
  method Lookup(m: Memory, r: nat, vpn: nat) returns (e: Pte)
    requires m.Valid() && r in m.roots && vpn < MAXVPN
    modifies m`page, m`free, m`role
    ensures m.S() == old(m.S()) && m.role == old(m.role) && m.Valid()
    ensures e.v == LeafPte(m.S(), r, vpn).v && (e.v ==> e == LeafPte(m.S(), r, vpn))
  {
    hide NodesOk, LeavesOk, FlagsOk, FreeOk, LeafPte, Low, Grown;
    assert vpn * PGSIZE / PGSIZE == vpn;
    var w := m.Walk(r, vpn * PGSIZE, false);
    if w.NoPte? {
      NoTableNoLeaf(m.S(), r, vpn);
      return NONE;
    }
    LeafSlot(m.S(), m.role, w.table, w.i, vpn);
    e := m.page[w.table].pte[w.i];
  }

  /**
    vmfault: backs an untouched page below `sz` by a zeroed frame. It refuses an address beyond
    `sz`, a page that is mapped already, and when memory is out; no byte of any address space
    changes either way.
   */
  method Vmfault(m: Memory, r: nat, sz: nat, va: nat) returns (pa: nat)
    requires m.Valid() && r in m.roots && Pages(sz) <= TRAPFRAME
    modifies m`page, m`free, m`role
    ensures m.Valid() && SameUser(old(m.S()), m.S())
    ensures KernelPrivate(old(m.S()), r) ==> KernelPrivate(m.S(), r)
    ensures va >= sz || LeafPte(old(m.S()), r, va / PGSIZE).v ==> pa == 0 && m.S() == old(m.S()) && m.role == old(m.role)
    ensures va < sz ==> va / PGSIZE < TRAPFRAME
    ensures pa == 0 ==>
              && Grown(old(m.S()), old(m.role), m.S(), m.role, r)
              && (va >= sz || LeafPte(old(m.S()), r, va / PGSIZE).v || |m.free| <= 1)
    ensures pa != 0 ==>
              && TablesAt(old(m.S()), m.S(), r, va / PGSIZE) && |m.free| == |old(m.free)| - 1 - Missing(old(m.S()), r, va / PGSIZE)
    ensures pa != 0 ==>
              && Within(old(m.S()), old(m.role), m.S(), m.role, r, va / PGSIZE, va / PGSIZE + 1)
              && LeafPte(m.S(), r, va / PGSIZE) == Pte(pa, v := true, r := true, w := true, x := false, u := true, rest := 0)
    ensures pa != 0 <==> va < sz && !LeafPte(old(m.S()), r, va / PGSIZE).v && |old(m.free)| >= 1 + Missing(old(m.S()), r, va / PGSIZE)
  {
    hide Missing, TablesAt, NodesOk, LeavesOk, FlagsOk, FreeOk, LeafPte, Low, Grown, Within, SameUser, KernelPrivate, BytesOf, Pages;
    ghost var s0, role0 := m.S(), m.role;
    GrownRefl(s0, role0, r);
    GrownIsInvisible(s0, role0, s0, role0, r);
    if va < sz { UserPage(va, sz); }
    if va >= sz {
      return 0;
    }
    var vpn := va / PGSIZE;
    var e := Lookup(m, r, vpn);
    if e.v {
      return 0;
    }
    var ok;
    ok, pa := MapFresh(m, r, vpn, ZeroBytes(), LAZY);
    if !ok {
      GrownIsInvisible(s0, role0, m.S(), m.role, r);
      return 0;
    }
    FrameNotZero(s0, role0, pa);
    FreshZero(m.S(), LeafPte(m.S(), r, vpn), pa);
    LazyIsInvisible(s0, role0, m.S(), m.role, r, vpn);
  }

  lemma UserPage(va: nat, sz: nat)
    requires Pages(sz) <= TRAPFRAME && va < sz
    ensures va / PGSIZE < TRAPFRAME
  {
  }

  lemma FrameNotZero(s: Vm, role: map<nat, Role>, p: nat)
    requires Inv(s, role) && p in role
    ensures p != 0
  {
  }

  lemma FreshZero(s: Vm, e: Pte, p: nat)
    requires e.v && e.pa == p && p in s.page && s.page[p] == Data(ZeroBytes())
    ensures BytesOf(s, e) == ZeroBytes()
  {
  }

  /** Why a page cannot be read or written, memory aside: out of range, closed to the user, or beyond the size. */
  ghost predicate Shut(s: Vm, r: nat, sz: nat, vpn: nat, write: bool) {
    || vpn >= MAXVPN
    || if LeafPte(s, r, vpn).v then !LeafPte(s, r, vpn).u || (write && !LeafPte(s, r, vpn).w) else vpn * PGSIZE >= sz
  }

  /** The pages a tree does not map. */
  ghost function Absent(s: Vm, r: nat): iset<nat> {
    iset v: nat | IsPage(v) && !LeafPte(s, r, v).v
  }

  ghost predicate Open(s: Vm, r: nat, vpn: nat, write: bool) {
    vpn < TRAPFRAME && LeafPte(s, r, vpn).v && LeafPte(s, r, vpn).u && (write ==> LeafPte(s, r, vpn).w)
  }

  /** One page was made sure of: nothing changed, or it was backed by a page open to reads and writes. */
  ghost predicate Entered(s: Vm, s': Vm, r: nat, vpn: nat) {
    && vpn < NVPN && LeafPte(s', r, vpn).v && LeafPte(s', r, vpn).u
    && (forall v :: 0 <= v < NVPN && v != vpn ==> LeafPte(s', r, v) == LeafPte(s, r, v))
    && if LeafPte(s, r, vpn).v then s' == s
       else LeafPte(s', r, vpn).w && TablesAt(s, s', r, vpn) && |s'.free| == |s.free| - 1 - Missing(s, r, vpn)
  }

  lemma WithinLeaves(s0: Vm, role0: map<nat, Role>, s: Vm, role: map<nat, Role>, r: nat, vpn: nat)
    requires Within(s0, role0, s, role, r, vpn, vpn + 1) && r in s0.roots
    ensures forall v :: 0 <= v < NVPN && v != vpn ==> LeafPte(s, r, v) == LeafPte(s0, r, v)
  {
    hide LeafPte;
  }

  /**
    From `s0` to `s` the pages `lo..k` were made sure of, each backed if it was absent and at
    exactly its cost, and the ones behind them are as they were.
   */
  ghost predicate Touched(s0: Vm, s: Vm, r: nat, sz: nat, lo: nat, k: nat, write: bool) {
    && Spent(s0, s, r, Absent(s0, r), lo, k, 1)
    && (forall v :: k <= v < NVPN ==> LeafPte(s, r, v) == LeafPte(s0, r, v))
    && (forall v :: lo <= v < k ==> !Shut(s0, r, sz, v, write))
  }

  lemma TouchedNone(s: Vm, r: nat, sz: nat, lo: nat, write: bool)
    ensures lo <= NVPN ==> Touched(s, s, r, sz, lo, lo, write)
  {
    hide LeafPte, Spent, Shut;
    if lo <= NVPN { SpentNone(s, r, Absent(s, r), lo, 1); }
  }

  lemma TouchedNext(s0: Vm, s1: Vm, s2: Vm, r: nat, sz: nat, lo: nat, k: nat, write: bool)
    requires Touched(s0, s1, r, sz, lo, k, write) && Entered(s1, s2, r, k) && !Shut(s1, r, sz, k, false) && (write ==> LeafPte(s2, r, k).w)
    ensures Touched(s0, s2, r, sz, lo, k + 1, write)
  {
    hide LeafPte, Spent, TablesAt, Missing;
    assert LeafPte(s1, r, k) == LeafPte(s0, r, k);
    if LeafPte(s0, r, k).v {
      SpentSkip(s0, s1, r, Absent(s0, r), lo, k, 1);
    } else {
      SpentNext(s0, s1, s2, r, Absent(s0, r), lo, k, 1);
    }
  }

  /** What bars a page now barred it from the start. */
  lemma TouchedShut(s0: Vm, s: Vm, r: nat, sz: nat, lo: nat, k: nat, write: bool)
    requires Touched(s0, s, r, sz, lo, k, write)
    ensures Shut(s, r, sz, k, write) ==> Shut(s0, r, sz, k, write)
    ensures Shut(s, r, sz, k, false) ==> Shut(s0, r, sz, k, write)
    ensures k < NVPN && !LeafPte(s, r, k).v && |s.free| < 1 + Missing(s, r, k) ==> |s0.free| < Cost(s0, r, Absent(s0, r), lo, k + 1, 1)
  {
    hide LeafPte, Spent, Missing, Cost;
    if k < NVPN && !LeafPte(s, r, k).v && |s.free| < 1 + Missing(s, r, k) {
      assert LeafPte(s, r, k) == LeafPte(s0, r, k);
      SpentShort(s0, s, r, Absent(s0, r), lo, k, 1);
    }
  }

  /** Storing into a frame takes no page. */
  lemma TouchedStored(s0: Vm, s: Vm, s': Vm, r: nat, sz: nat, lo: nat, k: nat, write: bool)
    requires Touched(s0, s, r, sz, lo, k, write) && SameMaps(s, s') && s'.free == s.free && r in s.roots
    ensures Touched(s0, s', r, sz, lo, k, write)
  {
    hide LeafPte, NodeAt, Cost, Shut, Covered;
  }

  /** walkaddr, then vmfault if that finds nothing: the frame behind a user page, or 0. */
  method Reach(m: Memory, r: nat, sz: nat, vpn: nat) returns (pa: nat)
    requires m.Valid() && r in m.roots && Pages(sz) <= TRAPFRAME && KernelPrivate(m.S(), r)
    modifies m`page, m`free, m`role
    ensures m.Valid() && SameUser(old(m.S()), m.S()) && KernelPrivate(m.S(), r)
    ensures forall v, write :: Open(old(m.S()), r, v, write) ==> Open(m.S(), r, v, write)
    ensures pa == 0 <==> Shut(old(m.S()), r, sz, vpn, false)
                         || (!LeafPte(old(m.S()), r, vpn).v && |old(m.free)| < 1 + Missing(old(m.S()), r, vpn))
    ensures pa != 0 ==> Open(m.S(), r, vpn, false) && LeafPte(m.S(), r, vpn).pa == pa && Entered(old(m.S()), m.S(), r, vpn)
  {
    hide NodesOk, LeavesOk, FlagsOk, FreeOk, LeafPte, Grown, Within, SameUser, BytesOf, Pages, Missing, TablesAt;
    ghost var s0, role0 := m.S(), m.role;
    GrownRefl(s0, role0, r);
    GrownIsInvisible(s0, role0, s0, role0, r);
    if vpn < MAXVPN {
      var e := Lookup(m, r, vpn);
      if e.v && e.u {
        assert vpn < TRAPFRAME;
        UserFrame(s0, role0, r, vpn);
        return e.pa;
      }
    }
    assert vpn * PGSIZE / PGSIZE == vpn;
    pa := Vmfault(m, r, sz, vpn * PGSIZE);
    if pa == 0 {
      GrownOpen(s0, role0, m.S(), m.role, r);
      GrownSame(s0, role0, m.S(), m.role, r, vpn);
    } else {
      assert vpn < TRAPFRAME by { UserPage(vpn * PGSIZE, sz); }
      WithinLeaves(s0, role0, m.S(), m.role, r, vpn);
      WithinOpen(s0, role0, m.S(), m.role, r, vpn);
    }
  }

  lemma UserFrame(s: Vm, role: map<nat, Role>, r: nat, vpn: nat)
    requires Inv(s, role) && r in s.roots && vpn < TRAPFRAME && LeafPte(s, r, vpn).v
    ensures LeafPte(s, r, vpn).pa != 0 && LeafPte(s, r, vpn).pa in role && role[LeafPte(s, r, vpn).pa] == Leaf(r, vpn)
    ensures var p := LeafPte(s, r, vpn).pa; p in s.page && s.page[p].Data? && |s.page[p].bytes| == PGSIZE
  {
    hide LeafPte, NodesOk, FlagsOk;
  }

  lemma GrownSame(s0: Vm, role0: map<nat, Role>, s: Vm, role: map<nat, Role>, r: nat, vpn: nat)
    requires Grown(s0, role0, s, role, r) && r in s0.roots
    ensures vpn < NVPN ==> LeafPte(s, r, vpn) == LeafPte(s0, r, vpn)
  {
    hide LeafPte;
  }

  lemma GrownOpen(s0: Vm, role0: map<nat, Role>, s: Vm, role: map<nat, Role>, r: nat)
    requires Grown(s0, role0, s, role, r) && r in s0.roots
    ensures forall v, write :: Open(s0, r, v, write) ==> Open(s, r, v, write)
  {
    hide LeafPte;
  }

  lemma WithinOpen(s0: Vm, role0: map<nat, Role>, s: Vm, role: map<nat, Role>, r: nat, vpn: nat)
    requires Within(s0, role0, s, role, r, vpn, vpn + 1) && r in s0.roots && vpn < NVPN
    requires !LeafPte(s0, r, vpn).v
    ensures forall v, write :: Open(s0, r, v, write) ==> Open(s, r, v, write)
  {
    hide LeafPte;
  }

  // ------------------------------------------------------------- storing a chunk

  function Overlay(b: Bytes, off: nat, chunk: Bytes): (c: Bytes)
    requires off + |chunk| <= |b|
    ensures |c| == |b|
  {
    b[..off] + chunk + b[off + |chunk|..]
  }

  /** One user page got a chunk; nothing else is different in any address space. */
  ghost predicate PageStored(s0: Vm, s: Vm, r: nat, vpn: nat, off: nat, chunk: Bytes)
    requires vpn < TRAPFRAME && off + |chunk| <= PGSIZE
  {
    && s.roots == s0.roots
    && forall t, v :: t in s.roots && 0 <= v < TRAPFRAME ==>
         PageBytes(s, t, v) == if t == r && v == vpn then Overlay(PageBytes(s0, t, v), off, chunk) else PageBytes(s0, t, v)
  }

  /** Every frame backs one page of one address space, so writing one shows in one place. */
  lemma StoreShowsOnce(s: Vm, role: map<nat, Role>, r: nat, vpn: nat, off: nat, chunk: Bytes)
    requires Inv(s, role) && r in s.roots && vpn < TRAPFRAME && LeafPte(s, r, vpn).v && off + |chunk| <= PGSIZE
    ensures var p := LeafPte(s, r, vpn).pa;
            && p in s.page && s.page[p].Data? && |s.page[p].bytes| == PGSIZE
            && var s' := s.(page := s.page[p := Data(Overlay(s.page[p].bytes, off, chunk))]);
               Inv(s', role) && SameMaps(s, s') && PageStored(s, s', r, vpn, off, chunk)
  {
    hide LeafPte, NodesOk, FlagsOk, FreeOk, LeavesOk, NodeAt, Overlay;
    UserFrame(s, role, r, vpn);
    var p := LeafPte(s, r, vpn).pa;
    var bytes := Overlay(s.page[p].bytes, off, chunk);
    DataKeeps(s, role, p, bytes);
    var s' := s.(page := s.page[p := Data(bytes)]);
    forall t, v | t in s.roots && 0 <= v < TRAPFRAME
      ensures PageBytes(s', t, v) == if t == r && v == vpn then bytes else PageBytes(s, t, v)
    {
      if LeafPte(s, t, v).v {
        UserFrame(s, role, t, v);
      }
    }
  }

  /** The bytes `data` are in user memory at `dst`; every other byte is as before. */
  ghost predicate Stored(s0: Vm, s: Vm, r: nat, dst: nat, data: Bytes) {
    && s.roots == s0.roots
    && forall t, a :: t in s.roots && 0 <= a < USERTOP ==>
         Mem(s, t, a) == if t == r && dst <= a < dst + |data| then data[a - dst] else Mem(s0, t, a)
  }

  lemma StoredNone(s0: Vm, s: Vm, r: nat, dst: nat)
    requires SameUser(s0, s)
    ensures Stored(s0, s, r, dst, [])
  {
    hide PageBytes;
  }

  lemma StoredSame(s0: Vm, s1: Vm, s2: Vm, r: nat, dst: nat, data: Bytes)
    requires Stored(s0, s1, r, dst, data) && SameUser(s1, s2)
    ensures Stored(s0, s2, r, dst, data)
  {
    hide LeafPte, BytesOf;
    forall t, a | t in s2.roots && 0 <= a < USERTOP ensures Mem(s2, t, a) == Mem(s1, t, a) {
      assert a / PGSIZE < TRAPFRAME;
    }
  }

  lemma StoredMore(s0: Vm, s1: Vm, s2: Vm, r: nat, dst: nat, src: Bytes, d: nat, n: nat, vpn: nat, off: nat)
    requires d + n <= |src| && Stored(s0, s1, r, dst, src[..d])
    requires vpn < TRAPFRAME && off + n <= PGSIZE && vpn * PGSIZE + off == dst + d
    requires PageStored(s1, s2, r, vpn, off, src[d..d + n])
    ensures Stored(s0, s2, r, dst, src[..d + n])
  {
    hide LeafPte, BytesOf;
    forall t, a | t in s2.roots && 0 <= a < USERTOP
      ensures Mem(s2, t, a) == if t == r && dst + d <= a < dst + d + n then src[a - dst] else Mem(s1, t, a)
    {
      assert a == a / PGSIZE * PGSIZE + a % PGSIZE && a / PGSIZE < TRAPFRAME;
    }
  }

  /** Every page that the bytes `lo <= a < hi` lie in is mapped for the user. */
  ghost predicate AllOpen(s: Vm, r: nat, lo: nat, hi: nat, write: bool) {
    forall v :: lo / PGSIZE <= v && v * PGSIZE < hi && lo < hi ==> Open(s, r, v, write)
  }

  lemma AllOpenMore(s0: Vm, s: Vm, r: nat, lo: nat, mid: nat, hi: nat, write: bool)
    requires AllOpen(s0, r, lo, mid, write) && lo <= mid < hi && hi <= (mid / PGSIZE + 1) * PGSIZE && Open(s, r, mid / PGSIZE, write)
    requires forall v :: Open(s0, r, v, write) ==> Open(s, r, v, write)
    requires lo < mid ==> mid % PGSIZE == 0
    ensures AllOpen(s, r, lo, hi, write)
  {
    hide Open;
  }

  lemma SameMapsOpen(s0: Vm, s: Vm, r: nat)
    requires SameMaps(s0, s) && r in s0.roots
    ensures forall v, write :: Open(s0, r, v, write) ==> Open(s, r, v, write)
    ensures KernelPrivate(s0, r) ==> KernelPrivate(s, r)
  {
    hide LeafPte, NodeAt;
  }

  lemma Position(a: nat)
    ensures a == a / PGSIZE * PGSIZE + a % PGSIZE && (a / PGSIZE * PGSIZE + PGSIZE) % PGSIZE == 0
  {
  }

  /** The page behind the last of `len` bytes at `a`. */
  function PageEnd(a: nat, len: nat): nat {
    if len == 0 then a / PGSIZE else (a + len - 1) / PGSIZE + 1
  }

  /** Every page of the bytes can be had, and the pages to be backed are covered by the free ones. */
  ghost predicate CanReach(s: Vm, r: nat, sz: nat, a: nat, len: nat, write: bool) {
    len > 0 ==>
      && (forall v :: a / PGSIZE <= v < PageEnd(a, len) ==> !Shut(s, r, sz, v, write))
      && PageEnd(a, len) <= NVPN && |s.free| >= Cost(s, r, Absent(s, r), a / PGSIZE, PageEnd(a, len), 1)
  }

  /** The page after `done` bytes cannot be had: it is shut, or the free pages do not cover it and those before. */
  ghost predicate StopsAt(s: Vm, r: nat, sz: nat, a: nat, done: nat, write: bool) {
    var v := (a + done) / PGSIZE;
    && (done == 0 || (a + done) % PGSIZE == 0)
    && (Shut(s, r, sz, v, write) || (v < NVPN && |s.free| < Cost(s, r, Absent(s, r), a / PGSIZE, v + 1, 1)))
  }

  /** A stop inside the range and reaching its end exclude each other. */
  lemma StopsOrReaches(s: Vm, r: nat, sz: nat, a: nat, len: nat, done: nat, write: bool)
    requires done < len && StopsAt(s, r, sz, a, done, write)
    ensures !CanReach(s, r, sz, a, len, write)
  {
    hide LeafPte, Cost, Absent, Shut;
    var v := (a + done) / PGSIZE;
    DivMono(a, a + done);
    DivMono(a + done, a + len - 1);
    if v < NVPN && PageEnd(a, len) <= NVPN { CostMono(s, r, Absent(s, r), a / PGSIZE, v + 1, PageEnd(a, len), 1); }
  }

  lemma DivMono(x: nat, y: nat)
    requires x <= y
    ensures x / PGSIZE <= y / PGSIZE
  {
  }

  lemma TouchedReaches(s0: Vm, s: Vm, r: nat, sz: nat, a: nat, len: nat, write: bool)
    requires len > 0 ==> Touched(s0, s, r, sz, a / PGSIZE, PageEnd(a, len), write)
    ensures CanReach(s0, r, sz, a, len, write)
  {
    hide LeafPte, Cost, Absent, Shut;
  }

  /** The chunk inside one page that starts at `d` ends in that page, or at its end where the next one starts. */
  lemma ChunkEnds(a: nat, i: nat, n: nat)
    requires 0 < n <= PGSIZE - (a + i) % PGSIZE
    ensures PageEnd(a, i + n) == (a + i) / PGSIZE + 1
    ensures n == PGSIZE - (a + i) % PGSIZE ==> (a + i + n) / PGSIZE == (a + i) / PGSIZE + 1 && (a + i + n) % PGSIZE == 0
  {
    var x := a + i;
    assert x == x / PGSIZE * PGSIZE + x % PGSIZE;
    assert x + n - 1 == x / PGSIZE * PGSIZE + (x % PGSIZE + n - 1);
    if n == PGSIZE - x % PGSIZE { assert x + n == (x / PGSIZE + 1) * PGSIZE; }
  }

  /**
    copyout: the first `done` bytes of `src` are in user memory at `dstva`, all of them exactly
    when it reports success, and no other byte of any address space changed. It succeeds if and
    only if, as the call found them, no page of the range is out of range, closed to user writes
    or beyond `sz`, and the free pages cover those to be backed; it stops at the first page where
    that fails.
   */
  method Copyout(m: Memory, r: nat, sz: nat, dstva: nat, src: Bytes) returns (ok: bool, ghost done: nat)
    requires m.Valid() && r in m.roots && Pages(sz) <= TRAPFRAME && KernelPrivate(m.S(), r)
    modifies m`page, m`free, m`role
    ensures m.Valid() && KernelPrivate(m.S(), r) && m.roots == old(m.roots)
    ensures done <= |src| && (ok <==> done == |src|)
    ensures Stored(old(m.S()), m.S(), r, dstva, src[..done])
    ensures AllOpen(m.S(), r, dstva, dstva + done, true)
    ensures ok <==> CanReach(old(m.S()), r, sz, dstva, |src|, true)
    ensures !ok ==> StopsAt(old(m.S()), r, sz, dstva, done, true)
  {
    hide Inv, SameUser, KernelPrivate, Stored, PageStored, Open, AllOpen, LeafPte, Pages, Overlay, SameMaps, Shut, Absent, Missing, TablesAt,
         Cost, Touched, Entered, CanReach, PageEnd;
    ghost var s0, lo := m.S(), dstva / PGSIZE;
    assert SameUser(s0, s0) by { SameUserRefl(s0); }
    StoredNone(s0, s0, r, dstva);
    TouchedNone(s0, r, sz, lo, true);
    var i := 0;
    assert src[..0] == [];
    AllOpenNone(s0, r, dstva, true);
    var dst := dstva;
    while i < |src|
      invariant i <= |src| && (i < |src| ==> dst == dstva + i) && m.Valid() && m.roots == s0.roots && KernelPrivate(m.S(), r)
      invariant 0 < i < |src| ==> dst % PGSIZE == 0
      invariant Stored(s0, m.S(), r, dstva, src[..i]) && AllOpen(m.S(), r, dstva, dstva + i, true)
      invariant i < |src| && dst / PGSIZE <= NVPN ==> Touched(s0, m.S(), r, sz, lo, dst / PGSIZE, true)
      invariant 0 < i ==> Touched(s0, m.S(), r, sz, lo, PageEnd(dstva, i), true)
      decreases |src| - i
    {
      ghost var s1 := m.S();
      var vpn := dst / PGSIZE;
      Position(dst);
      if vpn * PGSIZE >= MAXVA {
        FarIsShut(s0, r, sz, vpn, true);
        StopsOrReaches(s0, r, sz, dstva, |src|, i, true);
        return false, i;
      }
      TouchedShut(s0, s1, r, sz, lo, vpn, true);
      var pa := Reach(m, r, sz, vpn);
      ghost var s2, role2 := m.S(), m.role;
      StoredSame(s0, s1, s2, r, dstva, src[..i]);
      SameUserRoots(s1, s2);
      AllOpenStays(s1, s2, r, dstva, dst, true);
      if pa == 0 {
        StopsOrReaches(s0, r, sz, dstva, |src|, i, true);
        return false, i;
      }
      assert vpn < TRAPFRAME && LeafPte(s2, r, vpn).v && LeafPte(s2, r, vpn).u by { OpenIs(s2, r, vpn, false); }
      var e := Lookup(m, r, vpn);
      if !e.w {
        NotWritable(s1, s2, r, sz, vpn);
        StopsOrReaches(s0, r, sz, dstva, |src|, i, true);
        return false, i;
      }
      TouchedNext(s0, s1, s2, r, sz, lo, vpn, true);
      OpenIs(s2, r, vpn, true);
      var off := dst % PGSIZE;
      var n := PGSIZE - off;
      if n > |src| - i {
        n := |src| - i;
      }
      ChunkEnds(dstva, i, n);
      StoreShowsOnce(s2, role2, r, vpn, off, src[i..i + n]);
      m.page := m.page[pa := Data(Overlay(m.page[pa].bytes, off, src[i..i + n]))];
      SameMapsOpen(s2, m.S(), r);
      TouchedStored(s0, s2, m.S(), r, sz, lo, vpn + 1, true);
      StoredMore(s0, s2, m.S(), r, dstva, src, i, n, vpn, off);
      AllOpenMore(s2, m.S(), r, dstva, dst, dst + n, true);
      i := i + n;
      dst := vpn * PGSIZE + PGSIZE;
    }
    TouchedReaches(s0, m.S(), r, sz, dstva, |src|, true);
    return true, i;
  }

  lemma FarIsShut(s: Vm, r: nat, sz: nat, vpn: nat, write: bool)
    requires vpn * PGSIZE >= MAXVA
    ensures Shut(s, r, sz, vpn, write)
  {
  }

  /** A page without the write flag was there before, so it is not one that was just backed. */
  lemma NotWritable(s: Vm, s': Vm, r: nat, sz: nat, vpn: nat)
    requires vpn < MAXVPN && Entered(s, s', r, vpn) && !LeafPte(s', r, vpn).w
    ensures Shut(s, r, sz, vpn, true)
  {
    hide LeafPte;
  }

  lemma OpenIs(s: Vm, r: nat, vpn: nat, write: bool)
    ensures Open(s, r, vpn, write) <==>
              vpn < TRAPFRAME && LeafPte(s, r, vpn).v && LeafPte(s, r, vpn).u && (write ==> LeafPte(s, r, vpn).w)
  {
  }

  lemma SameUserRefl(s: Vm)
    ensures SameUser(s, s)
  {
  }

  lemma SameUserRoots(s: Vm, s': Vm)
    requires SameUser(s, s')
    ensures s'.roots == s.roots
  {
  }

  lemma AllOpenNone(s: Vm, r: nat, lo: nat, write: bool)
    ensures AllOpen(s, r, lo, lo, write)
  {
  }

  lemma AllOpenStays(s0: Vm, s: Vm, r: nat, lo: nat, hi: nat, write: bool)
    requires AllOpen(s0, r, lo, hi, write) && forall v, wr :: Open(s0, r, v, wr) ==> Open(s, r, v, wr)
    ensures AllOpen(s, r, lo, hi, write)
  {
    hide Open;
  }

  // -------------------------------------------------------------------- reading

  /** `data` is what user memory holds from `src` on. */
  ghost predicate Reads(s: Vm, r: nat, src: nat, data: Bytes) {
    (data != [] ==> src + |data| <= USERTOP) && forall j :: 0 <= j < |data| ==> data[j] == Mem(s, r, src + j)
  }

  lemma ReadsMore(s0: Vm, s: Vm, r: nat, src: nat, data: Bytes, vpn: nat, off: nat, n: nat)
    requires SameUser(s0, s) && r in s.roots && Reads(s0, r, src, data)
    requires vpn < TRAPFRAME && off + n <= PGSIZE && vpn * PGSIZE + off == src + |data|
    ensures Reads(s0, r, src, data + PageBytes(s, r, vpn)[off..off + n])
  {
    hide LeafPte, BytesOf;
    var more := data + PageBytes(s, r, vpn)[off..off + n];
    forall j | 0 <= j < |more| ensures src + j < USERTOP && more[j] == Mem(s0, r, src + j) {
      if j >= |data| {
        assert (src + j) / PGSIZE == vpn;
      }
    }
  }

  /**
    copyin: returns exactly the bytes that user memory holds, in all address spaces unchanged by
    the call. It succeeds if and only if, as the call found them, no page of the range is out of
    range, closed to the user or beyond `sz`, and the free pages cover those to be backed; it
    stops at the first page where that fails.
   */
  method Copyin(m: Memory, r: nat, sz: nat, srcva: nat, len: nat) returns (ok: bool, data: Bytes)
    requires m.Valid() && r in m.roots && Pages(sz) <= TRAPFRAME && KernelPrivate(m.S(), r)
    modifies m`page, m`free, m`role
    ensures m.Valid() && KernelPrivate(m.S(), r) && SameUser(old(m.S()), m.S())
    ensures |data| <= len && (ok <==> |data| == len)
    ensures Reads(old(m.S()), r, srcva, data)
    ensures AllOpen(old(m.S()), r, srcva, srcva + len, false) ==> ok
    ensures ok <==> CanReach(old(m.S()), r, sz, srcva, len, false)
    ensures !ok ==> StopsAt(old(m.S()), r, sz, srcva, |data|, false)
  {
    hide Inv, SameUser, KernelPrivate, Reads, Open, LeafPte, Pages, BytesOf, Shut, Absent, Missing, TablesAt, Cost, Touched, Entered, CanReach, PageEnd;
    ghost var s0, lo := m.S(), srcva / PGSIZE;
    SameUserRefl(s0);
    TouchedNone(s0, r, sz, lo, false);
    data := [];
    assert Reads(s0, r, srcva, data) by { ReadsNone(s0, r, srcva); }
    var src := srcva;
    while |data| < len
      invariant |data| <= len && (|data| < len ==> src == srcva + |data|) && m.Valid() && r in m.roots && KernelPrivate(m.S(), r)
      invariant 0 < |data| < len ==> src % PGSIZE == 0
      invariant SameUser(s0, m.S()) && Reads(s0, r, srcva, data)
      invariant forall v, wr :: Open(s0, r, v, wr) ==> Open(m.S(), r, v, wr)
      invariant |data| < len && src / PGSIZE <= NVPN ==> Touched(s0, m.S(), r, sz, lo, src / PGSIZE, false)
      invariant 0 < |data| ==> Touched(s0, m.S(), r, sz, lo, PageEnd(srcva, |data|), false)
      decreases len - |data|
    {
      ghost var s1 := m.S();
      var vpn := src / PGSIZE;
      Position(src);
      if vpn >= MAXVPN { FarIsShut(s0, r, sz, vpn, false); FarIsShut(s1, r, sz, vpn, false); }
      if vpn <= NVPN { TouchedShut(s0, s1, r, sz, lo, vpn, false); }
      OpenNotShut(s1, r, sz, vpn);
      var pa := Reach(m, r, sz, vpn);
      SameUserTrans(s0, s1, m.S());
      SameUserRoots(s1, m.S());
      if pa == 0 {
        StopsOrReaches(s0, r, sz, srcva, len, |data|, false);
        assert !Open(s0, r, vpn, false);
        return false, data;
      }
      TouchedNext(s0, s1, m.S(), r, sz, lo, vpn, false);
      OpenIs(m.S(), r, vpn, false);
      UserFrame(m.S(), m.role, r, vpn);
      PageIs(m.S(), r, vpn);
      var off := src % PGSIZE;
      var n := PGSIZE - off;
      if n > len - |data| {
        n := len - |data|;
      }
      ChunkEnds(srcva, |data|, n);
      ReadsMore(s0, m.S(), r, srcva, data, vpn, off, n);
      data := data + m.page[pa].bytes[off..off + n];
      src := vpn * PGSIZE + PGSIZE;
    }
    TouchedReaches(s0, m.S(), r, sz, srcva, len, false);
    return true, data;
  }

  lemma OpenNotShut(s: Vm, r: nat, sz: nat, vpn: nat)
    ensures Open(s, r, vpn, false) ==> !Shut(s, r, sz, vpn, false) && LeafPte(s, r, vpn).v
  {
  }

  lemma PageIs(s: Vm, r: nat, vpn: nat)
    requires vpn < NVPN && LeafPte(s, r, vpn).v && LeafPte(s, r, vpn).pa in s.page
    requires s.page[LeafPte(s, r, vpn).pa].Data? && |s.page[LeafPte(s, r, vpn).pa].bytes| == PGSIZE
    ensures PageBytes(s, r, vpn) == s.page[LeafPte(s, r, vpn).pa].bytes
  {
    hide LeafPte;
  }

  lemma ReadsNone(s: Vm, r: nat, src: nat)
    ensures Reads(s, r, src, [])
  {
  }

  lemma SameUserTrans(s0: Vm, s1: Vm, s2: Vm)
    requires SameUser(s0, s1) && SameUser(s1, s2)
    ensures SameUser(s0, s2)
  {
    hide PageBytes;
  }

  // ------------------------------------------------------------------- theorems

  /** What copyout stored is the only thing a read of that range can return. */
  lemma StoredThenRead(s0: Vm, s: Vm, r: nat, dst: nat, data: Bytes, got: Bytes)
    requires r in s.roots && Stored(s0, s, r, dst, data) && Reads(s, r, dst, got) && |got| == |data|
    ensures got == data
  {
    hide PageBytes;
    forall j | 0 <= j < |data| ensures got[j] == data[j] {
      assert got[j] == Mem(s, r, dst + j);
    }
  }

  lemma WriteOpenIsReadOpen(s: Vm, r: nat, lo: nat, hi: nat)
    requires AllOpen(s, r, lo, hi, true)
    ensures AllOpen(s, r, lo, hi, false)
  {
    hide LeafPte;
    forall v: nat | lo / PGSIZE <= v && v * PGSIZE < hi && lo < hi ensures Open(s, r, v, false) {
      assert Open(s, r, v, true);
    }
  }

  /** copyin after a successful copyout of the same range succeeds and returns the same bytes. */
  method OutThenIn(m: Memory, r: nat, sz: nat, va: nat, src: Bytes) returns (stored: bool, ok: bool, data: Bytes)
    requires m.Valid() && r in m.roots && Pages(sz) <= TRAPFRAME && KernelPrivate(m.S(), r)
    modifies m`page, m`free, m`role
    ensures stored ==> ok && data == src
  {
    hide Inv, SameUser, KernelPrivate, Reads, Open, AllOpen, LeafPte, Pages, BytesOf, Stored, CanReach, StopsAt;
    ghost var s0 := m.S();
    ghost var done;
    stored, done := Copyout(m, r, sz, va, src);
    ghost var s1 := m.S();
    ok, data := Copyin(m, r, sz, va, |src|);
    if stored {
      assert src[..done] == src;
      WriteOpenIsReadOpen(s1, r, va, va + |src|);
      StoredThenRead(s0, s1, r, va, src, data);
    }
  }

  /** fork: right after uvmcopy, parent and child hold the same byte at every address below PGROUNDUP(sz). */
  lemma ForkSameMemory(s0: Vm, role0: map<nat, Role>, s: Vm, role: map<nat, Role>, parent: nat, child: nat, n: nat, a: nat)
    requires Inv(s0, role0) && parent in s0.roots && parent != child && n <= TRAPFRAME
    requires Within(s0, role0, s, role, child, 0, n) && Copied(s0, role0, s, parent, child, n) && a < n * PGSIZE
    ensures Mem(s, child, a) == Mem(s, parent, a) == Mem(s0, parent, a)
  {
    hide LeafPte, NodesOk, FlagsOk, FreeOk, LeavesOk, RoleMove;
    var v := a / PGSIZE;
    assert CopyAt(s0, role0, s, parent, child, v);
    if LeafPte(s0, parent, v).v {
      UserFrame(s0, role0, parent, v);
    }
  }

  /** After fork no frame is shared: what one side maps, the other does not. */
  lemma ForkFramesDisjoint(s: Vm, role: map<nat, Role>, parent: nat, child: nat, u: nat, v: nat)
    requires Inv(s, role) && parent in s.roots && child in s.roots && parent != child && u < TRAPFRAME && v < TRAPFRAME
    requires LeafPte(s, parent, u).v && LeafPte(s, child, v).v
    ensures LeafPte(s, parent, u).pa != LeafPte(s, child, v).pa
  {
    hide LeafPte, NodesOk, FlagsOk, FreeOk, LeavesOk;
    UserLeaf(s, role, parent, u);
    UserLeaf(s, role, child, v);
  }
}
