/**
  User address spaces on top of the page tables: growing and shrinking, fork's copy, lazy
  allocation, copying bytes in and out, and tearing an address space down.
 */
module UserVm {
  import opened VmSpec
  import opened FrameCost
  import opened PageTable

  /** Number of pages PGROUNDUP(x) / PGSIZE. */
  function Pages(x: nat): nat {
    (x + PGSIZE - 1) / PGSIZE
  }

  /**
    An operation confined to user pages `lo <= vpn < hi` of the tree `r`: elsewhere every
    mapping, every frame and every held page stays; the pages it uses come from the free list
    and go to the tree or back.
   */
  ghost predicate Within(s0: Vm, role0: map<nat, Role>, s: Vm, role: map<nat, Role>, r: nat, lo: nat, hi: nat) {
    && s.roots == s0.roots && role.Keys == role0.Keys
    && (forall t, v :: t in s.roots && 0 <= v < NVPN && !(t == r && lo <= v < hi) ==> LeafPte(s, t, v) == LeafPte(s0, t, v))
    && (forall x :: x in role0 ==> RoleMove(role0[x], role[x], r, lo, hi))
    && (forall x :: x in role0 && (role0[x].Leaf? || role0[x].Held?) && !InSpan(role0[x], r, lo, hi) ==>
          x in s0.page && x in s.page && s.page[x] == s0.page[x])
  }

  predicate InSpan(role: Role, r: nat, lo: nat, hi: nat) {
    role.Leaf? && role.root == r && lo <= role.vpn < hi
  }

  predicate RoleMove(from: Role, to: Role, r: nat, lo: nat, hi: nat) {
    || to == from
    || ((from.Free? || InSpan(from, r, lo, hi)) && (to.Free? || InSpan(to, r, lo, hi) || (to.Node? && to.root == r)))
  }

  lemma WithinTrans(s0: Vm, role0: map<nat, Role>, s1: Vm, role1: map<nat, Role>, s2: Vm, role2: map<nat, Role>, r: nat, lo: nat, mid: nat, hi: nat)
    requires Within(s0, role0, s1, role1, r, lo, mid) && Within(s1, role1, s2, role2, r, mid, hi) && lo <= mid <= hi
    ensures Within(s0, role0, s2, role2, r, lo, hi)
  {
    hide LeafPte, RoleMove;
    forall x | x in role0 ensures RoleMove(role0[x], role2[x], r, lo, hi)
      ensures (role0[x].Leaf? || role0[x].Held?) && !InSpan(role0[x], r, lo, hi) ==> role1[x] == role0[x]
    {
      RoleMoveTrans(role0[x], role1[x], role2[x], r, lo, mid, hi);
    }
  }

  lemma RoleMoveTrans(a: Role, b: Role, c: Role, r: nat, lo: nat, mid: nat, hi: nat)
    requires RoleMove(a, b, r, lo, mid) && RoleMove(b, c, r, mid, hi) && lo <= mid <= hi
    ensures RoleMove(a, c, r, lo, hi)
    ensures (a.Leaf? || a.Held?) && !InSpan(a, r, lo, hi) ==> b == a
  {
  }

  lemma GrownIsWithin(s0: Vm, role0: map<nat, Role>, s: Vm, role: map<nat, Role>, r: nat, lo: nat, hi: nat)
    requires Grown(s0, role0, s, role, r)
    ensures Within(s0, role0, s, role, r, lo, hi)
  {
    hide LeafPte;
  }

  /**
    A fresh frame holding `bytes` mapped at one user page: kalloc, fill, mappages, and kfree
    again if mappages fails. This is the common body of uvmalloc, uvmcopy and vmfault.
   */
  method MapFresh(m: Memory, r: nat, vpn: nat, bytes: Bytes, perm: Pte) returns (ok: bool, p: nat)
    requires m.Valid() && r in m.roots && vpn < TRAPFRAME && !LeafPte(m.S(), r, vpn).v
    requires |bytes| == PGSIZE && IsLeafFlags(perm)
    modifies m`page, m`free, m`role
    ensures m.Valid()
    ensures ok ==>
              && Within(old(m.S()), old(m.role), m.S(), m.role, r, vpn, vpn + 1)
              && LeafPte(m.S(), r, vpn) == Pte(p, true, perm.r, perm.w, perm.x, perm.u, perm.rest)
              && p in old(m.role) && old(m.role)[p].Free? && p in m.page && m.page[p] == Data(bytes)
    ensures !ok ==> Grown(old(m.S()), old(m.role), m.S(), m.role, r) && |m.free| <= 1
    ensures ok <==> |old(m.free)| >= 1 + Missing(old(m.S()), r, vpn)
    ensures ok ==> TablesAt(old(m.S()), m.S(), r, vpn) && |m.free| == |old(m.free)| - 1 - Missing(old(m.S()), r, vpn)
  {
    hide NodesOk, LeavesOk, FlagsOk, FreeOk, LeafPte, SameMaps, MappedRange, Within, Grown, Spent, Cost, Missing, TablesAt, Every;
    ghost var s0, role0 := m.S(), m.role;
    p := m.Kalloc();
    if p == 0 {
      GrownRefl(s0, role0, r);
      return false, 0;
    }
    ghost var s1, role1 := m.S(), m.role;
    DataKeeps(s1, role1, p, bytes);
    m.page := m.page[p := Data(bytes)];
    ghost var s2 := m.S();
    OnePage(vpn);
    HeldCanMap(s2, role1, vpn, p);
    SameMapsLeaf(s0, s1, s2, r, vpn);
    SameTablesMissing(s0, s1, r, vpn);
    SameTablesMissing(s1, s2, r, vpn);
    CostOne(s2, r, vpn, 0);
    var res, done := m.Mappages(r, vpn * PGSIZE, PGSIZE, p, perm);
    ghost var s3, role3 := m.S(), m.role;
    if res.Mapped? {
      SpentOne(s2, s3, r, vpn);
      FreshMapped(s0, role0, s1, s2, role1, s3, role3, r, vpn, p, perm, bytes);
      return true, p;
    }
    FreshFailed(s0, role0, s1, s2, role1, s3, role3, r, vpn, p, perm);
    var panicked := m.Kfree(p);
    FreshReturned(s0, role0, s2, s3, role3, m.S(), m.role, r, vpn, p, perm);
    return false, p;
  }

  lemma SpentOne(s0: Vm, s: Vm, r: nat, vpn: nat)
    requires vpn < NVPN && Spent(s0, s, r, Every(), vpn, vpn + 1, 0)
    ensures TablesAt(s0, s, r, vpn) && |s.free| == |s0.free| - Missing(s0, r, vpn)
  {
    hide NodeAt, Missing, Cost;
    CostOne(s0, r, vpn, 0);
    forall level, prefix | InTree(level, prefix) ensures Covered(Every(), vpn, vpn + 1, level, prefix) <==> prefix == Prefix(level, vpn) {
      CoveredNext(Every(), vpn, vpn, level, prefix);
    }
  }

  lemma OnePage(vpn: nat)
    requires vpn < TRAPFRAME
    ensures vpn * PGSIZE / PGSIZE == vpn && vpn * PGSIZE % PGSIZE == 0 && PGSIZE / PGSIZE == 1 && PGSIZE % PGSIZE == 0
    ensures vpn * PGSIZE + 0 * PGSIZE < MAXVA
  {
  }

  lemma HeldCanMap(s: Vm, role: map<nat, Role>, vpn: nat, p: nat)
    requires p in role && role[p].Held? && p in s.page && s.page[p].Data? && |s.page[p].bytes| == PGSIZE
    ensures CanMap(s, role, vpn, 1, p)
  {
  }

  lemma SameMapsLeaf(s0: Vm, s1: Vm, s2: Vm, r: nat, vpn: nat)
    requires SameMaps(s0, s1) && SameMaps(s1, s2) && r in s0.roots && vpn < NVPN
    ensures LeafPte(s2, r, vpn) == LeafPte(s0, r, vpn)
  {
    hide LeafPte, NodeAt;
  }

  lemma FreshMapped(s0: Vm, role0: map<nat, Role>, s1: Vm, s2: Vm, role1: map<nat, Role>, s3: Vm, role3: map<nat, Role>,
                    r: nat, vpn: nat, p: nat, perm: Pte, bytes: Bytes)
    requires Inv(s0, role0) && p in role0 && role0[p].Free? && role1 == role0[p := Held] && r in s0.roots && vpn < TRAPFRAME
    requires SameMaps(s0, s1) && SameMaps(s1, s2) && s2.page == s0.page[p := Data(Junk(5))][p := Data(bytes)]
    requires MappedRange(s2, role1, s3, role3, r, vpn, 1, p, perm) && Inv(s3, role3)
    ensures Within(s0, role0, s3, role3, r, vpn, vpn + 1)
    ensures LeafPte(s3, r, vpn) == perm.(pa := p, v := true) && p in s3.page && s3.page[p] == Data(bytes)
  {
    hide LeafPte, NodeAt, NodesOk, LeavesOk, FlagsOk;
    assert Frame(p, 0) == p;
    UserLeaf(s3, role3, r, vpn);
    LeafOwner(s3, role3, r, vpn);
  }

  /** A failed mappages of one page mapped nothing: the page is still held. */
  lemma FreshFailed(s0: Vm, role0: map<nat, Role>, s1: Vm, s2: Vm, role1: map<nat, Role>, s3: Vm, role3: map<nat, Role>,
                    r: nat, vpn: nat, p: nat, perm: Pte)
    requires Inv(s0, role0) && p in role0 && role0[p].Free? && role1 == role0[p := Held]
    requires SameMaps(s0, s1) && SameMaps(s1, s2) && s1.page == s0.page[p := Data(Junk(5))]
    requires forall x :: x in s1.page && x != p ==> x in s2.page && s2.page[x] == s1.page[x]
    requires MappedRange(s2, role1, s3, role3, r, vpn, 0, p, perm)
    ensures p in role3 && role3[p].Held?
    ensures forall t, v :: t in s0.roots && 0 <= v < NVPN ==> LeafPte(s3, t, v) == LeafPte(s0, t, v)
  {
    hide LeafPte, NodeAt, NodesOk, LeavesOk, FlagsOk;
  }

  lemma FreshReturned(s0: Vm, role0: map<nat, Role>, s2: Vm, s3: Vm, role3: map<nat, Role>, s4: Vm, role4: map<nat, Role>,
                      r: nat, vpn: nat, p: nat, perm: Pte)
    requires Inv(s0, role0) && p in role0 && role0[p].Free? && s2.roots == s0.roots
    requires forall x :: x in s0.page && x != p ==> x in s2.page && s2.page[x] == s0.page[x]
    requires MappedRange(s2, role0[p := Held], s3, role3, r, vpn, 0, p, perm)
    requires forall t, v :: t in s0.roots && 0 <= v < NVPN ==> LeafPte(s3, t, v) == LeafPte(s0, t, v)
    requires SameMaps(s3, s4) && role4 == role3[p := Free] && s4.page == s3.page[p := Data(Junk(1))]
    ensures Grown(s0, role0, s4, role4, r)
  {
    hide LeafPte, NodeAt, NodesOk, LeavesOk, FlagsOk;
  }

  // ------------------------------------------------------- growing and shrinking

  /** No user page of `r` is mapped in `lo <= vpn < hi`. */
  ghost predicate Empty(s: Vm, r: nat, lo: nat, hi: nat)
    requires hi <= NVPN
  {
    forall v :: lo <= v < hi ==> !LeafPte(s, r, v).v
  }

  /** Every page of the range is a frame that was free before, full of zeroes, with the same flags. */
  ghost predicate Zeroed(role0: map<nat, Role>, s: Vm, r: nat, lo: nat, hi: nat, perm: Pte)
    requires hi <= NVPN
  {
    forall v :: lo <= v < hi ==> FreshAt(role0, s, LeafPte(s, r, v), perm, ZeroBytes())
  }

  ghost predicate FreshAt(role0: map<nat, Role>, s: Vm, e: Pte, perm: Pte, bytes: Bytes) {
    e == perm.(pa := e.pa, v := true) && e.pa in role0 && role0[e.pa].Free? && e.pa in s.page && s.page[e.pa] == Data(bytes)
  }

  /** An entry that is not valid is zero. */
  lemma InvalidIsNone(s: Vm, role: map<nat, Role>, r: nat, vpn: nat)
    requires NodesOk(s, role) && FlagsOk(s, role) && r in s.roots && vpn < NVPN && !LeafPte(s, r, vpn).v
    ensures LeafPte(s, r, vpn) == NONE
  {
    var q := Low(s, r, vpn / NPTE);
    if q != 0 {
      assert InTree(0, vpn / NPTE) && NodeAt(s, r, 0, vpn / NPTE) == q;
      assert EntryOk(Entry(s, q, vpn % NPTE), 0);
    }
  }

  /** Taking back everything that was mapped in an empty range leaves only the added tables. */
  lemma UndoneIsGrown(s0: Vm, role0: map<nat, Role>, s1: Vm, role1: map<nat, Role>, s2: Vm, role2: map<nat, Role>, r: nat, lo: nat, hi: nat)
    requires Inv(s0, role0) && Inv(s1, role1) && r in s0.roots && lo <= hi <= TRAPFRAME && Empty(s0, r, lo, hi)
    requires Within(s0, role0, s1, role1, r, lo, hi) && Unmapped(s1, role1, s2, role2, r, lo, hi - lo, true)
    ensures Grown(s0, role0, s2, role2, r)
  {
    hide LeafPte, NodesOk, FlagsOk, FreeOk, LeavesOk;
    forall v | lo <= v < hi ensures LeafPte(s2, r, v) == LeafPte(s0, r, v) == NONE {
      InvalidIsNone(s0, role0, r, v);
      if !LeafPte(s1, r, v).v { InvalidIsNone(s1, role1, r, v); }
    }
    forall x | x in role0 ensures !InSpan(role0[x], r, lo, hi) {
      if InSpan(role0[x], r, lo, hi) { LeafOwner(s0, role0, r, role0[x].vpn); }
    }
  }

  /**
    uvmdealloc: the pages from PGROUNDUP(newsz) up to PGROUNDUP(oldsz) are gone and their frames
    are free again; everything else stays.
   */
  method Uvmdealloc(m: Memory, r: nat, oldsz: nat, newsz: nat) returns (sz: nat)
    requires m.Valid() && r in m.roots && Pages(oldsz) <= TRAPFRAME
    modifies m`page, m`free, m`role
    ensures m.Valid() && m.roots == old(m.roots) && sz == if newsz < oldsz then newsz else oldsz
    ensures Unmapped(old(m.S()), old(m.role), m.S(), m.role, r, Pages(sz), Pages(oldsz) - Pages(sz), true)
  {
    hide Inv, LeafPte, Unmapped, Pages;
    PagesMono(newsz, oldsz);
    UnmappedNone(m.S(), m.role, r, Pages(oldsz), true);
    if newsz >= oldsz {
      return oldsz;
    }
    if Pages(newsz) < Pages(oldsz) {
      var npages := Pages(oldsz) - Pages(newsz);
      OnePage(Pages(newsz));
      var panicked := m.Uvmunmap(r, Pages(newsz) * PGSIZE, npages, true);
      assert !panicked;
    }
    return newsz;
  }

  lemma PagesMono(x: nat, y: nat)
    ensures x <= y ==> Pages(x) <= Pages(y)
  {
  }

  lemma PagesAt(n: nat, x: nat)
    ensures n * PGSIZE < x <==> n < Pages(x)
    ensures Pages(n * PGSIZE) == n
  {
  }

  lemma ZeroedStep(role0: map<nat, Role>, s1: Vm, role1: map<nat, Role>, s2: Vm, role2: map<nat, Role>, r: nat, lo: nat, k: nat, perm: Pte, p: nat)
    requires Inv(s1, role1) && r in s1.roots && lo <= k < TRAPFRAME && Zeroed(role0, s1, r, lo, k, perm)
    requires Within(s1, role1, s2, role2, r, k, k + 1) && LeafPte(s2, r, k) == perm.(pa := p, v := true)
    requires p in role0 && role0[p].Free? && p in s2.page && s2.page[p] == Data(ZeroBytes())
    ensures Zeroed(role0, s2, r, lo, k + 1, perm)
  {
    hide LeafPte, NodesOk, FlagsOk, FreeOk, LeavesOk, RoleMove;
    forall v | lo <= v < k + 1 ensures FreshAt(role0, s2, LeafPte(s2, r, v), perm, ZeroBytes()) {
      if v < k {
        UserLeaf(s1, role1, r, v);
      }
    }
  }

  /** A page that is free now and was not before can only be one of the range. */
  lemma FreeBefore(s0: Vm, role0: map<nat, Role>, s1: Vm, role1: map<nat, Role>, r: nat, lo: nat, hi: nat, p: nat)
    requires Inv(s0, role0) && r in s0.roots && lo <= hi <= TRAPFRAME && Empty(s0, r, lo, hi) && Within(s0, role0, s1, role1, r, lo, hi)
    requires p in role1 && role1[p].Free?
    ensures p in role0 && role0[p].Free?
  {
    hide LeafPte, NodesOk, FlagsOk, FreeOk, LeavesOk;
    if InSpan(role0[p], r, lo, hi) { LeafOwner(s0, role0, r, role0[p].vpn); }
  }

  lemma WithinRefl(s: Vm, role: map<nat, Role>, r: nat, lo: nat, hi: nat)
    requires Inv(s, role)
    ensures Within(s, role, s, role, r, lo, hi)
  {
  }

  /**
    uvmalloc: on success exactly the pages from PGROUNDUP(oldsz) to PGROUNDUP(newsz) are new,
    each backed by its own formerly free zeroed frame; on failure no mapping and no frame
    changed, only tables were added.
   */
  method Uvmalloc(m: Memory, r: nat, oldsz: nat, newsz: nat, xperm: Pte) returns (sz: nat)
    requires m.Valid() && r in m.roots && Pages(newsz) <= TRAPFRAME
    requires Pages(oldsz) <= Pages(newsz) ==> Empty(m.S(), r, Pages(oldsz), Pages(newsz))
    modifies m`page, m`free, m`role
    ensures m.Valid() && m.roots == old(m.roots)
    ensures newsz < oldsz ==> sz == oldsz && m.S() == old(m.S()) && m.role == old(m.role)
    ensures newsz >= oldsz ==> sz == newsz || sz == 0
    ensures newsz >= oldsz && sz == newsz ==>
              && Within(old(m.S()), old(m.role), m.S(), m.role, r, Pages(oldsz), Pages(newsz))
              && Zeroed(old(m.role), m.S(), r, Pages(oldsz), Pages(newsz), xperm.(r := true, u := true))
    ensures newsz >= oldsz && sz == newsz ==>
              forall v :: Pages(oldsz) <= v < Pages(newsz) ==>
                var e := LeafPte(m.S(), r, v);
                && e == Pte(e.pa, true, true, xperm.w, xperm.x, true, xperm.rest)
                && e.pa in old(m.role) && old(m.role)[e.pa].Free? && e.pa in m.page && m.page[e.pa] == Data(ZeroBytes())
    ensures newsz >= oldsz && sz != newsz ==> Grown(old(m.S()), old(m.role), m.S(), m.role, r)
    ensures newsz >= oldsz ==>
              && Pages(oldsz) <= Pages(newsz)
              && (sz == newsz <==> |old(m.free)| >= Cost(old(m.S()), r, Every(), Pages(oldsz), Pages(newsz), 1))
              && (sz == newsz ==> Spent(old(m.S()), m.S(), r, Every(), Pages(oldsz), Pages(newsz), 1))
  {
    hide Inv, LeafPte, Unmapped, Within, Grown, Pages, Zeroed, Empty, Spent, Cost, Missing, TablesAt, Every;
    if newsz < oldsz {
      return oldsz;
    }
    ghost var s0, role0, lo := m.S(), m.role, Pages(oldsz);
    PagesMono(oldsz, newsz);
    WithinRefl(s0, role0, r, lo, lo);
    var k := Pages(oldsz);
    var perm := xperm.(r := true, u := true);
    ZeroedNone(role0, s0, r, lo, perm);
    SpentNone(s0, r, Every(), lo, 1);
    PagesAt(k, newsz);
    while k * PGSIZE < newsz
      invariant k * PGSIZE < newsz <==> k < Pages(newsz)
      invariant lo <= k <= Pages(newsz) && m.Valid() && m.roots == s0.roots
      invariant Within(s0, role0, m.S(), m.role, r, lo, k) && Zeroed(role0, m.S(), r, lo, k, perm)
      invariant Spent(s0, m.S(), r, Every(), lo, k, 1)
      decreases Pages(newsz) - k
    {
      ghost var s1, role1 := m.S(), m.role;
      StillEmpty(s0, role0, s1, role1, r, lo, k, Pages(newsz));
      var ok, p := MapFresh(m, r, k, ZeroBytes(), perm);
      if !ok {
        ghost var s2, role2 := m.S(), m.role;
        GrownIsWithin(s1, role1, s2, role2, r, k, k);
        WithinTrans(s0, role0, s1, role1, s2, role2, r, lo, k, k);
        PagesAt(k, k);
        PagesAt(lo, k);
        var undone := Uvmdealloc(m, r, k * PGSIZE, Pages(oldsz) * PGSIZE);
        EmptyPart(s0, r, lo, k, Pages(newsz));
        UndoneIsGrown(s0, role0, s2, role2, m.S(), m.role, r, lo, k);
        WantsAll(k);
        SpentShort(s0, s1, r, Every(), lo, k, 1);
        CostMono(s0, r, Every(), lo, k + 1, Pages(newsz), 1);
        return 0;
      }
      WantsAll(k);
      SpentNext(s0, s1, m.S(), r, Every(), lo, k, 1);
      EmptyPart(s0, r, lo, k, Pages(newsz));
      FreeBefore(s0, role0, s1, role1, r, lo, k, p);
      ZeroedStep(role0, s1, role1, m.S(), m.role, r, lo, k, perm, p);
      WithinTrans(s0, role0, s1, role1, m.S(), m.role, r, lo, k, k + 1);
      k := k + 1;
      PagesAt(k, newsz);
    }
    SpentEnough(s0, m.S(), r, Every(), lo, k, 1);
    ZeroedPages(role0, m.S(), r, lo, k, xperm);
    return newsz;
  }

  lemma WantsAll(v: nat)
    requires v < NVPN
    ensures v in Every()
  {
  }

  lemma SpentEnough(s0: Vm, s: Vm, r: nat, want: iset<nat>, lo: nat, hi: nat, leaf: nat)
    requires Spent(s0, s, r, want, lo, hi, leaf)
    ensures hi <= NVPN && |s0.free| >= Cost(s0, r, want, lo, hi, leaf)
  {
  }

  /** Three free pages for each new page are always enough. */
  lemma ThreePerPage(s: Vm, r: nat, want: iset<nat>, lo: nat, hi: nat)
    requires lo <= hi <= NVPN && |s.free| >= 3 * (hi - lo)
    ensures |s.free| >= Cost(s, r, want, lo, hi, 1)
  {
    CostBound(s, r, want, lo, hi, 1);
  }

  lemma ZeroedPages(role0: map<nat, Role>, s: Vm, r: nat, lo: nat, hi: nat, xperm: Pte)
    requires hi <= NVPN && Zeroed(role0, s, r, lo, hi, xperm.(r := true, u := true))
    ensures forall v :: lo <= v < hi ==>
              var e := LeafPte(s, r, v);
              && e == Pte(e.pa, true, true, xperm.w, xperm.x, true, xperm.rest)
              && e.pa in role0 && role0[e.pa].Free? && e.pa in s.page && s.page[e.pa] == Data(ZeroBytes())
  {
    hide LeafPte;
  }

  lemma CopiedPages(s0: Vm, role0: map<nat, Role>, s: Vm, parent: nat, child: nat, n: nat)
    requires n <= NVPN && Copied(s0, role0, s, parent, child, n)
    ensures forall v :: 0 <= v < n ==>
              var e, c := LeafPte(s0, parent, v), LeafPte(s, child, v);
              if e.v then
                && c == Pte(c.pa, true, e.r, e.w, e.x, e.u, e.rest) && c.pa in role0 && role0[c.pa].Free?
                && e.pa in s0.page && c.pa in s.page && s.page[c.pa] == s0.page[e.pa]
              else !c.v
  {
    hide LeafPte;
    forall v | 0 <= v < n
      ensures var e, c := LeafPte(s0, parent, v), LeafPte(s, child, v);
              if e.v then
                && c == Pte(c.pa, true, e.r, e.w, e.x, e.u, e.rest) && c.pa in role0 && role0[c.pa].Free?
                && e.pa in s0.page && c.pa in s.page && s.page[c.pa] == s0.page[e.pa]
              else !c.v
    {
      assert CopyAt(s0, role0, s, parent, child, v);
    }
  }

  lemma ZeroedNone(role0: map<nat, Role>, s: Vm, r: nat, lo: nat, perm: Pte)
    requires lo <= NVPN
    ensures Zeroed(role0, s, r, lo, lo, perm)
  {
  }

  lemma EmptyPart(s: Vm, r: nat, lo: nat, k: nat, hi: nat)
    requires k <= hi <= NVPN && Empty(s, r, lo, hi)
    ensures Empty(s, r, lo, k)
  {
  }

  lemma StillEmpty(s0: Vm, role0: map<nat, Role>, s: Vm, role: map<nat, Role>, r: nat, lo: nat, k: nat, hi: nat)
    requires Within(s0, role0, s, role, r, lo, k) && r in s0.roots && lo <= k < hi <= NVPN && Empty(s0, r, lo, hi)
    ensures !LeafPte(s, r, k).v
  {
    hide LeafPte;
  }

  // ------------------------------------------------------------------ fork's copy

  /** Page `v` of the child is a private copy of the parent's, or absent like the parent's. */
  ghost predicate CopyAt(s0: Vm, role0: map<nat, Role>, s: Vm, parent: nat, child: nat, v: nat)
    requires v < NVPN
  {
    var e := LeafPte(s0, parent, v);
    if e.v then
      && e.pa in s0.page && s0.page[e.pa].Data?
      && FreshAt(role0, s, LeafPte(s, child, v), e, s0.page[e.pa].bytes)
    else !LeafPte(s, child, v).v
  }

  ghost predicate Copied(s0: Vm, role0: map<nat, Role>, s: Vm, parent: nat, child: nat, n: nat)
    requires n <= NVPN
  {
    forall v :: 0 <= v < n ==> CopyAt(s0, role0, s, parent, child, v)
  }

  /** The pages copied so far are not touched by work on the next one. */
  lemma CopiedStays(s0: Vm, role0: map<nat, Role>, s1: Vm, role1: map<nat, Role>, s2: Vm, role2: map<nat, Role>, parent: nat, child: nat, k: nat)
    requires Inv(s1, role1) && child in s1.roots && k < TRAPFRAME
    requires Copied(s0, role0, s1, parent, child, k) && Within(s1, role1, s2, role2, child, k, k + 1)
    ensures Copied(s0, role0, s2, parent, child, k)
  {
    hide LeafPte, NodesOk, FlagsOk, FreeOk, LeavesOk, RoleMove;
    forall v | 0 <= v < k ensures CopyAt(s0, role0, s2, parent, child, v) {
      assert CopyAt(s0, role0, s1, parent, child, v);
      if LeafPte(s1, child, v).v {
        UserLeaf(s1, role1, child, v);
      }
    }
  }

  lemma CopiedMore(s0: Vm, role0: map<nat, Role>, s: Vm, parent: nat, child: nat, k: nat)
    requires k < NVPN && Copied(s0, role0, s, parent, child, k) && CopyAt(s0, role0, s, parent, child, k)
    ensures Copied(s0, role0, s, parent, child, k + 1)
  {
    hide CopyAt;
  }

  /** The parent's page is still mapped as it was, to the same bytes. */
  lemma ParentStays(s0: Vm, role0: map<nat, Role>, s: Vm, role: map<nat, Role>, parent: nat, child: nat, k: nat)
    requires Inv(s0, role0) && parent in s0.roots && parent != child && k < TRAPFRAME
    requires Within(s0, role0, s, role, child, 0, k)
    ensures LeafPte(s, parent, k) == LeafPte(s0, parent, k)
    ensures var e := LeafPte(s0, parent, k);
            e.v ==> e.pa in s0.page && s0.page[e.pa].Data? && |s0.page[e.pa].bytes| == PGSIZE
                    && e.pa in s.page && s.page[e.pa] == s0.page[e.pa] && IsLeafFlags(e)
  {
    hide LeafPte, NodesOk, FlagsOk, FreeOk, LeavesOk, RoleMove;
    if LeafPte(s0, parent, k).v {
      UserLeaf(s0, role0, parent, k);
      LeafData(s0, role0, parent, k);
    }
  }

  lemma LeafData(s: Vm, role: map<nat, Role>, r: nat, vpn: nat)
    requires Inv(s, role) && r in s.roots && vpn < TRAPFRAME && LeafPte(s, r, vpn).v
    ensures var p := LeafPte(s, r, vpn).pa;
            p in s.page && s.page[p].Data? && |s.page[p].bytes| == PGSIZE && IsLeafFlags(LeafPte(s, r, vpn)) && p != 0
  {
    var q := Low(s, r, vpn / NPTE);
    assert InTree(0, vpn / NPTE) && NodeAt(s, r, 0, vpn / NPTE) == q;
    assert EntryOk(Entry(s, q, vpn % NPTE), 0);
  }

  /**
    uvmcopy: on success the child has a private copy of every page of the parent below `sz`,
    with the same flags, and pages the parent never touched are absent in the child too. On
    failure every frame taken is free again and the child maps nothing.
   */
  method Uvmcopy(m: Memory, parent: nat, child: nat, sz: nat) returns (ok: bool)
    requires m.Valid() && parent in m.roots && child in m.roots && parent != child && Pages(sz) <= TRAPFRAME
    requires Empty(m.S(), child, 0, Pages(sz))
    modifies m`page, m`free, m`role
    ensures m.Valid() && m.roots == old(m.roots)
    ensures ok ==>
              && Within(old(m.S()), old(m.role), m.S(), m.role, child, 0, Pages(sz))
              && Copied(old(m.S()), old(m.role), m.S(), parent, child, Pages(sz))
    ensures ok ==> forall v :: 0 <= v < Pages(sz) ==>
                     var e, c := LeafPte(old(m.S()), parent, v), LeafPte(m.S(), child, v);
                     if e.v then
                       && c == Pte(c.pa, true, e.r, e.w, e.x, e.u, e.rest) && c.pa in old(m.role) && old(m.role)[c.pa].Free?
                       && e.pa in old(m.page) && c.pa in m.page && m.page[c.pa] == old(m.page)[e.pa]
                     else !c.v
    ensures !ok ==> Grown(old(m.S()), old(m.role), m.S(), m.role, child)
    ensures ok <==> |old(m.free)| >= Cost(old(m.S()), child, Present(old(m.S()), parent), 0, Pages(sz), 1)
    ensures ok ==> Spent(old(m.S()), m.S(), child, Present(old(m.S()), parent), 0, Pages(sz), 1)
  {
    hide Inv, LeafPte, Unmapped, Within, Grown, Pages, Copied, Empty, Low, FreshAt, Spent, Cost, Missing, TablesAt, Present;
    ghost var s0, role0, want := m.S(), m.role, Present(m.S(), parent);
    SpentNone(s0, child, want, 0, 1);
    WithinRefl(s0, role0, child, 0, 0);
    var k := 0;
    PagesAt(k, sz);
    CopiedNone(s0, role0, parent, child);
    while k * PGSIZE < sz
      invariant k * PGSIZE < sz <==> k < Pages(sz)
      invariant k <= Pages(sz) && m.Valid() && m.roots == s0.roots
      invariant Within(s0, role0, m.S(), m.role, child, 0, k) && Copied(s0, role0, m.S(), parent, child, k)
      invariant Spent(s0, m.S(), child, want, 0, k, 1)
      decreases Pages(sz) - k
    {
      ghost var s1, role1 := m.S(), m.role;
      OnePage(k);
      StillEmpty(s0, role0, s1, role1, child, 0, k, Pages(sz));
      EmptyPart(s0, child, 0, k, Pages(sz));
      ParentStays(s0, role0, s1, role1, parent, child, k);
      var w := m.Walk(parent, k * PGSIZE, false);
      var absent := true;
      if w.At? {
        LeafSlot(m.S(), m.role, w.table, w.i, k);
        absent := !m.page[w.table].pte[w.i].v;
      } else {
        NoTableNoLeaf(m.S(), parent, k);
      }
      IsPresent(s0, parent, k);
      if absent {
        WithinRefl(s1, role1, child, k, k + 1);
        SpentSkip(s0, s1, child, want, 0, k, 1);
      } else {
        var pte := m.page[w.table].pte[w.i];
        var bytes := m.page[pte.pa].bytes;
        var took, p := MapFresh(m, child, k, bytes, pte);
        if !took {
          ghost var s2, role2 := m.S(), m.role;
          GrownIsWithin(s1, role1, s2, role2, child, k, k);
          WithinTrans(s0, role0, s1, role1, s2, role2, child, 0, k, k);
          var panicked := m.Uvmunmap(child, 0, k, true);
          assert !panicked;
          UndoneIsGrown(s0, role0, s2, role2, m.S(), m.role, child, 0, k);
          SpentShort(s0, s1, child, want, 0, k, 1);
          CostMono(s0, child, want, 0, k + 1, Pages(sz), 1);
          return false;
        }
        SpentNext(s0, s1, m.S(), child, want, 0, k, 1);
        FreeBefore(s0, role0, s1, role1, child, 0, k, p);
        FreshCopy(s0, role0, m.S(), parent, child, k, p);
      }
      CopiedStays(s0, role0, s1, role1, m.S(), m.role, parent, child, k);
      CopiedMore(s0, role0, m.S(), parent, child, k);
      WithinTrans(s0, role0, s1, role1, m.S(), m.role, child, 0, k, k + 1);
      k := k + 1;
      PagesAt(k, sz);
    }
    SpentEnough(s0, m.S(), child, want, 0, k, 1);
    CopiedPages(s0, role0, m.S(), parent, child, k);
    return true;
  }

  lemma IsPresent(s: Vm, r: nat, v: nat)
    requires v < NVPN
    ensures v in Present(s, r) <==> LeafPte(s, r, v).v
  {
  }

  lemma CopiedNone(s: Vm, role: map<nat, Role>, parent: nat, child: nat)
    ensures Copied(s, role, s, parent, child, 0)
  {
  }

  lemma FreshCopy(s0: Vm, role0: map<nat, Role>, s: Vm, parent: nat, child: nat, k: nat, p: nat)
    requires k < NVPN && LeafPte(s0, parent, k).v && LeafPte(s0, parent, k).pa in s0.page && s0.page[LeafPte(s0, parent, k).pa].Data?
    requires LeafPte(s, child, k) == LeafPte(s0, parent, k).(pa := p) && p in role0 && role0[p].Free?
    requires p in s.page && s.page[p] == Data(s0.page[LeafPte(s0, parent, k).pa].bytes)
    ensures CopyAt(s0, role0, s, parent, child, k)
  {
    hide LeafPte;
  }
}
