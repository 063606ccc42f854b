/**
  The physical page allocator and the page-table code, run over physical memory. An address
  space is named by its root table. `roots` and `role` are ghost: the first says which trees
  are live, the second what every allocator page is being used for.
 */
module PageTable {
  import opened VmSpec
  import opened FrameCost

  const MAXVA := MAXVPN * PGSIZE

  datatype WalkResult = Panic | NoPte | At(table: nat, i: nat)

  datatype MapResult = Mapped | NoMemory | Remap | WalkPanic | BadArgs

  /** PX(level, va): the 9-bit index into the table of that level. */
  function PX(level: nat, va: nat): (i: nat)
    ensures i < NPTE
  {
    if level == 0 then va / PGSIZE % NPTE
    else if level == 1 then va / (PGSIZE * NPTE) % NPTE
    else va / (PGSIZE * NPTE * NPTE) % NPTE
  }

  /** Going down one level appends one digit. */
  lemma PrefixDown(level: nat, va: nat)
    requires 0 < level <= 2 && va < MAXVA
    ensures var vpn := va / PGSIZE;
            && InTree(level, Prefix(level, vpn))
            && Prefix(level - 1, vpn) == Prefix(level, vpn) * NPTE + PX(level, va)
            && InTree(level - 1, Prefix(level - 1, vpn))
            && PX(0, va) == vpn % NPTE
  {
    var vpn := va / PGSIZE;
    assert va / (PGSIZE * NPTE) == vpn / NPTE;
    assert va / (PGSIZE * NPTE * NPTE) == vpn / NPTE / NPTE;
    assert vpn / NPTE / NPTE < NPTE;
  }

  /**
    What an operation that only adds tables to the tree `r` may do: take free pages for them.
    Every flat map, every frame and every held page stays as it is.
   */
  ghost predicate Grown(s: Vm, role: map<nat, Role>, s': Vm, role': map<nat, Role>, r: nat) {
    && s'.roots == s.roots && role'.Keys == role.Keys
    && (forall x :: x in role ==> role'[x] == role[x] || (role[x].Free? && role'[x].Node? && role'[x].root == r))
    && (forall x :: x in role && (role[x].Leaf? || role[x].Held?) ==> x in s.page && x in s'.page && s'.page[x] == s.page[x])
    && (forall t, vpn :: t in s.roots && 0 <= vpn < NVPN ==> LeafPte(s', t, vpn) == LeafPte(s, t, vpn))
  }

  lemma GrownTrans(s: Vm, role: map<nat, Role>, s1: Vm, role1: map<nat, Role>, s2: Vm, role2: map<nat, Role>, r: nat)
    requires Grown(s, role, s1, role1, r) && Grown(s1, role1, s2, role2, r)
    ensures Grown(s, role, s2, role2, r)
  {
    hide LeafPte;
  }

  function ZeroBytes(): (b: Bytes)
    ensures |b| == PGSIZE && forall i :: 0 <= i < PGSIZE ==> b[i] == 0
  {
    seq(PGSIZE, _ => 0)
  }

  function Junk(x: int): (b: Bytes)
    ensures |b| == PGSIZE
  {
    seq(PGSIZE, _ => x)
  }

  function RoundUp(x: nat): (y: nat)
    ensures y % PGSIZE == 0 && x <= y < x + PGSIZE
  {
    (x + PGSIZE - 1) / PGSIZE * PGSIZE
  }

  ghost function AllHeld(lo: nat, hi: nat): map<nat, Role> {
    map p: nat | lo <= p < hi && p % PGSIZE == 0 :: Held
  }

  lemma BootInv(s: Vm, role: map<nat, Role>)
    requires s.free == [] && s.roots == {} && forall p :: p in role ==> role[p].Held? && p != 0 && p in s.page
    ensures Inv(s, role)
  {
  }

  lemma NextPage(p: nat)
    requires p % PGSIZE == 0
    ensures (p + PGSIZE) % PGSIZE == 0 && forall x: nat :: x % PGSIZE == 0 ==> (x < p + PGSIZE <==> x < p || x == p)
  {
  }

  class Memory {
    const base: nat     // PGROUNDUP(end)
    const phystop: nat
    var page: map<nat, Page>
    var free: seq<nat>  // kmem.freelist, first page first
    ghost var roots: set<nat>
    ghost var role: map<nat, Role>

    ghost function S(): (s: Vm)
      reads this
    {
      Vm(page, free, roots)
    }

    ghost predicate Valid()
      reads this
    {
      Inv(S(), role) && forall p :: p in role <==> IsFrame(p)
    }

    /** A page the allocator manages. */
    predicate IsFrame(p: nat) {
      p % PGSIZE == 0 && base <= p < phystop
    }

    /** kinit: every page between the kernel's end and PHYSTOP goes to the free list; `ram` is what memory holds. */
    constructor (end: nat, top: nat, ram: map<nat, Page>)
      requires 0 < end && top % PGSIZE == 0
      requires forall p :: end <= p < top && p % PGSIZE == 0 ==> p in ram
      ensures Valid() && roots == {} && base == RoundUp(end) && phystop == top
      ensures forall p :: p in role ==> role[p].Free?
    {
      base, phystop, page, free, roots, role := RoundUp(end), top, ram, [], {}, AllHeld(RoundUp(end), top);
      new;
      BootInv(S(), role);
      Freerange();
    }

    /** freerange over the whole of [base, phystop). */
    method Freerange()
      requires Valid() && base % PGSIZE == 0 && phystop % PGSIZE == 0 && forall p :: p in role ==> role[p].Held?
      modifies `page, `free, `role
      ensures Valid() && forall p :: p in role ==> role[p].Free?
    {
      hide NodesOk, LeavesOk, FlagsOk, FreeOk, SameMaps;
      var p := base;
      while p + PGSIZE <= phystop
        invariant Valid() && p % PGSIZE == 0 && base <= p
        invariant forall x :: x in role ==> role[x] == if x < p then Free else Held
        decreases phystop - p
      {
        var panicked := Kfree(p);
        NextPage(p);
        p := p + PGSIZE;
      }
    }

    /** kalloc: the first page of the free list, full of junk, or 0. */
    method Kalloc() returns (p: nat)
      requires Valid()
      modifies `page, `free, `role
      ensures Valid() && SameMaps(old(S()), S())
      ensures p == 0 <==> old(free) == []
      ensures p == 0 ==> S() == old(S()) && role == old(role)
      ensures p != 0 ==>
                && p == old(free)[0] && free == old(free)[1..] && p in role && old(role)[p].Free?
                && role == old(role)[p := Held] && page == old(page)[p := Data(Junk(5))]
    {
      hide NodesOk, LeavesOk, FlagsOk, SameMaps;
      if free == [] {
        SameMapsRefl(S());
        return 0;
      }
      TakeKeeps(S(), role, Data(Junk(5)));
      p := free[0];
      free := free[1..];
      page := page[p := Data(Junk(5))];
      role := role[p := Held];
    }

    /** kfree of a page nothing uses any more; `panicked` is its sanity check. */
    method Kfree(p: nat) returns (panicked: bool)
      requires Valid() && (p in role ==> role[p].Held?)
      modifies `page, `free, `role
      ensures Valid() && SameMaps(old(S()), S())
      ensures panicked <==> p % 4096 != 0 || p < base || p >= phystop
      ensures panicked ==> S() == old(S()) && role == old(role)
      ensures !panicked ==> p in role && role == old(role)[p := Free] && free == [p] + old(free) && page == old(page)[p := Data(Junk(1))]
    {
      hide NodesOk, LeavesOk, FlagsOk, SameMaps;
      if p % PGSIZE != 0 || p < base || p >= phystop {
        SameMapsRefl(S());
        return true;
      }
      GiveKeeps(S(), role, p, Data(Junk(1)));
      page := page[p := Data(Junk(1))];
      free := [p] + free;
      role := role[p := Free];
      return false;
    }

    /** walk's allocation of one missing table. */
    method AddTable(q: nat, i: nat, ghost r: nat) returns (p: nat)
      requires Valid() && q in role && role[q].Node? && role[q].root == r && role[q].level > 0 && i < NPTE && !Entry(S(), q, i).v
      modifies `page, `free, `role
      ensures Valid() && Grown(old(S()), old(role), S(), role, r)
      ensures p == 0 ==> old(free) == [] && S() == old(S()) && role == old(role)
      ensures p != 0 ==> p in role && role[p] == BelowSlot(old(role)[q], i) && |free| == |old(free)| - 1
      ensures p != 0 ==> OneTable(old(S()), S(), r, old(role)[q].level - 1, old(role)[q].prefix * NPTE + i)
    {
      hide NodesOk, LeavesOk, FlagsOk, SameMaps, LeafPte, FreeOk, OneTable;
      ghost var s0, role0 := S(), role;
      NodeTable(s0, role, q);
      p := Kalloc();
      if p == 0 {
        GrownRefl(s0, role0, r);
        return;
      }
      ghost var s1, role1 := S(), role;
      LinkKeeps(s1, role1, q, i, p);
      LinkOne(s0, s1, role1, q, i, p, r);
      page := page[p := Table(ZeroTable())];
      page := page[q := Table(page[q].pte[i := Pointer(p)])];
      role := role[p := BelowSlot(role[q], i)];
      AddTableGrown(s0, role0, s1, S(), role, q, i, p, r);
    }

    /**
      walk: where the level-0 entry for `va` is. Without `alloc` nothing changes and NoPte
      means there is no level-0 table; with `alloc` missing tables are added, which changes no
      mapping of any address space, and NoPte means memory ran out.
     */
    method Walk(r: nat, va: nat, alloc: bool) returns (res: WalkResult)
      requires Valid() && r in roots
      modifies `page, `free, `role
      ensures Valid() && Grown(old(S()), old(role), S(), role, r)
      ensures res.Panic? <==> va >= MAXVA
      ensures res.Panic? || !alloc ==> S() == old(S()) && role == old(role)
      ensures res.NoPte? ==> if alloc then free == [] else Low(S(), r, va / PGSIZE / NPTE) == 0
      ensures res.At? ==> res.table in role && role[res.table] == Node(r, 0, va / PGSIZE / NPTE) && res.i == va / PGSIZE % NPTE
      ensures alloc && va < MAXVA ==> (res.At? <==> |old(free)| >= Missing(old(S()), r, va / PGSIZE))
      ensures alloc && res.At? ==>
                TablesAt(old(S()), S(), r, va / PGSIZE) && |free| == |old(free)| - Missing(old(S()), r, va / PGSIZE)
    {
      hide NodesOk, LeavesOk, FlagsOk, SameMaps, LeafPte, FreeOk, Grown, Entry, Low, PX, NodeAt, PathTo, OneTable, Gap, Missing, TablesAt;
      ghost var s0, role0 := S(), role;
      GrownRefl(s0, role0, r);
      if va >= MAXVA {
        return Panic;
      }
      ghost var vpn := va / PGSIZE;
      RootRole(s0, role, r);
      PathStart(s0, r, vpn);
      var table, level := r, 2;
      while level > 0
        invariant 0 <= level <= 2 && Valid() && r in roots && Grown(s0, role0, S(), role, r)
        invariant !alloc ==> S() == s0 && role == role0
        invariant table in role && role[table] == Node(r, level, Prefix(level, vpn))
        invariant PathTo(s0, S(), r, vpn, level) && |free| + Gap(s0, r, vpn, level) == |s0.free|
      {
        PrefixDown(level, va);
        var i := PX(level, va);
        NodeTable(S(), role, table);
        StepDown(S(), role, table, i);
        EntryIsNode(S(), role, table, i);
        ghost var s1, role1 := S(), role;
        if page[table].pte[i].v {
          PathThere(s0, s1, r, vpn, level);
          table := page[table].pte[i].pa;
        } else {
          if !alloc {
            NoLow(S(), r, level, va, table);
            return NoPte;
          }
          PathMissing(s0, s1, r, vpn, level);
          var p := AddTable(table, i, r);
          GrownTrans(s0, role0, s1, role1, S(), role, r);
          if p == 0 {
            return NoPte;
          }
          PathAdded(s0, s1, S(), r, vpn, level);
          table := p;
        }
        level := level - 1;
      }
      PrefixDown(1, va);
      PathEnd(s0, S(), r, vpn);
      return At(table, PX(0, va));
    }

    /**
      mappages: adds exactly the requested pages to the flat map of `r`, in order. When it stops
      early (out of memory, or the remap and walk panics) the first `done` pages are mapped and
      no other page changed; BadArgs are the alignment panics.
     */
    method Mappages(r: nat, va: nat, size: nat, pa: nat, perm: Pte) returns (res: MapResult, ghost done: nat)
      requires Valid() && r in roots && IsLeafFlags(perm)
      requires CanMap(S(), role, va / PGSIZE, size / PGSIZE, pa)
      modifies `page, `free, `role
      ensures Valid()
      ensures res.BadArgs? <==> va % PGSIZE != 0 || size % PGSIZE != 0 || size == 0
      ensures res.BadArgs? ==> S() == old(S()) && role == old(role)
      ensures !res.BadArgs? ==> done <= size / PGSIZE && (res.Mapped? <==> done == size / PGSIZE)
      ensures !res.BadArgs? ==> MappedRange(old(S()), old(role), S(), role, r, va / PGSIZE, done, pa, perm)
      ensures res.Mapped? ==>
                forall t, v :: t in roots && 0 <= v < NVPN ==>
                  LeafPte(S(), t, v) == if t == r && va / PGSIZE <= v < va / PGSIZE + size / PGSIZE
                                        then Pte(pa + (v - va / PGSIZE) * PGSIZE, true, perm.r, perm.w, perm.x, perm.u, perm.rest)
                                        else LeafPte(old(S()), t, v)
      ensures res.Mapped? ==> Spent(old(S()), S(), r, Every(), va / PGSIZE, va / PGSIZE + done, 0)
      ensures res.NoMemory? ==>
                free == [] && va / PGSIZE + done < NVPN && |old(free)| < Cost(old(S()), r, Every(), va / PGSIZE, va / PGSIZE + done + 1, 0)
      ensures res.WalkPanic? ==> va + done * PGSIZE >= MAXVA
      ensures res.Remap? ==> va / PGSIZE + done < NVPN && LeafPte(S(), r, va / PGSIZE + done).v
    {
      hide Inv, LeafPte, Grown, MappedRange, CanMap, Entry, Spent, Missing, TablesAt, Cost, Every;
      done := 0;
      if va % PGSIZE != 0 || size % PGSIZE != 0 || size == 0 {
        return BadArgs, 0;
      }
      ghost var s0, role0, vpn, n := S(), role, va / PGSIZE, size / PGSIZE;
      MappedNone(s0, role0, r, vpn, pa, perm);
      if vpn < NVPN { SpentNone(s0, r, Every(), vpn, 0); }
      var a, last, p := va, va + size - PGSIZE, pa;
      while true
        invariant 0 <= done < n && a == va + done * PGSIZE && p == Frame(pa, done) && last == va + (n - 1) * PGSIZE
        invariant Valid() && r in roots && MappedRange(s0, role0, S(), role, r, vpn, done, pa, perm)
        invariant done > 0 || vpn < NVPN ==> Spent(s0, S(), r, Every(), vpn, vpn + done, 0)
        decreases n - done
      {
        PageOf(va, done);
        ghost var s1 := S();
        res := MapOne(r, a, p, perm, s0, role0, vpn, done, n, pa);
        if !res.Mapped? {
          if res.NoMemory? { SpentShort(s0, s1, r, Every(), vpn, vpn + done, 0); }
          return res, done;
        }
        SpentNext(s0, s1, S(), r, Every(), vpn, vpn + done, 0);
        done := done + 1;
        if a == last {
          MappedAll(s0, role0, S(), role, r, vpn, done, pa, perm);
          return Mapped, done;
        }
        a := a + PGSIZE;
        p := p + PGSIZE;
      }
    }

    /** One round of mappages' loop: page number `vpn + k`, frame `p`. */
    method MapOne(r: nat, a: nat, p: nat, perm: Pte, ghost s0: Vm, ghost role0: map<nat, Role>,
                  ghost vpn: nat, ghost k: nat, ghost n: nat, ghost pa: nat) returns (res: MapResult)
      requires Valid() && r in roots && IsLeafFlags(perm) && a / PGSIZE == vpn + k && p == Frame(pa, k) && k < n
      requires MappedRange(s0, role0, S(), role, r, vpn, k, pa, perm) && CanMap(s0, role0, vpn, n, pa)
      modifies `page, `free, `role
      ensures Valid() && !res.BadArgs? && roots == old(roots)
      ensures MappedRange(s0, role0, S(), role, r, vpn, if res.Mapped? then k + 1 else k, pa, perm)
      ensures res.Mapped? || res.NoMemory? ==> vpn + k < MAXVPN && vpn + k in Every()
      ensures res.Mapped? ==> TablesAt(old(S()), S(), r, vpn + k) && |free| == |old(free)| - Missing(old(S()), r, vpn + k)
      ensures res.NoMemory? ==> free == [] && |old(free)| < Missing(old(S()), r, vpn + k)
      ensures res.WalkPanic? ==> a >= MAXVA
      ensures res.Remap? ==> vpn + k < NVPN && LeafPte(S(), r, vpn + k).v
    {
      hide NodesOk, LeavesOk, FlagsOk, FreeOk, LeafPte, Grown, MappedRange, CanMap, Entry, Missing, TablesAt;
      ghost var s1, role1 := S(), role;
      var w := Walk(r, a, true);
      if w.Panic? {
        return WalkPanic;
      }
      MappedGrown(s0, role0, s1, role1, S(), role, r, vpn, k, pa, perm);
      if w.NoPte? {
        return NoMemory;
      }
      var q, i := w.table, w.i;
      LeafSlot(S(), role, q, i, a / PGSIZE);
      if page[q].pte[i].v {
        return Remap;
      }
      MapStep(s0, role0, S(), role, r, vpn, k, n, pa, perm, q, i);
      LeafAddsNoTable(s1, S(), role, r, vpn + k, q, i, perm.(pa := p, v := true));
      page := page[q := Table(page[q].pte[i := perm.(pa := p, v := true)])];
      role := if vpn + k < TRAPFRAME then role[p := Leaf(r, vpn + k)] else role;
      return Mapped;
    }

    /** One round of uvmunmap's loop. */
    method UnmapOne(r: nat, a: nat, doFree: bool, ghost s0: Vm, ghost role0: map<nat, Role>, ghost vpn: nat, ghost k: nat) returns (panicked: bool)
      requires Valid() && r in roots && a / PGSIZE == vpn + k && (doFree ==> vpn + k < TRAPFRAME)
      requires Unmapped(s0, role0, S(), role, r, vpn, k, doFree)
      modifies `page, `free, `role
      ensures Valid() && roots == old(roots)
      ensures panicked <==> a >= MAXVA
      ensures !panicked ==> Unmapped(s0, role0, S(), role, r, vpn, k + 1, doFree)
    {
      hide NodesOk, LeavesOk, FlagsOk, FreeOk, LeafPte, Unmapped, Entry, SameMaps, Low;
      var w := Walk(r, a, false);
      if w.Panic? {
        return true;
      }
      if w.NoPte? {
        NoTableNoLeaf(S(), r, vpn + k);
        UnmapAbsent(s0, role0, S(), role, r, vpn, k, doFree);
        return false;
      }
      var q, i := w.table, w.i;
      LeafSlot(S(), role, q, i, a / PGSIZE);
      if !page[q].pte[i].v {
        UnmapAbsent(s0, role0, S(), role, r, vpn, k, doFree);
        return false;
      }
      var pa := page[q].pte[i].pa;
      ghost var s1, role1 := S(), role;
      UnmapKeeps(s1, role1, q, i);
      page := page[q := Table(page[q].pte[i := NONE])];
      role := if vpn + k < TRAPFRAME then role[pa := Held] else role;
      ghost var s2 := S();
      if doFree {
        panicked := Kfree(pa);
      }
      UnmapStep(s0, role0, s1, role1, s2, S(), role, r, vpn, k, doFree, q, i);
      return false;
    }

    /**
      uvmunmap: removes exactly the mappings of its range, present or not, and frees their
      frames if asked. The panics are a misaligned start and a range that leaves the address
      space; frames are only freed below the trapframe, where the tree owns them.
     */
    method Uvmunmap(r: nat, va: nat, npages: nat, doFree: bool) returns (panicked: bool)
      requires Valid() && r in roots && (doFree ==> va / PGSIZE + npages <= TRAPFRAME)
      modifies `page, `free, `role
      ensures Valid() && roots == old(roots)
      ensures panicked <==> va % PGSIZE != 0 || (npages > 0 && va + npages * PGSIZE > MAXVA)
      ensures !panicked ==> Unmapped(old(S()), old(role), S(), role, r, va / PGSIZE, npages, doFree)
      ensures !panicked ==> forall t, v :: t in roots && 0 <= v < NVPN ==>
                if t == r && va / PGSIZE <= v < va / PGSIZE + npages then !LeafPte(S(), t, v).v else LeafPte(S(), t, v) == LeafPte(old(S()), t, v)
      ensures !panicked && doFree ==> forall v :: va / PGSIZE <= v < va / PGSIZE + npages && LeafPte(old(S()), r, v).v ==>
                LeafPte(old(S()), r, v).pa in role && role[LeafPte(old(S()), r, v).pa].Free?
    {
      hide Inv, LeafPte, Unmapped;
      if va % PGSIZE != 0 {
        return true;
      }
      ghost var s0, role0, vpn, k := S(), role, va / PGSIZE, 0;
      UnmappedNone(s0, role0, r, vpn, doFree);
      var a := va;
      while a < va + npages * PGSIZE
        invariant 0 <= k <= npages && a == va + k * PGSIZE
        invariant Valid() && roots == old(roots) && Unmapped(s0, role0, S(), role, r, vpn, k, doFree)
        invariant k > 0 ==> a <= MAXVA
        decreases npages - k
      {
        PageOf(va, k);
        panicked := UnmapOne(r, a, doFree, s0, role0, vpn, k);
        if panicked {
          return true;
        }
        PageEnd(a);
        a := a + PGSIZE;
        k := k + 1;
      }
      UnmappedPages(s0, role0, S(), role, r, vpn, npages, doFree);
      return false;
    }
  }

  lemma UnmappedPages(s0: Vm, role0: map<nat, Role>, s: Vm, role: map<nat, Role>, r: nat, vpn: nat, n: nat, doFree: bool)
    requires Inv(s0, role0) && r in s0.roots && Unmapped(s0, role0, s, role, r, vpn, n, doFree) && (doFree ==> vpn + n <= TRAPFRAME)
    ensures forall t, v :: t in s.roots && 0 <= v < NVPN ==>
              if t == r && vpn <= v < vpn + n then !LeafPte(s, t, v).v else LeafPte(s, t, v) == LeafPte(s0, t, v)
    ensures doFree ==> forall v :: vpn <= v < vpn + n && LeafPte(s0, r, v).v ==>
              LeafPte(s0, r, v).pa in role && role[LeafPte(s0, r, v).pa].Free?
  {
    hide LeafPte, NodesOk, FlagsOk, FreeOk, LeavesOk;
    if doFree {
      forall v | vpn <= v < vpn + n && LeafPte(s0, r, v).v ensures LeafPte(s0, r, v).pa in role && role[LeafPte(s0, r, v).pa].Free? {
        UserLeaf(s0, role0, r, v);
      }
    }
  }

  lemma PageEnd(a: nat)
    requires a < MAXVA && a % PGSIZE == 0
    ensures a + PGSIZE <= MAXVA
  {
  }

  /** The mappings of `n` pages from `vpn` on are gone; their frames are free or held again. */
  ghost predicate Unmapped(s0: Vm, role0: map<nat, Role>, s: Vm, role: map<nat, Role>, r: nat, vpn: nat, n: nat, doFree: bool) {
    && s.roots == s0.roots && role.Keys == role0.Keys
    && (forall t, v :: t in s.roots && 0 <= v < NVPN ==>
          LeafPte(s, t, v) == if t == r && vpn <= v < vpn + n && LeafPte(s0, t, v).v then NONE else LeafPte(s0, t, v))
    && (forall x :: x in role0 ==> role[x] == if InRange(role0[x], r, vpn, n) then (if doFree then Free else Held) else role0[x])
    && (forall x :: x in role0 && (role0[x].Leaf? || role0[x].Held?) && (doFree ==> !InRange(role0[x], r, vpn, n)) ==>
          x in s0.page && x in s.page && s.page[x] == s0.page[x])
  }

  predicate InRange(role: Role, r: nat, vpn: nat, n: nat) {
    role.Leaf? && role.root == r && vpn <= role.vpn < vpn + n
  }

  lemma UnmappedNone(s: Vm, role: map<nat, Role>, r: nat, vpn: nat, doFree: bool)
    requires Inv(s, role)
    ensures Unmapped(s, role, s, role, r, vpn, 0, doFree)
  {
  }

  /** Nothing was mapped at the page, so no frame has that role. */
  lemma UnmapAbsent(s0: Vm, role0: map<nat, Role>, s: Vm, role: map<nat, Role>, r: nat, vpn: nat, k: nat, doFree: bool)
    requires Inv(s, role) && Unmapped(s0, role0, s, role, r, vpn, k, doFree) && r in s.roots && vpn + k < MAXVPN
    requires !LeafPte(s, r, vpn + k).v
    ensures Unmapped(s0, role0, s, role, r, vpn, k + 1, doFree)
  {
    hide LeafPte, LeavesOk, NodesOk, FlagsOk, FreeOk;
    LeafOwner(s, role, r, vpn + k);
  }

  lemma NoTableNoLeaf(s: Vm, r: nat, vpn: nat)
    requires vpn < NVPN && Low(s, r, vpn / NPTE) == 0
    ensures !LeafPte(s, r, vpn).v
  {
  }

  /** Only the frame a page is mapped to can have that page's role. */
  lemma LeafOwner(s: Vm, role: map<nat, Role>, r: nat, vpn: nat)
    requires LeavesOk(s, role) && r in s.roots && vpn < NVPN
    ensures forall x :: x in role && role[x] == Leaf(r, vpn) ==> LeafPte(s, r, vpn).v && x == LeafPte(s, r, vpn).pa && vpn < TRAPFRAME
  {
    hide LeafPte;
  }

  lemma UnmapStep(s0: Vm, role0: map<nat, Role>, s1: Vm, role1: map<nat, Role>, s2: Vm, s3: Vm, role3: map<nat, Role>,
                  r: nat, vpn: nat, k: nat, doFree: bool, q: nat, i: nat)
    requires Inv(s1, role1) && Unmapped(s0, role0, s1, role1, r, vpn, k, doFree) && r in s1.roots && vpn + k < MAXVPN
    requires q in role1 && role1[q] == Node(r, 0, (vpn + k) / NPTE) && i == (vpn + k) % NPTE && Entry(s1, q, i).v
    requires IsTable(s1, q) && s2 == SetPte(s1, q, i, NONE) && (doFree ==> vpn + k < TRAPFRAME)
    requires doFree ==> SameMaps(s2, s3) && s3.page == s2.page[Entry(s1, q, i).pa := Data(Junk(1))]
    requires !doFree ==> s3 == s2
    requires role3 == if vpn + k < TRAPFRAME then role1[Entry(s1, q, i).pa := if doFree then Free else Held] else role1
    ensures Unmapped(s0, role0, s3, role3, r, vpn, k + 1, doFree)
  {
    hide LeafPte, LeavesOk, NodesOk, FlagsOk, FreeOk, Entry, NodeAt, Junk;
    LeafSlot(s1, role1, q, i, vpn + k);
    SetLeaf(s1, role1, q, i, NONE);
    UserLeaf(s1, role1, r, vpn + k);
    LeafOwner(s1, role1, r, vpn + k);
  }

  function Frame(pa: nat, k: nat): nat {
    pa + k * PGSIZE
  }

  /** The frames to be mapped at user pages are data pages the caller holds. */
  ghost predicate CanMap(s: Vm, role: map<nat, Role>, vpn: nat, n: nat, pa: nat) {
    forall k :: 0 <= k < n && vpn + k < TRAPFRAME ==>
      && Frame(pa, k) in role && role[Frame(pa, k)].Held? && Frame(pa, k) in s.page
      && s.page[Frame(pa, k)].Data? && |s.page[Frame(pa, k)].bytes| == PGSIZE
  }

  /** `n` pages from `vpn` on were mapped to consecutive frames, tables being added on the way. */
  ghost predicate MappedRange(s0: Vm, role0: map<nat, Role>, s: Vm, role: map<nat, Role>, r: nat, vpn: nat, n: nat, pa: nat, perm: Pte) {
    && s.roots == s0.roots && role.Keys == role0.Keys
    && (forall t, v :: t in s.roots && 0 <= v < NVPN ==>
          LeafPte(s, t, v) == if t == r && vpn <= v < vpn + n then perm.(pa := pa + (v - vpn) * PGSIZE, v := true) else LeafPte(s0, t, v))
    && (forall x :: x in role0 ==>
          || role[x] == role0[x]
          || (role0[x].Free? && role[x].Node? && role[x].root == r)
          || (role0[x].Held? && role[x].Leaf? && role[x].root == r && vpn <= role[x].vpn < vpn + n))
    && (forall x :: x in role0 && (role0[x].Leaf? || role0[x].Held?) ==> x in s0.page && x in s.page && s.page[x] == s0.page[x])
  }

  lemma MappedNone(s: Vm, role: map<nat, Role>, r: nat, vpn: nat, pa: nat, perm: Pte)
    requires Inv(s, role)
    ensures MappedRange(s, role, s, role, r, vpn, 0, pa, perm)
  {
  }

  lemma MappedAll(s0: Vm, role0: map<nat, Role>, s: Vm, role: map<nat, Role>, r: nat, vpn: nat, n: nat, pa: nat, perm: Pte)
    requires MappedRange(s0, role0, s, role, r, vpn, n, pa, perm)
    ensures s.roots == s0.roots
    ensures forall t, v :: t in s.roots && 0 <= v < NVPN ==>
              LeafPte(s, t, v) == if t == r && vpn <= v < vpn + n
                                  then Pte(pa + (v - vpn) * PGSIZE, true, perm.r, perm.w, perm.x, perm.u, perm.rest)
                                  else LeafPte(s0, t, v)
  {
    hide LeafPte;
  }

  lemma PageOf(va: nat, k: nat)
    requires va % PGSIZE == 0
    ensures (va + k * PGSIZE) / PGSIZE == va / PGSIZE + k
  {
  }

  lemma MappedGrown(s0: Vm, role0: map<nat, Role>, s1: Vm, role1: map<nat, Role>, s2: Vm, role2: map<nat, Role>,
                    r: nat, vpn: nat, n: nat, pa: nat, perm: Pte)
    requires MappedRange(s0, role0, s1, role1, r, vpn, n, pa, perm) && Grown(s1, role1, s2, role2, r)
    ensures MappedRange(s0, role0, s2, role2, r, vpn, n, pa, perm)
  {
    hide LeafPte;
  }

  /** The entry walk found is the flat map's entry. */
  lemma LeafSlot(s: Vm, role: map<nat, Role>, q: nat, i: nat, vpn: nat)
    requires Inv(s, role) && q in role && role[q].Node? && role[q].level == 0 && role[q].prefix == vpn / NPTE && i == vpn % NPTE
    ensures IsTable(s, q) && role[q].root in s.roots && vpn == role[q].prefix * NPTE + i < NVPN
    ensures LeafPte(s, role[q].root, vpn) == Entry(s, q, i) == s.page[q].pte[i]
  {
    LeafEntryIsFlat(s, role, q, i);
  }

  /** The next frame is still held: no page mapped so far uses it. */
  lemma StillHeld(s0: Vm, role0: map<nat, Role>, s: Vm, role: map<nat, Role>, r: nat, vpn: nat, k: nat, n: nat, pa: nat, perm: Pte)
    requires Inv(s, role) && r in s.roots && MappedRange(s0, role0, s, role, r, vpn, k, pa, perm)
    requires CanMap(s0, role0, vpn, n, pa) && k < n && vpn + k < TRAPFRAME
    ensures Frame(pa, k) in role && role[Frame(pa, k)].Held? && Frame(pa, k) in s.page && s.page[Frame(pa, k)] == s0.page[Frame(pa, k)]
    ensures s.page[Frame(pa, k)].Data? && |s.page[Frame(pa, k)].bytes| == PGSIZE
  {
    hide LeafPte, NodesOk, FlagsOk, FreeOk;
    assert role0[Frame(pa, k)].Held?;
  }

  lemma MapStep(s0: Vm, role0: map<nat, Role>, s: Vm, role: map<nat, Role>, r: nat, vpn: nat, k: nat, n: nat, pa: nat, perm: Pte, q: nat, i: nat)
    requires Inv(s, role) && r in s.roots && MappedRange(s0, role0, s, role, r, vpn, k, pa, perm)
    requires CanMap(s0, role0, vpn, n, pa) && k < n && IsLeafFlags(perm)
    requires q in role && role[q] == Node(r, 0, (vpn + k) / NPTE) && i == (vpn + k) % NPTE && !Entry(s, q, i).v
    ensures IsTable(s, q)
    ensures var s' := SetPte(s, q, i, perm.(pa := Frame(pa, k), v := true));
            var role' := if vpn + k < TRAPFRAME then role[Frame(pa, k) := Leaf(r, vpn + k)] else role;
            && Inv(s', role') && MappedRange(s0, role0, s', role', r, vpn, k + 1, pa, perm)
            && (vpn + k < TRAPFRAME ==> Frame(pa, k) in role)
  {
    hide LeafPte, NodesOk, LeavesOk, FlagsOk, FreeOk, Entry;
    var e := perm.(pa := Frame(pa, k), v := true);
    LeafSlot(s, role, q, i, vpn + k);
    if vpn + k < TRAPFRAME {
      StillHeld(s0, role0, s, role, r, vpn, k, n, pa, perm);
    }
    MapKeeps(s, role, q, i, e);
    SetLeaf(s, role, q, i, e);
  }

  lemma RootRole(s: Vm, role: map<nat, Role>, r: nat)
    requires Inv(s, role) && r in s.roots
    ensures r != 0 && r in role && role[r] == Node(r, 2, 0)
  {
    assert InTree(2, 0) && NodeAt(s, r, 2, 0) == r;
  }

  /** Following a valid pointer entry leads to the table one level down. */
  lemma StepDown(s: Vm, role: map<nat, Role>, q: nat, i: nat)
    requires Inv(s, role) && q in role && role[q].Node? && role[q].level > 0 && i < NPTE
    ensures IsTable(s, q) && Entry(s, q, i) == s.page[q].pte[i]
    ensures Entry(s, q, i).v ==> Entry(s, q, i).pa in role && role[Entry(s, q, i).pa] == BelowSlot(role[q], i)
  {
    var slot := BelowSlot(role[q], i);
    Digits(slot.prefix, role[q].prefix, i);
    assert NodeAt(s, role[q].root, role[q].level, role[q].prefix) == q;
    if Entry(s, q, i).v {
      assert InTree(slot.level, slot.prefix) && NodeAt(s, slot.root, slot.level, slot.prefix) == Entry(s, q, i).pa;
    }
  }

  lemma NoLow(s: Vm, r: nat, level: nat, va: nat, q: nat)
    requires 0 < level <= 2 && va < MAXVA && InTree(level, Prefix(level, va / PGSIZE))
    requires NodeAt(s, r, level, Prefix(level, va / PGSIZE)) == q && !Entry(s, q, PX(level, va)).v
    ensures Low(s, r, va / PGSIZE / NPTE) == 0
  {
    PrefixDown(1, va);
    PrefixDown(2, va);
    Digits(va / PGSIZE / NPTE, Prefix(1, va / PGSIZE), PX(1, va));
  }

  // ------------------------------------------------------------- the tables walk adds

  /** The tree `r` has one table more, at the given position. */
  ghost predicate OneTable(s0: Vm, s: Vm, r: nat, level: nat, prefix: nat) {
    forall l, x :: InTree(l, x) ==> (NodeAt(s, r, l, x) != 0 <==> NodeAt(s0, r, l, x) != 0 || (l == level && x == prefix))
  }

  lemma LinkOne(s0: Vm, s1: Vm, role1: map<nat, Role>, q: nat, i: nat, p: nat, r: nat)
    requires Inv(s1, role1) && SameMaps(s0, s1) && q in role1 && role1[q].Node? && role1[q].root == r && role1[q].level > 0 && i < NPTE
    requires !Entry(s1, q, i).v && p in role1 && role1[p].Held? && IsTable(s1, q) && p != q && p != 0 && r in s0.roots
    ensures OneTable(s0, Link(s1, q, i, p), r, role1[q].level - 1, role1[q].prefix * NPTE + i)
  {
    hide NodesOk, LeavesOk, FlagsOk, FreeOk, LeafPte, NodeAt, Link, Entry;
    LinkMaps(s1, role1, q, i, p);
  }

  /** Filling a leaf entry changes no table's position. */
  lemma LeafAddsNoTable(s0: Vm, s: Vm, role: map<nat, Role>, r: nat, vpn: nat, q: nat, i: nat, e: Pte)
    requires Inv(s, role) && r in s.roots && q in role && role[q].Node? && role[q].level == 0 && i < NPTE && TablesAt(s0, s, r, vpn)
    ensures IsTable(s, q) && TablesAt(s0, SetPte(s, q, i, e), r, vpn)
  {
    hide NodeAt, LeafPte, LeavesOk, FlagsOk, FreeOk, NodesOk, Prefix;
    SetLeaf(s, role, q, i, e);
  }

  /** From the root down to `level` the tables on the way to `vpn` exist, and nothing else is new. */
  ghost predicate PathTo(s0: Vm, s: Vm, r: nat, vpn: nat, level: nat) {
    forall l: nat, x: nat :: InTree(l, x) ==>
      (NodeAt(s, r, l, x) != 0 <==> NodeAt(s0, r, l, x) != 0 || (l >= level && x == Prefix(l, vpn)))
  }

  /** The tables that were missing from the root down to `level`. */
  ghost function Gap(s: Vm, r: nat, vpn: nat, level: nat): nat
    requires vpn < NVPN
  {
    (if level <= 1 && NodeAt(s, r, 1, vpn / NPTE / NPTE) == 0 then 1 else 0) + (if level == 0 && NodeAt(s, r, 0, vpn / NPTE) == 0 then 1 else 0)
  }

  lemma PathStart(s: Vm, r: nat, vpn: nat)
    requires r != 0 && vpn < NVPN
    ensures PathTo(s, s, r, vpn, 2) && Gap(s, r, vpn, 2) == 0
    ensures Gap(s, r, vpn, 1) <= Gap(s, r, vpn, 0) == Missing(s, r, vpn)
  {
  }

  lemma PathEnd(s0: Vm, s: Vm, r: nat, vpn: nat)
    requires PathTo(s0, s, r, vpn, 0)
    ensures TablesAt(s0, s, r, vpn)
  {
    hide NodeAt;
  }

  /** An entry of a table is valid exactly when the table it would point to exists. */
  lemma EntryIsNode(s: Vm, role: map<nat, Role>, q: nat, i: nat)
    requires Inv(s, role) && q in role && role[q].Node? && role[q].level > 0 && i < NPTE
    ensures var slot := BelowSlot(role[q], i);
            InTree(slot.level, slot.prefix) && (Entry(s, q, i).v <==> NodeAt(s, slot.root, slot.level, slot.prefix) != 0)
  {
    hide LeavesOk, FreeOk;
    var slot := BelowSlot(role[q], i);
    Digits(slot.prefix, role[q].prefix, i);
    assert NodeAt(s, role[q].root, role[q].level, role[q].prefix) == q;
    assert EntryOk(Entry(s, q, i), role[q].level);
  }

  lemma PathThere(s0: Vm, s: Vm, r: nat, vpn: nat, level: nat)
    requires 0 < level <= 2 && vpn < NVPN && PathTo(s0, s, r, vpn, level) && InTree(level - 1, Prefix(level - 1, vpn))
    requires NodeAt(s, r, level - 1, Prefix(level - 1, vpn)) != 0
    ensures PathTo(s0, s, r, vpn, level - 1) && Gap(s0, r, vpn, level - 1) == Gap(s0, r, vpn, level)
  {
    hide NodeAt;
  }

  lemma PathMissing(s0: Vm, s: Vm, r: nat, vpn: nat, level: nat)
    requires 0 < level <= 2 && vpn < NVPN && PathTo(s0, s, r, vpn, level) && InTree(level - 1, Prefix(level - 1, vpn))
    requires NodeAt(s, r, level - 1, Prefix(level - 1, vpn)) == 0
    ensures Gap(s0, r, vpn, level - 1) == Gap(s0, r, vpn, level) + 1
  {
    hide NodeAt;
  }

  lemma PathAdded(s0: Vm, s1: Vm, s2: Vm, r: nat, vpn: nat, level: nat)
    requires 0 < level <= 2 && PathTo(s0, s1, r, vpn, level) && OneTable(s1, s2, r, level - 1, Prefix(level - 1, vpn))
    ensures PathTo(s0, s2, r, vpn, level - 1)
  {
    hide NodeAt;
  }

  lemma SameMapsRefl(s: Vm)
    ensures SameMaps(s, s)
  {
  }

  lemma GrownRefl(s: Vm, role: map<nat, Role>, r: nat)
    requires Inv(s, role)
    ensures Grown(s, role, s, role, r)
  {
  }

  lemma NodeTable(s: Vm, role: map<nat, Role>, q: nat)
    requires Inv(s, role) && q in role && role[q].Node?
    ensures IsTable(s, q) && q != 0 && role[q].root in s.roots && InTree(role[q].level, role[q].prefix)
    ensures NodeAt(s, role[q].root, role[q].level, role[q].prefix) == q
  {
  }

  lemma AddTableGrown(s0: Vm, role0: map<nat, Role>, s1: Vm, s2: Vm, role2: map<nat, Role>, q: nat, i: nat, p: nat, r: nat)
    requires Inv(s0, role0) && p in role0 && role0[p].Free? && q in role0 && role0[q].Node? && role0[q].root == r && role0[q].level > 0 && i < NPTE
    requires SameMaps(s0, s1) && s1.page == s0.page[p := Data(Junk(5))] && s1.roots == s0.roots
    requires role2 == role0[p := BelowSlot(role0[q], i)]
    requires s2.roots == s0.roots && forall x :: x in s0.page && x != p && x != q ==> x in s2.page && s2.page[x] == s0.page[x]
    requires forall t, vpn :: t in s1.roots && 0 <= vpn < NVPN ==> LeafPte(s2, t, vpn) == LeafPte(s1, t, vpn)
    ensures Grown(s0, role0, s2, role2, r)
  {
    hide NodesOk, LeavesOk, FlagsOk, LeafPte, NodeAt;
  }
}
