/**
  Sv39 page tables and physical page frames as values. The three-level tree in memory is read
  off by walking it; the ghost `role` map says what each allocator page is being used for, and
  the invariant ties the two together in both directions.
 */
module VmSpec {
  import opened Common

  const PGSIZE := 4096
  const NPTE := 512
  const NVPN := 0x800_0000     // page numbers of the whole Sv39 tree
  const MAXVPN := 0x400_0000   // MAXVA / PGSIZE
  const TRAPFRAME := MAXVPN - 2  // page number of the trapframe; user memory lies below

  type Bytes = seq<int>

  /** A page-table entry: the frame's address and the flag bits. */
  datatype Pte = Pte(pa: nat, v: bool, r: bool, w: bool, x: bool, u: bool, rest: nat)

  const NONE := Pte(0, false, false, false, false, false, 0)

  /** A word with the bit `b` below the bits of `rest`. */
  function Below(b: bool, rest: nat): nat {
    2 * rest + if b then 1 else 0
  }

  /** The bits of an entry: from bit 0 on PTE_V, PTE_R, PTE_W, PTE_X, PTE_U, five more, and PA2PTE(pa). */
  function Encode(e: Pte): nat {
    Below(e.v, Below(e.r, Below(e.w, Below(e.x, Below(e.u, e.pa / PGSIZE * 32 + e.rest)))))
  }

  /** PTE2PA and the flag tests. */
  function Decode(x: nat): Pte {
    var r, w := x / 2, x / 2 / 2;
    var y := w / 2 / 2 / 2;
    Pte(y / 32 * PGSIZE, x % 2 == 1, r % 2 == 1, w % 2 == 1, w / 2 % 2 == 1, w / 2 / 2 % 2 == 1, y % 32)
  }

  lemma BelowHalves(b: bool, rest: nat)
    ensures Below(b, rest) / 2 == rest && (Below(b, rest) % 2 == 1 <==> b)
  {
  }

  lemma HalvesBelow(x: nat)
    ensures Below(x % 2 == 1, x / 2) == x
  {
  }

  /** An entry for a page-aligned address is what its bits say, and the zero word is NONE. */
  lemma PteRoundTrip(e: Pte)
    requires e.pa % PGSIZE == 0 && e.rest < 32
    ensures Decode(Encode(e)) == e && Decode(0) == NONE
  {
    hide Below;
    var y := e.pa / PGSIZE * 32 + e.rest;
    BelowHalves(e.u, y);
    BelowHalves(e.x, Below(e.u, y));
    BelowHalves(e.w, Below(e.x, Below(e.u, y)));
    BelowHalves(e.r, Below(e.w, Below(e.x, Below(e.u, y))));
    BelowHalves(e.v, Below(e.r, Below(e.w, Below(e.x, Below(e.u, y)))));
  }

  /** Every word is the bits of the entry it is read as. */
  lemma WordRoundTrip(x: nat)
    ensures Encode(Decode(x)) == x
  {
    hide Below;
    HalvesBelow(x);
    HalvesBelow(x / 2);
    HalvesBelow(x / 2 / 2);
    HalvesBelow(x / 2 / 2 / 2);
    HalvesBelow(x / 2 / 2 / 2 / 2);
  }

  /** PA2PTE(pa) | flags, with PTE_V, PTE_R, PTE_W, PTE_X and PTE_U the bits 0 to 4. */
  lemma PteBits(e: Pte)
    ensures Encode(e) == e.pa / 4096 * 1024 + e.rest * 32
                         + (if e.u then 16 else 0) + (if e.x then 8 else 0) + (if e.w then 4 else 0) + (if e.r then 2 else 0) + (if e.v then 1 else 0)
  {
  }

  /** A physical page, by the way it is being read: as a page table or as data. */
  datatype Page = Table(pte: seq<Pte>) | Data(bytes: Bytes)

  datatype Vm = Vm(page: map<nat, Page>, free: seq<nat>, roots: set<nat>)

  /** The one use of an allocator page. `prefix` is the page number's leading digits. */
  datatype Role =
    | Free
    | Node(root: nat, level: nat, prefix: nat)
    | Leaf(root: nat, vpn: nat)
    | Held

  // ---------------------------------------------------------------- walking

  ghost predicate IsTable(s: Vm, p: nat) {
    p in s.page && s.page[p].Table? && |s.page[p].pte| == NPTE
  }

  ghost function Entry(s: Vm, p: nat, i: nat): Pte
    requires i < NPTE
  {
    if IsTable(s, p) then s.page[p].pte[i] else NONE
  }

  /** The page table an entry points to; 0 is none. */
  ghost function Child(s: Vm, p: nat, i: nat): nat
    requires i < NPTE
  {
    if p != 0 && Entry(s, p, i).v then Entry(s, p, i).pa else 0
  }

  /** Level-1 table for the leading digit `a`. */
  ghost function Mid(s: Vm, r: nat, a: nat): nat
    requires a < NPTE
  {
    Child(s, r, a)
  }

  /** Level-0 table for the two leading digits `b`. */
  ghost function Low(s: Vm, r: nat, b: nat): nat
    requires b < NPTE * NPTE
  {
    Child(s, Mid(s, r, b / NPTE), b % NPTE)
  }

  ghost function NodeAt(s: Vm, r: nat, level: nat, prefix: nat): nat
    requires InTree(level, prefix)
  {
    if level == 2 then r else if level == 1 then Mid(s, r, prefix) else Low(s, r, prefix)
  }

  predicate InTree(level: nat, prefix: nat) {
    || (level == 2 && prefix == 0)
    || (level == 1 && prefix < NPTE)
    || (level == 0 && prefix < NPTE * NPTE)
  }

  /** The flat map the tree denotes: the leaf entry of a virtual page, NONE if there is none. */
  ghost function LeafPte(s: Vm, r: nat, vpn: nat): Pte
    requires vpn < NVPN
  {
    if Low(s, r, vpn / NPTE) == 0 then NONE else Entry(s, Low(s, r, vpn / NPTE), vpn % NPTE)
  }

  // -------------------------------------------------------------- invariant

  /** Table pages: where they hang in a tree, and nothing hangs there that is not one. */
  ghost predicate NodesOk(s: Vm, role: map<nat, Role>) {
    && 0 !in s.roots
    && (forall p :: p in role && role[p].Node? ==>
          && p != 0 && IsTable(s, p) && role[p].root in s.roots && InTree(role[p].level, role[p].prefix)
          && NodeAt(s, role[p].root, role[p].level, role[p].prefix) == p)
    && (forall r, level, prefix :: r in s.roots && InTree(level, prefix) && NodeAt(s, r, level, prefix) != 0 ==>
          NodeAt(s, r, level, prefix) in role && role[NodeAt(s, r, level, prefix)] == Node(r, level, prefix))
  }

  /** User frames: each is mapped at exactly one user page of one tree. */
  ghost predicate LeavesOk(s: Vm, role: map<nat, Role>) {
    && (forall p :: p in role && role[p].Leaf? ==>
          && p != 0 && role[p].root in s.roots && role[p].vpn < TRAPFRAME
          && LeafPte(s, role[p].root, role[p].vpn).v && LeafPte(s, role[p].root, role[p].vpn).pa == p
          && p in s.page && s.page[p].Data? && |s.page[p].bytes| == PGSIZE)
    && (forall r, vpn :: r in s.roots && 0 <= vpn < TRAPFRAME && LeafPte(s, r, vpn).v ==>
          LeafPte(s, r, vpn).pa in role && role[LeafPte(s, r, vpn).pa] == Leaf(r, vpn))
  }

  predicate IsLeafFlags(e: Pte) {
    e.r || e.w || e.x
  }

  /** Pointers carry no permission, leaves carry some (freewalk tells them apart by that), and
      an entry that is not valid is zero. */
  ghost predicate FlagsOk(s: Vm, role: map<nat, Role>) {
    forall p, i :: p in role && role[p].Node? && 0 <= i < NPTE ==> EntryOk(Entry(s, p, i), role[p].level)
  }

  predicate EntryOk(e: Pte, level: nat) {
    if !e.v then e == NONE else if level == 0 then IsLeafFlags(e) else !IsLeafFlags(e) && e.pa != 0
  }

  /** The free list holds every free page once. */
  ghost predicate FreeOk(s: Vm, role: map<nat, Role>) {
    && Distinct(s.free)
    && (forall p :: p in s.free <==> p in role && role[p].Free?)
    && (forall p :: p in role ==> p != 0 && p in s.page)
  }

  ghost predicate Inv(s: Vm, role: map<nat, Role>) {
    NodesOk(s, role) && LeavesOk(s, role) && FlagsOk(s, role) && FreeOk(s, role)
  }

  // ------------------------------------------------------------ what changes

  /** Both states have the same table pages, so they denote the same trees. */
  ghost predicate SameTables(s: Vm, s': Vm, role: map<nat, Role>) {
    s'.roots == s.roots && forall p :: p in role && role[p].Node? ==> p in s.page && p in s'.page && s'.page[p] == s.page[p]
  }

  /** The flat maps and the table positions of the two states agree. */
  ghost predicate SameMaps(s: Vm, s': Vm) {
    && s'.roots == s.roots
    && (forall r, level, prefix :: r in s.roots && InTree(level, prefix) ==> NodeAt(s', r, level, prefix) == NodeAt(s, r, level, prefix))
    && (forall r, vpn :: r in s.roots && 0 <= vpn < NVPN ==> LeafPte(s', r, vpn) == LeafPte(s, r, vpn))
  }

  lemma TablesGiveMaps(s: Vm, s': Vm, role: map<nat, Role>)
    requires NodesOk(s, role) && SameTables(s, s', role)
    ensures SameMaps(s, s')
  {
    forall r, a | r in s.roots && 0 <= a < NPTE ensures Mid(s', r, a) == Mid(s, r, a) {
      assert InTree(2, 0) && NodeAt(s, r, 2, 0) == r;
    }
    forall r, b | r in s.roots && 0 <= b < NPTE * NPTE ensures Low(s', r, b) == Low(s, r, b) {
      assert InTree(1, b / NPTE) && NodeAt(s, r, 1, b / NPTE) == Mid(s, r, b / NPTE);
    }
    forall r, vpn | r in s.roots && 0 <= vpn < NVPN ensures LeafPte(s', r, vpn) == LeafPte(s, r, vpn) {
      assert InTree(0, vpn / NPTE) && NodeAt(s, r, 0, vpn / NPTE) == Low(s, r, vpn / NPTE);
    }
  }

  ghost function SetPte(s: Vm, q: nat, i: nat, e: Pte): Vm
    requires IsTable(s, q) && i < NPTE
  {
    s.(page := s.page[q := Table(s.page[q].pte[i := e])])
  }

  lemma SetPteEntry(s: Vm, q: nat, i: nat, e: Pte, p: nat, j: nat)
    requires IsTable(s, q) && i < NPTE && j < NPTE
    ensures Entry(SetPte(s, q, i, e), p, j) == if p == q && j == i then e else Entry(s, p, j)
    ensures IsTable(SetPte(s, q, i, e), p) <==> IsTable(s, p)
  {
  }

  /** Digits of a page number. */
  lemma Digits(x: nat, hi: nat, lo: nat)
    requires lo < NPTE
    ensures x == hi * NPTE + lo <==> x / NPTE == hi && x % NPTE == lo
  {
  }

  /** Writing a level-0 entry changes the flat map at one page and no table's position. */
  lemma SetLeaf(s: Vm, role: map<nat, Role>, q: nat, i: nat, e: Pte)
    requires NodesOk(s, role) && q in role && role[q].Node? && role[q].level == 0 && i < NPTE
    ensures IsTable(s, q)
    ensures var s' := SetPte(s, q, i, e);
            var vpn0 := role[q].prefix * NPTE + i;
            && vpn0 < NVPN
            && (forall r, level, prefix :: r in s.roots && InTree(level, prefix) ==> NodeAt(s', r, level, prefix) == NodeAt(s, r, level, prefix))
            && (forall r, vpn :: r in s.roots && 0 <= vpn < NVPN ==>
                  LeafPte(s', r, vpn) == if r == role[q].root && vpn == vpn0 then e else LeafPte(s, r, vpn))
  {
    var s' := SetPte(s, q, i, e);
    var r0, b0 := role[q].root, role[q].prefix;
    forall r, a | r in s.roots && 0 <= a < NPTE ensures Mid(s', r, a) == Mid(s, r, a) {
      assert InTree(2, 0) && NodeAt(s, r, 2, 0) == r;
    }
    forall r, b | r in s.roots && 0 <= b < NPTE * NPTE ensures Low(s', r, b) == Low(s, r, b) {
      assert InTree(1, b / NPTE) && NodeAt(s, r, 1, b / NPTE) == Mid(s, r, b / NPTE);
    }
    forall r, vpn | r in s.roots && 0 <= vpn < NVPN
      ensures LeafPte(s', r, vpn) == if r == r0 && vpn == b0 * NPTE + i then e else LeafPte(s, r, vpn)
    {
      assert InTree(0, vpn / NPTE) && NodeAt(s, r, 0, vpn / NPTE) == Low(s, r, vpn / NPTE);
      assert NodeAt(s, r0, 0, b0) == q;
      Digits(vpn, b0, i);
    }
  }

  /** A table all of whose entries are empty. */
  function ZeroTable(): (t: seq<Pte>)
    ensures |t| == NPTE && forall i :: 0 <= i < NPTE ==> t[i] == NONE
  {
    seq(NPTE, _ => NONE)
  }

  function Pointer(p: nat): Pte {
    Pte(p, true, false, false, false, false, 0)
  }

  /** walk's allocation: page `p`, cleared, hung into entry `i` of table `q`. */
  ghost function Link(s: Vm, q: nat, i: nat, p: nat): Vm
    requires IsTable(s, q) && i < NPTE && p != q
  {
    SetPte(s.(page := s.page[p := Table(ZeroTable())]), q, i, Pointer(p))
  }

  /** Hanging a new table in adds that one table and changes no leaf. */
  lemma LinkMaps(s: Vm, role: map<nat, Role>, q: nat, i: nat, p: nat)
    requires NodesOk(s, role) && q in role && role[q].Node? && role[q].level > 0 && i < NPTE
    requires !Entry(s, q, i).v && p != 0 && p in role && role[p].Held?
    ensures IsTable(s, q) && p != q && InTree(role[q].level - 1, role[q].prefix * NPTE + i)
    ensures var s' := Link(s, q, i, p);
            var slot := Node(role[q].root, role[q].level - 1, role[q].prefix * NPTE + i);
            && (forall r, level, prefix :: r in s.roots && InTree(level, prefix) ==>
                  NodeAt(s', r, level, prefix) == if Node(r, level, prefix) == slot then p else NodeAt(s, r, level, prefix))
            && NodeAt(s, slot.root, slot.level, slot.prefix) == 0
            && (forall r, vpn :: r in s.roots && 0 <= vpn < NVPN ==> LeafPte(s', r, vpn) == LeafPte(s, r, vpn))
  {
    if role[q].level == 2 {
      LinkMid(s, role, q, i, p);
    } else {
      LinkLow(s, role, q, i, p);
    }
  }

  lemma LinkEntry(s: Vm, q: nat, i: nat, p: nat, x: nat, j: nat)
    requires IsTable(s, q) && i < NPTE && p != q && j < NPTE
    ensures Entry(Link(s, q, i, p), x, j) == if x == q && j == i then Pointer(p) else if x == p then NONE else Entry(s, x, j)
  {
  }

  lemma LinkMid(s: Vm, role: map<nat, Role>, q: nat, i: nat, p: nat)
    requires NodesOk(s, role) && q in role && role[q].Node? && role[q].level == 2 && i < NPTE
    requires !Entry(s, q, i).v && p != 0 && p in role && role[p].Held?
    ensures IsTable(s, q) && p != q && role[q].prefix == 0
    ensures var s' := Link(s, q, i, p);
            && (forall r, level, prefix :: r in s.roots && InTree(level, prefix) ==>
                  NodeAt(s', r, level, prefix) == if r == role[q].root && level == 1 && prefix == i then p else NodeAt(s, r, level, prefix))
            && NodeAt(s, role[q].root, 1, i) == 0
            && (forall r, vpn :: r in s.roots && 0 <= vpn < NVPN ==> LeafPte(s', r, vpn) == LeafPte(s, r, vpn))
  {
    var s' := Link(s, q, i, p);
    var r0 := role[q].root;
    assert NodeAt(s, r0, 2, 0) == q == r0;
    forall r, a | r in s.roots && 0 <= a < NPTE ensures Mid(s', r, a) == if r == r0 && a == i then p else Mid(s, r, a) {
      assert InTree(2, 0) && NodeAt(s, r, 2, 0) == r;
      LinkEntry(s, q, i, p, r, a);
    }
    forall r, b | r in s.roots && 0 <= b < NPTE * NPTE ensures Low(s', r, b) == Low(s, r, b) {
      assert InTree(1, b / NPTE) && NodeAt(s, r, 1, b / NPTE) == Mid(s, r, b / NPTE);
      LinkEntry(s, q, i, p, Mid(s', r, b / NPTE), b % NPTE);
    }
    forall r, vpn | r in s.roots && 0 <= vpn < NVPN ensures LeafPte(s', r, vpn) == LeafPte(s, r, vpn) {
      assert InTree(0, vpn / NPTE) && NodeAt(s, r, 0, vpn / NPTE) == Low(s, r, vpn / NPTE);
      LinkEntry(s, q, i, p, Low(s, r, vpn / NPTE), vpn % NPTE);
    }
  }

  lemma LinkLow(s: Vm, role: map<nat, Role>, q: nat, i: nat, p: nat)
    requires NodesOk(s, role) && q in role && role[q].Node? && role[q].level == 1 && i < NPTE
    requires !Entry(s, q, i).v && p != 0 && p in role && role[p].Held?
    ensures IsTable(s, q) && p != q && role[q].prefix < NPTE
    ensures var s' := Link(s, q, i, p);
            var b0 := role[q].prefix * NPTE + i;
            && (forall r, level, prefix :: r in s.roots && InTree(level, prefix) ==>
                  NodeAt(s', r, level, prefix) == if r == role[q].root && level == 0 && prefix == b0 then p else NodeAt(s, r, level, prefix))
            && NodeAt(s, role[q].root, 0, b0) == 0
            && (forall r, vpn :: r in s.roots && 0 <= vpn < NVPN ==> LeafPte(s', r, vpn) == LeafPte(s, r, vpn))
  {
    var s' := Link(s, q, i, p);
    var r0, a0 := role[q].root, role[q].prefix;
    var b0 := a0 * NPTE + i;
    assert NodeAt(s, r0, 1, a0) == q;
    forall r, a | r in s.roots && 0 <= a < NPTE ensures Mid(s', r, a) == Mid(s, r, a) {
      assert InTree(2, 0) && NodeAt(s, r, 2, 0) == r;
      LinkEntry(s, q, i, p, r, a);
    }
    Digits(b0, a0, i);
    forall r, b | r in s.roots && 0 <= b < NPTE * NPTE ensures Low(s', r, b) == if r == r0 && b == b0 then p else Low(s, r, b) {
      assert InTree(1, b / NPTE) && NodeAt(s, r, 1, b / NPTE) == Mid(s, r, b / NPTE);
      Digits(b, a0, i);
      LinkEntry(s, q, i, p, Mid(s, r, b / NPTE), b % NPTE);
    }
    forall r, vpn | r in s.roots && 0 <= vpn < NVPN ensures LeafPte(s', r, vpn) == LeafPte(s, r, vpn) {
      assert InTree(0, vpn / NPTE) && NodeAt(s, r, 0, vpn / NPTE) == Low(s, r, vpn / NPTE);
      LinkEntry(s, q, i, p, Low(s', r, vpn / NPTE), vpn % NPTE);
    }
  }

  // ------------------------------------------- every operation keeps the invariant

  /** The role walk gives a new table below `q`. */
  function BelowSlot(up: Role, i: nat): Role
    requires up.Node? && up.level > 0
  {
    Node(up.root, up.level - 1, up.prefix * NPTE + i)
  }

  lemma LinkKeeps(s: Vm, role: map<nat, Role>, q: nat, i: nat, p: nat)
    requires Inv(s, role) && q in role && role[q].Node? && role[q].level > 0 && i < NPTE
    requires !Entry(s, q, i).v && p in role && role[p].Held?
    ensures IsTable(s, q) && p != q && p != 0
    ensures Inv(Link(s, q, i, p), role[p := BelowSlot(role[q], i)])
    ensures forall r, vpn :: r in s.roots && 0 <= vpn < NVPN ==> LeafPte(Link(s, q, i, p), r, vpn) == LeafPte(s, r, vpn)
  {
    hide NodesOk, LeavesOk, FlagsOk, LeafPte, NodeAt;
    TableIsTable(s, role, q);
    LinkMaps(s, role, q, i, p);
    LinkNodes(s, role, q, i, p);
    LinkLeaves(s, role, q, i, p);
    LinkFlags(s, role, q, i, p);
  }

  lemma LinkFlags(s: Vm, role: map<nat, Role>, q: nat, i: nat, p: nat)
    requires FlagsOk(s, role) && IsTable(s, q) && q in role && role[q].Node? && role[q].level > 0 && i < NPTE && p != 0 && p != q
    requires p in role && role[p].Held?
    ensures FlagsOk(Link(s, q, i, p), role[p := BelowSlot(role[q], i)])
  {
    hide Entry, Link;
    var s', role' := Link(s, q, i, p), role[p := BelowSlot(role[q], i)];
    forall x, j | x in role' && role'[x].Node? && 0 <= j < NPTE ensures EntryOk(Entry(s', x, j), role'[x].level)
    {
      LinkEntry(s, q, i, p, x, j);
    }
  }

  lemma LinkNodes(s: Vm, role: map<nat, Role>, q: nat, i: nat, p: nat)
    requires NodesOk(s, role) && q in role && role[q].Node? && role[q].level > 0 && i < NPTE
    requires !Entry(s, q, i).v && p != 0 && p in role && role[p].Held?
    ensures IsTable(s, q) && p != q
    ensures NodesOk(Link(s, q, i, p), role[p := BelowSlot(role[q], i)])
  {
    hide NodeAt, Entry, LeafPte, Link;
    LinkMaps(s, role, q, i, p);
    var s', role' := Link(s, q, i, p), role[p := BelowSlot(role[q], i)];
    forall x | x in role' && role'[x].Node?
      ensures IsTable(s', x) && role'[x].root in s'.roots
    {
      LinkTables(s, q, i, p, x);
    }
    assert s'.roots == s.roots by { LinkTables(s, q, i, p, q); }
  }

  lemma LinkTables(s: Vm, q: nat, i: nat, p: nat, x: nat)
    requires IsTable(s, q) && i < NPTE && p != q
    ensures Link(s, q, i, p).roots == s.roots
    ensures IsTable(Link(s, q, i, p), x) <==> x == p || IsTable(s, x)
  {
  }

  lemma LinkLeaves(s: Vm, role: map<nat, Role>, q: nat, i: nat, p: nat)
    requires NodesOk(s, role) && LeavesOk(s, role) && q in role && role[q].Node? && role[q].level > 0 && i < NPTE
    requires !Entry(s, q, i).v && p != 0 && p in role && role[p].Held?
    ensures IsTable(s, q) && p != q
    ensures LeavesOk(Link(s, q, i, p), role[p := BelowSlot(role[q], i)])
  {
    LinkMaps(s, role, q, i, p);
    hide NodeAt, Entry, LeafPte, NodesOk;
  }

  /** Replacing an invalid level-0 entry by a leaf for a held frame (or for a page above user memory). */
  lemma MapKeeps(s: Vm, role: map<nat, Role>, q: nat, i: nat, e: Pte)
    requires Inv(s, role) && q in role && role[q].Node? && role[q].level == 0 && i < NPTE
    requires !Entry(s, q, i).v && e.v && IsLeafFlags(e)
    requires role[q].prefix * NPTE + i < TRAPFRAME ==>
               e.pa in role && role[e.pa].Held? && s.page[e.pa].Data? && |s.page[e.pa].bytes| == PGSIZE
    ensures IsTable(s, q)
    ensures var vpn := role[q].prefix * NPTE + i;
            Inv(SetPte(s, q, i, e), if vpn < TRAPFRAME then role[e.pa := Leaf(role[q].root, vpn)] else role)
  {
    hide LeavesOk, NodeAt, LeafPte, FlagsOk;
    TableIsTable(s, role, q);
    var s' := SetPte(s, q, i, e);
    var vpn := role[q].prefix * NPTE + i;
    var role' := if vpn < TRAPFRAME then role[e.pa := Leaf(role[q].root, vpn)] else role;
    SetLeaf(s, role, q, i, e);
    LeafEntryIsFlat(s, role, q, i);
    SetLeafNodes(s, role, role', q, i, e);
    MapLeaves(s, role, s', role', role[q].root, vpn, e, q);
    SetLeafFlags(s, role, role', q, i, e);
  }

  /** Clearing a level-0 entry; a user frame behind it is held again. */
  lemma UnmapKeeps(s: Vm, role: map<nat, Role>, q: nat, i: nat)
    requires Inv(s, role) && q in role && role[q].Node? && role[q].level == 0 && i < NPTE && Entry(s, q, i).v
    ensures IsTable(s, q)
    ensures var vpn := role[q].prefix * NPTE + i;
            && (vpn < TRAPFRAME ==> Entry(s, q, i).pa in role && role[Entry(s, q, i).pa] == Leaf(role[q].root, vpn))
            && Inv(SetPte(s, q, i, NONE), if vpn < TRAPFRAME then role[Entry(s, q, i).pa := Held] else role)
  {
    hide LeavesOk, NodeAt, LeafPte, FlagsOk;
    TableIsTable(s, role, q);
    var s' := SetPte(s, q, i, NONE);
    var vpn := role[q].prefix * NPTE + i;
    SetLeaf(s, role, q, i, NONE);
    LeafEntryIsFlat(s, role, q, i);
    UserLeaf(s, role, role[q].root, vpn);
    var role' := if vpn < TRAPFRAME then role[Entry(s, q, i).pa := Held] else role;
    SetLeafNodes(s, role, role', q, i, NONE);
    UnmapLeaves(s, role, s', role', role[q].root, vpn, q);
    SetLeafFlags(s, role, role', q, i, NONE);
  }

  lemma TableIsTable(s: Vm, role: map<nat, Role>, q: nat)
    requires NodesOk(s, role) && q in role && role[q].Node?
    ensures IsTable(s, q)
  {
  }

  lemma UserLeaf(s: Vm, role: map<nat, Role>, r: nat, vpn: nat)
    requires LeavesOk(s, role) && r in s.roots && vpn < NVPN && LeafPte(s, r, vpn).v
    ensures vpn < TRAPFRAME ==> LeafPte(s, r, vpn).pa in role && role[LeafPte(s, r, vpn).pa] == Leaf(r, vpn)
  {
  }

  lemma MapLeaves(s: Vm, role: map<nat, Role>, s': Vm, role': map<nat, Role>, r: nat, vpn: nat, e: Pte, q: nat)
    requires LeavesOk(s, role) && r in s.roots && s'.roots == s.roots && vpn < NVPN && !LeafPte(s, r, vpn).v && e.v
    requires q in role && role[q].Node? && forall x :: x in s.page && x != q ==> x in s'.page && s'.page[x] == s.page[x]
    requires forall t, v :: t in s.roots && 0 <= v < NVPN ==>
               LeafPte(s', t, v) == if t == r && v == vpn then e else LeafPte(s, t, v)
    requires role' == if vpn < TRAPFRAME then role[e.pa := Leaf(r, vpn)] else role
    requires vpn < TRAPFRAME ==>
               e.pa != 0 && e.pa in role && role[e.pa].Held? && e.pa in s.page && s.page[e.pa].Data? && |s.page[e.pa].bytes| == PGSIZE
    ensures LeavesOk(s', role')
  {
    hide LeafPte;
  }

  lemma UnmapLeaves(s: Vm, role: map<nat, Role>, s': Vm, role': map<nat, Role>, r: nat, vpn: nat, q: nat)
    requires LeavesOk(s, role) && r in s.roots && s'.roots == s.roots && vpn < NVPN && LeafPte(s, r, vpn).v
    requires q in role && role[q].Node? && forall x :: x in s.page && x != q ==> x in s'.page && s'.page[x] == s.page[x]
    requires forall t, v :: t in s.roots && 0 <= v < NVPN ==>
               LeafPte(s', t, v) == if t == r && v == vpn then NONE else LeafPte(s, t, v)
    requires role' == if vpn < TRAPFRAME then role[LeafPte(s, r, vpn).pa := Held] else role
    ensures LeavesOk(s', role')
  {
    hide LeafPte;
  }

  /** A level-0 entry is the flat map's entry for its page. */
  lemma LeafEntryIsFlat(s: Vm, role: map<nat, Role>, q: nat, i: nat)
    requires NodesOk(s, role) && q in role && role[q].Node? && role[q].level == 0 && i < NPTE
    ensures role[q].root in s.roots && role[q].prefix * NPTE + i < NVPN
    ensures LeafPte(s, role[q].root, role[q].prefix * NPTE + i) == Entry(s, q, i)
  {
    Digits(role[q].prefix * NPTE + i, role[q].prefix, i);
    assert NodeAt(s, role[q].root, 0, role[q].prefix) == q;
  }

  /** Changing what the non-table pages are used for, and a leaf entry, moves no table. */
  lemma SetLeafNodes(s: Vm, role: map<nat, Role>, role': map<nat, Role>, q: nat, i: nat, e: Pte)
    requires NodesOk(s, role) && q in role && role[q].Node? && role[q].level == 0 && i < NPTE
    requires role'.Keys == role.Keys && forall x :: x in role && (role[x].Node? || role'[x].Node?) ==> role'[x] == role[x]
    ensures IsTable(s, q) && NodesOk(SetPte(s, q, i, e), role')
  {
    SetLeaf(s, role, q, i, e);
    hide NodeAt, LeafPte;
    var s' := SetPte(s, q, i, e);
    forall x | x in role' && role'[x].Node? ensures IsTable(s', x) {
      SetPteEntry(s, q, i, e, x, 0);
    }
  }

  lemma SetLeafFlags(s: Vm, role: map<nat, Role>, role': map<nat, Role>, q: nat, i: nat, e: Pte)
    requires FlagsOk(s, role) && IsTable(s, q) && q in role && role[q].Node? && role[q].level == 0 && i < NPTE
    requires EntryOk(e, 0)
    requires role'.Keys == role.Keys && forall x :: x in role && (role[x].Node? || role'[x].Node?) ==> role'[x] == role[x]
    ensures FlagsOk(SetPte(s, q, i, e), role')
  {
    var s' := SetPte(s, q, i, e);
    forall x, j | x in role' && role'[x].Node? && 0 <= j < NPTE ensures EntryOk(Entry(s', x, j), role'[x].level)
    {
      SetPteEntry(s, q, i, e, x, j);
    }
  }

  /** kalloc: the first free page is taken and filled with junk. */
  lemma TakeKeeps(s: Vm, role: map<nat, Role>, junk: Page)
    requires Inv(s, role) && s.free != []
    ensures s.free[0] in role && role[s.free[0]].Free?
    ensures Inv(Vm(s.page[s.free[0] := junk], s.free[1..], s.roots), role[s.free[0] := Held])
    ensures SameMaps(s, Vm(s.page[s.free[0] := junk], s.free[1..], s.roots))
  {
    var p := s.free[0];
    var s', role' := Vm(s.page[p := junk], s.free[1..], s.roots), role[p := Held];
    TablesGiveMaps(s, s', role);
    OffTree(s, s', role, role');
    assert FreeOk(s', role') by {
      forall x ensures x in s'.free <==> x in role' && role'[x].Free? {
        assert s.free == [p] + s.free[1..];
      }
    }
  }

  /** kfree: a held page goes to the front of the free list. */
  lemma GiveKeeps(s: Vm, role: map<nat, Role>, p: nat, junk: Page)
    requires Inv(s, role) && p in role && role[p].Held?
    ensures Inv(Vm(s.page[p := junk], [p] + s.free, s.roots), role[p := Free])
    ensures SameMaps(s, Vm(s.page[p := junk], [p] + s.free, s.roots))
  {
    var s', role' := Vm(s.page[p := junk], [p] + s.free, s.roots), role[p := Free];
    TablesGiveMaps(s, s', role);
    OffTree(s, s', role, role');
  }

  lemma SameFlags(s: Vm, s': Vm, role: map<nat, Role>, role': map<nat, Role>)
    requires FlagsOk(s, role) && SameTables(s, s', role) && role'.Keys == role.Keys
    requires forall x :: x in role && role'[x].Node? ==> role'[x] == role[x]
    ensures FlagsOk(s', role')
  {
    forall p, i | p in role' && role'[p].Node? && 0 <= i < NPTE ensures Entry(s', p, i) == Entry(s, p, i) {
    }
  }

  /** Changes to pages that are neither tables nor user frames. */
  lemma OffTree(s: Vm, s': Vm, role: map<nat, Role>, role': map<nat, Role>)
    requires NodesOk(s, role) && LeavesOk(s, role) && FlagsOk(s, role) && SameMaps(s, s') && SameTables(s, s', role)
    requires forall p :: p in role && role[p].Leaf? ==> p in s'.page && s'.page[p] == s.page[p]
    requires role'.Keys == role.Keys
    requires forall x :: x in role && (role[x].Node? || role[x].Leaf? || role'[x].Node? || role'[x].Leaf?) ==> role'[x] == role[x]
    ensures NodesOk(s', role') && LeavesOk(s', role') && FlagsOk(s', role')
  {
    hide NodeAt, LeafPte, Entry;
    SameFlags(s, s', role, role');
  }

  /** New contents for data pages: the trees and the uses stay. */
  lemma DataKeeps(s: Vm, role: map<nat, Role>, p: nat, bytes: Bytes)
    requires Inv(s, role) && p in role && (role[p].Leaf? || role[p].Held?) && |bytes| == PGSIZE
    ensures Inv(s.(page := s.page[p := Data(bytes)]), role)
    ensures SameMaps(s, s.(page := s.page[p := Data(bytes)]))
  {
    var s' := s.(page := s.page[p := Data(bytes)]);
    TablesGiveMaps(s, s', role);
    hide NodeAt, LeafPte, Entry;
    SameFlags(s, s', role, role);
  }
}
