/**
  The life of an address space: created empty with its two kernel pages, and torn down so that
  every page of its tree and every frame it mapped is free again.
 */
module AddressSpace {
  import opened VmSpec
  import opened FrameCost
  import opened PageTable
  import opened UserVm
  import U = UserCopy

  // --------------------------------------------------------- a tree comes and goes

  /** uvmcreate's effect: a cleared held page becomes the root of a new tree. */
  lemma AttachRoot(s: Vm, role: map<nat, Role>, p: nat)
    requires Inv(s, role) && p in role && role[p].Held? && IsTable(s, p) && forall i :: 0 <= i < NPTE ==> Entry(s, p, i) == NONE
    ensures Inv(s.(roots := s.roots + {p}), role[p := Node(p, 2, 0)])
    ensures forall vpn :: 0 <= vpn < NVPN ==> !LeafPte(s, p, vpn).v
    ensures p !in s.roots
  {
    hide LeavesOk, FlagsOk, NodesOk;
    var s', role' := s.(roots := s.roots + {p}), role[p := Node(p, 2, 0)];
    AttachNodes(s, role, p);
    AttachLeaves(s, role, p);
    AttachFlags(s, role, p);
  }

  lemma AttachNodes(s: Vm, role: map<nat, Role>, p: nat)
    requires NodesOk(s, role) && p != 0 && p in role && role[p].Held? && IsTable(s, p) && forall i :: 0 <= i < NPTE ==> Entry(s, p, i) == NONE
    ensures NodesOk(s.(roots := s.roots + {p}), role[p := Node(p, 2, 0)])
    ensures p !in s.roots
  {
    var s', role' := s.(roots := s.roots + {p}), role[p := Node(p, 2, 0)];
    assert InTree(2, 0) && NodeAt(s, p, 2, 0) == p;
    RootsOnly(s, s');
    hide NodeAt;
    forall level, prefix | InTree(level, prefix) ensures NodeAt(s, p, level, prefix) == if level == 2 then p else 0 {
      NothingBelow(s, p, level, prefix);
    }
  }

  lemma NothingBelow(s: Vm, p: nat, level: nat, prefix: nat)
    requires p != 0 && InTree(level, prefix) && forall i :: 0 <= i < NPTE ==> Entry(s, p, i) == NONE
    ensures NodeAt(s, p, level, prefix) == if level == 2 then p else 0
  {
    assert level == 0 ==> Mid(s, p, prefix / NPTE) == 0;
  }

  /** Walking does not look at the set of live trees. */
  lemma RootsOnly(s: Vm, s': Vm)
    requires s'.page == s.page
    ensures forall r, level, prefix :: InTree(level, prefix) ==> NodeAt(s', r, level, prefix) == NodeAt(s, r, level, prefix)
    ensures forall r, vpn :: 0 <= vpn < NVPN ==> LeafPte(s', r, vpn) == LeafPte(s, r, vpn)
    ensures forall p, i :: 0 <= i < NPTE ==> Entry(s', p, i) == Entry(s, p, i)
  {
  }

  lemma AttachLeaves(s: Vm, role: map<nat, Role>, p: nat)
    requires LeavesOk(s, role) && p != 0 && p in role && role[p].Held? && forall i :: 0 <= i < NPTE ==> Entry(s, p, i) == NONE
    ensures LeavesOk(s.(roots := s.roots + {p}), role[p := Node(p, 2, 0)])
    ensures forall vpn :: 0 <= vpn < NVPN ==> !LeafPte(s, p, vpn).v
  {
    hide LeafPte, Entry;
    var s' := s.(roots := s.roots + {p});
    RootsOnly(s, s');
    forall vpn | 0 <= vpn < NVPN ensures !LeafPte(s, p, vpn).v {
      NoLeafBelow(s, p, vpn);
    }
  }

  lemma NoLeafBelow(s: Vm, p: nat, vpn: nat)
    requires p != 0 && vpn < NVPN && forall i :: 0 <= i < NPTE ==> Entry(s, p, i) == NONE
    ensures !LeafPte(s, p, vpn).v
  {
    NothingBelow(s, p, 0, vpn / NPTE);
  }

  lemma AttachFlags(s: Vm, role: map<nat, Role>, p: nat)
    requires FlagsOk(s, role) && p in role && forall i :: 0 <= i < NPTE ==> Entry(s, p, i) == NONE
    ensures FlagsOk(s.(roots := s.roots + {p}), role[p := Node(p, 2, 0)])
  {
    RootsOnly(s, s.(roots := s.roots + {p}));
    hide Entry;
  }

  /** The tree `r` is given up: its tables are merely held from now on. */
  ghost function Dropped(role: map<nat, Role>, r: nat): map<nat, Role> {
    map x | x in role :: if role[x].Node? && role[x].root == r then Held else role[x]
  }

  ghost predicate NoLeaves(s: Vm, r: nat) {
    forall vpn :: 0 <= vpn < NVPN ==> !LeafPte(s, r, vpn).v
  }

  lemma DetachRoot(s: Vm, role: map<nat, Role>, r: nat)
    requires Inv(s, role) && r in s.roots && NoLeaves(s, r)
    ensures Inv(s.(roots := s.roots - {r}), Dropped(role, r))
  {
    hide NodeAt, LeafPte, Entry;
    RootsOnly(s, s.(roots := s.roots - {r}));
  }

  /** New contents for a held page. */
  lemma HeldKeeps(s: Vm, role: map<nat, Role>, p: nat, page: Page)
    requires Inv(s, role) && p in role && role[p].Held?
    ensures Inv(s.(page := s.page[p := page]), role) && SameMaps(s, s.(page := s.page[p := page]))
  {
    hide NodeAt, LeafPte, Entry;
    var s' := s.(page := s.page[p := page]);
    TablesGiveMaps(s, s', role);
    OffTree(s, s', role, role);
  }

  // ------------------------------------------------------------------- freewalk

  /** Dropping `d` digits from the end of a prefix. */
  function Lift(x: nat, d: nat): nat {
    if d == 0 then x else if d == 1 then x / NPTE else x / NPTE / NPTE
  }

  /** The table lies in the subtree of `r` at (level, prefix). */
  predicate Under(role: Role, r: nat, level: nat, prefix: nat) {
    role.Node? && role.root == r && role.level <= level && Lift(role.prefix, level - role.level) == prefix
  }

  /** The subtree of child `i` is the part of the subtree that lies below branch `i`. */
  lemma UnderSplit(role: Role, r: nat, level: nat, prefix: nat, i: nat)
    requires role.Node? && InTree(role.level, role.prefix) && InTree(level, prefix) && 0 < level && i < NPTE
    ensures Under(role, r, level - 1, prefix * NPTE + i) <==>
              Under(role, r, level, prefix) && role.level < level && Branch(role, level) == i
  {
    if role.level < level {
      var b := Lift(role.prefix, level - 1 - role.level);
      assert Lift(role.prefix, level - role.level) == b / NPTE;
      Digits(b, prefix, i);
    }
  }

  /** Which child of a level-`level` table the table `role` lies below. */
  function Branch(role: Role, level: nat): nat {
    if role.Node? && role.level < level then Lift(role.prefix, level - 1 - role.level) % NPTE else 0
  }

  /** The tables of the tree as it was when it was given up. */
  ghost predicate OldTree(s0: Vm, was: map<nat, Role>, r: nat) {
    Inv(s0, was) && r in s0.roots && NoLeaves(s0, r)
  }

  /** Children below an entry that is not valid do not exist. */
  lemma NoChild(s0: Vm, was: map<nat, Role>, r: nat, q: nat, i: nat, x: nat)
    requires NodesOk(s0, was) && q in was && was[q].Node? && was[q].root == r && was[q].level > 0 && i < NPTE && !Entry(s0, q, i).v
    requires x in was && was[x].Node?
    ensures !Under(was[x], r, was[q].level - 1, was[q].prefix * NPTE + i)
  {
    var level, prefix := was[q].level, was[q].prefix;
    assert NodeAt(s0, r, level, prefix) == q;
    Digits(prefix * NPTE + i, prefix, i);
    assert was[x].root == r ==> NodeAt(s0, r, was[x].level, was[x].prefix) == x;
  }

  /** A page of the given-up tree, still untouched. */
  ghost predicate Untouched(s0: Vm, s: Vm, role: map<nat, Role>, x: nat) {
    x in role && role[x].Held? && x in s.page && x in s0.page && s.page[x] == s0.page[x]
  }

  /** Everything below (level, prefix) in the old tree is untouched. */
  ghost predicate Standing(s0: Vm, was: map<nat, Role>, s: Vm, role: map<nat, Role>, r: nat, level: nat, prefix: nat) {
    role.Keys == was.Keys && forall x :: x in was && Under(was[x], r, level, prefix) ==> Untouched(s0, s, role, x)
  }

  /** Everything below (level, prefix) is free; every other page is as it was. */
  ghost predicate Felled(was: map<nat, Role>, s1: Vm, role1: map<nat, Role>, s: Vm, role: map<nat, Role>, r: nat, level: nat, prefix: nat) {
    && role.Keys == role1.Keys == was.Keys
    && (forall x :: x in was ==> role[x] == if Under(was[x], r, level, prefix) then Free else role1[x])
    && (forall x :: x in was && !Under(was[x], r, level, prefix) ==> x in s.page && x in s1.page && s.page[x] == s1.page[x])
  }

  /** While the children of `q` are being freed: those before entry `i` are gone. */
  ghost predicate HalfFelled(was: map<nat, Role>, s1: Vm, role1: map<nat, Role>, s: Vm, role: map<nat, Role>, q: nat, r: nat, level: nat, prefix: nat, i: nat) {
    && role.Keys == role1.Keys == was.Keys
    && (forall x :: x in was ==> role[x] == if Below(was[x], r, level, prefix, i) then Free else role1[x])
    && (forall x :: x in was && x != q && !Below(was[x], r, level, prefix, i) ==> x in s.page && x in s1.page && s.page[x] == s1.page[x])
  }

  predicate Below(role: Role, r: nat, level: nat, prefix: nat, i: nat) {
    Under(role, r, level, prefix) && role.level < level && Branch(role, level) < i
  }

  /** The entries of the table being emptied. */
  ghost predicate Emptying(s0: Vm, s: Vm, q: nat, i: nat) {
    IsTable(s, q) && IsTable(s0, q) && forall j :: i <= j < NPTE ==> s.page[q].pte[j] == s0.page[q].pte[j]
  }

  /** freewalk on the subtree at (level, prefix): its pages are free again, in one piece, and the panic is not met. */
  method Freewalk(m: Memory, q: nat, ghost s0: Vm, ghost was: map<nat, Role>, ghost r: nat, ghost level: nat, ghost prefix: nat) returns (panicked: bool)
    requires m.Valid() && OldTree(s0, was, r) && q in was && was[q] == Node(r, level, prefix)
    requires Standing(s0, was, m.S(), m.role, r, level, prefix)
    modifies m`page, m`free, m`role
    ensures m.Valid() && !panicked && SameMaps(old(m.S()), m.S())
    ensures Felled(was, old(m.S()), old(m.role), m.S(), m.role, r, level, prefix)
    decreases level
  {
    hide Inv, OldTree, Standing, Felled, HalfFelled, SameMaps, Entry, NodeAt, Under;
    ghost var s1, role1 := m.S(), m.role;
    StandingRoot(s0, was, s1, role1, r, level, prefix, q);
    SameMapsRefl(s1);
    FelledNone(was, s1, role1, q, r, level, prefix);
    for i := 0 to NPTE
      invariant m.Valid() && m.roots == s1.roots && SameMaps(s1, m.S()) && HalfFelled(was, s1, role1, m.S(), m.role, q, r, level, prefix, i)
      invariant Emptying(s0, m.S(), q, i)
    {
      ghost var s2, role2 := m.S(), m.role;
      var pte := m.page[q].pte[i];
      OldEntry(s0, was, r, q, i);
      if pte.v && !IsLeafFlags(pte) {
        ghost var below := prefix * NPTE + i;
        StillStanding(s0, was, s1, role1, s2, role2, q, r, level, prefix, i);
        panicked := Freewalk(m, pte.pa, s0, was, r, level - 1, below);
        ghost var s3, role3 := m.S(), m.role;
        ChildFelled(was, s1, role1, s2, role2, s3, role3, s0, q, r, level, prefix, i);
        HeldKeeps(s3, role3, q, Table(m.page[q].pte[i := NONE]));
        m.page := m.page[q := Table(m.page[q].pte[i := NONE])];
        Cleared(was, s1, role1, s3, m.S(), role3, q, r, level, prefix, i + 1);
        SameMapsTrans(s1, s2, s3);
        SameMapsTrans(s1, s3, m.S());
      } else if pte.v {
        return true;
      } else {
        NoneBelow(s0, was, s1, role1, s2, role2, q, r, level, prefix, i);
      }
    }
    ghost var s4, role4 := m.S(), m.role;
    LastHeld(was, s1, role1, s4, role4, s0, q, r, level, prefix);
    panicked := m.Kfree(q);
    SameMapsTrans(s1, s4, m.S());
    RootFelled(s0, was, s1, role1, s4, role4, m.S(), m.role, q, r, level, prefix);
  }

  lemma SameMapsTrans(s0: Vm, s1: Vm, s2: Vm)
    requires SameMaps(s0, s1) && SameMaps(s1, s2)
    ensures SameMaps(s0, s2)
  {
    hide NodeAt, LeafPte;
  }

  lemma StandingRoot(s0: Vm, was: map<nat, Role>, s: Vm, role: map<nat, Role>, r: nat, level: nat, prefix: nat, q: nat)
    requires Standing(s0, was, s, role, r, level, prefix) && q in was && was[q] == Node(r, level, prefix) && OldTree(s0, was, r)
    ensures Emptying(s0, s, q, 0) && q in role && role[q].Held? && role.Keys == was.Keys && InTree(level, prefix)
  {
    hide NodeAt, LeavesOk, FlagsOk, FreeOk;
    assert Under(was[q], r, level, prefix);
  }

  lemma FelledNone(was: map<nat, Role>, s: Vm, role: map<nat, Role>, q: nat, r: nat, level: nat, prefix: nat)
    requires Inv(s, role) && role.Keys == was.Keys
    ensures HalfFelled(was, s, role, s, role, q, r, level, prefix, 0)
  {
    hide NodesOk, LeavesOk, FlagsOk;
  }

  /** What an entry of the old tree can be: nothing, or a pointer to the next table. */
  lemma OldEntry(s0: Vm, was: map<nat, Role>, r: nat, q: nat, i: nat)
    requires OldTree(s0, was, r) && q in was && was[q].Node? && was[q].root == r && i < NPTE
    ensures IsTable(s0, q) && Entry(s0, q, i) == s0.page[q].pte[i]
    ensures var e := s0.page[q].pte[i];
            e.v ==> !IsLeafFlags(e) && was[q].level > 0 && e.pa in was && was[e.pa] == BelowSlot(was[q], i)
  {
    hide LeavesOk, FreeOk, NodeAt, NodesOk, LeafPte, Entry;
    NodeTable(s0, was, q);
    if was[q].level == 0 {
      LeafEntryIsFlat(s0, was, q, i);
      assert Entry(s0, q, i) == s0.page[q].pte[i] by { EntryIs(s0, q, i); }
    } else {
      StepDown(s0, was, q, i);
      assert EntryOk(Entry(s0, q, i), was[q].level);
    }
  }

  lemma EntryIs(s: Vm, q: nat, i: nat)
    requires IsTable(s, q) && i < NPTE
    ensures Entry(s, q, i) == s.page[q].pte[i]
  {
  }

  /** The next child's subtree is still untouched. */
  lemma StillStanding(s0: Vm, was: map<nat, Role>, s1: Vm, role1: map<nat, Role>, s: Vm, role: map<nat, Role>, q: nat, r: nat, level: nat, prefix: nat, i: nat)
    requires Standing(s0, was, s1, role1, r, level, prefix) && HalfFelled(was, s1, role1, s, role, q, r, level, prefix, i)
    requires 0 < level && i < NPTE && InTree(level, prefix) && q in was && was[q] == Node(r, level, prefix) && OldTree(s0, was, r)
    ensures Standing(s0, was, s, role, r, level - 1, prefix * NPTE + i)
  {
    hide LeavesOk, FreeOk, NodeAt, FlagsOk, LeafPte, Entry, Under, Branch;
    forall x | x in was && Under(was[x], r, level - 1, prefix * NPTE + i) ensures Untouched(s0, s, role, x) {
      UnderIsNode(was[x], r, level - 1, prefix * NPTE + i);
      UnderSplit(was[x], r, level, prefix, i);
    }
  }

  lemma UnderSelf(r: nat, level: nat, prefix: nat)
    ensures Under(Node(r, level, prefix), r, level, prefix)
  {
  }

  lemma UnderIsNode(role: Role, r: nat, level: nat, prefix: nat)
    ensures Under(role, r, level, prefix) ==> role.Node? && role.root == r && role.level <= level && (role.level == level ==> role == Node(r, level, prefix))
  {
  }

  lemma ChildFelled(was: map<nat, Role>, s1: Vm, role1: map<nat, Role>, s2: Vm, role2: map<nat, Role>, s3: Vm, role3: map<nat, Role>,
                    s0: Vm, q: nat, r: nat, level: nat, prefix: nat, i: nat)
    requires OldTree(s0, was, r) && InTree(level, prefix) && 0 < level && i < NPTE && q in was && was[q] == Node(r, level, prefix)
    requires Standing(s0, was, s1, role1, r, level, prefix)
    requires HalfFelled(was, s1, role1, s2, role2, q, r, level, prefix, i)
    requires Felled(was, s2, role2, s3, role3, r, level - 1, prefix * NPTE + i)
    ensures HalfFelled(was, s1, role1, s3, role3, q, r, level, prefix, i + 1)
    ensures q in s3.page && q in s2.page && s3.page[q] == s2.page[q] && q in role3 && role3[q].Held?
  {
    hide LeavesOk, FreeOk, NodeAt, FlagsOk, LeafPte, Entry, Under, Branch;
    forall x | x in was
      ensures Below(was[x], r, level, prefix, i + 1) <==> Below(was[x], r, level, prefix, i) || Under(was[x], r, level - 1, prefix * NPTE + i)
    {
      BelowNext(s0, was, x, r, level, prefix, i);
    }
    UnderIsNode(was[q], r, level - 1, prefix * NPTE + i);
    UnderSelf(r, level, prefix);
  }

  lemma BelowNext(s0: Vm, was: map<nat, Role>, x: nat, r: nat, level: nat, prefix: nat, i: nat)
    requires OldTree(s0, was, r) && InTree(level, prefix) && 0 < level && i < NPTE && x in was
    ensures Below(was[x], r, level, prefix, i + 1) <==> Below(was[x], r, level, prefix, i) || Under(was[x], r, level - 1, prefix * NPTE + i)
  {
    hide LeavesOk, FreeOk, NodeAt, FlagsOk, LeafPte, Entry, Under, Branch;
    if was[x].Node? {
      UnderSplit(was[x], r, level, prefix, i);
    }
    UnderIsNode(was[x], r, level, prefix);
    UnderIsNode(was[x], r, level - 1, prefix * NPTE + i);
  }

  lemma Cleared(was: map<nat, Role>, s1: Vm, role1: map<nat, Role>, s2: Vm, s3: Vm, role: map<nat, Role>, q: nat, r: nat, level: nat, prefix: nat, i: nat)
    requires HalfFelled(was, s1, role1, s2, role, q, r, level, prefix, i) && forall x :: x in s2.page && x != q ==> x in s3.page && s3.page[x] == s2.page[x]
    ensures HalfFelled(was, s1, role1, s3, role, q, r, level, prefix, i)
  {
    hide Below;
  }

  lemma NoneBelow(s0: Vm, was: map<nat, Role>, s1: Vm, role1: map<nat, Role>, s2: Vm, role2: map<nat, Role>, q: nat, r: nat, level: nat, prefix: nat, i: nat)
    requires OldTree(s0, was, r) && InTree(level, prefix) && i < NPTE && q in was && was[q] == Node(r, level, prefix) && !Entry(s0, q, i).v
    requires HalfFelled(was, s1, role1, s2, role2, q, r, level, prefix, i)
    ensures HalfFelled(was, s1, role1, s2, role2, q, r, level, prefix, i + 1)
  {
    hide LeavesOk, FreeOk, NodeAt, FlagsOk, LeafPte, Entry, Under, Branch, NodesOk;
    forall x | x in was ensures Below(was[x], r, level, prefix, i + 1) <==> Below(was[x], r, level, prefix, i) {
      if level > 0 {
        BelowNext(s0, was, x, r, level, prefix, i);
        if was[x].Node? { NoChild(s0, was, r, q, i, x); }
        UnderIsNode(was[x], r, level - 1, prefix * NPTE + i);
      }
      UnderIsNode(was[x], r, level, prefix);
    }
  }

  lemma LastHeld(was: map<nat, Role>, s1: Vm, role1: map<nat, Role>, s: Vm, role: map<nat, Role>, s0: Vm, q: nat, r: nat, level: nat, prefix: nat)
    requires Standing(s0, was, s1, role1, r, level, prefix) && HalfFelled(was, s1, role1, s, role, q, r, level, prefix, NPTE)
    requires q in was && was[q] == Node(r, level, prefix)
    ensures q in role && role[q].Held?
  {
    assert Under(was[q], r, level, prefix);
  }

  lemma RootFelled(s0: Vm, was: map<nat, Role>, s1: Vm, role1: map<nat, Role>, s2: Vm, role2: map<nat, Role>, s3: Vm, role3: map<nat, Role>,
                   q: nat, r: nat, level: nat, prefix: nat)
    requires OldTree(s0, was, r) && InTree(level, prefix) && q in was && was[q] == Node(r, level, prefix)
    requires HalfFelled(was, s1, role1, s2, role2, q, r, level, prefix, NPTE)
    requires role3 == role2[q := Free] && s3.page == s2.page[q := Data(Junk(1))]
    ensures Felled(was, s1, role1, s3, role3, r, level, prefix)
  {
    hide LeavesOk, FreeOk, NodeAt, FlagsOk, LeafPte, Entry, Under, Branch, Junk;
    forall x | x in was ensures Under(was[x], r, level, prefix) <==> x == q || Below(was[x], r, level, prefix, NPTE) {
      if was[x].Node? {
        UnderSelf(r, level, prefix);
        if was[x] == Node(r, level, prefix) { OneTable(s0, was, x, q); }
      }
      UnderIsNode(was[x], r, level, prefix);
      BranchSmall(was[x], level);
    }
  }

  lemma BranchSmall(role: Role, level: nat)
    ensures Branch(role, level) < NPTE
  {
  }

  /** A position of a tree is taken by one table. */
  lemma OneTable(s0: Vm, was: map<nat, Role>, x: nat, q: nat)
    requires Inv(s0, was) && x in was && q in was && was[x].Node? && was[x] == was[q]
    ensures x == q
  {
    hide NodeAt, LeavesOk, FlagsOk, FreeOk;
    NodeTable(s0, was, x);
    NodeTable(s0, was, q);
  }

  // ------------------------------------------------------------ the life cycle

  /** The mappings of every other address space and the bytes of every page that is not `r`'s stay. */
  ghost predicate Elsewhere(s0: Vm, role0: map<nat, Role>, s: Vm, r: nat) {
    && (forall t, v :: t in s0.roots && t != r && 0 <= v < NVPN ==> LeafPte(s, t, v) == LeafPte(s0, t, v))
    && (forall x :: x in role0 && (role0[x].Held? || (role0[x].Leaf? && role0[x].root != r)) ==>
          x in s0.page && x in s.page && s.page[x] == s0.page[x])
  }

  predicate Belongs(role: Role, r: nat) {
    (role.Node? || role.Leaf?) && role.root == r
  }

  /** The address space `r` is gone: each of its pages is free, every other page has its old use. */
  ghost predicate Released(s0: Vm, role0: map<nat, Role>, s: Vm, role: map<nat, Role>, r: nat) {
    && s.roots == s0.roots - {r} && role.Keys == role0.Keys
    && (forall x :: x in role0 ==> role[x] == if Belongs(role0[x], r) then Free else role0[x])
    && Elsewhere(s0, role0, s, r)
  }

  /** uvmcreate: an empty address space, or 0 when memory is out. */
  method Uvmcreate(m: Memory) returns (r: nat)
    requires m.Valid()
    modifies m`page, m`free, m`role, m`roots
    ensures m.Valid()
    ensures r == 0 <==> old(m.free) == []
    ensures r == 0 ==> m.S() == old(m.S()) && m.role == old(m.role)
    ensures r != 0 ==> |m.free| == |old(m.free)| - 1 && NoTables(m.S(), r)
    ensures r != 0 ==>
              && r !in old(m.roots) && m.roots == old(m.roots) + {r} && r in old(m.role) && old(m.role)[r].Free?
              && m.role == old(m.role)[r := Node(r, 2, 0)] && NoLeaves(m.S(), r) && Elsewhere(old(m.S()), old(m.role), m.S(), r)
  {
    hide NodesOk, LeavesOk, FlagsOk, FreeOk, SameMaps, LeafPte, NodeAt, Elsewhere, NoLeaves, NoTables;
    ghost var s0, role0 := m.S(), m.role;
    r := m.Kalloc();
    if r == 0 {
      return;
    }
    ghost var s1 := m.S();
    HeldKeeps(s1, m.role, r, Table(ZeroTable()));
    m.page := m.page[r := Table(ZeroTable())];
    ghost var s2 := m.S();
    AttachRoot(s2, m.role, r);
    m.roots := m.roots + {r};
    m.role := m.role[r := Node(r, 2, 0)];
    assert NoLeaves(m.S(), r) by { NoLeavesRoots(s2, m.S(), r); }
    ClearedHasNoTables(m.S(), r);
    SameMapsTrans(s0, s1, s2);
    CreateElsewhere(s0, role0, s2, m.S(), r);
  }

  /** The root is the only table of the tree. */
  ghost predicate NoTables(s: Vm, r: nat) {
    forall level, prefix :: InTree(level, prefix) && level < 2 ==> NodeAt(s, r, level, prefix) == 0
  }

  lemma ClearedHasNoTables(s: Vm, r: nat)
    requires r != 0 && r in s.page && s.page[r] == Table(ZeroTable())
    ensures NoTables(s, r)
  {
    hide NodeAt;
    forall level, prefix | InTree(level, prefix) && level < 2 ensures NodeAt(s, r, level, prefix) == 0 {
      NothingBelow(s, r, level, prefix);
    }
  }

  lemma NoLeavesRoots(s: Vm, s': Vm, r: nat)
    requires s'.page == s.page && forall vpn :: 0 <= vpn < NVPN ==> !LeafPte(s, r, vpn).v
    ensures NoLeaves(s', r)
  {
    RootsOnly(s, s');
    hide LeafPte;
  }

  lemma CreateElsewhere(s0: Vm, role0: map<nat, Role>, s2: Vm, s3: Vm, r: nat)
    requires Inv(s0, role0) && SameMaps(s0, s2) && s3.page == s2.page && r in role0 && role0[r].Free?
    requires forall x :: x in s0.page && x != r ==> x in s2.page && s2.page[x] == s0.page[x]
    ensures Elsewhere(s0, role0, s3, r)
  {
    hide LeafPte, NodesOk, LeavesOk, FlagsOk, NodeAt;
    RootsOnly(s2, s3);
  }

  /** The leaves of `r` lie below PGROUNDUP(sz), up to the two kernel pages. */
  ghost predicate Bounded(s: Vm, r: nat, n: nat) {
    forall v :: n <= v < NVPN && v != TRAPFRAME && v != TRAPFRAME + 1 ==> !LeafPte(s, r, v).v
  }

  /**
    uvmfree: when nothing is mapped from PGROUNDUP(sz) on, every table and every frame of the
    address space is free again, and neither the panic of freewalk nor any other is met.
   */
  method Uvmfree(m: Memory, r: nat, sz: nat) returns (panicked: bool)
    requires m.Valid() && r in m.roots && Pages(sz) <= TRAPFRAME && Empty(m.S(), r, Pages(sz), NVPN)
    modifies m`page, m`free, m`role, m`roots
    ensures m.Valid() && !panicked && Released(old(m.S()), old(m.role), m.S(), m.role, r)
  {
    hide NodesOk, LeavesOk, FlagsOk, FreeOk, LeafPte, NodeAt, Unmapped, Empty, NoLeaves, Released, Standing, Felled, SameMaps, Pages, Dropped;
    ghost var s0, role0 := m.S(), m.role;
    UnmappedNone(s0, role0, r, 0, true);
    PagesAt(0, sz);
    if sz > 0 {
      panicked := m.Uvmunmap(r, 0, Pages(sz), true);
      assert !panicked;
    }
    ghost var s1, was := m.S(), m.role;
    AllUnmapped(s0, role0, s1, was, r, Pages(sz));
    RootRole(s1, was, r);
    DetachRoot(s1, was, r);
    DroppedKeys(was, r);
    m.roots := m.roots - {r};
    m.role := Dropped(was, r);
    ghost var s2, role2 := m.S(), m.role;
    DroppedStanding(s1, was, s2, role2, r);
    panicked := Freewalk(m, r, s1, was, r, 2, 0);
    FreedAll(s0, role0, s1, was, s2, role2, m.S(), m.role, r, Pages(sz));
  }

  lemma DroppedKeys(was: map<nat, Role>, r: nat)
    ensures Dropped(was, r).Keys == was.Keys
  {
  }

  lemma AllUnmapped(s0: Vm, role0: map<nat, Role>, s1: Vm, role1: map<nat, Role>, r: nat, n: nat)
    requires Unmapped(s0, role0, s1, role1, r, 0, n, true) && r in s0.roots && n <= NVPN && Empty(s0, r, n, NVPN)
    ensures NoLeaves(s1, r) && s1.roots == s0.roots && role1.Keys == role0.Keys
  {
    hide LeafPte;
  }

  lemma DroppedStanding(s1: Vm, was: map<nat, Role>, s2: Vm, role2: map<nat, Role>, r: nat)
    requires Inv(s1, was) && s2.page == s1.page && role2 == Dropped(was, r)
    ensures Standing(s1, was, s2, role2, r, 2, 0)
  {
    hide NodesOk, LeavesOk, FlagsOk, Lift;
  }

  lemma FreedAll(s0: Vm, role0: map<nat, Role>, s1: Vm, was: map<nat, Role>, s2: Vm, role2: map<nat, Role>, s3: Vm, role3: map<nat, Role>, r: nat, n: nat)
    requires Inv(s0, role0) && Inv(s1, was) && Unmapped(s0, role0, s1, was, r, 0, n, true) && r in s0.roots && n <= TRAPFRAME && Empty(s0, r, n, NVPN)
    requires s2 == s1.(roots := s1.roots - {r}) && role2 == Dropped(was, r)
    requires SameMaps(s2, s3) && Felled(was, s2, role2, s3, role3, r, 2, 0)
    ensures Released(s0, role0, s3, role3, r)
  {
    hide NodesOk, LeavesOk, FlagsOk, FreeOk, LeafPte, NodeAt, Under;
    RootsOnly(s1, s2);
    forall x | x in was ensures Under(was[x], r, 2, 0) <==> was[x].Node? && was[x].root == r {
      if was[x].Node? {
        NodeTable(s1, was, x);
        AllUnder(was[x]);
      }
      UnderIsNode(was[x], r, 2, 0);
    }
    forall x | x in role0 && role0[x].Leaf? && role0[x].root == r ensures role0[x].vpn < n {
      LeafOfRole(s0, role0, x);
    }
  }

  lemma AllUnder(role: Role)
    requires role.Node? && InTree(role.level, role.prefix)
    ensures Under(role, role.root, 2, 0)
  {
  }

  lemma LeafOfRole(s: Vm, role: map<nat, Role>, x: nat)
    requires Inv(s, role) && x in role && role[x].Leaf?
    ensures role[x].root in s.roots && role[x].vpn < TRAPFRAME && LeafPte(s, role[x].root, role[x].vpn).v
  {
    hide NodesOk, FlagsOk, FreeOk, LeafPte;
  }

  // ----------------------------------------------------- a process's address space

  /** The new tree `r` has taken free pages for its tables and nothing else has changed. */
  ghost predicate Made(s0: Vm, role0: map<nat, Role>, s: Vm, role: map<nat, Role>, r: nat) {
    && r !in s0.roots && s.roots == s0.roots + {r} && role.Keys == role0.Keys
    && (forall x :: x in role0 ==> role[x] == role0[x] || (role0[x].Free? && role[x].Node? && role[x].root == r))
    && Elsewhere(s0, role0, s, r)
  }

  /** A kernel page mapped above user memory takes no frame. */
  lemma MadeMapped(s0: Vm, role0: map<nat, Role>, s1: Vm, role1: map<nat, Role>, s2: Vm, role2: map<nat, Role>,
                   r: nat, vpn: nat, n: nat, pa: nat, perm: Pte)
    requires Inv(s0, role0) && Made(s0, role0, s1, role1, r) && MappedRange(s1, role1, s2, role2, r, vpn, n, pa, perm)
    requires Inv(s2, role2) && TRAPFRAME <= vpn
    ensures Made(s0, role0, s2, role2, r)
  {
    hide NodesOk, LeavesOk, FlagsOk, FreeOk, LeafPte;
    forall x | x in role2 && role2[x].Leaf? ensures role2[x].vpn < TRAPFRAME { LeafOfRole(s2, role2, x); }
  }

  /** Making a tree and releasing it again gives back exactly the pages it took. */
  lemma MadeThenReleased(s0: Vm, role0: map<nat, Role>, s1: Vm, role1: map<nat, Role>, s2: Vm, role2: map<nat, Role>, r: nat)
    requires Inv(s0, role0) && Made(s0, role0, s1, role1, r) && Released(s1, role1, s2, role2, r)
    ensures s2.roots == s0.roots && role2 == role0 && Elsewhere(s0, role0, s2, r)
  {
    hide LeafPte, NodeAt;
  }

  lemma CreatedIsMade(s0: Vm, role0: map<nat, Role>, s: Vm, role: map<nat, Role>, r: nat)
    requires r !in s0.roots && s.roots == s0.roots + {r} && r in role0 && role0[r].Free?
    requires role == role0[r := Node(r, 2, 0)] && Elsewhere(s0, role0, s, r)
    ensures Made(s0, role0, s, role, r)
  {
    hide Elsewhere;
  }

  const TRAMPERM := Pte(0, false, true, false, true, false, 0)   // PTE_R | PTE_X
  const FRAMEPERM := Pte(0, false, true, true, false, false, 0)  // PTE_R | PTE_W

  /**
    proc_pagetable: a tree that maps the trampoline and the trapframe and no user page, exactly
    when three pages are free: the root and the two tables that both mappings share. Otherwise
    0, with every page it had taken free again. The second mapping finds its tables, so the
    source's way out behind it is never taken.
   */
  method ProcPagetable(m: Memory, trampoline: nat, trapframe: nat) returns (r: nat)
    requires m.Valid()
    modifies m`page, m`free, m`role, m`roots
    ensures m.Valid()
    ensures r != 0 <==> |old(m.free)| >= 3
    ensures r == 0 ==> m.roots == old(m.roots) && m.role == old(m.role) && Elsewhere(old(m.S()), old(m.role), m.S(), 0)
    ensures r != 0 ==>
              && Made(old(m.S()), old(m.role), m.S(), m.role, r) && Bounded(m.S(), r, 0)
              && LeafPte(m.S(), r, TRAPFRAME + 1) == Pte(trampoline, v := true, r := true, w := false, x := true, u := false, rest := 0)
              && LeafPte(m.S(), r, TRAPFRAME) == Pte(trapframe, v := true, r := true, w := true, x := false, u := false, rest := 0)
  {
    hide NodesOk, LeavesOk, FlagsOk, FreeOk, LeafPte, NodeAt, Elsewhere, NoLeaves, Made, MappedRange, Released, Unmapped, Empty,
         NoTables, Spent, Cost, Missing, TablesAt, Every;
    ghost var s0, role0 := m.S(), m.role;
    r := Uvmcreate(m);
    if r == 0 {
      ElsewhereRefl(s0, role0);
      return;
    }
    ghost var s1, role1 := m.S(), m.role;
    CreatedIsMade(s0, role0, s1, role1, r);
    CostOne(s1, r, TRAPFRAME + 1, 0);
    BothMissing(s1, r);
    var res, done := m.Mappages(r, (TRAPFRAME + 1) * PGSIZE, PGSIZE, trampoline, TRAMPERM);
    ghost var s2, role2 := m.S(), m.role;
    MadeMapped(s0, role0, s1, role1, s2, role2, r, TRAPFRAME + 1, done, trampoline, TRAMPERM);
    if !res.Mapped? {
      NothingMapped(s1, role1, s2, role2, r, TRAPFRAME + 1, trampoline, TRAMPERM);
      FirstMapFails(s1, s2, r, res, done);
      Discard(m, r, s0, role0);
      return 0;
    }
    OnlyOne(s1, role1, s2, role2, r, TRAPFRAME + 1, trampoline, TRAMPERM);
    SpentOne(s1, s2, r, TRAPFRAME + 1);
    NoneMissing(s1, s2, r);
    CostOne(s2, r, TRAPFRAME, 0);
    res, done := m.Mappages(r, TRAPFRAME * PGSIZE, PGSIZE, trapframe, FRAMEPERM);
    ghost var s3, role3 := m.S(), m.role;
    SecondMaps(s2, role2, s3, role3, r, res, done, trapframe);
    MadeMapped(s0, role0, s2, role2, s3, role3, r, TRAPFRAME, done, trapframe, FRAMEPERM);
    BothMapped(s2, role2, s3, role3, r, trapframe, FRAMEPERM, trampoline);
  }

  lemma BothMissing(s: Vm, r: nat)
    requires NoTables(s, r)
    ensures Missing(s, r, TRAPFRAME + 1) == 2
  {
    var v := TRAPFRAME + 1;
    assert InTree(1, v / NPTE / NPTE) && NodeAt(s, r, 1, v / NPTE / NPTE) == Mid(s, r, v / NPTE / NPTE);
    assert InTree(0, v / NPTE) && NodeAt(s, r, 0, v / NPTE) == Low(s, r, v / NPTE);
  }

  /** The trapframe's page lies under the same two tables as the trampoline's. */
  lemma NoneMissing(s1: Vm, s2: Vm, r: nat)
    requires TablesAt(s1, s2, r, TRAPFRAME + 1)
    ensures Missing(s2, r, TRAPFRAME) == 0
  {
    var v := TRAPFRAME;
    assert Prefix(1, v) == Prefix(1, v + 1) && Prefix(0, v) == Prefix(0, v + 1);
    assert InTree(1, v / NPTE / NPTE) && NodeAt(s2, r, 1, v / NPTE / NPTE) == Mid(s2, r, v / NPTE / NPTE);
    assert InTree(0, v / NPTE) && NodeAt(s2, r, 0, v / NPTE) == Low(s2, r, v / NPTE);
  }

  /** The first mapping can only fail for lack of memory. */
  lemma FirstMapFails(s1: Vm, s2: Vm, r: nat, res: MapResult, done: nat)
    requires !res.Mapped? && !res.BadArgs? && done == 0 && NoLeaves(s2, r)
    requires res.WalkPanic? ==> (TRAPFRAME + 1) * PGSIZE + done * PGSIZE >= MAXVA
    requires res.Remap? ==> LeafPte(s2, r, TRAPFRAME + 1 + done).v
    requires res.NoMemory? ==> |s1.free| < 2
    ensures |s1.free| < 2
  {
    hide LeafPte;
  }

  /** The second mapping does not fail. */
  lemma SecondMaps(s2: Vm, role2: map<nat, Role>, s3: Vm, role3: map<nat, Role>, r: nat, res: MapResult, done: nat, pa: nat)
    requires r in s2.roots && !res.BadArgs? && done <= 1 && (res.Mapped? <==> done == 1)
    requires MappedRange(s2, role2, s3, role3, r, TRAPFRAME, done, pa, FRAMEPERM) && !LeafPte(s2, r, TRAPFRAME).v
    requires res.WalkPanic? ==> TRAPFRAME * PGSIZE + done * PGSIZE >= MAXVA
    requires res.Remap? ==> LeafPte(s3, r, TRAPFRAME + done).v
    requires res.NoMemory? ==> |s2.free| < 0
    ensures res.Mapped?
  {
    hide LeafPte;
  }

  /** proc_pagetable's way out: uvmfree(pagetable, 0). */
  method Discard(m: Memory, r: nat, ghost s0: Vm, ghost role0: map<nat, Role>)
    requires m.Valid() && Inv(s0, role0) && Made(s0, role0, m.S(), m.role, r) && NoLeaves(m.S(), r)
    modifies m`page, m`free, m`role, m`roots
    ensures m.Valid() && m.roots == s0.roots && m.role == role0 && Elsewhere(s0, role0, m.S(), 0)
  {
    hide NodesOk, LeavesOk, FlagsOk, FreeOk, LeafPte, NodeAt, Elsewhere, Released;
    ghost var s1, role1 := m.S(), m.role;
    assert Empty(s1, r, 0, NVPN);
    var panicked := Uvmfree(m, r, 0);
    MadeThenReleased(s0, role0, s1, role1, m.S(), m.role, r);
    ElsewhereAll(s0, role0, m.S(), r);
  }

  lemma ElsewhereRefl(s: Vm, role: map<nat, Role>)
    requires Inv(s, role)
    ensures Elsewhere(s, role, s, 0)
  {
    hide LeafPte, NodesOk, LeavesOk, FlagsOk;
  }

  /** A tree that did not exist before owned nothing before. */
  lemma ElsewhereAll(s0: Vm, role0: map<nat, Role>, s: Vm, r: nat)
    requires Inv(s0, role0) && r !in s0.roots && Elsewhere(s0, role0, s, r)
    ensures Elsewhere(s0, role0, s, 0)
  {
    hide LeafPte, NodeAt;
  }

  lemma NothingMapped(s1: Vm, role1: map<nat, Role>, s2: Vm, role2: map<nat, Role>, r: nat, vpn: nat, pa: nat, perm: Pte)
    requires MappedRange(s1, role1, s2, role2, r, vpn, 0, pa, perm) && NoLeaves(s1, r) && r in s1.roots
    ensures NoLeaves(s2, r)
  {
    hide LeafPte;
  }

  lemma OnlyOne(s1: Vm, role1: map<nat, Role>, s2: Vm, role2: map<nat, Role>, r: nat, vpn: nat, pa: nat, perm: Pte)
    requires MappedRange(s1, role1, s2, role2, r, vpn, 1, pa, perm) && NoLeaves(s1, r) && r in s1.roots && vpn < NVPN
    ensures forall v :: 0 <= v < NVPN ==> if v == vpn then LeafPte(s2, r, v) == perm.(pa := pa, v := true) else !LeafPte(s2, r, v).v
  {
    hide LeafPte;
    assert Frame(pa, 0) == pa;
  }

  lemma BothMapped(s2: Vm, role2: map<nat, Role>, s3: Vm, role3: map<nat, Role>, r: nat, pa: nat, perm: Pte, trampoline: nat)
    requires r in s2.roots && MappedRange(s2, role2, s3, role3, r, TRAPFRAME, 1, pa, perm)
    requires forall v :: 0 <= v < NVPN ==> if v == TRAPFRAME + 1 then LeafPte(s2, r, v) == TRAMPERM.(pa := trampoline, v := true) else !LeafPte(s2, r, v).v
    ensures Bounded(s3, r, 0) && LeafPte(s3, r, TRAPFRAME + 1) == TRAMPERM.(pa := trampoline, v := true) && LeafPte(s3, r, TRAPFRAME) == perm.(pa := pa, v := true)
  {
    hide LeafPte;
    assert Frame(pa, 0) == pa;
  }

  /** proc_freepagetable: whatever the process mapped below `sz`, all of it is released. */
  method ProcFreepagetable(m: Memory, r: nat, sz: nat) returns (panicked: bool)
    requires m.Valid() && r in m.roots && Pages(sz) <= TRAPFRAME && Bounded(m.S(), r, Pages(sz))
    modifies m`page, m`free, m`role, m`roots
    ensures m.Valid() && !panicked && Released(old(m.S()), old(m.role), m.S(), m.role, r)
  {
    hide NodesOk, LeavesOk, FlagsOk, FreeOk, LeafPte, NodeAt, Released, Unmapped, Bounded, Empty, Pages;
    ghost var s0, role0 := m.S(), m.role;
    panicked := m.Uvmunmap(r, (TRAPFRAME + 1) * PGSIZE, 1, false);
    ghost var s1, role1 := m.S(), m.role;
    panicked := m.Uvmunmap(r, TRAPFRAME * PGSIZE, 1, false);
    ghost var s2, role2 := m.S(), m.role;
    KernelPagesGone(s0, role0, s1, role1, s2, role2, r, Pages(sz));
    panicked := Uvmfree(m, r, sz);
    ReleasedAll(s0, role0, s1, role1, s2, role2, m.S(), m.role, r);
  }

  lemma KernelPagesGone(s0: Vm, role0: map<nat, Role>, s1: Vm, role1: map<nat, Role>, s2: Vm, role2: map<nat, Role>, r: nat, n: nat)
    requires r in s0.roots && Bounded(s0, r, n) && n <= NVPN
    requires Unmapped(s0, role0, s1, role1, r, TRAPFRAME + 1, 1, false) && Unmapped(s1, role1, s2, role2, r, TRAPFRAME, 1, false)
    ensures Empty(s2, r, n, NVPN)
  {
    hide LeafPte;
  }

  lemma ReleasedAll(s0: Vm, role0: map<nat, Role>, s1: Vm, role1: map<nat, Role>, s2: Vm, role2: map<nat, Role>, s3: Vm, role3: map<nat, Role>, r: nat)
    requires Inv(s0, role0) && Unmapped(s0, role0, s1, role1, r, TRAPFRAME + 1, 1, false)
    requires Unmapped(s1, role1, s2, role2, r, TRAPFRAME, 1, false) && Released(s2, role2, s3, role3, r)
    ensures Released(s0, role0, s3, role3, r)
  {
    hide LeafPte, NodesOk, LeavesOk, FlagsOk, FreeOk;
    forall x | x in role0 && role0[x].Leaf? ensures role0[x].vpn < TRAPFRAME { LeafOfRole(s0, role0, x); }
  }

  /** Every operation that maps pages below `n` keeps the leaves of the tree below `n`. */
  lemma BoundedWithin(s0: Vm, role0: map<nat, Role>, s: Vm, role: map<nat, Role>, r: nat, lo: nat, hi: nat, n0: nat, n: nat)
    requires r in s0.roots && Within(s0, role0, s, role, r, lo, hi) && Bounded(s0, r, n0) && hi <= n && n0 <= n
    ensures Bounded(s, r, n)
  {
    hide LeafPte;
  }

  lemma BoundedUnmapped(s0: Vm, role0: map<nat, Role>, s: Vm, role: map<nat, Role>, r: nat, lo: nat, n: nat)
    requires r in s0.roots && Unmapped(s0, role0, s, role, r, lo, n, true) && Bounded(s0, r, lo + n)
    ensures Bounded(s, r, lo)
  {
    hide LeafPte;
  }

  const WRITE := Pte(0, false, false, true, false, false, 0)  // PTE_W

  /**
    growproc: the size moves by `n`, or not at all when the trapframe or the end of memory is in
    the way; a shrink below zero wraps to a large size and is ignored. Always the leaves of the
    tree lie below the new size.
   */
  method Growproc(m: Memory, r: nat, sz: nat, n: int) returns (ok: bool, newsz: nat)
    requires m.Valid() && r in m.roots && sz <= TRAPFRAME * PGSIZE && Bounded(m.S(), r, Pages(sz))
    requires -0x8000_0000 <= n < 0x8000_0000
    modifies m`page, m`free, m`role
    ensures m.Valid() && m.roots == old(m.roots)
    ensures Bounded(m.S(), r, Pages(newsz)) && newsz <= TRAPFRAME * PGSIZE
    ensures !ok ==> n > 0 && newsz == sz && Grown(old(m.S()), old(m.role), m.S(), m.role, r)
    ensures n > 0 ==> (ok <==> && sz + n <= TRAPFRAME * PGSIZE && Pages(sz + n) <= NVPN
                               && |old(m.free)| >= Cost(old(m.S()), r, Every(), Pages(sz), Pages(sz + n), 1))
    ensures ok ==> newsz == if sz + n < 0 then sz else sz + n
    ensures ok && n > 0 ==>
              && Within(old(m.S()), old(m.role), m.S(), m.role, r, Pages(sz), Pages(newsz))
              && Zeroed(old(m.role), m.S(), r, Pages(sz), Pages(newsz), WRITE.(r := true, u := true))
    ensures ok && n > 0 ==>
              forall v :: Pages(sz) <= v < Pages(newsz) ==>
                var e := LeafPte(m.S(), r, v);
                && e == Pte(e.pa, v := true, r := true, w := true, x := false, u := true, rest := 0)
                && e.pa in m.page && m.page[e.pa] == Data(ZeroBytes())
    ensures ok && n <= 0 ==> Unmapped(old(m.S()), old(m.role), m.S(), m.role, r, Pages(newsz), Pages(sz) - Pages(newsz), true)
  {
    hide Inv, LeafPte, Unmapped, Within, Grown, Pages, Zeroed, Empty, Bounded, Spent, Cost, Every;
    ghost var s0, role0 := m.S(), m.role;
    UserTop(sz);
    if n > 0 {
      GrownRefl(s0, role0, r);
      if sz + n > TRAPFRAME * PGSIZE {
        return false, sz;
      }
      UserTop(sz + n);
      PagesMono(sz, sz + n);
      BoundedEmpty(s0, r, Pages(sz), Pages(sz + n));
      newsz := Uvmalloc(m, r, sz, sz + n, WRITE);
      if newsz == 0 {
        GrownIsWithin(s0, role0, m.S(), m.role, r, 0, 0);
        BoundedWithin(s0, role0, m.S(), m.role, r, 0, 0, Pages(sz), Pages(sz));
        return false, sz;
      }
      BoundedWithin(s0, role0, m.S(), m.role, r, Pages(sz), Pages(newsz), Pages(sz), Pages(newsz));
      return true, newsz;
    }
    if n < 0 {
      var to := if sz + n < 0 then sz + n + 0x1_0000_0000_0000_0000 else sz + n;
      newsz := Uvmdealloc(m, r, sz, to);
      PagesMono(newsz, sz);
      BoundedUnmapped(s0, role0, m.S(), m.role, r, Pages(newsz), Pages(sz) - Pages(newsz));
      return true, newsz;
    }
    UnmappedNone(s0, role0, r, Pages(sz), true);
    return true, sz;
  }

  lemma UserTop(x: nat)
    requires x <= TRAPFRAME * PGSIZE
    ensures Pages(x) <= TRAPFRAME
  {
  }

  lemma BoundedEmpty(s: Vm, r: nat, lo: nat, hi: nat)
    requires Bounded(s, r, lo) && hi <= TRAPFRAME
    ensures Empty(s, r, lo, hi)
  {
    hide LeafPte;
  }

  /** What growing is for: bytes stored anywhere in the new pages arrive, all of them, without a page more being taken. */
  method GrowThenStore(m: Memory, r: nat, sz: nat, n: int, a: nat, src: Bytes) returns (ok: bool, stored: bool)
    requires m.Valid() && r in m.roots && sz <= TRAPFRAME * PGSIZE && Bounded(m.S(), r, Pages(sz)) && U.KernelPrivate(m.S(), r)
    requires 0 < n < 0x8000_0000 && Pages(sz) * PGSIZE <= a && a + |src| <= sz + n
    modifies m`page, m`free, m`role
    ensures ok ==> stored && a + |src| <= U.USERTOP && forall j :: 0 <= j < |src| ==> U.Mem(m.S(), r, a + j) == src[j]
  {
    hide Inv, LeafPte, Unmapped, Within, Grown, Zeroed, Empty, Bounded, Spent, Cost, Every, Pages, U.Stored, U.CanReach, U.StopsAt, U.Mem, U.KernelPrivate, U.AllOpen;
    ghost var s0, role0 := m.S(), m.role;
    var newsz;
    ok, newsz := Growproc(m, r, sz, n);
    stored := false;
    if ok {
      ghost var s1, done := m.S(), 0;
      UserTop(newsz);
      StillPrivate(s0, role0, s1, m.role, r, Pages(sz), Pages(newsz));
      NewPagesReach(s1, r, sz, newsz, a, |src|);
      stored, done := U.Copyout(m, r, newsz, a, src);
      assert src[..done] == src;
      StoredBytes(s1, m.S(), r, a, src);
    }
  }

  lemma StillPrivate(s0: Vm, role0: map<nat, Role>, s: Vm, role: map<nat, Role>, r: nat, lo: nat, hi: nat)
    requires r in s0.roots && Within(s0, role0, s, role, r, lo, hi) && hi <= TRAPFRAME && U.KernelPrivate(s0, r)
    ensures U.KernelPrivate(s, r)
  {
    hide LeafPte;
  }

  lemma NewPagesReach(s: Vm, r: nat, sz: nat, newsz: nat, a: nat, len: nat)
    requires Pages(newsz) <= TRAPFRAME && Pages(sz) * PGSIZE <= a && a + len <= newsz
    requires forall v :: Pages(sz) <= v < Pages(newsz) ==> LeafPte(s, r, v).v && LeafPte(s, r, v).w && LeafPte(s, r, v).u
    ensures U.CanReach(s, r, newsz, a, len, true)
  {
    hide LeafPte, Cost, Pages;
    if len > 0 {
      var lo, hi := a / PGSIZE, U.PageEnd(a, len);
      NewPages(sz, newsz, a, len);
      CostNone(s, r, U.Absent(s, r), lo, hi, 1);
    }
  }

  lemma NewPages(sz: nat, newsz: nat, a: nat, len: nat)
    requires Pages(sz) * PGSIZE <= a && a + len <= newsz && len > 0
    ensures Pages(sz) <= a / PGSIZE && U.PageEnd(a, len) <= Pages(newsz)
  {
    PagesAt((a + len - 1) / PGSIZE, newsz);
    U.Position(a + len - 1);
  }

  lemma StoredBytes(s0: Vm, s: Vm, r: nat, a: nat, src: Bytes)
    requires U.Stored(s0, s, r, a, src) && r in s.roots && a + |src| <= U.USERTOP
    ensures forall j :: 0 <= j < |src| ==> U.Mem(s, r, a + j) == src[j]
  {
    hide U.Mem;
  }
}
