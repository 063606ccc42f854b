/**
  How many pages a mapping takes: one for every table that is missing on the way, and one for
  the frame itself where the caller allocates it. Tables are shared by neighbouring pages, so a
  range takes a table once, for the first of its pages that needs it.
 */
module FrameCost {
  import opened VmSpec

  /** The leading digits of a page number, as seen from the given level. */
  function Prefix(level: nat, vpn: nat): nat {
    if level == 0 then vpn / NPTE else if level == 1 then vpn / NPTE / NPTE else 0
  }

  /** The tables missing on the way to one page. */
  ghost function Missing(s: Vm, r: nat, vpn: nat): nat
    requires vpn < NVPN
  {
    (if Mid(s, r, vpn / NPTE / NPTE) == 0 then 1 else 0) + (if Low(s, r, vpn / NPTE) == 0 then 1 else 0)
  }

  /** Exactly the tables on the way to `vpn` were added to the tree. */
  ghost predicate TablesAt(s0: Vm, s: Vm, r: nat, vpn: nat) {
    forall level, prefix :: InTree(level, prefix) ==>
      (NodeAt(s, r, level, prefix) != 0 <==> NodeAt(s0, r, level, prefix) != 0 || prefix == Prefix(level, vpn))
  }

  /** A wanted page of the range lies below the given table position. */
  ghost predicate Covered(want: iset<nat>, lo: nat, hi: nat, level: nat, prefix: nat) {
    exists j :: lo <= j < hi && j in want && Prefix(level, j) == prefix
  }

  /** Exactly the tables on the way to the wanted pages of the range were added. */
  ghost predicate TablesFor(s0: Vm, s: Vm, r: nat, want: iset<nat>, lo: nat, hi: nat) {
    forall level, prefix :: InTree(level, prefix) ==>
      (NodeAt(s, r, level, prefix) != 0 <==> NodeAt(s0, r, level, prefix) != 0 || Covered(want, lo, hi, level, prefix))
  }

  /** The tables a page takes when the wanted pages before it in the range have theirs. */
  ghost function Fresh(s: Vm, r: nat, want: iset<nat>, lo: nat, vpn: nat): nat
    requires vpn < NVPN
  {
    (if Mid(s, r, vpn / NPTE / NPTE) == 0 && !Covered(want, lo, vpn, 1, Prefix(1, vpn)) then 1 else 0)
    + (if Low(s, r, vpn / NPTE) == 0 && !Covered(want, lo, vpn, 0, Prefix(0, vpn)) then 1 else 0)
  }

  /** The pages that mapping the wanted pages of the range takes, with `leaf` for each one's frame. */
  ghost function Cost(s: Vm, r: nat, want: iset<nat>, lo: nat, hi: nat, leaf: nat): nat
    requires hi <= NVPN
    decreases hi
  {
    if hi <= lo then 0
    else Cost(s, r, want, lo, hi - 1, leaf) + if hi - 1 in want then leaf + Fresh(s, r, want, lo, hi - 1) else 0
  }

  predicate IsPage(v: nat) {
    v < NVPN
  }

  ghost function Every(): iset<nat> {
    iset v: nat | IsPage(v)
  }

  /** The pages a tree maps. */
  ghost function Present(s: Vm, r: nat): iset<nat> {
    iset v: nat | IsPage(v) && LeafPte(s, r, v).v
  }

  lemma PrefixInTree(vpn: nat, level: nat)
    requires vpn < NVPN && level <= 2
    ensures InTree(level, Prefix(level, vpn))
  {
  }

  /** What is missing now is what was counted beforehand. */
  lemma FreshIsMissing(s0: Vm, s: Vm, r: nat, want: iset<nat>, lo: nat, vpn: nat)
    requires TablesFor(s0, s, r, want, lo, vpn) && vpn < NVPN
    ensures Missing(s, r, vpn) == Fresh(s0, r, want, lo, vpn)
  {
    hide Mid, Low, Covered;
    PrefixInTree(vpn, 1);
    PrefixInTree(vpn, 0);
    assert NodeAt(s, r, 1, Prefix(1, vpn)) == Mid(s, r, Prefix(1, vpn)) && NodeAt(s, r, 0, Prefix(0, vpn)) == Low(s, r, Prefix(0, vpn));
    assert NodeAt(s0, r, 1, Prefix(1, vpn)) == Mid(s0, r, Prefix(1, vpn)) && NodeAt(s0, r, 0, Prefix(0, vpn)) == Low(s0, r, Prefix(0, vpn));
  }

  lemma CoveredNext(want: iset<nat>, lo: nat, v: nat, level: nat, prefix: nat)
    requires lo <= v
    ensures Covered(want, lo, v + 1, level, prefix) <==> Covered(want, lo, v, level, prefix) || (v in want && Prefix(level, v) == prefix)
  {
    if v in want && Prefix(level, v) == prefix {
      assert lo <= v < v + 1 && v in want && Prefix(level, v) == prefix;
    }
    if j :| lo <= j < v && j in want && Prefix(level, j) == prefix {
      assert lo <= j < v + 1 && j in want && Prefix(level, j) == prefix;
    }
  }

  lemma TablesNone(s: Vm, r: nat, want: iset<nat>, lo: nat)
    ensures TablesFor(s, s, r, want, lo, lo)
  {
  }

  lemma TablesNext(s0: Vm, s1: Vm, s2: Vm, r: nat, want: iset<nat>, lo: nat, v: nat)
    requires TablesFor(s0, s1, r, want, lo, v) && lo <= v && v in want && TablesAt(s1, s2, r, v)
    ensures TablesFor(s0, s2, r, want, lo, v + 1)
  {
    hide NodeAt, Covered, Prefix;
    forall level, prefix | InTree(level, prefix)
      ensures NodeAt(s2, r, level, prefix) != 0 <==> NodeAt(s0, r, level, prefix) != 0 || Covered(want, lo, v + 1, level, prefix)
    {
      CoveredNext(want, lo, v, level, prefix);
    }
  }

  lemma TablesSkip(s0: Vm, s: Vm, r: nat, want: iset<nat>, lo: nat, v: nat)
    requires TablesFor(s0, s, r, want, lo, v) && lo <= v && v !in want
    ensures TablesFor(s0, s, r, want, lo, v + 1)
  {
    hide NodeAt, Covered, Prefix;
    forall level, prefix | InTree(level, prefix) ensures Covered(want, lo, v + 1, level, prefix) <==> Covered(want, lo, v, level, prefix) {
      CoveredNext(want, lo, v, level, prefix);
    }
  }

  /** A longer range takes no fewer pages. */
  lemma {:induction false} CostMono(s: Vm, r: nat, want: iset<nat>, lo: nat, hi: nat, top: nat, leaf: nat)
    requires hi <= top <= NVPN
    ensures Cost(s, r, want, lo, hi, leaf) <= Cost(s, r, want, lo, top, leaf)
    decreases top
  {
    hide Fresh;
    if hi < top && lo < top { CostMono(s, r, want, lo, hi, top - 1, leaf); }
  }

  /** At most two tables a page. */
  lemma {:induction false} CostBound(s: Vm, r: nat, want: iset<nat>, lo: nat, hi: nat, leaf: nat)
    requires lo <= hi <= NVPN
    ensures Cost(s, r, want, lo, hi, leaf) <= (leaf + 2) * (hi - lo)
    decreases hi
  {
    if lo < hi {
      CostBound(s, r, want, lo, hi - 1, leaf);
      assert Fresh(s, r, want, lo, hi - 1) <= 2;
      assert (leaf + 2) * (hi - lo) == (leaf + 2) * (hi - 1 - lo) + (leaf + 2);
    }
  }

  /** Pages that are not wanted cost nothing. */
  lemma {:induction false} CostNone(s: Vm, r: nat, want: iset<nat>, lo: nat, hi: nat, leaf: nat)
    requires hi <= NVPN && forall v :: lo <= v < hi ==> v !in want
    ensures Cost(s, r, want, lo, hi, leaf) == 0
    decreases hi
  {
    if lo < hi { CostNone(s, r, want, lo, hi - 1, leaf); }
  }

  lemma CostOne(s: Vm, r: nat, vpn: nat, leaf: nat)
    requires vpn < NVPN
    ensures Cost(s, r, Every(), vpn, vpn + 1, leaf) == leaf + Missing(s, r, vpn)
  {
    assert Cost(s, r, Every(), vpn, vpn, leaf) == 0;
  }

  /** Between states with the same tables nothing about the cost differs. */
  lemma SameTablesMissing(s0: Vm, s: Vm, r: nat, vpn: nat)
    requires SameMaps(s0, s) && r in s0.roots && vpn < NVPN
    ensures Missing(s, r, vpn) == Missing(s0, r, vpn)
    ensures forall s2 :: TablesAt(s, s2, r, vpn) <==> TablesAt(s0, s2, r, vpn)
  {
    hide LeafPte;
    PrefixInTree(vpn, 1);
    PrefixInTree(vpn, 0);
    assert NodeAt(s, r, 1, Prefix(1, vpn)) == NodeAt(s0, r, 1, Prefix(1, vpn));
    assert NodeAt(s, r, 0, Prefix(0, vpn)) == NodeAt(s0, r, 0, Prefix(0, vpn));
  }

  /** From `s0` to `s` exactly the cost of the range was taken from the free list. */
  ghost predicate Spent(s0: Vm, s: Vm, r: nat, want: iset<nat>, lo: nat, hi: nat, leaf: nat) {
    lo <= hi <= NVPN && TablesFor(s0, s, r, want, lo, hi) && |s.free| + Cost(s0, r, want, lo, hi, leaf) == |s0.free|
  }

  lemma SpentNone(s: Vm, r: nat, want: iset<nat>, lo: nat, leaf: nat)
    requires lo <= NVPN
    ensures Spent(s, s, r, want, lo, lo, leaf)
  {
    TablesNone(s, r, want, lo);
  }

  lemma SpentNext(s0: Vm, s1: Vm, s2: Vm, r: nat, want: iset<nat>, lo: nat, v: nat, leaf: nat)
    requires Spent(s0, s1, r, want, lo, v, leaf) && v < NVPN && v in want && TablesAt(s1, s2, r, v)
    requires |s2.free| == |s1.free| - leaf - Missing(s1, r, v)
    ensures Spent(s0, s2, r, want, lo, v + 1, leaf)
  {
    hide TablesFor, TablesAt, Missing, Fresh;
    FreshIsMissing(s0, s1, r, want, lo, v);
    TablesNext(s0, s1, s2, r, want, lo, v);
  }

  lemma SpentSkip(s0: Vm, s: Vm, r: nat, want: iset<nat>, lo: nat, v: nat, leaf: nat)
    requires Spent(s0, s, r, want, lo, v, leaf) && v < NVPN && v !in want
    ensures Spent(s0, s, r, want, lo, v + 1, leaf)
  {
    hide TablesFor, Fresh;
    TablesSkip(s0, s, r, want, lo, v);
  }

  /** Too few pages for the next one: too few from the start for the range with it. */
  lemma SpentShort(s0: Vm, s: Vm, r: nat, want: iset<nat>, lo: nat, v: nat, leaf: nat)
    requires Spent(s0, s, r, want, lo, v, leaf) && v < NVPN && v in want && |s.free| < leaf + Missing(s, r, v)
    ensures |s0.free| < Cost(s0, r, want, lo, v + 1, leaf)
  {
    hide TablesFor, Missing, Fresh;
    FreshIsMissing(s0, s, r, want, lo, v);
  }
}
