/**
  The user-level heap as a value, in units of one header (16 bytes): the free list in address
  order, the size in every block's header, the blocks handed out, and for every unit obtained
  from the kernel the block it belongs to.
 */
module HeapSpec {
  import opened Common

  datatype Heap = Heap(list: seq<nat>, size: map<nat, nat>, live: set<nat>, owner: map<nat, nat>)

  // ------------------------------------------------- blocks partition the units obtained

  ghost predicate Owns(size: map<nat, nat>, owner: map<nat, nat>, a: nat) {
    a in size && size[a] > 0 && forall u: nat :: a <= u < a + size[a] ==> u in owner && owner[u] == a
  }

  ghost predicate Owned(blocks: set<nat>, size: map<nat, nat>, owner: map<nat, nat>, u: nat) {
    u in owner && owner[u] in blocks && owner[u] in size && owner[u] <= u < owner[u] + size[owner[u]]
  }

  /** Every block owns its units; every unit is owned by the block it lies in. */
  ghost predicate Partition(blocks: set<nat>, size: map<nat, nat>, owner: map<nat, nat>) {
    (forall a :: a in blocks ==> Owns(size, owner, a)) && (forall u :: u in owner ==> Owned(blocks, size, owner, u))
  }

  lemma Disjoint(blocks: set<nat>, size: map<nat, nat>, owner: map<nat, nat>, a: nat, b: nat)
    requires Partition(blocks, size, owner) && a in blocks && b in blocks && a < b
    ensures a in size && b in size && a + size[a] <= b
  {
    assert Owns(size, owner, a) && Owns(size, owner, b);
    OwnsAt(size, owner, b, b);
    if a + size[a] > b { OwnsAt(size, owner, a, b); }
  }

  lemma OwnsAt(size: map<nat, nat>, owner: map<nat, nat>, a: nat, u: nat)
    requires Owns(size, owner, a) && a <= u < a + size[a]
    ensures u in owner && owner[u] == a
  {
  }

  ghost function Renamed(owner: map<nat, nat>, a: nat, b: nat): map<nat, nat> {
    map u | u in owner :: if owner[u] == b then a else owner[u]
  }

  /** Two adjacent blocks become one. */
  lemma PartitionJoin(blocks: set<nat>, size: map<nat, nat>, owner: map<nat, nat>, a: nat, b: nat)
    requires Partition(blocks, size, owner) && a in blocks && b in blocks && a in size && b in size && a + size[a] == b
    ensures Partition(blocks - {b}, size[a := size[a] + size[b]], Renamed(owner, a, b))
  {
    var blocks', size', owner' := blocks - {b}, size[a := size[a] + size[b]], Renamed(owner, a, b);
    assert Owns(size, owner, a) && Owns(size, owner, b);
    forall x | x in blocks' ensures Owns(size', owner', x) {
      JoinOwns(size, owner, a, b, x);
    }
    forall u | u in owner' ensures Owned(blocks', size', owner', u) {
      assert Owned(blocks, size, owner, u);
    }
  }

  lemma JoinOwns(size: map<nat, nat>, owner: map<nat, nat>, a: nat, b: nat, x: nat)
    requires Owns(size, owner, a) && Owns(size, owner, b) && Owns(size, owner, x) && a + size[a] == b && x != b
    ensures Owns(size[a := size[a] + size[b]], Renamed(owner, a, b), x)
  {
  }

  ghost function CutOff(owner: map<nat, nat>, p: nat, q: nat): map<nat, nat> {
    map u | u in owner :: if owner[u] == p && u >= q then q else owner[u]
  }

  /** The tail of a block becomes a block of its own. */
  lemma PartitionSplit(blocks: set<nat>, size: map<nat, nat>, owner: map<nat, nat>, p: nat, n: nat)
    requires Partition(blocks, size, owner) && p in blocks && p in size && 0 < n < size[p]
    ensures var q := p + size[p] - n;
            q !in blocks && Partition(blocks + {q}, size[p := size[p] - n][q := n], CutOff(owner, p, q))
  {
    hide Owns, Owned, CutOff;
    var q := p + size[p] - n;
    SplitIsNew(blocks, size, owner, p, q);
    SplitOwns(blocks, size, owner, p, n);
    CutOffKeys(owner, p, q);
    forall u | u in CutOff(owner, p, q) ensures Owned(blocks + {q}, size[p := size[p] - n][q := n], CutOff(owner, p, q), u) {
      assert u in owner.Keys;
      SplitOwned(blocks, size, owner, p, n, u);
    }
  }

  lemma SplitIsNew(blocks: set<nat>, size: map<nat, nat>, owner: map<nat, nat>, p: nat, q: nat)
    requires Partition(blocks, size, owner) && p in blocks && p in size && p < q < p + size[p]
    ensures q !in blocks
  {
    if q in blocks { Disjoint(blocks, size, owner, p, q); }
  }

  lemma SplitOwned(blocks: set<nat>, size: map<nat, nat>, owner: map<nat, nat>, p: nat, n: nat, u: nat)
    requires p in blocks && p in size && 0 < n < size[p] && p + size[p] - n !in blocks && Owned(blocks, size, owner, u)
    ensures Owned(blocks + {p + size[p] - n}, size[p := size[p] - n][p + size[p] - n := n], CutOff(owner, p, p + size[p] - n), u)
  {
  }

  lemma CutOffKeys(owner: map<nat, nat>, p: nat, q: nat)
    ensures CutOff(owner, p, q).Keys == owner.Keys
  {
  }

  lemma SplitOwns(blocks: set<nat>, size: map<nat, nat>, owner: map<nat, nat>, p: nat, n: nat)
    requires Partition(blocks, size, owner) && p in blocks && p in size && 0 < n < size[p] && p + size[p] - n !in blocks
    ensures var q := p + size[p] - n;
            forall x :: x in blocks + {q} ==> Owns(size[p := size[p] - n][q := n], CutOff(owner, p, q), x)
  {
    hide Owns, CutOff;
    var q := p + size[p] - n;
    var size', owner' := size[p := size[p] - n][q := n], CutOff(owner, p, q);
    SplitTwo(size, owner, p, n);
    forall x | x in blocks && x != p ensures Owns(size', owner', x) {
      HasSize(blocks, size, owner, x);
      SplitOther(size, owner, p, q, x, size');
    }
  }

  lemma SplitTwo(size: map<nat, nat>, owner: map<nat, nat>, p: nat, n: nat)
    requires p in size && 0 < n < size[p] && Owns(size, owner, p)
    ensures var q := p + size[p] - n;
            var size', owner' := size[p := size[p] - n][q := n], CutOff(owner, p, q);
            Owns(size', owner', p) && Owns(size', owner', q)
  {
  }

  lemma SplitOther(size: map<nat, nat>, owner: map<nat, nat>, p: nat, q: nat, x: nat, size': map<nat, nat>)
    requires Owns(size, owner, x) && x != p && x in size' && size'[x] == size[x]
    ensures Owns(size', CutOff(owner, p, q), x)
  {
  }

  lemma RangeHas(b: nat, n: nat, u: nat)
    ensures u in Range(b, n) <==> b <= u < b + n
  {
  }

  ghost function Added(owner: map<nat, nat>, b: nat, n: nat): map<nat, nat> {
    map u | u in owner.Keys + Range(b, n) :: if u in Range(b, n) then b else owner[u]
  }

  /** New units join as one block. */
  lemma PartitionAdd(blocks: set<nat>, size: map<nat, nat>, owner: map<nat, nat>, b: nat, n: nat)
    requires Partition(blocks, size, owner) && n > 0 && forall u :: u in owner ==> u < b
    ensures b !in blocks && Partition(blocks + {b}, size[b := n], Added(owner, b, n))
  {
    hide Range;
    var blocks', size', owner' := blocks + {b}, size[b := n], Added(owner, b, n);
    if b in blocks {
      assert Owns(size, owner, b);
      OwnsAt(size, owner, b, b);
    }
    forall u: nat ensures u in Range(b, n) <==> b <= u < b + n { RangeHas(b, n, u); }
    forall x | x in blocks' ensures Owns(size', owner', x) {
      if x != b { assert Owns(size, owner, x); }
    }
    forall u | u in owner' ensures Owned(blocks', size', owner', u) {
      if u in owner { assert Owned(blocks, size, owner, u); }
    }
  }

  // ------------------------------------------------------------------- the free list

  ghost predicate Sorted(list: seq<nat>) {
    forall i, j :: 0 <= i < j < |list| ==> list[i] < list[j]
  }

  /** The free list starts at the empty anchor, goes up, and no two neighbours touch. */
  ghost predicate ListOk(list: seq<nat>, size: map<nat, nat>, base: nat) {
    && |list| > 0 && list[0] == base && Sorted(list) && base in size && size[base] == 0
    && (forall i :: 0 <= i < |list| - 1 ==> Apart(list, size, i))
  }

  ghost predicate Apart(list: seq<nat>, size: map<nat, nat>, i: nat)
    requires i + 1 < |list|
  {
    list[i] in size && list[i] + size[list[i]] < list[i + 1]
  }

  /** The blocks with units of their own: those handed out and the free ones without the anchor. */
  ghost function Blocks(h: Heap, base: nat): set<nat> {
    h.live + (Elems(h.list) - {base})
  }

  ghost predicate Inv(h: Heap, base: nat) {
    && ListOk(h.list, h.size, base) && Partition(Blocks(h, base), h.size, h.owner)
    && h.live !! Elems(h.list) && forall a :: a in h.live ==> a > base
  }

  /** The free list's place for a block: after entry `t`. */
  ghost predicate Place(list: seq<nat>, b: nat, t: nat) {
    t < |list| && list[t] < b && (t + 1 < |list| ==> b < list[t + 1])
  }

  lemma ListDistinct(list: seq<nat>, i: nat, j: nat)
    requires Sorted(list) && i < |list| && j < |list|
    ensures list[i] == list[j] <==> i == j
    ensures list[i] < list[j] <==> i < j
  {
  }

  function Inserted(list: seq<nat>, k: nat, b: nat): seq<nat>
    requires k <= |list|
  {
    list[..k] + [b] + list[k..]
  }

  lemma WithoutElems(list: seq<nat>, k: nat)
    requires Sorted(list) && k < |list|
    ensures Elems(Without(list, k)) == Elems(list) - {list[k]} && Sorted(Without(list, k))
  {
    var w := Without(list, k);
    forall a | a in list && a != list[k] ensures a in w {
      var i :| 0 <= i < |list| && list[i] == a;
      assert w[if i < k then i else i - 1] == a;
    }
  }

  lemma InsertedSorted(list: seq<nat>, k: nat, b: nat)
    requires Sorted(list) && k <= |list| && (k > 0 ==> list[k - 1] < b) && (k < |list| ==> b < list[k])
    ensures Sorted(Inserted(list, k, b))
  {
    var w := Inserted(list, k, b);
    forall i, j | 0 <= i < j < |w| ensures w[i] < w[j] {
      if i < k { assert w[i] == list[i]; }
      if j > k { assert w[j] == list[j - 1]; }
    }
  }

  lemma InsertedElems(list: seq<nat>, k: nat, b: nat)
    requires Sorted(list) && k <= |list| && (k > 0 ==> list[k - 1] < b) && (k < |list| ==> b < list[k])
    ensures Elems(Inserted(list, k, b)) == Elems(list) + {b} && Sorted(Inserted(list, k, b))
  {
    hide Sorted;
    InsertedSorted(list, k, b);
    var w := Inserted(list, k, b);
    forall a | a in list ensures a in w {
      var i :| 0 <= i < |list| && list[i] == a;
      assert w[if i < k then i else i + 1] == a;
    }
    assert w[k] == b;
  }

  // ----------------------------------------------------------------- free, step by step

  /** The freed block takes in the free block right behind it. */
  ghost function JoinRight(h: Heap, b: nat, t: nat): Heap
    requires t + 1 < |h.list| && b in h.size && h.list[t + 1] in h.size
  {
    var n := h.list[t + 1];
    Heap(Without(h.list, t + 1), h.size[b := h.size[b] + h.size[n]], h.live, Renamed(h.owner, b, n))
  }

  lemma JoinRightKeeps(h: Heap, base: nat, b: nat, t: nat)
    requires Inv(h, base) && b in h.live && Place(h.list, b, t) && t + 1 < |h.list|
    requires b in h.size && b + h.size[b] == h.list[t + 1]
    ensures h.list[t + 1] in h.size
    ensures var h' := JoinRight(h, b, t);
            && Inv(h', base) && Place(h'.list, b, t) && h'.owner.Keys == h.owner.Keys && b in h'.size
            && (t + 1 < |h'.list| ==> b + h'.size[b] < h'.list[t + 1])
  {
    hide Partition, Sorted, Elems;
    var n := h.list[t + 1];
    ListDistinct(h.list, 0, t + 1);
    ElemsHas(h.list, t + 1);
    ElemsIs(h.list, b);
    HasSize(Blocks(h, base), h.size, h.owner, n);
    PartitionJoin(Blocks(h, base), h.size, h.owner, b, n);
    WithoutElems(h.list, t + 1);
    var h' := JoinRight(h, b, t);
    assert Blocks(h', base) == Blocks(h, base) - {n};
    RightApart(h.list, h.size, base, b, t);
  }

  lemma ElemsHas(list: seq<nat>, k: nat)
    requires k < |list|
    ensures list[k] in Elems(list)
  {
  }

  lemma ElemsIs(list: seq<nat>, a: nat)
    ensures a in Elems(list) <==> a in list
  {
  }

  lemma HasSize(blocks: set<nat>, size: map<nat, nat>, owner: map<nat, nat>, a: nat)
    requires Partition(blocks, size, owner) && a in blocks
    ensures a in size && size[a] > 0
  {
    assert Owns(size, owner, a);
  }

  lemma RightApart(list: seq<nat>, size: map<nat, nat>, base: nat, b: nat, t: nat)
    requires ListOk(list, size, base) && t + 1 < |list| && b in size && b + size[b] == list[t + 1] && list[t + 1] in size && b !in list && Place(list, b, t)
    ensures var list', size' := Without(list, t + 1), size[b := size[b] + size[list[t + 1]]];
            && (forall i :: 0 <= i < |list'| - 1 ==> Apart(list', size', i))
            && Place(list', b, t) && (t + 1 < |list'| ==> b + size'[b] < list'[t + 1]) && list'[0] == base
  {
    var list', size' := Without(list, t + 1), size[b := size[b] + size[list[t + 1]]];
    if t + 2 < |list| {
      assert Apart(list, size, t + 1) && list'[t + 1] == list[t + 2];
    }
    forall i | 0 <= i < |list'| - 1 ensures Apart(list', size', i) {
      if i <= t {
        assert Apart(list, size, i);
      }
      if i >= t {
        assert Apart(list, size, i + 1);
      }
    }
  }

  /** The block before it on the list, which ends where it starts, takes it in. */
  ghost function JoinLeft(h: Heap, b: nat, t: nat): Heap
    requires t < |h.list| && b in h.size && h.list[t] in h.size
  {
    var p := h.list[t];
    Heap(h.list, h.size[p := h.size[p] + h.size[b]], h.live - {b}, Renamed(h.owner, p, b))
  }

  lemma JoinLeftKeeps(h: Heap, base: nat, b: nat, t: nat)
    requires Inv(h, base) && b in h.live && Place(h.list, b, t) && b in h.size && h.list[t] in h.size
    requires h.list[t] + h.size[h.list[t]] == b && (t + 1 < |h.list| ==> b + h.size[b] < h.list[t + 1])
    ensures Inv(JoinLeft(h, b, t), base) && h.list[t] != base
  {
    hide Partition, Sorted, Elems;
    var h', p := JoinLeft(h, b, t), h.list[t];
    ElemsHas(h.list, t);
    PartitionJoin(Blocks(h, base), h.size, h.owner, p, b);
    assert Blocks(h', base) == Blocks(h, base) - {b};
    forall i | 0 <= i < |h'.list| - 1 ensures Apart(h'.list, h'.size, i) {
      assert Apart(h.list, h.size, i);
      ListDistinct(h.list, i, t);
    }
  }

  /** It becomes a list entry of its own. */
  ghost function Link(h: Heap, b: nat, t: nat): Heap
    requires t < |h.list|
  {
    Heap(Inserted(h.list, t + 1, b), h.size, h.live - {b}, h.owner)
  }

  lemma LinkKeeps(h: Heap, base: nat, b: nat, t: nat)
    requires Inv(h, base) && b in h.live && Place(h.list, b, t) && b in h.size && h.list[t] in h.size
    requires h.list[t] + h.size[h.list[t]] != b && (t + 1 < |h.list| ==> b + h.size[b] < h.list[t + 1])
    ensures Inv(Link(h, b, t), base)
  {
    hide Partition, Sorted, Elems;
    var h', p := Link(h, b, t), h.list[t];
    ElemsHas(h.list, t);
    if p != base {
      Disjoint(Blocks(h, base), h.size, h.owner, p, b);
    }
    InsertedElems(h.list, t + 1, b);
    assert Blocks(h', base) == Blocks(h, base);
    forall i | 0 <= i < |h'.list| - 1 ensures Apart(h'.list, h'.size, i) {
      if i < t {
        assert Apart(h.list, h.size, i);
      } else if i > t + 1 {
        assert Apart(h.list, h.size, i - 1);
      }
    }
  }

  // ------------------------------------------------------------------ handing out

  /** A block that fits exactly leaves the list. */
  ghost function TakeWhole(h: Heap, j: nat): Heap
    requires j < |h.list|
  {
    Heap(Without(h.list, j), h.size, h.live + {h.list[j]}, h.owner)
  }

  lemma TakeWholeKeeps(h: Heap, base: nat, j: nat)
    requires Inv(h, base) && 0 < j < |h.list|
    ensures Inv(TakeWhole(h, j), base) && h.list[j] !in h.live
  {
    hide Partition, Sorted, Elems;
    var h' := TakeWhole(h, j);
    ListDistinct(h.list, 0, j);
    ElemsHas(h.list, j);
    WithoutElems(h.list, j);
    assert Blocks(h', base) == Blocks(h, base);
    forall i | 0 <= i < |h'.list| - 1 ensures Apart(h'.list, h'.size, i) {
      if i < j {
        assert Apart(h.list, h.size, i);
      }
      if i + 1 >= j {
        assert Apart(h.list, h.size, i + 1);
      }
    }
  }

  /** The tail of a larger block is cut off and handed out. */
  ghost function TakeTail(h: Heap, j: nat, n: nat): Heap
    requires j < |h.list| && h.list[j] in h.size && n < h.size[h.list[j]]
  {
    var p := h.list[j];
    var q := p + h.size[p] - n;
    Heap(h.list, h.size[p := h.size[p] - n][q := n], h.live + {q}, CutOff(h.owner, p, q))
  }

  lemma TakeTailKeeps(h: Heap, base: nat, j: nat, n: nat)
    requires Inv(h, base) && 0 < j < |h.list| && h.list[j] in h.size && 0 < n < h.size[h.list[j]]
    ensures Inv(TakeTail(h, j, n), base)
    ensures var q := h.list[j] + h.size[h.list[j]] - n; q !in Blocks(h, base) && q != base && q !in h.live
  {
    hide Partition, Sorted, Elems;
    var p := h.list[j];
    var q := p + h.size[p] - n;
    var h' := TakeTail(h, j, n);
    ListDistinct(h.list, 0, j);
    ElemsHas(h.list, j);
    PartitionSplit(Blocks(h, base), h.size, h.owner, p, n);
    assert Blocks(h', base) == Blocks(h, base) + {q};
    forall i | 0 <= i < |h'.list| - 1 ensures Apart(h'.list, h'.size, i) {
      assert Apart(h.list, h.size, i);
      ListDistinct(h.list, i, j);
      ListDistinct(h.list, 0, i);
      ElemsHas(h.list, i);
    }
  }

  // ------------------------------------------------------------- memory from the kernel

  /** `n` units at `b` that the heap did not have, as a block handed out. */
  ghost function Extended(h: Heap, b: nat, n: nat): Heap {
    Heap(h.list, h.size[b := n], h.live + {b}, Added(h.owner, b, n))
  }

  lemma ExtendKeeps(h: Heap, base: nat, b: nat, n: nat)
    requires Inv(h, base) && b > base && n > 0 && forall u :: u in h.owner ==> u < b
    ensures Inv(Extended(h, b, n), base) && b !in Blocks(h, base)
    ensures Extended(h, b, n).owner.Keys == h.owner.Keys + Range(b, n)
  {
    hide Partition, Sorted, Elems, Range;
    var h' := Extended(h, b, n);
    PartitionAdd(Blocks(h, base), h.size, h.owner, b, n);
    assert Blocks(h', base) == Blocks(h, base) + {b};
    forall i | 0 <= i < |h'.list| - 1 ensures Apart(h'.list, h'.size, i) {
      assert Apart(h.list, h.size, i);
      ElemsHas(h.list, i);
      ListDistinct(h.list, 0, i);
    }
  }
}
