/**
  malloc and free over headers in memory. Addresses and sizes are in units of one header; the
  kernel's answer to sbrk is a parameter, since malloc asks at most once.
 */
module Umalloc {
  import opened Common
  import opened HeapSpec

  function Next(i: nat, n: nat): (j: nat)
    requires i < n
    ensures j < n
  {
    if i + 1 < n then i + 1 else 0
  }

  /** Steps from entry `i` forward to entry `t` around a circle of `n`. */
  function Dist(i: nat, t: nat, n: nat): nat
    requires i < n && t < n
  {
    if i <= t then t - i else n - i + t
  }

  lemma DistNext(i: nat, t: nat, n: nat)
    requires i < n && t < n
    ensures Dist(i, t, n) < n && (Dist(i, t, n) == 0 <==> i == t)
    ensures i != t ==> Dist(Next(i, n), t, n) == Dist(i, t, n) - 1
    ensures i == t ==> Dist(Next(i, n), t, n) == n - 1
  {
  }

  ghost predicate LinkAt(ptr: map<nat, nat>, list: seq<nat>, i: nat)
    requires i < |list|
  {
    list[i] in ptr && ptr[list[i]] == list[Next(i, |list|)]
  }

  /** The ptr fields chain the list's entries into one circle. */
  ghost predicate Ring(ptr: map<nat, nat>, list: seq<nat>) {
    forall i :: 0 <= i < |list| ==> LinkAt(ptr, list, i)
  }

  /** free's test for having found the place, on the header fields alone. */
  predicate Found(p: nat, next: nat, b: nat) {
    (b > p && b < next) || (p >= next && (b > p || b < next))
  }

  /** On an ascending circle that test holds at the block's place and nowhere else. */
  lemma FoundIsPlace(list: seq<nat>, ptr: map<nat, nat>, b: nat, i: nat)
    requires Sorted(list) && i < |list| && list[0] < b && b !in list && LinkAt(ptr, list, i)
    ensures Found(list[i], ptr[list[i]], b) <==> Place(list, b, i)
  {
    assert i + 1 < |list| ==> list[i] < list[i + 1];
    assert list[0] <= list[i];
  }

  lemma {:induction false} PlaceExists(list: seq<nat>, b: nat, k: nat) returns (t: nat)
    requires k < |list| && list[0] < b && b !in list && (k + 1 < |list| ==> b < list[k + 1])
    ensures Place(list, b, t)
    decreases k
  {
    if list[k] < b {
      t := k;
    } else {
      assert list[k] != b;
      t := PlaceExists(list, b, k - 1);
    }
  }

  /** Blocks that were handed out keep their place and size. */
  ghost predicate LiveSame(h0: Heap, h: Heap, except: set<nat>) {
    forall a :: a in h0.live && a !in except ==> a in h.live && a in h0.size && a in h.size && h.size[a] == h0.size[a]
  }

  /** units for a request: the header and the bytes rounded up. */
  function Units(nbytes: nat): (n: nat)
    ensures n >= 1 && (n - 2) * 16 < nbytes <= (n - 1) * 16
  {
    (nbytes + 15) / 16 + 1
  }

  /** sbrk grew the heap by the units morecore counts on: new memory, and an argument not cut short. */
  predicate Granted(grant: nat, nu: nat, brk: nat) {
    grant >= brk && SbrkArg(AtLeast(nu)) == AtLeast(nu) * 16
  }

  /** What morecore asks for. */
  function AtLeast(nu: nat): (n: nat)
    ensures n >= 4096 && n >= nu && (n == 4096 || n == nu)
  {
    if nu < 4096 then 4096 else nu
  }

  // -------------------------------------------------------------- relinking the ring

  /** Entry `k` leaves the circle: its predecessor points past it. */
  lemma RingWithout(ptr: map<nat, nat>, list: seq<nat>, k: nat)
    requires Sorted(list) && 0 < k < |list| && Ring(ptr, list)
    ensures list[k] in ptr && Ring(ptr[list[k - 1] := ptr[list[k]]], Without(list, k))
  {
    var w := Without(list, k);
    assert LinkAt(ptr, list, k);
    var ptr' := ptr[list[k - 1] := ptr[list[k]]];
    forall i | 0 <= i < |w| ensures LinkAt(ptr', w, i) {
      var j := if i < k then i else i + 1;
      assert LinkAt(ptr, list, j) && w[i] == list[j];
      ListDistinct(list, j, k - 1);
    }
  }

  /** A new entry after entry `t`. */
  lemma RingInserted(ptr: map<nat, nat>, list: seq<nat>, t: nat, b: nat)
    requires Sorted(list) && t < |list| && b !in list && Ring(ptr, list)
    ensures list[t] in ptr && Ring(ptr[b := ptr[list[t]]][list[t] := b], Inserted(list, t + 1, b))
  {
    var w := Inserted(list, t + 1, b);
    assert LinkAt(ptr, list, t);
    var ptr' := ptr[b := ptr[list[t]]][list[t] := b];
    forall i | 0 <= i < |w| ensures LinkAt(ptr', w, i) {
      if i != t + 1 {
        var j := if i <= t then i else i - 1;
        assert LinkAt(ptr, list, j) && w[i] == list[j];
        ListDistinct(list, j, t);
      }
    }
  }

  lemma RingSame(ptr: map<nat, nat>, list: seq<nat>, b: nat, x: nat)
    requires b !in list && Ring(ptr, list)
    ensures Ring(ptr[b := x], list)
  {
    var ptr' := ptr[b := x];
    forall i | 0 <= i < |list| ensures LinkAt(ptr', list, i) {
      assert LinkAt(ptr, list, i);
    }
  }

  class Allocator {
    const base: nat            // the address of the static anchor
    var freep: nat             // 0 before the first malloc
    var ptr: map<nat, nat>     // the ptr field of each header
    var size: map<nat, nat>    // the size field of each header
    ghost var list: seq<nat>
    ghost var live: set<nat>
    ghost var owner: map<nat, nat>
    ghost var brk: nat         // everything obtained lies below

    ghost function H(): Heap
      reads this
    {
      Heap(list, size, live, owner)
    }

    ghost predicate Valid()
      reads this
    {
      && 0 < base < brk && (forall u :: u in owner ==> u < brk)
      && (freep == 0 ==> list == [] && live == {} && owner == map[])
      && (freep != 0 ==> Inv(H(), base) && Ring(ptr, list) && freep in list)
    }

    constructor (anchor: nat, heapStart: nat)
      requires 0 < anchor < heapStart
      ensures Valid() && live == {} && owner == map[]
    {
      base, freep, ptr, size, list, live, owner, brk := anchor, 0, map[], map[], [], {}, map[], heapStart;
    }

    /** free's search: it ends, at the block's place in address order. */
    method FindPlace(b: nat) returns (p: nat, ghost t: nat)
      requires Valid() && b in live
      ensures t < |list| && p == list[t] && Place(list, b, t)
    {
      hide Partition, Sorted, Place, Found, Ring, Dist;
      ghost var i: nat :| i < |list| && list[i] == freep;
      ghost var target := PlaceExists(list, b, |list| - 1);
      PlaceIn(list, b, target);
      p := freep;
      RingAt(ptr, list, i);
      FoundIsPlace(list, ptr, b, i);
      while !Found(p, ptr[p], b)
        invariant i < |list| && p == list[i] && p in ptr && LinkAt(ptr, list, i)
        invariant Found(p, ptr[p], b) <==> Place(list, b, i)
        decreases Dist(i, target, |list|)
      {
        DistNext(i, target, |list|);
        p := ptr[p];
        i := Next(i, |list|);
        RingAt(ptr, list, i);
        FoundIsPlace(list, ptr, b, i);
      }
      t := i;
      PlaceIn(list, b, t);
    }

    /** free's first half: the block takes in the free block right behind it, if there is one. */
    method TakeNext(b: nat, p: nat, ghost t: nat)
      requires Valid() && b in live && Place(list, b, t) && t < |list| && p == list[t]
      modifies `ptr, `size, `list, `owner
      ensures Inv(H(), base) && Place(list, b, t) && t < |list| && list[t] == p && Pending(ptr, list, b, t)
      ensures b in size && (t + 1 < |list| ==> b + size[b] < list[t + 1])
      ensures owner.Keys == old(owner.Keys) && LiveSame(old(H()), H(), {b}) && old(SizeAt(b)) <= size[b]
    {
      hide Partition, Sorted, Ring, Elems, Place, LiveSame, Inserted;
      ghost var h0, ptr0 := H(), ptr;
      BlockSize(h0, base, b);
      PlaceFacts(h0, base, b, t);
      RingAt(ptr, list, t);
      if b + size[b] == ptr[p] {
        NextIs(h0, base, b, t, ptr[p]);
        JoinRightKeeps(h0, base, b, t);
        RingWithout(ptr, list, t + 1);
        RingAt(ptr, list, t + 1);
        JoinRightLive(h0, base, b, t);
        var next := ptr[p];
        size := size[b := size[b] + size[next]];
        ptr := ptr[b := ptr[next]];
        list, owner := Without(list, t + 1), Renamed(owner, b, next);
        PlaceFacts(H(), base, b, t);
        RingSkip(ptr0, list, p, next, b);
      } else {
        NotNext(h0, base, b, t, ptr[p]);
        ptr := ptr[b := ptr[p]];
        RingSkipSame(ptr0, list, t, b);
        LiveSameRefl(h0, base, {b});
      }
    }

    /** free's second half: it joins the free block right before it, or becomes an entry. */
    method Attach(b: nat, p: nat, ghost t: nat)
      requires 0 < base < brk && (forall u :: u in owner ==> u < brk)
      requires Inv(H(), base) && b in live && Place(list, b, t) && t < |list| && p == list[t] && Pending(ptr, list, b, t)
      requires b in size && (t + 1 < |list| ==> b + size[b] < list[t + 1])
      modifies `freep, `ptr, `size, `list, `live, `owner
      ensures Valid() && freep != 0
      ensures live == old(live) - {b} && owner.Keys == old(owner.Keys)
      ensures LiveSame(old(H()), H(), {b}) && HasFree(H(), old(SizeAt(b)))
    {
      hide Partition, Sorted, Ring, Elems, Place, LiveSame, HasFree, Without;
      ghost var h1 := H();
      PlaceFacts(h1, base, b, t);
      LiveSameRefl(h1, base, {b});
      if p + size[p] == b {
        JoinLeftKeeps(h1, base, b, t);
        JoinLeftLive(h1, base, b, t);
        size := size[p := size[p] + size[b]];
        ptr := ptr[p := ptr[b]];
        live, owner := live - {b}, Renamed(owner, p, b);
        Merged(H(), t, h1.size[b]);
      } else {
        LinkKeeps(h1, base, b, t);
        LinkLive(h1, base, b, t);
        RingLink(ptr, list, t, b);
        ptr := ptr[p := b];
        list, live := Inserted(list, t + 1, b), live - {b};
        assert list[t] == p;
        Merged(H(), t + 1, h1.size[b]);
      }
      freep := p;
    }

    /**
      free: the block goes back to the list, merged with the free neighbours it touches. No unit
      is lost or gained, and every other block handed out stays.
     */
    method Free(b: nat)
      requires Valid() && b in live
      modifies `freep, `ptr, `size, `list, `live, `owner
      ensures Valid() && freep != 0
      ensures live == old(live) - {b} && owner.Keys == old(owner.Keys)
      ensures LiveSame(old(H()), H(), {b})
      ensures HasFree(H(), old(SizeAt(b)))
    {
      hide Inv, Ring, Place, LiveSame, HasFree, Pending;
      ghost var h0 := H();
      var p; ghost var t;
      p, t := FindPlace(b);
      TakeNext(b, p, t);
      ghost var h1 := H();
      Attach(b, p, t);
      LiveSameTrans(h0, h1, H(), {b});
      HasFreeLess(H(), h1.size[b], if b in h0.size then h0.size[b] else 0);
    }

    /** morecore: `grant` is what sbrk returned, 0 if it failed. */
    method Morecore(nu: nat, grant: nat) returns (p: nat)
      requires Valid() && freep != 0 && nu > 0 && (grant != 0 ==> Granted(grant, nu, brk))
      modifies `freep, `ptr, `size, `list, `live, `owner, `brk
      ensures Valid() && freep != 0 && live == old(live) && LiveSame(old(H()), H(), {})
      ensures grant == 0 ==> p == 0 && H() == old(H()) && freep == old(freep)
      ensures grant != 0 ==> p == freep && owner.Keys == old(owner.Keys) + Range(grant, if nu < 4096 then 4096 else nu) && HasFree(H(), nu)
    {
      hide Partition, Sorted, Elems, Ring, LiveSame, HasFree, Range;
      ghost var h0 := H();
      LiveSameRefl(h0, base, {});
      if grant == 0 {
        return 0;
      }
      var units := AtLeast(nu);
      ExtendKeeps(h0, base, grant, units);
      ExtendLive(h0, base, grant, units);
      size := size[grant := units];
      live, owner := live + {grant}, Added(owner, grant, units);
      brk := grant + units;
      ghost var h1 := H();
      BelowBreak(h0.owner, grant, units);
      Free(grant);
      LiveSameNew(h0, h1, H(), grant);
      HasFreeLess(H(), units, nu);
      return freep;
    }

    /**
      malloc: a block of exactly the units asked for, taken from the free list, or from new memory
      when no free block is large enough; sbrk is asked once at most. All other blocks handed out
      stay, and no unit is lost. It fails only when sbrk does, and then nothing has changed.
     */
    method Malloc(nbytes: nat, grant: nat) returns (ap: nat)
      requires Valid() && (grant != 0 ==> Granted(grant, Units(nbytes), brk))
      modifies `freep, `ptr, `size, `list, `live, `owner, `brk
      ensures Valid()
      ensures ap == 0 <==> !HasFree(old(H()), Units(nbytes)) && grant == 0
      ensures ap == 0 ==> live == old(live) && owner == old(owner) && LiveSame(old(H()), H(), {})
      ensures ap != 0 ==>
                && ap - 1 !in old(live) && live == old(live) + {ap - 1} && LiveSame(old(H()), H(), {})
                && ap - 1 in size && size[ap - 1] == Units(nbytes) && (size[ap - 1] - 2) * 16 < nbytes <= (size[ap - 1] - 1) * 16
                && owner.Keys == old(owner.Keys) + if HasFree(old(H()), Units(nbytes)) then {}
                                                   else Range(grant, if Units(nbytes) < 4096 then 4096 else Units(nbytes))
    {
      hide Partition, Sorted, Elems, Ring, LiveSame, HasFree, Range, Inv, Dist;
      var nunits := Units(nbytes);
      if freep == 0 {
        ptr, size, freep := ptr[base := base], size[base := 0], base;
        list := [base];
      }
      ghost var h0, h1, grown := old(H()), H(), false;
      Fresh(h0, h1, base, nunits, ptr);
      var prevp := freep;
      ghost var f: nat, i: nat := Start(list, ptr, freep);
      var p := ptr[prevp];
      AllSmallStart(H(), f, nunits);
      while true
        invariant Valid() && freep != 0 && f < |list| && i < |list| && freep == list[f] && p == list[Next(i, |list|)] && prevp == list[i]
        invariant live == h0.live && LiveSame(h0, H(), {})
        invariant AllSmall(H(), f, Next(i, |list|), nunits)
        invariant !grown ==> H() == h1 && brk == old(brk)
        invariant grown ==> grant != 0 && HasFree(H(), nunits) && !HasFree(h0, nunits) && owner.Keys == h0.owner.Keys + Range(grant, AtLeast(nunits))
        decreases if grown then 0 else 1, Dist(Next(i, |list|), f, |list|)
      {
        ghost var j := Next(i, |list|);
        EntrySize(H(), base, j);
        if size[p] >= nunits {
          Merged(H(), j, nunits);
          ap := Take(prevp, p, nunits, i, h0);
          return;
        }
        AllSmallNext(H(), f, j, nunits);
        if p == freep {
          SameEntry(H(), base, j, f);
          NoneLarge(H(), f, j, nunits);
          p := Morecore(nunits, grant);
          LiveSameTrans(h0, h1, H(), {});
          if p == 0 {
            return 0;
          }
          grown := true;
          f, i := Start(list, ptr, freep);
          DistNext(f, f, |list|);
        } else {
          i := j;
          DistinctEntry(H(), base, j, f);
          DistNext(j, f, |list|);
        }
        AllSmallStart(H(), f, nunits);
        RingAt(ptr, list, i);
        prevp := p;
        p := ptr[p];
      }
    }

    /** Handing out from the entry after `prevp`: all of it, or its tail. */
    method Take(prevp: nat, at: nat, n: nat, ghost i: nat, ghost h0: Heap) returns (ap: nat)
      requires Valid() && freep != 0 && i < |list| && prevp == list[i] && at == list[Next(i, |list|)] && n > 0 && at in size && size[at] >= n
      requires live == h0.live && LiveSame(h0, H(), {})
      modifies `freep, `ptr, `size, `list, `live, `owner
      ensures Valid() && ap != 0 && ap - 1 !in h0.live && live == h0.live + {ap - 1} && LiveSame(h0, H(), {})
      ensures ap - 1 in size && size[ap - 1] == n && owner.Keys == old(owner.Keys)
    {
      hide Inv, Sorted, Ring, LiveSame;
      ghost var h1 := H();
      NotAnchor(h1, base, i, n);
      var p := at;
      if size[p] == n {
        TakeAll(prevp, p, i);
      } else {
        p := TakeEnd(p, n, i + 1);
      }
      LiveSameTrans(h0, h1, H(), {});
      freep := prevp;
      return p + 1;
    }

    /** An exact fit is unlinked. */
    method TakeAll(prevp: nat, p: nat, ghost i: nat)
      requires Valid() && freep != 0 && i + 1 < |list| && prevp == list[i] && p == list[i + 1]
      modifies `ptr, `list, `live
      ensures Inv(H(), base) && Ring(ptr, list) && prevp in list
      ensures p !in old(live) && live == old(live) + {p} && LiveSame(old(H()), H(), {})
    {
      hide Inv, Sorted, Ring, LiveSame;
      InvSorted(H(), base);
      TakeWholeKeeps(H(), base, i + 1);
      RingWithout(ptr, list, i + 1);
      TakeWholeLive(H(), base, i + 1);
      ptr := ptr[prevp := ptr[p]];
      list, live := Without(list, i + 1), live + {p};
      assert list[i] == prevp;
    }

    /** Otherwise the tail of the block is handed out. */
    method TakeEnd(at: nat, n: nat, ghost j: nat) returns (p: nat)
      requires Valid() && freep != 0 && 0 < j < |list| && at == list[j] && at in size && 0 < n < size[at]
      modifies `size, `live, `owner
      ensures Inv(H(), base) && p in size && size[p] == n && owner.Keys == old(owner.Keys)
      ensures p !in old(live) && live == old(live) + {p} && LiveSame(old(H()), H(), {})
    {
      hide Inv, Blocks, LiveSame;
      TakeTailKeeps(H(), base, j, n);
      TakeTailLive(H(), base, j, n);
      p := at;
      size := size[p := size[p] - n];
      p := p + size[p];
      size := size[p := n];
      live, owner := live + {p}, CutOff(owner, at, p);
    }

    ghost function SizeAt(b: nat): nat
      reads this
    {
      if b in size then size[b] else 0
    }
  }

  /** The block's own pointer is where its list predecessor should lead, which may still be stale. */
  ghost predicate Pending(ptr: map<nat, nat>, list: seq<nat>, b: nat, t: nat) {
    t < |list| && b in ptr && Ring(ptr[list[t] := ptr[b]], list)
  }

  lemma LiveSameTrans(h0: Heap, h1: Heap, h2: Heap, except: set<nat>)
    requires LiveSame(h0, h1, except) && LiveSame(h1, h2, except)
    ensures LiveSame(h0, h2, except)
  {
  }

  lemma HasFreeLess(h: Heap, n: nat, k: nat)
    requires HasFree(h, n) && k <= n
    ensures HasFree(h, k)
  {
  }

  /** Some block of the free list has at least `n` units. */
  ghost predicate HasFree(h: Heap, n: nat) {
    exists i :: 0 <= i < |h.list| && h.list[i] in h.size && h.size[h.list[i]] >= n
  }

  lemma Merged(h: Heap, i: nat, n: nat)
    requires i < |h.list| && h.list[i] in h.size && h.size[h.list[i]] >= n
    ensures HasFree(h, n)
  {
  }

  lemma RingAt(ptr: map<nat, nat>, list: seq<nat>, i: nat)
    requires Ring(ptr, list) && i < |list|
    ensures LinkAt(ptr, list, i)
  {
  }

  lemma PlaceIn(list: seq<nat>, b: nat, t: nat)
    requires Place(list, b, t)
    ensures t < |list|
  {
  }

  lemma BlockSize(h: Heap, base: nat, b: nat)
    requires Inv(h, base) && b in h.live
    ensures b in h.size && h.size[b] > 0 && b !in h.list
  {
    HasSize(Blocks(h, base), h.size, h.owner, b);
  }

  lemma PlaceFacts(h: Heap, base: nat, b: nat, t: nat)
    requires Inv(h, base) && b in h.live && Place(h.list, b, t)
    ensures t < |h.list| && h.list[t] in h.size && base <= h.list[t] < b && b !in h.list
  {
    if h.list[t] != base {
      HasSize(Blocks(h, base), h.size, h.owner, h.list[t]);
    }
  }

  /** The block ends where the next pointer leads: that is the next entry, not the anchor. */
  lemma NextIs(h: Heap, base: nat, b: nat, t: nat, next: nat)
    requires Inv(h, base) && b in h.live && Place(h.list, b, t) && next == h.list[Next(t, |h.list|)]
    requires b in h.size && b + h.size[b] == next
    ensures t + 1 < |h.list| && next == h.list[t + 1]
  {
  }

  lemma NotNext(h: Heap, base: nat, b: nat, t: nat, next: nat)
    requires Inv(h, base) && b in h.live && Place(h.list, b, t) && next == h.list[Next(t, |h.list|)]
    requires b in h.size && b + h.size[b] != next
    ensures t + 1 < |h.list| ==> b + h.size[b] < h.list[t + 1]
  {
    hide Partition, Sorted;
    if t + 1 < |h.list| {
      ListDistinctZero(h, base, t + 1);
      Disjoint(Blocks(h, base), h.size, h.owner, b, h.list[t + 1]);
    }
  }

  lemma ListDistinctZero(h: Heap, base: nat, k: nat)
    requires Inv(h, base) && 0 < k < |h.list|
    ensures h.list[k] != base && h.list[k] in Blocks(h, base)
  {
    ListDistinct(h.list, 0, k);
  }

  lemma RingSkip(ptr: map<nat, nat>, list: seq<nat>, p: nat, next: nat, b: nat)
    requires next in ptr && Ring(ptr[p := ptr[next]], list) && b !in list && b != p
    ensures Ring(ptr[b := ptr[next]][p := ptr[next]], list)
  {
    RingSame(ptr[p := ptr[next]], list, b, ptr[next]);
    assert ptr[b := ptr[next]][p := ptr[next]] == ptr[p := ptr[next]][b := ptr[next]];
  }

  lemma RingSkipSame(ptr: map<nat, nat>, list: seq<nat>, t: nat, b: nat)
    requires Ring(ptr, list) && t < |list| && b !in list
    ensures list[t] in ptr && Ring(ptr[b := ptr[list[t]]][list[t] := ptr[list[t]]], list)
  {
    assert LinkAt(ptr, list, t);
    RingSame(ptr, list, b, ptr[list[t]]);
    assert ptr[b := ptr[list[t]]][list[t] := ptr[list[t]]] == ptr[b := ptr[list[t]]];
  }

  lemma RingLink(ptr: map<nat, nat>, list: seq<nat>, t: nat, b: nat)
    requires Sorted(list) && t < |list| && b !in list && b in ptr && Ring(ptr[list[t] := ptr[b]], list)
    ensures Ring(ptr[list[t] := b], Inserted(list, t + 1, b))
  {
    var ptr1: map<nat, nat> := ptr[list[t] := ptr[b]];
    RingInserted(ptr1, list, t, b);
    assert ptr1[b := ptr1[list[t]]][list[t] := b] == ptr[list[t] := b];
  }

  lemma LiveSameRefl(h: Heap, base: nat, except: set<nat>)
    requires Inv(h, base)
    ensures LiveSame(h, h, except)
  {
    forall a | a in h.live ensures a in h.size { BlockSize(h, base, a); }
  }

  lemma JoinRightLive(h: Heap, base: nat, b: nat, t: nat)
    requires Inv(h, base) && b in h.live && t + 1 < |h.list| && b in h.size && h.list[t + 1] in h.size
    ensures LiveSame(h, JoinRight(h, b, t), {b})
  {
    LiveSameRefl(h, base, {b});
  }

  lemma JoinLeftLive(h: Heap, base: nat, b: nat, t: nat)
    requires Inv(h, base) && t < |h.list| && b in h.size && h.list[t] in h.size
    ensures LiveSame(h, JoinLeft(h, b, t), {b})
  {
    LiveSameRefl(h, base, {b});
    assert h.list[t] in Elems(h.list);
  }

  lemma LinkLive(h: Heap, base: nat, b: nat, t: nat)
    requires Inv(h, base) && t < |h.list|
    ensures LiveSame(h, Link(h, b, t), {b})
  {
    LiveSameRefl(h, base, {b});
  }

  // ------------------------------------------------------------------ malloc's steps

  lemma ExtendLive(h: Heap, base: nat, b: nat, n: nat)
    requires Inv(h, base) && b !in Blocks(h, base)
    ensures LiveSame(h, Extended(h, b, n), {})
  {
    LiveSameRefl(h, base, {});
  }

  lemma BelowBreak(owner: map<nat, nat>, b: nat, n: nat)
    requires forall u :: u in owner ==> u < b
    ensures forall u :: u in Added(owner, b, n) ==> u < b + n
  {
    hide Range;
    forall u | u in Range(b, n) ensures u < b + n { RangeHas(b, n, u); }
  }

  lemma LiveSameNew(h0: Heap, h1: Heap, h2: Heap, b: nat)
    requires LiveSame(h0, h1, {}) && LiveSame(h1, h2, {b}) && b !in h0.live
    ensures LiveSame(h0, h2, {})
  {
  }

  /** The first malloc sets up the empty list; otherwise nothing changes. */
  lemma Fresh(h0: Heap, h: Heap, base: nat, n: nat, ptr: map<nat, nat>)
    requires n > 0 && base > 0
    requires (h0 == h && Inv(h, base) && Ring(ptr, h.list)) ||
             (h0.list == [] && h0.live == {} && h0.owner == map[] && h == Heap([base], h0.size[base := 0], {}, map[]) && base in ptr && ptr[base] == base)
    ensures Inv(h, base) && Ring(ptr, h.list) && HasFree(h, n) == HasFree(h0, n)
    ensures h.live == h0.live && h.owner == h0.owner && LiveSame(h0, h, {})
  {
    if h0.list == [] {
      assert h.list[0] == base;
    } else {
      LiveSameRefl(h, base, {});
    }
  }

  ghost function IndexOf(list: seq<nat>, a: nat): (i: nat)
    requires a in list
    ensures i < |list| && list[i] == a
  {
    var i :| 0 <= i < |list| && list[i] == a; i
  }

  lemma Start(list: seq<nat>, ptr: map<nat, nat>, freep: nat) returns (f: nat, i: nat)
    requires freep in list && Ring(ptr, list)
    ensures f < |list| && list[f] == freep && i == f && LinkAt(ptr, list, f)
  {
    f := IndexOf(list, freep);
    i := f;
    assert LinkAt(ptr, list, f);
  }

  /** Every entry the search has passed on its way around to `f` is too small. */
  ghost predicate AllSmall(h: Heap, f: nat, j: nat, n: nat) {
    f < |h.list| && j < |h.list| && forall k :: 0 <= k < |h.list| && Dist(k, f, |h.list|) > Dist(j, f, |h.list|) ==> SmallAt(h, k, n)
  }

  ghost predicate SmallAt(h: Heap, k: nat, n: nat)
    requires k < |h.list|
  {
    h.list[k] in h.size && h.size[h.list[k]] < n
  }

  lemma AllSmallStart(h: Heap, f: nat, n: nat)
    requires f < |h.list|
    ensures AllSmall(h, f, Next(f, |h.list|), n)
  {
    DistNext(f, f, |h.list|);
    forall k | 0 <= k < |h.list| ensures Dist(k, f, |h.list|) <= |h.list| - 1 { DistNext(k, f, |h.list|); }
  }

  lemma AllSmallNext(h: Heap, f: nat, j: nat, n: nat)
    requires AllSmall(h, f, j, n) && SmallAt(h, j, n)
    ensures j != f ==> AllSmall(h, f, Next(j, |h.list|), n)
    ensures j == f ==> forall k :: 0 <= k < |h.list| ==> SmallAt(h, k, n)
  {
    forall k | 0 <= k < |h.list| && Dist(k, f, |h.list|) >= Dist(j, f, |h.list|) ensures SmallAt(h, k, n) {
    }
    DistNext(j, f, |h.list|);
  }

  lemma NoneLarge(h: Heap, f: nat, j: nat, n: nat)
    requires forall k :: 0 <= k < |h.list| ==> SmallAt(h, k, n)
    ensures !HasFree(h, n)
  {
    forall i | 0 <= i < |h.list| && h.list[i] in h.size ensures h.size[h.list[i]] < n {
      assert SmallAt(h, i, n);
    }
  }

  lemma EntrySize(h: Heap, base: nat, j: nat)
    requires Inv(h, base) && j < |h.list|
    ensures h.list[j] in h.size && h.list[j] >= base
  {
    if j > 0 {
      ListDistinctZero(h, base, j);
      HasSize(Blocks(h, base), h.size, h.owner, h.list[j]);
    }
  }

  lemma SameEntry(h: Heap, base: nat, j: nat, f: nat)
    requires Inv(h, base) && j < |h.list| && f < |h.list| && h.list[j] == h.list[f]
    ensures j == f
  {
    ListDistinct(h.list, j, f);
  }

  lemma DistinctEntry(h: Heap, base: nat, j: nat, f: nat)
    requires Inv(h, base) && j < |h.list| && f < |h.list| && h.list[j] != h.list[f]
    ensures j != f
  {
  }

  lemma NotAnchor(h: Heap, base: nat, i: nat, n: nat)
    requires Inv(h, base) && i < |h.list| && n > 0
    requires h.list[Next(i, |h.list|)] in h.size && h.size[h.list[Next(i, |h.list|)]] >= n
    ensures i + 1 < |h.list| && Next(i, |h.list|) == i + 1 && h.list[i] >= base && Sorted(h.list)
  {
    EntrySize(h, base, i);
  }

  lemma InvSorted(h: Heap, base: nat)
    requires Inv(h, base)
    ensures Sorted(h.list)
  {
  }

  lemma TakeWholeLive(h: Heap, base: nat, j: nat)
    requires Inv(h, base) && j < |h.list|
    ensures LiveSame(h, TakeWhole(h, j), {})
  {
    LiveSameRefl(h, base, {});
  }

  lemma TakeTailLive(h: Heap, base: nat, j: nat, n: nat)
    requires Inv(h, base) && j < |h.list| && h.list[j] in h.size && n < h.size[h.list[j]]
    requires h.list[j] + h.size[h.list[j]] - n !in Blocks(h, base)
    ensures LiveSame(h, TakeTail(h, j, n), {})
  {
    LiveSameRefl(h, base, {});
    assert h.list[j] in Elems(h.list);
  }

  // -------------------------------------------------------- the argument sbrk receives

  /** sbrk takes an int: the byte count is cut to 32 bits and read as signed. */
  function SbrkArg(nu: nat): (n: int)
    ensures -0x8000_0000 <= n < 0x8000_0000
  {
    var low := nu * 16 % 0x1_0000_0000;
    if low < 0x8000_0000 then low else low - 0x1_0000_0000
  }

  /**
    sbrk is asked for the bytes of the block exactly when there are fewer than 2^27 units;
    otherwise it is asked for less, and the new header claims units the heap does not have.
   */
  lemma SbrkArgExact(nu: nat)
    ensures SbrkArg(nu) == nu * 16 <==> nu < 0x800_0000
    ensures nu >= 0x800_0000 ==> SbrkArg(nu) < nu * 16
  {
  }

  /** malloc's 32-bit argument can ask for that much: here sbrk is asked for nothing at all. */
  lemma LargeRequestAsksForNothing()
    ensures Units(0xFFFF_FFF0) == 0x1000_0000 && SbrkArg(AtLeast(Units(0xFFFF_FFF0))) == 0
  {
  }

  /** The largest request for which malloc asks for what it needs. */
  lemma RequestFits(nbytes: nat)
    ensures SbrkArg(AtLeast(Units(nbytes))) == AtLeast(Units(nbytes)) * 16 <==> nbytes <= 0x7FFF_FFE0
  {
    SbrkArgExact(AtLeast(Units(nbytes)));
  }
}
