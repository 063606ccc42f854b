/**
  The block layer of the file system as values: the free bitmap, the inodes' direct and
  single-indirect block maps, and the invariant that every data block in use has exactly one
  owner. A block is a sequence of BSIZE bytes; nothing here depends on a byte's range.
 */
module FsSpec {

  const BSIZE := 1024
  const BPB := BSIZE * 8
  const NDIRECT := 12
  const NINDIRECT := 256
  const MAXFILE := NDIRECT + NINDIRECT

  type Bytes = seq<int>

  datatype Inode = Inode(size: nat, addrs: seq<int>)

  /** What the disk holds (through the log and the cache) and the inodes in memory. */
  datatype Fs = Fs(size: nat, nmeta: nat, bmapstart: nat, blk: map<int, Bytes>, inode: seq<Inode>)

  // ------------------------------------------------------------------- bits

  /** 1 << k. */
  function Mask(k: nat): int {
    if k == 0 then 1 else 2 * Mask(k - 1)
  }

  /** x & (1 << k). */
  predicate Bit(x: int, k: nat)
    decreases k
  {
    if k == 0 then x % 2 == 1 else Bit(x / 2, k - 1)
  }

  /** Adding the mask of a clear bit is or-ing it in: it sets that bit and no other. */
  lemma {:induction false} SetBit(x: int, k: nat, j: nat)
    requires !Bit(x, k)
    ensures Bit(x + Mask(k), j) <==> j == k || Bit(x, j)
    decreases k
  {
    if k > 0 {
      assert (x + Mask(k)) / 2 == x / 2 + Mask(k - 1);
      if j > 0 {
        SetBit(x / 2, k - 1, j - 1);
      }
    }
  }

  /** Subtracting the mask of a set bit is and-ing it out. */
  lemma {:induction false} ClearBit(x: int, k: nat, j: nat)
    requires Bit(x, k)
    ensures Bit(x - Mask(k), j) <==> j != k && Bit(x, j)
    decreases k
  {
    if k > 0 {
      assert (x - Mask(k)) / 2 == x / 2 - Mask(k - 1);
      if j > 0 {
        ClearBit(x / 2, k - 1, j - 1);
      }
    }
  }

  // ------------------------------------------------------------------ words

  /** A little-endian 32-bit word of a block read as an array of uint. */
  function Word(b: Bytes, k: int): int
    requires |b| == BSIZE && 0 <= k < NINDIRECT
  {
    b[4 * k] + 0x100 * b[4 * k + 1] + 0x1_0000 * b[4 * k + 2] + 0x100_0000 * b[4 * k + 3]
  }

  function PutWord(b: Bytes, k: int, v: int): (r: Bytes)
    requires |b| == BSIZE && 0 <= k < NINDIRECT
    ensures |r| == BSIZE
  {
    b[4 * k := v % 0x100][4 * k + 1 := v / 0x100 % 0x100][4 * k + 2 := v / 0x1_0000 % 0x100][4 * k + 3 := v / 0x100_0000 % 0x100]
  }

  lemma Digits(v: int)
    requires 0 <= v < 0x1_0000_0000
    ensures v % 0x100 + 0x100 * (v / 0x100 % 0x100) + 0x1_0000 * (v / 0x1_0000 % 0x100) + 0x100_0000 * (v / 0x100_0000 % 0x100) == v
  {
    var a := v / 0x100;
    var b := a / 0x100;
    assert b == v / 0x1_0000;
    assert b / 0x100 == v / 0x100_0000;
  }

  lemma WordOfPutWord(b: Bytes, k: int, v: int, j: int)
    requires |b| == BSIZE && 0 <= k < NINDIRECT && 0 <= j < NINDIRECT && 0 <= v < 0x1_0000_0000
    ensures Word(PutWord(b, k, v), j) == if j == k then v else Word(b, j)
  {
    if j == k {
      Digits(v);
    }
  }

  /** What bzero writes. */
  function Zeros(): (r: Bytes)
    ensures |r| == BSIZE && forall k :: 0 <= k < BSIZE ==> r[k] == 0
  {
    seq(BSIZE, _ => 0)
  }

  // ------------------------------------------------------------------ layout

  /** The image has its metadata (ending with the bitmap) in front, and every block exists. */
  ghost predicate Shape(s: Fs) {
    && 0 < s.nmeta <= s.size < 0x1_0000_0000
    && s.bmapstart + (s.size - 1) / BPB < s.nmeta
    && (forall b :: 0 <= b < s.size ==> b in s.blk && |s.blk[b]| == BSIZE)
    && (forall i :: 0 <= i < |s.inode| ==> |s.inode[i].addrs| == NDIRECT + 1)
  }

  // ------------------------------------------------------------------ bitmap

  function BitmapBlock(s: Fs, b: nat): int {
    s.bmapstart + b / BPB
  }

  lemma BitmapInMeta(s: Fs, b: nat)
    requires Shape(s) && b < s.size
    ensures 0 <= BitmapBlock(s, b) < s.nmeta
    ensures BitmapBlock(s, b) in s.blk && |s.blk[BitmapBlock(s, b)]| == BSIZE
    ensures 0 <= b % BPB / 8 < BSIZE
  {
  }

  /** The bitmap says block `b` is in use. */
  ghost predicate Used(s: Fs, b: nat)
    requires Shape(s) && b < s.size
  {
    Bit(s.blk[BitmapBlock(s, b)][b % BPB / 8], b % 8)
  }

  ghost function PutBlk(s: Fs, b: int, data: Bytes): Fs {
    s.(blk := s.blk[b := data])
  }

  /** The bitmap byte of block `b` changed by `delta`. */
  ghost function Mark(s: Fs, b: nat, delta: int): Fs
    requires Shape(s) && b < s.size
  {
    var bm := s.blk[BitmapBlock(s, b)];
    PutBlk(s, BitmapBlock(s, b), bm[b % BPB / 8 := bm[b % BPB / 8] + delta])
  }

  lemma SameBit(b: nat, c: nat)
    requires b / BPB == c / BPB && b % BPB / 8 == c % BPB / 8 && b % 8 == c % 8
    ensures b == c
  {
    Split(b);
    Split(c);
  }

  lemma Split(b: nat)
    ensures b == BPB * (b / BPB) + 8 * (b % BPB / 8) + b % 8
  {
    var q, r := b / BPB, b % BPB;
    assert b == 8 * (1024 * q + r / 8) + r % 8;
  }

  lemma PutKeepsShape(s: Fs, b: int, data: Bytes)
    requires Shape(s) && |data| == BSIZE
    ensures Shape(PutBlk(s, b, data))
  {
  }

  /** balloc's bit write marks `b` and no other block. */
  lemma MarkUsed(s: Fs, b: nat, c: nat)
    requires Shape(s) && b < s.size && c < s.size && !Used(s, b)
    ensures Shape(Mark(s, b, Mask(b % 8)))
    ensures Used(Mark(s, b, Mask(b % 8)), c) <==> c == b || Used(s, c)
  {
    BitmapInMeta(s, b);
    BitmapInMeta(s, c);
    if b / BPB == c / BPB && b % BPB / 8 == c % BPB / 8 {
      SetBit(s.blk[BitmapBlock(s, b)][b % BPB / 8], b % 8, c % 8);
      if b % 8 == c % 8 {
        SameBit(b, c);
      }
    }
  }

  /** bfree's bit write frees `b` and no other block. */
  lemma MarkFree(s: Fs, b: nat, c: nat)
    requires Shape(s) && b < s.size && c < s.size && Used(s, b)
    ensures Shape(Mark(s, b, -Mask(b % 8)))
    ensures Used(Mark(s, b, -Mask(b % 8)), c) <==> c != b && Used(s, c)
  {
    BitmapInMeta(s, b);
    BitmapInMeta(s, c);
    if b / BPB == c / BPB && b % BPB / 8 == c % BPB / 8 {
      ClearBit(s.blk[BitmapBlock(s, b)][b % BPB / 8], b % 8, c % 8);
      if b % 8 == c % 8 {
        SameBit(b, c);
      }
    }
  }

  // --------------------------------------------------------------- ownership

  /** A place that can refer to a data block. */
  datatype Slot = Direct(i: nat, k: nat) | Indirect(i: nat) | Entry(i: nat, k: nat)

  predicate IsSlot(s: Fs, slot: Slot) {
    && slot.i < |s.inode|
    && (slot.Direct? ==> slot.k < NDIRECT)
    && (slot.Entry? ==> slot.k < NINDIRECT)
  }

  /** The block number a slot holds; 0 is none. */
  ghost function Ref(s: Fs, slot: Slot): int
    requires Shape(s) && IsSlot(s, slot)
  {
    var addrs := s.inode[slot.i].addrs;
    match slot
    case Direct(_, k) => addrs[k]
    case Indirect(_) => addrs[NDIRECT]
    case Entry(_, k) => if 0 < addrs[NDIRECT] < s.size then Word(s.blk[addrs[NDIRECT]], k) else 0
  }

  /** `owner` names the one slot that refers to each owned block. */
  ghost predicate Owners(s: Fs, owner: map<int, Slot>)
    requires Shape(s)
  {
    && (forall b :: b in owner ==> s.nmeta <= b < s.size && IsSlot(s, owner[b]) && Ref(s, owner[b]) == b)
    && (forall slot :: IsSlot(s, slot) && Ref(s, slot) != 0 ==> Ref(s, slot) in owner && owner[Ref(s, slot)] == slot)
  }

  /** A bit is set exactly for metadata, for owned blocks and for the `loose` ones in transit. */
  ghost predicate Accounted(s: Fs, owned: set<int>, loose: set<int>)
    requires Shape(s)
  {
    && owned !! loose
    && (forall b :: b in loose ==> s.nmeta <= b < s.size)
    && (forall b :: 0 <= b < s.size ==> (Used(s, b) <==> b < s.nmeta || b in owned || b in loose))
  }

  ghost predicate Inv(s: Fs, owner: map<int, Slot>, loose: set<int>) {
    Shape(s) && Owners(s, owner) && Accounted(s, owner.Keys, loose)
  }

  /** Every slot refers to what it did before. */
  ghost predicate SameRefs(s: Fs, s': Fs)
    requires Shape(s) && Shape(s')
  {
    && |s'.inode| == |s.inode|
    && forall slot :: IsSlot(s, slot) ==> Ref(s', slot) == Ref(s, slot)
  }

  lemma SameRefsKeepsOwners(s: Fs, s': Fs, owner: map<int, Slot>)
    requires Shape(s) && Shape(s') && Owners(s, owner) && SameRefs(s, s')
    requires s'.nmeta == s.nmeta && s'.size == s.size
    ensures Owners(s', owner)
  {
    hide Shape, Ref;
    forall slot | IsSlot(s', slot) && Ref(s', slot) != 0
      ensures Ref(s', slot) in owner && owner[Ref(s', slot)] == slot
    {
      assert IsSlot(s, slot);
    }
  }

  /** Writing a block that is nobody's indirect block changes no reference. */
  lemma PutKeepsRefs(s: Fs, owner: map<int, Slot>, b: int, data: Bytes)
    requires Shape(s) && Owners(s, owner) && |data| == BSIZE
    requires b in owner ==> !owner[b].Indirect?
    ensures Shape(PutBlk(s, b, data)) && SameRefs(s, PutBlk(s, b, data)) && Owners(PutBlk(s, b, data), owner)
  {
    var s' := PutBlk(s, b, data);
    PutKeepsShape(s, b, data);
    forall slot | IsSlot(s, slot) ensures Ref(s', slot) == Ref(s, slot) {
      if slot.Entry? {
        var ind := Indirect(slot.i);
        assert IsSlot(s, ind);
        assert Ref(s, ind) != 0 ==> owner[Ref(s, ind)] == ind;
      }
    }
    SameRefsKeepsOwners(s, s', owner);
  }

  /** Writing a block outside the bitmap changes no bit. */
  lemma PutKeepsBits(s: Fs, owned: set<int>, loose: set<int>, b: int, data: Bytes)
    requires Shape(s) && Accounted(s, owned, loose) && |data| == BSIZE && s.nmeta <= b
    ensures Shape(PutBlk(s, b, data)) && Accounted(PutBlk(s, b, data), owned, loose)
  {
    PutKeepsShape(s, b, data);
    var s' := PutBlk(s, b, data);
    forall c | 0 <= c < s.size ensures Used(s', c) <==> Used(s, c) {
      BitmapInMeta(s, c);
    }
  }

  // ------------------------------------------------- allocation and attachment

  /** balloc: a free block is marked and zeroed; it belongs to nobody yet. */
  ghost function Allocated(s: Fs, b: nat): Fs
    requires Shape(s) && b < s.size
  {
    PutBlk(Mark(s, b, Mask(b % 8)), b, Zeros())
  }

  lemma AllocKeeps(s: Fs, owner: map<int, Slot>, loose: set<int>, b: nat)
    requires Inv(s, owner, loose) && b < s.size && !Used(s, b)
    ensures s.nmeta <= b && b !in owner && b !in loose
    ensures Inv(Allocated(s, b), owner, loose + {b})
    ensures SameRefs(s, Allocated(s, b))
    ensures forall x :: s.nmeta <= x && x != b ==> (x in Allocated(s, b).blk <==> x in s.blk) && (x in s.blk ==> Allocated(s, b).blk[x] == s.blk[x])
  {
    BitmapInMeta(s, b);
    var s1 := Mark(s, b, Mask(b % 8));
    MarkUsed(s, b, b);
    assert Accounted(s1, owner.Keys, loose + {b}) by {
      forall c | 0 <= c < s.size ensures Used(s1, c) <==> c == b || Used(s, c) {
        MarkUsed(s, b, c);
      }
    }
    PutKeepsRefs(s, owner, BitmapBlock(s, b), s1.blk[BitmapBlock(s, b)]);
    PutKeepsRefs(s1, owner, b, Zeros());
    PutKeepsBits(s1, owner.Keys, loose + {b}, b, Zeros());
  }

  /** bfree of a block nobody refers to any more. */
  lemma FreeKeeps(s: Fs, owner: map<int, Slot>, loose: set<int>, b: nat)
    requires Inv(s, owner, loose) && b in loose
    ensures b < s.size && Used(s, b)
    ensures Inv(Mark(s, b, -Mask(b % 8)), owner, loose - {b})
    ensures SameRefs(s, Mark(s, b, -Mask(b % 8)))
    ensures forall x :: s.nmeta <= x ==> (x in Mark(s, b, -Mask(b % 8)).blk <==> x in s.blk) && (x in s.blk ==> Mark(s, b, -Mask(b % 8)).blk[x] == s.blk[x])
  {
    BitmapInMeta(s, b);
    var s1 := Mark(s, b, -Mask(b % 8));
    MarkFree(s, b, b);
    assert Accounted(s1, owner.Keys, loose - {b}) by {
      forall c | 0 <= c < s.size ensures Used(s1, c) <==> c != b && Used(s, c) {
        MarkFree(s, b, c);
      }
    }
    PutKeepsRefs(s, owner, BitmapBlock(s, b), s1.blk[BitmapBlock(s, b)]);
  }

  ghost function SetAddr(s: Fs, i: nat, k: nat, v: int): Fs
    requires i < |s.inode| && k < |s.inode[i].addrs|
  {
    s.(inode := s.inode[i := s.inode[i].(addrs := s.inode[i].addrs[k := v])])
  }

  /** The slot that `addrs[k]` is. */
  function AddrSlot(i: nat, k: nat): Slot {
    if k < NDIRECT then Direct(i, k) else Indirect(i)
  }

  /** Exactly the slot `slot` changes, from nothing to `b`. */
  ghost predicate Attaches(s: Fs, s': Fs, slot: Slot, b: int)
    requires Shape(s) && Shape(s')
  {
    && |s'.inode| == |s.inode| && IsSlot(s, slot) && Ref(s, slot) == 0 && Ref(s', slot) == b
    && forall x :: IsSlot(s, x) && x != slot ==> Ref(s', x) == Ref(s, x)
  }

  /** The slots bmap may fill for blocks `lo..hi` of file `i`: theirs, and the indirect block if one lies behind it. */
  predicate Asked(slot: Slot, i: nat, lo: nat, hi: nat) {
    && slot.i == i
    && match slot
       case Direct(_, k) => lo <= k < hi
       case Entry(_, k) => lo <= NDIRECT + k < hi
       case Indirect(_) => lo < hi && NDIRECT < hi
  }

  /** No slot but those asked for changed, and none that referred to a block. */
  ghost predicate FillsOnly(s: Fs, s': Fs, i: nat, lo: nat, hi: nat)
    requires Shape(s) && Shape(s')
  {
    && |s'.inode| == |s.inode|
    && forall slot :: IsSlot(s, slot) && (Ref(s, slot) != 0 || !Asked(slot, i, lo, hi)) ==> Ref(s', slot) == Ref(s, slot)
  }

  lemma FillsTrans(s: Fs, t: Fs, u: Fs, i: nat, lo: nat, mid: nat, lo': nat, hi: nat)
    requires Shape(s) && Shape(t) && Shape(u) && FillsOnly(s, t, i, lo, mid) && FillsOnly(t, u, i, lo', hi) && lo <= lo' <= hi && mid <= hi
    ensures FillsOnly(s, u, i, lo, hi)
  {
    hide Shape, Ref;
    forall slot | IsSlot(s, slot) && (Ref(s, slot) != 0 || !Asked(slot, i, lo, hi)) ensures Ref(u, slot) == Ref(s, slot) {
      assert IsSlot(t, slot) && Ref(t, slot) == Ref(s, slot);
    }
  }

  lemma AttachFills(s: Fs, t: Fs, u: Fs, slot: Slot, b: int, i: nat, lo: nat, hi: nat)
    requires Shape(s) && Shape(t) && Shape(u) && SameRefs(s, t) && Attaches(t, u, slot, b) && Asked(slot, i, lo, hi)
    ensures FillsOnly(s, u, i, lo, hi)
  {
    hide Shape, Ref;
    forall x | IsSlot(s, x) && (Ref(s, x) != 0 || !Asked(x, i, lo, hi)) ensures Ref(u, x) == Ref(s, x) {
      assert IsSlot(t, x) && Ref(t, x) == Ref(s, x);
    }
  }

  lemma SameFills(s: Fs, t: Fs, i: nat, lo: nat, hi: nat)
    requires Shape(s) && Shape(t) && SameRefs(s, t)
    ensures FillsOnly(s, t, i, lo, hi)
  {
    hide Shape, Ref;
  }

  /** `b` is the first block that is neither in use nor one of `taken`. */
  ghost predicate FirstFreeBut(s: Fs, taken: set<int>, b: int)
    requires Shape(s)
  {
    && 0 <= b < s.size && !Used(s, b) && b !in taken
    && forall c :: 0 <= c < b ==> Used(s, c) || c in taken
  }

  /** The bits set are those before and those of `taken`. */
  ghost predicate AlsoUsed(s: Fs, s': Fs, taken: set<int>)
    requires Shape(s) && Shape(s')
  {
    s'.size == s.size && forall c :: 0 <= c < s.size ==> (Used(s', c) <==> Used(s, c) || c in taken)
  }

  lemma OwnedBits(s: Fs, s': Fs, owner: map<int, Slot>, owner': map<int, Slot>, taken: set<int>)
    requires Inv(s, owner, {}) && Inv(s', owner', {}) && s'.size == s.size && s'.nmeta == s.nmeta && owner'.Keys == owner.Keys + taken
    ensures AlsoUsed(s, s', taken)
  {
    hide Used;
  }

  lemma AttachKeepsOwners(s: Fs, s': Fs, owner: map<int, Slot>, slot: Slot, b: int)
    requires Shape(s) && Shape(s') && 0 < s.nmeta == s'.nmeta && s.nmeta <= b < s.size == s'.size
    requires Owners(s, owner) && Attaches(s, s', slot, b) && b !in owner
    ensures Owners(s', owner[b := slot])
  {
    hide Shape, Ref;
    var owner' := owner[b := slot];
    assert IsSlot(s', slot);
    forall c | c in owner' ensures s.nmeta <= c < s.size && IsSlot(s', owner'[c]) && Ref(s', owner'[c]) == c {
      if c != b {
        assert owner'[c] == owner[c] && Ref(s, owner[c]) == c;
        assert owner[c] != slot;
      }
    }
    forall x | IsSlot(s', x) && Ref(s', x) != 0 ensures Ref(s', x) in owner' && owner'[Ref(s', x)] == x {
      assert IsSlot(s, x);
    }
  }

  lemma AccountAttach(s: Fs, owned: set<int>, loose: set<int>, b: int)
    requires Shape(s) && Accounted(s, owned, loose) && b in loose
    ensures Accounted(s, owned + {b}, loose - {b})
  {
  }

  /** Bits do not depend on the inodes. */
  lemma AccountInodes(s: Fs, s': Fs, owned: set<int>, loose: set<int>)
    requires Shape(s) && Shape(s') && s' == s.(inode := s'.inode) && Accounted(s, owned, loose)
    ensures Accounted(s', owned, loose)
  {
    forall b | 0 <= b < s.size ensures Used(s', b) <==> Used(s, b) {
    }
  }

  /** bmap stores a fresh block in `addrs[k]`. */
  lemma AttachAddr(s: Fs, owner: map<int, Slot>, loose: set<int>, i: nat, k: nat, b: int)
    requires Inv(s, owner, loose) && b in loose && s.blk[b] == Zeros()
    requires i < |s.inode| && k <= NDIRECT && s.inode[i].addrs[k] == 0
    ensures Attaches(s, SetAddr(s, i, k, b), AddrSlot(i, k), b)
    ensures Inv(SetAddr(s, i, k, b), owner[b := AddrSlot(i, k)], loose - {b})
  {
    var s' := SetAddr(s, i, k, b);
    var slot := AddrSlot(i, k);
    AttachRefs(s, i, k, b);
    AttachKeepsOwners(s, s', owner, slot, b);
    AccountInodes(s, s', owner.Keys, loose);
    AccountAttach(s', owner.Keys, loose, b);
    assert owner[b := slot].Keys == owner.Keys + {b};
  }

  lemma AttachRefs(s: Fs, i: nat, k: nat, b: int)
    requires Shape(s) && 0 < b < s.size && s.blk[b] == Zeros()
    requires i < |s.inode| && k <= NDIRECT && s.inode[i].addrs[k] == 0
    ensures Shape(SetAddr(s, i, k, b)) && Attaches(s, SetAddr(s, i, k, b), AddrSlot(i, k), b)
  {
    var s' := SetAddr(s, i, k, b);
    forall x | IsSlot(s, x) && x != AddrSlot(i, k) ensures Ref(s', x) == Ref(s, x) {
      if x.i == i && x.Entry? && k == NDIRECT {
        assert Word(Zeros(), x.k) == 0;
      }
    }
  }

  /** bmap stores a fresh block in an indirect block's entry. */
  ghost function SetEntry(s: Fs, i: nat, k: nat, v: int): Fs
    requires Shape(s) && i < |s.inode| && k < NINDIRECT && 0 < s.inode[i].addrs[NDIRECT] < s.size
  {
    var a := s.inode[i].addrs[NDIRECT];
    PutBlk(s, a, PutWord(s.blk[a], k, v))
  }

  lemma AttachEntry(s: Fs, owner: map<int, Slot>, loose: set<int>, i: nat, k: nat, b: int)
    requires Inv(s, owner, loose) && b in loose
    requires i < |s.inode| && k < NINDIRECT && s.inode[i].addrs[NDIRECT] != 0 && Ref(s, Entry(i, k)) == 0
    ensures 0 < s.inode[i].addrs[NDIRECT] < s.size && s.inode[i].addrs[NDIRECT] in owner && owner[s.inode[i].addrs[NDIRECT]] == Indirect(i)
    ensures Shape(SetEntry(s, i, k, b)) && Attaches(s, SetEntry(s, i, k, b), Entry(i, k), b)
    ensures Inv(SetEntry(s, i, k, b), owner[b := Entry(i, k)], loose - {b})
  {
    var a := s.inode[i].addrs[NDIRECT];
    assert IsSlot(s, Indirect(i)) && Ref(s, Indirect(i)) == a;
    var s', slot := SetEntry(s, i, k, b), Entry(i, k);
    PutKeepsBits(s, owner.Keys, loose, a, s'.blk[a]);
    EntryRefs(s, owner, i, k, b);
    AttachKeepsOwners(s, s', owner, slot, b);
    AccountAttach(s', owner.Keys, loose, b);
    assert owner[b := slot].Keys == owner.Keys + {b};
  }

  lemma EntryRefs(s: Fs, owner: map<int, Slot>, i: nat, k: nat, b: int)
    requires Shape(s) && Owners(s, owner) && 0 < b < s.size
    requires i < |s.inode| && k < NINDIRECT && 0 < s.inode[i].addrs[NDIRECT] < s.size && Ref(s, Entry(i, k)) == 0
    ensures Shape(SetEntry(s, i, k, b)) && Attaches(s, SetEntry(s, i, k, b), Entry(i, k), b)
  {
    var a := s.inode[i].addrs[NDIRECT];
    var s' := SetEntry(s, i, k, b);
    WordOfPutWord(s.blk[a], k, b, k);
    forall x | IsSlot(s, x) && x != Entry(i, k) ensures Ref(s', x) == Ref(s, x) {
      if x.Entry? {
        if x.i == i {
          WordOfPutWord(s.blk[a], k, b, x.k);
        } else {
          assert IsSlot(s, Indirect(x.i)) && IsSlot(s, Indirect(i));
          assert Ref(s, Indirect(i)) == a;
          assert Ref(s, Indirect(x.i)) != a;
        }
      }
    }
  }

  // --------------------------------------------------------------- detachment

  /** The slots that vanish when `addrs[k]` is cleared: itself, and all entries behind it. */
  predicate Under(slot: Slot, i: nat, k: nat) {
    if k < NDIRECT then slot == Direct(i, k) else slot.i == i && !slot.Direct?
  }

  ghost function Gone(owner: map<int, Slot>, i: nat, k: nat): set<int> {
    set b | b in owner && Under(owner[b], i, k)
  }

  lemma DetachRefs(s: Fs, i: nat, k: nat, slot: Slot)
    requires Shape(s) && i < |s.inode| && k <= NDIRECT && IsSlot(s, slot)
    ensures Shape(SetAddr(s, i, k, 0))
    ensures Ref(SetAddr(s, i, k, 0), slot) == if Under(slot, i, k) then 0 else Ref(s, slot)
  {
  }

  /** Clearing `addrs[k]` turns the blocks behind it loose and touches no other ownership. */
  lemma DetachKeeps(s: Fs, owner: map<int, Slot>, loose: set<int>, i: nat, k: nat)
    requires Inv(s, owner, loose) && i < |s.inode| && k <= NDIRECT
    ensures Inv(SetAddr(s, i, k, 0), owner - Gone(owner, i, k), loose + Gone(owner, i, k))
  {
    var s', gone := SetAddr(s, i, k, 0), Gone(owner, i, k);
    var owner' := owner - gone;
    DetachRefs(s, i, k, Indirect(i));
    AccountInodes(s, s', owner.Keys, loose);
    assert owner'.Keys == owner.Keys - gone;
    hide Shape, Ref, Used;
    forall b | b in owner' ensures s.nmeta <= b < s.size && IsSlot(s', owner'[b]) && Ref(s', owner'[b]) == b {
      DetachRefs(s, i, k, owner[b]);
    }
    forall slot | IsSlot(s', slot) && Ref(s', slot) != 0
      ensures Ref(s', slot) in owner' && owner'[Ref(s', slot)] == slot
    {
      assert IsSlot(s, slot);
      DetachRefs(s, i, k, slot);
    }
  }

  // -------------------------------------------------------------------- files

  /** The slot of a file's `bn`-th block. */
  function BlockSlot(i: nat, bn: nat): Slot {
    if bn < NDIRECT then Direct(i, bn) else Entry(i, bn - NDIRECT)
  }

  /** The disk block behind a file's `bn`-th block; 0 if there is none. */
  ghost function BlockAt(s: Fs, i: nat, bn: nat): int
    requires Shape(s) && i < |s.inode| && bn < MAXFILE
  {
    Ref(s, BlockSlot(i, bn))
  }

  const MAXBYTES := MAXFILE * BSIZE

  /** The byte at offset `p` of a file's block map; 0 where no block is mapped. */
  ghost function Raw(s: Fs, i: nat, p: nat): int
    requires Shape(s) && i < |s.inode| && p < MAXBYTES
  {
    if 0 < BlockAt(s, i, p / BSIZE) < s.size then s.blk[BlockAt(s, i, p / BSIZE)][p % BSIZE] else 0
  }

  /** A file is a plain byte sequence. */
  ghost function Contents(s: Fs, i: nat): (c: Bytes)
    requires Shape(s) && i < |s.inode|
    ensures |c| == s.inode[i].size
  {
    seq(s.inode[i].size, p requires 0 <= p < s.inode[i].size => if p < MAXBYTES then Raw(s, i, p) else 0)
  }

  /** Every block below the file's size is there. */
  ghost predicate HoleFree(s: Fs, i: nat)
    requires Shape(s) && i < |s.inode|
  {
    && s.inode[i].size <= MAXBYTES
    && forall bn :: 0 <= bn < MAXFILE && bn * BSIZE < s.inode[i].size ==> BlockAt(s, i, bn) != 0
  }

  /** The state between operations: nothing in transit and no holes. */
  ghost predicate Good(s: Fs, owner: map<int, Slot>) {
    Inv(s, owner, {}) && forall i :: 0 <= i < |s.inode| ==> HoleFree(s, i)
  }

  /** From `s` to `s'` blocks may have been added to files, but no byte and no size changed. */
  ghost predicate SameBytes(s: Fs, s': Fs)
    requires Shape(s) && Shape(s')
  {
    && |s'.inode| == |s.inode|
    && (forall i :: 0 <= i < |s.inode| ==> s'.inode[i].size == s.inode[i].size)
    && (forall i, p :: 0 <= i < |s.inode| && 0 <= p < MAXBYTES ==> Raw(s', i, p) == Raw(s, i, p))
    && (forall slot :: IsSlot(s, slot) && Ref(s, slot) != 0 ==> Ref(s', slot) == Ref(s, slot))
  }

  lemma SameBytesTrans(s: Fs, t: Fs, u: Fs)
    requires Shape(s) && Shape(t) && Shape(u) && SameBytes(s, t) && SameBytes(t, u)
    ensures SameBytes(s, u)
  {
    hide Shape, Raw, Ref;
    forall slot | IsSlot(s, slot) && Ref(s, slot) != 0 ensures Ref(u, slot) == Ref(s, slot) {
      assert IsSlot(t, slot);
    }
  }

  lemma SameBytesKeepsHoleFree(s: Fs, s': Fs, i: nat)
    requires Shape(s) && Shape(s') && SameBytes(s, s') && i < |s.inode| && HoleFree(s, i)
    ensures HoleFree(s', i)
  {
    forall bn | 0 <= bn < MAXFILE && bn * BSIZE < s.inode[i].size ensures BlockAt(s', i, bn) != 0 {
      assert BlockAt(s, i, bn) != 0;
      assert IsSlot(s, BlockSlot(i, bn));
    }
  }

  /** A mapped block is an owned block. */
  lemma MappedIsOwned(s: Fs, owner: map<int, Slot>, i: nat, bn: nat)
    requires Shape(s) && Owners(s, owner) && i < |s.inode| && bn < MAXFILE && BlockAt(s, i, bn) != 0
    ensures var b := BlockAt(s, i, bn); b in owner && owner[b] == BlockSlot(i, bn) && s.nmeta <= b < s.size
  {
    assert IsSlot(s, BlockSlot(i, bn));
  }

  lemma AllocSameBytes(s: Fs, owner: map<int, Slot>, loose: set<int>, b: nat)
    requires Inv(s, owner, loose) && b < s.size && !Used(s, b)
    ensures Shape(Allocated(s, b)) && SameBytes(s, Allocated(s, b))
  {
    AllocKeeps(s, owner, loose, b);
    var s' := Allocated(s, b);
    forall i, p | 0 <= i < |s.inode| && 0 <= p < MAXBYTES ensures Raw(s', i, p) == Raw(s, i, p) {
      assert IsSlot(s, BlockSlot(i, p / BSIZE));
      if BlockAt(s, i, p / BSIZE) != 0 {
        MappedIsOwned(s, owner, i, p / BSIZE);
      }
    }
  }

  /** Attaching a zeroed block shows the same zeros the hole did. */
  lemma AttachSameBytes(s: Fs, s': Fs, owner: map<int, Slot>, slot: Slot, b: int)
    requires Shape(s) && Shape(s') && Owners(s, owner) && Attaches(s, s', slot, b)
    requires s'.size == s.size && s.nmeta <= b < s.size && s'.blk[b] == Zeros()
    requires forall i :: 0 <= i < |s.inode| ==> s'.inode[i].size == s.inode[i].size
    requires forall x :: x in owner && !owner[x].Indirect? ==> x in s'.blk && x in s.blk && s'.blk[x] == s.blk[x]
    ensures SameBytes(s, s')
  {
    forall i, p | 0 <= i < |s.inode| && 0 <= p < MAXBYTES ensures Raw(s', i, p) == Raw(s, i, p) {
      assert IsSlot(s, BlockSlot(i, p / BSIZE));
      if BlockSlot(i, p / BSIZE) != slot && BlockAt(s, i, p / BSIZE) != 0 {
        MappedIsOwned(s, owner, i, p / BSIZE);
      }
    }
  }

  /** Writing a file's data block changes that block's bytes of that file and nothing else. */
  lemma WriteRaw(s: Fs, owner: map<int, Slot>, i: nat, bn: nat, data: Bytes)
    requires Shape(s) && Owners(s, owner) && i < |s.inode| && bn < MAXFILE && BlockAt(s, i, bn) != 0 && |data| == BSIZE
    ensures var s' := PutBlk(s, BlockAt(s, i, bn), data);
            && Shape(s') && Owners(s', owner) && SameRefs(s, s')
            && forall j, p :: 0 <= j < |s.inode| && 0 <= p < MAXBYTES ==>
                 Raw(s', j, p) == if j == i && p / BSIZE == bn then data[p % BSIZE] else Raw(s, j, p)
  {
    MappedIsOwned(s, owner, i, bn);
    var b := BlockAt(s, i, bn);
    var s' := PutBlk(s, b, data);
    PutKeepsRefs(s, owner, b, data);
    forall j, p | 0 <= j < |s.inode| && 0 <= p < MAXBYTES
      ensures Raw(s', j, p) == if j == i && p / BSIZE == bn then data[p % BSIZE] else Raw(s, j, p)
    {
      assert IsSlot(s, BlockSlot(j, p / BSIZE));
      if BlockAt(s, j, p / BSIZE) == b {
        MappedIsOwned(s, owner, j, p / BSIZE);
      }
    }
  }

  /** The ownership invariant without the ghost map: no two slots share a block, and the bitmap
      marks exactly the metadata and the blocks some slot refers to. */
  lemma OneOwner(s: Fs, owner: map<int, Slot>)
    requires Inv(s, owner, {})
    ensures forall x, y :: IsSlot(s, x) && IsSlot(s, y) && x != y && Ref(s, x) != 0 ==> Ref(s, x) != Ref(s, y)
    ensures forall b :: 0 <= b < s.size ==>
              (Used(s, b) <==> b < s.nmeta || exists x :: IsSlot(s, x) && Ref(s, x) == b)
  {
    hide Used, Ref;
    forall b | 0 <= b < s.size
      ensures Used(s, b) <==> b < s.nmeta || exists x :: IsSlot(s, x) && Ref(s, x) == b
    {
      if b >= s.nmeta && b in owner {
        assert IsSlot(s, owner[b]) && Ref(s, owner[b]) == b;
      }
    }
  }

  /** `data` written over `c` from `off` on, the file growing if it has to. */
  function Splice(c: Bytes, off: nat, data: Bytes): (r: Bytes)
    requires off <= |c|
    ensures |r| == if off + |data| > |c| then off + |data| else |c|
    ensures forall k :: 0 <= k < |r| ==> r[k] == if off <= k < off + |data| then data[k - off] else c[k]
  {
    c[..off] + data + if off + |data| <= |c| then c[off + |data|..] else []
  }
}
