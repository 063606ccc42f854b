/**
  mkfs: how the initial image is built. Blocks are handed out by a counter, nothing is marked
  in the bitmap until the very end, and running past the end of the image or past the maximal
  file size stops the program (`false` here), so an image that is completed fits.
 */
module Mkfs {
  import opened Common
  import opened FsSpec
  import opened FileSys

  /**
    The image while files are being appended: the bitmap is still clear, the blocks handed out
    are exactly the owned ones, and the blocks behind the counter are still zero.
   */
  ghost predicate Building(s: Fs, owner: map<int, Slot>, freeblock: nat) {
    && Shape(s) && Owners(s, owner)
    && s.nmeta <= freeblock <= s.size
    && (forall b :: b in owner <==> s.nmeta <= b < freeblock)
    && (forall b :: freeblock <= b < s.size ==> s.blk[b] == Zeros())
    && (forall b :: s.bmapstart <= b < s.nmeta ==> s.blk[b] == Zeros())
    && (forall i :: 0 <= i < |s.inode| ==> HoleFree(s, i))
  }

  lemma EmptyImage(s: Fs)
    requires s.nmeta == s.bmapstart + s.size / BPB + 1 <= s.size < 0x1_0000_0000
    requires forall b :: 0 <= b < s.size ==> b in s.blk && |s.blk[b]| == BSIZE && (b >= s.bmapstart ==> s.blk[b] == Zeros())
    requires forall i :: 0 <= i < |s.inode| ==> s.inode[i].size == 0 && |s.inode[i].addrs| == NDIRECT + 1
    requires forall i, k :: 0 <= i < |s.inode| && 0 <= k <= NDIRECT ==> s.inode[i].addrs[k] == 0
    ensures Building(s, map[], s.nmeta)
  {
    hide Shape, Owners, HoleFree;
    EmptyShape(s);
    EmptyOwners(s);
    forall i | 0 <= i < |s.inode| ensures HoleFree(s, i) { EmptyFile(s, i); }
  }

  lemma EmptyFile(s: Fs, i: nat)
    requires Shape(s) && i < |s.inode| && s.inode[i].size == 0
    ensures HoleFree(s, i)
  {
    hide Shape, BlockAt;
  }

  lemma EmptyOwners(s: Fs)
    requires Shape(s) && forall i, k :: 0 <= i < |s.inode| && 0 <= k <= NDIRECT ==> s.inode[i].addrs[k] == 0
    ensures Owners(s, map[])
  {
    hide Ref;
    forall slot | IsSlot(s, slot) ensures Ref(s, slot) == 0 { EmptySlot(s, slot); }
  }

  lemma EmptyShape(s: Fs)
    requires s.nmeta == s.bmapstart + s.size / BPB + 1 <= s.size < 0x1_0000_0000
    requires forall b :: 0 <= b < s.size ==> b in s.blk && |s.blk[b]| == BSIZE
    requires forall i :: 0 <= i < |s.inode| ==> |s.inode[i].addrs| == NDIRECT + 1
    ensures Shape(s)
  {
    assert (s.size - 1) / BPB <= s.size / BPB;
  }

  lemma EmptySlot(s: Fs, slot: Slot)
    requires Shape(s) && IsSlot(s, slot) && forall k :: 0 <= k <= NDIRECT ==> s.inode[slot.i].addrs[k] == 0
    ensures Ref(s, slot) == 0
  {
  }

  /** A block from the counter stored in `addrs[k]`. */
  lemma HandOutAddr(s: Fs, owner: map<int, Slot>, fb: nat, i: nat, k: nat)
    requires Building(s, owner, fb) && fb < s.size && i < |s.inode| && k <= NDIRECT && s.inode[i].addrs[k] == 0
    ensures Building(SetAddr(s, i, k, fb), owner[fb := AddrSlot(i, k)], fb + 1)
    ensures SameBytes(s, SetAddr(s, i, k, fb)) && Attaches(s, SetAddr(s, i, k, fb), AddrSlot(i, k), fb)
  {
    hide Owners, HoleFree, SameBytes, Ref;
    var s' := SetAddr(s, i, k, fb);
    AttachRefs(s, i, k, fb);
    AttachKeepsOwners(s, s', owner, AddrSlot(i, k), fb);
    AttachSameBytes(s, s', owner, AddrSlot(i, k), fb);
    HandedOut(s, s', owner, AddrSlot(i, k), fb, fb);
  }

  /** One block went from the counter to `slot`; only a handed-out block changed its bytes. */
  lemma HandedOut(s: Fs, s': Fs, owner: map<int, Slot>, slot: Slot, fb: nat, changed: int)
    requires Building(s, owner, fb) && fb < s.size && Shape(s') && s'.size == s.size && s'.nmeta == s.nmeta && s'.bmapstart == s.bmapstart
    requires Owners(s', owner[fb := slot]) && SameBytes(s, s') && |s'.inode| == |s.inode| && s.nmeta <= changed <= fb
    requires forall b :: 0 <= b < s.size && b != changed ==> s'.blk[b] == s.blk[b]
    ensures Building(s', owner[fb := slot], fb + 1)
  {
    hide Owners, HoleFree, SameBytes;
    forall j | 0 <= j < |s.inode| ensures HoleFree(s', j) {
      SameBytesKeepsHoleFree(s, s', j);
    }
  }

  /** A block from the counter stored in an entry of the indirect block. */
  lemma HandOutEntry(s: Fs, owner: map<int, Slot>, fb: nat, i: nat, k: nat)
    requires Building(s, owner, fb) && fb < s.size && i < |s.inode| && k < NINDIRECT
    requires 0 < s.inode[i].addrs[NDIRECT] < s.size && Ref(s, Entry(i, k)) == 0
    ensures Shape(SetEntry(s, i, k, fb)) && Ref(SetEntry(s, i, k, fb), Entry(i, k)) == fb
    ensures Building(SetEntry(s, i, k, fb), owner[fb := Entry(i, k)], fb + 1)
    ensures SameBytes(s, SetEntry(s, i, k, fb)) && Attaches(s, SetEntry(s, i, k, fb), Entry(i, k), fb)
  {
    hide Owners, HoleFree, SameBytes, Ref, PutWord;
    var s' := SetEntry(s, i, k, fb);
    EntryRefs(s, owner, i, k, fb);
    AttachKeepsOwners(s, s', owner, Entry(i, k), fb);
    OwnedIndirect(s, owner, i);
    AttachSameBytes(s, s', owner, Entry(i, k), fb);
    HandedOut(s, s', owner, Entry(i, k), fb, s.inode[i].addrs[NDIRECT]);
  }

  lemma AllFillsRefl(s: Fs, i: nat)
    requires Shape(s)
    ensures forall lo, hi :: FillsOnly(s, s, i, lo, hi)
  {
    hide Shape, Ref;
  }

  lemma AllAttachFills(s: Fs, s': Fs, slot: Slot, b: int, i: nat)
    requires Shape(s) && Shape(s') && Attaches(s, s', slot, b)
    ensures forall lo, hi :: Asked(slot, i, lo, hi) ==> FillsOnly(s, s', i, lo, hi)
  {
    hide Shape, Ref, Attaches, FillsOnly, Asked;
    forall lo, hi | Asked(slot, i, lo, hi) ensures FillsOnly(s, s', i, lo, hi) {
      AttachFills(s, s, s', slot, b, i, lo, hi);
    }
  }

  /** One of the blocks `lo..hi` of file `i` is not there. */
  ghost predicate Lacks(s: Fs, i: nat, lo: nat, hi: nat) {
    Shape(s) && i < |s.inode| && exists bn :: lo <= bn < hi && bn < MAXFILE && BlockAt(s, i, bn) == 0
  }

  lemma StillLacks(s: Fs, t: Fs, i: nat, off0: nat, tot: nat, n: nat, bn: nat)
    requires Shape(s) && Shape(t) && i < |s.inode| && tot < n && bn == (off0 + tot) / BSIZE < MAXFILE
    requires |t.inode| == |s.inode| && FillsOnly(s, t, i, off0 / BSIZE, Reached(off0, tot)) && BlockAt(t, i, bn) == 0
    ensures Lacks(s, i, off0 / BSIZE, Reached(off0, n))
  {
    hide Shape, Ref;
    StopsInRange(off0, tot, n);
    assert IsSlot(s, BlockSlot(i, bn));
    assert BlockAt(s, i, bn) == 0;
  }

  lemma FillsSame(s: Fs, t: Fs, u: Fs, i: nat, lo: nat, hi: nat)
    requires Shape(s) && Shape(t) && Shape(u) && FillsOnly(s, t, i, lo, hi) && SameRefs(t, u)
    ensures FillsOnly(s, u, i, lo, hi)
  {
    hide Shape, Ref;
    forall x | IsSlot(s, x) ensures Ref(u, x) == Ref(t, x) {
      assert IsSlot(t, x);
    }
  }

  lemma FilledMore(s: Fs, t: Fs, u: Fs, v: Fs, i: nat, off0: nat, tot: nat, m: nat)
    requires Shape(s) && Shape(t) && Shape(u) && Shape(v) && FillsOnly(s, t, i, off0 / BSIZE, Reached(off0, tot)) && SameRefs(u, v)
    requires 0 < m && (off0 + tot) % BSIZE + m <= BSIZE && (tot == 0 || (off0 + tot) % BSIZE == 0)
    requires FillsOnly(t, u, i, (off0 + tot) / BSIZE, (off0 + tot) / BSIZE + 1)
    ensures FillsOnly(s, v, i, off0 / BSIZE, Reached(off0, tot + m))
  {
    hide Shape, Ref, FillsOnly, SameRefs, Reached;
    var bn := (off0 + tot) / BSIZE;
    ReachedNext(off0, tot, m);
    FillsTrans(s, t, u, i, off0 / BSIZE, Reached(off0, tot), bn, bn + 1);
    FillsSame(s, u, v, i, off0 / BSIZE, bn + 1);
  }

  class Image {
    const size: nat
    const nmeta: nat
    const bmapstart: nat
    var blk: map<int, Bytes>
    var inode: seq<Inode>
    var freeblock: nat
    ghost var owner: map<int, Slot>

    ghost function S(): (s: Fs)
      reads this
    {
      Fs(size, nmeta, bmapstart, blk, inode)
    }

    /** main's set-up: an all-zero image with a superblock, `ninodes` empty inodes, the counter behind the metadata. */
    constructor (size: nat, bmapstart: nat, ninodes: nat, super: Bytes)
      requires 2 <= bmapstart && bmapstart + size / BPB + 1 <= size < 0x1_0000_0000 && |super| == BSIZE
      ensures 1 in blk && blk[1] == super && forall b :: 0 <= b < size && b != 1 ==> b in blk && blk[b] == Zeros()
      ensures this.size == size && this.bmapstart == bmapstart && |inode| == ninodes
      ensures nmeta == bmapstart + size / BPB + 1 && freeblock == nmeta
      ensures Building(S(), owner, freeblock)
      ensures forall i :: 0 <= i < ninodes ==> inode[i].size == 0
    {
      this.size, this.bmapstart, nmeta := size, bmapstart, bmapstart + size / BPB + 1;
      freeblock := bmapstart + size / BPB + 1;
      blk := map[];
      inode := seq(ninodes, _ => Inode(0, seq(NDIRECT + 1, _ => 0)));
      owner := map[];
      new;
      var b := 0;
      while b < size
        invariant 0 <= b <= size
        invariant forall x :: 0 <= x < b ==> x in blk && blk[x] == Zeros()
        invariant inode == seq(ninodes, _ => Inode(0, seq(NDIRECT + 1, _ => 0))) && owner == map[] && freeblock == nmeta
      {
        blk := blk[b := Zeros()];
        b := b + 1;
      }
      blk := blk[1 := super];
      EmptyImage(S());
    }

    /** `addrs[k]` is filled from the counter if it is empty. */
    method TakeAddr(i: nat, k: nat) returns (ok: bool)
      requires Building(S(), owner, freeblock) && i < |inode| && k <= NDIRECT
      modifies `inode, `freeblock, `owner
      ensures ok ==> Building(S(), owner, freeblock) && SameBytes(old(S()), S()) && |inode| == |old(inode)| && inode[i].addrs[k] != 0
      ensures ok ==> forall lo, hi :: Asked(AddrSlot(i, k), i, lo, hi) ==> FillsOnly(old(S()), S(), i, lo, hi)
      ensures !ok ==> freeblock == size && S() == old(S()) && inode[i].addrs[k] == 0
    {
      hide Owners, HoleFree, SameBytes, Attaches, FillsOnly, Asked;
      SameBytesRefl(S());
      AllFillsRefl(S(), i);
      if inode[i].addrs[k] == 0 {
        if freeblock == size {
          return false;
        }
        HandOutAddr(S(), owner, freeblock, i, k);
        inode := inode[i := inode[i].(addrs := inode[i].addrs[k := freeblock])];
        owner := owner[freeblock := AddrSlot(i, k)];
        AllAttachFills(old(S()), S(), AddrSlot(i, k), freeblock, i);
        freeblock := freeblock + 1;
      }
      return true;
    }

    /** Entry `k` of the indirect block is filled from the counter if it is empty. */
    method TakeEntry(i: nat, k: nat) returns (ok: bool, x: int)
      requires Building(S(), owner, freeblock) && i < |inode| && k < NINDIRECT && inode[i].addrs[NDIRECT] != 0
      modifies `blk, `freeblock, `owner
      ensures ok ==> Building(S(), owner, freeblock) && SameBytes(old(S()), S()) && x == Ref(S(), Entry(i, k)) && x != 0
      ensures ok ==> forall lo, hi :: Asked(Entry(i, k), i, lo, hi) ==> FillsOnly(old(S()), S(), i, lo, hi)
      ensures !ok ==> freeblock == size && S() == old(S()) && Ref(S(), Entry(i, k)) == 0
    {
      hide Owners, HoleFree, SameBytes, PutWord, Attaches, FillsOnly, Asked;
      SameBytesRefl(S());
      AllFillsRefl(S(), i);
      OwnedIndirect(S(), owner, i);
      var ind := inode[i].addrs[NDIRECT];
      if Word(blk[ind], k) == 0 {
        if freeblock == size {
          return false, 0;
        }
        HandOutEntry(S(), owner, freeblock, i, k);
        blk := blk[ind := PutWord(blk[ind], k, freeblock)];
        owner := owner[freeblock := Entry(i, k)];
        AllAttachFills(old(S()), S(), Entry(i, k), freeblock, i);
        freeblock := freeblock + 1;
      }
      return true, Word(blk[ind], k);
    }

    /**
      The block map part of iappend. `false` means the counter ran off the image, where the
      following read of the new block ends the program.
     */
    method MapBlock(i: nat, fbn: nat) returns (ok: bool, x: int)
      requires Building(S(), owner, freeblock) && i < |inode| && fbn < MAXFILE
      modifies `blk, `inode, `freeblock, `owner
      ensures ok ==> Building(S(), owner, freeblock) && SameBytes(old(S()), S()) && x == BlockAt(S(), i, fbn) && x != 0
      ensures ok ==> FillsOnly(old(S()), S(), i, fbn, fbn + 1)
      ensures !ok ==> freeblock == size && BlockAt(old(S()), i, fbn) == 0
    {
      hide Owners, HoleFree, SameBytes, FillsOnly;
      if fbn < NDIRECT {
        assert Asked(Direct(i, fbn), i, fbn, fbn + 1);
        ok := TakeAddr(i, fbn);
        x := if ok then inode[i].addrs[fbn] else 0;
      } else {
        assert Asked(Indirect(i), i, fbn, fbn + 1) && Asked(Entry(i, fbn - NDIRECT), i, fbn, fbn + 1);
        ok := TakeAddr(i, NDIRECT);
        if !ok {
          return false, 0;
        }
        ghost var s1 := S();
        ok, x := TakeEntry(i, fbn - NDIRECT);
        if ok {
          SameBytesTrans(old(S()), s1, S());
          FillsTrans(old(S()), s1, S(), i, fbn, fbn + 1, fbn, fbn + 1);
        } else {
          BlockStillMissing(old(S()), s1, i, fbn);
        }
      }
    }

    /** One round of iappend's loop, inside one block. */
    method AppendRound(i: nat, off: nat, data: Bytes, tot: nat, m: nat, ghost s0: Fs, ghost off0: nat) returns (ok: bool)
      requires Building(S(), owner, freeblock) && i < |inode| && off / BSIZE < MAXFILE && off == off0 + tot && tot + m <= |data|
      requires HasWritten(s0, S(), i, off0, data[..tot]) && FillsOnly(s0, S(), i, off0 / BSIZE, Reached(off0, tot))
      requires 0 < m && off % BSIZE + m <= BSIZE && (tot == 0 || off % BSIZE == 0) && |inode| == |s0.inode|
      modifies `blk, `inode, `freeblock, `owner
      ensures ok ==> Building(S(), owner, freeblock) && |inode| == |s0.inode| && HasWritten(s0, S(), i, off0, data[..tot + m])
      ensures ok ==> FillsOnly(s0, S(), i, off0 / BSIZE, Reached(off0, tot + m))
      ensures !ok ==> freeblock == size && Lacks(s0, i, off0 / BSIZE, Reached(off0, |data|))
    {
      hide Owners, HoleFree, SameBytes, Wrote, BlockAt, Patch, Raw, FillsOnly, Reached, Lacks, SameRefs;
      ghost var s1 := S();
      var fbn, o, x := off / BSIZE, off % BSIZE, 0;
      ok, x := MapBlock(i, fbn);
      if !ok {
        StillLacks(s0, s1, i, off0, tot, |data|, fbn);
        return false;
      }
      SameCount(s1, S());
      WroteSame(s0, s1, S(), i, off0, data[..tot]);
      BuiltBlock(S(), owner, freeblock, i, fbn);
      InsideFile(off, m);
      BuildChunk(s0, S(), owner, freeblock, i, off0, data[..tot], data[tot..tot + m], x);
      assert data[..tot] + data[tot..tot + m] == data[..tot + m];
      ghost var s2 := S();
      PatchRefs(s2, owner, i, fbn, o, data[tot..tot + m]);
      blk := blk[x := Patch(blk[x], o, data[tot..tot + m])];
      FilledMore(s0, s1, s2, S(), i, off0, tot, m);
    }

    /**
      iappend: `data` goes to the end of the file. `false` is the program's end: the file would
      exceed its maximal size or the image is full.
     */
    method Iappend(i: nat, data: Bytes) returns (ok: bool)
      requires Building(S(), owner, freeblock) && i < |inode|
      modifies `blk, `inode, `freeblock, `owner
      ensures ok ==> Building(S(), owner, freeblock) && |inode| == |old(inode)|
      ensures ok ==> Contents(S(), i) == Contents(old(S()), i) + data
      ensures ok ==> forall j :: 0 <= j < |inode| && j != i ==> Contents(S(), j) == Contents(old(S()), j)
      ensures ok ==> var off0 := old(inode)[i].size; FillsOnly(old(S()), S(), i, off0 / BSIZE, Reached(off0, |data|))
      ensures !ok ==> var off0 := old(inode)[i].size;
                      || off0 + |data| > MAXBYTES
                      || (freeblock == size && Lacks(old(S()), i, off0 / BSIZE, Reached(off0, |data|)))
    {
      hide Owners, HoleFree, SameBytes, Wrote, BlockAt, Contents, Patch, Raw, FillsOnly, Reached, Lacks, SameRefs;
      var off0 := inode[i].size;
      ghost var s0 := S();
      BuildingBound(s0, owner, freeblock, i);
      WroteNothing(s0, i, off0);
      AllFillsRefl(s0, i);
      var off, tot := off0, 0;
      while tot < |data|
        invariant 0 <= tot <= |data| && off == off0 + tot <= MAXBYTES
        invariant Building(S(), owner, freeblock) && HasWritten(s0, S(), i, off0, data[..tot])
        invariant |inode| == |s0.inode| && (tot == 0 || tot == |data| || off % BSIZE == 0)
        invariant FillsOnly(s0, S(), i, off0 / BSIZE, Reached(off0, tot))
        decreases |data| - tot
      {
        var fbn := off / BSIZE;
        if fbn >= MAXFILE {
          return false;
        }
        var o := off % BSIZE;
        var m := if |data| - tot < BSIZE - o then |data| - tot else BSIZE - o;
        ok := AppendRound(i, off, data, tot, m, s0, off0);
        if !ok {
          return false;
        }
        InsideFile(off, m);
        if tot + m < |data| { NextBlock(off, m); }
        tot, off := tot + m, off + m;
      }
      assert data[..tot] == data;
      BuildDone(s0, S(), old(owner), old(freeblock), owner, freeblock, i, off0, data);
      ghost var s3 := S();
      SetSizeRefs(s3, i, off);
      inode := inode[i := inode[i].(size := off)];
      FillsSame(s0, s3, S(), i, off0 / BSIZE, Reached(off0, |data|));
      return true;
    }

    /** main's last change: the root directory's size goes up to the next whole block. */
    method FixRootSize(root: nat)
      requires Building(S(), owner, freeblock) && root < |inode| && (inode[root].size / BSIZE + 1) * BSIZE <= MAXBYTES
      modifies `inode
      ensures inode == old(inode)[root := old(inode)[root].(size := (old(inode)[root].size / BSIZE + 1) * BSIZE)]
      ensures old(inode)[root].size % BSIZE != 0 ==> Building(S(), owner, freeblock)
    {
      hide Owners, HoleFree, BlockAt;
      ghost var s0, n := S(), (inode[root].size / BSIZE + 1) * BSIZE;
      RootSizeFix(s0, owner, freeblock, root);
      if inode[root].size % BSIZE != 0 {
        RootFixKeepsBuilding(s0, owner, freeblock, root, n);
      }
      var off := inode[root].size;
      off := (off / BSIZE + 1) * BSIZE;
      inode := inode[root := inode[root].(size := off)];
    }

    /** balloc: mark every block below `freeblock` in the first bitmap block. */
    method Balloc() returns (ok: bool)
      requires Building(S(), owner, freeblock)
      modifies `blk
      ensures ok <==> freeblock < BPB
      ensures ok ==> Good(S(), owner) && bmapstart in blk && blk == old(blk)[bmapstart := blk[bmapstart]]
      ensures !ok ==> blk == old(blk)
      ensures ok ==> forall j :: 0 <= j < |inode| ==> Contents(S(), j) == Contents(old(S()), j)
    {
      if freeblock >= BPB {
        return false;
      }
      var buf := Zeros();
      forall b | 0 <= b < BPB ensures !Bit(buf[b / 8], b % 8) {
        ZeroBit(b % 8);
      }
      var i := 0;
      while i < freeblock
        invariant 0 <= i <= freeblock && |buf| == BSIZE
        invariant forall b :: 0 <= b < BPB ==> (Bit(buf[b / 8], b % 8) <==> b < i)
      {
        ghost var before := buf;
        buf := buf[i / 8 := buf[i / 8] + Mask(i % 8)];
        forall b | 0 <= b < BPB ensures Bit(buf[b / 8], b % 8) <==> b < i + 1 {
          if b / 8 == i / 8 {
            SetBit(before[i / 8], i % 8, b % 8);
          }
        }
        i := i + 1;
      }
      MarkedImage(S(), owner, freeblock, buf);
      blk := blk[bmapstart := buf];
      return true;
    }
  }

  lemma OwnedIndirect(s: Fs, owner: map<int, Slot>, i: nat)
    requires Shape(s) && Owners(s, owner) && i < |s.inode| && s.inode[i].addrs[NDIRECT] != 0
    ensures var a := s.inode[i].addrs[NDIRECT]; s.nmeta <= a < s.size && a in owner && owner[a] == Indirect(i)
  {
    assert IsSlot(s, Indirect(i)) && Ref(s, Indirect(i)) == s.inode[i].addrs[NDIRECT];
  }

  lemma BuildingBound(s: Fs, owner: map<int, Slot>, fb: nat, i: nat)
    requires Building(s, owner, fb) && i < |s.inode|
    ensures s.inode[i].size <= MAXBYTES
  {
    assert HoleFree(s, i);
  }

  lemma InsideFile(off: nat, m: nat)
    requires off / BSIZE < MAXFILE && off % BSIZE + m <= BSIZE
    ensures off + m <= MAXBYTES
  {
  }

  lemma BuiltBlock(s: Fs, owner: map<int, Slot>, fb: nat, i: nat, bn: nat)
    requires Building(s, owner, fb) && i < |s.inode| && bn < MAXFILE && BlockAt(s, i, bn) != 0
    ensures var b := BlockAt(s, i, bn); s.nmeta <= b < fb && b in s.blk && |s.blk[b]| == BSIZE
  {
    MappedIsOwned(s, owner, i, bn);
  }

  lemma BuildChunk(s0: Fs, s: Fs, owner: map<int, Slot>, fb: nat, i: nat, off: nat, data: Bytes, chunk: Bytes, b: int)
    requires HasWritten(s0, s, i, off, data) && Building(s, owner, fb) && ChunkFits(s, i, off + |data|, chunk, b)
    ensures b in s.blk && |s.blk[b]| == BSIZE
    ensures var s' := Patched(s, b, (off + |data|) % BSIZE, chunk);
            Building(s', owner, fb) && HasWritten(s0, s', i, off, data + chunk)
  {
    hide Patch, Owners, Wrote, Raw, Ref;
    var cur := off + |data|;
    BuiltBlock(s, owner, fb, i, cur / BSIZE);
    var block := Patch(s.blk[b], cur % BSIZE, chunk);
    var s' := PutBlk(s, b, block);
    WriteRaw(s, owner, i, cur / BSIZE, block);
    ChunkRaw(s0, s, s', i, off, data, chunk);
    forall j | 0 <= j < |s.inode| ensures HoleFree(s', j) {
      RefsKeepHoleFree(s, s', j);
    }
  }

  lemma RefsKeepHoleFree(s: Fs, s': Fs, j: nat)
    requires Shape(s) && Shape(s') && SameRefs(s, s') && j < |s.inode| && HoleFree(s, j) && s'.inode[j].size == s.inode[j].size
    ensures HoleFree(s', j)
  {
    forall bn | 0 <= bn < MAXFILE && bn * BSIZE < s.inode[j].size ensures BlockAt(s', j, bn) != 0 {
      assert IsSlot(s, BlockSlot(j, bn)) && BlockAt(s, j, bn) != 0;
    }
  }

  lemma BuildDone(s0: Fs, s: Fs, owner0: map<int, Slot>, fb0: nat, owner: map<int, Slot>, fb: nat, i: nat, off: nat, data: Bytes)
    requires Building(s0, owner0, fb0) && Building(s, owner, fb) && i < |s0.inode| && off == s0.inode[i].size
    requires Wrote(s0, s, i, off, data)
    ensures |s.inode| == |s0.inode|
    ensures var s' := SetSize(s, i, off + |data|);
            && Building(s', owner, fb) && Contents(s', i) == Contents(s0, i) + data
            && forall j :: 0 <= j < |s.inode| && j != i ==> Contents(s', j) == Contents(s0, j)
  {
    hide HoleFree, Raw, Contents, Shape, Owners, Wrote, Ref;
    WroteSizes(s0, s, i, off, data);
    var s' := SetSize(s, i, off + |data|);
    SetSizeRefs(s, i, off + |data|);
    SameRefsKeepsOwners(s, s', owner);
    forall j | 0 <= j < |s.inode| ensures HoleFree(s', j) {
      assert HoleFree(s0, j);
      WroteHoleFree(s0, s, s', i, off, data, j);
    }
    BuildingBound(s0, owner0, fb0, i);
    WroteSplice(s0, s, s', i, off, data);
    assert Splice(Contents(s0, i), off, data) == Contents(s0, i) + data;
    forall j | 0 <= j < |s.inode| && j != i ensures Contents(s', j) == Contents(s0, j) {
      BuildingBound(s0, owner0, fb0, j);
      WroteOther(s0, s, s', i, off, data, j);
    }
  }

  lemma {:induction false} ZeroBit(k: nat)
    ensures !Bit(0, k)
    decreases k
  {
    if k > 0 {
      ZeroBit(k - 1);
    }
  }

  /** Writing the finished bitmap turns a built image into a state the kernel can run from. */
  lemma MarkedImage(s: Fs, owner: map<int, Slot>, fb: nat, buf: Bytes)
    requires Building(s, owner, fb) && fb < BPB && |buf| == BSIZE
    requires forall b :: 0 <= b < BPB ==> (Bit(buf[b / 8], b % 8) <==> b < fb)
    ensures Good(PutBlk(s, s.bmapstart, buf), owner)
    ensures forall j :: 0 <= j < |s.inode| ==> Contents(PutBlk(s, s.bmapstart, buf), j) == Contents(s, j)
  {
    var s' := PutBlk(s, s.bmapstart, buf);
    BitmapInMeta(s, 0);
    PutKeepsRefs(s, owner, s.bmapstart, buf);
    forall b | 0 <= b < s.size ensures Used(s', b) <==> b < fb {
      MarkedBit(s, fb, buf, b);
    }
    forall j | 0 <= j < |s.inode| ensures HoleFree(s', j) && Contents(s', j) == Contents(s, j) {
      RefsKeepHoleFree(s, s', j);
      forall p | 0 <= p < MAXBYTES ensures Raw(s', j, p) == Raw(s, j, p) {
        assert IsSlot(s, BlockSlot(j, p / BSIZE));
        if BlockAt(s, j, p / BSIZE) != 0 {
          MappedIsOwned(s, owner, j, p / BSIZE);
        }
      }
    }
  }

  lemma MarkedBit(s: Fs, fb: nat, buf: Bytes, b: nat)
    requires Shape(s) && fb < BPB && |buf| == BSIZE && b < s.size
    requires forall b :: 0 <= b < BPB ==> (Bit(buf[b / 8], b % 8) <==> b < fb)
    requires forall b :: s.bmapstart <= b < s.nmeta ==> s.blk[b] == Zeros()
    requires Shape(PutBlk(s, s.bmapstart, buf))
    ensures Used(PutBlk(s, s.bmapstart, buf), b) <==> b < fb
  {
    BitmapInMeta(s, b);
    if b < BPB {
      assert b / BPB == 0 && b % BPB == b;
    } else {
      assert b / BPB > 0;
      ZeroBit(b % 8);
    }
  }

  /**
    main's "fix size of root inode dir": the size is rounded up to the next whole block. The
    root stays free of holes exactly when its size was not already a multiple of the block
    size (or when it happens to own the following block).
   */
  lemma RootSizeFix(s: Fs, owner: map<int, Slot>, fb: nat, root: nat)
    requires Building(s, owner, fb) && root < |s.inode| && (s.inode[root].size / BSIZE + 1) * BSIZE <= MAXBYTES
    ensures var n := (s.inode[root].size / BSIZE + 1) * BSIZE;
            && Shape(SetSize(s, root, n))
            && (HoleFree(SetSize(s, root, n), root) <==>
                  s.inode[root].size % BSIZE != 0 || BlockAt(s, root, s.inode[root].size / BSIZE) != 0)
  {
    var size := s.inode[root].size;
    var n := (size / BSIZE + 1) * BSIZE;
    var s' := SetSize(s, root, n);
    SetSizeRefs(s, root, n);
    assert HoleFree(s, root);
    var last := size / BSIZE;
    assert IsSlot(s, BlockSlot(root, last));
    if size % BSIZE != 0 || BlockAt(s, root, last) != 0 {
      forall bn | 0 <= bn < MAXFILE && bn * BSIZE < n ensures BlockAt(s', root, bn) != 0 {
        assert IsSlot(s, BlockSlot(root, bn));
        if bn < last {
          assert BlockAt(s, root, bn) != 0;
        } else {
          assert bn == last;
          assert BlockAt(s, root, bn) != 0;
        }
      }
    } else {
      assert BlockAt(s', root, last) == 0 && last * BSIZE < n;
    }
  }

  /** In that case the image can be finished as it is. */
  lemma RootFixKeepsBuilding(s: Fs, owner: map<int, Slot>, fb: nat, root: nat, n: nat)
    requires Building(s, owner, fb) && root < |s.inode| && Shape(SetSize(s, root, n)) && HoleFree(SetSize(s, root, n), root)
    ensures Building(SetSize(s, root, n), owner, fb)
  {
    var s' := SetSize(s, root, n);
    SetSizeRefs(s, root, n);
    SameRefsKeepsOwners(s, s', owner);
    forall j | 0 <= j < |s'.inode| ensures HoleFree(s', j) {
      if j != root {
        assert HoleFree(s, j);
        forall bn | 0 <= bn < MAXFILE ensures BlockAt(s', j, bn) == BlockAt(s, j, bn) {
          assert IsSlot(s, BlockSlot(j, bn));
        }
      }
    }
  }

  /** An image with one data block, handed out to the root directory. */
  ghost function OneBlockRoot(): Fs {
    Fs(10, 6, 5, map b | b in Range(0, 10) :: Zeros(), [Fresh(0, 0), Fresh(BSIZE, 6)])
  }

  ghost function Fresh(size: nat, first: int): Inode {
    Inode(size, seq(NDIRECT + 1, k => if k == 0 then first else 0))
  }

  const ROOTINO := 1

  /**
    The rounding can leave a hole: a root directory of exactly one block (64 entries) with
    nothing behind it is a proper image before and has no second block after.
   */
  lemma RootSizeFixLeavesHole()
    ensures var s, owner := OneBlockRoot(), map[6 := Direct(ROOTINO, 0)];
            && Building(s, owner, 7) && s.inode[ROOTINO].size == BSIZE
            && var s' := SetSize(s, ROOTINO, (s.inode[ROOTINO].size / BSIZE + 1) * BSIZE);
               Shape(s') && !HoleFree(s', ROOTINO)
  {
    hide Ref, Building, HoleFree, OneBlockRoot;
    OneBlockSlots();
    OneBlockBuilding();
    RootSizeFix(OneBlockRoot(), map[6 := Direct(ROOTINO, 0)], 7, ROOTINO);
  }

  lemma OneBlockSlots()
    ensures var s := OneBlockRoot();
            && Shape(s) && |s.inode| == 2 && s.inode[0].size == 0 && s.inode[ROOTINO].size == BSIZE
            && (forall slot :: IsSlot(s, slot) ==> Ref(s, slot) == if slot == Direct(ROOTINO, 0) then 6 else 0)
            && BlockAt(s, ROOTINO, 1) == 0
  {
  }

  lemma OneBlockBuilding()
    ensures Building(OneBlockRoot(), map[6 := Direct(ROOTINO, 0)], 7)
  {
    hide Ref;
    OneBlockSlots();
    var s := OneBlockRoot();
    forall i | 0 <= i < |s.inode| ensures HoleFree(s, i) {
      assert IsSlot(s, BlockSlot(i, 0));
    }
  }
}
