/**
  The file system's block-level code over the logical block store (what the log and the buffer
  cache together provide): block allocation, the inode block map, reading, writing, truncation.
 */
module FileSys {
  import opened FsSpec

  const UINT := 0x1_0000_0000  // 2^32

  ghost predicate Full(s: Fs)
    requires Shape(s)
  {
    forall c :: 0 <= c < s.size ==> Used(s, c)
  }

  /** Bit `bi` of the bitmap block that starts at block number `b`. */
  lemma BitIndex(b: nat, bi: nat)
    requires b % BPB == 0 && bi < BPB
    ensures (b + bi) / BPB == b / BPB && (b + bi) % BPB == bi && (b + bi) % 8 == bi % 8
  {
    var q := b / BPB;
    assert b + bi == BPB * q + bi == 8 * (1024 * q) + bi;
  }

  lemma UsedBit(s: Fs, base: nat, bi: nat)
    requires Shape(s) && base % BPB == 0 && bi < BPB && base + bi < s.size
    ensures var bm := s.bmapstart + base / BPB;
            bm in s.blk && |s.blk[bm]| == BSIZE && (Used(s, base + bi) <==> Bit(s.blk[bm][bi / 8], bi % 8))
  {
    BitIndex(base, bi);
    BitmapInMeta(s, base + bi);
  }

  lemma BitOf(b: nat)
    ensures b % BPB % 8 == b % 8
  {
    BitIndex(b - b % BPB, b % BPB);
  }

  class FileSystem {
    const size: nat
    const nmeta: nat
    const bmapstart: nat
    var blk: map<int, Bytes>
    var inode: seq<Inode>   // in memory, locked by the caller
    var dinode: seq<Inode>  // as iupdate left them on disk
    ghost var owner: map<int, Slot>

    constructor (s: Fs, ghost owner: map<int, Slot>)
      ensures S() == s && this.owner == owner && dinode == s.inode
    {
      size, nmeta, bmapstart, blk, inode, dinode := s.size, s.nmeta, s.bmapstart, s.blk, s.inode, s.inode;
      this.owner := owner;
    }

    ghost function S(): (s: Fs)
      reads this
    {
      Fs(size, nmeta, bmapstart, blk, inode)
    }

    /** iupdate. */
    method Iupdate(i: nat)
      requires i < |inode| && i < |dinode|
      modifies `dinode
      ensures dinode == old(dinode)[i := inode[i]]
    {
      dinode := dinode[i := inode[i]];
    }

    /** balloc's outer loop, over the bitmap's blocks: the first clear bit. */
    method FirstFree() returns (found: bool, b: nat)
      requires Shape(S())
      ensures found ==> b < size && !Used(S(), b) && forall c :: 0 <= c < b ==> Used(S(), c)
      ensures !found ==> Full(S())
    {
      hide Shape, Used;
      var base := 0;
      while base < size
        invariant base % BPB == 0
        invariant forall c :: 0 <= c < base && c < size ==> Used(S(), c)
      {
        var bi := ScanBitmap(base);
        if bi < BPB && base + bi < size {
          return true, base + bi;
        }
        base := base + BPB;
      }
      return false, 0;
    }

    /** balloc's inner loop: the first clear bit of one bitmap block, or its end or the disk's. */
    method ScanBitmap(base: nat) returns (bi: nat)
      requires Shape(S()) && base % BPB == 0 && base < size && forall c :: 0 <= c < base ==> Used(S(), c)
      ensures bi <= BPB && base + bi <= size && forall c :: 0 <= c < base + bi ==> Used(S(), c)
      ensures bi < BPB && base + bi < size ==> !Used(S(), base + bi)
    {
      hide Shape, Used;
      BitmapInMeta(S(), base);
      var bm := blk[bmapstart + base / BPB];
      bi := 0;
      while bi < BPB && base + bi < size
        invariant 0 <= bi <= BPB && base + bi <= size
        invariant forall c :: 0 <= c < base + bi ==> Used(S(), c)
      {
        UsedBit(S(), base, bi);
        if !Bit(bm[bi / 8], bi % 8) {
          return;
        }
        bi := bi + 1;
      }
    }

    /**
      balloc: the first free block, marked and zeroed, or 0 when every block is in use. The new
      block is `loose` until the caller stores it somewhere.
     */
    method Balloc(ghost loose: set<int>) returns (b: nat)
      requires Inv(S(), owner, loose)
      modifies `blk
      ensures b == 0 ==> blk == old(blk) && Full(S())
      ensures b != 0 ==>
                && b < size && !Used(old(S()), b) && (forall c :: 0 <= c < b ==> Used(old(S()), c))
                && S() == Allocated(old(S()), b)
                && Inv(S(), owner, loose + {b}) && SameBytes(old(S()), S()) && SameRefs(old(S()), S()) && b !in loose && b !in owner
    {
      hide Owners, Accounted, SameBytes, Used, Shape, Mask;
      var found;
      found, b := FirstFree();
      if !found {
        return 0;
      }
      AllocKeeps(S(), owner, loose, b);
      AllocSameBytes(S(), owner, loose, b);
      BitmapInMeta(S(), b);
      var bm, bi := bmapstart + b / BPB, b % BPB;
      BitOf(b);
      blk := blk[bm := blk[bm][bi / 8 := blk[bm][bi / 8] + Mask(bi % 8)]];
      blk := blk[b := Zeros()];
    }

    /** bfree; `panicked` is "freeing free block". */
    method Bfree(b: nat) returns (panicked: bool)
      requires Shape(S()) && b < size
      modifies `blk
      ensures panicked <==> !Used(old(S()), b)
      ensures S() == if panicked then old(S()) else Mark(old(S()), b, -Mask(b % 8))
    {
      BitmapInMeta(S(), b);
      var bm, bi := bmapstart + b / BPB, b % BPB;
      BitOf(b);
      if !Bit(blk[bm][bi / 8], bi % 8) {
        return true;
      }
      blk := blk[bm := blk[bm][bi / 8 := blk[bm][bi / 8] - Mask(bi % 8)]];
      return false;
    }

    /** bmap's allocation for `addrs[k]`. */
    method AllocAddr(i: nat, k: nat) returns (b: nat)
      requires Inv(S(), owner, {}) && i < |inode| && k <= NDIRECT && inode[i].addrs[k] == 0
      modifies `blk, `inode, `owner
      ensures Inv(S(), owner, {}) && SameBytes(old(S()), S())
      ensures b == 0 ==> S() == old(S()) && owner == old(owner) && Full(S())
      ensures b != 0 ==> inode == old(inode)[i := old(inode)[i].(addrs := old(inode)[i].addrs[k := b])]
      ensures b != 0 ==> FirstFreeBut(old(S()), {}, b) && owner == old(owner)[b := AddrSlot(i, k)] && b !in old(owner)
      ensures b != 0 ==> forall lo, hi :: Asked(AddrSlot(i, k), i, lo, hi) ==> FillsOnly(old(S()), S(), i, lo, hi)
    {
      hide Owners, Accounted, SameBytes, Used, Allocated, SameRefs, Attaches, FillsOnly, Asked, Ref;
      SameBytesRefl(S());
      b := Balloc({});
      if b == 0 {
        return;
      }
      ghost var s1 := S();
      AllocatedZero(old(S()), b);
      AttachAddr(s1, owner, {} + {b}, i, k, b);
      AttachAddrSameBytes(s1, owner, {} + {b}, i, k, b);
      inode := inode[i := inode[i].(addrs := inode[i].addrs[k := b])];
      owner := owner[b := AddrSlot(i, k)];
      SameBytesTrans(old(S()), s1, S());
      assert {} + {b} - {b} == {};
      forall lo, hi | Asked(AddrSlot(i, k), i, lo, hi) ensures FillsOnly(old(S()), S(), i, lo, hi) {
        AttachFills(old(S()), s1, S(), AddrSlot(i, k), b, i, lo, hi);
      }
    }

    /** bmap's allocation for an entry of the indirect block. */
    method AllocEntry(i: nat, k: nat) returns (b: nat)
      requires Inv(S(), owner, {}) && i < |inode| && k < NINDIRECT
      requires inode[i].addrs[NDIRECT] != 0 && Ref(S(), Entry(i, k)) == 0
      modifies `blk, `owner
      ensures Inv(S(), owner, {}) && SameBytes(old(S()), S())
      ensures b == 0 ==> S() == old(S()) && owner == old(owner) && Full(S())
      ensures b != 0 ==> Ref(S(), Entry(i, k)) == b && inode == old(inode)
      ensures b != 0 ==> FirstFreeBut(old(S()), {}, b) && owner == old(owner)[b := Entry(i, k)] && b !in old(owner)
      ensures b != 0 ==> forall lo, hi :: Asked(Entry(i, k), i, lo, hi) ==> FillsOnly(old(S()), S(), i, lo, hi)
    {
      hide Owners, Accounted, SameBytes, Used, Allocated, FillsOnly, Asked;
      SameBytesRefl(S());
      b := Balloc({});
      if b == 0 {
        return;
      }
      ghost var s1 := S();
      AllocatedZero(old(S()), b);
      assert IsSlot(old(S()), Entry(i, k));
      AttachEntry(s1, owner, {} + {b}, i, k, b);
      AttachEntrySameBytes(s1, owner, {} + {b}, i, k, b);
      var ind := inode[i].addrs[NDIRECT];
      blk := blk[ind := PutWord(blk[ind], k, b)];
      owner := owner[b := Entry(i, k)];
      SameBytesTrans(old(S()), s1, S());
      assert {} + {b} - {b} == {};
      forall lo, hi | Asked(Entry(i, k), i, lo, hi) ensures FillsOnly(old(S()), S(), i, lo, hi) {
        AttachFills(old(S()), s1, S(), Entry(i, k), b, i, lo, hi);
      }
    }

    /**
      bmap: the block behind the `bn`-th block of a file, allocated if there is none and there
      is room. It changes no byte of any file, nothing at all when the block exists, and else
      takes the first free blocks for the missing slots and for nothing else.
     */
    method Bmap(i: nat, bn: nat) returns (addr: int, panicked: bool)
      requires Inv(S(), owner, {}) && i < |inode|
      modifies `blk, `inode, `owner
      ensures panicked <==> bn >= MAXFILE
      ensures Inv(S(), owner, {}) && SameBytes(old(S()), S())
      ensures !panicked ==> addr == BlockAt(S(), i, bn)
      ensures !panicked && addr == 0 ==> Full(S())
      ensures panicked || BlockAt(old(S()), i, bn) != 0 ==> S() == old(S()) && owner == old(owner)
      ensures !panicked ==> Took(old(S()), S(), old(owner), owner, i, bn)
    {
      hide Owners, Accounted, SameBytes, Used, Took, FillsOnly, FirstFreeBut;
      SameBytesRefl(S());
      panicked := false;
      if bn < NDIRECT {
        TookNothing(S(), owner, i, bn);
        addr := inode[i].addrs[bn];
        if addr == 0 {
          addr := AllocAddr(i, bn);
          if addr != 0 { TookOne(old(S()), S(), old(owner), owner, i, bn, addr); }
        }
        return;
      }
      var k := bn - NDIRECT;
      if k < NINDIRECT {
        TookNothing(S(), owner, i, bn);
        if inode[i].addrs[NDIRECT] == 0 {
          var a := AllocAddr(i, NDIRECT);
          if a == 0 {
            return 0, false;
          }
          TookIndirect(old(S()), S(), old(owner), owner, i, bn, a);
        }
        ghost var s1, owner1 := S(), owner;
        IndirectOwned(s1, owner, i);
        addr := Word(blk[inode[i].addrs[NDIRECT]], k);
        if addr == 0 {
          addr := AllocEntry(i, k);
          SameBytesTrans(old(S()), s1, S());
          if addr != 0 { TookEntry(old(S()), s1, S(), old(owner), owner1, owner, i, bn, addr); }
        }
        return;
      }
      addr, panicked := 0, true;
    }

    /**
      readi: with `room` bytes writable at the destination, returns the clipped slice of the
      file, or -1 if that slice does not fit. A file without holes is read without allocating.
     */
    method Readi(i: nat, off0: nat, n0: nat, room: nat) returns (r: int, out: Bytes)
      requires Good(S(), owner) && i < |inode| && off0 < UINT && n0 < UINT
      modifies `blk, `inode, `owner
      ensures S() == old(S()) && owner == old(owner)
      ensures var size := old(inode)[i].size;
              var len := if off0 > size || off0 + n0 >= UINT then 0 else if off0 + n0 > size then size - off0 else n0;
              if len <= room then r == |out| == len && forall k :: 0 <= k < len ==> out[k] == Contents(old(S()), i)[off0 + k]
              else r == -1
    {
      hide Inv, Shape, HoleFree, BlockAt, Contents, Raw, ReadLength;
      GoodShape(S(), owner, i);
      SizeBound(S(), i);
      var off, n := off0, n0;
      out := [];
      Clip(inode[i].size, off, n);
      if off > inode[i].size || (off + n) % UINT < off {
        return 0, [];
      }
      if (off + n) % UINT > inode[i].size {
        n := inode[i].size - off;
      }
      var tot := 0;
      while tot < n
        invariant 0 <= tot <= n && off == off0 + tot && tot <= room
        invariant S() == old(S()) && owner == old(owner)
        invariant out == Contents(S(), i)[off0..off]
        decreases n - tot
      {
        var m := if n - tot < BSIZE - off % BSIZE then n - tot else BSIZE - off % BSIZE;
        ReadStep(S(), owner, i, off0, off, m);
        var addr, _ := Bmap(i, off / BSIZE);
        if tot + m > room {
          return -1, out;
        }
        out := out + blk[addr][off % BSIZE..off % BSIZE + m];
        tot, off := tot + m, off + m;
      }
      return tot, out;
    }

    /**
      One round of writei's loop, inside one block: find or get the block, then copy bytes
      `tot..tot + m` of the source to it, unless the block or those bytes are not to be had.
     */
    method WriteRound(i: nat, off: nat, m: nat, src: Bytes, tot: nat, ghost s0: Fs, ghost off0: nat) returns (ok: bool)
      requires Inv(S(), owner, {}) && tot <= |src| && HasWritten(s0, S(), i, off0, src[..tot]) && off == off0 + tot && i < |inode|
      requires 0 < m && off % BSIZE + m <= BSIZE && off + m <= MAXBYTES
      modifies `blk, `inode, `owner
      ensures Inv(S(), owner, {}) && off / BSIZE < MAXFILE && |inode| == |old(inode)|
      ensures ok <==> BlockAt(S(), i, off / BSIZE) != 0 && tot + m <= |src|
      ensures HasWritten(s0, S(), i, off0, if ok then src[..tot + m] else src[..tot])
      ensures FillsOnly(old(S()), S(), i, off / BSIZE, off / BSIZE + 1)
      ensures BlockAt(S(), i, off / BSIZE) == 0 ==> Full(S())
    {
      hide Owners, Accounted, Shape, BlockAt, Raw, Wrote, SameBytes, Full, Patch, FillsOnly, SameRefs, Took;
      ghost var s1 := S();
      var bn := off / BSIZE;
      BmapInside(off);
      var addr, _ := Bmap(i, bn);
      SameCount(s1, S());
      WroteSame(s0, s1, S(), i, off0, src[..tot]);
      TookFills(s1, S(), old(owner), owner, i, bn);
      if addr == 0 || tot + m > |src| {
        return false;
      }
      ghost var s2 := S();
      var chunk := src[tot..tot + m];
      WroteChunk(s0, s2, owner, i, off0, src[..tot], chunk, addr);
      assert src[..tot] + chunk == src[..tot + m];
      PatchRefs(s2, owner, i, bn, off % BSIZE, chunk);
      blk := blk[addr := Patch(blk[addr], off % BSIZE, chunk)];
      SameFills(s2, S(), i, bn, bn + 1);
      FillsTrans(s1, s2, S(), i, bn, bn + 1, bn, bn + 1);
      return true;
    }

    /** writei's loop. */
    method WriteBlocks(i: nat, off0: nat, n: nat, src: Bytes) returns (tot: nat)
      requires Inv(S(), owner, {}) && i < |inode| && off0 + n <= MAXBYTES
      modifies `blk, `inode, `owner
      ensures Inv(S(), owner, {}) && tot <= n && tot <= |src| && |inode| == |old(inode)|
      ensures HasWritten(old(S()), S(), i, off0, src[..tot])
      ensures tot < n ==> StoppedShort(old(S()), S(), i, off0, n, |src|, tot)
      ensures Backed(old(S()), S(), i, off0 / BSIZE, if tot < n then (off0 + tot) / BSIZE + 1 else Reached(off0, tot), tot < n)
    {
      hide Inv, BlockAt, Wrote, Full, FillsOnly, Backed, Reached, HasWritten, Shape;
      ghost var s0 := S();
      InvShape(s0, owner);
      WroteNothing(s0, i, off0);
      HasNothing(s0, i, off0);
      BackedNothing(s0, i, off0);
      var off := off0;
      tot := 0;
      while tot < n
        invariant 0 <= tot <= n && off == off0 + tot && tot <= |src|
        invariant Inv(S(), owner, {}) && HasWritten(s0, S(), i, off0, src[..tot])
        invariant |inode| == |s0.inode|
        invariant tot == 0 || tot == n || off % BSIZE == 0
        invariant Backed(s0, S(), i, off0 / BSIZE, Reached(off0, tot), false)
        decreases n - tot
      {
        var m := if n - tot < BSIZE - off % BSIZE then n - tot else BSIZE - off % BSIZE;
        ghost var s1 := S();
        var ok := WriteRound(i, off, m, src, tot, s0, off0);
        InvShape(S(), owner);
        BackedMore(s0, s1, S(), i, off0, tot, m);
        if !ok {
          BackedShort(s0, S(), i, off0 / BSIZE, off / BSIZE + 1, BlockAt(S(), i, off / BSIZE) == 0);
          return;
        }
        if tot + m < n { NextBlock(off, m); }
        tot, off := tot + m, off + m;
      }
    }

    /**
      writei, with `src` the readable part of the source: the first `r` bytes are spliced into
      the file, which grows if needed; every other file keeps its bytes. A short write ends
      before a block whose part of the source cannot be read, or which the file did not have and
      a full disk cannot give it. Blocks went to the places written to and nowhere else. The
      inode on disk is brought up to date either way.
     */
    method Writei(i: nat, off0: nat, n: nat, src: Bytes) returns (r: int)
      requires Good(S(), owner) && i < |inode| && i < |dinode| && off0 < UINT && n < UINT
      modifies `blk, `inode, `dinode, `owner
      ensures Good(S(), owner) && |inode| == |old(inode)|
      ensures r == -1 <==> off0 > old(inode)[i].size || off0 + n >= UINT || off0 + n > MAXBYTES
      ensures r == -1 ==> S() == old(S()) && dinode == old(dinode)
      ensures r != -1 ==> 0 <= r <= n && r <= |src| && dinode == old(dinode)[i := inode[i]]
      ensures r != -1 ==> Contents(S(), i) == Splice(Contents(old(S()), i), off0, src[..r])
      ensures forall j :: 0 <= j < |inode| && j != i ==> Contents(S(), j) == Contents(old(S()), j)
      ensures 0 <= r < n ==> StoppedShort(old(S()), S(), i, off0, n, |src|, r)
      ensures r != -1 ==> Backed(old(S()), S(), i, off0 / BSIZE, if r < n then (off0 + r) / BSIZE + 1 else Reached(off0, r), r < n)
    {
      hide Owners, Accounted, Shape, HoleFree, BlockAt, Contents, Raw, Wrote, SameBytes, Full, Splice, FillsOnly, SameRefs, Backed, Reached, StoppedShort;
      GoodShape(S(), owner, i);
      GoodAll(S(), owner);
      SizeBound(S(), i);
      Sum32(off0, n);
      if off0 > inode[i].size || (off0 + n) % UINT < off0 {
        return -1;
      }
      if (off0 + n) % UINT > MAXBYTES {
        return -1;
      }
      ghost var s0 := S();
      var tot := WriteBlocks(i, off0, n, src);
      var off := off0 + tot;
      ghost var s2 := S();
      WroteSizes(s0, s2, i, off0, src[..tot]);
      WroteDone(s0, s2, old(owner), owner, i, off0, src[..tot]);
      assert inode[i := inode[i].(size := inode[i].size)] == inode;
      if off > inode[i].size {
        inode := inode[i := inode[i].(size := off)];
      }
      BackedSize(s0, s2, S(), i, inode[i].size, off0 / BSIZE, if tot < n then off / BSIZE + 1 else Reached(off0, tot), tot < n);
      if tot < n { ShortSize(s0, s2, S(), i, off0, n, |src|, tot); }
      Iupdate(i);
      return tot;
    }

    /** A write that is accepted, then a read of what it wrote: the same bytes come back. */
    method WriteThenRead(i: nat, off0: nat, n: nat, src: Bytes) returns (r: int, out: Bytes)
      requires Good(S(), owner) && i < |inode| && i < |dinode| && off0 < UINT && n < UINT
      modifies `blk, `inode, `dinode, `owner
      ensures r != -1 ==> 0 <= r <= |src| && out == src[..r]
      ensures r != -1 && n <= |src| && (forall bn :: off0 / BSIZE <= bn < Reached(off0, n) && bn < MAXFILE ==> BlockAt(old(S()), i, bn) != 0) ==> r == n
    {
      hide Inv, Shape, HoleFree, Contents, BlockAt, Splice, Backed, Full;
      r := Writei(i, off0, n, src);
      out := [];
      if r != -1 {
        var got;
        got, out := Readi(i, off0, r, r);
        assert out == src[..r];
        if r < n { StopsInRange(off0, r, n); }
      }
    }

    /** bfree of a block that only a vanishing reference still names. */
    method FreeLoose(b: nat, i: nat, k: nat, ghost kept: map<int, Slot>, ghost loose: set<int>) returns (panicked: bool)
      requires Shape(S()) && i < |inode| && k <= NDIRECT && b in loose
      requires Inv(SetAddr(S(), i, k, 0), kept, loose)
      modifies `blk
      ensures !panicked && Shape(S()) && Inv(SetAddr(S(), i, k, 0), kept, loose - {b})
      ensures b < size && Used(old(S()), b)
      ensures forall x :: nmeta <= x < size ==> x in blk && x in old(blk) && blk[x] == old(blk)[x]
    {
      hide Owners, Accounted, Used, Mask;
      FreeUnder(S(), kept, loose, i, k, b);
      panicked := Bfree(b);
    }

    /** itrunc's loop over the direct blocks; every bfree finds its bit set. */
    method TruncDirect(i: nat) returns (panicked: bool)
      requires Inv(S(), owner, {}) && i < |inode|
      modifies `blk, `inode, `owner
      ensures !panicked && Inv(S(), owner, {}) && |inode| == |old(inode)|
      ensures forall j :: 0 <= j < |inode| && j != i ==> inode[j] == old(inode)[j]
      ensures forall k :: 0 <= k < NDIRECT ==> inode[i].addrs[k] == 0
      ensures owner == old(owner) - DirectOf(old(owner), i, NDIRECT)
      ensures forall x :: nmeta <= x < size ==> x in blk && x in old(blk) && blk[x] == old(blk)[x]
    {
      hide Owners, Accounted, Used, Mask, Gone, DirectOf;
      NoDirect(owner, i);
      panicked := false;
      var k := 0;
      while k < NDIRECT
        invariant 0 <= k <= NDIRECT && !panicked
        invariant Inv(S(), owner, {}) && |inode| == |old(inode)|
        invariant forall j :: 0 <= j < |inode| && j != i ==> inode[j] == old(inode)[j]
        invariant forall j :: 0 <= j < k ==> inode[i].addrs[j] == 0
        invariant owner == old(owner) - DirectOf(old(owner), i, k)
        invariant forall x :: nmeta <= x < size ==> x in blk && x in old(blk) && blk[x] == old(blk)[x]
      {
        ghost var gone := Gone(owner, i, k);
        DetachKeeps(S(), owner, {}, i, k);
        GoneDirect(S(), owner, old(owner), i, k);
        if inode[i].addrs[k] != 0 {
          panicked := FreeLoose(inode[i].addrs[k], i, k, owner - gone, {} + gone);
          assert {} + gone - {inode[i].addrs[k]} == {};
          inode := inode[i := inode[i].(addrs := inode[i].addrs[k := 0])];
          owner := owner - gone;
        }
        k := k + 1;
      }
    }

    /** itrunc's loop over the indirect block's entries, then the indirect block itself. */
    method TruncIndirect(i: nat) returns (panicked: bool)
      requires Inv(S(), owner, {}) && i < |inode| && inode[i].addrs[NDIRECT] != 0
      modifies `blk, `inode, `owner
      ensures !panicked && Inv(S(), owner, {})
      ensures inode == old(inode)[i := old(inode)[i].(addrs := old(inode)[i].addrs[NDIRECT := 0])]
      ensures owner == old(owner) - Gone(old(owner), i, NDIRECT)
      ensures forall x :: nmeta <= x < size ==> x in blk && x in old(blk) && blk[x] == old(blk)[x]
    {
      hide Owners, Accounted, Used, Mask, Word;
      ghost var s0, kept, gone := S(), owner - Gone(owner, i, NDIRECT), Gone(owner, i, NDIRECT);
      IndirectOwned(s0, owner, i);
      DetachKeeps(s0, owner, {}, i, NDIRECT);
      var ind := inode[i].addrs[NDIRECT];
      var a := blk[ind];
      ghost var loose := {} + gone;
      GoneIndirect(s0, owner, i);
      panicked := false;
      var j := 0;
      while j < NINDIRECT
        invariant 0 <= j <= NINDIRECT && !panicked && Shape(S()) && inode == old(inode) && owner == old(owner)
        invariant Inv(SetAddr(S(), i, NDIRECT, 0), kept, loose)
        invariant loose == EntriesFrom(s0, i, a, j) + {ind}
        invariant forall x :: nmeta <= x < size ==> x in blk && x in old(blk) && blk[x] == old(blk)[x]
      {
        EntriesStep(s0, owner, i, a, j);
        if Word(a, j) != 0 {
          panicked := FreeLoose(Word(a, j), i, NDIRECT, kept, loose);
          loose := loose - {Word(a, j)};
        }
        j := j + 1;
      }
      assert EntriesFrom(s0, i, a, NINDIRECT) == {};
      panicked := FreeLoose(ind, i, NDIRECT, kept, loose);
      assert loose - {ind} == {};
      inode := inode[i := inode[i].(addrs := inode[i].addrs[NDIRECT := 0])];
      owner := kept;
    }

    /**
      itrunc: afterwards file `i` is empty and the blocks freed are exactly the ones it owned;
      "freeing free block" is never reached, and no other file changes.
     */
    method Itrunc(i: nat) returns (panicked: bool)
      requires Good(S(), owner) && i < |inode| && i < |dinode|
      modifies `blk, `inode, `dinode, `owner
      ensures !panicked && Good(S(), owner) && |inode| == |old(inode)|
      ensures inode[i].size == 0 && dinode == old(dinode)[i := inode[i]]
      ensures forall bn :: 0 <= bn < MAXFILE ==> BlockAt(S(), i, bn) == 0
      ensures owner == old(owner) - BlocksOf(old(owner), i)
      ensures forall b :: 0 <= b < size ==> (Used(S(), b) <==> Used(old(S()), b) && b !in BlocksOf(old(owner), i))
      ensures forall j :: 0 <= j < |inode| && j != i ==> Contents(S(), j) == Contents(old(S()), j)
    {
      hide Owners, Accounted, Used, Mask, Contents, HoleFree, BlockAt;
      ghost var s0, owner0 := S(), owner;
      DirectSlots(s0, owner0);
      panicked := TruncDirect(i);
      TruncSplit(S(), owner0, owner, i);
      if inode[i].addrs[NDIRECT] != 0 {
        panicked := TruncIndirect(i);
      }
      ghost var s1 := S();
      SetSizeKeeps(s1, owner, i, 0);
      inode := inode[i := inode[i].(size := 0)];
      TruncDone(s0, S(), owner0, owner, i);
      Iupdate(i);
    }
  }

  /** The indirect block that was found missing and got. */
  ghost function TakenIndirect(s: Fs, s': Fs, i: nat, bn: nat): set<int>
    requires Shape(s) && Shape(s') && i < |s.inode| == |s'.inode|
  {
    if bn >= NDIRECT && Ref(s, Indirect(i)) == 0 && Ref(s', Indirect(i)) != 0 then {Ref(s', Indirect(i))} else {}
  }

  /** The data block that was found missing and got. */
  ghost function TakenBlock(s: Fs, s': Fs, i: nat, bn: nat): set<int>
    requires Shape(s) && Shape(s') && i < |s.inode| == |s'.inode| && bn < MAXFILE
  {
    if BlockAt(s, i, bn) == 0 && BlockAt(s', i, bn) != 0 then {BlockAt(s', i, bn)} else {}
  }

  /** Of all slots, only the block's own and the indirect block's got blocks, each the first one free then. */
  ghost predicate Took(s: Fs, s': Fs, owner: map<int, Slot>, owner': map<int, Slot>, i: nat, bn: nat) {
    && Shape(s) && Shape(s') && i < |s.inode| && bn < MAXFILE && FillsOnly(s, s', i, bn, bn + 1)
    && var ind, b := TakenIndirect(s, s', i, bn), TakenBlock(s, s', i, bn);
       && (forall x :: x in ind ==> FirstFreeBut(s, {}, x)) && (forall x :: x in b ==> FirstFreeBut(s, ind, x))
       && owner'.Keys == owner.Keys + ind + b && (forall x :: x in owner ==> owner'[x] == owner[x])
       && AlsoUsed(s, s', ind + b)
  }

  lemma TookNothing(s: Fs, owner: map<int, Slot>, i: nat, bn: nat)
    requires Inv(s, owner, {}) && i < |s.inode| && bn < MAXFILE
    ensures Took(s, s, owner, owner, i, bn)
  {
    hide Used, Ref, Shape, BlockAt;
  }

  /** A direct block. */
  lemma TookOne(s: Fs, s': Fs, owner: map<int, Slot>, owner': map<int, Slot>, i: nat, bn: nat, b: int)
    requires Inv(s, owner, {}) && Inv(s', owner', {}) && i < |s.inode| && bn < NDIRECT && b != 0 && s'.nmeta == s.nmeta && s'.size == s.size
    requires |s'.inode| == |s.inode| && BlockAt(s, i, bn) == 0 && BlockAt(s', i, bn) == b && FirstFreeBut(s, {}, b) && b !in owner && owner' == owner[b := Direct(i, bn)]
    requires forall lo, hi :: Asked(Direct(i, bn), i, lo, hi) ==> FillsOnly(s, s', i, lo, hi)
    ensures Took(s, s', owner, owner', i, bn)
  {
    hide Used, Ref, Shape, BlockAt, FirstFreeBut, FillsOnly, Inv, AlsoUsed;
    InvShape(s, owner);
    InvShape(s', owner');
    assert Asked(Direct(i, bn), i, bn, bn + 1);
    OwnedBits(s, s', owner, owner', {b});
    assert {} + {b} == {b};
  }

  lemma InvShape(s: Fs, owner: map<int, Slot>)
    requires Inv(s, owner, {})
    ensures Shape(s)
  {
  }

  /** The indirect block, with every entry still empty. */
  lemma TookIndirect(s: Fs, s': Fs, owner: map<int, Slot>, owner': map<int, Slot>, i: nat, bn: nat, a: int)
    requires Inv(s, owner, {}) && Inv(s', owner', {}) && i < |s.inode| && NDIRECT <= bn < MAXFILE && a != 0 && s'.nmeta == s.nmeta && s'.size == s.size
    requires |s'.inode| == |s.inode| && Ref(s, Indirect(i)) == 0 && Ref(s', Indirect(i)) == a && FirstFreeBut(s, {}, a) && a !in owner && owner' == owner[a := Indirect(i)]
    requires forall lo, hi :: Asked(Indirect(i), i, lo, hi) ==> FillsOnly(s, s', i, lo, hi)
    ensures Took(s, s', owner, owner', i, bn) && BlockAt(s', i, bn) == 0
  {
    hide Used, Shape, FirstFreeBut, Inv, AlsoUsed, Owners;
    InvShape(s, owner);
    InvShape(s', owner');
    IndirectOnly(s, s', i, bn);
    OwnedBits(s, s', owner, owner', {a});
    assert {a} + {} == {a};
  }

  lemma IndirectOnly(s: Fs, s': Fs, i: nat, bn: nat)
    requires Shape(s) && Shape(s') && i < |s.inode| && NDIRECT <= bn < MAXFILE && Ref(s, Indirect(i)) == 0
    requires forall lo, hi :: Asked(Indirect(i), i, lo, hi) ==> FillsOnly(s, s', i, lo, hi)
    ensures FillsOnly(s, s', i, bn, bn + 1) && BlockAt(s', i, bn) == BlockAt(s, i, bn) == 0
  {
    assert Asked(Indirect(i), i, bn, bn + 1) && Asked(Indirect(i), i, MAXFILE, MAXFILE + 1);
    assert FillsOnly(s, s', i, MAXFILE, MAXFILE + 1);
    assert IsSlot(s, Entry(i, bn - NDIRECT)) && !Asked(Entry(i, bn - NDIRECT), i, MAXFILE, MAXFILE + 1);
  }

  /** A block behind the indirect block, which may be new itself. */
  lemma TookEntry(s: Fs, s1: Fs, s': Fs, owner: map<int, Slot>, owner1: map<int, Slot>, owner': map<int, Slot>, i: nat, bn: nat, b: int)
    requires Took(s, s1, owner, owner1, i, bn) && Inv(s, owner, {}) && Inv(s1, owner1, {}) && Inv(s', owner', {})
    requires s'.nmeta == s.nmeta && s'.size == s.size && s'.inode == s1.inode && NDIRECT <= bn && b != 0
    requires BlockAt(s1, i, bn) == 0 && BlockAt(s', i, bn) == b && FirstFreeBut(s1, {}, b) && b !in owner1 && owner' == owner1[b := Entry(i, bn - NDIRECT)]
    requires forall lo, hi :: Asked(Entry(i, bn - NDIRECT), i, lo, hi) ==> FillsOnly(s1, s', i, lo, hi)
    ensures Took(s, s', owner, owner', i, bn)
  {
    hide Used, Shape, Inv, Owners, BlockAt;
    InvShape(s', owner');
    assert Asked(Entry(i, bn - NDIRECT), i, bn, bn + 1);
    FillsTrans(s, s1, s', i, bn, bn + 1, bn, bn + 1);
    BlockStillMissing(s, s1, i, bn);
    var ind := TakenIndirect(s, s1, i, bn);
    assert TakenBlock(s, s1, i, bn) == {} && TakenIndirect(s, s', i, bn) == ind && TakenBlock(s, s', i, bn) == {b};
    NextFree(s, s1, ind + {}, b);
    assert ind + {} == ind;
    OwnedBits(s, s', owner, owner', ind + {b});
  }

  lemma BlockStillMissing(s: Fs, s': Fs, i: nat, bn: nat)
    requires Shape(s) && Shape(s') && i < |s.inode| && bn < MAXFILE && FillsOnly(s, s', i, bn, bn + 1) && BlockAt(s', i, bn) == 0
    ensures BlockAt(s, i, bn) == 0
  {
    assert IsSlot(s, BlockSlot(i, bn));
  }

  lemma NextFree(s: Fs, s1: Fs, taken: set<int>, b: int)
    requires Shape(s) && Shape(s1) && AlsoUsed(s, s1, taken) && FirstFreeBut(s1, {}, b)
    ensures FirstFreeBut(s, taken, b)
  {
    hide Used;
  }

  lemma DirectSlots(s: Fs, owner: map<int, Slot>)
    requires Inv(s, owner, {})
    ensures forall b :: b in owner && owner[b].Direct? ==> owner[b].k < NDIRECT
  {
  }

  /** The blocks file `i` owns. */
  ghost function BlocksOf(owner: map<int, Slot>, i: nat): set<int> {
    set b | b in owner && owner[b].i == i
  }

  /** The blocks the entries of `a` from `j` on refer to. */
  ghost function EntriesFrom(s: Fs, i: nat, a: Bytes, j: nat): set<int>
    requires |a| == BSIZE && j <= NINDIRECT
  {
    set k | j <= k < NINDIRECT && Word(a, k) != 0 :: Word(a, k)
  }

  lemma GoneIndirect(s: Fs, owner: map<int, Slot>, i: nat)
    requires Inv(s, owner, {}) && i < |s.inode| && s.inode[i].addrs[NDIRECT] != 0
    ensures var ind := s.inode[i].addrs[NDIRECT];
            && s.nmeta <= ind < s.size
            && Gone(owner, i, NDIRECT) == EntriesFrom(s, i, s.blk[ind], 0) + {ind}
  {
    hide Accounted;
    IndirectOwned(s, owner, i);
    var ind := s.inode[i].addrs[NDIRECT];
    var a := s.blk[ind];
    forall b | b in Gone(owner, i, NDIRECT) ensures b in EntriesFrom(s, i, a, 0) + {ind} {
      assert Ref(s, owner[b]) == b;
      if owner[b].Entry? {
        assert Word(a, owner[b].k) == b;
      }
    }
    forall b | b in EntriesFrom(s, i, a, 0) ensures b in Gone(owner, i, NDIRECT) {
      var k :| 0 <= k < NINDIRECT && Word(a, k) != 0 && Word(a, k) == b;
      assert IsSlot(s, Entry(i, k)) && Ref(s, Entry(i, k)) == b;
    }
  }

  /** The next entry's block is named by no later entry and is not the indirect block. */
  lemma EntriesStep(s: Fs, owner: map<int, Slot>, i: nat, a: Bytes, j: nat)
    requires Inv(s, owner, {}) && i < |s.inode| && 0 < s.inode[i].addrs[NDIRECT] < s.size && j < NINDIRECT
    requires a == s.blk[s.inode[i].addrs[NDIRECT]]
    ensures Word(a, j) == 0 ==> EntriesFrom(s, i, a, j + 1) == EntriesFrom(s, i, a, j)
    ensures Word(a, j) != 0 ==>
              && Word(a, j) >= 0 && Word(a, j) in EntriesFrom(s, i, a, j) && Word(a, j) != s.inode[i].addrs[NDIRECT]
              && EntriesFrom(s, i, a, j + 1) == EntriesFrom(s, i, a, j) - {Word(a, j)}
  {
    hide Accounted;
    if Word(a, j) != 0 {
      assert IsSlot(s, Entry(i, j)) && Ref(s, Entry(i, j)) == Word(a, j);
      assert IsSlot(s, Indirect(i)) && Ref(s, Indirect(i)) == s.inode[i].addrs[NDIRECT];
      forall k | j < k < NINDIRECT && Word(a, k) != 0 ensures Word(a, k) != Word(a, j) {
        assert IsSlot(s, Entry(i, k)) && Ref(s, Entry(i, k)) == Word(a, k);
      }
    }
  }

  /** What is left after the direct blocks are gone belongs to the indirect block. */
  lemma TruncSplit(s: Fs, owner0: map<int, Slot>, owner: map<int, Slot>, i: nat)
    requires Inv(s, owner, {}) && i < |s.inode| && owner == owner0 - DirectOf(owner0, i, NDIRECT)
    requires forall b :: b in owner0 && owner0[b].Direct? ==> owner0[b].k < NDIRECT
    ensures owner - Gone(owner, i, NDIRECT) == owner0 - BlocksOf(owner0, i)
    ensures s.inode[i].addrs[NDIRECT] == 0 ==> owner == owner0 - BlocksOf(owner0, i)
  {
    hide Accounted;
    var m, m0 := owner - Gone(owner, i, NDIRECT), owner0 - BlocksOf(owner0, i);
    forall b | b in owner0 ensures b in m <==> b in m0 {
      assert b in owner ==> owner[b] == owner0[b];
    }
    assert m.Keys == m0.Keys;
    if s.inode[i].addrs[NDIRECT] == 0 {
      forall b | b in owner ensures b !in Gone(owner, i, NDIRECT) {
        assert Ref(s, owner[b]) == b;
      }
      assert m == owner;
    }
  }

  /** Inode `i` is empty, and nothing else but the bitmap changed. */
  ghost predicate Emptied(s0: Fs, s: Fs, i: nat)
    requires Shape(s0) && Shape(s)
  {
    && i < |s0.inode| == |s.inode| && s == s0.(blk := s.blk, inode := s.inode)
    && s.inode[i].size == 0 && (forall k :: 0 <= k <= NDIRECT ==> s.inode[i].addrs[k] == 0)
    && (forall j :: 0 <= j < |s.inode| && j != i ==> s.inode[j] == s0.inode[j])
    && (forall x :: s.nmeta <= x < s.size ==> s.blk[x] == s0.blk[x])
  }

  lemma TruncDone(s0: Fs, s: Fs, owner0: map<int, Slot>, owner: map<int, Slot>, i: nat)
    requires Good(s0, owner0) && Inv(s, owner, {}) && Emptied(s0, s, i) && owner == owner0 - BlocksOf(owner0, i)
    ensures Good(s, owner)
    ensures forall bn :: 0 <= bn < MAXFILE ==> BlockAt(s, i, bn) == 0
    ensures forall j :: 0 <= j < |s.inode| && j != i ==> Contents(s, j) == Contents(s0, j)
    ensures forall b :: 0 <= b < s.size ==> (Used(s, b) <==> Used(s0, b) && b !in BlocksOf(owner0, i))
  {
    hide Used, HoleFree, Contents, Shape;
    forall j | 0 <= j < |s.inode| ensures HoleFree(s, j) && (j != i ==> Contents(s, j) == Contents(s0, j)) {
      TruncOther(s0, s, owner0, i, j);
    }
    forall bn | 0 <= bn < MAXFILE ensures BlockAt(s, i, bn) == 0 {
      EmptyBlock(s, i, bn);
    }
  }

  lemma EmptyBlock(s: Fs, i: nat, bn: nat)
    requires Shape(s) && i < |s.inode| && bn < MAXFILE && forall k :: 0 <= k <= NDIRECT ==> s.inode[i].addrs[k] == 0
    ensures BlockAt(s, i, bn) == 0
  {
  }

  lemma TruncOther(s0: Fs, s: Fs, owner0: map<int, Slot>, i: nat, j: nat)
    requires Good(s0, owner0) && Shape(s) && Emptied(s0, s, i) && j < |s.inode|
    ensures HoleFree(s, j) && (j != i ==> Contents(s, j) == Contents(s0, j))
  {
    assert HoleFree(s0, j);
    if j != i {
      forall bn | 0 <= bn < MAXFILE ensures BlockAt(s, j, bn) == BlockAt(s0, j, bn) {
        OtherBlock(s0, s, owner0, i, j, bn);
      }
      forall p | 0 <= p < MAXBYTES ensures Raw(s, j, p) == Raw(s0, j, p) {
        OtherBlock(s0, s, owner0, i, j, p / BSIZE);
      }
    }
  }

  lemma OtherBlock(s0: Fs, s: Fs, owner0: map<int, Slot>, i: nat, j: nat, bn: nat)
    requires Inv(s0, owner0, {}) && Shape(s) && Emptied(s0, s, i) && j < |s.inode| && j != i && bn < MAXFILE
    ensures BlockAt(s, j, bn) == BlockAt(s0, j, bn)
    ensures 0 < BlockAt(s0, j, bn) < s0.size ==> s.blk[BlockAt(s0, j, bn)] == s0.blk[BlockAt(s0, j, bn)]
  {
    hide Accounted;
    assert IsSlot(s0, Indirect(j)) && Ref(s0, Indirect(j)) == s0.inode[j].addrs[NDIRECT];
    assert IsSlot(s0, BlockSlot(j, bn));
  }

  /** The blocks file `i` owns through its first `k` direct slots. */
  ghost function DirectOf(owner: map<int, Slot>, i: nat, k: nat): set<int> {
    set b | b in owner && owner[b].Direct? && owner[b].i == i && owner[b].k < k
  }

  lemma NoDirect(owner: map<int, Slot>, i: nat)
    ensures owner - DirectOf(owner, i, 0) == owner
  {
    assert DirectOf(owner, i, 0) == {};
  }

  lemma GoneDirect(s: Fs, owner: map<int, Slot>, owner0: map<int, Slot>, i: nat, k: nat)
    requires Inv(s, owner, {}) && i < |s.inode| && k < NDIRECT
    requires owner == owner0 - DirectOf(owner0, i, k)
    ensures var a := s.inode[i].addrs[k];
            && (a == 0 ==> Gone(owner, i, k) == {}) && (a != 0 ==> a >= 0 && Gone(owner, i, k) == {a})
            && owner - Gone(owner, i, k) == owner0 - DirectOf(owner0, i, k + 1)
  {
    var a := s.inode[i].addrs[k];
    assert IsSlot(s, Direct(i, k)) && Ref(s, Direct(i, k)) == a;
    forall b | b in Gone(owner, i, k) ensures b == a {
      assert owner[b] == Direct(i, k);
    }
    var m, m0 := owner - Gone(owner, i, k), owner0 - DirectOf(owner0, i, k + 1);
    forall b | b in owner0 ensures b in m <==> b in m0 {
      assert b in owner ==> owner[b] == owner0[b];
    }
    assert m.Keys == m0.Keys;
  }

  lemma FreeUnder(s: Fs, kept: map<int, Slot>, loose: set<int>, i: nat, k: nat, b: nat)
    requires Shape(s) && i < |s.inode| && k <= NDIRECT && b in loose && Inv(SetAddr(s, i, k, 0), kept, loose)
    ensures b < s.size && Used(s, b) && Shape(Mark(s, b, -Mask(b % 8)))
    ensures Inv(SetAddr(Mark(s, b, -Mask(b % 8)), i, k, 0), kept, loose - {b})
    ensures forall x :: s.nmeta <= x < s.size ==> x in Mark(s, b, -Mask(b % 8)).blk && Mark(s, b, -Mask(b % 8)).blk[x] == s.blk[x]
  {
    var v := SetAddr(s, i, k, 0);
    FreeKeeps(v, kept, loose, b);
    MarkFree(s, b, b);
    assert SetAddr(Mark(s, b, -Mask(b % 8)), i, k, 0) == Mark(v, b, -Mask(b % 8));
  }

  /** After writing `data` at `off` into file `i`, before the size is updated. */
  ghost predicate Wrote(s0: Fs, s: Fs, i: nat, off: nat, data: Bytes)
    requires Shape(s0) && Shape(s) && i < |s0.inode|
  {
    && |s.inode| == |s0.inode| && off + |data| <= MAXBYTES
    && (forall j :: 0 <= j < |s.inode| ==> s.inode[j].size == s0.inode[j].size)
    && (forall slot :: IsSlot(s0, slot) && Ref(s0, slot) != 0 ==> Ref(s, slot) == Ref(s0, slot))
    && (forall j, p :: 0 <= j < |s.inode| && 0 <= p < MAXBYTES ==>
          Raw(s, j, p) == if j == i && off <= p < off + |data| then data[p - off] else Raw(s0, j, p))
    && (data != [] ==> forall bn :: 0 <= bn < MAXFILE && off < (bn + 1) * BSIZE && bn * BSIZE < off + |data| ==> BlockAt(s, i, bn) != 0)
  }

  /** How many blocks a write of `len` bytes at `off` reaches into. */
  function Reached(off: nat, len: nat): nat {
    if len == 0 then off / BSIZE else (off + len - 1) / BSIZE + 1
  }

  /** Blocks `lo..hi` of file `i` are there, when `short` but for the last if the disk is full; no other slot changed. */
  ghost predicate Backed(s: Fs, s': Fs, i: nat, lo: nat, hi: nat, short: bool) {
    && Shape(s) && Shape(s') && i < |s.inode| && FillsOnly(s, s', i, lo, hi)
    && forall bn :: lo <= bn < hi && bn < MAXFILE ==> BlockAt(s', i, bn) != 0 || (short && bn + 1 == hi && Full(s'))
  }

  /**
    What ends a write after `r` of `n` bytes: the next block's part of the source is not there,
    or the file has no such block and every block of the disk is in use.
   */
  ghost predicate StoppedShort(s: Fs, s': Fs, i: nat, off0: nat, n: nat, readable: nat, r: nat) {
    var off := off0 + r;
    var m := if n - r < BSIZE - off % BSIZE then n - r else BSIZE - off % BSIZE;
    && Shape(s) && Shape(s') && i < |s.inode| == |s'.inode| && (r == 0 || off % BSIZE == 0) && off / BSIZE < MAXFILE
    && (r + m > readable || (BlockAt(s, i, off / BSIZE) == 0 && BlockAt(s', i, off / BSIZE) == 0 && Full(s')))
  }

  lemma NextBlock(off: nat, m: nat)
    requires off % BSIZE + m == BSIZE
    ensures (off + m) % BSIZE == 0
  {
    assert off + m == BSIZE * (off / BSIZE + 1);
  }

  lemma StopsInRange(off0: nat, r: nat, n: nat)
    requires r < n
    ensures off0 / BSIZE <= (off0 + r) / BSIZE < Reached(off0, n)
  {
  }

  lemma HasNothing(s: Fs, i: nat, off: nat)
    requires Shape(s) && i < |s.inode| && Wrote(s, s, i, off, [])
    ensures HasWritten(s, s, i, off, [])
  {
  }

  lemma BackedShort(s: Fs, s': Fs, i: nat, lo: nat, hi: nat, short: bool)
    requires Backed(s, s', i, lo, hi, short)
    ensures Backed(s, s', i, lo, hi, true)
  {
  }

  lemma BackedNothing(s: Fs, i: nat, off: nat)
    requires Shape(s) && i < |s.inode|
    ensures Backed(s, s, i, off / BSIZE, Reached(off, 0), false)
  {
  }

  /** One more block. */
  lemma BackedMore(s: Fs, t: Fs, u: Fs, i: nat, off0: nat, tot: nat, m: nat)
    requires Backed(s, t, i, off0 / BSIZE, Reached(off0, tot), false) && Shape(u) && (tot == 0 || (off0 + tot) % BSIZE == 0)
    requires 0 < m && (off0 + tot) % BSIZE + m <= BSIZE && (off0 + tot) / BSIZE < MAXFILE
    requires FillsOnly(t, u, i, (off0 + tot) / BSIZE, (off0 + tot) / BSIZE + 1)
    requires BlockAt(u, i, (off0 + tot) / BSIZE) == 0 ==> Full(u)
    ensures Backed(s, u, i, off0 / BSIZE, (off0 + tot) / BSIZE + 1, BlockAt(u, i, (off0 + tot) / BSIZE) == 0)
    ensures Reached(off0, tot + m) == (off0 + tot) / BSIZE + 1
    ensures BlockAt(u, i, (off0 + tot) / BSIZE) == 0 ==> BlockAt(s, i, (off0 + tot) / BSIZE) == 0
  {
    hide Full, Shape, Ref;
    var off, lo := off0 + tot, off0 / BSIZE;
    var bn := off / BSIZE;
    ReachedNext(off0, tot, m);
    FillsTrans(s, t, u, i, lo, Reached(off0, tot), bn, bn + 1);
    assert IsSlot(s, BlockSlot(i, bn));
    forall x | lo <= x < bn && x < MAXFILE ensures BlockAt(u, i, x) != 0 {
      assert BlockAt(t, i, x) != 0 && IsSlot(t, BlockSlot(i, x));
    }
  }

  lemma ReachedNext(off0: nat, tot: nat, m: nat)
    requires 0 < m && (off0 + tot) % BSIZE + m <= BSIZE && (tot == 0 || (off0 + tot) % BSIZE == 0)
    ensures Reached(off0, tot + m) == (off0 + tot) / BSIZE + 1 && Reached(off0, tot) == (off0 + tot) / BSIZE && off0 / BSIZE <= (off0 + tot) / BSIZE
  {
    SamePage(off0 + tot, m - 1);
    if tot > 0 {
      var q := (off0 + tot) / BSIZE;
      assert off0 + tot - 1 == BSIZE * (q - 1) + (BSIZE - 1);
    }
  }

  /** The size says nothing about blocks. */
  lemma BackedSize(s: Fs, t: Fs, u: Fs, i: nat, size: nat, lo: nat, hi: nat, short: bool)
    requires Backed(s, t, i, lo, hi, short) && i < |t.inode| && u == SetSize(t, i, size)
    ensures Backed(s, u, i, lo, hi, short)
    ensures Full(t) ==> Full(u)
    ensures forall bn :: 0 <= bn < MAXFILE ==> BlockAt(u, i, bn) == BlockAt(t, i, bn)
  {
    hide Ref, Used, Shape, Raw, Full;
    SetSizeRefs(t, i, size);
    if Full(t) { FullInodes(t, u); }
    forall bn | 0 <= bn < MAXFILE ensures BlockAt(u, i, bn) == BlockAt(t, i, bn) {
      assert IsSlot(t, BlockSlot(i, bn));
    }
    forall x | IsSlot(s, x) ensures Ref(u, x) == Ref(t, x) {
      assert IsSlot(t, x);
    }
  }

  lemma ShortSize(s: Fs, t: Fs, u: Fs, i: nat, off0: nat, n: nat, readable: nat, r: nat)
    requires StoppedShort(s, t, i, off0, n, readable, r) && Shape(u) && |u.inode| == |t.inode| && (Full(t) ==> Full(u))
    requires forall bn :: 0 <= bn < MAXFILE ==> BlockAt(u, i, bn) == BlockAt(t, i, bn)
    ensures StoppedShort(s, u, i, off0, n, readable, r)
  {
    hide BlockAt, Full, Shape;
  }

  lemma TookFills(s: Fs, s': Fs, owner: map<int, Slot>, owner': map<int, Slot>, i: nat, bn: nat)
    requires Took(s, s', owner, owner', i, bn)
    ensures Shape(s) && Shape(s') && FillsOnly(s, s', i, bn, bn + 1)
  {
  }

  lemma PatchRefs(s: Fs, owner: map<int, Slot>, i: nat, bn: nat, o: nat, chunk: Bytes)
    requires Shape(s) && Owners(s, owner) && i < |s.inode| && bn < MAXFILE && BlockAt(s, i, bn) != 0 && o + |chunk| <= BSIZE
    ensures var b := BlockAt(s, i, bn);
            && b in s.blk && |s.blk[b]| == BSIZE && Shape(Patched(s, b, o, chunk)) && SameRefs(s, Patched(s, b, o, chunk))
            && BlockAt(Patched(s, b, o, chunk), i, bn) == b
  {
    hide Raw, Patch, Ref;
    MappedIsOwned(s, owner, i, bn);
    BlockBytes(s, BlockAt(s, i, bn));
    WriteRaw(s, owner, i, bn, Patch(s.blk[BlockAt(s, i, bn)], o, chunk));
    assert IsSlot(s, BlockSlot(i, bn));
  }

  lemma WroteNothing(s: Fs, i: nat, off: nat)
    requires Shape(s) && i < |s.inode| && off <= MAXBYTES
    ensures Wrote(s, s, i, off, [])
  {
  }

  /** An offset below the maximal file size never meets bmap's range panic. */
  lemma BmapInside(off: nat)
    requires off < MAXBYTES
    ensures off / BSIZE < MAXFILE
  {
  }

  lemma SameCount(s: Fs, s': Fs)
    requires Shape(s) && Shape(s') && SameBytes(s, s')
    ensures |s'.inode| == |s.inode|
  {
  }

  lemma FullInodes(s: Fs, s': Fs)
    requires Shape(s) && Shape(s') && s' == s.(inode := s'.inode) && Full(s)
    ensures Full(s')
  {
    forall c | 0 <= c < s.size ensures Used(s', c) {
      assert Used(s, c);
    }
  }

  lemma GoodAll(s: Fs, owner: map<int, Slot>)
    requires Good(s, owner)
    ensures forall j :: 0 <= j < |s.inode| ==> HoleFree(s, j)
  {
  }

  lemma WroteSame(s0: Fs, s: Fs, s': Fs, i: nat, off: nat, data: Bytes)
    requires Shape(s0) && Shape(s) && Shape(s') && i < |s0.inode| && Wrote(s0, s, i, off, data) && SameBytes(s, s')
    ensures Wrote(s0, s', i, off, data)
  {
    hide Shape, Raw, Ref;
    forall slot | IsSlot(s0, slot) && Ref(s0, slot) != 0 ensures Ref(s', slot) == Ref(s0, slot) {
      assert IsSlot(s, slot);
    }
    forall bn | data != [] && 0 <= bn < MAXFILE && off < (bn + 1) * BSIZE && bn * BSIZE < off + |data| ensures BlockAt(s', i, bn) != 0 {
      assert BlockAt(s, i, bn) != 0;
      assert IsSlot(s, BlockSlot(i, bn));
    }
  }

  /** `b` with `chunk` written over it from byte `o` on. */
  function Patch(b: Bytes, o: nat, chunk: Bytes): (r: Bytes)
    requires |b| == BSIZE && o + |chunk| <= BSIZE
    ensures |r| == BSIZE
    ensures forall q :: 0 <= q < BSIZE ==> r[q] == if o <= q < o + |chunk| then chunk[q - o] else b[q]
  {
    b[..o] + chunk + b[o + |chunk|..]
  }

  /** The state with `chunk` written into block `b` from byte `o` on. */
  ghost function Patched(s: Fs, b: int, o: nat, chunk: Bytes): Fs {
    if b in s.blk && |s.blk[b]| == BSIZE && o + |chunk| <= BSIZE then PutBlk(s, b, Patch(s.blk[b], o, chunk)) else s
  }

  ghost predicate HasWritten(s0: Fs, s: Fs, i: nat, off: nat, data: Bytes) {
    Shape(s0) && Shape(s) && i < |s0.inode| && Wrote(s0, s, i, off, data)
  }

  /** There is room for the chunk in the block `b` behind what was written so far. */
  ghost predicate ChunkFits(s: Fs, i: nat, cur: nat, chunk: Bytes, b: int) {
    && Shape(s) && i < |s.inode| && cur + |chunk| <= MAXBYTES && 0 < |chunk| && cur % BSIZE + |chunk| <= BSIZE
    && cur / BSIZE < MAXFILE && b == BlockAt(s, i, cur / BSIZE) && b != 0
  }

  /** One more chunk, inside one block. */
  lemma WroteChunk(s0: Fs, s: Fs, owner: map<int, Slot>, i: nat, off: nat, data: Bytes, chunk: Bytes, b: int)
    requires HasWritten(s0, s, i, off, data) && Inv(s, owner, {}) && ChunkFits(s, i, off + |data|, chunk, b)
    ensures b in s.blk && |s.blk[b]| == BSIZE
    ensures var s' := Patched(s, b, (off + |data|) % BSIZE, chunk);
            Inv(s', owner, {}) && HasWritten(s0, s', i, off, data + chunk)
  {
    hide Owners, Accounted, Patch, Wrote, BlockAt, Raw, Ref;
    var cur := off + |data|;
    MappedIsOwned(s, owner, i, cur / BSIZE);
    BlockBytes(s, b);
    var block := Patch(s.blk[b], cur % BSIZE, chunk);
    WriteRaw(s, owner, i, cur / BSIZE, block);
    PutKeepsBits(s, owner.Keys, {}, b, block);
    ChunkRaw(s0, s, PutBlk(s, b, block), i, off, data, chunk);
  }

  lemma ChunkRaw(s0: Fs, s: Fs, s': Fs, i: nat, off: nat, data: Bytes, chunk: Bytes)
    requires Shape(s0) && Shape(s) && Shape(s') && i < |s0.inode| && Wrote(s0, s, i, off, data) && SameRefs(s, s')
    requires s'.inode == s.inode && s'.size == s.size
    requires off + |data| + |chunk| <= MAXBYTES && 0 < |chunk| && (off + |data|) % BSIZE + |chunk| <= BSIZE
    requires (off + |data|) / BSIZE < MAXFILE && 0 < BlockAt(s, i, (off + |data|) / BSIZE) < s.size
    requires var cur := off + |data|;
             var b := BlockAt(s, i, cur / BSIZE);
             forall j, p :: 0 <= j < |s.inode| && 0 <= p < MAXBYTES ==>
               Raw(s', j, p) == if j == i && p / BSIZE == cur / BSIZE then Patch(s.blk[b], cur % BSIZE, chunk)[p % BSIZE] else Raw(s, j, p)
    ensures Wrote(s0, s', i, off, data + chunk)
  {
    hide BlockAt, Raw, Ref, Patch;
    var all, b := data + chunk, BlockAt(s, i, (off + |data|) / BSIZE);
    forall j, p | 0 <= j < |s.inode| && 0 <= p < MAXBYTES
      ensures Raw(s', j, p) == if j == i && off <= p < off + |all| then all[p - off] else Raw(s0, j, p)
    {
      ChunkByte(s0, s, s', i, off, data, chunk, j, p, b);
    }
    forall bn | 0 <= bn < MAXFILE && off < (bn + 1) * BSIZE && bn * BSIZE < off + |all| ensures BlockAt(s', i, bn) != 0 {
      ChunkBlock(s0, s, s', i, off, data, chunk, bn, b);
    }
    forall slot | IsSlot(s0, slot) && Ref(s0, slot) != 0 ensures Ref(s', slot) == Ref(s0, slot) {
      assert IsSlot(s, slot);
    }
  }

  lemma ChunkByte(s0: Fs, s: Fs, s': Fs, i: nat, off: nat, data: Bytes, chunk: Bytes, j: nat, p: nat, b: int)
    requires HasWritten(s0, s, i, off, data) && Shape(s') && s'.inode == s.inode && j < |s.inode| && p < MAXBYTES
    requires ChunkFits(s, i, off + |data|, chunk, b) && 0 < b < s.size
    requires var cur := off + |data|;
             Raw(s', j, p) == if j == i && p / BSIZE == cur / BSIZE then Patch(s.blk[b], cur % BSIZE, chunk)[p % BSIZE] else Raw(s, j, p)
    ensures Raw(s', j, p) == if j == i && off <= p < off + |data| + |chunk| then (data + chunk)[p - off] else Raw(s0, j, p)
  {
    hide BlockAt;
    var cur := off + |data|;
    InChunk(cur, |chunk|, p);
    assert j == i && p / BSIZE == cur / BSIZE ==> Raw(s, j, p) == s.blk[b][p % BSIZE];
  }

  lemma ChunkBlock(s0: Fs, s: Fs, s': Fs, i: nat, off: nat, data: Bytes, chunk: Bytes, bn: nat, b: int)
    requires HasWritten(s0, s, i, off, data) && Shape(s') && s'.inode == s.inode && SameRefs(s, s')
    requires ChunkFits(s, i, off + |data|, chunk, b)
    requires bn < MAXFILE && off < (bn + 1) * BSIZE && bn * BSIZE < off + |data| + |chunk|
    ensures BlockAt(s', i, bn) != 0
  {
    hide Raw, Ref;
    assert IsSlot(s, BlockSlot(i, bn));
    ChunkBlocks(off, |data|, |chunk|, bn);
    assert BlockAt(s, i, bn) != 0;
  }

  /** A position is inside a chunk that does not cross a block exactly when its block and offset say so. */
  lemma InChunk(cur: nat, m: nat, p: nat)
    requires cur % BSIZE + m <= BSIZE
    ensures cur <= p < cur + m <==> p / BSIZE == cur / BSIZE && cur % BSIZE <= p % BSIZE < cur % BSIZE + m
    ensures p / BSIZE == cur / BSIZE ==> p - cur == p % BSIZE - cur % BSIZE
  {
    if cur <= p < cur + m {
      SamePage(cur, p - cur);
    }
  }

  lemma ChunkBlocks(off: nat, len: nat, m: nat, bn: nat)
    requires (off + len) % BSIZE + m <= BSIZE
    requires off < (bn + 1) * BSIZE && bn * BSIZE < off + len + m
    ensures bn == (off + len) / BSIZE || (len > 0 && bn * BSIZE < off + len)
  {
    var q := (off + len) / BSIZE;
    assert off + len == q * BSIZE + (off + len) % BSIZE;
    if bn < q {
      assert (bn + 1) * BSIZE <= q * BSIZE;
    }
  }

  ghost function SetSize(s: Fs, i: nat, n: nat): Fs
    requires i < |s.inode|
  {
    s.(inode := s.inode[i := s.inode[i].(size := n)])
  }

  lemma SetSizeRefs(s: Fs, i: nat, n: nat)
    requires Shape(s) && i < |s.inode|
    ensures Shape(SetSize(s, i, n)) && SameRefs(s, SetSize(s, i, n))
    ensures forall j, p :: 0 <= j < |s.inode| && 0 <= p < MAXBYTES ==> Raw(SetSize(s, i, n), j, p) == Raw(s, j, p)
  {
    var s' := SetSize(s, i, n);
    assert Shape(s');
    assert SameRefs(s, s');
    forall j, p | 0 <= j < |s.inode| && 0 <= p < MAXBYTES ensures Raw(s', j, p) == Raw(s, j, p) {
      assert IsSlot(s, BlockSlot(j, p / BSIZE));
    }
  }

  /** A size change moves no block. */
  lemma SetSizeKeeps(s: Fs, owner: map<int, Slot>, i: nat, n: nat)
    requires Inv(s, owner, {}) && i < |s.inode|
    ensures Inv(SetSize(s, i, n), owner, {}) && SameRefs(s, SetSize(s, i, n))
    ensures forall j, p :: 0 <= j < |s.inode| && 0 <= p < MAXBYTES ==> Raw(SetSize(s, i, n), j, p) == Raw(s, j, p)
  {
    var s' := SetSize(s, i, n);
    SetSizeRefs(s, i, n);
    AccountInodes(s, s', owner.Keys, {});
    SameRefsKeepsOwners(s, s', owner);
  }

  /** Updating the size completes the splice. */
  lemma WroteDone(s0: Fs, s: Fs, owner0: map<int, Slot>, owner: map<int, Slot>, i: nat, off: nat, data: Bytes)
    requires Good(s0, owner0) && Inv(s, owner, {}) && i < |s0.inode| && off <= s0.inode[i].size && Wrote(s0, s, i, off, data)
    ensures |s.inode| == |s0.inode|
    ensures var n := if off + |data| > s.inode[i].size then off + |data| else s.inode[i].size;
            var s' := SetSize(s, i, n);
            && Good(s', owner)
            && Contents(s', i) == Splice(Contents(s0, i), off, data)
            && forall j :: 0 <= j < |s.inode| && j != i ==> Contents(s', j) == Contents(s0, j)
  {
    hide HoleFree, Raw, Contents, Shape, Owners, Accounted, Wrote, Splice, Ref;
    GoodAll(s0, owner0);
    WroteSizes(s0, s, i, off, data);
    var n := if off + |data| > s.inode[i].size then off + |data| else s.inode[i].size;
    var s' := SetSize(s, i, n);
    SetSizeKeeps(s, owner, i, n);
    forall j | 0 <= j < |s.inode| ensures HoleFree(s', j) {
      WroteHoleFree(s0, s, s', i, off, data, j);
    }
    SizeBound(s0, i);
    WroteSplice(s0, s, s', i, off, data);
    forall j | 0 <= j < |s.inode| && j != i ensures Contents(s', j) == Contents(s0, j) {
      SizeBound(s0, j);
      WroteOther(s0, s, s', i, off, data, j);
    }
  }

  lemma WroteSizes(s0: Fs, s: Fs, i: nat, off: nat, data: Bytes)
    requires Shape(s0) && Shape(s) && i < |s0.inode| && Wrote(s0, s, i, off, data)
    ensures |s.inode| == |s0.inode| && forall j :: 0 <= j < |s.inode| ==> s.inode[j].size == s0.inode[j].size
  {
  }

  lemma WroteHoleFree(s0: Fs, s: Fs, s': Fs, i: nat, off: nat, data: Bytes, j: nat)
    requires Shape(s0) && Shape(s) && Shape(s') && i < |s0.inode| && j < |s0.inode| && off <= s0.inode[i].size
    requires Wrote(s0, s, i, off, data) && SameRefs(s, s') && HoleFree(s0, j)
    requires s'.inode[j].size == if j == i && off + |data| > s.inode[i].size then off + |data| else s.inode[j].size
    ensures HoleFree(s', j)
  {
    hide Raw;
    forall bn | 0 <= bn < MAXFILE && bn * BSIZE < s'.inode[j].size ensures BlockAt(s', j, bn) != 0 {
      assert IsSlot(s0, BlockSlot(j, bn)) && IsSlot(s, BlockSlot(j, bn));
      if bn * BSIZE < s0.inode[j].size {
        assert BlockAt(s0, j, bn) != 0;
      } else {
        assert BlockAt(s, i, bn) != 0;
      }
    }
  }

  lemma WroteSplice(s0: Fs, s: Fs, s': Fs, i: nat, off: nat, data: Bytes)
    requires Shape(s0) && Shape(s) && Shape(s') && i < |s0.inode| && off <= s0.inode[i].size <= MAXBYTES
    requires Wrote(s0, s, i, off, data) && |s'.inode| == |s.inode|
    requires s'.inode[i].size == if off + |data| > s.inode[i].size then off + |data| else s.inode[i].size
    requires forall j, p :: 0 <= j < |s.inode| && 0 <= p < MAXBYTES ==> Raw(s', j, p) == Raw(s, j, p)
    ensures Contents(s', i) == Splice(Contents(s0, i), off, data)
  {
    hide Raw, Ref, Shape;
  }

  lemma WroteOther(s0: Fs, s: Fs, s': Fs, i: nat, off: nat, data: Bytes, j: nat)
    requires Shape(s0) && Shape(s) && Shape(s') && i < |s0.inode| && j < |s0.inode| && j != i && s0.inode[j].size <= MAXBYTES
    requires Wrote(s0, s, i, off, data) && |s'.inode| == |s.inode| && s'.inode[j].size == s.inode[j].size
    requires forall j, p :: 0 <= j < |s.inode| && 0 <= p < MAXBYTES ==> Raw(s', j, p) == Raw(s, j, p)
    ensures Contents(s', j) == Contents(s0, j)
  {
    hide Raw, Ref, Shape;
  }

  /** How much of a read request lies inside the file; wrap-around of off + n reads nothing. */
  lemma Sum32(off: nat, n: nat)
    requires off < UINT && n < UINT
    ensures (off + n) % UINT < off <==> off + n >= UINT
    ensures off + n < UINT ==> (off + n) % UINT == off + n
  {
  }

  /** readi's clipping in 32-bit arithmetic. */
  lemma Clip(size: nat, off: nat, n: nat)
    requires size < UINT && off < UINT && n < UINT
    ensures if off > size || (off + n) % UINT < off then ReadLength(size, off, n) == 0
            else ReadLength(size, off, n) == (if (off + n) % UINT > size then size - off else n) && off + ReadLength(size, off, n) <= size
  {
  }

  /** The next piece of the file is in the block that bmap finds, which is there. */
  lemma ReadStep(s: Fs, owner: map<int, Slot>, i: nat, off0: nat, off: nat, m: nat)
    requires Good(s, owner) && i < |s.inode| && off0 <= off && 0 < m && off + m <= s.inode[i].size && off % BSIZE + m <= BSIZE
    ensures off / BSIZE < MAXFILE
    ensures var b := BlockAt(s, i, off / BSIZE);
            && b != 0 && b in s.blk && |s.blk[b]| == BSIZE
            && Contents(s, i)[off0..off + m] == Contents(s, i)[off0..off] + s.blk[b][off % BSIZE..off % BSIZE + m]
  {
    hide Inv, Shape, HoleFree, BlockAt, Contents, Raw;
    GoodShape(s, owner, i);
    MappedBelowSize(s, owner, i, off);
    BlockBytes(s, BlockAt(s, i, off / BSIZE));
    ChunkIsContents(s, i, off, m);
    var c := Contents(s, i);
    assert c[off0..off + m] == c[off0..off] + c[off..off + m];
  }

  function ReadLength(size: nat, off: nat, n: nat): nat {
    if off > size || off + n >= UINT then 0 else if off + n > size then size - off else n
  }

  lemma SizeBound(s: Fs, i: nat)
    requires Shape(s) && i < |s.inode| && HoleFree(s, i)
    ensures s.inode[i].size <= MAXBYTES
  {
  }

  lemma GoodShape(s: Fs, owner: map<int, Slot>, i: nat)
    requires Good(s, owner) && i < |s.inode|
    ensures Shape(s) && HoleFree(s, i) && Inv(s, owner, {})
  {
  }

  lemma MappedBelowSize(s: Fs, owner: map<int, Slot>, i: nat, p: nat)
    requires Good(s, owner) && i < |s.inode| && p < s.inode[i].size
    ensures p / BSIZE < MAXFILE && BlockAt(s, i, p / BSIZE) != 0 && s.nmeta <= BlockAt(s, i, p / BSIZE) < s.size
  {
    assert p / BSIZE * BSIZE <= p;
    assert HoleFree(s, i);
    MappedIsOwned(s, owner, i, p / BSIZE);
  }

  /** A piece of one mapped block is the same piece of the file. */
  lemma ChunkIsContents(s: Fs, i: nat, off: nat, m: nat)
    requires Shape(s) && i < |s.inode| && off + m <= s.inode[i].size <= MAXBYTES && off % BSIZE + m <= BSIZE
    requires off / BSIZE < MAXFILE && 0 < BlockAt(s, i, off / BSIZE) < s.size
    ensures s.blk[BlockAt(s, i, off / BSIZE)][off % BSIZE..off % BSIZE + m] == Contents(s, i)[off..off + m]
  {
    hide BlockAt, Raw, Shape;
    BlockBytes(s, BlockAt(s, i, off / BSIZE));
    var b := s.blk[BlockAt(s, i, off / BSIZE)][off % BSIZE..off % BSIZE + m];
    var c := Contents(s, i)[off..off + m];
    forall q | 0 <= q < m ensures b[q] == c[q] {
      RawInBlock(s, i, off, q);
    }
  }

  lemma BlockBytes(s: Fs, b: int)
    requires Shape(s) && 0 <= b < s.size
    ensures b in s.blk && |s.blk[b]| == BSIZE
  {
  }

  lemma RawInBlock(s: Fs, i: nat, off: nat, q: nat)
    requires Shape(s) && i < |s.inode| && off + q < MAXBYTES && off % BSIZE + q < BSIZE
    requires off / BSIZE < MAXFILE && 0 < BlockAt(s, i, off / BSIZE) < s.size
    ensures Raw(s, i, off + q) == s.blk[BlockAt(s, i, off / BSIZE)][off % BSIZE + q]
  {
    SamePage(off, q);
  }

  lemma SamePage(off: nat, q: nat)
    requires off % BSIZE + q < BSIZE
    ensures (off + q) / BSIZE == off / BSIZE && (off + q) % BSIZE == off % BSIZE + q
  {
  }

  lemma SameBytesRefl(s: Fs)
    requires Shape(s)
    ensures SameBytes(s, s)
  {
  }

  lemma AllocatedZero(s: Fs, b: nat)
    requires Shape(s) && b < s.size
    ensures Allocated(s, b).blk[b] == Zeros()
  {
  }

  lemma IndirectOwned(s: Fs, owner: map<int, Slot>, i: nat)
    requires Inv(s, owner, {}) && i < |s.inode| && s.inode[i].addrs[NDIRECT] != 0
    ensures var a := s.inode[i].addrs[NDIRECT]; s.nmeta <= a < s.size && a in owner && owner[a] == Indirect(i)
  {
    assert IsSlot(s, Indirect(i)) && Ref(s, Indirect(i)) == s.inode[i].addrs[NDIRECT];
  }

  lemma AttachAddrSameBytes(s: Fs, owner: map<int, Slot>, loose: set<int>, i: nat, k: nat, b: int)
    requires Inv(s, owner, loose) && b in loose && s.blk[b] == Zeros()
    requires i < |s.inode| && k <= NDIRECT && s.inode[i].addrs[k] == 0
    ensures Shape(SetAddr(s, i, k, b)) && SameBytes(s, SetAddr(s, i, k, b))
  {
    AttachAddr(s, owner, loose, i, k, b);
    AttachSameBytes(s, SetAddr(s, i, k, b), owner, AddrSlot(i, k), b);
  }

  lemma AttachEntrySameBytes(s: Fs, owner: map<int, Slot>, loose: set<int>, i: nat, k: nat, b: int)
    requires Inv(s, owner, loose) && b in loose && s.blk[b] == Zeros()
    requires i < |s.inode| && k < NINDIRECT && s.inode[i].addrs[NDIRECT] != 0 && Ref(s, Entry(i, k)) == 0
    ensures 0 < s.inode[i].addrs[NDIRECT] < s.size
    ensures Shape(SetEntry(s, i, k, b)) && SameBytes(s, SetEntry(s, i, k, b))
  {
    AttachEntry(s, owner, loose, i, k, b);
    AttachSameBytes(s, SetEntry(s, i, k, b), owner, Entry(i, k), b);
  }
}
