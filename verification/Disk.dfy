/**
  The disk as the file system sees it: numbered blocks of 256 32-bit words, changed one
  whole block at a time. A run of the disk driver is the sequence of block writes it issued,
  and a crash keeps a prefix of that sequence.
 */
module Disk {

  const WORDS := 256  // BSIZE / sizeof(int)

  /** A block read as an array of ints. */
  datatype Block = Block(word: seq<int>)

  type Disk = map<nat, Block>

  /** One completed block write. */
  datatype Write = Write(blockno: nat, data: Block)

  /** The disk after the writes `ws`, oldest first. */
  ghost function ApplyAll(d: Disk, ws: seq<Write>): Disk
  {
    if ws == [] then d
    else
      var last := ws[|ws| - 1];
      ApplyAll(d, ws[..|ws| - 1])[last.blockno := last.data]
  }

  lemma ApplyNone(d: Disk, ws: seq<Write>)
    ensures ApplyAll(d, ws[..0]) == d
  {
  }

  /** Applying one more write on top of a prefix. */
  lemma ApplyNext(d: Disk, ws: seq<Write>, k: nat)
    requires k < |ws|
    ensures ApplyAll(d, ws[..k + 1]) == ApplyAll(d, ws[..k])[ws[k].blockno := ws[k].data]
  {
    assert ws[..k + 1][..k] == ws[..k];
  }

  lemma ApplySnoc(d: Disk, ws: seq<Write>, w: Write)
    ensures ApplyAll(d, ws + [w]) == ApplyAll(d, ws)[w.blockno := w.data]
  {
    assert (ws + [w])[..|ws|] == ws;
  }

  lemma {:induction false} ApplyConcat(d: Disk, xs: seq<Write>, ys: seq<Write>)
    ensures ApplyAll(d, xs + ys) == ApplyAll(ApplyAll(d, xs), ys)
  {
    if ys == [] {
      assert xs + ys == xs;
    } else {
      ApplyConcat(d, xs, ys[..|ys| - 1]);
      assert xs + ys == xs + ys[..|ys| - 1] + [ys[|ys| - 1]];
      ApplySnoc(d, xs + ys[..|ys| - 1], ys[|ys| - 1]);
    }
  }

  /** A block keeps its contents through writes that do not name it. */
  lemma {:induction false} ApplyUntouched(d: Disk, ws: seq<Write>, b: nat)
    requires forall i :: 0 <= i < |ws| ==> ws[i].blockno != b
    ensures b in ApplyAll(d, ws) <==> b in d
    ensures b in d ==> ApplyAll(d, ws)[b] == d[b]
  {
    if ws != [] {
      ApplyUntouched(d, ws[..|ws| - 1], b);
    }
  }

  /** A block named by exactly one write holds that write's data. */
  lemma {:induction false} ApplyOnce(d: Disk, ws: seq<Write>, k: nat)
    requires k < |ws|
    requires forall i :: 0 <= i < |ws| && i != k ==> ws[i].blockno != ws[k].blockno
    ensures ws[k].blockno in ApplyAll(d, ws)
    ensures ApplyAll(d, ws)[ws[k].blockno] == ws[k].data
  {
    if k < |ws| - 1 {
      ApplyOnce(d, ws[..|ws| - 1], k);
    }
  }

  lemma {:induction false} ApplyKeys(d: Disk, ws: seq<Write>)
    requires forall i :: 0 <= i < |ws| ==> ws[i].blockno in d
    ensures ApplyAll(d, ws).Keys == d.Keys
  {
    if ws != [] {
      ApplyKeys(d, ws[..|ws| - 1]);
    }
  }
}
