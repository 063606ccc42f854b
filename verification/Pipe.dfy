/**
  The pipe's ring of bytes with its two 32-bit counters. A turn is what one reader or writer does
  between taking the pipe's lock and giving it up, by returning or by going to sleep; a caller
  that slept takes further turns. Every turn needs only that the pipe is valid, so what turns
  keep holds in every interleaving of readers and writers.
 */
module Pipe {
  import opened Common

  const PIPESIZE := 512
  const WRAP := 0x1_0000_0000

  /** How a turn ends: asleep with the work not finished, or returning to the caller. */
  datatype Outcome = Slept | Returned(value: int)

  /** The tests for full and empty on the wrapped counters are exact. */
  lemma FullAndEmpty(taken: nat, stored: nat)
    requires taken <= stored <= taken + PIPESIZE
    ensures stored % WRAP == (taken % WRAP + PIPESIZE) % WRAP <==> stored == taken + PIPESIZE
    ensures taken % WRAP == stored % WRAP <==> taken == stored
  {
    var d := stored - taken;
    assert (taken % WRAP + d) % WRAP == stored % WRAP by { WrapAdd(taken, d, WRAP); }
    assert (taken % WRAP + PIPESIZE) % WRAP == (taken + PIPESIZE) % WRAP by { WrapAdd(taken, PIPESIZE, WRAP); }
  }

  lemma SlotsDiffer(i: nat, j: nat)
    requires i < j < i + PIPESIZE
    ensures i % PIPESIZE != j % PIPESIZE
  {
  }

  /** The bytes stored and not yet taken are in the ring. */
  ghost predicate InRing(data: seq<int>, stored: seq<int>, taken: nat) {
    |data| == PIPESIZE && taken <= |stored| <= taken + PIPESIZE
    && forall k :: taken <= k < |stored| ==> data[k % PIPESIZE] == stored[k]
  }

  lemma RingStore(data: seq<int>, stored: seq<int>, taken: nat, ch: int)
    requires InRing(data, stored, taken) && |stored| < taken + PIPESIZE
    ensures InRing(data[|stored| % PIPESIZE := ch], stored + [ch], taken)
  {
    forall k | taken <= k < |stored| ensures k % PIPESIZE != |stored| % PIPESIZE {
      SlotsDiffer(k, |stored|);
    }
  }

  class PipeRing {
    const data: array<int>
    var nread: nat
    var nwrite: nat
    var readopen: bool
    var writeopen: bool
    ghost var stored: seq<int>     // every byte ever written
    ghost var delivered: seq<int>  // every byte ever handed to a reader

    ghost predicate Valid()
      reads this, data
    {
      && data.Length == PIPESIZE && InRing(data[..], stored, |delivered|)
      && delivered == stored[..|delivered|]
      && nwrite == |stored| % WRAP && nread == |delivered| % WRAP
    }

    constructor ()
      ensures Valid() && stored == [] && delivered == [] && readopen && writeopen && fresh(data)
    {
      data := new int[PIPESIZE](_ => 0);
      nread, nwrite, readopen, writeopen, stored, delivered := 0, 0, true, true, [], [];
    }

    /** pipeclose; the pipe's page is given back when both ends are closed. */
    method Close(writable: bool) returns (freed: bool)
      requires Valid()
      modifies `readopen, `writeopen
      ensures Valid() && (freed <==> !readopen && !writeopen)
      ensures writable ==> !writeopen && readopen == old(readopen)
      ensures !writable ==> !readopen && writeopen == old(writeopen)
    {
      if writable {
        writeopen := false;
      } else {
        readopen := false;
      }
      return !readopen && !writeopen;
    }

    /**
      A writer's turn with `src[..i]` already written. It stores bytes in order until one of four
      things stops it, looked at in this order before each byte: all is written, the reader is
      gone or the writer was killed (`killed` rounds in), the ring is full, copyin fails (at byte
      `readable`). It returns the number written, -1, sleeps, or returns the number written.
     */
    method WriteTurn(src: seq<int>, i: nat, readable: nat, killed: nat) returns (res: Outcome, done: nat)
      requires Valid() && i <= |src|
      modifies data, `nwrite, `stored
      ensures Valid() && i <= done <= |src| && stored == old(stored) + src[i..done]
      ensures done - i == Fitting(|src| - i, if readopen then killed else 0, 512 - (|old(stored)| - |delivered|), readable - i)
      ensures res == if done == |src| then Returned(done)
                     else if !readopen || done - i == killed then Returned(-1)
                     else if |stored| == |delivered| + PIPESIZE then Slept
                     else Returned(done)
    {
      hide InRing, Fitting;
      var n := i;
      Bounds(data[..], stored, |delivered|);
      ghost var patience, room := if readopen then killed else 0, Room(stored, delivered);
      while n < |src|
        invariant i <= n <= |src| && Valid() && stored == old(stored) + src[i..n]
        invariant n - i <= patience && (n > i ==> n <= readable) && n - i <= room
      {
        if !readopen || n - i >= killed {
          Fits(n - i, |src| - i, patience, room, readable - i);
          return Returned(-1), n;
        }
        Bounds(data[..], stored, |delivered|);
        FullAndEmpty(|delivered|, |stored|);
        if nwrite == (nread + PIPESIZE) % WRAP {
          Fits(n - i, |src| - i, patience, room, readable - i);
          return Slept, n;
        }
        if n >= readable {
          Fits(n - i, |src| - i, patience, room, readable - i);
          return Returned(n), n;
        }
        StoreByte(src[n]);
        n := n + 1;
      }
      Fits(n - i, |src| - i, patience, room, readable - i);
      return Returned(n), n;
    }

    /** One byte into a ring that is not full. */
    method StoreByte(ch: int)
      requires Valid() && |stored| < |delivered| + PIPESIZE
      modifies data, `nwrite, `stored
      ensures Valid() && stored == old(stored) + [ch]
    {
      hide InRing;
      Bounds(data[..], stored, |delivered|);
      WrapKeepsSlot(|stored|, PIPESIZE, WRAP / PIPESIZE);
      WrapAdd(|stored|, 1, WRAP);
      RingStore(data[..], stored, |delivered|, ch);
      assert (stored + [ch])[..|delivered|] == stored[..|delivered|];
      data[nwrite % PIPESIZE] := ch;
      nwrite := (nwrite + 1) % WRAP;
      stored := stored + [ch];
    }

    /** The byte to be read next. */
    method Oldest() returns (ch: int)
      requires Valid() && |delivered| < |stored|
      ensures ch == stored[|delivered|]
    {
      WrapKeepsSlot(|delivered|, PIPESIZE, WRAP / PIPESIZE);
      assert data[..][|delivered| % PIPESIZE] == stored[|delivered|];
      return data[nread % PIPESIZE];
    }

    /** It has been handed over. */
    method Take()
      requires Valid() && |delivered| < |stored|
      modifies `nread, `delivered
      ensures Valid() && delivered == old(delivered) + [stored[|old(delivered)|]]
    {
      hide InRing;
      RingTake(data[..], stored, |delivered|);
      WrapAdd(|delivered|, 1, WRAP);
      assert stored[..|delivered| + 1] == stored[..|delivered|] + [stored[|delivered|]];
      nread := (nread + 1) % WRAP;
      delivered := delivered + [stored[|delivered|]];
    }

    /**
      A reader's turn. It sleeps only on an empty pipe with a writer left, and returns -1 there
      when killed; otherwise it hands over the oldest bytes, as many as asked for and present, in
      order and each once. A copyout that fails (at byte `writable`) ends it without taking that
      byte; -1 is returned when that is the first one.
     */
    method ReadTurn(n: nat, writable: nat, killed: bool) returns (res: Outcome, got: seq<int>)
      requires Valid()
      modifies `nread, `delivered
      ensures Valid() && delivered == old(delivered) + got
      ensures res.Slept? <==> |stored| == |old(delivered)| && writeopen && !killed
      ensures res.Slept? || (|stored| == |old(delivered)| && writeopen && killed) ==> got == [] && (res.Slept? || res == Returned(-1))
      ensures !(|stored| == |old(delivered)| && writeopen) ==>
                && |got| == Least(n, Least(|stored| - |old(delivered)|, writable))
                && res == Returned(if got == [] && n > 0 && |stored| > |old(delivered)| then -1 else |got|)
    {
      hide InRing;
      got := [];
      Bounds(data[..], stored, |delivered|);
      FullAndEmpty(|delivered|, |stored|);
      if nread == nwrite && writeopen {
        if killed {
          return Returned(-1), [];
        }
        return Slept, [];
      }
      var i := 0;
      while i < n
        invariant 0 <= i <= n && i <= writable && |got| == i && Valid() && delivered == old(delivered) + got
      {
        Bounds(data[..], stored, |delivered|);
        FullAndEmpty(|delivered|, |stored|);
        if nread == nwrite {
          break;
        }
        var ch := Oldest();
        if i >= writable {
          return Returned(if i == 0 then -1 else i), got;
        }
        Take();
        got := got + [ch];
        i := i + 1;
      }
      Bounds(data[..], stored, |delivered|);
      return Returned(i), got;
    }

    /**
      What closing the write end is for: a reader that reads on until it gets nothing, as cat
      does, is never put to sleep and ends with every byte ever written handed over, once.
     */
    method ReadAll(size: nat) returns (all: seq<int>)
      requires Valid() && !writeopen && size > 0
      modifies `nread, `delivered
      ensures Valid() && delivered == stored && stored == old(delivered) + all
    {
      hide InRing;
      all := [];
      Bounds(data[..], stored, |delivered|);
      var res, got := ReadTurn(size, size, false);
      while res.value > 0
        invariant res.Returned? && Valid() && delivered == old(delivered) + all + got
        invariant |delivered| <= |stored| && res == Returned(|got|) && (got == [] ==> |delivered| == |stored|)
        decreases |stored| - |delivered| + |got|
      {
        assert old(delivered) + all + got == old(delivered) + (all + got);
        all := all + got;
        res, got := ReadTurn(size, size, false);
        Bounds(data[..], stored, |delivered|);
      }
    }
  }

  function Least(x: int, y: int): (z: int)
    ensures z <= x && z <= y && (z == x || z == y)
  {
    if x < y then x else y
  }

  /** How many of `rest` bytes a turn stores: no more than its rounds, the room and what can be read. */
  function Fitting(rest: int, rounds: int, room: int, readable: int): (n: int)
    ensures n <= rest && n <= rounds && n <= room && (n <= readable || n <= 0)
    ensures n == rest || n == rounds || n == room || n == readable || (n == 0 && readable <= 0)
  {
    Least(Least(rest, rounds), Least(room, if readable < 0 then 0 else readable))
  }

  lemma Fits(d: nat, rest: int, rounds: int, room: int, readable: int)
    requires d <= rest && d <= rounds && d <= room && (d > 0 ==> d <= readable)
    requires d == rest || d == rounds || d == room || d >= readable
    ensures d == Fitting(rest, rounds, room, readable)
  {
  }

  /** Free bytes in the ring. */
  ghost function Room(stored: seq<int>, delivered: seq<int>): int {
    PIPESIZE - (|stored| - |delivered|)
  }

  lemma Bounds(data: seq<int>, stored: seq<int>, taken: nat)
    requires InRing(data, stored, taken)
    ensures |data| == PIPESIZE && taken <= |stored| <= taken + PIPESIZE
  {
  }

  lemma RingTake(data: seq<int>, stored: seq<int>, taken: nat)
    requires InRing(data, stored, taken) && taken < |stored|
    ensures data[taken % PIPESIZE] == stored[taken] && InRing(data, stored, taken + 1)
  {
  }
}
