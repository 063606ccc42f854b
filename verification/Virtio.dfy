/**
  The virtio block driver and its device. The driver's critical sections and the device's
  actions are the atomic steps of a state machine: each method below may be called in any state
  in which its guard holds, so what every method keeps holds in every interleaving.
 */
module Virtio {
  import opened Common

  const NUM := 8          // descriptors, and entries of either ring
  const WRAP := 0x1_0000  // the ring indices are 16 bits wide
  const BSIZE := 1024

  datatype Addr = Null | OpAt(i: nat) | DataOf(buf: nat) | StatusAt(i: nat)
  datatype Desc = Desc(addr: Addr, len: nat, hasNext: bool, devWrites: bool, next: nat)
  datatype Op = Op(write: bool, sector: nat)
  datatype BufRef = NoBuf | Buf(id: nat)
  datatype Info = Info(b: BufRef, status: nat)

  /** Where a request is: in the avail ring, taken by the device, in the used ring, reported. */
  datatype Phase = Queued | Working | Used | Done

  /** A request in flight, known by its head descriptor. */
  datatype Req = Req(d1: nat, d2: nat, buf: nat, write: bool, sector: nat, phase: Phase, status: nat)

  const IDLE := NUM  // the role of a free descriptor

  // ------------------------------------------------------------------ invariant

  ghost predicate Part(role: seq<nat>, h: nat, r: Req) {
    && |role| == NUM && h < NUM && r.d1 < NUM && r.d2 < NUM && h != r.d1 && h != r.d2 && r.d1 != r.d2
    && role[h] == h && role[r.d1] == h && role[r.d2] == h
  }

  ghost predicate RoleOk(role: seq<nat>, req: map<nat, Req>, i: nat)
    requires i < |role|
  {
    role[i] == IDLE || (role[i] in req && (i == role[i] || i == req[role[i]].d1 || i == req[role[i]].d2))
  }

  /** Every descriptor is free or one of the three of exactly one request. */
  ghost predicate Owners(free: seq<bool>, role: seq<nat>, req: map<nat, Req>) {
    && |free| == NUM && |role| == NUM
    && (forall i :: 0 <= i < NUM ==> (free[i] <==> role[i] == IDLE))
    && (forall i :: 0 <= i < NUM ==> RoleOk(role, req, i))
    && (forall h :: h in req ==> Part(role, h, req[h]))
  }

  /** The chain in memory is the one its submitter wrote. */
  ghost predicate Formatted(desc: seq<Desc>, ops: seq<Op>, h: nat, r: Req) {
    && |desc| == NUM && |ops| == NUM && h < NUM && r.d1 < NUM && r.d2 < NUM
    && ops[h] == Op(r.write, r.sector)
    && desc[h] == Desc(OpAt(h), 16, true, false, r.d1)
    && desc[r.d1] == Desc(DataOf(r.buf), BSIZE, true, !r.write, r.d2)
    && desc[r.d2] == Desc(StatusAt(h), 1, false, true, 0)
  }

  ghost predicate Formats(desc: seq<Desc>, ops: seq<Op>, req: map<nat, Req>) {
    |desc| == NUM && |ops| == NUM && forall h :: h in req ==> Formatted(desc, ops, h, req[h])
  }

  /** The entries not yet consumed, oldest first, are in the ring from position `start` on. */
  ghost predicate InRing(ring: seq<nat>, q: seq<nat>, start: nat) {
    |ring| == NUM && |q| <= NUM && forall k :: 0 <= k < |q| ==> ring[(start + k) % NUM] == q[k]
  }

  ghost predicate Holds(q: seq<nat>, req: map<nat, Req>, phase: Phase) {
    Distinct(q) && forall h :: h in q <==> h in req && req[h].phase == phase
  }

  ghost predicate InfoOk(info: seq<Info>, busy: set<nat>, at: map<nat, nat>, h: nat, r: Req) {
    && h < |info| && info[h] == Info(Buf(r.buf), r.status)
    && r.buf in at && at[r.buf] == h && (r.buf in busy <==> !r.phase.Done?)
  }

  /** Every request is registered under its head, with its buffer marked busy until reported. */
  ghost predicate Bufs(info: seq<Info>, busy: set<nat>, at: map<nat, nat>, req: map<nat, Req>) {
    && |info| == NUM && busy <= at.Keys
    && (forall h :: h in req ==> InfoOk(info, busy, at, h, req[h]))
    && (forall b :: b in at ==> at[b] in req && req[at[b]].buf == b)
  }

  // ------------------------------------------------------------------ arithmetic

  /** Two counters at most NUM apart are equal exactly when their 16-bit images are. */
  lemma WrapEqual(n: nat, k: nat)
    requires k <= NUM
    ensures n % WRAP == (n + k) % WRAP <==> k == 0
  {
  }

  lemma SlotsDiffer(start: nat, i: nat, j: nat)
    requires i < j < NUM
    ensures (start + i) % NUM != (start + j) % NUM
  {
  }

  /** A queue of requests that does not hold all heads has room. */
  lemma HasRoom(q: seq<nat>, req: map<nat, Req>, role: seq<nat>, free: seq<bool>, phase: Phase, h: nat)
    requires Owners(free, role, req) && Holds(q, req, phase) && h < NUM && (h !in req || req[h].phase != phase)
    ensures |q| < NUM
  {
    DistinctSize(q);
    forall x | x in q ensures x < NUM { assert Part(role, x, req[x]); }
    SubsetSize(Elems(q), {0, 1, 2, 3, 4, 5, 6, 7} - {h});
  }

  // --------------------------------------------------------------------- queues

  lemma RingPush(ring: seq<nat>, q: seq<nat>, start: nat, h: nat)
    requires InRing(ring, q, start) && |q| < NUM
    ensures InRing(ring[(start + |q|) % NUM := h], q + [h], start)
  {
    var ring', q' := ring[(start + |q|) % NUM := h], q + [h];
    forall k | 0 <= k < |q'| ensures ring'[(start + k) % NUM] == q'[k] {
      if k < |q| { SlotsDiffer(start, k, |q|); }
    }
  }

  lemma RingPop(ring: seq<nat>, q: seq<nat>, start: nat)
    requires InRing(ring, q, start) && q != []
    ensures ring[start % NUM] == q[0] && InRing(ring, q[1..], start + 1)
  {
    assert ring[(start + 0) % NUM] == q[0];
    forall k | 0 <= k < |q[1..]| ensures ring[(start + 1 + k) % NUM] == q[1..][k] {
      assert ring[(start + (k + 1)) % NUM] == q[k + 1];
    }
  }

  /** Storing at a 16-bit index that counts the entries ever made. */
  lemma PutInRing(ring: seq<nat>, q: seq<nat>, start: nat, to: nat, h: nat)
    requires InRing(ring, q, start) && |q| < NUM && to == (start + |q|) % WRAP
    ensures InRing(ring[to % NUM := h], q + [h], start) && (to + 1) % WRAP == (start + |q + [h]|) % WRAP
  {
    hide InRing;
    WrapKeepsSlot(start + |q|, NUM, WRAP / NUM);
    WrapAdd(start + |q|, 1, WRAP);
    RingPush(ring, q, start, h);
  }

  /** Two such indices differ exactly when an entry is there, and it is the oldest one. */
  lemma TakeFromRing(ring: seq<nat>, q: seq<nat>, start: nat, from: nat, to: nat)
    requires InRing(ring, q, start) && from == start % WRAP && to == (start + |q|) % WRAP && from != to
    ensures |ring| == NUM && q != [] && ring[from % NUM] == q[0] && InRing(ring, q[1..], start + 1)
    ensures (from + 1) % WRAP == (start + 1) % WRAP && to == (start + 1 + |q[1..]|) % WRAP
  {
    hide InRing;
    RingLen(ring, q, start);
    WrapEqual(start, |q|);
    WrapKeepsSlot(start, NUM, WRAP / NUM);
    WrapAdd(start, 1, WRAP);
    RingPop(ring, q, start);
  }

  lemma HoldsPush(q: seq<nat>, req: map<nat, Req>, phase: Phase, h: nat, r: Req)
    requires Holds(q, req, phase) && h !in q && r.phase == phase
    ensures Holds(q + [h], req[h := r], phase)
  {
  }

  lemma HoldsPop(q: seq<nat>, req: map<nat, Req>, phase: Phase, r: Req)
    requires Holds(q, req, phase) && q != [] && r.phase != phase
    ensures Holds(q[1..], req[q[0] := r], phase)
  {
    assert q == [q[0]] + q[1..];
  }

  lemma HoldsOther(q: seq<nat>, req: map<nat, Req>, phase: Phase, h: nat, r: Req)
    requires Holds(q, req, phase) && h !in q && r.phase != phase
    ensures Holds(q, req[h := r], phase)
  {
  }

  lemma HoldsGone(q: seq<nat>, req: map<nat, Req>, phase: Phase, h: nat)
    requires Holds(q, req, phase) && h !in q
    ensures Holds(q, req - {h}, phase)
  {
  }

  // ---------------------------------------------------------- submitting and ending

  lemma HeadBusy(free: seq<bool>, role: seq<nat>, req: map<nat, Req>, h: nat)
    requires Owners(free, role, req) && h in req
    ensures h < NUM && !free[h]
  {
    assert Part(role, h, req[h]);
  }

  lemma OwnersAdd(free: seq<bool>, role: seq<nat>, req: map<nat, Req>, h: nat, r: Req)
    requires Owners(free, role, req) && h < NUM && r.d1 < NUM && r.d2 < NUM && h != r.d1 && h != r.d2 && r.d1 != r.d2
    requires free[h] && free[r.d1] && free[r.d2]
    ensures h !in req
    ensures Owners(free[h := false][r.d1 := false][r.d2 := false], role[h := h][r.d1 := h][r.d2 := h], req[h := r])
  {
    var role', req' := role[h := h][r.d1 := h][r.d2 := h], req[h := r];
    forall x | x in req ensures x < NUM && !free[x] { HeadBusy(free, role, req, x); }
    forall x | x in req' ensures Part(role', x, req'[x]) {
      if x != h { assert Part(role, x, req[x]); }
    }
    forall i | 0 <= i < NUM ensures RoleOk(role', req', i) {
      assert RoleOk(role, req, i);
    }
  }

  lemma OwnersRemove(free: seq<bool>, role: seq<nat>, req: map<nat, Req>, h: nat)
    requires Owners(free, role, req) && h in req
    ensures var r := req[h];
            && h < NUM && r.d1 < NUM && r.d2 < NUM && !free[h] && !free[r.d1] && !free[r.d2] && h != r.d1 && h != r.d2 && r.d1 != r.d2
            && Owners(free[h := true][r.d1 := true][r.d2 := true], role[h := IDLE][r.d1 := IDLE][r.d2 := IDLE], req - {h})
  {
    var r := req[h];
    assert Part(role, h, r);
    var role', req' := role[h := IDLE][r.d1 := IDLE][r.d2 := IDLE], req - {h};
    forall x | x in req' ensures Part(role', x, req'[x]) {
      assert Part(role, x, req[x]);
    }
    forall i | 0 <= i < NUM ensures RoleOk(role', req', i) {
      assert RoleOk(role, req, i);
    }
  }

  lemma OwnersPhase(free: seq<bool>, role: seq<nat>, req: map<nat, Req>, h: nat, r: Req)
    requires Owners(free, role, req) && h in req && r.d1 == req[h].d1 && r.d2 == req[h].d2
    ensures Owners(free, role, req[h := r])
  {
    var req' := req[h := r];
    forall x | x in req' ensures Part(role, x, req'[x]) {
      assert Part(role, x, req[x]);
    }
    forall i | 0 <= i < NUM ensures RoleOk(role, req', i) {
      assert RoleOk(role, req, i);
    }
  }

  /** Descriptors of different requests are different. */
  lemma Disjoint(free: seq<bool>, role: seq<nat>, req: map<nat, Req>, g: nat, h: nat)
    requires Owners(free, role, req) && g in req && h in req && g != h
    ensures {g, req[g].d1, req[g].d2} !! {h, req[h].d1, req[h].d2}
  {
    assert Part(role, g, req[g]) && Part(role, h, req[h]);
  }

  /** Writing descriptors that were free leaves every other chain as it was. */
  lemma FormatsKept(free: seq<bool>, role: seq<nat>, req: map<nat, Req>, desc: seq<Desc>, ops: seq<Op>, desc': seq<Desc>, ops': seq<Op>)
    requires Owners(free, role, req) && Formats(desc, ops, req) && |desc'| == NUM && |ops'| == NUM
    requires forall i :: 0 <= i < NUM && !free[i] ==> desc'[i] == desc[i] && ops'[i] == ops[i]
    ensures Formats(desc', ops', req)
  {
    forall h | h in req ensures Formatted(desc', ops', h, req[h]) {
      assert Part(role, h, req[h]) && Formatted(desc, ops, h, req[h]);
    }
  }

  lemma FormatsAdd(req: map<nat, Req>, desc: seq<Desc>, ops: seq<Op>, h: nat, r: Req)
    requires Formats(desc, ops, req) && Formatted(desc, ops, h, r)
    ensures Formats(desc, ops, req[h := r])
  {
  }

  lemma BufsAdd(info: seq<Info>, busy: set<nat>, at: map<nat, nat>, req: map<nat, Req>, h: nat, r: Req)
    requires Bufs(info, busy, at, req) && h < NUM && h !in req && r.buf !in at && !r.phase.Done?
    ensures Bufs(info[h := Info(Buf(r.buf), r.status)], busy + {r.buf}, at[r.buf := h], req[h := r])
  {
    var info', busy', at', req' := info[h := Info(Buf(r.buf), r.status)], busy + {r.buf}, at[r.buf := h], req[h := r];
    forall x | x in req' ensures InfoOk(info', busy', at', x, req'[x]) {
      if x != h { assert InfoOk(info, busy, at, x, req[x]); }
    }
  }

  /** A change of phase and status; the buffer is released when the request is reported. */
  lemma BufsPhase(info: seq<Info>, busy: set<nat>, at: map<nat, nat>, req: map<nat, Req>, h: nat, r: Req)
    requires Bufs(info, busy, at, req) && h in req && r.buf == req[h].buf
    ensures h < NUM && InfoOk(info, busy, at, h, req[h])
    ensures Bufs(info[h := Info(Buf(r.buf), r.status)], if r.phase.Done? then busy - {r.buf} else busy + {r.buf}, at, req[h := r])
  {
    assert InfoOk(info, busy, at, h, req[h]);
    var info', req' := info[h := Info(Buf(r.buf), r.status)], req[h := r];
    var busy' := if r.phase.Done? then busy - {r.buf} else busy + {r.buf};
    forall x | x in req' ensures InfoOk(info', busy', at, x, req'[x]) {
      assert InfoOk(info, busy, at, x, req[x]);
    }
  }

  lemma BufsRemove(info: seq<Info>, busy: set<nat>, at: map<nat, nat>, req: map<nat, Req>, h: nat, i: Info)
    requires Bufs(info, busy, at, req) && h in req && req[h].phase.Done?
    ensures h < NUM && InfoOk(info, busy, at, h, req[h])
    ensures Bufs(info[h := i], busy, at - {req[h].buf}, req - {h})
  {
    assert InfoOk(info, busy, at, h, req[h]);
    var info', at', req' := info[h := i], at - {req[h].buf}, req - {h};
    forall x | x in req' ensures InfoOk(info', busy, at', x, req'[x]) {
      assert InfoOk(info, busy, at, x, req[x]);
    }
  }

  const EMPTY := Desc(Null, 0, false, false, 0)

  /** Three descriptors are free. */
  ghost predicate Three(free: seq<bool>) {
    exists a, b, c :: 0 <= a < b < c < |free| && free[a] && free[b] && free[c]
  }

  /** `d` is the lowest free descriptor. */
  ghost predicate Lowest(free: seq<bool>, d: nat) {
    d < |free| && free[d] && forall j :: 0 <= j < d ==> !free[j]
  }

  /** Taking the lowest free descriptor three times. */
  ghost predicate Taken(free: seq<bool>, idx: seq<nat>, n: nat, now: seq<bool>) {
    && n <= 3 && |idx| == n && |now| == |free| == NUM
    && (forall k :: 0 <= k < n ==> idx[k] < NUM && free[idx[k]])
    && (forall j, k :: 0 <= j < k < n ==> idx[j] < idx[k])
    && (forall i :: 0 <= i < NUM ==> now[i] == (free[i] && i !in idx))
    && (forall i :: 0 <= i < NUM && n > 0 && free[i] && i !in idx ==> idx[n - 1] < i)
  }

  lemma TakeNext(free: seq<bool>, idx: seq<nat>, n: nat, now: seq<bool>, d: nat)
    requires Taken(free, idx, n, now) && n < 3 && Lowest(now, d)
    ensures Taken(free, idx + [d], n + 1, now[d := false])
  {
    var idx' := idx + [d];
    forall i | 0 <= i < NUM ensures i in idx' <==> i in idx || i == d {
    }
  }

  lemma TakenAll(free: seq<bool>, idx: seq<nat>, now: seq<bool>)
    requires Taken(free, idx, 3, now)
    ensures Three(free) && now == free[idx[0] := false][idx[1] := false][idx[2] := false]
    ensures idx[0] < idx[1] < idx[2] < NUM && free[idx[0]] && free[idx[1]] && free[idx[2]]
  {
    assert free[idx[0]] && free[idx[1]] && free[idx[2]];
    assert idx == [idx[0], idx[1], idx[2]];
  }

  lemma NoThree(free: seq<bool>, idx: seq<nat>, n: nat, now: seq<bool>)
    requires Taken(free, idx, n, now) && n < 3 && forall i :: 0 <= i < NUM ==> !now[i]
    ensures !Three(free)
  {
    assert n == 0 ==> idx == [];
    assert n == 1 ==> idx == [idx[0]];
    assert n == 2 ==> idx == [idx[0], idx[1]];
  }

  /** The descriptors taken from position `j` on are still taken. */
  ghost predicate Given(free0: seq<bool>, idx: seq<nat>, j: nat, now: seq<bool>) {
    && |free0| == |now| == NUM && j <= |idx|
    && (forall k :: 0 <= k < |idx| ==> idx[k] < NUM && free0[idx[k]])
    && (forall k, l :: 0 <= k < l < |idx| ==> idx[k] < idx[l])
    && (forall i :: 0 <= i < NUM ==> now[i] == (free0[i] && i !in idx[j..]))
  }

  ghost predicate SameElsewhere(free0: seq<bool>, desc0: seq<Desc>, desc: seq<Desc>) {
    |free0| == |desc0| == |desc| == NUM && forall i :: 0 <= i < NUM && !free0[i] ==> desc[i] == desc0[i]
  }

  lemma GivenNone(free0: seq<bool>, idx: seq<nat>, n: nat, now: seq<bool>)
    requires Taken(free0, idx, n, now)
    ensures |idx| == n && Given(free0, idx, 0, now)
  {
    assert idx[0..] == idx;
  }

  lemma GiveOne(free0: seq<bool>, idx: seq<nat>, j: nat, now: seq<bool>, desc0: seq<Desc>, desc: seq<Desc>)
    requires Given(free0, idx, j, now) && j < |idx| && SameElsewhere(free0, desc0, desc)
    ensures idx[j] < NUM && !now[idx[j]] && Given(free0, idx, j + 1, now[idx[j] := true])
    ensures SameElsewhere(free0, desc0, desc[idx[j] := EMPTY])
  {
    assert idx[j..] == [idx[j]] + idx[j + 1..];
  }

  lemma GivenAll(free0: seq<bool>, idx: seq<nat>, now: seq<bool>)
    requires Given(free0, idx, |idx|, now)
    ensures now == free0
  {
    assert idx[|idx|..] == [];
  }

  class VirtioDisk {
    const free: array<bool>
    const desc: array<Desc>
    const ops: array<Op>
    const info: array<Info>
    const availRing: array<nat>
    const usedRing: array<nat>
    var availIdx: nat    // avail->idx, written by the driver
    var usedIdx: nat     // used->idx, written by the device
    var seenIdx: nat     // used_idx, the driver's position in the used ring
    var devIdx: nat      // the device's position in the avail ring
    var busy: set<nat>   // the buffers whose disk field is 1
    var mem: map<nat, seq<int>>    // what the buffers hold
    var store: map<nat, seq<int>>  // what the disk holds, by the first sector of each block
    ghost var fetched: nat        // entries the device has taken, ever
    ghost var seen: nat           // completions the driver has taken, ever
    ghost var queued: seq<nat>
    ghost var used: seq<nat>
    ghost var req: map<nat, Req>
    ghost var role: seq<nat>
    ghost var at: map<nat, nat>   // the head under which a buffer is in flight

    ghost predicate Apart()
      reads this
    {
      && free.Length == NUM && desc.Length == NUM && ops.Length == NUM && info.Length == NUM
      && availRing.Length == NUM && usedRing.Length == NUM && availRing != usedRing
    }

    ghost predicate Valid()
      reads this, free, desc, ops, info, availRing, usedRing
    {
      && Apart() && Owners(free[..], role, req) && Formats(desc[..], ops[..], req) && Bufs(info[..], busy, at, req)
      && InRing(availRing[..], queued, fetched) && Holds(queued, req, Queued)
      && InRing(usedRing[..], used, seen) && Holds(used, req, Used)
      && availIdx == (fetched + |queued|) % WRAP && devIdx == fetched % WRAP
      && usedIdx == (seen + |used|) % WRAP && seenIdx == seen % WRAP
    }

    /** The queue after virtio_disk_init: everything free, both rings empty. */
    constructor (mem: map<nat, seq<int>>, store: map<nat, seq<int>>)
      ensures this.mem == mem && this.store == store
      ensures Valid() && req == map[] && busy == {} && queued == [] && used == []
      ensures forall i :: 0 <= i < NUM ==> free[i]
      ensures fresh(free) && fresh(desc) && fresh(ops) && fresh(info) && fresh(availRing) && fresh(usedRing)
    {
      free := new bool[NUM](_ => true);
      desc := new Desc[NUM](_ => EMPTY);
      ops := new Op[NUM](_ => Op(false, 0));
      info := new Info[NUM](_ => Info(NoBuf, 0));
      availRing := new nat[NUM](_ => 0);
      usedRing := new nat[NUM](_ => 0);
      availIdx, usedIdx, seenIdx, devIdx, busy := 0, 0, 0, 0, {};
      this.mem, this.store := mem, store;
      fetched, seen, queued, used, req, role, at := 0, 0, [], [], map[], seq(NUM, _ => IDLE), map[];
    }

    /** alloc_desc: the lowest free descriptor, or NUM when there is none. */
    method AllocDesc() returns (d: nat)
      requires free.Length == NUM
      modifies free
      ensures d < NUM ==> Lowest(old(free[..]), d) && free[..] == old(free[..])[d := false]
      ensures d >= NUM ==> d == NUM && free[..] == old(free[..]) && forall i :: 0 <= i < NUM ==> !free[..][i]
    {
      var i := 0;
      while i < NUM
        invariant 0 <= i <= NUM && free[..] == old(free[..]) && forall j :: 0 <= j < i ==> !free[j]
      {
        if free[i] {
          free[i] := false;
          return i;
        }
        i := i + 1;
      }
      return NUM;
    }

    /** free_desc, with its two panics. */
    method FreeDesc(i: nat) returns (panicked: bool)
      requires free.Length == NUM && desc.Length == NUM
      modifies free, desc
      ensures panicked <==> i >= NUM || old(free[..])[i]
      ensures panicked ==> free[..] == old(free[..]) && desc[..] == old(desc[..])
      ensures !panicked ==> free[..] == old(free[..])[i := true] && desc[..] == old(desc[..])[i := EMPTY]
    {
      if i >= NUM {
        return true;
      }
      if free[i] {
        return true;
      }
      desc[i] := EMPTY;
      free[i] := true;
      return false;
    }

    /** free_chain frees exactly the three descriptors of the chain, and meets no panic. */
    method FreeChain(h: nat, ghost r: Req) returns (panicked: bool)
      requires free.Length == NUM && desc.Length == NUM && ops.Length == NUM && Formatted(desc[..], ops[..], h, r)
      requires h != r.d1 && h != r.d2 && r.d1 != r.d2 && !free[h] && !free[r.d1] && !free[r.d2]
      modifies free, desc
      ensures !panicked && free[..] == old(free[..])[h := true][r.d1 := true][r.d2 := true]
      ensures desc[..] == old(desc[..])[h := EMPTY][r.d1 := EMPTY][r.d2 := EMPTY]
    {
      ghost var free0, desc0, k := free[..], desc[..], 0;
      var i := h;
      while true
        invariant 0 <= k <= 2 && i == if k == 0 then h else if k == 1 then r.d1 else r.d2
        invariant free[..] == if k == 0 then free0 else if k == 1 then free0[h := true] else free0[h := true][r.d1 := true]
        invariant desc[..] == if k == 0 then desc0 else if k == 1 then desc0[h := EMPTY] else desc0[h := EMPTY][r.d1 := EMPTY]
        decreases 2 - k
      {
        var d := desc[i];
        assert d == desc[..][i] && free[i] == free[..][i];
        panicked := FreeDesc(i);
        if d.hasNext {
          i := d.next;
          k := k + 1;
        } else {
          return;
        }
      }
    }

    /** alloc3_desc: three free descriptors, or none taken when there are fewer. */
    method Alloc3() returns (ok: bool, idx: seq<nat>)
      requires free.Length == NUM && desc.Length == NUM
      modifies free, desc
      ensures ok <==> Three(old(free[..]))
      ensures ok ==> Taken(old(free[..]), idx, 3, free[..]) && desc[..] == old(desc[..])
      ensures !ok ==> free[..] == old(free[..]) && forall i :: 0 <= i < NUM && !old(free[..])[i] ==> desc[..][i] == old(desc[..])[i]
    {
      ghost var free0, desc0 := free[..], desc[..];
      idx := [];
      var i := 0;
      while i < 3
        invariant 0 <= i <= 3 && Taken(free0, idx, i, free[..]) && desc[..] == desc0
      {
        ghost var now := free[..];
        var d := AllocDesc();
        if d >= NUM {
          NoThree(free0, idx, i, free[..]);
          GiveBack(idx, i, free0);
          return false, idx;
        }
        TakeNext(free0, idx, i, now, d);
        idx := idx + [d];
        i := i + 1;
      }
      TakenAll(free0, idx, free[..]);
      return true, idx;
    }

    /** alloc3_desc's way back. */
    method GiveBack(idx: seq<nat>, n: nat, ghost free0: seq<bool>)
      requires free.Length == NUM && desc.Length == NUM && Taken(free0, idx, n, free[..])
      modifies free, desc
      ensures free[..] == free0 && forall i :: 0 <= i < NUM && !free0[i] ==> desc[..][i] == old(desc[..])[i]
    {
      hide Taken;
      ghost var desc0 := desc[..];
      GivenNone(free0, idx, n, free[..]);
      var j := 0;
      while j < n
        invariant 0 <= j <= n == |idx| && Given(free0, idx, j, free[..])
        invariant SameElsewhere(free0, desc0, desc[..])
      {
        GiveOne(free0, idx, j, free[..], desc0, desc[..]);
        var panicked := FreeDesc(idx[j]);
        j := j + 1;
      }
      GivenAll(free0, idx, free[..]);
    }

    /**
      virtio_disk_rw up to its wait: the request goes into the avail ring behind those not yet
      taken, or, with fewer than three descriptors free, nothing happens (the caller sleeps and
      tries again). The buffer has no other request in flight; its lock sees to that.
     */
    method Submit(b: nat, write: bool, blockno: nat) returns (ok: bool, h: nat)
      requires Valid() && b !in at
      modifies this, free, desc, ops, info, availRing
      ensures Valid() && (ok <==> Three(old(free[..])))
      ensures fetched == old(fetched) && seen == old(seen) && used == old(used) && mem == old(mem) && store == old(store)
      ensures !ok ==> req == old(req) && queued == old(queued) && busy == old(busy) && at == old(at)
      ensures ok ==>
                && h !in old(req) && h in req && req == old(req)[h := req[h]] && queued == old(queued) + [h]
                && busy == old(busy) + {b} && at == old(at)[b := h]
                && req[h].buf == b && req[h].write == write && req[h].sector == blockno * 2 % 0x1_0000_0000
                && req[h].phase == Queued && req[h].status == 0xff
    {
      hide Taken, Three, Owners, Formats, Bufs, InRing, Holds, Formatted;
      ghost var free0, desc0 := free[..], desc[..];
      Lengths(free0, role, req);
      var sector := blockno * (BSIZE / 512) % 0x1_0000_0000;
      var idx;
      ok, idx := Alloc3();
      FormatsKept(free0, role, req, desc0, ops[..], desc[..], ops[..]);
      if !ok {
        return false, 0;
      }
      TakenAll(free0, idx, free[..]);
      Enqueue(idx, b, write, sector, free0);
      return true, idx[0];
    }

    /** virtio_disk_rw from the formatting to the notification. */
    method Enqueue(idx: seq<nat>, b: nat, write: bool, sector: nat, ghost free0: seq<bool>)
      requires Apart() && Owners(free0, role, req) && Formats(desc[..], ops[..], req) && Bufs(info[..], busy, at, req) && b !in at
      requires |idx| == 3 && idx[0] < idx[1] < idx[2] < NUM && |free0| == NUM && free0[idx[0]] && free0[idx[1]] && free0[idx[2]]
      requires InRing(availRing[..], queued, fetched) && Holds(queued, req, Queued) && Holds(used, req, Used)
      requires availIdx == (fetched + |queued|) % WRAP
      modifies desc, ops, info, availRing, `busy, `availIdx, `queued, `req, `role, `at
      ensures Owners(free0[idx[0] := false][idx[1] := false][idx[2] := false], role, req)
      ensures Formats(desc[..], ops[..], req) && Bufs(info[..], busy, at, req)
      ensures InRing(availRing[..], queued, fetched) && Holds(queued, req, Queued) && Holds(used, req, Used)
      ensures availIdx == (fetched + |queued|) % WRAP
      ensures idx[0] !in old(req) && queued == old(queued) + [idx[0]] && busy == old(busy) + {b} && at == old(at)[b := idx[0]]
      ensures req == old(req)[idx[0] := Req(idx[1], idx[2], b, write, sector, Queued, 0xff)]
    {
      hide Owners, Formats, Bufs, InRing, Holds, Formatted;
      Lengths(free0, role, req);
      ghost var desc0, ops0 := desc[..], ops[..];
      var h := idx[0];
      ghost var r := Req(idx[1], idx[2], b, write, sector, Queued, 0xff);
      OwnersAdd(free0, role, req, h, r);
      HasRoom(queued, req, role, free0, Queued, h);
      NotIn(queued, req, Queued, h);
      NotIn(used, req, Used, h);
      Format(idx, b, write, sector);
      FormatsKept(free0, role, req, desc0, ops0, desc[..], ops[..]);
      FormatsAdd(req, desc[..], ops[..], h, r);
      BufsAdd(info[..], busy, at, req, h, r);
      Register(h, b);
      Publish(h);
      HoldsPush(queued, req, Queued, h, r);
      HoldsOther(used, req, Used, h, r);
      queued, req, role, at := queued + [h], req[h := r], role[h := h][idx[1] := h][idx[2] := h], at[b := h];
    }

    /** The status byte, the buffer's flag and the buffer's name under the head. */
    method Register(h: nat, b: nat)
      requires info.Length == NUM && h < NUM
      modifies info, `busy
      ensures info[..] == old(info[..])[h := Info(Buf(b), 0xff)] && busy == old(busy) + {b}
    {
      info[h] := info[h].(status := 0xff);
      busy := busy + {b};
      info[h] := info[h].(b := Buf(b));
    }

    /** The three descriptors and the command header. */
    method Format(idx: seq<nat>, b: nat, write: bool, sector: nat)
      requires Apart() && |idx| == 3 && idx[0] < idx[1] < idx[2] < NUM
      modifies desc, ops
      ensures Formatted(desc[..], ops[..], idx[0], Req(idx[1], idx[2], b, write, sector, Queued, 0xff))
      ensures forall i :: 0 <= i < NUM && i !in idx ==> desc[..][i] == old(desc[..])[i] && ops[..][i] == old(ops[..])[i]
    {
      ops[idx[0]] := Op(write, sector);
      desc[idx[0]] := Desc(OpAt(idx[0]), 16, true, false, idx[1]);
      desc[idx[1]] := Desc(DataOf(b), BSIZE, true, !write, idx[2]);
      desc[idx[2]] := Desc(StatusAt(idx[0]), 1, false, true, 0);
    }

    /** The avail entry and the index behind it. */
    method Publish(h: nat)
      requires Apart() && InRing(availRing[..], queued, fetched) && |queued| < NUM && availIdx == (fetched + |queued|) % WRAP
      modifies availRing, `availIdx
      ensures InRing(availRing[..], queued + [h], fetched) && availIdx == (fetched + |queued| + 1) % WRAP
    {
      PutInRing(availRing[..], queued, fetched, availIdx, h);
      availRing[availIdx % NUM] := h;
      availIdx := (availIdx + 1) % WRAP;
    }

    /** The device takes the oldest avail entry it has not taken, and finds that request's chain. */
    method Fetch() returns (h: nat)
      requires Valid() && devIdx != availIdx
      modifies `devIdx, `fetched, `queued, `req
      ensures Valid() && old(queued) != [] && h == old(queued)[0] && queued == old(queued)[1..]
      ensures h in old(req) && req == old(req)[h := old(req)[h].(phase := Working)]
      ensures Formatted(desc[..], ops[..], h, req[h])
    {
      hide Owners, Formats, Bufs, InRing, Holds, Formatted;
      Lengths(free[..], role, req);
      TakeFromRing(availRing[..], queued, fetched, devIdx, availIdx);
      h := availRing[devIdx % NUM];
      devIdx := (devIdx + 1) % WRAP;
      QueueHas(queued, req, Queued, h);
      FormatsAt(desc[..], ops[..], req, h);
      NotIn(used, req, Used, h);
      ghost var r := req[h].(phase := Working);
      MovePhase(free[..], role, req, desc[..], ops[..], info[..], busy, at, h, r);
      HoldsPop(queued, req, Queued, r);
      HoldsOther(used, req, Used, h, r);
      fetched, queued, req := fetched + 1, queued[1..], req[h := r];
    }

    /**
      The device moves the data of a request it has taken, going by the chain in memory alone:
      the command's type and sector, and the flag that lets it write the data buffer. A read
      fills the buffer from the disk and a write leaves it and changes the disk; it can refuse
      only a sector the disk does not have.
     */
    method Transfer(h: nat) returns (ok: bool)
      requires Valid() && h in req && req[h].phase.Working? && req[h].buf in mem
      modifies `mem, `store
      ensures Valid() && (ok <==> req[h].sector in old(store))
      ensures !ok ==> mem == old(mem) && store == old(store)
      ensures ok && req[h].write ==> mem == old(mem) && store == old(store)[req[h].sector := old(mem)[req[h].buf]]
      ensures ok && !req[h].write ==> store == old(store) && mem == old(mem)[req[h].buf := old(store)[req[h].sector]]
    {
      hide Owners, Formats, Bufs, InRing, Holds;
      HeadSmall(free[..], role, req, h);
      FormatsAt(desc[..], ops[..], req, h);
      var head := desc[h];
      if head.addr != OpAt(h) || head.devWrites || !head.hasNext || head.next >= NUM {
        return false;
      }
      var op, d := ops[h], desc[head.next];
      if !d.addr.DataOf? || d.len != BSIZE || !d.hasNext || d.next >= NUM || d.addr.buf !in mem {
        return false;
      }
      var last := desc[d.next];
      if last.addr != StatusAt(h) || !last.devWrites || last.hasNext || op.sector !in store {
        return false;
      }
      if op.write {
        if d.devWrites {
          return false;
        }
        store := store[op.sector := mem[d.addr.buf]];
      } else {
        if !d.devWrites {
          return false;
        }
        mem := mem[d.addr.buf := store[op.sector]];
      }
      return true;
    }

    /** The device finishes any request it has taken: status byte, used entry, used index. */
    method Complete(h: nat, status: nat)
      requires Valid() && h in req && req[h].phase.Working?
      modifies info, usedRing, `usedIdx, `used, `req
      ensures Valid() && used == old(used) + [h] && req == old(req)[h := old(req)[h].(phase := Used, status := status)]
    {
      hide Owners, Formats, Bufs, InRing, Holds, Formatted;
      Lengths(free[..], role, req);
      NotIn(queued, req, Queued, h);
      NotIn(used, req, Used, h);
      HeadSmall(free[..], role, req, h);
      HasRoom(used, req, role, free[..], Used, h);
      ghost var r := req[h].(phase := Used, status := status);
      BufsPhase(info[..], busy, at, req, h, r);
      OwnersPhase(free[..], role, req, h, r);
      FormatsPhase(desc[..], ops[..], req, h, r);
      PutInRing(usedRing[..], used, seen, usedIdx, h);
      assert info[..][h] == info[h] && busy + {r.buf} == busy;
      info[h] := info[h].(status := status);
      usedRing[usedIdx % NUM] := h;
      usedIdx := (usedIdx + 1) % WRAP;
      HoldsPush(used, req, Used, h, r);
      HoldsOther(queued, req, Queued, h, r);
      used, req := used + [h], req[h := r];
    }

    /**
      One round of virtio_disk_intr's loop: the oldest completion's buffer, and no other, is
      released. The panic is met exactly when the device reported an error for that request.
     */
    method IntrOne() returns (panicked: bool)
      requires Valid() && seenIdx != usedIdx
      modifies `busy, `seenIdx, `seen, `used, `req
      ensures Valid() && old(used) != [] && old(used)[0] in old(req)
      ensures var h := old(used)[0];
              && (panicked <==> old(req)[h].status != 0)
              && (panicked ==> req == old(req) && used == old(used) && busy == old(busy))
              && (!panicked ==> used == old(used)[1..] && old(req)[h].buf in old(busy) && busy == old(busy) - {old(req)[h].buf}
                                && req == old(req)[h := old(req)[h].(phase := Done)])
    {
      hide Owners, Formats, Bufs, InRing, Holds, Formatted;
      Lengths(free[..], role, req);
      TakeFromRing(usedRing[..], used, seen, seenIdx, usedIdx);
      var id := usedRing[seenIdx % NUM];
      QueueHas(used, req, Used, id);
      NotIn(queued, req, Queued, id);
      ghost var r := req[id].(phase := Done);
      BufsPhase(info[..], busy, at, req, id, r);
      OwnersPhase(free[..], role, req, id, r);
      FormatsPhase(desc[..], ops[..], req, id, r);
      assert info[..][id] == info[id];
      if info[id].status != 0 {
        return true;
      }
      var b := info[id].b.id;
      busy := busy - {b};
      assert info[..] == info[..][id := info[id]];
      HoldsPop(used, req, Used, r);
      HoldsOther(queued, req, Queued, id, r);
      seenIdx := (seenIdx + 1) % WRAP;
      seen, used, req := seen + 1, used[1..], req[id := r];
      return false;
    }

    /**
      virtio_disk_intr: the completions up to the first error, in order, are reported, which
      releases exactly their buffers; it panics exactly when there is an error.
     */
    method Intr() returns (panicked: bool, ghost k: nat)
      requires Valid()
      modifies `busy, `seenIdx, `seen, `used, `req
      ensures Valid() && k <= |old(used)| && Reported(old(req), old(used), old(busy), req, used, busy, k)
      ensures panicked <==> k < |old(used)|
      ensures panicked ==> old(used)[k] in old(req) && old(req)[old(used)[k]].status != 0
      ensures forall j :: 0 <= j < k ==> old(used)[j] in old(req) && old(req)[old(used)[j]].status == 0
    {
      hide Owners, Formats, Bufs, Formatted, InRing, Holds, Reported;
      ghost var req0, used0, busy0 := req, used, busy;
      k := 0;
      ReportedNone(req0, used0, busy0);
      Drained();
      while seenIdx != usedIdx
        invariant Valid() && k <= |used0| && Reported(req0, used0, busy0, req, used, busy, k)
        invariant forall j :: 0 <= j < k ==> used0[j] in req0 && req0[used0[j]].status == 0
        invariant seenIdx == usedIdx <==> used == []
        decreases |used|
      {
        ghost var req1, used1, busy1 := req, used, busy;
        panicked := IntrOne();
        ReportedAt(req0, used0, busy0, req1, used1, busy1, k);
        if panicked {
          return;
        }
        ReportedNext(req0, used0, busy0, req1, used1, busy1, req, used, busy, k);
        k := k + 1;
        Drained();
      }
      ReportedAll(req0, used0, busy0, req, used, busy, k);
      return false, k;
    }

    /** The 16-bit indices tell whether completions are waiting. */
    lemma Drained()
      requires Valid()
      ensures seenIdx == usedIdx <==> used == []
    {
      hide Owners, Formats, Bufs, Formatted, Holds;
      WrapEqual(seen, |used|);
    }

    /**
      The submitter wakes up with its buffer released: its request is over, its three descriptors
      and no others become free, and neither panic of free_desc is met.
     */
    method Finish(h: nat) returns (panicked: bool)
      requires Valid() && h in req && req[h].buf !in busy
      modifies free, desc, info, `req, `role, `at
      ensures Valid() && !panicked && req == old(req) - {h} && at == old(at) - {old(req)[h].buf}
      ensures forall i :: 0 <= i < NUM ==> free[i] == (old(free[..])[i] || i == h || i == old(req)[h].d1 || i == old(req)[h].d2)
    {
      hide Owners, Formats, Bufs, InRing, Holds, Formatted;
      Lengths(free[..], role, req);
      DoneWhenIdle(info[..], busy, at, req, h);
      ghost var r, free0, desc0, ops0 := req[h], free[..], desc[..], ops[..];
      NotIn(queued, req, Queued, h);
      NotIn(used, req, Used, h);
      OwnersRemove(free0, role, req, h);
      FormatsAt(desc0, ops0, req, h);
      BufsRemove(info[..], busy, at, req, h, info[h].(b := NoBuf));
      info[h] := info[h].(b := NoBuf);
      panicked := FreeChain(h, r);
      FormatsLess(free0, role, req, desc0, ops0, desc[..], h);
      HoldsGone(queued, req, Queued, h);
      HoldsGone(used, req, Used, h);
      req, role, at := req - {h}, role[h := IDLE][r.d1 := IDLE][r.d2 := IDLE], at - {r.buf};
      forall i | 0 <= i < NUM ensures free[i] == (free0[i] || i == h || i == r.d1 || i == r.d2) {
        assert free[i] == free[..][i];
      }
    }
  }

  /** The buffers of the first `k` completions. */
  ghost function BuffersOf(req: map<nat, Req>, q: seq<nat>, k: nat): set<nat>
    requires k <= |q|
  {
    if k == 0 then {} else BuffersOf(req, q, k - 1) + if q[k - 1] in req then {req[q[k - 1]].buf} else {}
  }

  /** The first `k` completions have been reported and their buffers released. */
  ghost predicate Reported(req0: map<nat, Req>, used0: seq<nat>, busy0: set<nat>, req: map<nat, Req>, used: seq<nat>, busy: set<nat>, k: nat) {
    && k <= |used0| && used == used0[k..] && req.Keys == req0.Keys
    && (forall h :: h in req0 ==> req[h] == if h in used0[..k] then req0[h].(phase := Done) else req0[h])
    && BuffersOf(req0, used0, k) <= busy0 && busy == busy0 - BuffersOf(req0, used0, k)
  }

  lemma ReportedNone(req: map<nat, Req>, used: seq<nat>, busy: set<nat>)
    ensures Reported(req, used, busy, req, used, busy, 0)
  {
  }

  lemma ReportedAt(req0: map<nat, Req>, used0: seq<nat>, busy0: set<nat>, req: map<nat, Req>, used: seq<nat>, busy: set<nat>, k: nat)
    requires Reported(req0, used0, busy0, req, used, busy, k) && used != [] && used[0] in req
    ensures k < |used0| && used0[k] == used[0] && used0[k] in req0 && req0[used0[k]].status == req[used[0]].status
  {
  }

  lemma ReportedNext(req0: map<nat, Req>, used0: seq<nat>, busy0: set<nat>, req1: map<nat, Req>, used1: seq<nat>, busy1: set<nat>,
                     req: map<nat, Req>, used: seq<nat>, busy: set<nat>, k: nat)
    requires Reported(req0, used0, busy0, req1, used1, busy1, k) && used1 != [] && used1[0] in req1 && used == used1[1..]
    requires req == req1[used1[0] := req1[used1[0]].(phase := Done)] && req1[used1[0]].buf in busy1 && busy == busy1 - {req1[used1[0]].buf}
    ensures Reported(req0, used0, busy0, req, used, busy, k + 1)
  {
    assert used0[..k + 1] == used0[..k] + [used0[k]];
  }

  lemma ReportedAll(req0: map<nat, Req>, used0: seq<nat>, busy0: set<nat>, req: map<nat, Req>, used: seq<nat>, busy: set<nat>, k: nat)
    requires Reported(req0, used0, busy0, req, used, busy, k) && used == []
    ensures k == |used0|
  {
  }

  lemma Lengths(free: seq<bool>, role: seq<nat>, req: map<nat, Req>)
    requires Owners(free, role, req)
    ensures |free| == NUM && |role| == NUM
  {
  }

  lemma RingLen(ring: seq<nat>, q: seq<nat>, start: nat)
    requires InRing(ring, q, start)
    ensures |q| <= NUM == |ring|
  {
  }

  lemma NotIn(q: seq<nat>, req: map<nat, Req>, phase: Phase, h: nat)
    requires Holds(q, req, phase) && (h !in req || req[h].phase != phase)
    ensures h !in q
  {
  }

  lemma QueueHas(q: seq<nat>, req: map<nat, Req>, phase: Phase, h: nat)
    requires Holds(q, req, phase) && q != [] && h == q[0]
    ensures h in req && req[h].phase == phase
  {
  }

  lemma HeadSmall(free: seq<bool>, role: seq<nat>, req: map<nat, Req>, h: nat)
    requires Owners(free, role, req) && h in req
    ensures h < NUM
  {
    assert Part(role, h, req[h]);
  }

  lemma FormatsAt(desc: seq<Desc>, ops: seq<Op>, req: map<nat, Req>, h: nat)
    requires Formats(desc, ops, req) && h in req
    ensures Formatted(desc, ops, h, req[h])
    ensures forall p, st :: Formatted(desc, ops, h, req[h].(phase := p, status := st))
    ensures forall p :: Formatted(desc, ops, h, req[h].(phase := p))
  {
  }

  lemma FormatsPhase(desc: seq<Desc>, ops: seq<Op>, req: map<nat, Req>, h: nat, r: Req)
    requires Formats(desc, ops, req) && h in req && r == req[h].(phase := r.phase, status := r.status)
    ensures Formats(desc, ops, req[h := r])
  {
    assert Formatted(desc, ops, h, req[h]);
  }

  lemma MovePhase(free: seq<bool>, role: seq<nat>, req: map<nat, Req>, desc: seq<Desc>, ops: seq<Op>,
                  info: seq<Info>, busy: set<nat>, at: map<nat, nat>, h: nat, r: Req)
    requires Owners(free, role, req) && Formats(desc, ops, req) && Bufs(info, busy, at, req)
    requires h in req && r == req[h].(phase := r.phase) && !r.phase.Done? && !req[h].phase.Done?
    ensures Owners(free, role, req[h := r]) && Formats(desc, ops, req[h := r]) && Bufs(info, busy, at, req[h := r])
  {
    hide Owners, Formats;
    OwnersPhase(free, role, req, h, r);
    FormatsPhase(desc, ops, req, h, r);
    BufsPhase(info, busy, at, req, h, r);
    assert info[h := Info(Buf(r.buf), r.status)] == info && busy + {r.buf} == busy;
  }

  /** A buffer that is not busy belongs to a request that has been reported. */
  lemma DoneWhenIdle(info: seq<Info>, busy: set<nat>, at: map<nat, nat>, req: map<nat, Req>, h: nat)
    requires Bufs(info, busy, at, req) && h in req && req[h].buf !in busy
    ensures req[h].phase.Done? && h < NUM
  {
    assert InfoOk(info, busy, at, h, req[h]);
  }

  lemma FormatsLess(free: seq<bool>, role: seq<nat>, req: map<nat, Req>, desc: seq<Desc>, ops: seq<Op>, desc': seq<Desc>, h: nat)
    requires Owners(free, role, req) && Formats(desc, ops, req) && h in req && h < NUM && req[h].d1 < NUM && req[h].d2 < NUM
    requires desc' == desc[h := EMPTY][req[h].d1 := EMPTY][req[h].d2 := EMPTY]
    ensures Formats(desc', ops, req - {h})
  {
    forall g | g in req && g != h ensures Formatted(desc', ops, g, req[g]) {
      assert Part(role, g, req[g]) && Formatted(desc, ops, g, req[g]);
      Disjoint(free, role, req, g, h);
    }
  }
}
