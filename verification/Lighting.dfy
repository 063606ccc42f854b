/**
  The lighting subsystem: rooms updated in place, and clockintr's three steps (ticks++, the usage
  update, the shut-off policy) with system calls of other CPUs anywhere between them. Each method
  is one section under the lighting lock. The ghost fields follow the run: the true number of
  ticks, the clock's step, and for each lit room when it was lit and what it has used since.
 */
module Lighting {
  import opened Common

  const NUM_ROOMS := 5
  const WRAP := 0x1_0000_0000
  const MAX_LIGHT_ON_TICKS := 100
  const TIMER_LIMIT := 300

  datatype Room = Room(lightOn: bool, occupied: bool, usage: nat, since: nat)

  const DARK := Room(false, false, 0, 0)

  /** When a light came on, whether that was between ticks++ and the usage update, and its use since. */
  datatype Lit = Lit(at: nat, window: bool, start: nat, spent: nat)

  // ---------------------------------------------------------------------- policy

  /** now - light_on_since in 32-bit arithmetic. */
  function Age(now: nat, since: nat): (a: nat) {
    (now - since) % WRAP
  }

  predicate Overdue(r: Room, now: nat, limit: nat) {
    r.lightOn && r.since > 0 && Age(now, r.since) >= limit
  }

  function Off(r: Room): Room {
    r.(lightOn := false, since := 0)
  }

  function AfterSweep(r: Room, now: nat, limit: nat): Room {
    if Overdue(r, now, limit) then Off(r) else r
  }

  ghost function Overdues(rooms: seq<Room>, now: nat, limit: nat): nat {
    if rooms == [] then 0 else Overdues(rooms[..|rooms| - 1], now, limit) + if Overdue(rooms[|rooms| - 1], now, limit) then 1 else 0
  }

  lemma {:induction false} OverduesCount(rooms: seq<Room>, now: nat, limit: nat)
    ensures Overdues(rooms, now, limit) == |set i: nat | i < |rooms| && Overdue(rooms[i], now, limit)|
  {
    if rooms != [] {
      var n := |rooms| - 1;
      var rest := rooms[..n];
      OverduesCount(rest, now, limit);
      var all, some := set i: nat | i < |rooms| && Overdue(rooms[i], now, limit), set i: nat | i < |rest| && Overdue(rest[i], now, limit);
      assert all == if Overdue(rooms[n], now, limit) then some + {n} else some;
    }
  }

  /** The 32-bit age is the true one, whatever wrapped, for a current clock. */
  lemma AgeExact(t: nat, at: nat)
    requires at <= t < at + WRAP
    ensures Age(t % WRAP, at % WRAP) == t - at
  {
    var k := t / WRAP - at / WRAP;
    assert t % WRAP - at % WRAP == t - at - k * WRAP;
    assert k == 0 || k == 1;
  }

  /** For a clock value read `d` ticks before the light came on the age is huge. */
  lemma AgeStale(at: nat, d: nat)
    requires 0 < d <= at && d < WRAP
    ensures Age((at - d) % WRAP, at % WRAP) == WRAP - d
  {
    var k := (at - d) / WRAP - at / WRAP;
    assert (at - d) % WRAP - at % WRAP == (at - d) - at - k * WRAP;
    assert k == 0 || k == -1;
  }

  /**
    auto_shutoff reads the clock before it takes the lock. A light that came on `d` ticks after
    that reading is shut off at once, however short its time, for every limit up to 2^32 - d.
   */
  lemma StaleClock(r: Room, at: nat, d: nat, limit: nat)
    requires 0 < d <= at && d < WRAP && r.lightOn && r.since == at % WRAP
    ensures Overdue(r, (at - d) % WRAP, limit) <==> at % WRAP != 0 && limit <= WRAP - d
  {
    AgeStale(at, d);
  }

  /**
    With a current clock the time rule shuts off a light exactly when it has been on for the
    limit and did not come on at a tick that is 0 in 32 bits: such a light stays on.
   */
  lemma ShutOffExactly(r: Room, at: nat, t: nat, limit: nat)
    requires at <= t < at + WRAP && r.lightOn && r.since == at % WRAP
    ensures Overdue(r, t % WRAP, limit) <==> t - at >= limit && at % WRAP != 0
  {
    AgeExact(t, at);
  }

  /** A light on since boot, 100000 ticks ago, is not shut off. */
  lemma LitAtBootStays()
    ensures !Overdue(Room(true, true, 100000, 0), 100000, TIMER_LIMIT)
  {
  }

  // ------------------------------------------------------------------------- sums

  ghost function SumUsage(rooms: seq<Room>): nat {
    if rooms == [] then 0 else SumUsage(rooms[..|rooms| - 1]) + rooms[|rooms| - 1].usage
  }

  ghost function CountLit(rooms: seq<Room>): nat {
    if rooms == [] then 0 else CountLit(rooms[..|rooms| - 1]) + if rooms[|rooms| - 1].lightOn then 1 else 0
  }

  lemma {:induction false} SumUpdate(rooms: seq<Room>, i: nat, r: Room)
    requires i < |rooms|
    ensures SumUsage(rooms[i := r]) == SumUsage(rooms) - rooms[i].usage + r.usage
  {
    var l, after := |rooms| - 1, rooms[i := r];
    if i == l {
      assert after[..l] == rooms[..l];
    } else {
      SumUpdate(rooms[..l], i, r);
      assert after[..l] == rooms[..l][i := r];
    }
  }

  lemma SumZero(rooms: seq<Room>)
    requires forall i :: 0 <= i < |rooms| ==> rooms[i] == DARK
    ensures SumUsage(rooms) == 0
  {
  }

  // -------------------------------------------------------------------- invariant

  ghost predicate RoomOk(r: Room, l: Lit, t: nat, phase: nat) {
    && (!r.occupied ==> !r.lightOn) && (!r.lightOn ==> r.since == 0)
    && r.usage < WRAP && r.since < WRAP
    && (r.lightOn ==> LitOk(r, l, t, phase))
  }

  /** A lit room: its age is the true one, its use is what the updates since it was lit added. */
  ghost predicate LitOk(r: Room, l: Lit, t: nat, phase: nat) {
    && l.at <= t && r.since == l.at % WRAP
    && l.spent == t - l.at + (if l.window then 1 else 0) - (if phase == 1 then 1 else 0)
    && r.usage == (l.start + l.spent) % WRAP
    && (r.since > 0 ==> t - l.at < TIMER_LIMIT + if phase == 0 then 0 else 1)
  }

  class House {
    const rooms: array<Room>
    var initialized: bool
    var ticks: nat
    ghost var t: nat            // ticks without the wrap
    ghost var phase: nat        // 0 between timer interrupts, 1 after ticks++, 2 after the usage update
    ghost var lit: seq<Lit>
    ghost var litTicks: nat     // lit rooms summed over all updates since the last init

    ghost predicate Valid()
      reads this, rooms
    {
      && rooms.Length == NUM_ROOMS && |lit| == NUM_ROOMS && ticks == t % WRAP && phase <= 2
      && (forall i :: 0 <= i < NUM_ROOMS ==> RoomOk(rooms[i], lit[i], t, phase))
      && (!initialized ==> forall i :: 0 <= i < NUM_ROOMS ==> rooms[i] == DARK)
      && SumUsage(rooms[..]) % WRAP == litTicks % WRAP
    }

    constructor ()
      ensures Valid() && !initialized && ticks == 0 && fresh(rooms)
    {
      rooms := new Room[NUM_ROOMS](_ => DARK);
      initialized, ticks, t, phase, lit, litTicks := false, 0, 0, 0, seq(NUM_ROOMS, _ => Lit(0, false, 0, 0)), 0;
      new;
      SumZero(rooms[..]);
    }

    /** lighting_init: every call resets every room. */
    method Init()
      requires Valid()
      modifies rooms, `initialized, `litTicks
      ensures Valid() && initialized && litTicks == 0
      ensures forall i :: 0 <= i < NUM_ROOMS ==> rooms[i] == Room(false, false, 0, 0)
    {
      var i := 0;
      while i < NUM_ROOMS
        invariant 0 <= i <= NUM_ROOMS && forall j :: 0 <= j < i ==> rooms[j] == DARK
      {
        rooms[i] := DARK;
        i := i + 1;
      }
      initialized, litTicks := true, 0;
      SumZero(rooms[..]);
    }

    method EnsureInit()
      requires Valid()
      modifies rooms, `initialized, `litTicks
      ensures Valid() && initialized
      ensures old(initialized) ==> rooms[..] == old(rooms[..]) && litTicks == old(litTicks)
      ensures !old(initialized) ==> litTicks == 0 && forall i :: 0 <= i < NUM_ROOMS ==> rooms[i] == DARK
    {
      if !initialized {
        Init();
      }
    }

    /** set_room_occupied: the light is on from this tick; other rooms stay. */
    method SetOccupied(roomid: int) returns (res: int)
      requires Valid()
      modifies rooms, `initialized, `litTicks, `lit
      ensures Valid() && initialized && res == if 0 <= roomid < NUM_ROOMS then 0 else -1
      ensures res == 0 ==>
                && rooms[roomid].lightOn && rooms[roomid].occupied && rooms[roomid].since == ticks
                && lit == old(lit)[roomid := Lit(t, phase == 1, rooms[roomid].usage, 0)]
      ensures res == -1 ==> lit == old(lit)
      ensures litTicks == if old(initialized) then old(litTicks) else 0
      ensures forall i :: 0 <= i < NUM_ROOMS && i != roomid ==> rooms[i] == if old(initialized) then old(rooms[..])[i] else Room(false, false, 0, 0)
      ensures res == 0 ==> rooms[roomid].usage == if old(initialized) then old(rooms[..])[roomid].usage else 0
    {
      EnsureInit();
      if roomid < 0 || roomid >= NUM_ROOMS {
        return -1;
      }
      ghost var rooms0, r := rooms[..], Room(true, true, rooms[roomid].usage, ticks);
      SumUpdate(rooms0, roomid, r);
      lit := lit[roomid := Lit(t, phase == 1, rooms[roomid].usage, 0)];
      rooms[roomid] := rooms[roomid].(occupied := true);
      rooms[roomid] := rooms[roomid].(lightOn := true);
      rooms[roomid] := rooms[roomid].(since := ticks);
      assert rooms[..] == rooms0[roomid := r];
      return 0;
    }

    /** set_room_empty: the light is off; other rooms stay. */
    method SetEmpty(roomid: int) returns (res: int)
      requires Valid()
      modifies rooms, `initialized, `litTicks
      ensures Valid() && initialized && res == if 0 <= roomid < NUM_ROOMS then 0 else -1
      ensures res == 0 ==> !rooms[roomid].lightOn && !rooms[roomid].occupied && rooms[roomid].since == 0
      ensures litTicks == if old(initialized) then old(litTicks) else 0
      ensures forall i :: 0 <= i < NUM_ROOMS && i != roomid ==> rooms[i] == if old(initialized) then old(rooms[..])[i] else Room(false, false, 0, 0)
      ensures res == 0 ==> rooms[roomid].usage == if old(initialized) then old(rooms[..])[roomid].usage else 0
    {
      EnsureInit();
      if roomid < 0 || roomid >= NUM_ROOMS {
        return -1;
      }
      ghost var rooms0, r := rooms[..], Room(false, false, rooms[roomid].usage, 0);
      SumUpdate(rooms0, roomid, r);
      rooms[roomid] := rooms[roomid].(occupied := false);
      rooms[roomid] := rooms[roomid].(lightOn := false);
      rooms[roomid] := rooms[roomid].(since := 0);
      assert rooms[..] == rooms0[roomid := r];
      return 0;
    }

    /** clockintr's ticks++. */
    method Tick()
      requires Valid() && phase == 0
      modifies `ticks, `t, `phase
      ensures Valid() && phase == 1 && t == old(t) + 1
    {
      WrapAdd(t, 1, WRAP);
      ticks := (ticks + 1) % WRAP;
      t, phase := t + 1, 1;
    }

    /** update_usage: each lit room is charged one tick. */
    method UpdateUsage()
      requires Valid() && phase == 1
      modifies rooms, `phase, `lit, `litTicks
      ensures Valid() && phase == 2 && litTicks == old(litTicks) + CountLit(old(rooms[..]))
      ensures forall i :: 0 <= i < NUM_ROOMS ==>
                && rooms[i] == Charged(old(rooms[..])[i])
                && (var r := old(rooms[..])[i]; rooms[i] == if r.lightOn then Room(true, r.occupied, (r.usage + 1) % 0x1_0000_0000, r.since) else r)
                && (initialized ==> lit[i] == Longer(old(rooms[..])[i], old(lit)[i]))
    {
      hide RoomOk, SumUsage, CountLit;
      ghost var rooms0, lit0 := rooms[..], lit;
      forall j | 0 <= j < NUM_ROOMS
        ensures rooms0[j].usage < WRAP
        ensures RoomOk(Charged(rooms0[j]), Longer(rooms0[j], lit0[j]), t, 2)
      {
        ChargedOk(rooms0[j], lit0[j], t);
      }
      if !initialized {
        NoneLit(rooms0);
        phase := 2;
        return;
      }
      Charge(litTicks);
      lit := seq(NUM_ROOMS, j requires 0 <= j < NUM_ROOMS => Longer(rooms0[j], lit0[j]));
      litTicks := litTicks + CountLit(rooms0);
      phase := 2;
    }

    /** update_usage's loop. */
    method Charge(ghost total: nat)
      requires rooms.Length == NUM_ROOMS && SumUsage(rooms[..]) % WRAP == total % WRAP
      requires forall i :: 0 <= i < NUM_ROOMS ==> rooms[i].usage < WRAP
      modifies rooms
      ensures forall i :: 0 <= i < NUM_ROOMS ==> rooms[i] == Charged(old(rooms[..])[i])
      ensures SumUsage(rooms[..]) % WRAP == (total + CountLit(old(rooms[..]))) % WRAP
    {
      ghost var rooms0 := rooms[..];
      assert rooms0[..0] == [];
      var i := 0;
      while i < NUM_ROOMS
        invariant 0 <= i <= NUM_ROOMS
        invariant forall j :: 0 <= j < NUM_ROOMS ==> rooms[j] == if j < i then Charged(rooms0[j]) else rooms0[j]
        invariant SumUsage(rooms[..]) % WRAP == (total + CountLit(rooms0[..i])) % WRAP
      {
        assert rooms0[..i + 1][..i] == rooms0[..i];
        if rooms[i].lightOn {
          ChargeSum(rooms[..], i, total + CountLit(rooms0[..i]));
          rooms[i] := rooms[i].(usage := (rooms[i].usage + 1) % WRAP);
        }
        i := i + 1;
      }
      assert rooms0[..NUM_ROOMS] == rooms0;
    }

    /** get_total_usage: the lit-room ticks since the last init, modulo 2^32. */
    method TotalUsage() returns (total: nat)
      requires Valid()
      modifies rooms, `initialized, `litTicks
      ensures Valid() && total == litTicks % WRAP
      ensures old(initialized) ==> rooms[..] == old(rooms[..]) && litTicks == old(litTicks)
      ensures !old(initialized) ==> litTicks == 0 && forall i :: 0 <= i < NUM_ROOMS ==> rooms[i] == Room(false, false, 0, 0)
    {
      EnsureInit();
      total := 0;
      assert rooms[..0] == [];
      var i := 0;
      while i < NUM_ROOMS
        invariant 0 <= i <= NUM_ROOMS && total == SumUsage(rooms[..i]) % WRAP
        modifies {}
      {
        assert rooms[..i + 1][..i] == rooms[..i];
        WrapAdd(SumUsage(rooms[..i]), rooms[i].usage, WRAP);
        total := (total + rooms[i].usage) % WRAP;
        i := i + 1;
      }
      assert rooms[..NUM_ROOMS] == rooms[..];
    }

    /**
      auto_shutoff_impl: exactly the overdue lights go off and are counted. The rule for an empty
      house finds nothing more to do, because an empty room is dark already.
     */
    method AutoShutoff(timeout: int, now: nat) returns (count: nat)
      requires Valid()
      modifies rooms, `initialized, `litTicks
      ensures Valid() && initialized
      ensures old(initialized) ==> litTicks == old(litTicks) && count == Overdues(old(rooms[..]), now, Limit(timeout))
      ensures old(initialized) ==>
                && count == |set i: nat | i < NUM_ROOMS && old(rooms[..])[i].lightOn && !rooms[i].lightOn|
                && forall i :: 0 <= i < NUM_ROOMS ==>
                     var r, limit := old(rooms[..])[i], if timeout > 0 then timeout else 100;
                     rooms[i] == if r.lightOn && r.since > 0 && (now - r.since) % 0x1_0000_0000 >= limit then Room(false, r.occupied, r.usage, 0) else r
      ensures !old(initialized) ==> count == 0 && forall i :: 0 <= i < NUM_ROOMS ==> rooms[i] == Room(false, false, 0, 0)
    {
      EnsureInit();
      ghost var rooms0 := rooms[..];
      var limit := Limit(timeout);
      var allEmpty := true;
      var i := 0;
      while i < NUM_ROOMS
        invariant 0 <= i <= NUM_ROOMS && (allEmpty <==> forall j :: 0 <= j < i ==> !rooms[j].occupied)
        modifies {}
      {
        if rooms[i].occupied {
          allEmpty := false;
        }
        i := i + 1;
      }
      count := SweepOverdue(now, limit);
      if allEmpty {
        ghost var rooms1 := rooms[..];
        var more := SweepAll();
        NoneLit(rooms1);
        count := count + more;
      }
      if !old(initialized) {
        NoneOverdue(rooms0, now, limit);
      }
      OverduesCount(rooms0, now, limit);
      assert (set i: nat | i < |rooms0| && Overdue(rooms0[i], now, limit)) == set i: nat | i < NUM_ROOMS && rooms0[i].lightOn && !rooms[i].lightOn;
    }

    /** Rule 1: maximum continuous on-time. */
    method SweepOverdue(now: nat, limit: nat) returns (count: nat)
      requires Valid() && initialized
      modifies rooms
      ensures Valid() && count == Overdues(old(rooms[..]), now, limit)
      ensures forall i :: 0 <= i < NUM_ROOMS ==> rooms[i] == AfterSweep(old(rooms[..])[i], now, limit)
    {
      ghost var rooms0 := rooms[..];
      assert rooms0[..0] == [];
      count := 0;
      var i := 0;
      while i < NUM_ROOMS
        invariant 0 <= i <= NUM_ROOMS && count == Overdues(rooms0[..i], now, limit)
        invariant forall j :: 0 <= j < NUM_ROOMS ==> rooms[j] == if j < i then AfterSweep(rooms0[j], now, limit) else rooms0[j]
        invariant SumUsage(rooms[..]) == SumUsage(rooms0)
      {
        assert rooms0[..i + 1][..i] == rooms0[..i];
        if rooms[i].lightOn && rooms[i].since > 0 && (now - rooms[i].since) % WRAP >= limit {
          SumUpdate(rooms[..], i, Off(rooms[i]));
          rooms[i] := Off(rooms[i]);
          count := count + 1;
        }
        i := i + 1;
      }
      assert rooms0[..NUM_ROOMS] == rooms0;
    }

    /** Rule 2: every light that is on goes off. */
    method SweepAll() returns (count: nat)
      requires Valid() && initialized
      modifies rooms
      ensures Valid() && count == CountLit(old(rooms[..]))
      ensures forall i :: 0 <= i < NUM_ROOMS ==> rooms[i] == if old(rooms[..])[i].lightOn then Off(old(rooms[..])[i]) else old(rooms[..])[i]
    {
      ghost var rooms0 := rooms[..];
      assert rooms0[..0] == [];
      count := 0;
      var i := 0;
      while i < NUM_ROOMS
        invariant 0 <= i <= NUM_ROOMS && count == CountLit(rooms0[..i])
        invariant forall j :: 0 <= j < NUM_ROOMS ==> rooms[j] == if j < i && rooms0[j].lightOn then Off(rooms0[j]) else rooms0[j]
        invariant SumUsage(rooms[..]) == SumUsage(rooms0)
      {
        assert rooms0[..i + 1][..i] == rooms0[..i];
        if rooms[i].lightOn {
          SumUpdate(rooms[..], i, Off(rooms[i]));
          rooms[i] := Off(rooms[i]);
          count := count + 1;
        }
        i := i + 1;
      }
      assert rooms0[..NUM_ROOMS] == rooms0;
    }

    /**
      lighting_tick: a light that came on at a non-zero tick goes off at the 300th tick after it
      and not before; one that came on at a tick that is 0 in 32 bits stays.
     */
    method LightingTick() returns (count: nat)
      requires Valid() && phase == 2
      modifies rooms, `initialized, `litTicks, `phase
      ensures Valid() && phase == 0 && initialized
      ensures old(initialized) ==> forall i :: 0 <= i < NUM_ROOMS ==>
                var r := old(rooms[..])[i];
                rooms[i] == if r.lightOn && r.since > 0 && t - lit[i].at >= 300 then Room(false, r.occupied, r.usage, 0) else r
    {
      ghost var rooms0 := rooms[..];
      count := AutoShutoff(TIMER_LIMIT, ticks);
      forall i | 0 <= i < NUM_ROOMS
        ensures RoomOk(rooms[i], lit[i], t, 0)
        ensures old(initialized) ==> (Overdue(rooms0[i], ticks, TIMER_LIMIT) <==> rooms0[i].lightOn && rooms0[i].since > 0 && t - lit[i].at >= TIMER_LIMIT)
      {
        assert RoomOk(rooms0[i], lit[i], t, 2);
        OverdueExact(rooms0[i], lit[i], t);
      }
      phase := 0;
    }
  }

  /** At the timer's sweep the time rule is exact. */
  lemma OverdueExact(r: Room, l: Lit, t: nat)
    requires RoomOk(r, l, t, 2)
    ensures Overdue(r, t % WRAP, TIMER_LIMIT) <==> r.lightOn && r.since > 0 && t - l.at >= TIMER_LIMIT
  {
    if r.lightOn && r.since > 0 {
      ShutOffExactly(r, l.at, t, TIMER_LIMIT);
    }
  }

  /**
    A light that came on at a non-zero tick and has not been touched since: between timer
    interrupts it is less than 300 ticks old, and it has never used more than 300 ticks, or 301
    if it came on between ticks++ and the usage update.
   */
  lemma AtMostThreeHundred(h: House, i: nat)
    requires h.Valid() && i < NUM_ROOMS && h.rooms[i].lightOn && h.rooms[i].since > 0
    ensures h.phase == 0 ==> h.t - h.lit[i].at < TIMER_LIMIT
    ensures h.lit[i].spent <= TIMER_LIMIT + if h.lit[i].window then 1 else 0
    ensures h.rooms[i].usage == (h.lit[i].start + h.lit[i].spent) % WRAP
  {
    assert RoomOk(h.rooms[i], h.lit[i], h.t, h.phase);
  }

  lemma {:induction false} NoneLit(rooms: seq<Room>)
    requires forall i :: 0 <= i < |rooms| ==> !rooms[i].lightOn
    ensures CountLit(rooms) == 0
  {
    if rooms != [] { NoneLit(rooms[..|rooms| - 1]); }
  }

  lemma {:induction false} NoneOverdue(rooms: seq<Room>, now: nat, limit: nat)
    requires forall i :: 0 <= i < |rooms| ==> !rooms[i].lightOn
    ensures Overdues(rooms, now, limit) == 0
  {
    if rooms != [] { NoneOverdue(rooms[..|rooms| - 1], now, limit); }
  }

  /** One more tick on one room adds one to the total, in 32 bits. */
  lemma ChargeSum(rooms: seq<Room>, i: nat, total: nat)
    requires i < |rooms| && rooms[i].usage < WRAP && SumUsage(rooms) % WRAP == total % WRAP
    ensures SumUsage(rooms[i := rooms[i].(usage := (rooms[i].usage + 1) % WRAP)]) % WRAP == (total + 1) % WRAP
  {
    hide SumUsage;
    var r := rooms[i].(usage := (rooms[i].usage + 1) % WRAP);
    SumUpdate(rooms, i, r);
    NextTotal(SumUsage(rooms), SumUsage(rooms[i := r]), total, rooms[i].usage);
  }

  lemma NextTotal(sum: nat, sum': nat, total: nat, u: nat)
    requires u < WRAP && sum % WRAP == total % WRAP && sum' == sum - u + (u + 1) % WRAP
    ensures sum' % WRAP == (total + 1) % WRAP
  {
    WrapAdd(sum, 1, WRAP);
    WrapAdd(total, 1, WRAP);
    if u + 1 == WRAP {
      WrapAdd(WRAP, sum', WRAP);
    } else {
      assert sum' == sum + 1;
    }
  }

  lemma ChargedOk(r: Room, l: Lit, t: nat)
    requires RoomOk(r, l, t, 1)
    ensures r.usage < WRAP
    ensures RoomOk(Charged(r), Longer(r, l), t, 2)
  {
    if r.lightOn { WrapAdd(l.start + l.spent, 1, WRAP); }
  }

  function Limit(timeout: int): nat {
    if timeout > 0 then timeout else MAX_LIGHT_ON_TICKS
  }

  ghost function Longer(r: Room, l: Lit): Lit {
    if r.lightOn then l.(spent := l.spent + 1) else l
  }

  function Charged(r: Room): Room {
    if r.lightOn then r.(usage := (r.usage + 1) % WRAP) else r
  }
}
