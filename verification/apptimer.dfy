/** The hierarchical timer wheel (modules/apptimer/src/apptimer.c) against a plain list
    of deadlines. */
module AppTimer {
  import opened Basics
  import opened Bits
  import opened WheelArith

  type Id = int

  datatype Error = Success | InvalidParam | AlreadyStarted | TimeLimitExceeded

  /** struct apptimer, without the callback. */
  datatype Timer = Timer(interval: nat, goal: Word, repeat: bool)

  /** The list heads: wheels[w][s], pending, and the temporary list of update_slots. */
  type Heads = map<Place, seq<Id>>

  // ------------------------------------------------------------------ lists

  predicate IsPlace(p: Place) {
    p.Slot? ==> p.wheel < NR_WHEELS && p.slot < NR_SLOTS
  }

  ghost function Count(place: map<Id, Place>, id: Id, p: Place): nat {
    if id in place && place[id] == p then 1 else 0
  }

  /** `list` holds, once each, exactly the timers whose link says p. */
  ghost predicate Holds(list: seq<Id>, p: Place, place: map<Id, Place>) {
    forall id :: multiset(list)[id] == Count(place, id, p)
  }

  /** Every started timer is linked in exactly one list, exactly once. */
  ghost predicate Linked(heads: Heads, place: map<Id, Place>) {
    && (forall p :: p in heads <==> IsPlace(p))
    && (forall p :: p in heads ==> Holds(heads[p], p, place))
    && (forall id :: id in place ==> place[id] in heads)
  }

  function Remove(list: seq<Id>, id: Id): seq<Id> {
    if list == [] then [] else if list[0] == id then list[1..] else [list[0]] + Remove(list[1..], id)
  }

  lemma {:induction false} RemoveOne(list: seq<Id>, id: Id)
    ensures multiset(Remove(list, id)) == multiset(list) - multiset{id}
  {
    if list != [] {
      var first, rest := list[0], list[1..];
      RemoveOne(rest, id);
      assert multiset(list) == multiset{first} + multiset(rest) by { assert list == [first] + rest; }
      if first != id {
        var short := Remove(rest, id);
        assert multiset([first] + short) == multiset{first} + multiset(short);
        TakeOther(multiset(rest), first, id);
      }
    }
  }

  lemma TakeOther(m: multiset<Id>, kept: Id, id: Id)
    requires kept != id
    ensures multiset{kept} + (m - multiset{id}) == multiset{kept} + m - multiset{id}
  {
  }

  /** Linking a timer that is in no list. */
  lemma LinkKeeps(heads: Heads, place: map<Id, Place>, id: Id, p: Place)
    requires Linked(heads, place) && id !in place && IsPlace(p)
    ensures Linked(heads[p := [id] + heads[p]], place[id := p])
  {
    var heads', place' := heads[p := [id] + heads[p]], place[id := p];
    forall q | q in heads' ensures Holds(heads'[q], q, place') {
      forall x ensures multiset(heads'[q])[x] == Count(place', x, q) {
        assert multiset(heads[q])[x] == Count(place, x, q);
      }
    }
  }

  /** Unlinking a timer from the list it is in. */
  lemma UnlinkKeeps(heads: Heads, place: map<Id, Place>, id: Id)
    requires Linked(heads, place) && id in place
    ensures Linked(heads[place[id] := Remove(heads[place[id]], id)], place - {id})
  {
    var p := place[id];
    RemoveOne(heads[p], id);
    var heads', place' := heads[p := Remove(heads[p], id)], place - {id};
    forall q | q in heads' ensures Holds(heads'[q], q, place') {
      forall x ensures multiset(heads'[q])[x] == Count(place', x, q) {
        assert multiset(heads[q])[x] == Count(place, x, q);
      }
    }
  }

  lemma ListedIsLinked(heads: Heads, place: map<Id, Place>, p: Place, k: nat)
    requires Linked(heads, place) && IsPlace(p) && k < |heads[p]|
    ensures heads[p][k] in place && place[heads[p][k]] == p
  {
    var id := heads[p][k];
    assert multiset(heads[p])[id] == Count(place, id, p);
  }

  lemma EmptyHoldsNone(heads: Heads, place: map<Id, Place>, p: Place)
    requires Linked(heads, place) && IsPlace(p) && heads[p] == []
    ensures forall id :: id in place ==> place[id] != p
  {
    forall id | id in place ensures place[id] != p {
      assert multiset(heads[p])[id] == Count(place, id, p);
    }
  }

  // ------------------------------------------------------- the deadline list

  /** Counter and goal times are the wrapped images of unbounded time and deadlines. */
  ghost predicate Timed(counter: Word, now: nat, place: map<Id, Place>, due: map<Id, nat>, timers: map<Id, Timer>) {
    && counter == now % MOD
    && place.Keys == due.Keys && due.Keys <= timers.Keys
    && (forall id :: id in timers ==> timers[id].interval <= MAX_TIMEOUT)
    && (forall id :: id in due ==> Sound(now, place[id], due[id], timers[id].goal))
  }

  ghost predicate Sound(now: nat, p: Place, due: nat, goal: Word) {
    goal == due % MOD && due <= now + MAX_TIMEOUT && (p == Pending ==> due <= now)
  }

  /** Nothing is overdue, and every timer sits in a slot that fits its deadline. */
  ghost predicate OnTime(now: nat, place: map<Id, Place>, due: map<Id, nat>)
    requires place.Keys == due.Keys
  {
    forall id :: id in place ==>
      && due[id] >= now
      && (place[id].Slot? ==> Fits(now, place[id].wheel, place[id].slot, due[id]))
  }

  /** Where the timers are once those in the lists `from` have been sorted again. */
  ghost function Resorted(place: map<Id, Place>, from: set<Place>, counter: Word,
                          timers: map<Id, Timer>): map<Id, Place>
    requires place.Keys <= timers.Keys
  {
    map id | id in place ::
      if place[id] in from then PlaceFor(counter, timers[id].goal) else place[id]
  }

  ghost function After(now: nat, interval: nat): nat {
    now + interval
  }

  /** The timers of `fired` leave the list, and the repeating ones come back one
      interval from now. */
  ghost function Rearm(due: map<Id, nat>, fired: set<Id>, timers: map<Id, Timer>, now: nat): map<Id, nat>
    requires due.Keys <= timers.Keys
  {
    map id | id in due && (id !in fired || timers[id].repeat) ::
      if id in fired then After(now, timers[id].interval) else due[id]
  }

  ghost function DueSet(due: map<Id, nat>, now: nat): set<Id> {
    set id | id in due && due[id] <= now
  }

  ghost function Elements(list: seq<Id>): set<Id> {
    set id | id in list
  }

  ghost predicate SameSettings(a: map<Id, Timer>, b: map<Id, Timer>) {
    a.Keys == b.Keys && forall id :: id in a ==> a[id].repeat == b[id].repeat && a[id].interval == b[id].interval
  }

  // --------------------------------------------------------------- the wheel

  class TimerWheel {
    var heads: Heads
    var counter: Word
    var active: int
    var timers: map<Id, Timer>
    /** The list node inside each started timer: which list it is linked in. */
    var place: map<Id, Place>
    /** Unwrapped time and deadlines: the plain list the wheel stands for. */
    ghost var now: nat
    ghost var due: map<Id, nat>

    ghost predicate Consistent()
      reads this
    {
      && Linked(heads, place)
      && active == |place|
      && Timed(counter, now, place, due, timers)
    }

    ghost predicate Valid()
      reads this
    {
      Consistent() && heads[Moving] == []
    }

    /** apptimer_init */
    constructor ()
      ensures Valid() && now == 0 && due == map[] && timers == map[]
    {
      heads := (map w: nat, s: nat | w < 5 && s < 8 :: Slot(w, s) := [])[Pending := []][Moving := []];
      counter, active, timers, place := 0, 0, map[], map[];
      now, due := 0, map[];
    }

    /** llist_add of a timer that is in no list, and active_timers++. */
    method Link(id: Id, p: Place)
      requires Linked(heads, place) && active == |place| && id !in place && IsPlace(p)
      modifies this`heads, this`active, this`place
      ensures Linked(heads, place) && active == |place|
      ensures place == old(place)[id := p]
      ensures heads == old(heads)[p := [id] + old(heads)[p]]
    {
      LinkKeeps(heads, place, id, p);
      heads := heads[p := [id] + heads[p]];
      place := place[id := p];
      active := active + 1;
    }

    /** llist_del of a linked timer, and active_timers--. */
    method Unlink(id: Id)
      requires Linked(heads, place) && active == |place| && id in place
      modifies this`heads, this`active, this`place
      ensures Linked(heads, place) && active == |place|
      ensures place == old(place) - {id}
      ensures heads == old(heads)[old(place)[id] := Remove(old(heads)[old(place)[id]], id)]
    {
      UnlinkKeeps(heads, place, id);
      SizeWithout(place, id);
      heads := heads[place[id] := Remove(heads[place[id]], id)];
      place := place - {id};
      active := active - 1;
    }

    /** insert_timer_into_wheel */
    method Insert(id: Id, ghost deadline: nat)
      requires Consistent() && id in timers && id !in place
      requires timers[id].goal == deadline % MOD && deadline <= now + MAX_TIMEOUT
      modifies this`heads, this`active, this`place, this`due
      ensures Consistent() && due == old(due)[id := deadline]
      ensures var p := PlaceFor(counter, timers[id].goal);
              && place == old(place)[id := p]
              && IsPlace(p) && p != Moving
              && heads == old(heads)[p := [id] + old(heads)[p]]
    {
      PlaceForSound(now, deadline);
      Link(id, PlaceFor(counter, timers[id].goal));
      due := due[id := deadline];
    }

    /** The second half of update_slots, one timer: sort it again. */
    method ResortFirst()
      requires Consistent() && heads[Moving] != []
      modifies this`heads, this`active, this`place, this`due
      ensures Consistent() && due == old(due)
      ensures heads[Moving] == old(heads)[Moving][1..]
      ensures var id := old(heads)[Moving][0];
              && id in old(place) && old(place)[id] == Moving
              && place == old(place)[id := PlaceFor(counter, timers[id].goal)]
              && place[id] != Moving
    {
      var id := heads[Moving][0];
      ListedIsLinked(heads, place, Moving, 0);
      ghost var deadline := due[id];
      TimedWithout(counter, now, place, due, timers, id);
      Unlink(id);
      due := due - {id};
      Insert(id, deadline);
    }

    method Resort()
      requires Consistent()
      modifies this`heads, this`active, this`place, this`due
      ensures Valid() && due == old(due)
      ensures place == Resorted(old(place), {Moving}, counter, timers)
    {
      while heads[Moving] != []
        invariant Consistent() && due == old(due)
        invariant Resorted(place, {Moving}, counter, timers) == Resorted(old(place), {Moving}, counter, timers)
        decreases |heads[Moving]|
      {
        ResortFirst();
      }
      EmptyHoldsNone(heads, place, Moving);
      ResortedNone(place, {Moving}, counter, timers);
    }

    /** The first half of update_slots, one timer: to the temporary list. */
    method MoveFirst(p: Place)
      requires Consistent() && IsPlace(p) && p.Slot? && heads[p] != []
      modifies this`heads, this`active, this`place
      ensures Consistent() && heads[p] == old(heads)[p][1..]
      ensures var id := old(heads)[p][0];
              id in old(place) && old(place)[id] == p && place == old(place)[id := Moving]
    {
      var id := heads[p][0];
      ListedIsLinked(heads, place, p, 0);
      TimedMoving(counter, now, place, due, timers, id);
      Unlink(id);
      Link(id, Moving);
    }

    method EmptySlot(p: Place)
      requires Consistent() && IsPlace(p) && p.Slot?
      modifies this`heads, this`active, this`place
      ensures Consistent()
      ensures place == Moved(old(place), {p})
    {
      while heads[p] != []
        invariant Consistent()
        invariant Moved(place, {p}) == Moved(old(place), {p})
        decreases |heads[p]|
      {
        MoveFirst(p);
      }
      EmptyHoldsNone(heads, place, p);
      MovedNone(place, {p});
    }

    /** The first half of update_slots: empty the slots slot, slot - 1, ... (n of them at most) of a wheel. */
    method EmptySlots(wheel: nat, slot: nat, n: nat)
      requires Valid() && wheel < 5 && slot < 8
      modifies this`heads, this`active, this`place
      ensures Consistent() && place == Moved(old(place), Slots(wheel, slot - n + 1, slot))
    {
      hide Linked, Timed, Moved, Slots;
      var i: nat, left: nat := slot + 1, n;
      SlotsNone(wheel, i, slot);
      MovedNone(place, Slots(wheel, i, slot));
      while i > 0 && left != 0
        invariant i <= slot + 1 && left + slot + 1 == n + i && Consistent()
        invariant place == Moved(old(place), Slots(wheel, i, slot))
      {
        ghost var next := i;
        i, left := i - 1, left - 1;
        EmptySlot(Slot(wheel, i));
        SlotsStep(wheel, i, next, slot);
        MovedTwice(old(place), Slots(wheel, next, slot), Slot(wheel, i));
      }
      SlotsFrom(wheel, i, slot - n + 1, slot);
    }

    /** update_slots: empty the slots, and sort their timers again. */
    method UpdateSlots(wheel: nat, slot: nat, n: nat)
      requires Valid() && wheel < 5 && slot < 8
      modifies this`heads, this`active, this`place, this`due
      ensures Valid() && due == old(due)
      ensures place == Resorted(old(place), Slots(wheel, slot - n + 1, slot), counter, timers)
    {
      hide Holds, Sound, Moved, Resorted, Slots;
      EmptyHoldsNone(heads, place, Moving);
      ResortMoved(place, Slots(wheel, slot - n + 1, slot), counter, timers);
      EmptySlots(wheel, slot, n);
      Resort();
    }

    /** One turn of run_pending_timers, up to the callback. */
    method TakePending(id: Id, ghost again: seq<Id>, ghost rest: seq<Id>)
      requires Valid() && heads[Pending] == again + [id] + rest
      modifies this`heads, this`active, this`place, this`due
      ensures Valid() && id in old(due) && old(due)[id] <= now
      ensures place == old(place) - {id} && due == old(due) - {id}
      ensures heads[Pending] == again + rest
    {
      ListedIsLinked(heads, place, Pending, |again|);
      OnceOnly(heads[Pending], place, |again|);
      assert heads[Pending][..|again|] == again;
      RemoveMiddle(again, id, rest);
      TimedWithout(counter, now, place, due, timers, id);
      Unlink(id);
      due := due - {id};
    }

    /** One turn of run_pending_timers, after the callback: a repeating timer starts again. */
    method Repeat(id: Id)
      requires Valid() && id in timers && id !in place
      modifies this`heads, this`active, this`place, this`due, this`timers
      ensures Valid() && SameSettings(timers, old(timers))
      ensures old(timers)[id].repeat ==> due == old(due)[id := After(now, old(timers)[id].interval)]
      ensures !old(timers)[id].repeat ==> due == old(due)
      ensures heads[Pending] == old(heads)[Pending] || heads[Pending] == [id] + old(heads)[Pending]
      ensures timers == old(timers)[id := timers[id]]
      ensures place == old(place) || place == old(place)[id := PlaceFor(counter, timers[id].goal)]
    {
      var timer := timers[id];
      if timer.repeat {
        timer := timer.(goal := (counter + timer.interval) % MOD);
        TimedRestart(counter, now, place, due, timers, id, timer);
        timers := timers[id := timer];
        Insert(id, After(now, timer.interval));
      }
    }

    /** One turn of run_pending_timers. */
    method RunOne(id: Id, ghost again: seq<Id>, ghost rest: seq<Id>)
      requires Valid() && heads[Pending] == again + [id] + rest
      modifies this`heads, this`active, this`place, this`due, this`timers
      ensures Valid() && SameSettings(timers, old(timers)) && id in timers
      ensures timers == old(timers)[id := timers[id]]
      ensures due == Restarted(old(due), id, old(timers), now)
      ensures heads[Pending] == again + rest || heads[Pending] == [id] + (again + rest)
      ensures place == old(place) - {id} || place == (old(place) - {id})[id := PlaceFor(counter, timers[id].goal)]
    {
      TakePending(id, again, rest);
      Repeat(id);
    }

    /** run_pending_timers: from the front of the list to its end; a timer that is linked
        again goes to the front and is not visited. */
    method RunPending() returns (fired: seq<Id>)
      requires Valid()
      modifies this`heads, this`active, this`place, this`due, this`timers
      ensures Valid() && fired == old(heads)[Pending] && SameSettings(timers, old(timers))
      ensures due == Rearm(old(due), Elements(fired), old(timers), now)
      ensures Relinked(old(place), place, fired, counter, timers)
    {
      hide Relinked, Rearm, Restarted;
      RelinkedNone(place, counter, timers);
      fired := [];
      var left := |heads[Pending]|;
      ghost var again, rest := [], heads[Pending];
      RearmNone(due, timers, now);
      while left != 0
        invariant Valid() && SameSettings(timers, old(timers))
        invariant left == |rest| && heads[Pending] == again + rest
        invariant fired + rest == old(heads)[Pending]
        invariant due == Rearm(old(due), Elements(fired), old(timers), now)
        invariant Relinked(old(place), place, fired, counter, timers)
        decreases left
      {
        var id := heads[Pending][|heads[Pending]| - left];
        FirstOfRest(old(heads), old(place), fired, rest);
        SplitRest(again, rest);
        SplitRest(fired, rest);
        RearmStep(old(due), fired, old(timers), timers, now, id);
        ghost var place', timers' := place, timers;
        RunOne(id, again, rest[1..]);
        RelinkedStep(old(place), place', timers', place, timers, fired, id, counter);
        fired := fired + [id];
        again, rest := if heads[Pending] == again + rest[1..] then again else [id] + again, rest[1..];
        left := left - 1;
      }
    }

    /** apptimer_create_static */
    method Create(id: Id, repeat: bool)
      requires Valid() && id !in place
      modifies this`timers
      ensures Valid() && timers == old(timers)[id := Timer(0, 0, repeat)]
    {
      timers := timers[id := Timer(0, 0, repeat)];
    }

    /** apptimer_start */
    method Start(handle: Option<Id>, timeout: nat) returns (error: Error)
      requires Valid() && (handle.Some? ==> handle.value in timers)
      modifies this`heads, this`active, this`place, this`due, this`timers
      ensures Valid()
      ensures error == if handle.None? then InvalidParam
                       else if handle.value in old(due) then AlreadyStarted
                       else if timeout >= 0x8000_0000 then TimeLimitExceeded
                       else Success
      ensures error != Success ==> due == old(due) && timers == old(timers) && place == old(place)
      ensures error == Success ==>
                && due == old(due)[handle.value := After(now, timeout)]
                && timers == old(timers)[handle.value := Timer(timeout, (counter + timeout) % 0x1_0000_0000,
                                                               old(timers)[handle.value].repeat)]
                && place == old(place)[handle.value := PlaceFor(counter, timers[handle.value].goal)]
      ensures old(OnTime(now, place, due)) ==> OnTime(now, place, due)
    {
      match handle {
        case None => return InvalidParam;
        case Some(id) =>
          if id in place {
            return AlreadyStarted;
          } else if timeout > MAX_TIMEOUT {
            return TimeLimitExceeded;
          }
          var timer := Timer(timeout, (counter + timeout) % MOD, timers[id].repeat);
          TimedRestart(counter, now, place, due, timers, id, timer);
          timers := timers[id := timer];
          OnTimeStart(now, place, due, id, timeout);
          Insert(id, After(now, timeout));
          return Success;
      }
    }

    /** apptimer_stop, apptimer_destroy: remove_timer_from_list */
    method Stop(id: Id)
      requires Valid()
      modifies this`heads, this`active, this`place, this`due
      ensures Valid() && due == old(due) - {id} && place == old(place) - {id}
      ensures old(OnTime(now, place, due)) ==> OnTime(now, place, due)
    {
      if id in place {
        TimedWithout(counter, now, place, due, timers, id);
        StopKeepsMoving(heads, place, id);
        Unlink(id);
      }
      due := due - {id};
    }

    /** apptimer_count */
    method Active() returns (n: int)
      requires Valid()
      ensures n == |due|
    {
      n := active;
      assert place.Keys == due.Keys && |place| == |place.Keys| && |due| == |due.Keys|;
    }

    /** The re-sorting part of apptimer_schedule. */
    method SweepWheels(far: nat, slot: nat, elapsed: nat)
      requires Valid() && far < 5 && slot < 8
      modifies this`heads, this`active, this`place, this`due
      ensures Valid() && due == old(due)
      ensures place == Resorted(old(place), WheelSlots(far) + Slots(far, slot - elapsed + 1, slot), counter, timers)
    {
      hide Holds, Sound, Resorted;
      var wheel := 0;
      ResortedNone(place, WheelSlots(0), counter, timers);
      while wheel < far
        invariant wheel <= far && Valid() && due == old(due)
        invariant place == Resorted(old(place), WheelSlots(wheel), counter, timers)
      {
        UpdateSlots(wheel, 7, 8);
        ResortedTwice(old(place), WheelSlots(wheel), Slots(wheel, 0, 7), counter, timers);
        WheelSlotsStep(wheel);
        wheel := wheel + 1;
      }
      UpdateSlots(far, slot, elapsed);
      ResortedTwice(old(place), WheelSlots(far), Slots(far, slot - elapsed + 1, slot), counter, timers);
    }

    /** set_timer_counter */
    method SetCounter(current: Word, ghost time: nat)
      requires Valid() && now <= time && current == time % MOD
      modifies this`counter, this`now
      ensures Valid() && counter == current && now == time
    {
      counter := current;
      now := time;
    }

    /** apptimer_schedule, up to the callbacks. */
    method Sweep(elapsed: nat)
      requires Valid() && 1 <= elapsed < 0x1_0000_0000
      modifies this`heads, this`active, this`place, this`due, this`counter, this`now
      ensures Valid() && due == old(due) && now == old(now) + elapsed
      ensures place == Resorted(old(place), ScannedSet(old(counter), elapsed), counter, timers)
    {
      hide Holds, Sound;
      var previous := counter;
      var current: Word := (previous + elapsed) % MOD;
      WrapAdd(now, elapsed);
      FarRange(previous, elapsed);
      ScannedSetIs(previous, elapsed);
      SetCounter(current, now + elapsed);
      SweepWheels(FarWheel(previous, current), FarSlot(previous, current), elapsed);
    }

    /** apptimer_schedule. Nothing ever fires early, and the deadline list changes exactly
        as the fired timers require. From a state that is on time, a covered advance fires
        exactly the timers whose deadline has come, and the wheel is on time again. */
    method Schedule(elapsed: nat) returns (fired: seq<Id>)
      requires Valid() && 1 <= elapsed < 0x1_0000_0000
      modifies this
      ensures Valid() && now == old(now) + elapsed && SameSettings(timers, old(timers))
      ensures forall id :: multiset(fired)[id] <= 1
      ensures Elements(fired) <= DueSet(old(due), now)
      ensures due == Rearm(old(due), Elements(fired), old(timers), now)
      ensures old(OnTime(now, place, due)) && elapsed < 0x8000_0000 && Covered(old(counter), elapsed) ==>
                Elements(fired) == DueSet(old(due), now) && OnTime(now, place, due)
      ensures LeftAlone(old(place), place, fired, ScannedSet(old(counter), elapsed))
    {
      hide LeftAlone;
      AllPlaced(heads, place);
      ghost var start := now;
      Sweep(elapsed);
      ghost var sorted := place;
      PendingIsDue(heads, counter, now, place, due, timers);
      fired := RunPending();
      Unvisited(old(place), ScannedSet(old(counter), elapsed), counter, old(due), old(timers), sorted, fired,
                timers, place, due);
      if old(OnTime(now, place, due)) && elapsed <= MAX_TIMEOUT && Covered(old(counter), elapsed) {
        ScheduleIsExact(start, elapsed, now, old(counter), old(place), old(due), old(timers),
                        sorted, fired, counter, timers, place, due);
      }
    }
  }

  /** The list insert_timer_into_wheel chooses. */
  function PlaceFor(counter: Word, goal: Word): Place {
    if Expired(goal, counter) then Pending else SlotFor(counter, goal)
  }

  lemma PlaceForSound(now: nat, due: nat)
    requires due <= now + MAX_TIMEOUT
    ensures var p := PlaceFor(now % MOD, due % MOD);
            p != Moving && IsPlace(p) && (p == Pending ==> due <= now)
  {
    if Expired(due % MOD, now % MOD) {
      ExpiredIsDue(now, due);
    } else {
      SlotForRange(now, due);
    }
  }

  /** A timer that is not long overdue goes where it belongs. */
  lemma PlaceForFits(now: nat, due: nat)
    requires due <= now + MAX_TIMEOUT && now < due + 0x8000_0000
    ensures var p := PlaceFor(now % MOD, due % MOD);
            && (p == Pending <==> due <= now)
            && (p.Slot? ==> Fits(now, p.wheel, p.slot, due))
  {
    if due > now {
      SlotForFits(now, due);
    } else {
      RecentIsExpired(now, due);
    }
  }

  /** The timers of the lists `from` are on the temporary list. */
  ghost function Moved(place: map<Id, Place>, from: set<Place>): map<Id, Place> {
    map id | id in place :: if place[id] in from then Moving else place[id]
  }

  lemma ExpiredIsDue(now: nat, due: nat)
    requires due <= now + MAX_TIMEOUT && Expired(due % MOD, now % MOD)
    ensures due <= now
  {
    if now < due { SlotForValue(now, due); }
  }

  lemma RecentIsExpired(now: nat, due: nat)
    requires due <= now < due + 0x8000_0000
    ensures Expired(due % MOD, now % MOD)
  {
    assert (now % MOD - due % MOD) % MOD == now - due;
  }

  lemma SlotForRange(now: nat, due: nat)
    requires due <= now + MAX_TIMEOUT && !Expired(due % MOD, now % MOD)
    ensures var p := SlotFor(now % MOD, due % MOD); p.Slot? && p.wheel < 5 && p.slot < 8
  {
    var delta := (due % MOD - now % MOD) % MOD;
    var x := delta + now % MOD % 8;
    assert 0 < delta <= 0x8000_0000;
    WheelIndexRange(x);
  }

  lemma SizeWithout(m: map<Id, Place>, id: Id)
    requires id in m
    ensures |m| == |m - {id}| + 1
  {
    assert (m - {id}).Keys == m.Keys - {id};
    assert |m.Keys| == |m.Keys - {id}| + 1;
    assert |m| == |m.Keys| && |m - {id}| == |(m - {id}).Keys|;
  }

  /** Slots lo..hi of a wheel. */
  ghost function Slots(wheel: nat, lo: int, hi: int): set<Place> {
    set s: nat | lo <= s <= hi :: Slot(wheel, s)
  }

  lemma SlotsNone(wheel: nat, lo: int, hi: int)
    requires lo > hi
    ensures Slots(wheel, lo, hi) == {}
  {
  }

  lemma SlotsFrom(wheel: nat, i: nat, lo: int, hi: int)
    requires i == lo || (i == 0 && lo < 0)
    ensures Slots(wheel, i, hi) == Slots(wheel, lo, hi)
  {
  }

  lemma SlotsStep(wheel: nat, lo: nat, next: nat, hi: nat)
    requires lo <= hi && next == lo + 1
    ensures Slots(wheel, lo, hi) == Slots(wheel, next, hi) + {Slot(wheel, lo)}
  {
  }

  lemma TimedWithout(counter: Word, now: nat, place: map<Id, Place>, due: map<Id, nat>, timers: map<Id, Timer>, id: Id)
    requires Timed(counter, now, place, due, timers)
    ensures Timed(counter, now, place - {id}, due - {id}, timers)
    ensures id in due ==> (due - {id})[id := due[id]] == due
  {
  }


  lemma {:induction false} RemoveMiddle(a: seq<Id>, id: Id, b: seq<Id>)
    requires id !in a
    ensures Remove(a + [id] + b, id) == a + b
  {
    var list := a + [id] + b;
    if a == [] {
      assert list[1..] == b;
    } else {
      assert list[1..] == a[1..] + [id] + b;
      RemoveMiddle(a[1..], id, b);
      assert [a[0]] + (a[1..] + b) == a + b;
    }
  }

  /** No timer occurs twice in a list. */
  lemma OnceOnly(list: seq<Id>, place: map<Id, Place>, j: nat)
    requires Holds(list, Pending, place) && j < |list|
    ensures list[j] !in list[..j] && list[j] !in list[j + 1..]
    ensures list[j..] == [list[j]] + list[j + 1..]
  {
    var id := list[j];
    assert list == list[..j] + [id] + list[j + 1..];
    assert multiset(list)[id] == multiset(list[..j])[id] + 1 + multiset(list[j + 1..])[id];
    assert multiset(list)[id] == Count(place, id, Pending);
  }

  lemma SplitRest(before: seq<Id>, rest: seq<Id>)
    requires rest != []
    ensures before + rest == before + [rest[0]] + rest[1..]
  {
  }

  lemma FirstOfRest(heads: Heads, place: map<Id, Place>, fired: seq<Id>, rest: seq<Id>)
    requires Linked(heads, place) && rest != [] && fired + rest == heads[Pending]
    ensures rest[0] in place && rest[0] !in fired
  {
    var j := |fired|;
    ListedIsLinked(heads, place, Pending, j);
    OnceOnly(heads[Pending], place, j);
    assert heads[Pending][j] == rest[0] && heads[Pending][..j] == fired;
  }

  ghost function Restarted(due: map<Id, nat>, id: Id, timers: map<Id, Timer>, now: nat): map<Id, nat> {
    if id in timers && timers[id].repeat then (due - {id})[id := After(now, timers[id].interval)] else due - {id}
  }

  lemma RearmNone(due: map<Id, nat>, timers: map<Id, Timer>, now: nat)
    requires due.Keys <= timers.Keys
    ensures due == Rearm(due, Elements([]), timers, now)
  {
    var r := Rearm(due, Elements([]), timers, now);
    assert r.Keys == due.Keys;
  }

  lemma RearmStep(due: map<Id, nat>, fired: seq<Id>, timers: map<Id, Timer>, timers': map<Id, Timer>, now: nat, id: Id)
    requires due.Keys <= timers.Keys && id in due && id !in fired && SameSettings(timers', timers)
    ensures Rearm(due, Elements(fired + [id]), timers, now) ==
              Restarted(Rearm(due, Elements(fired), timers, now), id, timers', now)
  {
    assert Elements(fired + [id]) == Elements(fired) + {id};
    var a := Rearm(due, Elements(fired + [id]), timers, now);
    var b := Restarted(Rearm(due, Elements(fired), timers, now), id, timers', now);
    assert a.Keys == b.Keys;
    forall x | x in a ensures a[x] == b[x] { }
  }

  lemma TimedMoving(counter: Word, now: nat, place: map<Id, Place>, due: map<Id, nat>, timers: map<Id, Timer>, id: Id)
    requires Timed(counter, now, place, due, timers) && id in place
    ensures Timed(counter, now, (place - {id})[id := Moving], due, timers)
    ensures (place - {id})[id := Moving] == place[id := Moving]
  {
  }

  lemma MovedNone(place: map<Id, Place>, from: set<Place>)
    requires forall id :: id in place ==> place[id] !in from
    ensures Moved(place, from) == place
  {
    assert Moved(place, from).Keys == place.Keys;
    forall id | id in place ensures Moved(place, from)[id] == place[id] { }
  }

  lemma ResortedNone(place: map<Id, Place>, from: set<Place>, counter: Word, timers: map<Id, Timer>)
    requires place.Keys <= timers.Keys && forall id :: id in place ==> place[id] !in from
    ensures Resorted(place, from, counter, timers) == place
  {
    var r := Resorted(place, from, counter, timers);
    assert r.Keys == place.Keys;
    forall id | id in place ensures r[id] == place[id] { }
  }

  lemma MovedTwice(place: map<Id, Place>, from: set<Place>, p: Place)
    requires p != Moving
    ensures Moved(Moved(place, from), {p}) == Moved(place, from + {p})
  {
    var a, b := Moved(Moved(place, from), {p}), Moved(place, from + {p});
    assert a.Keys == place.Keys && b.Keys == place.Keys;
    forall id | id in place ensures a[id] == b[id] { }
  }

  lemma ResortMoved(place: map<Id, Place>, from: set<Place>, counter: Word, timers: map<Id, Timer>)
    requires place.Keys <= timers.Keys && forall id :: id in place ==> place[id] != Moving
    ensures Resorted(Moved(place, from), {Moving}, counter, timers) == Resorted(place, from, counter, timers)
  {
    var a := Resorted(Moved(place, from), {Moving}, counter, timers);
    var b := Resorted(place, from, counter, timers);
    assert a.Keys == place.Keys && b.Keys == place.Keys;
    forall id | id in place ensures a[id] == b[id] { }
  }

  // ------------------------------------------------------- schedule, as values

  /** Every slot of the wheels below `far`. */
  ghost function WheelSlots(far: nat): set<Place> {
    set w: nat, s: nat | w < far && s < 8 :: Slot(w, s)
  }

  ghost function ScannedSet(previous: Word, elapsed: nat): set<Place>
    requires 1 <= elapsed < MOD
  {
    set w: nat, s: nat | w < 5 && s < 8 && Scanned(previous, elapsed, w, s) :: Slot(w, s)
  }

  lemma WheelSlotsStep(wheel: nat)
    ensures WheelSlots(wheel + 1) == WheelSlots(wheel) + Slots(wheel, 0, 7)
  {
  }

  lemma FarRange(previous: Word, elapsed: nat)
    requires 1 <= elapsed < MOD
    ensures var current: Word := (previous + elapsed) % MOD;
            previous != current && FarWheel(previous, current) < 5 && FarSlot(previous, current) < 8
  {
    var current: Word := (previous + elapsed) % MOD;
    XorZero(previous, current);
    WheelIndexRange(Xor(previous, current));
  }

  lemma ScannedSetIs(previous: Word, elapsed: nat)
    requires 1 <= elapsed < MOD
    ensures var current := (previous + elapsed) % MOD;
            && previous != current
            && var far, slot := FarWheel(previous, current), FarSlot(previous, current);
            ScannedSet(previous, elapsed) == WheelSlots(far) + Slots(far, slot - elapsed + 1, slot)
  {
    FarRange(previous, elapsed);
  }

  /** Sorting again is idempotent, so re-sorting wheel after wheel is one re-sorting. */
  lemma ResortedTwice(place: map<Id, Place>, a: set<Place>, b: set<Place>, counter: Word, timers: map<Id, Timer>)
    requires place.Keys <= timers.Keys
    ensures Resorted(Resorted(place, a, counter, timers), b, counter, timers) == Resorted(place, a + b, counter, timers)
  {
    var x, y := Resorted(Resorted(place, a, counter, timers), b, counter, timers),
      Resorted(place, a + b, counter, timers);
    assert x.Keys == place.Keys && y.Keys == place.Keys;
    forall id | id in place ensures x[id] == y[id] { }
  }

  /** After run_pending_timers: a timer that ran is linked afresh, the others stay put. */
  ghost predicate Relinked(before: map<Id, Place>, after: map<Id, Place>, fired: seq<Id>, counter: Word,
                           timers: map<Id, Timer>) {
    forall id :: id in after && id in timers ==>
      if id in fired then after[id] == PlaceFor(counter, timers[id].goal)
      else id in before && after[id] == before[id]
  }

  lemma RelinkedNone(place: map<Id, Place>, counter: Word, timers: map<Id, Timer>)
    ensures Relinked(place, place, [], counter, timers)
  {
  }

  lemma RelinkedStep(before: map<Id, Place>, place: map<Id, Place>, timers: map<Id, Timer>,
                     place': map<Id, Place>, timers': map<Id, Timer>, fired: seq<Id>, id: Id, counter: Word)
    requires Relinked(before, place, fired, counter, timers)
    requires id in timers' && timers' == timers[id := timers'[id]]
    requires place' == place - {id} || place' == (place - {id})[id := PlaceFor(counter, timers'[id].goal)]
    ensures Relinked(before, place', fired + [id], counter, timers')
  {
    forall x | x in place' && x in timers'
      ensures if x in fired + [id] then place'[x] == PlaceFor(counter, timers'[x].goal)
              else x in before && place'[x] == before[x]
    {
      if x != id {
        assert x in place && place'[x] == place[x] && timers'[x] == timers[x];
      }
    }
  }

  lemma StopKeepsMoving(heads: Heads, place: map<Id, Place>, id: Id)
    requires Linked(heads, place) && id in place && heads[Moving] == []
    ensures place[id] != Moving
  {
    EmptyHoldsNone(heads, place, Moving);
  }

  lemma TimedRestart(counter: Word, now: nat, place: map<Id, Place>, due: map<Id, nat>,
                     timers: map<Id, Timer>, id: Id, timer: Timer)
    requires Timed(counter, now, place, due, timers) && id !in place
    requires timer.interval <= MAX_TIMEOUT && timer.goal == (counter + timer.interval) % MOD
    ensures Timed(counter, now, place, due, timers[id := timer])
    ensures timer.goal == After(now, timer.interval) % MOD
  {
    WrapAdd(now, timer.interval);
  }

  /** What the pending list holds when the callbacks run. */
  lemma PendingIsDue(heads: Heads, counter: Word, now: nat, place: map<Id, Place>, due: map<Id, nat>,
                     timers: map<Id, Timer>)
    requires Linked(heads, place) && Timed(counter, now, place, due, timers)
    ensures forall id :: multiset(heads[Pending])[id] <= 1
    ensures forall id :: id in heads[Pending] <==> id in place && place[id] == Pending
    ensures Elements(heads[Pending]) <= DueSet(due, now)
  {
    forall id
      ensures multiset(heads[Pending])[id] <= 1
      ensures id in heads[Pending] <==> id in place && place[id] == Pending
    {
      assert multiset(heads[Pending])[id] == Count(place, id, Pending);
    }
    forall id | id in Elements(heads[Pending]) ensures id in DueSet(due, now) {
      assert Sound(now, place[id], due[id], timers[id].goal);
    }
  }

  /** Pending means due, and a slot fits. */
  ghost predicate Sorted(now: nat, place: map<Id, Place>, due: map<Id, nat>)
    requires place.Keys == due.Keys
  {
    forall id :: id in place ==>
      && (place[id] == Pending <==> due[id] <= now)
      && (place[id].Slot? ==> Fits(now, place[id].wheel, place[id].slot, due[id]))
  }

  /** A covered advance sorts the wheel for its new time u. */
  lemma SweepIsExact(t: nat, e: nat, u: nat, counter: Word, counter': Word,
                     place: map<Id, Place>, due: map<Id, nat>, timers: map<Id, Timer>)
    requires Timed(counter, t, place, due, timers) && OnTime(t, place, due)
    requires forall id :: id in place ==> IsPlace(place[id]) && place[id] != Moving
    requires 1 <= e <= MAX_TIMEOUT && Covered(counter, e) && u == t + e && counter' == u % MOD
    ensures Sorted(u, Resorted(place, ScannedSet(counter, e), counter', timers), due)
  {
    var after := Resorted(place, ScannedSet(counter, e), counter', timers);
    forall id | id in after
      ensures after[id] == Pending <==> due[id] <= u
      ensures after[id].Slot? ==> Fits(u, after[id].wheel, after[id].slot, due[id])
    {
      assert Sound(t, place[id], due[id], timers[id].goal);
      SweepOne(t, e, place[id], due[id]);
    }
  }

  lemma FiredIsDue(u: nat, sorted: map<Id, Place>, due: map<Id, nat>, fired: seq<Id>)
    requires sorted.Keys == due.Keys && Sorted(u, sorted, due)
    requires forall id :: id in fired <==> id in sorted && sorted[id] == Pending
    ensures Elements(fired) == DueSet(due, u)
  {
    forall id ensures id in Elements(fired) <==> id in DueSet(due, u) {
      assert id in Elements(fired) <==> id in fired;
    }
  }

  lemma SweepOne(t: nat, e: nat, p: Place, due: nat)
    requires 1 <= e <= MAX_TIMEOUT && Covered(t % MOD, e)
    requires IsPlace(p) && p != Moving && t <= due <= t + MAX_TIMEOUT && (p == Pending ==> due <= t)
    requires p.Slot? ==> Fits(t, p.wheel, p.slot, due)
    ensures var q := if p in ScannedSet(t % MOD, e) then PlaceFor((t + e) % MOD, due % MOD) else p;
            && (q == Pending <==> due <= t + e)
            && (q.Slot? ==> Fits(t + e, q.wheel, q.slot, due))
  {
    if p in ScannedSet(t % MOD, e) {
      PlaceForFits(t + e, due);
      PlaceForSound(t + e, due);
    } else if p.Slot? {
      assert p == Slot(p.wheel, p.slot);
      StillFits(t, e, p.wheel, p.slot, due);
      FitsIsFuture(t + e, p.wheel, p.slot, due);
    }
  }

  /** Running the due timers leaves the wheel on time. */
  lemma RunIsExact(now: nat, sorted: map<Id, Place>, due: map<Id, nat>, fired: seq<Id>, timers: map<Id, Timer>,
                   counter: Word, timers': map<Id, Timer>, place': map<Id, Place>, due': map<Id, nat>)
    requires sorted.Keys == due.Keys <= timers.Keys && Sorted(now, sorted, due)
    requires Elements(fired) == DueSet(due, now)
    requires due' == Rearm(due, Elements(fired), timers, now)
    requires Timed(counter, now, place', due', timers') && Relinked(sorted, place', fired, counter, timers')
    ensures OnTime(now, place', due')
  {
    forall id | id in place'
      ensures due'[id] >= now
      ensures place'[id].Slot? ==> Fits(now, place'[id].wheel, place'[id].slot, due'[id])
    {
      assert Sound(now, place'[id], due'[id], timers'[id].goal);
      if id in fired {
        assert due'[id] == After(now, timers[id].interval);
        PlaceForFits(now, due'[id]);
      } else {
        assert id !in DueSet(due, now);
      }
    }
  }

  lemma AllPlaced(heads: Heads, place: map<Id, Place>)
    requires Linked(heads, place) && heads[Moving] == []
    ensures forall id :: id in place ==> IsPlace(place[id]) && place[id] != Moving
  {
    EmptyHoldsNone(heads, place, Moving);
  }

  /** apptimer_schedule as a whole, from and to a wheel that is on time. */
  lemma ScheduleIsExact(t: nat, e: nat, u: nat, counter: Word,
                        place: map<Id, Place>, due: map<Id, nat>, timers: map<Id, Timer>,
                        sorted: map<Id, Place>, fired: seq<Id>,
                        counter': Word, timers': map<Id, Timer>, place': map<Id, Place>, due': map<Id, nat>)
    requires Timed(counter, t, place, due, timers) && 1 <= e <= MAX_TIMEOUT && u == t + e
    requires forall id :: id in place ==> IsPlace(place[id]) && place[id] != Moving
    requires sorted == Resorted(place, ScannedSet(counter, e), counter', timers)
    requires forall id :: id in fired <==> id in sorted && sorted[id] == Pending
    requires due' == Rearm(due, Elements(fired), timers, u)
    requires Timed(counter', u, place', due', timers') && Relinked(sorted, place', fired, counter', timers')
    requires OnTime(t, place, due) && Covered(counter, e)
    ensures Elements(fired) == DueSet(due, u) && OnTime(u, place', due')
  {
    assert counter' == u % MOD;
    SweepIsExact(t, e, u, counter, counter', place, due, timers);
    FiredIsDue(u, sorted, due, fired);
    RunIsExact(u, sorted, due, fired, timers, counter', timers', place', due');
  }

  /** Timers in slots that are not re-sorted neither run nor move. */
  ghost predicate LeftAlone(before: map<Id, Place>, after: map<Id, Place>, fired: seq<Id>, from: set<Place>) {
    forall id :: id in before && before[id].Slot? && before[id] !in from ==>
      id !in fired && id in after && after[id] == before[id]
  }

  lemma Unvisited(place: map<Id, Place>, from: set<Place>, counter: Word, due: map<Id, nat>, timers: map<Id, Timer>,
                  sorted: map<Id, Place>, fired: seq<Id>,
                  timers': map<Id, Timer>, place': map<Id, Place>, due': map<Id, nat>)
    requires place.Keys == due.Keys <= timers.Keys && sorted == Resorted(place, from, counter, timers)
    requires forall id :: id in fired <==> id in sorted && sorted[id] == Pending
    requires place'.Keys == due'.Keys <= timers'.Keys && Relinked(sorted, place', fired, counter, timers')
    requires forall id :: id in due && id !in fired ==> id in due'
    ensures LeftAlone(place, place', fired, from)
  {
  }

  lemma OnTimeStart(now: nat, place: map<Id, Place>, due: map<Id, nat>, id: Id, timeout: nat)
    requires place.Keys == due.Keys && id !in place && timeout <= MAX_TIMEOUT
    ensures var deadline := After(now, timeout);
            OnTime(now, place, due) ==>
              OnTime(now, place[id := PlaceFor(now % MOD, deadline % MOD)], due[id := deadline])
  {
    PlaceForFits(now, After(now, timeout));
    PlaceForSound(now, After(now, timeout));
  }

  // ------------------------------------------------------------- whole runs

  datatype Op = Create(id: Id, repeat: bool) | Start(id: Id, timeout: nat) | Stop(id: Id) | Advance(elapsed: nat)

  datatype Settings = Settings(repeat: bool, interval: nat)

  /** The reference: time, deadlines, and each timer's settings. */
  datatype Plain = Plain(now: nat, due: map<Id, nat>, settings: map<Id, Settings>)

  /** What callers may do, and advances that stay covered. */
  ghost predicate Legal(p: Plain, op: Op) {
    match op
    case Create(id, _) => id !in p.due
    case Start(id, _) => id in p.settings
    case Stop(_) => true
    case Advance(e) => 1 <= e < 0x8000_0000 && Covered(p.now % MOD, e)
  }

  ghost function Fires(p: Plain, op: Op): set<Id> {
    if op.Advance? then DueSet(p.due, p.now + op.elapsed) else {}
  }

  ghost function Step(p: Plain, op: Op): Plain {
    match op
    case Create(id, repeat) => p.(settings := p.settings[id := Settings(repeat, 0)])
    case Start(id, timeout) =>
      if id in p.due || id !in p.settings || timeout >= 0x8000_0000 then p
      else p.(due := p.due[id := After(p.now, timeout)],
              settings := p.settings[id := Settings(p.settings[id].repeat, timeout)])
    case Stop(id) => p.(due := p.due - {id})
    case Advance(e) =>
      var fired := Fires(p, op);
      Plain(p.now + e,
            map id | id in p.due && (id !in fired || (id in p.settings && p.settings[id].repeat)) ::
              if id in fired then After(p.now + e, p.settings[id].interval) else p.due[id],
            p.settings)
  }

  ghost predicate LegalRun(p: Plain, ops: seq<Op>)
    decreases |ops|
  {
    ops == [] || (Legal(p, ops[0]) && LegalRun(Step(p, ops[0]), ops[1..]))
  }

  ghost function RunFires(p: Plain, ops: seq<Op>): seq<set<Id>>
    decreases |ops|
  {
    if ops == [] then [] else [Fires(p, ops[0])] + RunFires(Step(p, ops[0]), ops[1..])
  }

  ghost function SettingsOf(timers: map<Id, Timer>): map<Id, Settings> {
    map id | id in timers :: Settings(timers[id].repeat, timers[id].interval)
  }

  ghost function ViewOf(now: nat, due: map<Id, nat>, timers: map<Id, Timer>): Plain {
    Plain(now, due, SettingsOf(timers))
  }

  lemma SameSettingsOf(a: map<Id, Timer>, b: map<Id, Timer>)
    requires SameSettings(a, b)
    ensures SettingsOf(a) == SettingsOf(b)
  {
    assert SettingsOf(a).Keys == SettingsOf(b).Keys;
    forall id | id in a ensures SettingsOf(a)[id] == SettingsOf(b)[id] { }
  }

  lemma SettingsUpdate(timers: map<Id, Timer>, id: Id, timer: Timer)
    ensures SettingsOf(timers[id := timer]) == SettingsOf(timers)[id := Settings(timer.repeat, timer.interval)]
  {
    var a, b := SettingsOf(timers[id := timer]), SettingsOf(timers)[id := Settings(timer.repeat, timer.interval)];
    assert a.Keys == b.Keys;
    forall x | x in a ensures a[x] == b[x] { }
  }

  lemma AdvanceView(now: nat, due: map<Id, nat>, timers: map<Id, Timer>, e: nat, fired: seq<Id>,
                    due': map<Id, nat>, timers': map<Id, Timer>)
    requires due.Keys <= timers.Keys && Elements(fired) == DueSet(due, now + e)
    requires due' == Rearm(due, Elements(fired), timers, now + e) && SameSettings(timers', timers)
    ensures ViewOf(now + e, due', timers') == Step(ViewOf(now, due, timers), Advance(e))
  {
    SameSettingsOf(timers', timers);
    var due'' := Step(ViewOf(now, due, timers), Advance(e)).due;
    assert due'.Keys == due''.Keys;
    forall id | id in due' ensures due'[id] == due''[id] { }
  }

  /** One call on the wheel is one step of the reference. */
  method Apply(wheel: TimerWheel, op: Op) returns (fired: seq<Id>)
    requires wheel.Valid() && OnTime(wheel.now, wheel.place, wheel.due)
    requires Legal(ViewOf(wheel.now, wheel.due, wheel.timers), op)
    modifies wheel
    ensures wheel.Valid() && OnTime(wheel.now, wheel.place, wheel.due)
    ensures var before := old(ViewOf(wheel.now, wheel.due, wheel.timers));
            && Elements(fired) == Fires(before, op)
            && ViewOf(wheel.now, wheel.due, wheel.timers) == Step(before, op)
  {
    if op.Advance? {
      fired := ApplyAdvance(wheel, op.elapsed);
    } else {
      ApplyOther(wheel, op);
      fired := [];
    }
  }

  method ApplyOther(wheel: TimerWheel, op: Op)
    requires wheel.Valid() && OnTime(wheel.now, wheel.place, wheel.due)
    requires Legal(ViewOf(wheel.now, wheel.due, wheel.timers), op) && !op.Advance?
    modifies wheel
    ensures wheel.Valid() && OnTime(wheel.now, wheel.place, wheel.due)
    ensures ViewOf(wheel.now, wheel.due, wheel.timers) == Step(old(ViewOf(wheel.now, wheel.due, wheel.timers)), op)
  {
    match op {
      case Create(id, repeat) =>
        SettingsUpdate(wheel.timers, id, Timer(0, 0, repeat));
        wheel.Create(id, repeat);
      case Start(id, timeout) =>
        ghost var timers := wheel.timers;
        var error := wheel.Start(Some(id), timeout);
        if error == Success {
          SettingsUpdate(timers, id, wheel.timers[id]);
        }
      case Stop(id) => wheel.Stop(id);
    }
  }

  method ApplyAdvance(wheel: TimerWheel, e: nat) returns (fired: seq<Id>)
    requires wheel.Valid() && OnTime(wheel.now, wheel.place, wheel.due)
    requires 1 <= e <= MAX_TIMEOUT && Covered(wheel.counter, e)
    modifies wheel
    ensures wheel.Valid() && OnTime(wheel.now, wheel.place, wheel.due)
    ensures var before := old(ViewOf(wheel.now, wheel.due, wheel.timers));
            && Elements(fired) == Fires(before, Advance(e))
            && ViewOf(wheel.now, wheel.due, wheel.timers) == Step(before, Advance(e))
  {
    ghost var now, due, timers := wheel.now, wheel.due, wheel.timers;
    fired := wheel.Schedule(e);
    AdvanceView(now, due, timers, e, fired, wheel.due, wheel.timers);
  }

  /** Over every legal run the wheel fires, call by call, exactly what a plain list of
      deadlines fires. */
  method RunAll(wheel: TimerWheel, ops: seq<Op>) returns (fired: seq<seq<Id>>)
    requires wheel.Valid() && OnTime(wheel.now, wheel.place, wheel.due)
    requires LegalRun(ViewOf(wheel.now, wheel.due, wheel.timers), ops)
    modifies wheel
    ensures wheel.Valid()
    ensures |fired| == |ops|
    ensures var expected := RunFires(old(ViewOf(wheel.now, wheel.due, wheel.timers)), ops);
            |expected| == |ops| && forall i :: 0 <= i < |ops| ==> Elements(fired[i]) == expected[i]
    decreases |ops|
  {
    if ops == [] {
      fired := [];
    } else {
      var first := Apply(wheel, ops[0]);
      var rest := RunAll(wheel, ops[1..]);
      fired := [first] + rest;
    }
  }
}
