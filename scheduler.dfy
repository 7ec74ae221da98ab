/** The turn scheduler: Dungeon::gameLoop and the event loop of the C main.

    Each live character has an event in a priority queue ordered by time;
    the earliest event runs that character's turn and is scheduled again
    1000 / speed later. The key stream and the random stream are
    parameters, and a step budget bounds the loop, which the source runs
    until an end condition holds. */
module Scheduler {
  import opened Grid
  import opened Heap
  import opened Level
  import opened Actors
  import opened Player

  datatype Event = Event(time: int, who: nat)

  function EventTime(e: Event): int {
    e.time
  }

  /** Why the loop stopped. The last three are the model's: the keys or the
      random teleport's draws ran out, a random monster step was drawn off
      the grid (the source then indexes outside its arrays), or the step
      budget was spent. */
  datatype Outcome = PcDied | MonstersGone | FloorChanged | QueueEmpty | InputEnded | OffGrid | OutOfSteps

  /** The roster's only PC is entry self. */
  predicate LonePc(cs: seq<Character>, self: int) {
    0 <= self < |cs| && cs[self].kind == PCKind &&
    forall i :: 0 <= i < |cs| && i != self ==> cs[i].kind == NPCKind
  }

  /** cs2 has the characters of cs1: same number, kinds and speeds. */
  predicate SameCast(cs1: seq<Character>, cs2: seq<Character>) {
    |cs2| == |cs1| && forall i :: 0 <= i < |cs1| ==> cs2[i].kind == cs1[i].kind && cs2[i].speed == cs1[i].speed
  }

  lemma SameCastTrans(cs1: seq<Character>, cs2: seq<Character>, cs3: seq<Character>)
    requires SameCast(cs1, cs2) && SameCast(cs2, cs3)
    ensures SameCast(cs1, cs3)
  {
  }

  predicate PositiveSpeeds(cs: seq<Character>) {
    forall i :: 0 <= i < |cs| ==> cs[i].speed > 0
  }

  /** What the loop keeps true of the level between turns. With syncPc it
      also keeps the recorded PC position (pc_x, pc_y) on the live PC, which
      the loop as written in Dungeon.cpp does not. */
  ghost predicate Playable(d: Dungeon, self: int, syncPc: bool)
    reads d, d.pc
  {
    d.Valid() && Placed(Snap(d), self) && d.RosterInBounds() && LonePc(d.characters, self) &&
    PositiveSpeeds(d.characters) && InBounds(d.pcX, d.pcY) &&
    (syncPc && d.pcIsAlive ==> d.pcX == d.characters[self].x && d.pcY == d.characters[self].y)
  }

  /** The PC stands on a staircase of the base map. */
  ghost predicate OnStairs(d: Dungeon, self: int)
    reads d, d.baseMap
    requires d.baseMap.Length == CELLS && 0 <= self < |d.characters| && InBounds(d.characters[self].x, d.characters[self].y)
  {
    d.baseMap[Idx(d.characters[self].x, d.characters[self].y)] == '<' ||
    d.baseMap[Idx(d.characters[self].x, d.characters[self].y)] == '>'
  }

  /** The time at which a character that just acted at now acts again. */
  function NextTime(now: int, speed: int): (t: int)
    requires speed > 0
    ensures now <= t <= now + 1000
    ensures speed <= 1000 ==> now < t
  {
    now + 1000 / speed
  }

  /** Every queued event is for a roster entry and not earlier than now. */
  ghost predicate QueueOk(q: seq<Event>, n: int, now: int) {
    forall e :: e in q ==> e.who < n && now <= e.time
  }

  /** The C++ queue as both loops keep it. */
  ghost predicate Queued(q: MinHeap<Event>, n: int, now: int)
    reads q
  {
    q.Valid() && q.key == EventTime && QueueOk(q.elems, n, now)
  }

  /** The C queue as its loop keeps it: no more events than characters,
      so an insert always finds room. */
  ghost predicate QueuedC(q: BoundedHeap<Event>, n: int, now: int)
    reads q, q.data
  {
    q.Valid() && q.key == EventTime && q.size <= n <= q.data.Length && QueueOk(q.Elems(), n, now)
  }

  /** One monster's turn, run only when its random step stays on the grid. */
  method MonsterEvent(d: Dungeon, self: int, who: nat, rnd: nat -> nat, rpos: nat, ghost syncPc: bool) returns (rnext: nat, ok: bool)
    requires Playable(d, self, syncPc) && who < |d.characters| && who != self && !d.changedFloor
    modifies d, d.hardness, d.baseMap
    ensures Playable(d, self, syncPc) && SameCast(old(d.characters), d.characters) && !d.changedFloor
    ensures d.characters[self] == old(d.characters[self]) && unchanged(d.pc) && d.pcX == old(d.pcX) && d.pcY == old(d.pcY)
    ensures !ok ==> rnext == rpos && d.characters == old(d.characters) && d.pcIsAlive == old(d.pcIsAlive)
  {
    var c := d.characters[who];
    if c.alive && !ErraticOnGrid(c, rnd, rpos) {
      return rpos, false;
    }
    var tx, ty;
    rnext, tx, ty := NpcTurn(d, who, rnd, rpos);
    ok := true;
  }

  /** The PC's turn. Without syncPc it is PC::doTurn as the loop calls it,
      which leaves the recorded PC position where it was; with syncPc it is
      the corrected turn that moves the recorded position with the PC. */
  method PlayerEvent(d: Dungeon, self: int, keys: seq<char>, kpos: nat, rnd: nat -> nat, rpos: nat, fuel: nat,
                     syncPc: bool)
    returns (knext: nat, rnext: nat, ok: bool)
    requires Playable(d, self, syncPc) && kpos <= |keys| && !d.changedFloor
    modifies d, d.pc, d.display, d.disTunneling, d.disNonTunneling, d.pc.rememberedMap
    ensures Playable(d, self, syncPc) && SameCast(old(d.characters), d.characters) && unchanged(d.hardness, d.baseMap)
    ensures knext <= |keys| && (d.changedFloor ==> OnStairs(d, self))
    ensures !syncPc ==> d.pcX == old(d.pcX) && d.pcY == old(d.pcY)
    ensures !ok ==> d.characters == old(d.characters) && d.pcIsAlive == old(d.pcIsAlive) && !d.changedFloor
  {
    var last, land;
    if syncPc {
      knext, rnext, ok, last, land := PcTurnSynced(d, self, keys, kpos, rnd, rpos, fuel);
    } else {
      knext, rnext, ok, last, land := PcTurn(d, self, keys, kpos, rnd, rpos, fuel);
    }
    if knext > |keys| {
      knext := |keys|;
    }
  }

  /** The queue the loop starts from: an event at time 0 for every live
      character. */
  method StartQueue(cs: seq<Character>) returns (q: MinHeap<Event>)
    ensures fresh(q) && q.Valid() && q.key == EventTime && QueueOk(q.elems, |cs|, 0)
    ensures forall i :: 0 <= i < |cs| ==> (Event(0, i) in q.elems <==> cs[i].alive)
  {
    q := new MinHeap<Event>(EventTime);
    for i := 0 to |cs|
      invariant q.Valid() && q.key == EventTime && QueueOk(q.elems, i, 0)
      invariant forall j :: 0 <= j < i ==> (Event(0, j) in q.elems <==> cs[j].alive)
    {
      ghost var before := q.elems;
      if cs[i].alive {
        q.Push(Event(0, i));
      }
      forall e ensures e in q.elems <==> e in before || (cs[i].alive && e == Event(0, i)) {
        assert e in q.elems <==> e in multiset(q.elems);
        assert e in before <==> e in multiset(before);
      }
    }
  }

  /** After the earliest event is taken out, every remaining event is for
      a roster entry and not earlier than the one taken. */
  lemma PopKeepsQueue(before: seq<Event>, after: seq<Event>, top: Event, n: int, now: int)
    requires QueueOk(before, n, now) && top in before
    requires forall e :: e in before ==> top.time <= e.time
    requires multiset(after) == multiset(before) - multiset{top}
    ensures QueueOk(after, n, top.time) && now <= top.time
  {
    forall e | e in after ensures e in before {
      assert e in multiset(after);
    }
  }

  /** Queueing an event for a roster entry, not earlier than now, keeps the
      queue in order with now. */
  lemma PushKeepsQueue(before: seq<Event>, after: seq<Event>, e: Event, n: int, now: int)
    requires QueueOk(before, n, now) && e.who < n && now <= e.time
    requires multiset(after) == multiset(before) + multiset{e}
    ensures QueueOk(after, n, now)
  {
    forall x | x in after ensures x in before || x == e {
      assert x in multiset(after);
    }
  }

  /** The turn of the character of one event, then its next event. stop
      says the loop ends here; outcome then says why. */
  method RunEvent(d: Dungeon, self: int, q: MinHeap<Event>, who: nat, now: int, keys: seq<char>, kpos: nat,
                  rnd: nat -> nat, rpos: nat, fuel: nat, syncPc: bool)
    returns (knext: nat, rnext: nat, stop: bool, outcome: Outcome)
    requires Playable(d, self, syncPc) && who < |d.characters| && d.characters[who].alive && kpos <= |keys|
    requires d.pcIsAlive && !d.changedFloor
    requires q.Valid() && q.key == EventTime && QueueOk(q.elems, |d.characters|, now)
    modifies d, d.pc, d.display, d.disTunneling, d.disNonTunneling, d.pc.rememberedMap, d.hardness, d.baseMap, q
    ensures Playable(d, self, syncPc) && SameCast(old(d.characters), d.characters) && knext <= |keys|
    ensures q.Valid() && q.key == EventTime && QueueOk(q.elems, |d.characters|, now)
    ensures d.changedFloor ==> OnStairs(d, self)
    ensures !syncPc ==> d.pcX == old(d.pcX) && d.pcY == old(d.pcY)
    ensures !stop ==> d.pcIsAlive
    ensures stop ==> (outcome == PcDied <==> !d.pcIsAlive) && (outcome != PcDied ==> !d.changedFloor) &&
                     outcome != MonstersGone && outcome != FloorChanged
  {
    var ok;
    knext, rnext := kpos, rpos;
    if d.characters[who].kind == PCKind {
      knext, rnext, ok := PlayerEvent(d, self, keys, kpos, rnd, rpos, fuel, syncPc);
      if !ok {
        return knext, rnext, true, InputEnded;
      }
    } else {
      rnext, ok := MonsterEvent(d, self, who, rnd, rpos, syncPc);
      if !ok {
        return knext, rnext, true, OffGrid;
      }
    }
    if !d.pcIsAlive {
      return knext, rnext, true, PcDied;
    }
    stop, outcome := false, QueueEmpty;
    if d.characters[who].alive && !d.changedFloor {
      var e := Event(NextTime(now, d.characters[who].speed), who);
      ghost var before := q.elems;
      q.Push(e);
      PushKeepsQueue(before, q.elems, e, |d.characters|, now);
    }
  }

  /** Take the earliest event and run its character's turn if that
      character is alive; t is the event's time. */
  method Tick(d: Dungeon, self: int, q: MinHeap<Event>, now: int, keys: seq<char>, kpos: nat,
              rnd: nat -> nat, rpos: nat, fuel: nat, syncPc: bool)
    returns (t: int, knext: nat, rnext: nat, stop: bool, outcome: Outcome)
    requires Playable(d, self, syncPc) && d.pcIsAlive && !d.changedFloor && kpos <= |keys|
    requires Queued(q, |d.characters|, now) && q.elems != []
    modifies d, d.pc, d.display, d.disTunneling, d.disNonTunneling, d.pc.rememberedMap, d.hardness, d.baseMap, q
    ensures Playable(d, self, syncPc) && SameCast(old(d.characters), d.characters) && knext <= |keys| && now <= t
    ensures Queued(q, |d.characters|, t)
    ensures d.changedFloor ==> OnStairs(d, self)
    ensures !syncPc ==> d.pcX == old(d.pcX) && d.pcY == old(d.pcY)
    ensures !stop ==> d.pcIsAlive
    ensures stop ==> (outcome == PcDied <==> !d.pcIsAlive) && (outcome != PcDied ==> !d.changedFloor) &&
                     outcome != MonstersGone && outcome != FloorChanged
  {
    ghost var before := q.elems;
    var e := q.Pop();
    PopKeepsQueue(before, q.elems, e, |d.characters|, now);
    t := e.time;
    knext, rnext, stop, outcome := kpos, rpos, false, QueueEmpty;
    if d.characters[e.who].alive {
      knext, rnext, stop, outcome := RunEvent(d, self, q, e.who, t, keys, kpos, rnd, rpos, fuel, syncPc);
    }
  }

  /** times is in order and ends no later than now. */
  ghost predicate Chrono(times: seq<int>, now: int) {
    (forall i, j :: 0 <= i < j < |times| ==> times[i] <= times[j]) &&
    (forall i :: 0 <= i < |times| ==> times[i] <= now)
  }

  lemma ChronoExtend(times: seq<int>, now: int, t: int)
    requires Chrono(times, now) && now <= t
    ensures Chrono(times + [t], t) && (times + [t])[|times|] == t
  {
  }

  /** Dungeon::gameLoop: queue every live character at time 0, then run the
      earliest event while the queue is not empty, the PC lives, some
      monster lives and the floor has not changed; a character still alive
      after its turn is queued again at NextTime unless the floor changed.
      times lists the times of the events that ran, in order. syncPc false
      is the loop as written; syncPc true runs the corrected PC turn. */
  method GameLoop(d: Dungeon, self: int, keys: seq<char>, rnd: nat -> nat, fuel: nat, steps: nat, syncPc: bool)
    returns (outcome: Outcome, ghost times: seq<int>)
    requires Playable(d, self, syncPc)
    modifies d, d.pc, d.display, d.disTunneling, d.disNonTunneling, d.pc.rememberedMap, d.hardness, d.baseMap
    ensures Playable(d, self, syncPc) && SameCast(old(d.characters), d.characters)
    ensures outcome == PcDied <==> !d.pcIsAlive
    ensures !syncPc ==> d.pcX == old(d.pcX) && d.pcY == old(d.pcY)
    ensures outcome == MonstersGone ==> NumAliveMonsters(d.characters) == 0
    ensures outcome == FloorChanged ==> d.changedFloor && OnStairs(d, self)
    ensures outcome != FloorChanged && outcome != PcDied ==> !d.changedFloor
    ensures forall i, j :: 0 <= i < j < |times| ==> times[i] <= times[j]
  {
    var q := StartQueue(d.characters);
    var alive := d.CountMonsters();
    d.changedFloor := false;
    ghost var cs0 := d.characters;
    var kpos: nat, rpos: nat, budget := 0, 0, steps;
    var now := 0;
    times := [];
    while !q.Empty() && d.pcIsAlive && alive > 0 && !d.changedFloor && budget > 0
      invariant Playable(d, self, syncPc) && SameCast(cs0, d.characters) && fresh(q)
      invariant Queued(q, |d.characters|, now) && kpos <= |keys|
      invariant alive == NumAliveMonsters(d.characters)
      invariant d.changedFloor ==> OnStairs(d, self)
      invariant Chrono(times, now)
      invariant !syncPc ==> d.pcX == old(d.pcX) && d.pcY == old(d.pcY)
      decreases budget
    {
      budget := budget - 1;
      var t, stop;
      ghost var cs1 := d.characters;
      t, kpos, rpos, stop, outcome := Tick(d, self, q, now, keys, kpos, rnd, rpos, fuel, syncPc);
      SameCastTrans(cs0, cs1, d.characters);
      ChronoExtend(times, now, t);
      times, now := times + [t], t;
      if stop {
        return outcome, times;
      }
      alive := d.CountMonsters();
    }
    if !d.pcIsAlive {
      outcome := PcDied;
    } else if d.changedFloor {
      outcome := FloorChanged;
    } else if alive == 0 {
      outcome := MonstersGone;
    } else if q.Empty() {
      outcome := QueueEmpty;
    } else {
      outcome := OutOfSteps;
    }
  }

  // The C main loop.

  /** What the C loop keeps true between turns: the C input tests the PC's
      own entry even after the PC died. */
  ghost predicate PlayableC(d: Dungeon, self: int)
    reads d, d.pc
  {
    d.Valid() && d.RosterInBounds() && LonePc(d.characters, self) && PositiveSpeeds(d.characters) &&
    InBounds(d.characters[self].x, d.characters[self].y) && InBounds(d.pcX, d.pcY) &&
    (d.pcIsAlive ==> d.pcX == d.characters[self].x && d.pcY == d.characters[self].y)
  }

  /** handle_pc_input, then, while the PC lives, pc_x, pc_y follow it and
      both distance fields are recomputed from there. stairs reports a stair
      key pressed on its staircase. */
  method PlayerEventC(d: Dungeon, self: int, keys: seq<char>, kpos: nat)
    returns (knext: nat, ok: bool, stairs: bool)
    requires PlayableC(d, self) && kpos <= |keys|
    modifies d, d.display, d.disTunneling, d.disNonTunneling
    ensures PlayableC(d, self) && SameCast(old(d.characters), d.characters) && knext <= |keys|
    ensures unchanged(d.hardness, d.baseMap) && d.changedFloor == old(d.changedFloor)
    ensures stairs ==> d.characters == old(d.characters) && d.pcIsAlive == old(d.pcIsAlive) && OnStairs(d, self)
    ensures !ok ==> d.characters == old(d.characters) && d.pcIsAlive == old(d.pcIsAlive) && !stairs
  {
    knext, ok, stairs := PcInputC(d, self, keys, kpos);
    if ok {
      InputCKeepsShape(old(d.display[..]), d.baseMap[..], old(d.characters), old(d.pcIsAlive), self, keys[knext - 1]);
    } else {
      knext := kpos;
    }
    if d.pcIsAlive {
      d.pcX, d.pcY := d.characters[self].x, d.characters[self].y;
      d.DijkstraForNonTunnel(d.pcX, d.pcY);
      d.DijkstraForTunnel(d.pcX, d.pcY);
    }
  }

  /** do_monster_movement for one monster, run only when its random step
      stays on the grid. The monster that moves never dies on its own turn. */
  method MonsterEventC(d: Dungeon, self: int, who: nat, rnd: nat -> nat, rpos: nat) returns (rnext: nat, ok: bool)
    requires PlayableC(d, self) && who < |d.characters| && who != self
    modifies d, d.hardness, d.display
    ensures PlayableC(d, self) && SameCast(old(d.characters), d.characters) && d.changedFloor == old(d.changedFloor)
    ensures d.characters[self] == old(d.characters[self]) && d.characters[who].alive == old(d.characters[who].alive)
    ensures !ok ==> rnext == rpos && d.characters == old(d.characters) && d.pcIsAlive == old(d.pcIsAlive)
  {
    var c := d.characters[who];
    if c.alive && !ErraticOnGrid(c, rnd, rpos) {
      return rpos, false;
    }
    var tx, ty;
    rnext, tx, ty := NpcTurnC(d, who, rnd, rpos);
    ok := true;
  }

  /** The turn of the character of one C event, then its next event. */
  method RunEventC(d: Dungeon, self: int, q: BoundedHeap<Event>, who: nat, now: int, keys: seq<char>, kpos: nat,
                   rnd: nat -> nat, rpos: nat)
    returns (knext: nat, rnext: nat, stop: bool, outcome: Outcome)
    requires PlayableC(d, self) && who < |d.characters| && d.characters[who].alive && kpos <= |keys| && d.pcIsAlive
    requires q.Valid() && q.key == EventTime && q.size < q.data.Length && QueueOk(q.Elems(), |d.characters|, now)
    modifies d, d.display, d.disTunneling, d.disNonTunneling, d.hardness, q, q.data
    ensures PlayableC(d, self) && SameCast(old(d.characters), d.characters) && knext <= |keys|
    ensures q.Valid() && q.key == EventTime && q.size <= old(q.size) + 1 && QueueOk(q.Elems(), |d.characters|, now)
    ensures !stop ==> d.pcIsAlive
    ensures stop ==> (outcome == PcDied <==> !d.pcIsAlive) && (outcome == FloorChanged ==> OnStairs(d, self)) &&
                     outcome != MonstersGone
  {
    var ok;
    knext, rnext := kpos, rpos;
    if d.characters[who].kind == PCKind {
      var stairs;
      knext, ok, stairs := PlayerEventC(d, self, keys, kpos);
      if !ok {
        return knext, rnext, true, InputEnded;
      }
      if stairs {
        return knext, rnext, true, FloorChanged;
      }
    } else {
      rnext, ok := MonsterEventC(d, self, who, rnd, rpos);
      if !ok {
        return knext, rnext, true, OffGrid;
      }
    }
    if !d.pcIsAlive {
      return knext, rnext, true, PcDied;
    }
    stop, outcome := false, QueueEmpty;
    if d.characters[who].alive {
      var e := Event(NextTime(now, d.characters[who].speed), who);
      ghost var before := q.Elems();
      q.Insert(e);
      PushKeepsQueue(before, q.Elems(), e, |d.characters|, now);
    }
  }

  /** eq_pop, then the popped character's turn if it is alive. */
  method TickC(d: Dungeon, self: int, q: BoundedHeap<Event>, now: int, keys: seq<char>, kpos: nat,
               rnd: nat -> nat, rpos: nat)
    returns (t: int, knext: nat, rnext: nat, stop: bool, outcome: Outcome)
    requires PlayableC(d, self) && d.pcIsAlive && kpos <= |keys|
    requires 0 < q.size && QueuedC(q, |d.characters|, now)
    modifies d, d.display, d.disTunneling, d.disNonTunneling, d.hardness, q, q.data
    ensures PlayableC(d, self) && SameCast(old(d.characters), d.characters) && knext <= |keys| && now <= t
    ensures QueuedC(q, |d.characters|, t)
    ensures !stop ==> d.pcIsAlive
    ensures stop ==> (outcome == PcDied <==> !d.pcIsAlive) && (outcome == FloorChanged ==> OnStairs(d, self)) &&
                     outcome != MonstersGone
  {
    ghost var before := q.Elems();
    var e := q.DeleteMin();
    PopKeepsQueue(before, q.Elems(), e, |d.characters|, now);
    t := e.time;
    knext, rnext, stop, outcome := kpos, rpos, false, QueueEmpty;
    if d.characters[e.who].alive {
      knext, rnext, stop, outcome := RunEventC(d, self, q, e.who, t, keys, kpos, rnd, rpos);
    }
  }

  /** The C queue starts with an event at time 0 for every character. */
  method StartQueueC(cs: seq<Character>, capacity: nat) returns (q: BoundedHeap<Event>)
    requires |cs| <= capacity
    ensures fresh(q) && fresh(q.data) && q.Valid() && q.key == EventTime && q.data.Length == capacity
    ensures q.size == |cs| && QueueOk(q.Elems(), |cs|, 0)
    ensures forall i :: 0 <= i < |cs| ==> Event(0, i) in q.Elems()
  {
    q := new BoundedHeap<Event>(capacity, EventTime);
    for i := 0 to |cs|
      invariant fresh(q) && fresh(q.data) && q.Valid() && q.key == EventTime && q.data.Length == capacity && q.size == i
      invariant QueueOk(q.Elems(), i, 0) && forall j :: 0 <= j < i ==> Event(0, j) in q.Elems()
    {
      ghost var before := q.Elems();
      q.Insert(Event(0, i));
      forall e ensures e in q.Elems() <==> e in before || e == Event(0, i) {
        assert e in q.Elems() <==> e in multiset(q.Elems());
        assert e in before <==> e in multiset(before);
      }
    }
  }

  /** The event loop of the C main, with the number of live monsters
      recounted after every turn (the source's own counter is
      AliveCounterC). The queue holds at most one event per character, so
      a capacity of at least the roster's size is never exceeded. It ends
      when the queue empties, the PC dies or no monster lives; a stair key
      on its staircase also ends it here, where the source builds the next
      level from inside the input handler. */
  method GameLoopC(d: Dungeon, self: int, keys: seq<char>, rnd: nat -> nat, capacity: nat, steps: nat)
    returns (outcome: Outcome, ghost times: seq<int>)
    requires PlayableC(d, self) && |d.characters| <= capacity
    modifies d, d.display, d.disTunneling, d.disNonTunneling, d.hardness
    ensures PlayableC(d, self) && SameCast(old(d.characters), d.characters)
    ensures outcome == PcDied <==> !d.pcIsAlive
    ensures outcome == MonstersGone ==> NumAliveMonsters(d.characters) == 0
    ensures outcome == FloorChanged ==> OnStairs(d, self)
    ensures Chrono(times, if |times| == 0 then 0 else times[|times| - 1])
  {
    var q := StartQueueC(d.characters, capacity);
    var alive := d.CountMonsters();
    ghost var cs0 := d.characters;
    var kpos: nat, rpos: nat, budget := 0, 0, steps;
    var now := 0;
    times := [];
    while q.size != 0 && d.pcIsAlive && alive > 0 && budget > 0
      invariant PlayableC(d, self) && SameCast(cs0, d.characters) && fresh(q) && fresh(q.data)
      invariant QueuedC(q, |d.characters|, now) && kpos <= |keys|
      invariant alive == NumAliveMonsters(d.characters)
      invariant Chrono(times, now) && (|times| > 0 ==> times[|times| - 1] == now)
      decreases budget
    {
      budget := budget - 1;
      var t, stop;
      ghost var cs1 := d.characters;
      t, kpos, rpos, stop, outcome := TickC(d, self, q, now, keys, kpos, rnd, rpos);
      SameCastTrans(cs0, cs1, d.characters);
      ChronoExtend(times, now, t);
      times, now := times + [t], t;
      if stop {
        return outcome, times;
      }
      alive := d.CountMonsters();
    }
    if !d.pcIsAlive {
      outcome := PcDied;
    } else if alive == 0 {
      outcome := MonstersGone;
    } else if q.size == 0 {
      outcome := QueueEmpty;
    } else {
      outcome := OutOfSteps;
    }
  }

  /** aliveMonsters as the C main keeps it: one less after a monster's turn
      when that monster is dead, else unchanged. */
  function AliveCounterC(count: int, moverIsPc: bool, moverAliveAfter: bool): (r: int)
    ensures count - 1 <= r <= count && (moverIsPc || moverAliveAfter ==> r == count)
  {
    if !moverIsPc && !moverAliveAfter then count - 1 else count
  }

  /** The counter misses the monsters the PC kills: with the display stale
      over a monster (another monster walked over it and left), the PC steps
      east onto it and slays the last monster, yet the counter stays at 1,
      so the loop goes on and "You win" never shows. */
  lemma MissedKillC()
    ensures var cs := [NewPcCharacter(1, 1), NewNpc(0, 2, 1, 10, 10)];
      var r := InputCEffect(seq(CELLS, _ => '.'), seq(CELLS, _ => '.'), cs, true, 0, 'l');
      NumAliveMonsters(cs) == 1 && NumAliveMonsters(r.cs) == 0 && r.pcIsAlive &&
      AliveCounterC(NumAliveMonsters(cs), true, r.cs[0].alive) == 1
  {
    var cs := [NewPcCharacter(1, 1), NewNpc(0, 2, 1, 10, 10)];
    var r := InputCEffect(seq(CELLS, _ => '.'), seq(CELLS, _ => '.'), cs, true, 0, 'l');
    assert Hit(cs, 0, 2, 1, 1);
    assert r.cs[1] == cs[1].(alive := false);
    assert r.cs == [cs[0].(x := 2, y := 1), cs[1].(alive := false)];
  }
}
