/**
 * The drop tracker (internal/tracker/tracker.go): a state machine over map
 * sessions that keeps the latest known count of every inventory slot and
 * counts the positive increments seen while a map is active.
 *
 * `Apply` is the specification of one `OnEvent` call on a value of `State`;
 * the class `Tracker` holds the same state in fields and updates them in
 * place, and its methods are proved against `Apply`.
 */
module Tracker {
  import opened Wrappers
  import opened Events
  import opened Collections

  /** The inventory key: a slot of a page holding one item kind. */
  datatype SlotKey = SlotKey(pageId: int, slotId: int, configBaseId: int)

  /** One map visit; `tally` maps an item kind to the number picked up during the visit. */
  datatype MapSession = MapSession(startedAt: Time, endedAt: Time, active: bool, tally: map<int, int>)

  /** The whole tracking state of a run. */
  datatype State = State(
    inMap: bool,
    current: MapSession,
    completed: seq<MapSession>,
    sessionStartedAt: Time,
    sessionEndedAt: Time,
    totalDrops: int,
    lastEvents: seq<Event>,
    inventory: map<SlotKey, int>)

  /** The capacity of the recent-events buffer. */
  const MaxEvents := 100

  /** The zero `MapSession`: never started, inactive, nothing tallied. */
  const IdleSession := MapSession(ZeroTime, ZeroTime, false, map[])

  /** The state of a fresh tracker. */
  const Initial := State(false, IdleSession, [], ZeroTime, ZeroTime, 0, [], map[])

  function Key(b: BagEvent): SlotKey {
    SlotKey(b.pageId, b.slotId, b.configBaseId)
  }

  /** A map read as Go reads it: a missing key reads as 0. */
  function Lookup<K>(m: map<K, int>, k: K): int {
    if k in m then m[k] else 0
  }

  function Min(a: int, b: int): int {
    if a <= b then a else b
  }

  // ---------------------------------------------------------------------------
  // The recent-events buffer (appendEvent)

  /** The buffer after appending: the last `MaxEvents` events, oldest first. */
  function Recent(events: seq<Event>): (r: seq<Event>)
    ensures |r| == Min(|events|, MaxEvents)
  {
    if |events| <= MaxEvents then events else events[|events| - MaxEvents..]
  }

  /** The buffer keeps the newest events, in arrival order. */
  lemma RecentIsNewest(events: seq<Event>)
    ensures Recent(events) == events[|events| - Min(|events|, MaxEvents)..]
    ensures |events| <= MaxEvents ==> Recent(events) == events
  {
  }

  /** Trimming after every append keeps the same events as trimming the whole history once. */
  lemma RecentAppend(events: seq<Event>, e: Event)
    ensures Recent(Recent(events) + [e]) == Recent(events + [e])
  {
    var r := Recent(events);
    var a := Recent(r + [e]);
    var b := Recent(events + [e]);
    RecentIsNewest(events);
    RecentIsNewest(r + [e]);
    RecentIsNewest(events + [e]);
    assert |a| == |b|;
    forall k | 0 <= k < |a|
      ensures a[k] == b[k]
    {
      if k == |a| - 1 {
        assert a[k] == e && b[k] == e;
      } else {
        assert a[k] == (r + [e])[|r| + 1 - |a| + k] == r[|r| + 1 - |a| + k];
        assert r[|r| + 1 - |a| + k] == events[|events| - |r| + |r| + 1 - |a| + k];
        assert b[k] == (events + [e])[|events| + 1 - |b| + k];
      }
    }
  }

  // ---------------------------------------------------------------------------
  // One event (OnEvent)

  /** `OnEvent` on the state value: record the event, then act on its kind. */
  function Apply(s: State, e: Event): State {
    Act(s.(lastEvents := Recent(s.lastEvents + [e])), e)
  }

  /** The switch on the event's kind; a bag event without payload and an unnamed kind do nothing. */
  function Act(s: State, e: Event): State {
    if e.kind == MapStart then StartMap(s, e.time)
    else if e.kind == MapEnd then EndMap(s, e.time)
    else if e.kind == BagInit && e.bag.Some? then InitSlot(s, e.bag.value)
    else if e.kind == BagMod && e.bag.Some? then ModSlot(s, e.bag.value)
    else s
  }

  /** MapStart: close an active map into the completed list and open a new one. */
  function StartMap(s: State, time: Time): State {
    var completed :=
      if s.inMap && s.current.active then s.completed + [s.current.(active := false, endedAt := time)]
      else s.completed;
    var started := if IsZero(s.sessionStartedAt) then time else s.sessionStartedAt;
    s.(completed := completed, sessionStartedAt := started, inMap := true,
       current := MapSession(time, ZeroTime, true, map[]))
  }

  /** MapEnd: inside a map, close it; the closed map stays current. */
  function EndMap(s: State, time: Time): State {
    if s.inMap then
      var ended := s.current.(active := false, endedAt := time);
      s.(inMap := false, completed := s.completed + [ended], sessionEndedAt := time, current := ended)
    else s
  }

  /** BagInit: record the slot's count. */
  function InitSlot(s: State, b: BagEvent): State {
    s.(inventory := s.inventory[Key(b) := b.num])
  }

  /** BagMod: record the slot's count and count a positive increase while a map is active. */
  function ModSlot(s: State, b: BagEvent): State {
    var delta := b.num - Lookup(s.inventory, Key(b));
    var s := s.(inventory := s.inventory[Key(b) := b.num]);
    if delta > 0 && s.inMap && s.current.active then
      var tally := s.current.tally[b.configBaseId := Lookup(s.current.tally, b.configBaseId) + delta];
      s.(current := s.current.(tally := tally), totalDrops := s.totalDrops + delta)
    else s
  }

  /** The state after a sequence of events, oldest first. */
  function Run(s: State, h: seq<Event>): State
    decreases |h|
  {
    if h == [] then s else Apply(Run(s, h[..|h| - 1]), h[|h| - 1])
  }

  /** A bag event without payload is recorded and changes nothing else. */
  lemma BagWithoutPayload(s: State, e: Event)
    requires e.kind == BagInit || e.kind == BagMod
    requires e.bag.None?
    ensures Apply(s, e) == s.(lastEvents := Recent(s.lastEvents + [e]))
  {
  }

  /** An event of no named kind is recorded and changes nothing else. */
  lemma UnknownKind(s: State, e: Event)
    requires !IsNamed(e.kind)
    ensures Apply(s, e) == s.(lastEvents := Recent(s.lastEvents + [e]))
  {
  }

  /** BagInit refreshes the slot's count and touches neither the counters nor the map state. */
  lemma BagInitEffect(s: State, e: Event)
    requires e.kind == BagInit && e.bag.Some?
    ensures var t := Apply(s, e);
            && t.inventory == s.inventory[Key(e.bag.value) := e.bag.value.num]
            && t.current == s.current && t.totalDrops == s.totalDrops
            && t.inMap == s.inMap && t.completed == s.completed
            && t.sessionStartedAt == s.sessionStartedAt && t.sessionEndedAt == s.sessionEndedAt
  {
  }

  /**
   * BagMod always records the new count; the increase over the last known
   * count (0 for an unseen slot) is added to the item's tally and to the
   * total only when it is positive and a map is active.
   */
  lemma BagModEffect(s: State, e: Event)
    requires e.kind == BagMod && e.bag.Some?
    ensures var t := Apply(s, e);
            var b := e.bag.value;
            var delta := b.num - Lookup(s.inventory, Key(b));
            var counted := delta > 0 && s.inMap && s.current.active;
            && t.inventory == s.inventory[Key(b) := b.num]
            && t.totalDrops == s.totalDrops + (if counted then delta else 0)
            && Lookup(t.current.tally, b.configBaseId)
               == Lookup(s.current.tally, b.configBaseId) + (if counted then delta else 0)
            && (forall c :: c != b.configBaseId ==> Lookup(t.current.tally, c) == Lookup(s.current.tally, c))
            && t.inMap == s.inMap && t.current.active == s.current.active
            && t.current.startedAt == s.current.startedAt && t.current.endedAt == s.current.endedAt
            && t.completed == s.completed
            && t.sessionStartedAt == s.sessionStartedAt && t.sessionEndedAt == s.sessionEndedAt
  {
  }

  /**
   * MapStart closes an active map into the completed list, opens a fresh
   * active map at the event's time, and sets the session start only once.
   */
  lemma MapStartEffect(s: State, e: Event)
    requires e.kind == MapStart
    ensures var t := Apply(s, e);
            && t.inMap && t.current == MapSession(e.time, ZeroTime, true, map[])
            && t.completed == s.completed + (if s.inMap && s.current.active
                                             then [s.current.(active := false, endedAt := e.time)] else [])
            && t.sessionStartedAt == (if IsZero(s.sessionStartedAt) then e.time else s.sessionStartedAt)
            && t.sessionEndedAt == s.sessionEndedAt
            && t.totalDrops == s.totalDrops && t.inventory == s.inventory
  {
  }

  /** MapEnd inside a map closes it; the closed map stays as the current one. */
  lemma MapEndEffect(s: State, e: Event)
    requires e.kind == MapEnd && s.inMap
    ensures var t := Apply(s, e);
            var ended := s.current.(active := false, endedAt := e.time);
            && !t.inMap && t.current == ended && t.completed == s.completed + [ended]
            && t.sessionEndedAt == e.time && t.sessionStartedAt == s.sessionStartedAt
            && t.totalDrops == s.totalDrops && t.inventory == s.inventory
  {
  }

  /** MapEnd outside a map is only recorded. */
  lemma MapEndIdle(s: State, e: Event)
    requires e.kind == MapEnd && !s.inMap
    ensures Apply(s, e) == s.(lastEvents := Recent(s.lastEvents + [e]))
  {
  }

  // ---------------------------------------------------------------------------
  // Properties of whole runs

  /** Every event, of any kind and with or without payload, is recorded. */
  lemma StepLastEvents(s: State, e: Event)
    ensures Apply(s, e).lastEvents == Recent(s.lastEvents + [e])
  {
  }

  /** The buffer holds the last `MaxEvents` events of the run, in arrival order. */
  lemma {:induction false} RunLastEvents(s: State, h: seq<Event>)
    requires |s.lastEvents| <= MaxEvents
    ensures Run(s, h).lastEvents == Recent(s.lastEvents + h)
    decreases |h|
  {
    if h == [] {
      RecentIsNewest(s.lastEvents);
      assert s.lastEvents + h == s.lastEvents;
    } else {
      var p := h[..|h| - 1];
      RunLastEvents(s, p);
      StepLastEvents(Run(s, p), h[|h| - 1]);
      RecentAppend(s.lastEvents + p, h[|h| - 1]);
      assert s.lastEvents + p + [h[|h| - 1]] == s.lastEvents + h;
    }
  }

  /** From a fresh tracker, the buffer is the last 100 events ingested (never more). */
  lemma LastEventsOfHistory(h: seq<Event>)
    ensures Run(Initial, h).lastEvents == Recent(h)
    ensures |Run(Initial, h).lastEvents| <= MaxEvents
  {
    RunLastEvents(Initial, h);
    assert Initial.lastEvents + h == h;
  }

  /** 120 events ingested keep events 20..119. */
  lemma BufferTrim(h: seq<Event>)
    requires |h| == 120
    ensures Run(Initial, h).lastEvents == h[20..]
    ensures Run(Initial, h).lastEvents[0] == h[20]
  {
    LastEventsOfHistory(h);
    RecentIsNewest(h);
  }

  /** No event lowers the total. */
  lemma StepDrops(s: State, e: Event)
    ensures Apply(s, e).totalDrops >= s.totalDrops
  {
  }

  /** The total never decreases over any run. */
  lemma {:induction false} DropsMonotone(s: State, h: seq<Event>)
    ensures Run(s, h).totalDrops >= s.totalDrops
    decreases |h|
  {
    if h != [] {
      var p := h[..|h| - 1];
      DropsMonotone(s, p);
      StepDrops(Run(s, p), h[|h| - 1]);
    }
  }

  /**
   * Inside an active map, BagMod events for one slot whose counts never go
   * down, starting from at least the slot's known count, add to the item's
   * tally and to the total exactly the final count minus the count known
   * before them.
   */
  lemma {:induction false} TallyTelescopes(s: State, h: seq<Event>, k: SlotKey)
    requires s.inMap && s.current.active
    requires forall i :: 0 <= i < |h| ==> h[i].kind == BagMod && h[i].bag.Some? && Key(h[i].bag.value) == k
    requires |h| > 0 ==> Lookup(s.inventory, k) <= h[0].bag.value.num
    requires forall i :: 0 < i < |h| ==> h[i - 1].bag.value.num <= h[i].bag.value.num
    ensures var t := Run(s, h);
            && t.inMap && t.current.active
            && (h != [] ==> Lookup(t.inventory, k) == h[|h| - 1].bag.value.num)
            && Lookup(t.current.tally, k.configBaseId)
               == Lookup(s.current.tally, k.configBaseId) + Lookup(t.inventory, k) - Lookup(s.inventory, k)
            && t.totalDrops == s.totalDrops + Lookup(t.inventory, k) - Lookup(s.inventory, k)
    decreases |h|
  {
    if h != [] {
      var p := h[..|h| - 1];
      var e := h[|h| - 1];
      TallyTelescopes(s, p, k);
      var t := Run(s, p);
      assert Lookup(t.inventory, k) <= e.bag.value.num by {
        if p != [] {
          assert p[|p| - 1] == h[|h| - 2];
        }
      }
      BagModEffect(t, e);
    }
  }

  /**
   * A map started, a slot of item 999 initialised at 0 and raised to 3, and
   * the map ended: 3 drops in total and in the item's tally, and no map is
   * running.
   */
  lemma DropScenario(t0: Time, t1: Time, t2: Time, t3: Time)
    ensures var bag := (n: int) => Some(BagEvent(1, 1, 999, n));
            var s := Run(Initial, [Event(MapStart, t0, "", None), Event(BagInit, t1, "", bag(0)),
                                   Event(BagMod, t2, "", bag(3)), Event(MapEnd, t3, "", None)]);
            && s.totalDrops == 3 && Lookup(s.current.tally, 999) == 3 && !s.inMap
  {
    var bag := (n: int) => Some(BagEvent(1, 1, 999, n));
    var h := [Event(MapStart, t0, "", None), Event(BagInit, t1, "", bag(0)),
              Event(BagMod, t2, "", bag(3)), Event(MapEnd, t3, "", None)];
    var s1 := Apply(Initial, h[0]);
    var s2 := Apply(s1, h[1]);
    var s3 := Apply(s2, h[2]);
    assert Run(Initial, h[..1]) == s1 by {
      assert h[..1][..0] == [];
    }
    assert Run(Initial, h[..2]) == s2 by {
      assert h[..2][..1] == h[..1];
    }
    assert Run(Initial, h[..3]) == s3 by {
      assert h[..3][..2] == h[..2];
    }
    assert s3.totalDrops == 3 && Lookup(s3.current.tally, 999) == 3;
  }

  /** The slot counts known after a run: the count of the latest bag event with payload for the slot. */
  function LastCount(h: seq<Event>, k: SlotKey): Option<int>
    decreases |h|
  {
    if h == [] then None
    else
      var e := h[|h| - 1];
      if (e.kind == BagInit || e.kind == BagMod) && e.bag.Some? && Key(e.bag.value) == k
      then Some(e.bag.value.num)
      else LastCount(h[..|h| - 1], k)
  }

  /** Only a bag event with payload writes the inventory, and it writes its own slot. */
  lemma StepInventory(s: State, e: Event)
    ensures var bagged := (e.kind == BagInit || e.kind == BagMod) && e.bag.Some?;
            Apply(s, e).inventory == if bagged then s.inventory[Key(e.bag.value) := e.bag.value.num] else s.inventory
  {
  }

  /** The inventory is exactly the latest count per slot, whatever the map state was. */
  lemma {:induction false} InventoryIsLatest(h: seq<Event>)
    ensures forall k :: (k in Run(Initial, h).inventory) == LastCount(h, k).Some?
    ensures forall k :: k in Run(Initial, h).inventory ==> Run(Initial, h).inventory[k] == LastCount(h, k).value
    decreases |h|
  {
    if h != [] {
      var p := h[..|h| - 1];
      InventoryIsLatest(p);
      StepInventory(Run(Initial, p), h[|h| - 1]);
    }
  }

  // ---------------------------------------------------------------------------
  // The invariant of reachable states

  /** The sum of a tally. */
  ghost function TallySum<K>(t: map<K, int>): int
    decreases |t|
  {
    if t.Keys == {} then 0
    else
      HasElement(t.Keys);
      var c :| c in t.Keys;
      t[c] + TallySum(t - {c})
  }

  /** Any entry can be taken out of the sum first. */
  lemma {:induction false} TallySumRemove<K>(t: map<K, int>, c: K)
    requires c in t
    ensures TallySum(t) == t[c] + TallySum(t - {c})
    decreases |t|
  {
    var d :| d in t && TallySum(t) == t[d] + TallySum(t - {d});
    if d != c {
      TallySumRemove(t - {d}, c);
      TallySumRemove(t - {c}, d);
      assert t - {d} - {c} == t - {c} - {d};
    }
  }

  /** Adding to one entry adds to the sum. */
  lemma TallySumAdd<K>(t: map<K, int>, c: K, delta: int)
    ensures TallySum(t[c := Lookup(t, c) + delta]) == TallySum(t) + delta
  {
    var u := t[c := Lookup(t, c) + delta];
    TallySumRemove(u, c);
    if c in t {
      TallySumRemove(t, c);
      assert u - {c} == t - {c};
    } else {
      assert u - {c} == t;
    }
  }

  /** The tallies of a list of sessions, added up. */
  ghost function SessionsSum(ms: seq<MapSession>): int
    decreases |ms|
  {
    if ms == [] then 0 else SessionsSum(ms[..|ms| - 1]) + TallySum(ms[|ms| - 1].tally)
  }

  /** What the open map has counted so far. */
  ghost function ActiveSum(m: MapSession): int {
    if m.active then TallySum(m.tally) else 0
  }

  predicate PositiveTally(t: map<int, int>) {
    forall c :: c in t ==> t[c] > 0
  }

  /**
   * The invariant of every state a fresh tracker reaches: being in a map is
   * the same as the current map being active; completed maps are inactive;
   * the buffer is bounded; every tally entry is positive; and the total is
   * exactly what the completed maps and the open one have tallied.
   */
  ghost predicate Inv(s: State) {
    && s.inMap == s.current.active
    && (forall i :: 0 <= i < |s.completed| ==> !s.completed[i].active)
    && (forall i :: 0 <= i < |s.completed| ==> PositiveTally(s.completed[i].tally))
    && PositiveTally(s.current.tally)
    && |s.lastEvents| <= MaxEvents
    && s.totalDrops >= 0
    && s.totalDrops == SessionsSum(s.completed) + ActiveSum(s.current)
  }

  lemma SessionsSumAppend(ms: seq<MapSession>, m: MapSession)
    ensures SessionsSum(ms + [m]) == SessionsSum(ms) + TallySum(m.tally)
  {
    assert (ms + [m])[..|ms|] == ms;
  }

  /** Recording an event keeps the invariant. */
  lemma RecordKeepsInv(s: State, e: Event)
    requires Inv(s)
    ensures Inv(s.(lastEvents := Recent(s.lastEvents + [e])))
  {
  }

  /** MapStart keeps the invariant: the closed map carries its tally into the completed list. */
  lemma StartMapKeepsInv(s: State, time: Time)
    requires Inv(s)
    ensures Inv(StartMap(s, time))
  {
    if s.inMap && s.current.active {
      SessionsSumAppend(s.completed, s.current.(active := false, endedAt := time));
    }
    assert TallySum<int>(map[]) == 0;
  }

  /** MapEnd keeps the invariant: the tally moves from the open map to the completed list. */
  lemma EndMapKeepsInv(s: State, time: Time)
    requires Inv(s)
    ensures Inv(EndMap(s, time))
  {
    if s.inMap {
      SessionsSumAppend(s.completed, s.current.(active := false, endedAt := time));
    }
  }

  /** BagMod keeps the invariant: a counted increase goes to the open map's tally and to the total alike. */
  lemma ModSlotKeepsInv(s: State, b: BagEvent)
    requires Inv(s)
    ensures Inv(ModSlot(s, b))
  {
    var delta := b.num - Lookup(s.inventory, Key(b));
    if delta > 0 && s.inMap && s.current.active {
      var t := ModSlot(s, b);
      TallySumAdd(s.current.tally, b.configBaseId, delta);
      assert t.current.tally == s.current.tally[b.configBaseId := Lookup(s.current.tally, b.configBaseId) + delta];
      assert t.totalDrops == s.totalDrops + delta;
      assert t.completed == s.completed && t.current.active;
    }
  }

  /** Every event keeps the invariant. */
  lemma ApplyKeepsInv(s: State, e: Event)
    requires Inv(s)
    ensures Inv(Apply(s, e))
  {
    var r := s.(lastEvents := Recent(s.lastEvents + [e]));
    RecordKeepsInv(s, e);
    if e.kind == MapStart {
      StartMapKeepsInv(r, e.time);
    } else if e.kind == MapEnd {
      EndMapKeepsInv(r, e.time);
    } else if e.kind == BagMod && e.bag.Some? {
      ModSlotKeepsInv(r, e.bag.value);
    }
  }

  /** Every state reached from a fresh tracker satisfies the invariant. */
  lemma {:induction false} RunKeepsInv(h: seq<Event>)
    ensures Inv(Run(Initial, h))
    decreases |h|
  {
    if h == [] {
      assert TallySum<int>(map[]) == 0;
    } else {
      RunKeepsInv(h[..|h| - 1]);
      ApplyKeepsInv(Run(Initial, h[..|h| - 1]), h[|h| - 1]);
    }
  }

  // ---------------------------------------------------------------------------
  // The scenarios the package's tests walk through

  /**
   * A slot initialised at 5, a map started, the slot raised to 8 (counted +3)
   * then lowered to 6 (not counted), the map ended, and the slot raised to 9
   * after the map (not counted): the total stays 3.
   */
  lemma SessionScenario(t0: Time, t1: Time, t2: Time, t3: Time, t4: Time, t5: Time)
    ensures var cfg := 5210;
            var bag := (n: int) => Some(BagEvent(1, 2, cfg, n));
            var s1 := Apply(Initial, Event(BagInit, t0, "", bag(5)));
            var s2 := Apply(s1, Event(MapStart, t1, "", None));
            var s3 := Apply(s2, Event(BagMod, t2, "", bag(8)));
            var s4 := Apply(s3, Event(BagMod, t3, "", bag(6)));
            var s5 := Apply(s4, Event(MapEnd, t4, "", None));
            var s6 := Apply(s5, Event(BagMod, t5, "", bag(9)));
            && s1.totalDrops == 0 && Lookup(s1.current.tally, cfg) == 0 && !s1.inMap
            && s4.totalDrops == 3 && Lookup(s4.current.tally, cfg) == 3 && s4.inMap && s4.current.active
            && !s5.inMap && !s5.current.active && s5.current.endedAt == t4
            && s6.totalDrops == 3 && Lookup(s6.current.tally, cfg) == 3
  {
  }

  /** A slot initialised at 1 and raised to 3 inside a map: the slot reads 3 and the item's tally 2. */
  lemma CopyScenario(t0: Time, t1: Time, t2: Time)
    ensures var cfg := 777;
            var s := Apply(Apply(Apply(Initial,
                       Event(BagInit, t0, "", Some(BagEvent(1, 1, cfg, 1)))),
                       Event(MapStart, t1, "", None)),
                       Event(BagMod, t2, "", Some(BagEvent(1, 1, cfg, 3))));
            && Lookup(s.inventory, SlotKey(1, 1, cfg)) == 3
            && Lookup(s.current.tally, cfg) == 2
            && |s.lastEvents| == 3 && s.lastEvents[0].kind == BagInit
  {
  }

  /** A second MapStart closes the first map and opens a new active one at its own time. */
  lemma RestartScenario(t1: Time, t2: Time)
    requires !IsZero(t1)
    ensures var s := Apply(Apply(Initial, Event(MapStart, t1, "", None)), Event(MapStart, t2, "", None));
            && s.inMap && s.current.active && s.current.startedAt == t2
            && s.sessionStartedAt == t1
            && s.completed == [MapSession(t1, t2, false, map[])]
  {
  }

  /** Replaying one more event is one more step. */
  lemma RunSnoc(h: seq<Event>, e: Event)
    ensures Run(Initial, h + [e]) == Apply(Run(Initial, h), e)
  {
    assert (h + [e])[..|h|] == h;
  }

  /** What every replayed state satisfies: the invariant and the buffer of the last events. */
  lemma ValidFacts(h: seq<Event>)
    ensures Inv(Run(Initial, h)) && Run(Initial, h).lastEvents == Recent(h)
  {
    RunKeepsInv(h);
    LastEventsOfHistory(h);
  }

  // ---------------------------------------------------------------------------
  // The tracker object

  class Tracker {
    var inMap: bool
    var current: MapSession
    var completed: seq<MapSession>
    var sessionStartedAt: Time
    var sessionEndedAt: Time
    var totalDrops: int
    var lastEvents: seq<Event>
    var inventory: map<SlotKey, int>
    /** Every event ingested since construction, oldest first. */
    ghost var history: seq<Event>

    /** The fields, read as a `State` value. */
    function Snapshot(): State
      reads this
    {
      State(inMap, current, completed, sessionStartedAt, sessionEndedAt, totalDrops, lastEvents, inventory)
    }

    /** The fields are what replaying the history on a fresh tracker gives. */
    ghost predicate Valid()
      reads this
    {
      Snapshot() == Run(Initial, history)
    }

    /** A fresh tracker (also what resetting the application installs). */
    constructor ()
      ensures Valid() && history == []
      ensures Snapshot() == Initial
    {
      inMap := false;
      current := IdleSession;
      completed := [];
      sessionStartedAt := ZeroTime;
      sessionEndedAt := ZeroTime;
      totalDrops := 0;
      lastEvents := [];
      inventory := map[];
      history := [];
    }

    /** Append to the recent-events buffer, dropping the oldest beyond `MaxEvents`. */
    method AppendEvent(e: Event)
      modifies this
      ensures Snapshot() == old(Snapshot()).(lastEvents := Recent(old(lastEvents) + [e]))
      ensures history == old(history)
    {
      lastEvents := lastEvents + [e];
      if |lastEvents| > MaxEvents {
        lastEvents := lastEvents[|lastEvents| - MaxEvents..];
      }
    }

    /** Ingest one parsed event; `None` stands for a nil event. */
    method OnEvent(ev: Option<Event>)
      requires Valid()
      modifies this
      ensures Valid()
      ensures ev.None? ==> Snapshot() == old(Snapshot()) && history == old(history)
      ensures ev.Some? ==> Snapshot() == Apply(old(Snapshot()), ev.value) && history == old(history) + [ev.value]
      ensures Inv(Snapshot()) && lastEvents == Recent(history)
      ensures totalDrops >= old(totalDrops)
    {
      if ev.None? {
        ValidFacts(history);
        return;
      }
      var e := ev.value;
      RunSnoc(history, e);
      ValidFacts(history + [e]);
      StepDrops(Snapshot(), e);
      history := history + [e];
      AppendEvent(e);
      Handle(e);
    }

    /** The switch of `OnEvent` on the kind of a recorded event. */
    method Handle(e: Event)
      modifies this
      ensures Snapshot() == Act(old(Snapshot()), e) && history == old(history)
    {
      if e.kind == MapStart {
        if inMap && current.active {
          var s := current.(active := false, endedAt := e.time);
          completed := completed + [s];
        }
        if IsZero(sessionStartedAt) {
          sessionStartedAt := e.time;
        }
        inMap := true;
        current := MapSession(e.time, ZeroTime, true, map[]);
      } else if e.kind == MapEnd {
        if inMap {
          inMap := false;
          var s := current.(active := false, endedAt := e.time);
          completed := completed + [s];
          sessionEndedAt := e.time;
          current := s;
        }
      } else if e.kind == BagInit {
        if e.bag.None? {
          return;
        }
        var b := e.bag.value;
        inventory := inventory[Key(b) := b.num];
      } else if e.kind == BagMod {
        if e.bag.None? {
          return;
        }
        var b := e.bag.value;
        var key := Key(b);
        var prev := if key in inventory then inventory[key] else 0;
        var delta := b.num - prev;
        inventory := inventory[key := b.num];
        if delta > 0 && inMap && current.active {
          var c := b.configBaseId;
          var before := if c in current.tally then current.tally[c] else 0;
          current := current.(tally := current.tally[c := before + delta]);
          totalDrops := totalDrops + delta;
        }
      }
    }

    /** A snapshot of the state whose maps and lists are fresh copies. */
    method GetState() returns (st: State)
      ensures st == Snapshot()
    {
      var inv := CopyMap(inventory);
      var events := lastEvents;
      var tally := CopyMap(current.tally);
      var done: seq<MapSession> := [];
      for i := 0 to |completed|
        invariant done == completed[..i]
      {
        var m := completed[i];
        var t := CopyMap(m.tally);
        done := done + [MapSession(m.startedAt, m.endedAt, m.active, t)];
      }
      assert completed[..|completed|] == completed;
      st := State(inMap, MapSession(current.startedAt, current.endedAt, current.active, tally),
                  done, sessionStartedAt, sessionEndedAt, totalDrops, events, inv);
    }
  }

  /** Copy a map entry by entry. */
  method CopyMap<K, V>(m: map<K, V>) returns (c: map<K, V>)
    ensures c == m
  {
    c := map[];
    var rest := m.Keys;
    while rest != {}
      invariant rest <= m.Keys
      invariant c.Keys == m.Keys - rest
      invariant forall k :: k in c ==> c[k] == m[k]
      decreases |rest|
    {
      HasElement(rest);
      var k :| k in rest;
      c := c[k := m[k]];
      rest := rest - {k};
    }
  }
}
