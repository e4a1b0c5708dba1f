/** The tap scheduler (components/keyboard/kb_macro.c): a pool of slots, each
    holding one tap between its request and its release. */
module TapSlots {

  const MAX_TAP_SLOTS: nat := 16

  /** id is the number of the accepted tap that holds the slot (history). */
  datatype Slot =
    | Free
    | WaitPress(code: nat, pressAt: int, releaseAt: int, id: nat)
    | WaitRelease(code: nat, pressAt: int, releaseAt: int, id: nat)

  /** A press or release of tap id, sent by the given tick at time now. */
  datatype Sent = Sent(id: nat, code: nat, pressed: bool, tick: nat, now: int)

  datatype Tap = Tap(code: nat, pressAt: int, releaseAt: int)

  datatype Pool = Pool(
    slots: seq<Slot>,
    // History: the accepted taps, what has been sent, and the number of ticks.
    taps: seq<Tap>,
    sent: seq<Sent>,
    ticks: nat
  )

  /** The first free slot, or the pool size. */
  function FirstFree(slots: seq<Slot>, i: nat): (k: nat)
    requires i <= |slots|
    ensures i <= k <= |slots| && (k < |slots| ==> slots[k] == Free)
    ensures forall j | i <= j < k :: slots[j] != Free
    decreases |slots| - i
  {
    if i == |slots| || slots[i] == Free then i else FirstFree(slots, i + 1)
  }

  /** kb_macro_fire_tap. */
  function FireTap(p: Pool, code: nat, durationMs: nat, delayMs: nat, now: int): Pool {
    var pressAt := now + delayMs * 1000;
    var releaseAt := pressAt + (if durationMs > 0 then durationMs else 10) * 1000;
    var k := FirstFree(p.slots, 0);
    if code == 0 || k == |p.slots| then p
    else p.(slots := p.slots[k := WaitPress(code, pressAt, releaseAt, |p.taps|)],
            taps := p.taps + [Tap(code, pressAt, releaseAt)])
  }

  predicate Due(slot: Slot, now: int, pressed: bool) {
    match slot
    case Free => false
    case WaitPress(_, pressAt, _, _) => pressed && now >= pressAt
    case WaitRelease(_, _, releaseAt, _) => !pressed && now >= releaseAt
  }

  function Advance(slot: Slot, now: int): Slot {
    match slot
    case Free => slot
    case WaitPress(code, pressAt, releaseAt, id) => if now >= pressAt then WaitRelease(code, pressAt, releaseAt, id) else slot
    case WaitRelease(_, _, releaseAt, _) => if now >= releaseAt then Free else slot
  }

  /** What the due slots send, in slot order. */
  function Sending(slots: seq<Slot>, now: int, tick: nat, pressed: bool): seq<Sent> {
    if slots == [] then []
    else
      var last := slots[|slots| - 1];
      Sending(slots[..|slots| - 1], now, tick, pressed) +
      if Due(last, now, pressed) then [Sent(last.id, last.code, pressed, tick, now)] else []
  }

  function Advanced(slots: seq<Slot>, now: int): (s: seq<Slot>)
    ensures |s| == |slots| && forall i | 0 <= i < |s| :: s[i] == Advance(slots[i], now)
  {
    seq(|slots|, i requires 0 <= i < |slots| => Advance(slots[i], now))
  }

  /** kb_macro_tap_tick: releases go out before presses. */
  function Tick(p: Pool, now: int): Pool {
    p.(slots := Advanced(p.slots, now),
       sent := p.sent + (Sending(p.slots, now, p.ticks, false) + Sending(p.slots, now, p.ticks, true)),
       ticks := p.ticks + 1)
  }

  const EMPTY := Pool([Free, Free, Free, Free, Free, Free, Free, Free, Free, Free, Free, Free, Free, Free, Free, Free], [], [], 0)

  class Scheduler {
    var slots: array<Slot>
    var accepted: nat      // history: the number of accepted taps
    ghost var taps: seq<Tap>
    ghost var sent: seq<Sent>
    ghost var ticks: nat

    ghost predicate Valid()
      reads this
    {
      slots.Length == MAX_TAP_SLOTS && accepted == |taps|
    }

    ghost function View(): Pool
      requires Valid()
      reads this, slots
    {
      Pool(slots[..], taps, sent, ticks)
    }

    constructor ()
      ensures Valid() && fresh(slots) && View() == EMPTY
    {
      slots := new Slot[MAX_TAP_SLOTS](i => Free);
      accepted, taps, sent, ticks := 0, [], [], 0;
      new;
      assert slots[..] == EMPTY.slots;
    }

    method Request(code: nat, durationMs: nat, delayMs: nat, now: int)
      requires Valid()
      modifies this`taps, this`accepted, slots
      ensures Valid() && View() == FireTap(old(View()), code, durationMs, delayMs, now)
    {
      if code == 0 {
        return;
      }
      var dur := if durationMs > 0 then durationMs else 10;
      var pressAt := now + delayMs * 1000;
      var releaseAt := pressAt + dur * 1000;
      for i := 0 to MAX_TAP_SLOTS
        invariant FirstFree(slots[..], 0) == FirstFree(slots[..], i)
        invariant slots[..] == old(slots[..]) && taps == old(taps) && accepted == old(accepted)
      {
        if slots[i] == Free {
          slots[i] := WaitPress(code, pressAt, releaseAt, accepted);
          taps := taps + [Tap(code, pressAt, releaseAt)];
          accepted := accepted + 1;
          return;
        }
      }
    }

    method TapTick(now: int) returns (releases: seq<nat>, presses: seq<nat>)
      requires Valid()
      modifies this`sent, this`ticks, slots
      ensures Valid() && View() == Tick(old(View()), now)
      ensures releases == Codes(Sending(old(slots[..]), now, old(ticks), false))
      ensures presses == Codes(Sending(old(slots[..]), now, old(ticks), true))
    {
      releases, presses := [], [];
      for i := 0 to MAX_TAP_SLOTS
        invariant sent == old(sent) && ticks == old(ticks)
        invariant forall j | 0 <= j < MAX_TAP_SLOTS :: slots[j] == if j < i then Advance(old(slots[..])[j], now) else old(slots[..])[j]
        invariant releases == Codes(Sending(old(slots[..])[..i], now, old(ticks), false))
        invariant presses == Codes(Sending(old(slots[..])[..i], now, old(ticks), true))
      {
        SendingNext(old(slots[..]), i, now, old(ticks));
        match slots[i] {
          case Free =>
          case WaitPress(code, pressAt, releaseAt, id) =>
            if now >= pressAt {
              presses := presses + [code];
              slots[i] := WaitRelease(code, pressAt, releaseAt, id);
            }
          case WaitRelease(code, pressAt, releaseAt, id) =>
            if now >= releaseAt {
              releases := releases + [code];
              slots[i] := Free;
            }
        }
      }
      assert old(slots[..])[..MAX_TAP_SLOTS] == old(slots[..]);
      assert slots[..] == Advanced(old(slots[..]), now);
      sent := sent + (Sending(old(slots[..]), now, ticks, false) + Sending(old(slots[..]), now, ticks, true));
      ticks := ticks + 1;
    }

    method HasActiveTaps() returns (active: bool)
      requires Valid()
      ensures active <==> exists i :: 0 <= i < |View().slots| && View().slots[i] != Free
    {
      active := false;
      for i := 0 to MAX_TAP_SLOTS
        invariant forall j | 0 <= j < i :: slots[j] == Free
      {
        if slots[i] != Free {
          assert View().slots[i] != Free;
          return true;
        }
      }
    }
  }

  function Codes(sent: seq<Sent>): (codes: seq<nat>)
    ensures |codes| == |sent|
  {
    seq(|sent|, i requires 0 <= i < |sent| => sent[i].code)
  }

  lemma SendingNext(slots: seq<Slot>, i: nat, now: int, tick: nat)
    requires i < |slots|
    ensures forall pressed ::
              Sending(slots[..i + 1], now, tick, pressed) == Sending(slots[..i], now, tick, pressed) +
                (if Due(slots[i], now, pressed) then [Sent(slots[i].id, slots[i].code, pressed, tick, now)] else []) &&
              Codes(Sending(slots[..i + 1], now, tick, pressed)) == Codes(Sending(slots[..i], now, tick, pressed)) +
                if Due(slots[i], now, pressed) then [slots[i].code] else []
  {
    assert slots[..i + 1][..i] == slots[..i];
    hide Due;
  }

  // ---------- Counting what has been sent ----------

  function Count(sent: seq<Sent>, id: nat, pressed: bool): nat {
    if sent == [] then 0
    else
      var last := sent[|sent| - 1];
      Count(sent[..|sent| - 1], id, pressed) + if last.id == id && last.pressed == pressed then 1 else 0
  }

  lemma {:induction false} CountConcat(a: seq<Sent>, b: seq<Sent>, id: nat, pressed: bool)
    ensures Count(a + b, id, pressed) == Count(a, id, pressed) + Count(b, id, pressed)
  {
    if b == [] {
      assert a + b == a;
    } else {
      var m := |b| - 1;
      CountConcat(a, b[..m], id, pressed);
      assert (a + b)[..|a + b| - 1] == a + b[..m];
    }
  }

  /** Where tap id is: in no slot, or in which one. */
  predicate Holds(slot: Slot, id: nat) {
    slot != Free && slot.id == id
  }

  ghost predicate DistinctIds(slots: seq<Slot>) {
    forall i, j | 0 <= i < j < |slots| && slots[i] != Free && slots[j] != Free :: slots[i].id != slots[j].id
  }

  /** In one tick a tap sends what its slot is due for, and nothing else. */
  lemma {:induction false} SendingCounts(slots: seq<Slot>, now: int, tick: nat, pressed: bool, id: nat, asked: bool)
    requires DistinctIds(slots)
    ensures asked != pressed ==> Count(Sending(slots, now, tick, pressed), id, asked) == 0
    ensures asked == pressed ==>
              Count(Sending(slots, now, tick, pressed), id, asked) ==
              if exists i :: 0 <= i < |slots| && Holds(slots[i], id) && Due(slots[i], now, pressed) then 1 else 0
  {
    if slots != [] {
      var m := |slots| - 1;
      SendingCounts(slots[..m], now, tick, pressed, id, asked);
      CountConcat(Sending(slots[..m], now, tick, pressed),
                  if Due(slots[m], now, pressed) then [Sent(slots[m].id, slots[m].code, pressed, tick, now)] else [], id, asked);
      if Due(slots[m], now, pressed) {
        var one := [Sent(slots[m].id, slots[m].code, pressed, tick, now)];
        assert one[..0] == [];
        assert Count(one, id, asked) == if slots[m].id == id && pressed == asked then 1 else 0;
      }
      assert forall i | 0 <= i < m :: slots[..m][i] == slots[i];
      hide Due, Count, Sending;
    }
  }

  // ---------- Every run ----------

  datatype Event = Fire(code: nat, durationMs: nat, delayMs: nat, now: int) | At(now: int)

  function Next(p: Pool, e: Event): Pool {
    match e
    case Fire(code, durationMs, delayMs, now) => FireTap(p, code, durationMs, delayMs, now)
    case At(now) => Tick(p, now)
  }

  function Run(events: seq<Event>): Pool {
    if events == [] then EMPTY else Next(Run(events[..|events| - 1]), events[|events| - 1])
  }

  predicate InSlot(slots: seq<Slot>, id: nat) {
    exists i :: 0 <= i < |slots| && Holds(slots[i], id)
  }

  predicate Unpressed(slots: seq<Slot>, id: nat) {
    exists i :: 0 <= i < |slots| && Holds(slots[i], id) && slots[i].WaitPress?
  }

  /** A busy slot shows an accepted tap. */
  predicate SlotGood(taps: seq<Tap>, slot: Slot) {
    slot != Free ==> slot.id < |taps| && taps[slot.id] == Tap(slot.code, slot.pressAt, slot.releaseAt)
  }

  ghost predicate SlotsGood(p: Pool) {
    |p.slots| == MAX_TAP_SLOTS && DistinctIds(p.slots) && forall i | 0 <= i < |p.slots| :: SlotGood(p.taps, p.slots[i])
  }

  /** Every message belongs to an accepted tap and comes no earlier than it should. */
  predicate SentGood(p: Pool, e: Sent) {
    e.id < |p.taps| && e.code == p.taps[e.id].code && e.tick < p.ticks &&
    e.now >= if e.pressed then p.taps[e.id].pressAt else p.taps[e.id].releaseAt
  }

  /** Tap id has been pressed once unless it waits for that, and released once unless
      it still has its slot. */
  predicate Once(p: Pool, id: nat) {
    Count(p.sent, id, true) == (if id >= |p.taps| || Unpressed(p.slots, id) then 0 else 1) &&
    Count(p.sent, id, false) == (if id >= |p.taps| || InSlot(p.slots, id) then 0 else 1)
  }

  predicate PressFirst(sent: seq<Sent>) {
    forall i, j | 0 <= i < |sent| && 0 <= j < |sent| && sent[i].id == sent[j].id && sent[i].pressed && !sent[j].pressed ::
      sent[i].tick < sent[j].tick
  }

  ghost predicate Inv(p: Pool) {
    SlotsGood(p) && (forall e | e in p.sent :: SentGood(p, e)) && PressFirst(p.sent) && forall id: nat :: Once(p, id)
  }

  lemma FireKeepsOnce(p: Pool, code: nat, durationMs: nat, delayMs: nat, now: int, id: nat)
    requires SlotsGood(p) && Once(p, id)
    ensures Once(FireTap(p, code, durationMs, delayMs, now), id)
  {
    var q := FireTap(p, code, durationMs, delayMs, now);
    var k := FirstFree(p.slots, 0);
    hide Count, FirstFree;
    if q != p {
      assert forall i | 0 <= i < |p.slots| && i != k :: q.slots[i] == p.slots[i];
      if id == |p.taps| {
        assert Holds(q.slots[k], id);
      } else {
        forall i | 0 <= i < |p.slots| && Holds(p.slots[i], id) ensures Holds(q.slots[i], id) && q.slots[i] == p.slots[i] {
        }
        assert !Holds(q.slots[k], id);
      }
    }
  }

  lemma FireKeepsInv(p: Pool, code: nat, durationMs: nat, delayMs: nat, now: int)
    requires Inv(p)
    ensures Inv(FireTap(p, code, durationMs, delayMs, now))
  {
    hide Once, FirstFree, PressFirst;
    var q := FireTap(p, code, durationMs, delayMs, now);
    forall id: nat ensures Once(q, id) {
      FireKeepsOnce(p, code, durationMs, delayMs, now, id);
    }
    forall e | e in q.sent ensures SentGood(q, e) {
      assert SentGood(p, e);
    }
    forall i | 0 <= i < |q.slots| ensures SlotGood(q.taps, q.slots[i]) {
      assert i < |p.slots| && SlotGood(p.taps, p.slots[i]);
    }
  }

  /** Where a tap is after a tick. */
  lemma AdvancedPlaces(p: Pool, now: int, id: nat)
    requires SlotsGood(p)
    ensures var q := Advanced(p.slots, now);
            (Unpressed(q, id) <==> Unpressed(p.slots, id) && !exists i :: 0 <= i < |p.slots| && Holds(p.slots[i], id) && Due(p.slots[i], now, true)) &&
            (InSlot(q, id) <==> InSlot(p.slots, id) && !exists i :: 0 <= i < |p.slots| && Holds(p.slots[i], id) && Due(p.slots[i], now, false))
  {
    var q := Advanced(p.slots, now);
    hide SlotGood;
    if InSlot(p.slots, id) {
      var k :| 0 <= k < |p.slots| && Holds(p.slots[k], id);
      assert forall i | 0 <= i < |p.slots| && i != k :: !Holds(p.slots[i], id);
      assert forall i | 0 <= i < |p.slots| && i != k :: !Holds(q[i], id);
      assert q[k] == Advance(p.slots[k], now);
      assert Unpressed(q, id) <==> Holds(q[k], id) && q[k].WaitPress?;
      assert InSlot(q, id) <==> Holds(q[k], id);
      assert Unpressed(p.slots, id) <==> p.slots[k].WaitPress?;
    } else {
      assert forall i | 0 <= i < |p.slots| :: !Holds(p.slots[i], id) && q[i] == Advance(p.slots[i], now);
      assert forall i | 0 <= i < |p.slots| :: !Holds(q[i], id);
    }
  }

  lemma TickKeepsOnce(p: Pool, now: int, id: nat)
    requires SlotsGood(p) && Once(p, id)
    ensures Once(Tick(p, now), id)
  {
    var releases, presses := Sending(p.slots, now, p.ticks, false), Sending(p.slots, now, p.ticks, true);
    AdvancedPlaces(p, now, id);
    CountConcat(p.sent, releases + presses, id, true);
    CountConcat(p.sent, releases + presses, id, false);
    CountConcat(releases, presses, id, true);
    CountConcat(releases, presses, id, false);
    SendingCounts(p.slots, now, p.ticks, true, id, true);
    SendingCounts(p.slots, now, p.ticks, true, id, false);
    SendingCounts(p.slots, now, p.ticks, false, id, true);
    SendingCounts(p.slots, now, p.ticks, false, id, false);
    hide Count, Sending, Advanced, DistinctIds;
    assert forall i | 0 <= i < |p.slots| && Holds(p.slots[i], id) && Due(p.slots[i], now, true) :: Unpressed(p.slots, id) && SlotGood(p.taps, p.slots[i]);
    assert forall i | 0 <= i < |p.slots| && Holds(p.slots[i], id) && Due(p.slots[i], now, false) :: InSlot(p.slots, id) && SlotGood(p.taps, p.slots[i]);
  }

  /** Each message of a tick comes from a slot that is due for it. */
  predicate FromSlot(slots: seq<Slot>, now: int, tick: nat, pressed: bool, e: Sent) {
    e.pressed == pressed && e.tick == tick && e.now == now &&
    exists i :: 0 <= i < |slots| && Holds(slots[i], e.id) && slots[i].code == e.code && Due(slots[i], now, pressed)
  }

  lemma {:induction false} SendingFromSlots(slots: seq<Slot>, now: int, tick: nat, pressed: bool)
    ensures forall e | e in Sending(slots, now, tick, pressed) :: FromSlot(slots, now, tick, pressed, e)
  {
    if slots != [] {
      var m := |slots| - 1;
      SendingFromSlots(slots[..m], now, tick, pressed);
      forall e | e in Sending(slots, now, tick, pressed) ensures FromSlot(slots, now, tick, pressed, e) {
        if e in Sending(slots[..m], now, tick, pressed) {
          var i :| 0 <= i < m && Holds(slots[..m][i], e.id) && slots[..m][i].code == e.code && Due(slots[..m][i], now, pressed);
          assert Holds(slots[i], e.id);
        } else {
          assert Holds(slots[m], e.id);
        }
      }
    }
  }

  lemma {:induction false} SentCounts(sent: seq<Sent>, e: Sent)
    requires e in sent
    ensures Count(sent, e.id, e.pressed) > 0
  {
    if sent[|sent| - 1] != e {
      SentCounts(sent[..|sent| - 1], e);
    }
  }

  lemma TickSentGood(p: Pool, now: int)
    requires Inv(p)
    ensures forall e | e in Tick(p, now).sent :: SentGood(Tick(p, now), e)
  {
    var q := Tick(p, now);
    SendingFromSlots(p.slots, now, p.ticks, false);
    SendingFromSlots(p.slots, now, p.ticks, true);
    hide Once, PressFirst, Sending;
    forall e | e in q.sent ensures SentGood(q, e) {
      if e in p.sent {
        assert SentGood(p, e);
      } else {
        assert FromSlot(p.slots, now, p.ticks, e.pressed, e);
        var i :| 0 <= i < |p.slots| && Holds(p.slots[i], e.id) && p.slots[i].code == e.code && Due(p.slots[i], now, e.pressed);
        assert SlotGood(p.taps, p.slots[i]);
      }
    }
  }

  /** No press follows a release of the same tap. */
  lemma NoLatePress(p: Pool, now: int, a: Sent, b: Sent)
    requires Inv(p) && FromSlot(p.slots, now, p.ticks, true, a) && a.id == b.id && !b.pressed
    ensures b !in p.sent && !FromSlot(p.slots, now, p.ticks, false, b)
  {
    var i :| 0 <= i < |p.slots| && Holds(p.slots[i], a.id) && p.slots[i].code == a.code && Due(p.slots[i], now, true);
    assert Once(p, a.id) && InSlot(p.slots, a.id);
    assert SlotGood(p.taps, p.slots[i]);
    hide Count;
    if b in p.sent {
      SentCounts(p.sent, b);
    }
  }

  lemma TickPressFirst(p: Pool, now: int)
    requires Inv(p)
    ensures PressFirst(Tick(p, now).sent)
  {
    var q := Tick(p, now);
    SendingFromSlots(p.slots, now, p.ticks, false);
    SendingFromSlots(p.slots, now, p.ticks, true);
    forall e | e in q.sent ensures e in p.sent || FromSlot(p.slots, now, p.ticks, e.pressed, e) {
    }
    forall i, j | 0 <= i < |q.sent| && 0 <= j < |q.sent| && q.sent[i].id == q.sent[j].id && q.sent[i].pressed && !q.sent[j].pressed
      ensures q.sent[i].tick < q.sent[j].tick
    {
      var a, b := q.sent[i], q.sent[j];
      hide Once, Sending, Inv;
      assert a in q.sent && b in q.sent;
      if a in p.sent {
        OldPress(p, now, a, b);
      } else {
        NoLatePress(p, now, a, b);
      }
    }
  }

  lemma OldPress(p: Pool, now: int, a: Sent, b: Sent)
    requires Inv(p) && a in p.sent && a.pressed && !b.pressed && a.id == b.id
    requires b in p.sent || FromSlot(p.slots, now, p.ticks, false, b)
    ensures a.tick < b.tick
  {
    hide Once;
    assert SentGood(p, a);
    if b in p.sent {
      var i :| 0 <= i < |p.sent| && p.sent[i] == a;
      var j :| 0 <= j < |p.sent| && p.sent[j] == b;
    }
  }

  lemma TickKeepsInv(p: Pool, now: int)
    requires Inv(p)
    ensures Inv(Tick(p, now))
  {
    var q := Tick(p, now);
    TickSentGood(p, now);
    TickPressFirst(p, now);
    forall id: nat ensures Once(q, id) {
      assert Once(p, id);
      hide Once;
      TickKeepsOnce(p, now, id);
    }
    hide Once, PressFirst, SentGood, Sending;
    forall i | 0 <= i < |q.slots| ensures SlotGood(q.taps, q.slots[i]) {
      assert SlotGood(p.taps, p.slots[i]) && q.slots[i] == Advance(p.slots[i], now);
    }
  }

  lemma {:induction false} RunGood(events: seq<Event>)
    ensures Inv(Run(events))
  {
    if events == [] {
      forall id: nat ensures Once(EMPTY, id) {
        assert forall i | 0 <= i < 16 :: EMPTY.slots[i] == Free;
      }
    } else {
      hide Inv, FireTap, Tick;
      RunGood(events[..|events| - 1]);
      var p := Run(events[..|events| - 1]);
      match events[|events| - 1] {
        case Fire(code, durationMs, delayMs, now) => FireKeepsInv(p, code, durationMs, delayMs, now);
        case At(now) => TickKeepsInv(p, now);
      }
    }
  }

  // ---------- Main results ----------

  /** In every run, an accepted tap has been pressed exactly once unless it still waits
      for that, and released exactly once unless it still holds its slot. */
  lemma ExactlyOnce(events: seq<Event>, id: nat)
    requires id < |Run(events).taps|
    ensures var p := Run(events);
            Count(p.sent, id, true) == (if Unpressed(p.slots, id) then 0 else 1) &&
            Count(p.sent, id, false) == (if InSlot(p.slots, id) then 0 else 1)
  {
    RunGood(events);
    assert Once(Run(events), id);
    hide Run, Count, Unpressed, InSlot;
  }

  /** Presses and releases carry the code of their tap, come no earlier than their
      deadlines, and the release goes out in a later tick than the press. */
  lemma OnTime(events: seq<Event>)
    ensures var p := Run(events);
            (forall e | e in p.sent ::
               e.id < |p.taps| && e.code == p.taps[e.id].code &&
               e.now >= if e.pressed then p.taps[e.id].pressAt else p.taps[e.id].releaseAt) &&
            forall i, j | 0 <= i < |p.sent| && 0 <= j < |p.sent| && p.sent[i].id == p.sent[j].id &&
                          p.sent[i].pressed && !p.sent[j].pressed :: p.sent[i].tick < p.sent[j].tick
  {
    RunGood(events);
    var p := Run(events);
    hide Run, Once;
    forall e | e in p.sent ensures e.id < |p.taps| && e.code == p.taps[e.id].code &&
      e.now >= if e.pressed then p.taps[e.id].pressAt else p.taps[e.id].releaseAt
    {
      assert SentGood(p, e);
    }
  }

  /** Two ticks after every deadline has passed, all taps are done. */
  lemma AllDone(events: seq<Event>, t1: int, t2: int)
    requires var p := Run(events); forall i | 0 <= i < |p.taps| :: p.taps[i].pressAt <= t1 && p.taps[i].releaseAt <= t2
    ensures var p := Run(events + [At(t1)] + [At(t2)]);
            forall id | 0 <= id < |p.taps| :: Count(p.sent, id, true) == 1 && Count(p.sent, id, false) == 1
  {
    var p := Run(events);
    assert (events + [At(t1)])[..|events|] == events;
    assert (events + [At(t1)] + [At(t2)])[..|events| + 1] == events + [At(t1)];
    var q := Run(events + [At(t1)] + [At(t2)]);
    assert Run(events + [At(t1)]) == Tick(p, t1);
    assert q == Tick(Tick(p, t1), t2);
    RunGood(events);
    assert SlotsGood(p);
    forall i | 0 <= i < |q.slots| ensures q.slots[i] == Free {
      assert SlotGood(p.taps, p.slots[i]);
      assert q.slots[i] == Advance(Advance(p.slots[i], t1), t2);
    }
    forall id | 0 <= id < |q.taps| ensures Count(q.sent, id, true) == 1 && Count(q.sent, id, false) == 1 {
      ExactlyOnce(events + [At(t1)] + [At(t2)], id);
    }
  }
}
