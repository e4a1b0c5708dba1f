/** When a scheduled tap is pressed and released, told from its request alone. */
module TapTimes {
  import opened TapSlots

  // ---------- Told from the events ----------

  /** The first tick from event j on that is not before the deadline, or the number of events. */
  function FirstTick(events: seq<Event>, deadline: int, j: nat): (n: nat)
    requires j <= |events|
    ensures j <= n <= |events| && (n < |events| ==> events[n].At? && events[n].now >= deadline)
    ensures forall m | j <= m < n && events[m].At? :: events[m].now < deadline
    decreases |events| - j
  {
    if j == |events| || (events[j].At? && events[j].now >= deadline) then j else FirstTick(events, deadline, j + 1)
  }

  function Ticks(events: seq<Event>): nat {
    if events == [] then 0 else Ticks(events[..|events| - 1]) + if events[|events| - 1].At? then 1 else 0
  }

  /** The time at which a requested tap is to be pressed, and the one of its release. */
  function PressTime(e: Event): int
    requires e.Fire?
  {
    e.now + e.delayMs * 1000
  }

  function ReleaseTime(e: Event): int
    requires e.Fire?
  {
    e.now + (e.delayMs + if e.durationMs > 0 then e.durationMs else 10) * 1000
  }

  /** What has been sent for the tap that event k requested as number id: its press at the
      first tick that is not too early, and its release at the first later one. */
  predicate Told(events: seq<Event>, k: nat, id: nat, e: Sent)
    requires k < |events| && events[k].Fire?
  {
    var j := FirstTick(events, PressTime(events[k]), k + 1);
    j < |events| &&
    (e == Sent(id, events[k].code, true, Ticks(events[..j]), events[j].now) ||
     var r := FirstTick(events, ReleaseTime(events[k]), j + 1);
     r < |events| && e == Sent(id, events[k].code, false, Ticks(events[..r]), events[r].now))
  }

  // ---------- One slot ----------

  ghost predicate HasRoom(p: Pool) {
    exists i :: 0 <= i < |p.slots| && p.slots[i] == Free
  }

  /** Slot i holds the tap. */
  ghost predicate Stands(p: Pool, i: nat, slot: Slot) {
    i < |p.slots| && p.slots[i] == slot && slot != Free
  }

  lemma {:induction false} RoomIs(slots: seq<Slot>, i: nat)
    requires i <= |slots|
    ensures FirstFree(slots, i) < |slots| <==> exists j :: i <= j < |slots| && slots[j] == Free
    decreases |slots| - i
  {
    if i < |slots| {
      RoomIs(slots, i + 1);
    }
  }

  lemma FireLeaves(p: Pool, e: Event, i: nat, slot: Slot)
    requires e.Fire? && Stands(p, i, slot)
    ensures Stands(Next(p, e), i, slot) && Next(p, e).sent == p.sent && Next(p, e).ticks == p.ticks
  {
    hide FirstFree;
  }

  lemma {:induction false} SendingHas(slots: seq<Slot>, now: int, tick: nat, pressed: bool, i: nat)
    requires i < |slots| && Due(slots[i], now, pressed)
    ensures Sent(slots[i].id, slots[i].code, pressed, tick, now) in Sending(slots, now, tick, pressed)
  {
    hide Due;
    var m := |slots| - 1;
    if i < m {
      SendingHas(slots[..m], now, tick, pressed, i);
    }
  }

  /** A tick that is too early for the slot, or due for its press, or for its release. */
  lemma TickMoves(p: Pool, now: int, i: nat, slot: Slot)
    requires Stands(p, i, slot)
    ensures var q := Tick(p, now);
            q.ticks == p.ticks + 1 && i < |q.slots| && p.sent <= q.sent && q.slots[i] == Advance(slot, now) &&
            (Due(slot, now, true) ==> Sent(slot.id, slot.code, true, p.ticks, now) in q.sent) &&
            (Due(slot, now, false) ==> Sent(slot.id, slot.code, false, p.ticks, now) in q.sent)
  {
    hide Sending, Due, Advance;
    if Due(slot, now, true) {
      SendingHas(p.slots, now, p.ticks, true, i);
    }
    if Due(slot, now, false) {
      SendingHas(p.slots, now, p.ticks, false, i);
    }
  }

  // ---------- Runs ----------

  lemma RunNext(events: seq<Event>, j: nat)
    requires j < |events|
    ensures Run(events[..j + 1]) == Next(Run(events[..j]), events[j])
    ensures Ticks(events[..j + 1]) == Ticks(events[..j]) + if events[j].At? then 1 else 0
  {
    assert events[..j + 1][..j] == events[..j];
    hide Next;
  }

  lemma {:induction false} TicksAre(events: seq<Event>)
    ensures Run(events).ticks == Ticks(events)
  {
    hide FirstFree, Sending;
    if events != [] {
      TicksAre(events[..|events| - 1]);
    }
  }

  lemma {:induction false} SentStays(events: seq<Event>, j: nat, e: Sent)
    requires j <= |events| && e in Run(events[..j]).sent
    ensures e in Run(events).sent
  {
    hide FirstFree, Sending;
    if j == |events| {
      assert events[..j] == events;
    } else {
      assert events[..|events| - 1][..j] == events[..j];
      SentStays(events[..|events| - 1], j, e);
    }
  }

  /** While no tick is late enough, the slot stays. */
  lemma {:induction false} Stays(events: seq<Event>, i: nat, slot: Slot, k: nat, j: nat)
    requires k <= j <= |events| && Stands(Run(events[..k]), i, slot)
    requires forall m | k <= m < j && events[m].At? :: events[m].now < if slot.WaitPress? then slot.pressAt else slot.releaseAt
    ensures Stands(Run(events[..j]), i, slot)
  {
    hide Run, FireTap, Tick;
    if k < j {
      Stays(events, i, slot, k, j - 1);
      RunNext(events, j - 1);
      var e := events[j - 1];
      if e.Fire? {
        FireLeaves(Run(events[..j - 1]), e, i, slot);
      } else {
        TickMoves(Run(events[..j - 1]), e.now, i, slot);
      }
    }
  }

  /** Event k requests a tap and it is accepted. */
  ghost predicate IsAccepted(events: seq<Event>, k: nat) {
    k < |events| && events[k].Fire? && events[k].code != 0 && HasRoom(Run(events[..k]))
  }

  lemma Accepted(events: seq<Event>, k: nat) returns (i: nat)
    requires k < |events| && events[k].Fire?
    ensures var p, q, e := Run(events[..k]), Run(events[..k + 1]), events[k];
            if IsAccepted(events, k)
            then q.taps == p.taps + [Tap(e.code, PressTime(e), ReleaseTime(e))] &&
                 Stands(q, i, WaitPress(e.code, PressTime(e), ReleaseTime(e), |p.taps|))
            else q == p
  {
    hide Run, FirstFree;
    var p := Run(events[..k]);
    RunNext(events, k);
    RoomIs(p.slots, 0);
    i := FirstFree(p.slots, 0);
  }

  lemma {:induction false} CountsTwo(sent: seq<Sent>, a: Sent, b: Sent)
    requires a in sent && b in sent && a != b && a.id == b.id && a.pressed == b.pressed
    ensures Count(sent, a.id, a.pressed) >= 2
  {
    var m := |sent| - 1;
    if a in sent[..m] && b in sent[..m] {
      CountsTwo(sent[..m], a, b);
    } else if a in sent[..m] {
      SentCounts(sent[..m], a);
    } else {
      assert b in sent[..m];
      SentCounts(sent[..m], b);
    }
  }

  lemma OnlyOne(events: seq<Event>, a: Sent, b: Sent)
    requires a in Run(events).sent && b in Run(events).sent && a.id == b.id && a.pressed == b.pressed
    ensures a == b
  {
    RunGood(events);
    assert Once(Run(events), a.id);
    hide Run, Count, Inv;
    if a != b {
      CountsTwo(Run(events).sent, a, b);
    }
  }

  /** A tap that waits for its press or its release has not been sent that. */
  lemma NotYet(events: seq<Event>, i: nat, slot: Slot, e: Sent)
    requires Stands(Run(events), i, slot) && e.id == slot.id && (e.pressed ==> slot.WaitPress?)
    ensures e !in Run(events).sent
  {
    RunGood(events);
    var p := Run(events);
    assert Once(p, e.id) && SlotGood(p.taps, p.slots[i]);
    assert Holds(p.slots[i], e.id);
    hide Run, Count, Inv;
    if e in p.sent {
      SentCounts(p.sent, e);
    }
  }

  // ---------- Main results ----------

  /** The press is sent by the first tick that is not too early, and not before. */
  lemma Pressed(events: seq<Event>, k: nat, i: nat, slot: Slot)
    requires k < |events| && slot.WaitPress? && Stands(Run(events[..k + 1]), i, slot)
    ensures var j := FirstTick(events, slot.pressAt, k + 1);
            if j == |events| then Stands(Run(events), i, slot)
            else Sent(slot.id, slot.code, true, Ticks(events[..j]), events[j].now) in Run(events).sent &&
                 Stands(Run(events[..j + 1]), i, WaitRelease(slot.code, slot.pressAt, slot.releaseAt, slot.id))
  {
    hide Run, Ticks, Tick, FirstTick;
    var j := FirstTick(events, slot.pressAt, k + 1);
    Stays(events, i, slot, k + 1, j);
    if j == |events| {
      assert events[..j] == events;
    } else {
      RunNext(events, j);
      TicksAre(events[..j]);
      TickMoves(Run(events[..j]), events[j].now, i, slot);
      SentStays(events, j + 1, Sent(slot.id, slot.code, true, Ticks(events[..j]), events[j].now));
    }
  }

  lemma Released(events: seq<Event>, j: nat, i: nat, slot: Slot)
    requires j < |events| && slot.WaitRelease? && Stands(Run(events[..j + 1]), i, slot)
    ensures var r := FirstTick(events, slot.releaseAt, j + 1);
            if r == |events| then Stands(Run(events), i, slot)
            else Sent(slot.id, slot.code, false, Ticks(events[..r]), events[r].now) in Run(events).sent
  {
    hide Run, Ticks, Tick, FirstTick;
    var r := FirstTick(events, slot.releaseAt, j + 1);
    Stays(events, i, slot, j + 1, r);
    if r == |events| {
      assert events[..r] == events;
    } else {
      RunNext(events, r);
      TicksAre(events[..r]);
      TickMoves(Run(events[..r]), events[r].now, i, slot);
      SentStays(events, r + 1, Sent(slot.id, slot.code, false, Ticks(events[..r]), events[r].now));
    }
  }

  /** What is told has been sent. */
  lemma ToldIsSent(events: seq<Event>, k: nat, id: nat, i: nat, e: Sent)
    requires k < |events| && events[k].Fire? && Told(events, k, id, e)
    requires Stands(Run(events[..k + 1]), i, WaitPress(events[k].code, PressTime(events[k]), ReleaseTime(events[k]), id))
    ensures e in Run(events).sent
  {
    hide Run, Ticks, FirstTick, PressTime, ReleaseTime, Stands;
    var slot := WaitPress(events[k].code, PressTime(events[k]), ReleaseTime(events[k]), id);
    Pressed(events, k, i, slot);
    var j := FirstTick(events, slot.pressAt, k + 1);
    Released(events, j, i, WaitRelease(slot.code, slot.pressAt, slot.releaseAt, id));
  }

  /** What is not told has not been sent. */
  lemma SentIsTold(events: seq<Event>, k: nat, id: nat, i: nat, e: Sent)
    requires k < |events| && events[k].Fire? && e in Run(events).sent && e.id == id
    requires Stands(Run(events[..k + 1]), i, WaitPress(events[k].code, PressTime(events[k]), ReleaseTime(events[k]), id))
    ensures Told(events, k, id, e)
  {
    hide Run, Ticks, FirstTick, PressTime, ReleaseTime, Stands;
    var slot := WaitPress(events[k].code, PressTime(events[k]), ReleaseTime(events[k]), id);
    Pressed(events, k, i, slot);
    var j := FirstTick(events, slot.pressAt, k + 1);
    if j == |events| {
      NotYet(events, i, slot, e);
    } else if e.pressed {
      OnlyOne(events, e, Sent(id, slot.code, true, Ticks(events[..j]), events[j].now));
    } else {
      var held := WaitRelease(slot.code, slot.pressAt, slot.releaseAt, id);
      Released(events, j, i, held);
      var r := FirstTick(events, slot.releaseAt, j + 1);
      if r == |events| {
        NotYet(events, i, held, e);
      } else {
        OnlyOne(events, e, Sent(id, slot.code, false, Ticks(events[..r]), events[r].now));
      }
    }
  }

  /** Over every run: a requested tap is accepted exactly when it has a code and a slot is
      free; it is then pressed at the first tick that is not before its delay is over,
      released at the first later one that is not before its duration is over too, and
      nothing else is sent for it; otherwise the request changes nothing. */
  lemma TapIsTold(events: seq<Event>, k: nat)
    requires k < |events| && events[k].Fire?
    ensures var id := |Run(events[..k]).taps|;
            if IsAccepted(events, k) then forall e: Sent | e.id == id :: e in Run(events).sent <==> Told(events, k, id, e)
            else Run(events[..k + 1]) == Run(events[..k])
  {
    hide Run, Told, Stands, HasRoom, PressTime, ReleaseTime;
    var i := Accepted(events, k);
    var id := |Run(events[..k]).taps|;
    if IsAccepted(events, k) {
      forall e: Sent | e.id == id ensures e in Run(events).sent <==> Told(events, k, id, e) {
        if e in Run(events).sent {
          SentIsTold(events, k, id, i, e);
        } else if Told(events, k, id, e) {
          ToldIsSent(events, k, id, i, e);
        }
      }
    }
  }

  predicate Sends(e: Sent, pressed: bool, tick: nat) {
    e.pressed == pressed && e.tick == tick
  }

  lemma {:induction false} SendingAll(slots: seq<Slot>, now: int, tick: nat, pressed: bool)
    ensures forall e | e in Sending(slots, now, tick, pressed) :: Sends(e, pressed, tick)
  {
    hide Due;
    if slots != [] {
      SendingAll(slots[..|slots| - 1], now, tick, pressed);
    }
  }

  /** Messages of earlier ticks come first, and of one tick the releases. */
  predicate InOrder(sent: seq<Sent>, ticks: nat) {
    (forall e | e in sent :: e.tick < ticks) &&
    forall i, j | 0 <= i < j < |sent| :: sent[i].tick <= sent[j].tick && (sent[i].tick == sent[j].tick && sent[i].pressed ==> sent[j].pressed)
  }

  /** In one tick the releases go out before the presses, and ticks follow each other. */
  lemma {:induction false} ReleasesFirst(events: seq<Event>)
    ensures InOrder(Run(events).sent, Run(events).ticks)
  {
    hide FirstFree, Sending, InOrder;
    if events == [] {
      NothingInOrder();
    } else {
      var p, last := Run(events[..|events| - 1]), events[|events| - 1];
      ReleasesFirst(events[..|events| - 1]);
      if last.At? {
        SendingAll(p.slots, last.now, p.ticks, false);
        SendingAll(p.slots, last.now, p.ticks, true);
        TickOrder(p, last.now);
      }
    }
  }

  lemma NothingInOrder()
    ensures InOrder([], 0)
  {
  }

  lemma TickOrder(p: Pool, now: int)
    requires InOrder(p.sent, p.ticks)
    requires forall e | e in Sending(p.slots, now, p.ticks, false) :: Sends(e, false, p.ticks)
    requires forall e | e in Sending(p.slots, now, p.ticks, true) :: Sends(e, true, p.ticks)
    ensures InOrder(Tick(p, now).sent, Tick(p, now).ticks)
  {
    hide Sending;
    var a, b, c := p.sent, Sending(p.slots, now, p.ticks, false), Sending(p.slots, now, p.ticks, true);
    var sent := Tick(p, now).sent;
    forall i | 0 <= i < |sent|
      ensures if i < |a| then sent[i] == a[i] && a[i].tick < p.ticks else Sends(sent[i], i >= |a| + |b|, p.ticks)
    {
      if i < |a| {
        assert a[i] in a;
      } else if i < |a| + |b| {
        assert b[i - |a|] in b;
      } else {
        assert c[i - |a| - |b|] in c;
      }
    }
  }
}
