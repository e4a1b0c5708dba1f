/** What a press of a system action comes to, and when, told from the events alone. */
module ActionTiming {
  import opened SystemAction

  // ---------- A gesture, told from the events ----------

  /** A press that is waited on: its time, and the times in microseconds that make a
      hold and that leave room for a second tap. */
  datatype Gesture = Gesture(code: nat, at: int, holdUs: nat, doubleTapUs: nat)

  function GestureOf(e: Event): Gesture
    requires e.Key?
  {
    Gesture(e.code, e.now,
            if e.timing.holdMs > 0 then e.timing.holdMs * 1000 else 500000,
            if e.timing.doubleTapMs > 0 then e.timing.doubleTapMs * 1000 else 300000)
  }

  predicate Presses(g: Gesture, e: Event) {
    e.Key? && e.code == g.code && e.pressed
  }

  predicate Lifts(g: Gesture, e: Event) {
    e.Key? && e.code == g.code && !e.pressed
  }

  /** Its key comes up, or a poll comes late enough after the press for a hold. */
  predicate Decides(g: Gesture, e: Event) {
    Lifts(g, e) || (e.At? && e.now - g.at >= g.holdUs)
  }

  /** Its key comes down again, or a poll comes late enough after the release at time t. */
  predicate EndsWait(g: Gesture, t: int, e: Event) {
    Presses(g, e) || (e.At? && e.now - t >= g.doubleTapUs)
  }

  function FirstDecider(g: Gesture, events: seq<Event>, j: nat): (d: nat)
    requires j <= |events|
    ensures j <= d <= |events| && (d < |events| ==> Decides(g, events[d])) && forall m | j <= m < d :: !Decides(g, events[m])
    decreases |events| - j
  {
    if j == |events| || Decides(g, events[j]) then j else FirstDecider(g, events, j + 1)
  }

  function WaitEnd(g: Gesture, events: seq<Event>, t: int, j: nat): (w: nat)
    requires j <= |events|
    ensures j <= w <= |events| && (w < |events| ==> EndsWait(g, t, events[w])) && forall m | j <= m < w :: !EndsWait(g, t, events[m])
    decreases |events| - j
  {
    if j == |events| || EndsWait(g, t, events[j]) then j else WaitEnd(g, events, t, j + 1)
  }

  function FirstLift(g: Gesture, events: seq<Event>, j: nat): (u: nat)
    requires j <= |events|
    ensures j <= u <= |events| && (u < |events| ==> Lifts(g, events[u])) && forall m | j <= m < u :: !Lifts(g, events[m])
    decreases |events| - j
  {
    if j == |events| || Lifts(g, events[j]) then j else FirstLift(g, events, j + 1)
  }

  /** What the gesture that event k begins has come to. */
  function Outcome(g: Gesture, events: seq<Event>, k: nat): seq<Kind>
    requires k < |events|
  {
    var d := FirstDecider(g, events, k + 1);
    if d == |events| then []
    else if events[d].At? then [Hold]
    else
      var w := WaitEnd(g, events, events[d].now, d + 1);
      if w == |events| then [] else if events[w].Key? then [DoubleTap] else [SingleTap]
  }

  /** The event that ends the gesture, or their number: the release after a hold, or the
      end of the wait for a second tap. */
  function End(g: Gesture, events: seq<Event>, k: nat): (n: nat)
    requires k < |events|
    ensures k < n <= |events|
  {
    var d := FirstDecider(g, events, k + 1);
    if d == |events| then d
    else if events[d].At? then FirstLift(g, events, d + 1)
    else WaitEnd(g, events, events[d].now, d + 1)
  }

  // ---------- What the engine keeps and notifies for one code ----------

  function TrackerOf(p: Pool, code: nat): (t: Tracker)
    ensures t.Busy? ==> t.code == code
  {
    var k := Find(p.trackers, code, 0);
    if k == |p.trackers| then Idle else p.trackers[k]
  }

  /** What has been notified of the code, apart from its presses and releases. */
  function Told(notes: seq<Note>, code: nat): seq<Kind> {
    if notes == [] then []
    else
      var last := notes[|notes| - 1];
      Told(notes[..|notes| - 1], code) + if last.code == code && last.kind != Press && last.kind != Release then [last.kind] else []
  }

  lemma ToldSnoc(notes: seq<Note>, n: Note, code: nat)
    ensures Told(notes + [n], code) == Told(notes, code) + if n.code == code && n.kind != Press && n.kind != Release then [n.kind] else []
  {
    assert (notes + [n])[..|notes|] == notes;
  }

  lemma {:induction false} ToldConcat(a: seq<Note>, b: seq<Note>, code: nat)
    ensures Told(a + b, code) == Told(a, code) + Told(b, code)
  {
    if b == [] {
      assert a + b == a;
    } else {
      ToldConcat(a, b[..|b| - 1], code);
      assert (a + b)[..|a + b| - 1] == a + b[..|b| - 1];
    }
  }

  lemma {:induction false} ToldOnce(codes: seq<nat>, kind: Kind, code: nat)
    requires kind != Press && kind != Release && Occurs(codes, code) <= 1
    ensures Told(Notes(codes, kind), code) == if Occurs(codes, code) == 1 then [kind] else []
  {
    if codes != [] {
      var m := |codes| - 1;
      ToldOnce(codes[..m], kind, code);
      assert Notes(codes, kind)[..m] == Notes(codes[..m], kind);
    }
  }

  lemma FoundIs(trackers: seq<Tracker>, code: nat, k: nat)
    requires Distinct(trackers) && k < |trackers| && trackers[k].Busy? && trackers[k].code == code
    ensures Find(trackers, code, 0) == k
  {
  }

  lemma NotFound(trackers: seq<Tracker>, code: nat)
    requires forall i | 0 <= i < |trackers| :: !(trackers[i].Busy? && trackers[i].code == code)
    ensures Find(trackers, code, 0) == |trackers|
  {
  }

  /** Setting one tracker to t, which is idle or keeps the code it had or a code that no
      tracker has. */
  lemma TrackerAfter(p: Pool, q: Pool, k: nat, t: Tracker, code: nat)
    requires Distinct(p.trackers) && k < |p.trackers| && q.trackers == p.trackers[k := t]
    requires t.Busy? ==> (p.trackers[k].Busy? && p.trackers[k].code == t.code) || (p.trackers[k] == Idle && TrackerOf(p, t.code) == Idle)
    ensures TrackerOf(q, code) ==
            if t.Busy? && t.code == code then t
            else if p.trackers[k].Busy? && p.trackers[k].code == code then Idle else TrackerOf(p, code)
  {
    hide Find;
    var was, now := p.trackers, q.trackers;
    forall i | 0 <= i < |was| && i != k ensures now[i] == was[i] {
    }
    if t.Busy? {
      WaitingAfter(was, k, t, code);
    }
    var found := Find(was, code, 0);
    if t.Busy? && t.code == code {
      FoundIs(now, code, k);
    } else if (p.trackers[k].Busy? && p.trackers[k].code == code) || found == |was| {
      NotFound(now, code);
    } else {
      FoundIs(now, code, found);
    }
  }

  // ---------- One event ----------

  predicate HasRoom(p: Pool) {
    exists i :: 0 <= i < |p.trackers| && p.trackers[i] == Idle
  }

  lemma PressStep(p: Pool, pressed: nat, timing: Timing, now: int, code: nat)
    requires Good(p)
    ensures var q, t := OnPress(p, pressed, timing, now), TrackerOf(p, code);
            TrackerOf(q, code) == (if pressed != code then t
                                   else if t == Idle then (if HasRoom(p) then Fresh(code, timing, now) else Idle)
                                   else if t.stage == WaitDouble then Idle else t) &&
            Told(q.log.notes, code) == Told(p.log.notes, code) +
                                       if pressed == code && t.Busy? && t.stage == WaitDouble then [DoubleTap] else []
  {
    hide Find, FirstIdle, Distinct, BusyCount, Told;
    var k, free := Find(p.trackers, pressed, 0), FirstIdle(p.trackers, 0);
    ToldSnoc(p.log.notes, Note(pressed, DoubleTap), code);
    assert free < |p.trackers| <==> HasRoom(p) by {
      RoomIs(p.trackers, 0);
    }
    if k == |p.trackers| {
      if free < |p.trackers| {
        TrackerAfter(p, OnPress(p, pressed, timing, now), free, Fresh(pressed, timing, now), code);
      }
    } else if p.trackers[k].stage == WaitDouble {
      TrackerAfter(p, OnPress(p, pressed, timing, now), k, Idle, code);
    }
  }

  lemma {:induction false} RoomIs(trackers: seq<Tracker>, i: nat)
    requires i <= |trackers|
    ensures FirstIdle(trackers, i) < |trackers| <==> exists j :: i <= j < |trackers| && trackers[j] == Idle
    decreases |trackers| - i
  {
    if i < |trackers| {
      RoomIs(trackers, i + 1);
    }
  }

  lemma ReleaseStep(p: Pool, released: nat, now: int, code: nat)
    requires Good(p)
    ensures var q, t := OnRelease(p, released, now), TrackerOf(p, code);
            TrackerOf(q, code) == (if released != code || t == Idle || t.stage == WaitDouble then t
                                   else if t.stage == Held then Idle else t.(stage := WaitDouble, time := now)) &&
            q.log == p.log
  {
    hide Find, Distinct, BusyCount;
    var k := Find(p.trackers, released, 0);
    if k < |p.trackers| {
      var q, t := OnRelease(p, released, now), p.trackers[k];
      if t.stage == Held {
        TrackerAfter(p, q, k, Idle, code);
      } else if t.stage == WaitHold {
        TrackerAfter(p, q, k, t.(stage := WaitDouble, time := now), code);
      }
    }
  }

  lemma PollStep(p: Pool, now: int, code: nat)
    requires Good(p)
    ensures var q, t := Poll(p, now), TrackerOf(p, code);
            TrackerOf(q, code) == Polled(t, now) &&
            Told(q.log.notes, code) == Told(p.log.notes, code) + if HoldDue(t, now) then [Hold] else if TapDue(t, now) then [SingleTap] else []
  {
    hide Find, Due, Told, BusyCount, Notes, Occurs, HoldDue, TapDue;
    var holds, taps := Due(p.trackers, now, true), Due(p.trackers, now, false);
    DueIs(p, now, true, code);
    DueIs(p, now, false, code);
    ToldConcat(p.log.notes, Notes(holds, Hold) + Notes(taps, SingleTap), code);
    ToldConcat(Notes(holds, Hold), Notes(taps, SingleTap), code);
    ToldOnce(holds, Hold, code);
    ToldOnce(taps, SingleTap, code);
    NotBoth(TrackerOf(p, code), now);
    PolledIs(p, Poll(p, now), now, code);
  }

  lemma NotBoth(t: Tracker, now: int)
    ensures !(HoldDue(t, now) && TapDue(t, now))
  {
  }

  lemma DueIs(p: Pool, now: int, hold: bool, code: nat)
    requires Good(p)
    ensures Occurs(Due(p.trackers, now, hold), code) ==
            if (if hold then HoldDue(TrackerOf(p, code), now) else TapDue(TrackerOf(p, code), now)) then 1 else 0
  {
    hide Find, Due, Occurs, BusyCount, AllPolled;
    DueOnce(p.trackers, now, hold, code);
    var k := Find(p.trackers, code, 0);
    if k < |p.trackers| {
      assert forall i | 0 <= i < |p.trackers| && Waits(p.trackers[i], code) :: i == k;
    }
  }

  lemma PolledIs(p: Pool, q: Pool, now: int, code: nat)
    requires Good(p) && q.trackers == AllPolled(p.trackers, now)
    ensures TrackerOf(q, code) == Polled(TrackerOf(p, code), now)
  {
    hide Find, BusyCount;
    PollWaiting(p.trackers, now, code);
    var k := Find(p.trackers, code, 0);
    if k < |p.trackers| && Polled(p.trackers[k], now).Busy? {
      FoundIs(q.trackers, code, k);
    } else {
      assert forall i | 0 <= i < |p.trackers| :: q.trackers[i] == Polled(p.trackers[i], now);
      NotFound(q.trackers, code);
    }
  }

  // ---------- One event of a gesture ----------

  function Apply(p: Pool, e: Event): Pool {
    match e
    case Key(code, pressed, timing, now) => Process(p, code, pressed, timing, now)
    case At(now) => Poll(p, now)
  }

  function InStage(g: Gesture, stage: Stage, time: int): (t: Tracker)
    ensures t.Busy? && t.code == g.code && t.stage == stage
  {
    Busy(stage, g.code, time, g.doubleTapUs, g.holdUs)
  }

  /** Where the tracker of g is, and what has been notified. */
  ghost predicate Stands(p: Pool, g: Gesture, t: Tracker, told: seq<Kind>) {
    TrackerOf(p, g.code) == t && Told(p.log.notes, g.code) == told
  }

  lemma KeyStep(p: Pool, e: Event, code: nat)
    requires Good(p) && e.Key?
    ensures var q, t := Apply(p, e), TrackerOf(p, code);
            TrackerOf(q, code) ==
              (if e.code != code then t
               else if e.pressed then
                 if t == Idle then (if HasRoom(p) then Fresh(code, e.timing, e.now) else Idle)
                 else if t.stage == WaitDouble then Idle else t
               else if t == Idle || t.stage == WaitDouble then t
               else if t.stage == Held then Idle else t.(stage := WaitDouble, time := e.now)) &&
            Told(q.log.notes, code) == Told(p.log.notes, code) +
                                       if e.code == code && e.pressed && t.Busy? && t.stage == WaitDouble then [DoubleTap] else []
  {
    hide OnPress, OnRelease, Find, Told, BusyCount, Distinct;
    var kind := if e.pressed then Press else Release;
    var noted := Notified(p, e.code, kind);
    ToldSnoc(p.log.notes, Note(e.code, kind), code);
    assert TrackerOf(noted, code) == TrackerOf(p, code) && HasRoom(noted) == HasRoom(p);
    if e.pressed {
      PressStep(noted, e.code, e.timing, e.now, code);
    } else {
      ReleaseStep(noted, e.code, e.now, code);
    }
  }

  lemma WaitHoldStep(p: Pool, g: Gesture, told: seq<Kind>, e: Event)
    requires Good(p) && Stands(p, g, InStage(g, WaitHold, g.at), told)
    ensures Stands(Apply(p, e), g,
                   if !Decides(g, e) then InStage(g, WaitHold, g.at)
                   else if e.At? then InStage(g, Held, g.at) else InStage(g, WaitDouble, e.now),
                   told + if Decides(g, e) && e.At? then [Hold] else [])
  {
    hide TrackerOf, Told, Apply, Good;
    if e.Key? {
      KeyStep(p, e, g.code);
    } else {
      PollStep(p, e.now, g.code);
      assert Apply(p, e) == Poll(p, e.now) by {
        ApplyIs(p, e);
      }
    }
  }

  lemma ApplyIs(p: Pool, e: Event)
    requires e.At?
    ensures Apply(p, e) == Poll(p, e.now)
  {
  }

  lemma HeldStep(p: Pool, g: Gesture, told: seq<Kind>, e: Event)
    requires Good(p) && Stands(p, g, InStage(g, Held, g.at), told)
    ensures Stands(Apply(p, e), g, if Lifts(g, e) then Idle else InStage(g, Held, g.at), told)
  {
    hide TrackerOf, Told, Apply, Good;
    assert told + [] == told;
    if e.Key? {
      KeyStep(p, e, g.code);
    } else {
      PollStep(p, e.now, g.code);
      ApplyIs(p, e);
    }
  }

  lemma WaitDoubleStep(p: Pool, g: Gesture, t: int, told: seq<Kind>, e: Event)
    requires Good(p) && Stands(p, g, InStage(g, WaitDouble, t), told)
    ensures Stands(Apply(p, e), g, if EndsWait(g, t, e) then Idle else InStage(g, WaitDouble, t),
                   told + if !EndsWait(g, t, e) then [] else if e.Key? then [DoubleTap] else [SingleTap])
  {
    hide TrackerOf, Told, Apply, Good;
    if e.Key? {
      KeyStep(p, e, g.code);
    } else {
      PollStep(p, e.now, g.code);
      ApplyIs(p, e);
    }
  }

  lemma BeginStep(p: Pool, e: Event, told: seq<Kind>)
    requires Good(p) && e.Key? && e.pressed && HasRoom(p) && Stands(p, GestureOf(e), Idle, told)
    ensures Stands(Apply(p, e), GestureOf(e), InStage(GestureOf(e), WaitHold, e.now), told)
  {
    hide TrackerOf, Told, Apply, Good, HasRoom;
    KeyStep(p, e, e.code);
    assert told + [] == told;
  }

  // ---------- Runs ----------

  lemma RunNext(events: seq<Event>, j: nat)
    requires j < |events|
    ensures Run(events[..j + 1]) == Apply(Run(events[..j]), events[j])
  {
    assert events[..j + 1][..j] == events[..j];
    hide Process, Poll;
  }

  lemma IsGood(events: seq<Event>)
    ensures Good(Run(events))
  {
    RunGood(events);
    hide Run, Good;
  }

  lemma {:induction false} StaysWaitHold(events: seq<Event>, g: Gesture, told: seq<Kind>, k: nat, j: nat)
    requires k < j <= |events| && Stands(Run(events[..k + 1]), g, InStage(g, WaitHold, g.at), told)
    requires forall m | k < m < j :: !Decides(g, events[m])
    ensures Stands(Run(events[..j]), g, InStage(g, WaitHold, g.at), told)
  {
    hide Run, Apply, Stands, Decides, Good;
    if j > k + 1 {
      StaysWaitHold(events, g, told, k, j - 1);
      RunNext(events, j - 1);
      IsGood(events[..j - 1]);
      WaitHoldStep(Run(events[..j - 1]), g, told, events[j - 1]);
      assert told + [] == told;
    }
  }

  lemma {:induction false} StaysHeld(events: seq<Event>, g: Gesture, told: seq<Kind>, d: nat, j: nat)
    requires d < j <= |events| && Stands(Run(events[..d + 1]), g, InStage(g, Held, g.at), told)
    requires forall m | d < m < j :: !Lifts(g, events[m])
    ensures Stands(Run(events[..j]), g, InStage(g, Held, g.at), told)
  {
    hide Run, Apply, Stands, Lifts, Good;
    if j > d + 1 {
      StaysHeld(events, g, told, d, j - 1);
      RunNext(events, j - 1);
      IsGood(events[..j - 1]);
      HeldStep(Run(events[..j - 1]), g, told, events[j - 1]);
    }
  }

  lemma {:induction false} StaysWaitDouble(events: seq<Event>, g: Gesture, told: seq<Kind>, d: nat, t: int, j: nat)
    requires d < j <= |events| && Stands(Run(events[..d + 1]), g, InStage(g, WaitDouble, t), told)
    requires forall m | d < m < j :: !EndsWait(g, t, events[m])
    ensures Stands(Run(events[..j]), g, InStage(g, WaitDouble, t), told)
  {
    hide Run, Apply, Stands, EndsWait, Good;
    if j > d + 1 {
      StaysWaitDouble(events, g, told, d, t, j - 1);
      RunNext(events, j - 1);
      IsGood(events[..j - 1]);
      WaitDoubleStep(Run(events[..j - 1]), g, t, told, events[j - 1]);
      assert told + [] == told;
    }
  }

  // ---------- Main results ----------

  /** Event k is a press whose code is not tracked yet, with room for it. */
  ghost predicate Begins(events: seq<Event>, k: nat) {
    k < |events| && events[k].Key? && events[k].pressed &&
    TrackerOf(Run(events[..k]), events[k].code) == Idle && HasRoom(Run(events[..k]))
  }

  /** The tracker at the end of the events, or after the event that ends the gesture. */
  ghost predicate Come(events: seq<Event>, k: nat, n: nat)
    requires k < |events| && events[k].Key? && n <= |events|
  {
    var g := GestureOf(events[k]);
    var p := Run(events[..if n < |events| then n + 1 else n]);
    (TrackerOf(p, g.code) == Idle <==> n < |events|) &&
    Told(p.log.notes, g.code) == Told(Run(events[..k]).log.notes, g.code) + Outcome(g, events, k)
  }

  lemma GestureComes(events: seq<Event>, k: nat)
    requires Begins(events, k)
    ensures Come(events, k, End(GestureOf(events[k]), events, k))
  {
    hide Run, Apply, TrackerOf, Told, Good, Decides, HasRoom, GestureOf, FirstDecider, WaitEnd, FirstLift;
    var g, before := GestureOf(events[k]), Run(events[..k]);
    var told := Told(before.log.notes, g.code);
    assert g.code == events[k].code && g.at == events[k].now by {
      CodeIs(events[k]);
    }
    IsGood(events[..k]);
    BeginStep(before, events[k], told);
    RunNext(events, k);
    var d := FirstDecider(g, events, k + 1);
    StaysWaitHold(events, g, told, k, d);
    assert told + [] == told;
    if d < |events| {
      RunNext(events, d);
      IsGood(events[..d]);
      WaitHoldStep(Run(events[..d]), g, told, events[d]);
      if events[d].At? {
        HoldComes(events, g, told + [Hold], d);
      } else {
        TapComes(events, g, told, d);
      }
    }
  }

  lemma CodeIs(e: Event)
    requires e.Key?
    ensures GestureOf(e).code == e.code && GestureOf(e).at == e.now
  {
  }

  lemma HoldComes(events: seq<Event>, g: Gesture, told: seq<Kind>, d: nat)
    requires d < |events| && Stands(Run(events[..d + 1]), g, InStage(g, Held, g.at), told)
    ensures var u := FirstLift(g, events, d + 1);
            if u < |events| then Stands(Run(events[..u + 1]), g, Idle, told) else Stands(Run(events[..u]), g, InStage(g, Held, g.at), told)
  {
    hide Run, Apply, Stands, Good, Lifts, FirstLift;
    var u := FirstLift(g, events, d + 1);
    StaysHeld(events, g, told, d, u);
    if u < |events| {
      RunNext(events, u);
      IsGood(events[..u]);
      HeldStep(Run(events[..u]), g, told, events[u]);
    }
  }

  lemma TapComes(events: seq<Event>, g: Gesture, told: seq<Kind>, d: nat)
    requires d < |events| && Stands(Run(events[..d + 1]), g, InStage(g, WaitDouble, events[d].now), told)
    ensures var w := WaitEnd(g, events, events[d].now, d + 1);
            if w < |events| then Stands(Run(events[..w + 1]), g, Idle, told + if events[w].Key? then [DoubleTap] else [SingleTap])
            else Stands(Run(events[..w]), g, InStage(g, WaitDouble, events[d].now), told)
  {
    hide Run, Apply, Stands, Good, EndsWait, WaitEnd;
    var t := events[d].now;
    var w := WaitEnd(g, events, t, d + 1);
    StaysWaitDouble(events, g, told, d, t, w);
    if w < |events| {
      RunNext(events, w);
      IsGood(events[..w]);
      WaitDoubleStep(Run(events[..w]), g, t, told, events[w]);
    }
  }

  lemma {:induction false} ToldGrows(events: seq<Event>, j: nat, code: nat)
    requires j <= |events|
    ensures Told(Run(events[..j]).log.notes, code) <= Told(Run(events).log.notes, code)
  {
    hide Run, Apply, Told, TrackerOf, Good, HoldDue, TapDue;
    if j == |events| {
      assert events[..j] == events;
    } else {
      var m := |events| - 1;
      var before, e := Run(events[..m]), events[m];
      assert events[..m][..j] == events[..j] && events[..m + 1] == events;
      ToldGrows(events[..m], j, code);
      RunNext(events, m);
      IsGood(events[..m]);
      if e.Key? {
        KeyStep(before, e, code);
      } else {
        PollStep(before, e.now, code);
        ApplyIs(before, e);
      }
    }
  }

  /** Over every run, a press that is taken up comes to exactly what the events say: a
      hold at the first poll late enough after the press if its key is still down then;
      otherwise, after the release, a double tap by a second press or a single tap at the
      first poll late enough after the release, whichever comes first. Nothing else is
      notified of the code before the gesture ends, and then it is not tracked. */
  lemma GestureIs(events: seq<Event>, k: nat)
    requires Begins(events, k)
    ensures var code, g := events[k].code, GestureOf(events[k]);
            var n, came := End(g, events, k), Told(Run(events[..k]).log.notes, code) + Outcome(g, events, k);
            came <= Told(Run(events).log.notes, code) &&
            (n + 1 >= |events| ==> came == Told(Run(events).log.notes, code) &&
                                   (TrackerOf(Run(events), code) == Idle <==> n < |events|))
  {
    hide Run, Told, TrackerOf, Outcome, HasRoom;
    var g := GestureOf(events[k]);
    var n := End(g, events, k);
    GestureComes(events, k);
    hide End;
    var j := if n < |events| then n + 1 else n;
    ToldGrows(events, j, g.code);
    if n + 1 >= |events| {
      assert events[..j] == events;
    }
  }

  /** While a code is not tracked, nothing but a press of it changes that, and nothing is
      notified of it but presses and releases. */
  lemma QuietOutside(events: seq<Event>, e: Event, code: nat)
    requires TrackerOf(Run(events), code) == Idle && !(e.Key? && e.pressed && e.code == code)
    ensures var p := Run(events + [e]);
            TrackerOf(p, code) == Idle && Told(p.log.notes, code) == Told(Run(events).log.notes, code)
  {
    hide Run, Apply, Told, TrackerOf, Good;
    assert (events + [e])[..|events| + 1] == events + [e] && (events + [e])[..|events|] == events;
    RunNext(events + [e], |events|);
    IsGood(events);
    if e.Key? {
      KeyStep(Run(events), e, code);
    } else {
      PollStep(Run(events), e.now, code);
      ApplyIs(Run(events), e);
    }
  }

  // ---------- Presses and releases ----------

  datatype Move = Move(code: nat, pressed: bool)

  function Moves(events: seq<Event>): seq<Move> {
    if events == [] then []
    else
      var last := events[|events| - 1];
      Moves(events[..|events| - 1]) + if last.Key? then [Move(last.code, last.pressed)] else []
  }

  function Moved(notes: seq<Note>): seq<Move> {
    if notes == [] then []
    else
      var last := notes[|notes| - 1];
      Moved(notes[..|notes| - 1]) + if last.kind == Press || last.kind == Release then [Move(last.code, last.kind == Press)] else []
  }

  lemma MovedSnoc(notes: seq<Note>, n: Note)
    ensures Moved(notes + [n]) == Moved(notes) + if n.kind == Press || n.kind == Release then [Move(n.code, n.kind == Press)] else []
  {
    assert (notes + [n])[..|notes|] == notes;
  }

  lemma {:induction false} MovedMore(a: seq<Note>, b: seq<Note>)
    requires forall n | n in b :: n.kind != Press && n.kind != Release
    ensures Moved(a + b) == Moved(a)
  {
    if b == [] {
      assert a + b == a;
    } else {
      MovedMore(a, b[..|b| - 1]);
      assert (a + b)[..|a + b| - 1] == a + b[..|b| - 1];
    }
  }

  lemma MoveStep(p: Pool, e: Event)
    ensures Moved(Apply(p, e).log.notes) == Moved(p.log.notes) + if e.Key? then [Move(e.code, e.pressed)] else []
  {
    hide Find, FirstIdle, Moved, Due;
    if e.Key? {
      var note := Note(e.code, if e.pressed then Press else Release);
      MovedSnoc(p.log.notes, note);
      MovedSnoc(p.log.notes + [note], Note(e.code, DoubleTap));
    } else {
      MovedMore(p.log.notes, Notes(Due(p.trackers, e.now, true), Hold) + Notes(Due(p.trackers, e.now, false), SingleTap));
    }
  }

  /** Every press and every release is notified once and in order, tracked or not. */
  lemma {:induction false} MovesAreNotified(events: seq<Event>)
    ensures Moved(Run(events).log.notes) == Moves(events)
  {
    hide Apply;
    if events != [] {
      var m := |events| - 1;
      MovesAreNotified(events[..m]);
      assert events[..m + 1] == events;
      RunNext(events, m);
      MoveStep(Run(events[..m]), events[m]);
    }
  }
}
