/** Tap, double tap and hold of system actions (components/keyboard/kb_system_action.c). */
module SystemAction {

  const DOUBLE_TAP_TIMEOUT_US_DEFAULT: nat := 300000
  const HOLD_TIMEOUT_US_DEFAULT: nat := 500000
  const MAX_CONCURRENT_ACTIONS: nat := 10

  datatype Stage = WaitHold | WaitDouble | Held

  datatype Tracker = Idle | Busy(stage: Stage, code: nat, time: int, doubleTapUs: nat, holdUs: nat)

  datatype Kind = Press | Release | Hold | SingleTap | DoubleTap

  datatype Note = Note(code: nat, kind: Kind)

  /** kb_sys_action_timing_t; zero asks for the default. */
  datatype Timing = Timing(doubleTapMs: nat, holdMs: nat)

  /** History: the presses that were tracked, and everything that was notified. */
  datatype Log = Log(tracked: seq<nat>, notes: seq<Note>)

  datatype Pool = Pool(trackers: seq<Tracker>, count: nat, log: Log)

  /** The busy tracker of a code, or the pool size. */
  function Find(trackers: seq<Tracker>, code: nat, i: nat): (k: nat)
    requires i <= |trackers|
    ensures i <= k <= |trackers| && (k < |trackers| ==> trackers[k].Busy? && trackers[k].code == code)
    ensures forall j | i <= j < k :: !(trackers[j].Busy? && trackers[j].code == code)
    decreases |trackers| - i
  {
    if i == |trackers| || (trackers[i].Busy? && trackers[i].code == code) then i else Find(trackers, code, i + 1)
  }

  function FirstIdle(trackers: seq<Tracker>, i: nat): (k: nat)
    requires i <= |trackers|
    ensures i <= k <= |trackers| && (k < |trackers| ==> trackers[k] == Idle)
    decreases |trackers| - i
  {
    if i == |trackers| || trackers[i] == Idle then i else FirstIdle(trackers, i + 1)
  }

  function Notified(p: Pool, code: nat, kind: Kind): Pool {
    p.(log := p.log.(notes := p.log.notes + [Note(code, kind)]))
  }

  function Tracked(p: Pool, code: nat): Pool {
    p.(log := p.log.(tracked := p.log.tracked + [code]))
  }

  /** free_tracker_locked. */
  function Freed(p: Pool, k: nat): Pool
    requires k < |p.trackers|
  {
    p.(trackers := p.trackers[k := Idle], count := if p.count > 0 then p.count - 1 else 0)
  }

  function Fresh(code: nat, timing: Timing, now: int): Tracker {
    Busy(WaitHold, code, now,
         if timing.doubleTapMs > 0 then timing.doubleTapMs * 1000 else DOUBLE_TAP_TIMEOUT_US_DEFAULT,
         if timing.holdMs > 0 then timing.holdMs * 1000 else HOLD_TIMEOUT_US_DEFAULT)
  }

  function OnPress(p: Pool, code: nat, timing: Timing, now: int): Pool {
    var k := Find(p.trackers, code, 0);
    if k == |p.trackers| then
      var free := FirstIdle(p.trackers, 0);
      if free == |p.trackers| then p
      else Tracked(p, code).(trackers := p.trackers[free := Fresh(code, timing, now)], count := p.count + 1)
    else if p.trackers[k].stage == WaitDouble then Notified(Tracked(Freed(p, k), code), code, DoubleTap)
    else p
  }

  function OnRelease(p: Pool, code: nat, now: int): Pool {
    var k := Find(p.trackers, code, 0);
    if k == |p.trackers| then p
    else
      var t := p.trackers[k];
      match t.stage
      case WaitHold => p.(trackers := p.trackers[k := t.(stage := WaitDouble, time := now)])
      case Held => Freed(p, k)
      case WaitDouble => p
  }

  /** process_action. */
  function Process(p: Pool, code: nat, pressed: bool, timing: Timing, now: int): Pool {
    if pressed then OnPress(Notified(p, code, Press), code, timing, now)
    else OnRelease(Notified(p, code, Release), code, now)
  }

  predicate HoldDue(t: Tracker, now: int) {
    t.Busy? && t.stage == WaitHold && now - t.time >= t.holdUs
  }

  predicate TapDue(t: Tracker, now: int) {
    t.Busy? && t.stage == WaitDouble && now - t.time >= t.doubleTapUs
  }

  function Polled(t: Tracker, now: int): Tracker {
    if HoldDue(t, now) then t.(stage := Held) else if TapDue(t, now) then Idle else t
  }

  function AllPolled(trackers: seq<Tracker>, now: int): (r: seq<Tracker>)
    ensures |r| == |trackers| && forall i | 0 <= i < |r| :: r[i] == Polled(trackers[i], now)
  {
    seq(|trackers|, i requires 0 <= i < |trackers| => Polled(trackers[i], now))
  }

  /** The codes that are due, in tracker order. */
  function Due(trackers: seq<Tracker>, now: int, hold: bool): seq<nat> {
    if trackers == [] then []
    else
      var last := trackers[|trackers| - 1];
      Due(trackers[..|trackers| - 1], now, hold) +
      if last.Busy? && (if hold then HoldDue(last, now) else TapDue(last, now)) then [last.code] else []
  }

  function Notes(codes: seq<nat>, kind: Kind): (n: seq<Note>)
    ensures |n| == |codes|
  {
    seq(|codes|, i requires 0 <= i < |codes| => Note(codes[i], kind))
  }

  /** kb_system_action_poll: holds are notified before single taps. */
  function Poll(p: Pool, now: int): Pool {
    var taps := Due(p.trackers, now, false);
    Pool(AllPolled(p.trackers, now), if p.count >= |taps| then p.count - |taps| else 0,
         p.log.(notes := p.log.notes + (Notes(Due(p.trackers, now, true), Hold) + Notes(taps, SingleTap))))
  }

  const EMPTY := Pool([Idle, Idle, Idle, Idle, Idle, Idle, Idle, Idle, Idle, Idle], 0, Log([], []))

  class ActionEngine {
    var trackers: array<Tracker>
    var count: nat
    ghost var log: Log

    ghost predicate Valid()
      reads this
    {
      trackers.Length == MAX_CONCURRENT_ACTIONS
    }

    ghost function View(): Pool
      requires Valid()
      reads this, trackers
    {
      Pool(trackers[..], count, log)
    }

    constructor ()
      ensures Valid() && fresh(trackers) && View() == EMPTY
    {
      trackers := new Tracker[MAX_CONCURRENT_ACTIONS](i => Idle);
      count, log := 0, Log([], []);
      new;
      assert trackers[..] == EMPTY.trackers;
    }

    method FindTracker(code: nat) returns (k: nat)
      requires Valid()
      ensures k == Find(trackers[..], code, 0)
    {
      k := 0;
      while k < MAX_CONCURRENT_ACTIONS && !(trackers[k].Busy? && trackers[k].code == code)
        invariant k <= MAX_CONCURRENT_ACTIONS && Find(trackers[..], code, 0) == Find(trackers[..], code, k)
      {
        k := k + 1;
      }
    }

    method FreeTracker(k: nat)
      requires Valid() && k < MAX_CONCURRENT_ACTIONS
      modifies this`count, trackers
      ensures Valid() && View() == Freed(old(View()), k)
    {
      trackers[k] := Idle;
      if count > 0 {
        count := count - 1;
      }
    }

    ghost method Notify(code: nat, kind: Kind)
      requires Valid()
      modifies this`log
      ensures Valid() && View() == Notified(old(View()), code, kind)
    {
      log := log.(notes := log.notes + [Note(code, kind)]);
    }

    method PressAction(code: nat, timing: Timing, now: int)
      requires Valid()
      modifies this`count, this`log, trackers
      ensures Valid() && View() == OnPress(old(View()), code, timing, now)
    {
      var k := FindTracker(code);
      hide Find;
      if k == MAX_CONCURRENT_ACTIONS {
        var free := 0;
        while free < MAX_CONCURRENT_ACTIONS && trackers[free] != Idle
          invariant free <= MAX_CONCURRENT_ACTIONS && FirstIdle(trackers[..], 0) == FirstIdle(trackers[..], free)
        {
          free := free + 1;
        }
        if free < MAX_CONCURRENT_ACTIONS {
          trackers[free] := Fresh(code, timing, now);
          count := count + 1;
          log := log.(tracked := log.tracked + [code]);
        }
      } else if trackers[k].stage == WaitDouble {
        FreeTracker(k);
        log := log.(tracked := log.tracked + [code]);
        Notify(code, DoubleTap);
      }
    }

    method ReleaseAction(code: nat, now: int)
      requires Valid()
      modifies this`count, trackers
      ensures Valid() && View() == OnRelease(old(View()), code, now)
    {
      var k := FindTracker(code);
      hide Find;
      if k < MAX_CONCURRENT_ACTIONS {
        if trackers[k].stage == WaitHold {
          trackers[k] := trackers[k].(stage := WaitDouble, time := now);
        } else if trackers[k].stage == Held {
          FreeTracker(k);
        }
      }
    }

    method ProcessAction(code: nat, pressed: bool, timing: Timing, now: int)
      requires Valid()
      modifies this`count, this`log, trackers
      ensures Valid() && View() == Process(old(View()), code, pressed, timing, now)
    {
      hide OnPress, OnRelease;
      Notify(code, if pressed then Press else Release);
      if pressed {
        PressAction(code, timing, now);
      } else {
        ReleaseAction(code, now);
      }
    }

    method PollTrackers(now: int) returns (holds: seq<nat>, taps: seq<nat>)
      requires Valid()
      modifies this`count, this`log, trackers
      ensures Valid() && View() == Poll(old(View()), now)
      ensures holds == Due(old(trackers[..]), now, true) && taps == Due(old(trackers[..]), now, false)
    {
      holds, taps := [], [];
      ghost var before := trackers[..];
      for i := 0 to MAX_CONCURRENT_ACTIONS
        invariant log == old(log)
        invariant forall j | 0 <= j < MAX_CONCURRENT_ACTIONS :: trackers[j] == if j < i then Polled(before[j], now) else before[j]
        invariant holds == Due(before[..i], now, true) && taps == Due(before[..i], now, false)
        invariant count == if old(count) >= |taps| then old(count) - |taps| else 0
      {
        assert before[..i + 1][..i] == before[..i];
        var t := trackers[i];
        if t.Busy? && t.stage == WaitHold {
          if now - t.time >= t.holdUs {
            holds := holds + [t.code];
            trackers[i] := t.(stage := Held);
          }
        } else if t.Busy? && t.stage == WaitDouble {
          if now - t.time >= t.doubleTapUs {
            taps := taps + [t.code];
            FreeTracker(i);
          }
        }
      }
      assert before[..MAX_CONCURRENT_ACTIONS] == before;
      assert trackers[..] == AllPolled(before, now);
      log := log.(notes := log.notes + (Notes(holds, Hold) + Notes(taps, SingleTap)));
    }

    method IsActive() returns (active: bool)
      requires Valid()
      ensures active == (View().count > 0)
    {
      active := count > 0;
    }
  }

  // ---------- Counting ----------

  function Occurs(codes: seq<nat>, code: nat): nat {
    if codes == [] then 0 else Occurs(codes[..|codes| - 1], code) + if codes[|codes| - 1] == code then 1 else 0
  }

  function Count(notes: seq<Note>, code: nat, kind: Kind): nat {
    if notes == [] then 0
    else Count(notes[..|notes| - 1], code, kind) + if notes[|notes| - 1] == Note(code, kind) then 1 else 0
  }

  function BusyCount(trackers: seq<Tracker>): nat {
    if trackers == [] then 0 else BusyCount(trackers[..|trackers| - 1]) + if trackers[|trackers| - 1].Busy? then 1 else 0
  }

  lemma CountSnoc(notes: seq<Note>, n: Note)
    ensures forall code, kind :: Count(notes + [n], code, kind) == Count(notes, code, kind) + if n == Note(code, kind) then 1 else 0
  {
    assert (notes + [n])[..|notes|] == notes;
  }

  lemma OccursSnoc(codes: seq<nat>, c: nat)
    ensures forall code :: Occurs(codes + [c], code) == Occurs(codes, code) + if c == code then 1 else 0
  {
    assert (codes + [c])[..|codes|] == codes;
  }

  lemma {:induction false} CountConcat(a: seq<Note>, b: seq<Note>, code: nat, kind: Kind)
    ensures Count(a + b, code, kind) == Count(a, code, kind) + Count(b, code, kind)
  {
    if b == [] {
      assert a + b == a;
    } else {
      CountConcat(a, b[..|b| - 1], code, kind);
      assert (a + b)[..|a + b| - 1] == a + b[..|b| - 1];
    }
  }

  lemma {:induction false} CountNotes(codes: seq<nat>, kind: Kind, code: nat, asked: Kind)
    ensures Count(Notes(codes, kind), code, asked) == if asked == kind then Occurs(codes, code) else 0
  {
    if codes != [] {
      CountNotes(codes[..|codes| - 1], kind, code, asked);
      assert Notes(codes, kind)[..|codes| - 1] == Notes(codes[..|codes| - 1], kind);
    }
  }

  lemma {:induction false} BusyUpdate(trackers: seq<Tracker>, k: nat, t: Tracker)
    requires k < |trackers|
    ensures BusyCount(trackers[k := t]) ==
            BusyCount(trackers) - (if trackers[k].Busy? then 1 else 0) + (if t.Busy? then 1 else 0)
  {
    var m := |trackers| - 1;
    if k < m {
      BusyUpdate(trackers[..m], k, t);
      assert trackers[k := t][..m] == trackers[..m][k := t];
    } else {
      assert trackers[k := t][..m] == trackers[..m];
    }
  }

  // ---------- The invariant ----------

  ghost predicate Distinct(trackers: seq<Tracker>) {
    forall i, j | 0 <= i < j < |trackers| && trackers[i].Busy? && trackers[j].Busy? :: trackers[i].code != trackers[j].code
  }

  predicate Waits(t: Tracker, code: nat) {
    t.Busy? && t.code == code && t.stage != Held
  }

  /** The code has a tracker that has not decided yet. */
  predicate Waiting(trackers: seq<Tracker>, code: nat) {
    exists i :: 0 <= i < |trackers| && Waits(trackers[i], code)
  }

  /** Every tracked press of the code has ended in one hold, one single tap or half of
      one double tap, but for the one that is still waiting. */
  predicate Balanced(p: Pool, code: nat) {
    var n := p.log.notes;
    Occurs(p.log.tracked, code) ==
    Count(n, code, Hold) + Count(n, code, SingleTap) + 2 * Count(n, code, DoubleTap) + if Waiting(p.trackers, code) then 1 else 0
  }

  ghost predicate Good(p: Pool) {
    |p.trackers| == MAX_CONCURRENT_ACTIONS && Distinct(p.trackers) && p.count == BusyCount(p.trackers)
  }

  ghost predicate Inv(p: Pool) {
    Good(p) && forall code: nat :: Balanced(p, code)
  }

  /** What changing one tracker does to the waiting codes. */
  lemma WaitingAfter(trackers: seq<Tracker>, k: nat, t: Tracker, code: nat)
    requires Distinct(trackers) && k < |trackers|
    requires t.Busy? ==> (trackers[k].Busy? && trackers[k].code == t.code) || Find(trackers, t.code, 0) == |trackers|
    ensures Distinct(trackers[k := t])
    ensures Waiting(trackers[k := t], code) <==>
            Waits(t, code) || (Waiting(trackers, code) && !Waits(trackers[k], code))
  {
    hide Find;
    var after := trackers[k := t];
    assert after[k] == t;
    assert forall i | 0 <= i < |trackers| && i != k :: after[i] == trackers[i];
    if Waiting(trackers, code) {
      var w :| 0 <= w < |trackers| && Waits(trackers[w], code);
      assert w != k ==> Waits(after[w], code);
    }
  }

  lemma PressKeeps(p: Pool, code: nat, timing: Timing, now: int, asked: nat)
    requires Good(p) && Balanced(p, asked)
    ensures Good(OnPress(p, code, timing, now)) && Balanced(OnPress(p, code, timing, now), asked)
  {
    hide Find, FirstIdle, Count, Occurs, BusyCount, Distinct;
    var k := Find(p.trackers, code, 0);
    var free := FirstIdle(p.trackers, 0);
    OccursSnoc(p.log.tracked, code);
    CountSnoc(p.log.notes, Note(code, DoubleTap));
    if k == |p.trackers| && free < |p.trackers| {
      var t := Fresh(code, timing, now);
      WaitingAfter(p.trackers, free, t, asked);
      BusyUpdate(p.trackers, free, t);
      assert forall i | 0 <= i < |p.trackers| :: !Waits(p.trackers[i], code);
    } else if k < |p.trackers| && p.trackers[k].stage == WaitDouble {
      WaitingAfter(p.trackers, k, Idle, asked);
      BusyUpdate(p.trackers, k, Idle);
      assert Waits(p.trackers[k], code);
    }
  }

  lemma ReleaseKeeps(p: Pool, code: nat, now: int, asked: nat)
    requires Good(p) && Balanced(p, asked)
    ensures Good(OnRelease(p, code, now)) && Balanced(OnRelease(p, code, now), asked)
  {
    hide Find, Count, Occurs, BusyCount, Distinct;
    var k := Find(p.trackers, code, 0);
    if k < |p.trackers| {
      var t := p.trackers[k].(stage := WaitDouble, time := now);
      WaitingAfter(p.trackers, k, t, asked);
      WaitingAfter(p.trackers, k, Idle, asked);
      BusyUpdate(p.trackers, k, t);
      BusyUpdate(p.trackers, k, Idle);
      assert p.trackers[k].stage == WaitHold ==> Waits(p.trackers[k], asked) == Waits(t, asked);
    }
  }

  lemma NotifiedKeeps(p: Pool, code: nat, kind: Kind, asked: nat)
    requires Good(p) && Balanced(p, asked) && (kind == Press || kind == Release)
    ensures Good(Notified(p, code, kind)) && Balanced(Notified(p, code, kind), asked)
  {
    CountSnoc(p.log.notes, Note(code, kind));
    hide Count, Occurs, BusyCount, Distinct, Waiting;
  }

  lemma ProcessKeeps(p: Pool, code: nat, pressed: bool, timing: Timing, now: int)
    requires Inv(p)
    ensures Inv(Process(p, code, pressed, timing, now))
  {
    hide OnPress, OnRelease, Balanced, Good;
    forall asked: nat ensures Good(Process(p, code, pressed, timing, now)) && Balanced(Process(p, code, pressed, timing, now), asked) {
      NotifiedKeeps(p, code, if pressed then Press else Release, asked);
      if pressed {
        PressKeeps(Notified(p, code, Press), code, timing, now, asked);
      } else {
        ReleaseKeeps(Notified(p, code, Release), code, now, asked);
      }
    }
    assert Balanced(Process(p, code, pressed, timing, now), 0);
  }

  /** The tracker of the code is due. */
  predicate DueFor(t: Tracker, now: int, hold: bool, code: nat) {
    Waits(t, code) && if hold then HoldDue(t, now) else TapDue(t, now)
  }

  lemma DueNext(trackers: seq<Tracker>, now: int, hold: bool, code: nat)
    requires trackers != []
    ensures var m := |trackers| - 1;
            Occurs(Due(trackers, now, hold), code) ==
            Occurs(Due(trackers[..m], now, hold), code) + if DueFor(trackers[m], now, hold, code) then 1 else 0
  {
    var m := |trackers| - 1;
    var front := Due(trackers[..m], now, hold);
    OccursSnoc(front, if trackers[m].Busy? then trackers[m].code else 0);
    hide Occurs;
    assert front + [] == front;
  }

  /** A poll notifies a code once if its tracker is due, and not at all otherwise. */
  lemma {:induction false} DueOnce(trackers: seq<Tracker>, now: int, hold: bool, code: nat)
    requires Distinct(trackers)
    ensures Occurs(Due(trackers, now, hold), code) ==
            if exists i :: 0 <= i < |trackers| && DueFor(trackers[i], now, hold, code) then 1 else 0
  {
    if trackers != [] {
      hide Occurs, Due, HoldDue, TapDue;
      var m := |trackers| - 1;
      DueOnce(trackers[..m], now, hold, code);
      DueNext(trackers, now, hold, code);
      assert forall i | 0 <= i < m :: trackers[..m][i] == trackers[i];
      if DueFor(trackers[m], now, hold, code) {
        assert forall i | 0 <= i < m :: !Waits(trackers[..m][i], code);
      }
    }
  }

  lemma {:induction false} DueCounts(trackers: seq<Tracker>, now: int)
    ensures |Due(trackers, now, false)| + BusyCount(AllPolled(trackers, now)) == BusyCount(trackers)
  {
    if trackers != [] {
      var m := |trackers| - 1;
      DueCounts(trackers[..m], now);
      assert AllPolled(trackers, now)[..m] == AllPolled(trackers[..m], now);
      hide AllPolled;
    }
  }

  lemma PollWaiting(trackers: seq<Tracker>, now: int, code: nat)
    requires Distinct(trackers)
    ensures Distinct(AllPolled(trackers, now))
    ensures Waiting(AllPolled(trackers, now), code) <==>
            Waiting(trackers, code) &&
            !(exists i :: 0 <= i < |trackers| && DueFor(trackers[i], now, true, code)) &&
            !(exists i :: 0 <= i < |trackers| && DueFor(trackers[i], now, false, code))
  {
    var after := AllPolled(trackers, now);
    if Waiting(trackers, code) {
      var w :| 0 <= w < |trackers| && Waits(trackers[w], code);
      assert forall i | 0 <= i < |trackers| && i != w :: !Waits(trackers[i], code) && after[i] == Polled(trackers[i], now);
      assert after[w] == Polled(trackers[w], now);
    }
  }

  lemma PollKeeps(p: Pool, now: int)
    requires Inv(p)
    ensures Inv(Poll(p, now))
  {
    var holds, taps := Due(p.trackers, now, true), Due(p.trackers, now, false);
    var more := Notes(holds, Hold) + Notes(taps, SingleTap);
    DueCounts(p.trackers, now);
    PollWaiting(p.trackers, now, 0);
    forall code: nat ensures Balanced(Poll(p, now), code) {
      assert Balanced(p, code);
      hide Due, Count, Occurs, BusyCount, Distinct, AllPolled, Notes, Waiting;
      PollCounts(p, now, code, Hold);
      PollCounts(p, now, code, SingleTap);
      PollCounts(p, now, code, DoubleTap);
      PollBalance(p, now, code);
    }
    hide Balanced, Due, BusyCount, Distinct, AllPolled;
  }

  lemma PollCounts(p: Pool, now: int, code: nat, kind: Kind)
    requires kind in {Hold, SingleTap, DoubleTap}
    ensures Count(Poll(p, now).log.notes, code, kind) ==
            Count(p.log.notes, code, kind) +
            if kind == Hold then Occurs(Due(p.trackers, now, true), code)
            else if kind == SingleTap then Occurs(Due(p.trackers, now, false), code) else 0
  {
    var holds, taps := Due(p.trackers, now, true), Due(p.trackers, now, false);
    CountConcat(p.log.notes, Notes(holds, Hold) + Notes(taps, SingleTap), code, kind);
    CountConcat(Notes(holds, Hold), Notes(taps, SingleTap), code, kind);
    CountNotes(holds, Hold, code, kind);
    CountNotes(taps, SingleTap, code, kind);
    hide Count, Occurs, Notes, Due;
  }

  lemma PollBalance(p: Pool, now: int, code: nat)
    requires Good(p)
    ensures Occurs(Due(p.trackers, now, true), code) + Occurs(Due(p.trackers, now, false), code) +
            (if Waiting(AllPolled(p.trackers, now), code) then 1 else 0) == if Waiting(p.trackers, code) then 1 else 0
  {
    DueOnce(p.trackers, now, true, code);
    DueOnce(p.trackers, now, false, code);
    PollWaiting(p.trackers, now, code);
    hide Due, Occurs, AllPolled, BusyCount;
    if Waiting(p.trackers, code) {
      var w :| 0 <= w < |p.trackers| && Waits(p.trackers[w], code);
      assert forall i | 0 <= i < |p.trackers| && i != w :: !Waits(p.trackers[i], code);
    }
  }

  // ---------- Every run ----------

  datatype Event = Key(code: nat, pressed: bool, timing: Timing, now: int) | At(now: int)

  function Run(events: seq<Event>): Pool {
    if events == [] then EMPTY
    else
      var before := Run(events[..|events| - 1]);
      match events[|events| - 1]
      case Key(code, pressed, timing, now) => Process(before, code, pressed, timing, now)
      case At(now) => Poll(before, now)
  }

  lemma {:induction false} RunGood(events: seq<Event>)
    ensures Inv(Run(events))
  {
    if events == [] {
      assert forall i | 0 <= i < 10 :: EMPTY.trackers[i] == Idle;
      NoneBusy(EMPTY.trackers);
      assert forall code: nat :: !Waiting(EMPTY.trackers, code);
    } else {
      hide Inv, Process, Poll;
      RunGood(events[..|events| - 1]);
      var before := Run(events[..|events| - 1]);
      match events[|events| - 1] {
        case Key(code, pressed, timing, now) => ProcessKeeps(before, code, pressed, timing, now);
        case At(now) => PollKeeps(before, now);
      }
    }
  }

  lemma {:induction false} NoneBusy(trackers: seq<Tracker>)
    requires forall i | 0 <= i < |trackers| :: trackers[i] == Idle
    ensures BusyCount(trackers) == 0
  {
    if trackers != [] {
      NoneBusy(trackers[..|trackers| - 1]);
    }
  }

  /** In every run the busy trackers have distinct codes and the active count is their
      number, so that the engine reports itself active exactly when one is busy. */
  lemma TrackersDistinctAndCounted(events: seq<Event>)
    ensures var p := Run(events);
            (forall i, j | 0 <= i < j < |p.trackers| && p.trackers[i].Busy? && p.trackers[j].Busy? :: p.trackers[i].code != p.trackers[j].code) &&
            p.count == BusyCount(p.trackers)
  {
    RunGood(events);
    hide Run, BusyCount;
  }

  /** In every run, for every code, tracked presses are conserved: each one ends in
      exactly one hold, one single tap or half of a double tap, or still waits. */
  lemma PressesConserved(events: seq<Event>, code: nat)
    ensures var p := Run(events);
            Occurs(p.log.tracked, code) ==
            Count(p.log.notes, code, Hold) + Count(p.log.notes, code, SingleTap) + 2 * Count(p.log.notes, code, DoubleTap) +
            if exists i :: 0 <= i < |p.trackers| && p.trackers[i].Busy? && p.trackers[i].code == code && p.trackers[i].stage != Held
            then 1 else 0
  {
    RunGood(events);
    var p := Run(events);
    assert Balanced(p, code);
    assert forall i | 0 <= i < |p.trackers| :: Waits(p.trackers[i], code) <==> p.trackers[i].Busy? && p.trackers[i].code == code && p.trackers[i].stage != Held;
    hide Run, Count, Occurs;
  }
}
