/** Which tap-hold presses are taken to decide on, and how a sustained hold ends. */
module TapHoldPresses {
  import opened Numbers
  import opened Options
  import opened TapHold
  import opened TapHoldRuns
  import opened TapHoldAnswers

  // ---------- The last tap ----------

  /** The input that the last tap answers. */
  function LastTap(trace: seq<Effect>): Option<nat> {
    if trace == [] then None
    else if trace[|trace| - 1].Resolve? && trace[|trace| - 1].kind == Tap then Some(trace[|trace| - 1].origin)
    else LastTap(trace[..|trace| - 1])
  }

  /** The time of the event that brought the last tap, or 0. */
  function LastTapTime(lookup: Lookup, events: seq<Event>): int {
    if events == [] then 0
    else
      var front := events[..|events| - 1];
      if LastTap(Run(lookup, events).log.trace) != LastTap(Run(lookup, front).log.trace) then events[|events| - 1].now
      else LastTapTime(lookup, front)
  }

  lemma LastTapSnoc(trace: seq<Effect>, e: Effect)
    ensures LastTap(trace + [e]) == if e.Resolve? && e.kind == Tap then Some(e.origin) else LastTap(trace)
  {
    assert (trace + [e])[..|trace|] == trace;
  }

  lemma {:induction false} LastTapConcat(a: seq<Effect>, b: seq<Effect>)
    requires forall e | e in b :: !(e.Resolve? && e.kind == Tap)
    ensures LastTap(a + b) == LastTap(a)
  {
    if b == [] {
      assert a + b == a;
    } else {
      LastTapConcat(a, b[..|b| - 1]);
      assert (a + b)[..|a + b| - 1] == a + b[..|b| - 1];
    }
  }

  predicate NoTaps(effects: seq<Effect>) {
    forall e | e in effects :: !(e.Resolve? && e.kind == Tap)
  }

  /** What a step does to the last tap: nothing, or it answers a later input now. */
  predicate TapMoves(r: Resolver, t: Resolver, now: int) {
    (LastTap(t.log.trace) == LastTap(r.log.trace) && t.lastTapKey == r.lastTapKey && t.lastTapRelease == r.lastTapRelease) ||
    (LastTap(t.log.trace).Some? && LastTap(t.log.trace) != LastTap(r.log.trace) &&
     LastTap(t.log.trace).value < |t.log.inputs| && t.log.inputs[LastTap(t.log.trace).value].code == t.lastTapKey &&
     t.lastTapRelease == now)
  }

  lemma HoldMovesNothing(r: Resolver)
    requires r.Numbered()
    ensures LastTap(ResolveToHold(r).log.trace) == LastTap(r.log.trace)
    ensures ResolveToHold(r).lastTapKey == r.lastTapKey && ResolveToHold(r).lastTapRelease == r.lastTapRelease
  {
    hide LastTap, U16;
    var t := ResolveToHold(r).log.trace;
    var tail := t[|r.log.trace|..];
    assert NoTaps(tail) && t == r.log.trace + tail;
    LastTapConcat(r.log.trace, tail);
  }

  lemma DoubleMovesNothing(r: Resolver)
    requires r.Numbered()
    ensures LastTap(DoubleTapped(r).log.trace) == LastTap(r.log.trace)
    ensures DoubleTapped(r).lastTapKey == r.lastTapKey && DoubleTapped(r).lastTapRelease == r.lastTapRelease
  {
    hide LastTap, U16;
    var t := DoubleTapped(r).log.trace;
    var tail := t[|r.log.trace|..];
    assert NoTaps(tail) && t == r.log.trace + tail;
    LastTapConcat(r.log.trace, tail);
  }

  lemma TapNowMoves(r: Resolver, now: int)
    requires r.Numbered()
    ensures LastTap(TapNow(r, now).log.trace) == Some(r.log.pending)
    ensures TapNow(r, now).lastTapKey == r.pendingAction && TapNow(r, now).lastTapRelease == now
  {
    hide LastTap, U16;
    var tap := Resolve(Tap, U16(r.rules.tap), if r.rules.tapDur > 0 then r.rules.tapDur else 20, r.log.pending);
    var t := TapNow(r, now).log.trace;
    var tail := Passes(r.buffer, r.log.origins) + [Report];
    LastTapSnoc(r.log.trace, tap);
    assert NoTaps(tail) && t == r.log.trace + [tap] + tail;
    LastTapConcat(r.log.trace + [tap], tail);
  }

  lemma {:induction false} LastTapIsThere(trace: seq<Effect>)
    requires LastTap(trace).Some?
    ensures exists e | e in trace :: e.Resolve? && e.origin == LastTap(trace).value
  {
    if !(trace[|trace| - 1].Resolve? && trace[|trace| - 1].kind == Tap) {
      LastTapIsThere(trace[..|trace| - 1]);
    }
  }

  lemma LastTapBelow(trace: seq<Effect>, bound: nat)
    requires Below(trace, bound) && LastTap(trace).Some?
    ensures LastTap(trace).value < bound
  {
    hide LastTap;
    LastTapIsThere(trace);
  }

  lemma IdleMoves(r: Resolver, code: nat, pressed: bool, rules: Option<Rules>, now: int, idle: int, origin: nat)
    requires r.Numbered()
    ensures var t := InIdle(r, code, pressed, rules, now, idle, origin);
            t.lastTapKey == r.lastTapKey && t.log.inputs == r.log.inputs &&
            if pressed && rules.Some? && QuickTap(r, code, rules.value, now)
            then LastTap(t.log.trace) == Some(origin) && t.lastTapRelease == now && code == t.lastTapKey
            else LastTap(t.log.trace) == LastTap(r.log.trace) && t.lastTapRelease == r.lastTapRelease
  {
    hide LastTap, U16, Millis;
    LastTapSnoc(r.log.trace, Pass(code, pressed, origin));
    if rules.Some? {
      var tap := Resolve(Tap, U16(rules.value.tap), if rules.value.tapDur > 0 then rules.value.tapDur else 20, origin);
      LastTapSnoc(r.log.trace, tap);
      LastTapSnoc(r.log.trace + [tap], Report);
    }
  }

  lemma PendingMoves(r: Resolver, code: nat, pressed: bool, now: int, origin: nat)
    requires r.Numbered()
    ensures var t := InPending(r, code, pressed, now, origin);
            (LastTap(t.log.trace) == Some(r.log.pending) && t.lastTapKey == r.pendingAction && t.lastTapRelease == now) ||
            (LastTap(t.log.trace) == LastTap(r.log.trace) && t.lastTapKey == r.lastTapKey && t.lastTapRelease == r.lastTapRelease)
  {
    hide LastTap, ResolveToHold, TapNow, PressedInBuffer;
    HoldMovesNothing(r);
    TapNowMoves(r, now);
    var held := ResolveToHold(r).log.trace;
    LastTapSnoc(held, Pass(code, pressed, origin));
    LastTapSnoc(held + [Pass(code, pressed, origin)], Report);
  }

  lemma SustainedMoves(r: Resolver, code: nat, pressed: bool, origin: nat)
    requires r.Numbered()
    ensures var t := InSustained(r, code, pressed, origin);
            LastTap(t.log.trace) == LastTap(r.log.trace) && t.lastTapKey == r.lastTapKey && t.lastTapRelease == r.lastTapRelease
  {
    hide LastTap, U16;
    LastTapSnoc(r.log.trace, Pass(code, pressed, origin));
    var up := Resolve(SustainUp, U16(r.rules.hold), 0, origin);
    LastTapSnoc(r.log.trace, up);
    LastTapSnoc(r.log.trace + [up], Report);
  }

  /** What an undecided resolver knows of its press and of earlier taps. */
  lemma PressKnown(lookup: Lookup, r: Resolver)
    requires Good(lookup, r, |r.log.inputs|)
    ensures r.Numbered() && (LastTap(r.log.trace).Some? ==> LastTap(r.log.trace).value < |r.log.inputs|)
    ensures Undecided(r) ==>
              r.log.pending < |r.log.inputs| && r.log.inputs[r.log.pending] == Input(r.pendingAction, true) &&
              (LastTap(r.log.trace).Some? ==> LastTap(r.log.trace).value < r.log.pending)
  {
    hide LastTap, Ordered, AllRight, PlainGood, CountGood;
    if LastTap(r.log.trace).Some? {
      LastTapBelow(r.log.trace, if Undecided(r) then r.log.pending else |r.log.inputs|);
    }
  }

  lemma StepMoves(lookup: Lookup, r: Resolver, e: Event)
    requires Good(lookup, r, |r.log.inputs|)
    ensures r.Numbered() && TapMoves(r, Next(lookup, r, e), e.now)
  {
    hide Good, LastTap, ResolveToHold, TapNow, InPending, InIdle, InSustained, DoubleTapped, QuickTap;
    PressKnown(lookup, r);
    match e
    case At(now) =>
      HoldMovesNothing(r);
      TapNowMoves(r, now);
    case Key(code, pressed, now) =>
      var a, n := Arrived(r, code, pressed, now), |r.log.inputs|;
      var idle := if r.lastAny > 0 then now - r.lastAny else 1000000000;
      match r.state
      case HoldSustained => SustainedMoves(a, code, pressed, n);
      case Pending => PendingMoves(a, code, pressed, now, n);
      case Idle => IdleMoves(a, code, pressed, lookup(code), now, idle, n);
      case WaitDoubleTap => WaitingMoves(a, code, pressed, lookup(code), now, idle, n);
  }

  lemma WaitingMoves(r: Resolver, code: nat, pressed: bool, rules: Option<Rules>, now: int, idle: int, origin: nat)
    requires r.Numbered()
    ensures var t := InWaiting(r, code, pressed, rules, now, idle, origin);
            if pressed && code == r.pendingAction
            then LastTap(t.log.trace) == LastTap(r.log.trace) && t.lastTapKey == r.lastTapKey && t.lastTapRelease == r.lastTapRelease
            else LastTap(t.log.trace) == Some(r.log.pending) && t.lastTapKey == r.pendingAction && t.lastTapRelease == now
  {
    hide LastTap, InIdle, TapNow, DoubleTapped;
    DoubleMovesNothing(r);
    TapNowMoves(r, now);
    IdleMoves(TapNow(r, now), code, pressed, rules, now, idle, origin);
  }

  /** The tap key and time of the resolver are those of the last tap. */
  ghost predicate TapKnown(lookup: Lookup, events: seq<Event>) {
    var r := Run(lookup, events);
    r.lastTapRelease == LastTapTime(lookup, events) &&
    match LastTap(r.log.trace)
    case None => r.lastTapRelease == 0
    case Some(n) => n < |r.log.inputs| && r.log.inputs[n].code == r.lastTapKey
  }

  lemma {:induction false} LastTapIs(lookup: Lookup, events: seq<Event>)
    ensures TapKnown(lookup, events)
  {
    hide LastTap, Next, Keys;
    if events == [] {
      assert LastTap([]) == None by {
        NoTapYet();
      }
    } else {
      var front := events[..|events| - 1];
      LastTapIs(lookup, front);
      RunGood(lookup, front);
      StepMoves(lookup, Run(lookup, front), events[|events| - 1]);
      NextKeepsInputs(lookup, events);
    }
  }

  lemma NoTapYet()
    ensures LastTap([]) == None
  {
  }

  lemma NextKeepsInputs(lookup: Lookup, events: seq<Event>)
    requires events != []
    ensures Run(lookup, events[..|events| - 1]).log.inputs <= Run(lookup, events).log.inputs
  {
    hide Run;
  }

  // ---------- Main results ----------

  /** The press repeats the last tap of its key soon enough for a quick tap. */
  ghost predicate Repeats(lookup: Lookup, before: seq<Event>, code: nat, rules: Rules, now: int) {
    var last, at := LastTap(Run(lookup, before).log.trace), LastTapTime(lookup, before);
    last.Some? && last.value < |Keys(before)| && Keys(before)[last.value].code == code && rules.quickTapMs > 0 && at > 0 &&
    -1000 < now - at < (rules.quickTapMs + 1) * 1000
  }

  lemma QuickIs(d: int, ms: nat)
    requires ms > 0
    ensures 0 <= Millis(d) <= ms <==> -1000 < d < (ms + 1) * 1000
  {
  }

  lemma QuickTapIs(lookup: Lookup, before: seq<Event>, code: nat, rules: Rules, now: int)
    ensures QuickTap(Run(lookup, before), code, rules, now) <==> Repeats(lookup, before, code, rules, now)
  {
    hide LastTap, LastTapTime, Run, Millis, Keys;
    LastTapIs(lookup, before);
    if rules.quickTapMs > 0 {
      QuickIs(now - Run(lookup, before).lastTapRelease, rules.quickTapMs);
    }
  }

  /** Whether a press in this state is taken, given whether it is a quick tap. */
  lemma PressTaken(lookup: Lookup, r: Resolver, code: nat, now: int)
    requires Good(lookup, r, |r.log.inputs|) && lookup(code).Some?
    ensures r.Numbered()
    ensures var t, quick := Next(lookup, r, Key(code, true, now)), QuickTap(r, code, lookup(code).value, now);
            t.state == Pending && t.log.pending == |r.log.inputs| <==>
            (r.state == Idle && !quick) || (r.state == WaitDoubleTap && r.pendingAction != code)
  {
    PressKnown(lookup, r);
    TapNowMoves(Arrived(r, code, true, now), now);
    hide Good, LastTap, Passes, U16, Millis, PressedInBuffer;
  }

  lemma QuickTaps(lookup: Lookup, r: Resolver, code: nat, now: int, p: Press)
    requires r.Numbered() && r.state == Idle && lookup(code) == Some(p.rules) && QuickTap(r, code, p.rules, now)
    ensures var t := Next(lookup, r, Key(code, true, now));
            t.state == Idle && TapAnswer(p, |r.log.inputs|) in t.log.trace
  {
    hide Millis, U16;
  }

  /** Over every run: the press of a tap-hold key is taken to decide on exactly when
      nothing is undecided or held and it does not repeat a tap too soon, or when a second
      tap of another key is awaited; the press that repeats one is a tap at once. */
  lemma TakenIff(lookup: Lookup, events: seq<Event>, k: nat)
    requires k < |events| && events[k].Key? && events[k].pressed && lookup(events[k].code).Some?
    ensures var r, code := Run(lookup, events[..k]), events[k].code;
            var repeats := Repeats(lookup, events[..k], code, lookup(code).value, events[k].now);
            (IsCaptured(lookup, events, k) <==>
               (r.state == Idle && !repeats) || (r.state == WaitDoubleTap && r.pendingAction != code)) &&
            (r.state == Idle && repeats ==>
               TapAnswer(PressOf(lookup, events, k), |Keys(events[..k])|) in Run(lookup, events).log.trace)
  {
    hide Run, Keys, Next, Repeats, QuickTap, TapAnswer, Good;
    var r, code, now := Run(lookup, events[..k]), events[k].code, events[k].now;
    assert events[k] == Key(code, true, now);
    RunNext(lookup, events, k);
    RunGood(lookup, events[..k]);
    PressTaken(lookup, r, code, now);
    QuickTapIs(lookup, events[..k], code, lookup(code).value, now);
    if r.state == Idle && QuickTap(r, code, lookup(code).value, now) {
      QuickTaps(lookup, r, code, now, PressOf(lookup, events, k));
      EffectsStay(lookup, events, k + 1, TapAnswer(PressOf(lookup, events, k), |Keys(events[..k])|));
    }
  }

  // ---------- A sustained hold ----------

  predicate Sustains(r: Resolver, p: Press) {
    r.state == HoldSustained && r.pendingAction == p.code && r.rules == p.rules
  }

  lemma SustainStep(lookup: Lookup, r: Resolver, p: Press, origin: nat, since: seq<Input>, e: Event)
    requires r.Numbered() && Waits(r, p, origin, since) && Decides(p, since, e) && ForHold(p, e)
    requires p.rules.sustain && p.rules.hold != 0
    ensures Sustains(Next(lookup, r, e), p)
  {
    if e.Key? {
      InBufferIs(r.buffer, e.code);
    }
    hide Inputs, Passes, U16, PressedInBuffer;
  }

  lemma HeldStep(lookup: Lookup, r: Resolver, p: Press, e: Event)
    requires r.Numbered() && Sustains(r, p)
    ensures var t, n := Next(lookup, r, e), |r.log.inputs|;
            if OwnRelease(p, e) then t.state == Idle && Resolve(SustainUp, U16(p.rules.hold), 0, n) in t.log.trace
            else Sustains(t, p) && (e.Key? ==> Pass(e.code, e.pressed, n) in t.log.trace)
  {
    hide U16;
  }

  lemma {:induction false} SustainsUntil(lookup: Lookup, events: seq<Event>, p: Press, d: nat, j: nat)
    requires d < j <= |events| && Sustains(Run(lookup, events[..d + 1]), p)
    requires forall m | d < m < j :: !OwnRelease(p, events[m])
    ensures Sustains(Run(lookup, events[..j]), p)
  {
    hide Run, Next, OwnRelease, Sustains;
    if j > d + 1 {
      SustainsUntil(lookup, events, p, d, j - 1);
      RunNext(lookup, events, j - 1);
      HeldStep(lookup, Run(lookup, events[..j - 1]), p, events[j - 1]);
    }
  }

  /** Press k has been decided for a sustained hold by event d, and its key has not come
      up before event j. */
  ghost predicate HeldUntil(lookup: Lookup, events: seq<Event>, k: nat, d: nat, j: nat) {
    IsCaptured(lookup, events, k) && lookup(events[k].code).Some? && k < d < j <= |events| &&
    var p := PressOf(lookup, events, k);
    d == FirstDecider(p, events, k, k + 1) && ForHold(p, events[d]) && p.rules.sustain && p.rules.hold != 0 &&
    forall m | d < m < j :: !OwnRelease(p, events[m])
  }

  lemma HeldSustains(lookup: Lookup, events: seq<Event>, k: nat, d: nat, j: nat)
    requires HeldUntil(lookup, events, k, d, j)
    ensures Sustains(Run(lookup, events[..j]), PressOf(lookup, events, k))
  {
    hide Run, Next, Decides, ForHold, OwnRelease, Waits, Sustains, FirstDecider, Since, Keys, PressOf;
    var p, n := PressOf(lookup, events, k), |Keys(events[..k])|;
    WaitsUntil(lookup, events, k, d);
    RunNext(lookup, events, d);
    SustainStep(lookup, Run(lookup, events[..d]), p, n, Since(events, k, d), events[d]);
    SustainsUntil(lookup, events, p, d, j);
  }

  /** From the decision on, every input is passed on as it comes until the key comes up,
      and its release releases the held action. */
  lemma HeldUntilReleased(lookup: Lookup, events: seq<Event>, k: nat, d: nat, j: nat)
    requires HeldUntil(lookup, events, k, d, j) && j < |events| && events[j].Key?
    ensures var p, n, trace := PressOf(lookup, events, k), |Keys(events[..j])|, Run(lookup, events).log.trace;
            (if OwnRelease(p, events[j]) then Resolve(SustainUp, U16(p.rules.hold), 0, n)
             else Pass(events[j].code, events[j].pressed, n)) in trace
  {
    hide Run, Next, Decides, ForHold, OwnRelease, Sustains, FirstDecider, Since, Keys, U16, PressOf;
    var p, n := PressOf(lookup, events, k), |Keys(events[..j])|;
    HeldSustains(lookup, events, k, d, j);
    RunNext(lookup, events, j);
    HeldStep(lookup, Run(lookup, events[..j]), p, events[j]);
    if OwnRelease(p, events[j]) {
      EffectsStay(lookup, events, j + 1, Resolve(SustainUp, U16(p.rules.hold), 0, n));
    } else {
      EffectsStay(lookup, events, j + 1, Pass(events[j].code, events[j].pressed, n));
    }
  }
}
