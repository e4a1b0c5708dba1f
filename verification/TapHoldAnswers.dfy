/** How a tap-hold press is answered, told from the events and the rules alone. */
module TapHoldAnswers {
  import opened Numbers
  import opened Options
  import opened TapHold
  import opened TapHoldRuns

  // ---------- The press, and what comes after it ----------

  /** A press that waits for its decision; burst says that it came too soon after another
      key for a hold. */
  datatype Press = Press(code: nat, rules: Rules, at: int, burst: bool)

  /** The time of the last key event, or 0. */
  function LastKeyTime(events: seq<Event>): int {
    if events == [] then 0
    else if events[|events| - 1].Key? then events[|events| - 1].now
    else LastKeyTime(events[..|events| - 1])
  }

  /** The time since the last key event; long if there is none. */
  function IdleTime(before: seq<Event>, now: int): int {
    if LastKeyTime(before) > 0 then now - LastKeyTime(before) else 1000000000
  }

  function PressOf(lookup: Lookup, events: seq<Event>, k: nat): Press
    requires k < |events| && events[k].Key? && lookup(events[k].code).Some?
  {
    var rules, now := lookup(events[k].code).value, events[k].now;
    Press(events[k].code, rules, now, rules.priorIdleMs > 0 && IdleTime(events[..k], now) < rules.priorIdleMs * 1000)
  }

  /** The inputs after the press, before event j. */
  function Since(events: seq<Event>, k: nat, j: nat): seq<Input>
    requires k < j <= |events|
  {
    Keys(events[k + 1..j])
  }

  predicate OwnRelease(p: Press, e: Event) {
    e.Key? && !e.pressed && e.code == p.code
  }

  /** Another key decides by the flavor: its press, or the release of a key pressed since. */
  predicate Forces(p: Press, since: seq<Input>, e: Event) {
    e.Key? && !p.burst &&
    if e.pressed then p.rules.flavor == HOLD_ON_OTHER_KEY_PRESS
    else p.rules.flavor == PERMISSIVE_HOLD && Input(e.code, true) in since
  }

  /** The event decides: the threshold is over, the key comes up, another key decides by
      the flavor, or it would be the seventeenth input to wait. */
  predicate Decides(p: Press, since: seq<Input>, e: Event) {
    match e
    case At(now) => now - p.at >= (if p.rules.holdMs > 0 then p.rules.holdMs else 200) * 1000
    case Key(_, _, _) => OwnRelease(p, e) || Forces(p, since, e) || |since| >= 16
  }

  /** What decides, decides for a hold: every key but the own release, and a tick unless
      the press came in a burst. */
  predicate ForHold(p: Press, e: Event) {
    if e.At? then !p.burst else !OwnRelease(p, e)
  }

  function Duration(ms: nat): nat {
    if ms > 0 then ms else 20
  }

  function HoldAnswer(p: Press, origin: nat): (e: Effect)
    ensures e.Resolve? && e.origin == origin
  {
    if p.rules.sustain && p.rules.hold != 0 then Resolve(SustainDown, U16(p.rules.hold), 0, origin)
    else Resolve(Hold, U16(p.rules.hold), Duration(p.rules.holdDur), origin)
  }

  function TapAnswer(p: Press, origin: nat): (e: Effect)
    ensures e.Resolve? && e.origin == origin
  {
    Resolve(Tap, U16(p.rules.tap), Duration(p.rules.tapDur), origin)
  }

  function DoubleTapAnswer(p: Press, origin: nat): (e: Effect)
    ensures e.Resolve? && e.origin == origin
  {
    Resolve(DoubleTap, U16(p.rules.doubleTap), Duration(p.rules.doubleTapDur), origin)
  }

  /** The event ends the wait for a second tap that began at time t. */
  predicate EndsWait(p: Press, t: int, e: Event) {
    e.Key? || e.now - t >= (if p.rules.doubleTapMs > 0 then p.rules.doubleTapMs else 300) * 1000
  }

  // ---------- The answer ----------

  /** The first event from j on that decides press k, or their number. */
  function FirstDecider(p: Press, events: seq<Event>, k: nat, j: nat): (d: nat)
    requires k < j <= |events|
    ensures j <= d <= |events| && (d < |events| ==> Decides(p, Since(events, k, d), events[d]))
    ensures forall m | j <= m < d :: !Decides(p, Since(events, k, m), events[m])
    decreases |events| - j
  {
    if j == |events| || Decides(p, Since(events, k, j), events[j]) then j else FirstDecider(p, events, k, j + 1)
  }

  /** The first event from j on that ends the wait, or their number. */
  function WaitEnd(p: Press, events: seq<Event>, t: int, j: nat): (w: nat)
    requires j <= |events|
    ensures j <= w <= |events| && (w < |events| ==> EndsWait(p, t, events[w]))
    ensures forall m | j <= m < w :: !EndsWait(p, t, events[m])
    decreases |events| - j
  {
    if j == |events| || EndsWait(p, t, events[j]) then j else WaitEnd(p, events, t, j + 1)
  }

  /** What answers press k: nothing yet, a hold, a tap, or a double tap. */
  function Answer(p: Press, events: seq<Event>, k: nat, origin: nat): Option<Effect>
    requires k < |events|
  {
    var d := FirstDecider(p, events, k, k + 1);
    if d == |events| then None
    else if ForHold(p, events[d]) then Some(HoldAnswer(p, origin))
    else if p.rules.doubleTap == 0 || Since(events, k, d) != [] then Some(TapAnswer(p, origin))
    else
      var w := WaitEnd(p, events, events[d].now, d + 1);
      if w == |events| then None
      else if events[w].Key? && events[w].pressed && events[w].code == p.code then Some(DoubleTapAnswer(p, origin))
      else Some(TapAnswer(p, origin))
  }

  /** Event k is a press that the resolver has taken to decide on. */
  ghost predicate IsCaptured(lookup: Lookup, events: seq<Event>, k: nat) {
    k < |events| && events[k].Key? && events[k].pressed &&
    Run(lookup, events[..k + 1]).state == Pending && Run(lookup, events[..k + 1]).log.pending == |Keys(events[..k])|
  }

  // ---------- Runs, event by event ----------

  lemma RunNext(lookup: Lookup, events: seq<Event>, j: nat)
    requires j < |events|
    ensures Run(lookup, events[..j + 1]) == Next(lookup, Run(lookup, events[..j]), events[j])
    ensures Keys(events[..j + 1]) == Keys(events[..j]) + if events[j].Key? then [Input(events[j].code, events[j].pressed)] else []
  {
    assert events[..j + 1][..j] == events[..j];
    hide Next;
  }

  lemma SinceNext(events: seq<Event>, k: nat, j: nat)
    requires k < j < |events|
    ensures Since(events, k, j + 1) == Since(events, k, j) + if events[j].Key? then [Input(events[j].code, events[j].pressed)] else []
  {
    assert events[k + 1..j + 1][..j - k - 1] == events[k + 1..j];
  }

  lemma NextKeepsTime(lookup: Lookup, r: Resolver, e: Event)
    requires r.Numbered()
    ensures Next(lookup, r, e).lastAny == if e.Key? then e.now else r.lastAny
  {
    hide Passes, QuickTap, PressedInBuffer, U16, Millis;
  }

  lemma {:induction false} LastAnyIs(lookup: Lookup, events: seq<Event>)
    ensures Run(lookup, events).lastAny == LastKeyTime(events)
  {
    hide Next, Keys;
    if events != [] {
      LastAnyIs(lookup, events[..|events| - 1]);
      NextKeepsTime(lookup, Run(lookup, events[..|events| - 1]), events[|events| - 1]);
    }
  }

  lemma BurstIs(idle: int, ms: nat)
    requires ms > 0
    ensures Millis(idle) < ms <==> idle < ms * 1000
  {
  }

  // ---------- The press is taken ----------

  /** The resolver waits for the decision on p. */
  predicate Waits(r: Resolver, p: Press, origin: nat, since: seq<Input>) {
    r.state == Pending && r.pendingAction == p.code && r.rules == p.rules && r.pressTime == p.at && r.disallowHold == p.burst &&
    r.log.pending == origin && Inputs(r.buffer) == since
  }

  lemma CaptureStep(lookup: Lookup, r: Resolver, code: nat, pressed: bool, now: int)
    requires r.Numbered() && (r.state == Pending ==> r.log.pending < |r.log.inputs|)
    requires var t := Next(lookup, r, Key(code, pressed, now)); t.state == Pending && t.log.pending == |r.log.inputs|
    ensures pressed && lookup(code).Some?
    ensures var rules := lookup(code).value;
            var idle := if r.lastAny > 0 then now - r.lastAny else 1000000000;
            Waits(Next(lookup, r, Key(code, pressed, now)),
                  Press(code, rules, now, rules.priorIdleMs > 0 && Millis(idle) < rules.priorIdleMs), |r.log.inputs|, [])
  {
    hide Passes, QuickTap, PressedInBuffer, U16, Millis;
  }

  lemma CapturedWaits(lookup: Lookup, events: seq<Event>, k: nat)
    requires IsCaptured(lookup, events, k)
    ensures lookup(events[k].code).Some?
    ensures Waits(Run(lookup, events[..k + 1]), PressOf(lookup, events, k), |Keys(events[..k])|, [])
  {
    var r, e := Run(lookup, events[..k]), events[k];
    RunNext(lookup, events, k);
    RunGood(lookup, events[..k]);
    assert r.state == Pending ==> r.log.pending < |r.log.inputs| by {
      hide Run, BufferGood, OrderGood, PlainGood, CountGood;
    }
    hide Run, Next, Good, Keys, Millis, Waits;
    CaptureStep(lookup, r, e.code, e.pressed, e.now);
    LastAnyIs(lookup, events[..k]);
    if lookup(e.code).value.priorIdleMs > 0 {
      BurstIs(IdleTime(events[..k], e.now), lookup(e.code).value.priorIdleMs);
    }
  }

  // ---------- While it waits ----------

  lemma InBufferIs(buffer: seq<Deferred>, code: nat)
    ensures PressedInBuffer(buffer, code) <==> Input(code, true) in Inputs(buffer)
  {
    if PressedInBuffer(buffer, code) {
      var i :| 0 <= i < |buffer| && buffer[i].code == code && buffer[i].pressed;
      assert Inputs(buffer)[i] == Input(code, true);
    }
  }

  /** An event that does not decide waits with the others. */
  lemma WaitStep(lookup: Lookup, r: Resolver, p: Press, origin: nat, since: seq<Input>, e: Event)
    requires r.Numbered() && Waits(r, p, origin, since) && !Decides(p, since, e)
    ensures Waits(Next(lookup, r, e), p, origin, since + if e.Key? then [Input(e.code, e.pressed)] else [])
  {
    if e.Key? {
      InBufferIs(r.buffer, e.code);
      assert Inputs(r.buffer + [Deferred(e.code, e.pressed, e.now)]) == since + [Input(e.code, e.pressed)];
    } else {
      assert since + [] == since;
    }
    hide Inputs, PressedInBuffer, ResolveToHold, ResolveToTap;
  }

  /** An event that decides for a hold. */
  lemma HoldStep(lookup: Lookup, r: Resolver, p: Press, origin: nat, since: seq<Input>, e: Event)
    requires r.Numbered() && Waits(r, p, origin, since) && Decides(p, since, e) && ForHold(p, e)
    ensures HoldAnswer(p, origin) in Next(lookup, r, e).log.trace
  {
    if e.Key? {
      InBufferIs(r.buffer, e.code);
    }
    HoldHolds(r, p, origin);
    hide Inputs, PressedInBuffer, ResolveToHold, ResolveToTap, HoldAnswer;
  }

  lemma HoldHolds(r: Resolver, p: Press, origin: nat)
    requires r.Numbered() && r.rules == p.rules && r.log.pending == origin
    ensures HoldAnswer(p, origin) in ResolveToHold(r).log.trace
  {
    hide U16;
  }

  /** An event that decides for a tap, without a second tap to wait for. */
  lemma TapStep(lookup: Lookup, r: Resolver, p: Press, origin: nat, since: seq<Input>, e: Event)
    requires r.Numbered() && Waits(r, p, origin, since) && Decides(p, since, e) && !ForHold(p, e)
    requires p.rules.doubleTap == 0 || since != []
    ensures TapAnswer(p, origin) in Next(lookup, r, e).log.trace
  {
    TapTaps(r, p, origin, e.now);
    if e.Key? {
      TapTaps(Arrived(r, e.code, e.pressed, e.now), p, origin, e.now);
    }
    hide PressedInBuffer, ResolveToHold, TapNow, TapAnswer;
  }

  lemma TapTaps(r: Resolver, p: Press, origin: nat, now: int)
    requires r.Numbered() && r.rules == p.rules && r.log.pending == origin
    ensures TapAnswer(p, origin) in TapNow(r, now).log.trace
  {
    hide U16;
  }

  // ---------- While it waits for a second tap ----------

  predicate WaitsSecond(r: Resolver, p: Press, origin: nat, t: int) {
    r.state == WaitDoubleTap && r.pendingAction == p.code && r.rules == p.rules && r.releaseTime == t && r.log.pending == origin
  }

  /** An event that decides for a tap and begins the wait for a second one. */
  lemma SecondStep(lookup: Lookup, r: Resolver, p: Press, origin: nat, e: Event)
    requires r.Numbered() && Waits(r, p, origin, []) && Decides(p, [], e) && !ForHold(p, e) && p.rules.doubleTap != 0
    ensures WaitsSecond(Next(lookup, r, e), p, origin, e.now)
  {
    hide PressedInBuffer, ResolveToHold, TapNow;
  }

  lemma StillStep(lookup: Lookup, r: Resolver, p: Press, origin: nat, t: int, e: Event)
    requires r.Numbered() && WaitsSecond(r, p, origin, t) && !EndsWait(p, t, e)
    ensures Next(lookup, r, e) == r
  {
    hide TapNow;
  }

  lemma EndStep(lookup: Lookup, r: Resolver, p: Press, origin: nat, t: int, e: Event)
    requires r.Numbered() && WaitsSecond(r, p, origin, t) && EndsWait(p, t, e)
    ensures (if e.Key? && e.pressed && e.code == p.code then DoubleTapAnswer(p, origin) else TapAnswer(p, origin))
            in Next(lookup, r, e).log.trace
  {
    TapTaps(r, p, origin, e.now);
    if e.Key? {
      var a := Arrived(r, e.code, e.pressed, e.now);
      TapTaps(a, p, origin, e.now);
      if e.pressed && e.code == p.code {
        DoubleTaps(a, p, origin);
      } else {
        IdleGrows(TapNow(a, e.now), e.code, e.pressed, lookup(e.code), e.now, if r.lastAny > 0 then e.now - r.lastAny else 1000000000, |r.log.inputs|);
      }
    }
    hide TapNow, InIdle, DoubleTapped, TapAnswer, DoubleTapAnswer;
  }

  lemma DoubleTaps(r: Resolver, p: Press, origin: nat)
    requires r.Numbered() && r.rules == p.rules && r.log.pending == origin
    ensures DoubleTapAnswer(p, origin) in DoubleTapped(r).log.trace
  {
    hide U16;
  }

  // ---------- Effects stay ----------

  lemma IdleGrows(r: Resolver, code: nat, pressed: bool, rules: Option<Rules>, now: int, idle: int, origin: nat)
    requires r.Numbered()
    ensures r.log.trace <= InIdle(r, code, pressed, rules, now, idle, origin).log.trace
  {
    hide U16, Millis, QuickTap;
  }

  lemma DecisionsGrow(r: Resolver, now: int)
    requires r.Numbered()
    ensures r.log.trace <= ResolveToHold(r).log.trace && r.log.trace <= TapNow(r, now).log.trace
    ensures r.log.trace <= DoubleTapped(r).log.trace
  {
    hide U16;
  }

  lemma PendingGrows(r: Resolver, code: nat, pressed: bool, now: int, origin: nat)
    requires r.Numbered()
    ensures r.log.trace <= InPending(r, code, pressed, now, origin).log.trace
  {
    DecisionsGrow(r, now);
    hide ResolveToHold, TapNow, PressedInBuffer;
  }

  lemma WaitingGrows(r: Resolver, code: nat, pressed: bool, rules: Option<Rules>, now: int, idle: int, origin: nat)
    requires r.Numbered()
    ensures r.log.trace <= InWaiting(r, code, pressed, rules, now, idle, origin).log.trace
  {
    hide InIdle, TapNow, DoubleTapped;
    DecisionsGrow(r, now);
    IdleGrows(TapNow(r, now), code, pressed, rules, now, idle, origin);
  }

  lemma KeyGrows(lookup: Lookup, r: Resolver, code: nat, pressed: bool, now: int)
    requires r.Numbered()
    ensures r.log.trace <= ProcessKey(r, code, pressed, lookup(code), now).log.trace
  {
    hide InWaiting, InPending, InIdle, U16;
    var a := Arrived(r, code, pressed, now);
    var idle := if r.lastAny > 0 then now - r.lastAny else 1000000000;
    PendingGrows(a, code, pressed, now, |r.log.inputs|);
    IdleGrows(a, code, pressed, lookup(code), now, idle, |r.log.inputs|);
    WaitingGrows(a, code, pressed, lookup(code), now, idle, |r.log.inputs|);
  }

  lemma NextGrows(lookup: Lookup, r: Resolver, e: Event)
    requires r.Numbered()
    ensures r.log.trace <= Next(lookup, r, e).log.trace
  {
    hide ResolveToHold, TapNow, ProcessKey;
    DecisionsGrow(r, e.now);
    if e.Key? {
      KeyGrows(lookup, r, e.code, e.pressed, e.now);
    }
  }

  lemma {:induction false} EffectsStay(lookup: Lookup, events: seq<Event>, j: nat, e: Effect)
    requires j <= |events| && e in Run(lookup, events[..j]).log.trace
    ensures e in Run(lookup, events).log.trace
  {
    hide Next;
    var m := |events| - 1;
    if j == |events| {
      assert events[..j] == events;
    } else {
      assert events[..m][..j] == events[..j];
      EffectsStay(lookup, events[..m], j, e);
      NextGrows(lookup, Run(lookup, events[..m]), events[m]);
    }
  }

  // ---------- Main results ----------

  lemma {:induction false} WaitsUntil(lookup: Lookup, events: seq<Event>, k: nat, j: nat)
    requires IsCaptured(lookup, events, k) && lookup(events[k].code).Some? && k < j <= |events|
    requires forall m | k < m < j :: !Decides(PressOf(lookup, events, k), Since(events, k, m), events[m])
    ensures Waits(Run(lookup, events[..j]), PressOf(lookup, events, k), |Keys(events[..k])|, Since(events, k, j))
  {
    hide Waits, Decides, Next, Run, PressOf;
    CapturedWaits(lookup, events, k);
    if j == k + 1 {
      assert events[k + 1..j] == [];
    } else {
      var p, n := PressOf(lookup, events, k), |Keys(events[..k])|;
      WaitsUntil(lookup, events, k, j - 1);
      RunNext(lookup, events, j - 1);
      SinceNext(events, k, j - 1);
      WaitStep(lookup, Run(lookup, events[..j - 1]), p, n, Since(events, k, j - 1), events[j - 1]);
    }
  }

  lemma {:induction false} WaitsSecondUntil(lookup: Lookup, events: seq<Event>, p: Press, origin: nat, d: nat, j: nat)
    requires d < j <= |events| && WaitsSecond(Run(lookup, events[..d + 1]), p, origin, events[d].now)
    requires forall m | d < m < j :: !EndsWait(p, events[d].now, events[m])
    ensures WaitsSecond(Run(lookup, events[..j]), p, origin, events[d].now)
  {
    hide WaitsSecond, EndsWait, Next, Run;
    if j > d + 1 {
      WaitsSecondUntil(lookup, events, p, origin, d, j - 1);
      RunNext(lookup, events, j - 1);
      StillStep(lookup, Run(lookup, events[..j - 1]), p, origin, events[d].now, events[j - 1]);
    }
  }

  lemma OnlyAnswer(lookup: Lookup, events: seq<Event>, a: Effect, b: Effect)
    requires a in Run(lookup, events).log.trace && b in Run(lookup, events).log.trace
    requires a != Report && b != Report && a.origin == b.origin
    ensures a == b
  {
    Linearised(lookup, events);
    hide Run, Right, Keys;
    var t := Run(lookup, events).log.trace;
    var i :| 0 <= i < |t| && t[i] == a;
    var j :| 0 <= j < |t| && t[j] == b;
  }

  lemma NoAnswerYet(lookup: Lookup, events: seq<Event>, e: Effect)
    requires Undecided(Run(lookup, events)) && e in Run(lookup, events).log.trace && e != Report
    ensures e.origin != Run(lookup, events).log.pending
  {
    RunGood(lookup, events);
    hide Run, BufferGood, PendingGood, PlainGood, CountGood, Ordered, AllRight;
  }

  /** The answer is among the effects, or the press still waits for it. */
  ghost predicate Told(r: Resolver, n: nat, answer: Option<Effect>) {
    match answer
    case None => Undecided(r) && r.log.pending == n
    case Some(e) => e in r.log.trace && e != Report && e.origin == n
  }

  lemma Answered(lookup: Lookup, events: seq<Event>, k: nat)
    requires IsCaptured(lookup, events, k) && lookup(events[k].code).Some?
    ensures Told(Run(lookup, events), |Keys(events[..k])|, Answer(PressOf(lookup, events, k), events, k, |Keys(events[..k])|))
  {
    hide Run, Decides, Next, PressOf, FirstDecider, Since, HoldAnswer, TapAnswer, DoubleTapAnswer, WaitEnd, ForHold, Keys;
    var p, n := PressOf(lookup, events, k), |Keys(events[..k])|;
    var d := FirstDecider(p, events, k, k + 1);
    WaitsUntil(lookup, events, k, d);
    if d == |events| {
      assert events[..d] == events;
      hide Inputs;
    } else {
      DecidedAt(lookup, events, k, p, n, d);
      hide Waits;
    }
  }

  lemma DecidedAt(lookup: Lookup, events: seq<Event>, k: nat, p: Press, n: nat, d: nat)
    requires k < d < |events| && Decides(p, Since(events, k, d), events[d])
    requires Waits(Run(lookup, events[..d]), p, n, Since(events, k, d))
    ensures var trace := Run(lookup, events).log.trace;
            if ForHold(p, events[d]) then HoldAnswer(p, n) in trace
            else if p.rules.doubleTap == 0 || Since(events, k, d) != [] then TapAnswer(p, n) in trace
            else SecondTold(lookup, events, p, n, d)
  {
    hide Run, Decides, Next, Since, Waits, HoldAnswer, TapAnswer, ForHold, SecondTold;
    RunNext(lookup, events, d);
    var r, since := Run(lookup, events[..d]), Since(events, k, d);
    if ForHold(p, events[d]) {
      HoldStep(lookup, r, p, n, since, events[d]);
      EffectsStay(lookup, events, d + 1, HoldAnswer(p, n));
    } else if p.rules.doubleTap == 0 || since != [] {
      TapStep(lookup, r, p, n, since, events[d]);
      EffectsStay(lookup, events, d + 1, TapAnswer(p, n));
    } else {
      SecondStep(lookup, r, p, n, events[d]);
      SecondAnswered(lookup, events, p, n, d);
    }
  }

  /** How the wait for a second tap that event d began has ended. */
  ghost predicate SecondTold(lookup: Lookup, events: seq<Event>, p: Press, n: nat, d: nat)
    requires d < |events|
  {
    var w, r := WaitEnd(p, events, events[d].now, d + 1), Run(lookup, events);
    if w == |events| then r.state == WaitDoubleTap && r.log.pending == n
    else if events[w].Key? && events[w].pressed && events[w].code == p.code then DoubleTapAnswer(p, n) in r.log.trace
    else TapAnswer(p, n) in r.log.trace
  }

  lemma SecondAnswered(lookup: Lookup, events: seq<Event>, p: Press, n: nat, d: nat)
    requires d < |events| && WaitsSecond(Run(lookup, events[..d + 1]), p, n, events[d].now)
    ensures SecondTold(lookup, events, p, n, d)
  {
    hide Run, Next, EndsWait, WaitEnd, TapAnswer, DoubleTapAnswer;
    var t := events[d].now;
    var w := WaitEnd(p, events, t, d + 1);
    WaitsSecondUntil(lookup, events, p, n, d, w);
    if w == |events| {
      assert events[..w] == events;
    } else {
      hide WaitsSecond;
      EndAnswered(lookup, events, p, n, t, w);
    }
  }

  lemma EndAnswered(lookup: Lookup, events: seq<Event>, p: Press, n: nat, t: int, w: nat)
    requires w < |events| && WaitsSecond(Run(lookup, events[..w]), p, n, t) && EndsWait(p, t, events[w])
    ensures (if events[w].Key? && events[w].pressed && events[w].code == p.code then DoubleTapAnswer(p, n) else TapAnswer(p, n))
            in Run(lookup, events).log.trace
  {
    hide Run, Next, EndsWait, TapAnswer, DoubleTapAnswer, WaitsSecond;
    RunNext(lookup, events, w);
    EndStep(lookup, Run(lookup, events[..w]), p, n, t, events[w]);
    if events[w].Key? && events[w].pressed && events[w].code == p.code {
      EffectsStay(lookup, events, w + 1, DoubleTapAnswer(p, n));
    } else {
      EffectsStay(lookup, events, w + 1, TapAnswer(p, n));
    }
  }

  lemma AnswerOnly(lookup: Lookup, events: seq<Event>, n: nat, answer: Option<Effect>, e: Effect)
    requires Told(Run(lookup, events), n, answer) && e != Report && e.origin == n
    ensures e in Run(lookup, events).log.trace <==> answer == Some(e)
  {
    hide Run;
    if e in Run(lookup, events).log.trace {
      match answer
      case None => NoAnswerYet(lookup, events, e);
      case Some(a) => OnlyAnswer(lookup, events, e, a);
    }
  }

  /** Over every run and for every press that the resolver has taken to decide on: the one
      effect that answers it is what the events and the rules say, and there is none
      before they say so. */
  lemma AnswerIs(lookup: Lookup, events: seq<Event>, k: nat)
    requires IsCaptured(lookup, events, k)
    ensures lookup(events[k].code).Some?
    ensures var n := |Keys(events[..k])|;
            forall e | e != Report && e.origin == n ::
              e in Run(lookup, events).log.trace <==> Answer(PressOf(lookup, events, k), events, k, n) == Some(e)
  {
    hide Run, Keys, Answer, PressOf, Waits, Told;
    CapturedWaits(lookup, events, k);
    Answered(lookup, events, k);
    var n, p := |Keys(events[..k])|, PressOf(lookup, events, k);
    forall e | e != Report && e.origin == n
      ensures e in Run(lookup, events).log.trace <==> Answer(p, events, k, n) == Some(e)
    {
      AnswerOnly(lookup, events, n, Answer(p, events, k, n), e);
    }
  }
}
