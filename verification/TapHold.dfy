/** The tap-hold resolver (components/keyboard/kb_tap_hold.c). */
module TapHold {
  import opened Numbers
  import opened Options

  const TH_MAX_DEFERRED_EVENTS: nat := 16

  /** cfg_ckey_ma_t. */
  datatype Rules = Rules(
    tap: nat, doubleTap: nat, hold: nat,
    doubleTapMs: nat, holdMs: nat,
    tapDur: nat, doubleTapDur: nat, holdDur: nat,
    sustain: bool, flavor: nat, quickTapMs: nat, priorIdleMs: nat
  )

  const NO_RULES := Rules(0, 0, 0, 0, 0, 0, 0, 0, false, 0, 0, 0)

  const HOLD_ON_OTHER_KEY_PRESS: nat := 1
  const PERMISSIVE_HOLD: nat := 2

  datatype State = Idle | Pending | WaitDoubleTap | HoldSustained

  datatype Input = Input(code: nat, pressed: bool)

  datatype Deferred = Deferred(code: nat, pressed: bool, time: int)

  datatype Kind = Tap | DoubleTap | Hold | SustainDown | SustainUp

  /** What leaves the resolver. origin is the number of the input that an effect
      answers; a decision for action 0 reaches no callback but is recorded. */
  datatype Effect =
    | Pass(code: nat, pressed: bool, origin: nat)
    | Resolve(kind: Kind, action: nat, dur: nat, origin: nat)
    | Report

  /** History. */
  datatype Log = Log(
    inputs: seq<Input>,    // all inputs so far
    trace: seq<Effect>,    // all effects so far
    pending: nat,          // number of the input that pressed the pending key
    origins: seq<nat>,     // numbers of the buffered inputs
    captured: nat          // presses taken as tap-hold presses
  )

  datatype Resolver = Resolver(
    state: State,
    pendingAction: nat,
    rules: Rules,
    pressTime: int,
    releaseTime: int,
    disallowHold: bool,
    lastAny: int,
    lastTapKey: nat,
    lastTapRelease: int,
    buffer: seq<Deferred>,
    log: Log
  ) {
    /** Every buffered input has a number. */
    predicate Numbered() {
      |buffer| == |log.origins|
    }
  }

  /** C's division by 1000, which rounds towards zero. */
  function Millis(us: int): int {
    if us >= 0 then us / 1000 else -(-us / 1000)
  }

  function Passes(buffer: seq<Deferred>, origins: seq<nat>): (p: seq<Effect>)
    requires |buffer| == |origins|
    ensures |p| == |buffer|
  {
    seq(|buffer|, i requires 0 <= i < |buffer| => Pass(buffer[i].code, buffer[i].pressed, origins[i]))
  }

  /** buffer_flush. */
  function Flush(r: Resolver): Resolver
    requires r.Numbered()
  {
    r.(buffer := [], log := r.log.(trace := r.log.trace + Passes(r.buffer, r.log.origins), origins := []))
  }

  /** fire_tap. */
  function Fire(r: Resolver, kind: Kind, action: nat, dur: nat, origin: nat): Resolver {
    Emit(r, Resolve(kind, U16(action), if dur > 0 then dur else 20, origin))
  }

  function Emit(r: Resolver, e: Effect): Resolver {
    r.(log := r.log.(trace := r.log.trace + [e]))
  }

  function ResolveToHold(r: Resolver): (decided: Resolver)
    requires r.Numbered()
    ensures decided.Numbered() && decided.log.inputs == r.log.inputs
  {
    var fired := if r.rules.hold != 0 && r.rules.sustain then
                   Emit(r, Resolve(SustainDown, U16(r.rules.hold), 0, r.log.pending)).(state := HoldSustained)
                 else
                   Fire(r, Hold, r.rules.hold, r.rules.holdDur, r.log.pending).(state := Idle);
    Emit(Flush(fired), Report)
  }

  function TapNow(r: Resolver, now: int): (tapped: Resolver)
    requires r.Numbered()
    ensures tapped.state == Idle && tapped.Numbered() && tapped.log.inputs == r.log.inputs
  {
    var fired := Fire(r, Tap, r.rules.tap, r.rules.tapDur, r.log.pending);
    Emit(Flush(fired.(lastTapKey := r.pendingAction, lastTapRelease := now, state := Idle)), Report)
  }

  function ResolveToTap(r: Resolver, now: int): (next: Resolver)
    requires r.Numbered()
    ensures next.Numbered() && next.log.inputs == r.log.inputs
  {
    if r.rules.doubleTap != 0 && r.buffer == [] then r.(state := WaitDoubleTap, releaseTime := now)
    else TapNow(r, now)
  }

  /** An input from another key that has to wait, or forces the decision when the
      buffer is full. */
  function Defer(r: Resolver, code: nat, pressed: bool, now: int, origin: nat): Resolver
    requires r.Numbered()
  {
    if |r.buffer| < TH_MAX_DEFERRED_EVENTS then
      r.(buffer := r.buffer + [Deferred(code, pressed, now)], log := r.log.(origins := r.log.origins + [origin]))
    else
      Emit(Emit(ResolveToHold(r), Pass(code, pressed, origin)), Report)
  }

  predicate PressedInBuffer(buffer: seq<Deferred>, code: nat) {
    exists i | 0 <= i < |buffer| :: buffer[i].code == code && buffer[i].pressed
  }

  function InPending(r: Resolver, code: nat, pressed: bool, now: int, origin: nat): (next: Resolver)
    requires r.Numbered()
    ensures next.Numbered() && next.log.inputs == r.log.inputs
  {
    if !pressed && code == r.pendingAction then ResolveToTap(r, now)
    else if !r.disallowHold && ((pressed && r.rules.flavor == HOLD_ON_OTHER_KEY_PRESS) ||
                                (!pressed && r.rules.flavor == PERMISSIVE_HOLD && PressedInBuffer(r.buffer, code))) then
      Emit(Emit(ResolveToHold(r), Pass(code, pressed, origin)), Report)
    else
      Defer(r, code, pressed, now, origin)
  }

  predicate QuickTap(r: Resolver, code: nat, rules: Rules, now: int) {
    code == r.lastTapKey && rules.quickTapMs > 0 && r.lastTapRelease > 0 &&
    0 <= Millis(now - r.lastTapRelease) <= rules.quickTapMs
  }

  function Captured(r: Resolver): Resolver {
    r.(log := r.log.(captured := r.log.captured + 1))
  }

  function Capture(r: Resolver, code: nat, ma: Rules, now: int, idle: int, origin: nat): Resolver {
    r.(state := Pending, pendingAction := code, rules := ma, pressTime := now, buffer := [],
       disallowHold := ma.priorIdleMs > 0 && Millis(idle) < ma.priorIdleMs,
       log := r.log.(origins := [], pending := origin, captured := r.log.captured + 1))
  }

  function InIdle(r: Resolver, code: nat, pressed: bool, rules: Option<Rules>, now: int, idle: int, origin: nat): (next: Resolver)
    requires r.Numbered()
    ensures next.Numbered() && next.log.inputs == r.log.inputs
  {
    if rules == None then Emit(r, Pass(code, pressed, origin))
    else if !pressed then r
    else if QuickTap(r, code, rules.value, now) then
      Emit(Fire(Captured(r), Tap, rules.value.tap, rules.value.tapDur, origin).(lastTapRelease := now), Report)
    else Capture(r, code, rules.value, now, idle, origin)
  }

  function InSustained(r: Resolver, code: nat, pressed: bool, origin: nat): (next: Resolver)
    requires r.Numbered()
    ensures next.Numbered() && next.log.inputs == r.log.inputs
  {
    if !pressed && code == r.pendingAction then
      Emit(Emit(r, Resolve(SustainUp, U16(r.rules.hold), 0, origin)).(state := Idle), Report)
    else Emit(r, Pass(code, pressed, origin))
  }

  function DoubleTapped(r: Resolver): (next: Resolver)
    requires r.Numbered()
    ensures next.Numbered() && next.log.inputs == r.log.inputs
  {
    var fired := Fire(Captured(r), DoubleTap, r.rules.doubleTap, r.rules.doubleTapDur, r.log.pending);
    Emit(Flush(fired.(state := Idle)), Report)
  }

  function Arrived(r: Resolver, code: nat, pressed: bool, now: int): (next: Resolver)
    requires r.Numbered()
    ensures next.Numbered() && next.state == r.state && next.pendingAction == r.pendingAction
    ensures next.log.inputs == r.log.inputs + [Input(code, pressed)]
  {
    r.(lastAny := now, log := r.log.(inputs := r.log.inputs + [Input(code, pressed)]))
  }

  function InWaiting(r: Resolver, code: nat, pressed: bool, rules: Option<Rules>, now: int, idle: int, origin: nat): (next: Resolver)
    requires r.Numbered()
    ensures next.Numbered() && next.log.inputs == r.log.inputs
  {
    if pressed && code == r.pendingAction then DoubleTapped(r)
    else InIdle(TapNow(r, now), code, pressed, rules, now, idle, origin)
  }

  /** kb_tap_hold_process_key; rules is what the lookup says of the code. */
  function ProcessKey(r0: Resolver, code: nat, pressed: bool, rules: Option<Rules>, now: int): Resolver
    requires r0.Numbered()
  {
    var idle := if r0.lastAny > 0 then now - r0.lastAny else 1000000000;
    var origin := |r0.log.inputs|;
    var r := Arrived(r0, code, pressed, now);
    match r.state
    case HoldSustained => InSustained(r, code, pressed, origin)
    case WaitDoubleTap => InWaiting(r, code, pressed, rules, now, idle, origin)
    case Pending => InPending(r, code, pressed, now, origin)
    case Idle => InIdle(r, code, pressed, rules, now, idle, origin)
  }

  function Threshold(ms: nat, standard: nat): nat {
    (if ms > 0 then ms else standard) * 1000
  }

  /** kb_tap_hold_tick. */
  function Tick(r: Resolver, now: int): Resolver
    requires r.Numbered()
  {
    if r.state == Pending && now - r.pressTime >= Threshold(r.rules.holdMs, 200) then
      if r.disallowHold then ResolveToTap(r, now) else ResolveToHold(r)
    else if r.state == WaitDoubleTap && now - r.releaseTime >= Threshold(r.rules.doubleTapMs, 300) then
      TapNow(r, now)
    else r
  }

  /** kb_tap_hold_reset. */
  const FRESH := Resolver(Idle, 0, NO_RULES, 0, 0, false, 0, 0, 0, [], Log([], [], 0, [], 0))

  class TapHoldResolver {
    const lookup: nat -> Option<Rules>
    var state: State
    var pendingAction: nat
    var pendingRules: Rules
    var pressTime: int
    var releaseTime: int
    var disallowHold: bool
    var lastAny: int
    var lastTapKey: nat
    var lastTapRelease: int
    var buffer: array<Deferred>
    var count: nat
    ghost var log: Log

    ghost predicate Valid()
      reads this
    {
      buffer.Length == TH_MAX_DEFERRED_EVENTS && count <= TH_MAX_DEFERRED_EVENTS && |log.origins| == count
    }

    ghost function View(): (r: Resolver)
      requires Valid()
      reads this, buffer
      ensures r.Numbered()
    {
      Resolver(state, pendingAction, pendingRules, pressTime, releaseTime, disallowHold, lastAny, lastTapKey, lastTapRelease,
               buffer[..count], log)
    }

    constructor (lookup: nat -> Option<Rules>)
      ensures Valid() && fresh(buffer) && View() == FRESH && this.lookup == lookup
    {
      this.lookup := lookup;
      buffer := new Deferred[TH_MAX_DEFERRED_EVENTS](i => Deferred(0, false, 0));
      state, pendingAction, pendingRules, pressTime, releaseTime := Idle, 0, NO_RULES, 0, 0;
      disallowHold, lastAny, lastTapKey, lastTapRelease, count := false, 0, 0, 0, 0;
      log := Log([], [], 0, [], 0);
    }

    /** A callback of the resolver. */
    ghost method Append(e: Effect)
      modifies this`log
      ensures log == old(log).(trace := old(log).trace + [e])
    {
      log := log.(trace := log.trace + [e]);
    }

    method BufferPush(code: nat, pressed: bool, now: int, ghost origin: nat) returns (ok: bool)
      requires Valid()
      modifies this`count, this`log, buffer
      ensures Valid() && ok == (old(count) < TH_MAX_DEFERRED_EVENTS)
      ensures View() == if ok then old(View()).(buffer := old(View()).buffer + [Deferred(code, pressed, now)],
                                                log := old(log).(origins := old(log).origins + [origin])) else old(View())
    {
      if count >= TH_MAX_DEFERRED_EVENTS {
        return false;
      }
      buffer[count] := Deferred(code, pressed, now);
      count := count + 1;
      log := log.(origins := log.origins + [origin]);
      return true;
    }

    method BufferFlush()
      requires Valid()
      modifies this`count, this`log
      ensures Valid() && View() == Flush(old(View()))
    {
      for i := 0 to count
        invariant Valid() && count == old(count)
        invariant log == old(log).(trace := old(log).trace + Passes(buffer[..count], old(log).origins)[..i])
      {
        Append(Pass(buffer[i].code, buffer[i].pressed, log.origins[i]));
      }
      count := 0;
      log := log.(origins := []);
    }

    method IsKeyInBufferPressed(code: nat) returns (found: bool)
      requires Valid()
      ensures found == PressedInBuffer(View().buffer, code)
    {
      for i := 0 to count
        invariant forall j | 0 <= j < i :: !(buffer[j].code == code && buffer[j].pressed)
      {
        if buffer[i].code == code && buffer[i].pressed {
          assert buffer[..count][i].pressed;
          return true;
        }
      }
      return false;
    }

    method ResolvePendingToHold()
      requires Valid()
      modifies this`state, this`count, this`log
      ensures Valid() && View() == ResolveToHold(old(View()))
    {
      hide Passes, U16;
      if pendingRules.hold != 0 && pendingRules.sustain {
        Append(Resolve(SustainDown, U16(pendingRules.hold), 0, log.pending));
        state := HoldSustained;
      } else {
        Append(Resolve(Hold, U16(pendingRules.hold), if pendingRules.holdDur > 0 then pendingRules.holdDur else 20, log.pending));
        state := Idle;
      }
      BufferFlush();
      Append(Report);
    }

    method FirePendingTap(now: int)
      requires Valid()
      modifies this`state, this`count, this`log, this`lastTapKey, this`lastTapRelease
      ensures Valid() && View() == TapNow(old(View()), now)
    {
      hide Passes, U16;
      Append(Resolve(Tap, U16(pendingRules.tap), if pendingRules.tapDur > 0 then pendingRules.tapDur else 20, log.pending));
      lastTapKey := pendingAction;
      lastTapRelease := now;
      state := Idle;
      BufferFlush();
      Append(Report);
    }

    method ResolvePendingToTap(now: int)
      requires Valid()
      modifies this`state, this`count, this`log, this`lastTapKey, this`lastTapRelease, this`releaseTime
      ensures Valid() && View() == ResolveToTap(old(View()), now)
    {
      hide TapNow;
      if pendingRules.doubleTap != 0 && count == 0 {
        state := WaitDoubleTap;
        releaseTime := now;
        return;
      }
      FirePendingTap(now);
    }

    method ResolveAndPass(code: nat, pressed: bool, ghost origin: nat)
      requires Valid()
      modifies this`state, this`count, this`log
      ensures Valid() && View() == Emit(Emit(ResolveToHold(old(View())), Pass(code, pressed, origin)), Report)
    {
      hide ResolveToHold;
      ResolvePendingToHold();
      Append(Pass(code, pressed, origin));
      Append(Report);
    }

    method KeyWhilePending(code: nat, pressed: bool, now: int, ghost origin: nat)
      requires Valid()
      modifies this`state, this`count, this`log, this`lastTapKey, this`lastTapRelease, this`releaseTime,
               buffer
      ensures Valid() && View() == InPending(old(View()), code, pressed, now, origin)
    {
      hide ResolveToHold, ResolveToTap, PressedInBuffer;
      if !pressed && code == pendingAction {
        ResolvePendingToTap(now);
        return;
      }
      if pressed {
        if pendingRules.flavor == HOLD_ON_OTHER_KEY_PRESS && !disallowHold {
          ResolveAndPass(code, true, origin);
          return;
        }
      } else if pendingRules.flavor == PERMISSIVE_HOLD && !disallowHold {
        var nested := IsKeyInBufferPressed(code);
        if nested {
          ResolveAndPass(code, false, origin);
          return;
        }
      }
      var pushed := BufferPush(code, pressed, now, origin);
      if !pushed {
        ResolveAndPass(code, pressed, origin);
      }
    }

    method EnterPending(code: nat, ma: Rules, now: int, idle: int, ghost origin: nat)
      requires Valid()
      modifies this`state, this`pendingAction, this`pendingRules, this`pressTime, this`disallowHold,
               this`count, this`log
      ensures Valid() && View() == Capture(old(View()), code, ma, now, idle, origin)
    {
      hide Millis;
      state := Pending;
      pendingAction := code;
      pendingRules := ma;
      pressTime := now;
      disallowHold := ma.priorIdleMs > 0 && Millis(idle) < ma.priorIdleMs;
      count := 0;
      log := log.(origins := [], pending := origin, captured := log.captured + 1);
    }

    method KeyWhileIdle(code: nat, pressed: bool, rules: Option<Rules>, now: int, idle: int, ghost origin: nat)
      requires Valid()
      modifies this`state, this`pendingAction, this`pendingRules, this`pressTime, this`disallowHold,
               this`lastTapRelease, this`count, this`log
      ensures Valid() && View() == InIdle(old(View()), code, pressed, rules, now, idle, origin)
    {
      hide Millis, U16, Capture;
      if !pressed && rules.Some? {
        return;
      }
      if pressed && rules.Some? {
        var ma := rules.value;
        if code == lastTapKey && ma.quickTapMs > 0 && lastTapRelease > 0 {
          var sinceTap := Millis(now - lastTapRelease);
          if sinceTap >= 0 && sinceTap <= ma.quickTapMs {
            log := log.(captured := log.captured + 1);
            Append(Resolve(Tap, U16(ma.tap), if ma.tapDur > 0 then ma.tapDur else 20, origin));
            lastTapRelease := now;
            Append(Report);
            return;
          }
        }
        EnterPending(code, ma, now, idle, origin);
        return;
      }
      Append(Pass(code, pressed, origin));
    }

    method KeyWhileSustained(code: nat, pressed: bool, ghost origin: nat)
      requires Valid()
      modifies this`state, this`log
      ensures Valid() && View() == InSustained(old(View()), code, pressed, origin)
    {
      if !pressed && code == pendingAction {
        Append(Resolve(SustainUp, U16(pendingRules.hold), 0, origin));
        state := Idle;
        Append(Report);
        return;
      }
      Append(Pass(code, pressed, origin));
    }

    method ConfirmDoubleTap()
      requires Valid()
      modifies this`state, this`log, this`count
      ensures Valid() && View() == DoubleTapped(old(View()))
    {
      hide Passes, U16;
      Append(Resolve(DoubleTap, U16(pendingRules.doubleTap),
                                if pendingRules.doubleTapDur > 0 then pendingRules.doubleTapDur else 20, log.pending));
      state := Idle;
      log := log.(captured := log.captured + 1);
      BufferFlush();
      Append(Report);
    }

    method HandleKey(code: nat, pressed: bool, now: int)
      requires Valid()
      modifies this, buffer
      ensures Valid() && buffer == old(buffer) && View() == ProcessKey(old(View()), code, pressed, lookup(code), now)
    {
      hide InPending, InIdle, InSustained, TapNow, DoubleTapped;
      var rules := lookup(code);
      var idle := if lastAny > 0 then now - lastAny else 1000000000;
      ghost var origin := |log.inputs|;
      lastAny := now;
      log := log.(inputs := log.inputs + [Input(code, pressed)]);
      if state == HoldSustained {
        KeyWhileSustained(code, pressed, origin);
        return;
      }
      if state == WaitDoubleTap {
        if pressed && code == pendingAction {
          ConfirmDoubleTap();
          return;
        }
        FirePendingTap(now);
      }
      if state == Pending {
        KeyWhilePending(code, pressed, now, origin);
        return;
      }
      KeyWhileIdle(code, pressed, rules, now, idle, origin);
    }

    method HandleTick(now: int)
      requires Valid()
      modifies this, buffer
      ensures Valid() && buffer == old(buffer) && View() == Tick(old(View()), now)
    {
      hide ResolveToHold, ResolveToTap, TapNow;
      if state == Pending {
        var term := Threshold(pendingRules.holdMs, 200);
        if now - pressTime >= term {
          if disallowHold {
            ResolvePendingToTap(now);
          } else {
            ResolvePendingToHold();
          }
        }
      } else if state == WaitDoubleTap {
        var term := Threshold(pendingRules.doubleTapMs, 300);
        if now - releaseTime >= term {
          FirePendingTap(now);
        }
      }
    }
  }
}
