/** What the tap-hold resolver keeps over whole runs. */
module TapHoldRuns {
  import opened Numbers
  import opened Options
  import opened TapHold

  type Lookup = nat -> Option<Rules>

  datatype Event = Key(code: nat, pressed: bool, now: int) | At(now: int)

  function Next(lookup: Lookup, r: Resolver, e: Event): Resolver
    requires r.Numbered()
  {
    match e
    case Key(code, pressed, now) => ProcessKey(r, code, pressed, lookup(code), now)
    case At(now) => Tick(r, now)
  }

  // ---------- What a trace says ----------

  /** The inputs that do not belong to tap-hold keys, in order. */
  function Plain(lookup: Lookup, inputs: seq<Input>): seq<Input> {
    if inputs == [] then []
    else
      var last := inputs[|inputs| - 1];
      Plain(lookup, inputs[..|inputs| - 1]) + if lookup(last.code) == None then [last] else []
  }

  /** The passed-on events that do not belong to tap-hold keys, in order. */
  function Passed(lookup: Lookup, trace: seq<Effect>): seq<Input> {
    if trace == [] then []
    else
      var last := trace[|trace| - 1];
      Passed(lookup, trace[..|trace| - 1]) +
      if last.Pass? && lookup(last.code) == None then [Input(last.code, last.pressed)] else []
  }

  function Inputs(buffer: seq<Deferred>): (s: seq<Input>)
    ensures |s| == |buffer|
  {
    seq(|buffer|, i requires 0 <= i < |buffer| => Input(buffer[i].code, buffer[i].pressed))
  }

  function Count(trace: seq<Effect>, kind: Kind): nat {
    if trace == [] then 0
    else
      var last := trace[|trace| - 1];
      Count(trace[..|trace| - 1], kind) + if last.Resolve? && last.kind == kind then 1 else 0
  }

  predicate Ordered(trace: seq<Effect>) {
    forall i, j | 0 <= i < j < |trace| && trace[i] != Report && trace[j] != Report :: trace[i].origin < trace[j].origin
  }

  predicate Below(trace: seq<Effect>, bound: nat) {
    forall e | e in trace && e != Report :: e.origin < bound
  }

  /** The effect is the right answer to the input that it answers. */
  predicate Right(lookup: Lookup, inputs: seq<Input>, e: Effect) {
    match e
    case Report => true
    case Pass(code, pressed, origin) => origin < |inputs| && inputs[origin] == Input(code, pressed)
    case Resolve(kind, action, dur, origin) =>
      origin < |inputs| && lookup(inputs[origin].code).Some? && inputs[origin].pressed == (kind != SustainUp) &&
      var rules := lookup(inputs[origin].code).value;
      match kind
      case Tap => action == U16(rules.tap)
      case DoubleTap => action == U16(rules.doubleTap)
      case Hold => action == U16(rules.hold) && !(rules.sustain && rules.hold != 0)
      case SustainDown => action == U16(rules.hold) && rules.sustain && rules.hold != 0
      case SustainUp => action == U16(rules.hold)
  }

  predicate AllRight(lookup: Lookup, inputs: seq<Input>, trace: seq<Effect>) {
    forall e | e in trace :: Right(lookup, inputs, e)
  }

  // ---------- The invariant, when the first n inputs have been placed ----------

  predicate Undecided(r: Resolver) {
    r.state == Pending || r.state == WaitDoubleTap
  }

  predicate BufferGood(r: Resolver, n: nat) {
    r.Numbered() && n <= |r.log.inputs| && |r.buffer| <= TH_MAX_DEFERRED_EVENTS && (r.state != Pending ==> r.buffer == []) &&
    (forall i | 0 <= i < |r.buffer| ::
       r.log.origins[i] < n && r.log.inputs[r.log.origins[i]] == Input(r.buffer[i].code, r.buffer[i].pressed)) &&
    (forall i, j | 0 <= i < j < |r.buffer| :: r.log.origins[i] < r.log.origins[j])
  }

  predicate PendingGood(lookup: Lookup, r: Resolver, n: nat) {
    (r.state != Idle ==> lookup(r.pendingAction) == Some(r.rules)) &&
    (r.state == HoldSustained ==> r.rules.sustain && r.rules.hold != 0) &&
    (Undecided(r) ==> r.log.pending < n <= |r.log.inputs| && r.log.inputs[r.log.pending] == Input(r.pendingAction, true) &&
                      forall i | 0 <= i < |r.log.origins| :: r.log.pending < r.log.origins[i])
  }

  predicate OrderGood(lookup: Lookup, r: Resolver, n: nat) {
    Ordered(r.log.trace) && Below(r.log.trace, if Undecided(r) then r.log.pending else n) &&
    AllRight(lookup, r.log.inputs, r.log.trace)
  }

  predicate PlainGood(lookup: Lookup, r: Resolver, n: nat) {
    n <= |r.log.inputs| && Passed(lookup, r.log.trace) + Plain(lookup, Inputs(r.buffer)) == Plain(lookup, r.log.inputs[..n])
  }

  predicate CountGood(r: Resolver) {
    var t := r.log.trace;
    r.log.captured == Count(t, Tap) + Count(t, Hold) + Count(t, SustainDown) + 2 * Count(t, DoubleTap) + (if Undecided(r) then 1 else 0) &&
    Count(t, SustainDown) == Count(t, SustainUp) + if r.state == HoldSustained then 1 else 0
  }

  predicate Good(lookup: Lookup, r: Resolver, n: nat) {
    BufferGood(r, n) && PendingGood(lookup, r, n) && OrderGood(lookup, r, n) && PlainGood(lookup, r, n) && CountGood(r)
  }

  // ---------- Single effects ----------

  lemma Snoc(lookup: Lookup, trace: seq<Effect>, e: Effect)
    ensures Passed(lookup, trace + [e]) ==
            Passed(lookup, trace) + if e.Pass? && lookup(e.code) == None then [Input(e.code, e.pressed)] else []
    ensures forall kind :: Count(trace + [e], kind) == Count(trace, kind) + if e.Resolve? && e.kind == kind then 1 else 0
  {
    assert (trace + [e])[..|trace|] == trace;
  }

  lemma PlainNext(lookup: Lookup, inputs: seq<Input>, n: nat)
    requires n < |inputs|
    ensures Plain(lookup, inputs[..n + 1]) ==
            Plain(lookup, inputs[..n]) + if lookup(inputs[n].code) == None then [inputs[n]] else []
  {
    assert inputs[..n + 1] == inputs[..n] + [inputs[n]];
  }

  lemma AppendGood(lookup: Lookup, inputs: seq<Input>, trace: seq<Effect>, e: Effect, bound: nat, next: nat)
    requires Ordered(trace) && Below(trace, bound) && AllRight(lookup, inputs, trace)
    requires Right(lookup, inputs, e) && bound <= next && (e != Report ==> bound <= e.origin < next)
    ensures Ordered(trace + [e]) && Below(trace + [e], next) && AllRight(lookup, inputs, trace + [e])
  {
    forall i | 0 <= i < |trace| && trace[i] != Report ensures trace[i].origin < bound {
      assert trace[i] in trace;
    }
    hide Right;
  }

  lemma LastBuffered(buffer: seq<Deferred>, origins: seq<nat>)
    requires |buffer| == |origins| > 0
    ensures var m := |buffer| - 1;
            Passes(buffer, origins) == Passes(buffer[..m], origins[..m]) + [Pass(buffer[m].code, buffer[m].pressed, origins[m])] &&
            Inputs(buffer) == Inputs(buffer[..m]) + [Input(buffer[m].code, buffer[m].pressed)]
  {
  }

  lemma NothingPlain(lookup: Lookup)
    ensures Plain(lookup, []) == []
  {
  }

  lemma PlainSnoc(lookup: Lookup, s: seq<Input>, x: Input)
    ensures Plain(lookup, s + [x]) == Plain(lookup, s) + if lookup(x.code) == None then [x] else []
  {
    assert (s + [x])[..|s|] == s;
  }

  /** What a flush appends. */
  lemma {:induction false} FlushEffects(lookup: Lookup, trace: seq<Effect>, buffer: seq<Deferred>, origins: seq<nat>)
    requires |buffer| == |origins|
    ensures Passed(lookup, trace + Passes(buffer, origins)) == Passed(lookup, trace) + Plain(lookup, Inputs(buffer))
    ensures forall kind :: Count(trace + Passes(buffer, origins), kind) == Count(trace, kind)
  {
    hide Passed, Plain, Count, Passes, Inputs;
    if buffer == [] {
      assert trace + Passes(buffer, origins) == trace;
      NothingPlain(lookup);
      assert Inputs(buffer) == [] && Passed(lookup, trace) + [] == Passed(lookup, trace);
    } else {
      var m := |buffer| - 1;
      var front := trace + Passes(buffer[..m], origins[..m]);
      var last := Pass(buffer[m].code, buffer[m].pressed, origins[m]);
      FlushEffects(lookup, trace, buffer[..m], origins[..m]);
      LastBuffered(buffer, origins);
      PlainSnoc(lookup, Inputs(buffer[..m]), Input(buffer[m].code, buffer[m].pressed));
      Snoc(lookup, front, last);
      assert trace + Passes(buffer, origins) == front + [last];
    }
  }

  lemma EmitShape(lookup: Lookup, r: Resolver, e: Effect, n: nat, m: nat)
    requires BufferGood(r, n) && PendingGood(lookup, r, n) && n <= m <= |r.log.inputs|
    ensures BufferGood(Emit(r, e), m) && PendingGood(lookup, Emit(r, e), m)
  {
  }

  lemma EmitOrder(lookup: Lookup, r: Resolver, e: Effect, n: nat, m: nat)
    requires OrderGood(lookup, r, n) && Right(lookup, r.log.inputs, e)
    requires n <= m && (e != Report ==> n <= e.origin < m && !Undecided(r))
    ensures OrderGood(lookup, Emit(r, e), m)
  {
    if Undecided(r) {
      AppendGood(lookup, r.log.inputs, r.log.trace, e, r.log.pending, r.log.pending);
    } else {
      AppendGood(lookup, r.log.inputs, r.log.trace, e, n, m);
    }
    hide Ordered, Below, AllRight, Right;
  }

  lemma EmitCount(r: Resolver, e: Effect)
    requires CountGood(r) && !e.Resolve?
    ensures CountGood(Emit(r, e))
  {
    Snoc(_ => None, r.log.trace, e);
    hide Count;
  }

  lemma EmitPlain(lookup: Lookup, r: Resolver, e: Effect, n: nat)
    requires PlainGood(lookup, r, n)
    requires e == Report || (r.buffer == [] && n < |r.log.inputs| && e == Pass(r.log.inputs[n].code, r.log.inputs[n].pressed, n))
    ensures PlainGood(lookup, Emit(r, e), if e == Report then n else n + 1)
  {
    Snoc(lookup, r.log.trace, e);
    if e != Report {
      PlainNext(lookup, r.log.inputs, n);
      assert Plain(lookup, Inputs(r.buffer)) == [];
    }
    hide Passed, Plain, Inputs;
  }

  /** Report moves nothing. */
  lemma ReportGood(lookup: Lookup, r: Resolver, n: nat)
    requires Good(lookup, r, n)
    ensures Good(lookup, Emit(r, Report), n)
  {
    assert n <= |r.log.inputs| by {
      hide PendingGood, OrderGood, PlainGood, CountGood;
    }
    hide BufferGood, PendingGood, OrderGood, PlainGood, CountGood, Emit;
    EmitShape(lookup, r, Report, n, n);
    EmitOrder(lookup, r, Report, n, n);
    EmitPlain(lookup, r, Report, n);
    EmitCount(r, Report);
  }

  /** Input number n is passed on. */
  lemma PassGood(lookup: Lookup, r: Resolver, n: nat)
    requires Good(lookup, r, n) && !Undecided(r) && n < |r.log.inputs|
    ensures Good(lookup, Emit(r, Pass(r.log.inputs[n].code, r.log.inputs[n].pressed, n)), n + 1)
  {
    var x := r.log.inputs[n];
    var e := Pass(x.code, x.pressed, n);
    assert r.buffer == [] by {
      hide PendingGood, OrderGood, PlainGood, CountGood;
    }
    hide BufferGood, PendingGood, OrderGood, PlainGood, CountGood, Emit;
    EmitShape(lookup, r, e, n, n + 1);
    EmitOrder(lookup, r, e, n, n + 1);
    EmitPlain(lookup, r, e, n);
    EmitCount(r, e);
  }

  /** Input number n, of a tap-hold key, has no effect of its own. */
  lemma SwallowGood(lookup: Lookup, r: Resolver, n: nat)
    requires Good(lookup, r, n) && n < |r.log.inputs| && lookup(r.log.inputs[n].code).Some?
    ensures Good(lookup, r, n + 1)
  {
    PlainNext(lookup, r.log.inputs, n);
    hide Passed, Count, Plain, Ordered;
  }

  /** The decision e is taken and the buffer follows. A double tap also takes the
      press that confirms it. */
  function Decided(r: Resolver, e: Effect): (d: Resolver)
    requires r.Numbered() && e.Resolve?
    ensures !Undecided(d) && d.log.inputs == r.log.inputs
  {
    var fired := Emit(r, e).(state := if e.kind == SustainDown then HoldSustained else Idle);
    Flush(if e.kind == DoubleTap then Captured(fired) else fired)
  }

  /** The effect that takes the decision: it answers the pending press. */
  predicate Decision(lookup: Lookup, r: Resolver, e: Effect) {
    Undecided(r) && e.Resolve? && e.origin == r.log.pending && e.kind != SustainUp && Right(lookup, r.log.inputs, e)
  }

  lemma DecidedOrder(lookup: Lookup, r: Resolver, n: nat, e: Effect)
    requires BufferGood(r, n) && PendingGood(lookup, r, n) && OrderGood(lookup, r, n) && Decision(lookup, r, e)
    ensures OrderGood(lookup, Decided(r, e), n)
  {
    AppendGood(lookup, r.log.inputs, r.log.trace, e, r.log.pending, r.log.pending + 1);
    hide Ordered, Below, AllRight, Right;
  }

  lemma DecidedPlain(lookup: Lookup, r: Resolver, n: nat, e: Effect)
    requires PlainGood(lookup, r, n) && r.Numbered() && Decision(lookup, r, e)
    ensures PlainGood(lookup, Decided(r, e), n)
  {
    Snoc(lookup, r.log.trace, e);
    FlushEffects(lookup, Emit(r, e).log.trace, r.buffer, r.log.origins);
    var d := Decided(r, e);
    assert d.log.trace == r.log.trace + [e] + Passes(r.buffer, r.log.origins) && d.log.inputs == r.log.inputs && d.buffer == [];
    hide Passed, Passes, Decided, Emit;
    assert Plain(lookup, Inputs([])) == [];
    hide Plain, Inputs;
  }

  lemma DecidedCount(lookup: Lookup, r: Resolver, e: Effect)
    requires CountGood(r) && r.Numbered() && Decision(lookup, r, e)
    ensures CountGood(Decided(r, e))
  {
    Snoc(lookup, r.log.trace, e);
    FlushEffects(lookup, Emit(r, e).log.trace, r.buffer, r.log.origins);
    hide Count, Passes;
  }

  lemma DecidedGood(lookup: Lookup, r: Resolver, n: nat, e: Effect)
    requires Good(lookup, r, n) && Decision(lookup, r, e)
    ensures Good(lookup, Decided(r, e), n) && !Undecided(Decided(r, e))
  {
    assert r.Numbered();
    hide BufferGood, PendingGood, OrderGood, PlainGood, CountGood, Decision, Passes;
    DecidedOrder(lookup, r, n, e);
    DecidedPlain(lookup, r, n, e);
    DecidedCount(lookup, r, e);
  }

  function HoldDecision(r: Resolver): Effect {
    if r.rules.hold != 0 && r.rules.sustain then Resolve(SustainDown, U16(r.rules.hold), 0, r.log.pending)
    else Resolve(Hold, U16(r.rules.hold), if r.rules.holdDur > 0 then r.rules.holdDur else 20, r.log.pending)
  }

  lemma HoldGood(lookup: Lookup, r: Resolver, n: nat)
    requires Good(lookup, r, n) && r.state == Pending
    ensures Good(lookup, ResolveToHold(r), n) && !Undecided(ResolveToHold(r)) && ResolveToHold(r).log.inputs == r.log.inputs
  {
    var e := HoldDecision(r);
    assert Decision(lookup, r, e) by {
      hide BufferGood, OrderGood, PlainGood, CountGood, U16;
    }
    DecidedGood(lookup, r, n, e);
    ReportGood(lookup, Decided(r, e), n);
    hide Good, U16, Passes;
    assert ResolveToHold(r) == Emit(Decided(r, e), Report);
  }

  lemma TapGood(lookup: Lookup, r: Resolver, now: int, n: nat)
    requires Good(lookup, r, n) && Undecided(r)
    ensures Good(lookup, TapNow(r, now), n) && TapNow(r, now).log.inputs == r.log.inputs
  {
    var e := Resolve(Tap, U16(r.rules.tap), if r.rules.tapDur > 0 then r.rules.tapDur else 20, r.log.pending);
    assert Decision(lookup, r, e) by {
      hide BufferGood, OrderGood, PlainGood, CountGood, U16;
    }
    DecidedGood(lookup, r, n, e);
    TimesDoNotMatter(lookup, Decided(r, e), r.pendingAction, now, n);
    ReportGood(lookup, Decided(r, e).(lastTapKey := r.pendingAction, lastTapRelease := now), n);
    hide Good, U16, Passes;
  }

  lemma TimesDoNotMatter(lookup: Lookup, r: Resolver, key: nat, now: int, n: nat)
    requires Good(lookup, r, n)
    ensures Good(lookup, r.(lastTapKey := key, lastTapRelease := now), n)
  {
    hide Passed, Count, Plain, Ordered, Below, AllRight, Inputs;
  }

  lemma WaitGood(lookup: Lookup, r: Resolver, now: int, n: nat)
    requires Good(lookup, r, n) && r.state == Pending && r.buffer == []
    ensures Good(lookup, r.(state := WaitDoubleTap, releaseTime := now), n)
  {
    hide Passed, Count, Plain, Ordered, Below, AllRight, Inputs;
  }

  lemma ToTapGood(lookup: Lookup, r: Resolver, now: int, n: nat)
    requires Good(lookup, r, n) && r.state == Pending
    ensures Good(lookup, ResolveToTap(r, now), n)
  {
    assert r.Numbered();
    hide Good, TapNow;
    if r.rules.doubleTap != 0 && r.buffer == [] {
      WaitGood(lookup, r, now, n);
    } else {
      TapGood(lookup, r, now, n);
    }
  }

  function DoubleTapDecision(r: Resolver): Effect {
    Resolve(DoubleTap, U16(r.rules.doubleTap), if r.rules.doubleTapDur > 0 then r.rules.doubleTapDur else 20, r.log.pending)
  }

  lemma DoubleTappedIs(r: Resolver)
    requires r.Numbered()
    ensures DoubleTapped(r) == Emit(Decided(r, DoubleTapDecision(r)), Report)
  {
    hide U16, Passes;
  }

  lemma DoubleTapGood(lookup: Lookup, r: Resolver, n: nat)
    requires Good(lookup, r, n) && r.state == WaitDoubleTap
    ensures Good(lookup, DoubleTapped(r), n) && DoubleTapped(r).log.inputs == r.log.inputs
  {
    var e := DoubleTapDecision(r);
    assert Decision(lookup, r, e) by {
      hide BufferGood, OrderGood, PlainGood, CountGood, U16;
    }
    assert r.Numbered();
    hide Good, DoubleTapped, Decided, DoubleTapDecision;
    DoubleTappedIs(r);
    DecidedGood(lookup, r, n, e);
    ReportGood(lookup, Decided(r, e), n);
  }

  /** A hold decision followed by the input that forced it. */
  lemma HoldThenPassGood(lookup: Lookup, r: Resolver, n: nat)
    requires Good(lookup, r, n) && r.state == Pending && n < |r.log.inputs|
    ensures Good(lookup, Emit(Emit(ResolveToHold(r), Pass(r.log.inputs[n].code, r.log.inputs[n].pressed, n)), Report), n + 1)
  {
    HoldGood(lookup, r, n);
    hide Good, ResolveToHold;
    PassGood(lookup, ResolveToHold(r), n);
    ReportGood(lookup, Emit(ResolveToHold(r), Pass(r.log.inputs[n].code, r.log.inputs[n].pressed, n)), n + 1);
  }

  function Buffered(r: Resolver, x: Input, now: int, n: nat): Resolver {
    r.(buffer := r.buffer + [Deferred(x.code, x.pressed, now)], log := r.log.(origins := r.log.origins + [n]))
  }

  lemma BufferedPlain(lookup: Lookup, r: Resolver, now: int, n: nat)
    requires PlainGood(lookup, r, n) && n < |r.log.inputs|
    ensures PlainGood(lookup, Buffered(r, r.log.inputs[n], now, n), n + 1)
  {
    var x := r.log.inputs[n];
    assert Inputs(r.buffer + [Deferred(x.code, x.pressed, now)]) == Inputs(r.buffer) + [x];
    PlainNext(lookup, r.log.inputs, n);
    hide Passed, Plain, Inputs;
  }

  lemma BufferedGood(lookup: Lookup, r: Resolver, now: int, n: nat)
    requires Good(lookup, r, n) && r.state == Pending && n < |r.log.inputs| && |r.buffer| < TH_MAX_DEFERRED_EVENTS
    ensures Good(lookup, Buffered(r, r.log.inputs[n], now, n), n + 1)
  {
    BufferedPlain(lookup, r, now, n);
    var t := Buffered(r, r.log.inputs[n], now, n);
    hide PlainGood;
    assert CountGood(t) && OrderGood(lookup, t, n + 1) by {
      hide Count, Ordered, Below, AllRight, BufferGood, PendingGood;
    }
    hide CountGood, OrderGood;
  }

  lemma PendingStepGood(lookup: Lookup, r: Resolver, code: nat, pressed: bool, now: int, n: nat)
    requires Good(lookup, r, n) && r.state == Pending && n < |r.log.inputs| && r.log.inputs[n] == Input(code, pressed)
    ensures Good(lookup, InPending(r, code, pressed, now, n), n + 1)
  {
    hide ResolveToHold, ResolveToTap, PressedInBuffer;
    assert r.Numbered();
    if !pressed && code == r.pendingAction {
      assert lookup(code).Some? by {
        hide BufferGood, OrderGood, PlainGood, CountGood;
      }
      hide Good;
      SwallowGood(lookup, r, n);
      ToTapGood(lookup, r, now, n + 1);
    } else {
      hide Good;
      HoldThenPassGood(lookup, r, n);
      if |r.buffer| < TH_MAX_DEFERRED_EVENTS {
        BufferedGood(lookup, r, now, n);
      }
    }
  }

  lemma CaptureGood(lookup: Lookup, r: Resolver, code: nat, now: int, idle: int, n: nat)
    requires Good(lookup, r, n) && r.state == Idle && n < |r.log.inputs| && r.log.inputs[n] == Input(code, true) && lookup(code).Some?
    ensures Good(lookup, Capture(r, code, lookup(code).value, now, idle, n), n + 1)
  {
    PlainNext(lookup, r.log.inputs, n);
    hide Passed, Count, Plain, Ordered, AllRight, Inputs, Millis;
  }

  lemma CapturedShape(lookup: Lookup, r: Resolver, n: nat)
    requires Good(lookup, r, n) && r.state == Idle
    ensures BufferGood(Captured(r), n) && PendingGood(lookup, Captured(r), n) && OrderGood(lookup, Captured(r), n)
    ensures n <= |r.log.inputs| && PlainGood(lookup, r, n) && CountGood(r)
  {
    hide Ordered, Below, AllRight, PlainGood, CountGood;
  }

  lemma QuickTapRight(lookup: Lookup, inputs: seq<Input>, code: nat, dur: nat, n: nat)
    requires n < |inputs| && inputs[n] == Input(code, true) && lookup(code).Some?
    ensures Right(lookup, inputs, Resolve(Tap, U16(lookup(code).value.tap), if dur > 0 then dur else 20, n))
  {
    hide U16;
  }

  lemma QuickTapGood(lookup: Lookup, r: Resolver, code: nat, now: int, dur: nat, n: nat)
    requires Good(lookup, r, n) && r.state == Idle && n < |r.log.inputs| && r.log.inputs[n] == Input(code, true) && lookup(code).Some?
    ensures Good(lookup, Emit(Fire(Captured(r), Tap, lookup(code).value.tap, dur, n).(lastTapRelease := now), Report), n + 1)
  {
    hide BufferGood, PendingGood, OrderGood, PlainGood, CountGood, U16, Right;
    var e := Resolve(Tap, U16(lookup(code).value.tap), if dur > 0 then dur else 20, n);
    var t := Emit(Captured(r), e);
    QuickTapRight(lookup, r.log.inputs, code, dur, n);
    CapturedShape(lookup, r, n);
    QuickTapCount(r, e);
    QuickTapPlain(lookup, r, e, n);
    EmitShape(lookup, Captured(r), e, n, n + 1);
    EmitOrder(lookup, Captured(r), e, n, n + 1);
    assert Good(lookup, t, n + 1);
    hide Good;
    TimesDoNotMatter(lookup, t, r.lastTapKey, now, n + 1);
    ReportGood(lookup, t.(lastTapKey := r.lastTapKey, lastTapRelease := now), n + 1);
  }

  lemma QuickTapCount(r: Resolver, e: Effect)
    requires CountGood(r) && r.state == Idle && e.Resolve? && e.kind == Tap
    ensures CountGood(Emit(Captured(r), e))
  {
    Snoc(_ => None, r.log.trace, e);
    hide Count;
  }

  lemma QuickTapPlain(lookup: Lookup, r: Resolver, e: Effect, n: nat)
    requires PlainGood(lookup, r, n) && n < |r.log.inputs| && lookup(r.log.inputs[n].code).Some? && e.Resolve?
    ensures PlainGood(lookup, Emit(Captured(r), e), n + 1)
  {
    Snoc(lookup, r.log.trace, e);
    PlainNext(lookup, r.log.inputs, n);
    hide Passed, Plain, Inputs;
  }

  lemma IdleStepGood(lookup: Lookup, r: Resolver, code: nat, pressed: bool, now: int, idle: int, n: nat)
    requires Good(lookup, r, n) && r.state == Idle && n < |r.log.inputs| && r.log.inputs[n] == Input(code, pressed)
    ensures Good(lookup, InIdle(r, code, pressed, lookup(code), now, idle, n), n + 1)
  {
    hide Good, QuickTap, Fire, Capture;
    if lookup(code) == None {
      PassGood(lookup, r, n);
    } else if !pressed {
      SwallowGood(lookup, r, n);
    } else {
      QuickTapGood(lookup, r, code, now, lookup(code).value.tapDur, n);
      CaptureGood(lookup, r, code, now, idle, n);
    }
  }

  function Raised(r: Resolver, e: Effect): Resolver {
    Emit(r, e).(state := Idle)
  }

  lemma RaisedPlain(lookup: Lookup, r: Resolver, e: Effect, n: nat)
    requires PlainGood(lookup, r, n) && n < |r.log.inputs| && lookup(r.log.inputs[n].code).Some? && e.Resolve?
    ensures PlainGood(lookup, Raised(r, e), n + 1)
  {
    Snoc(lookup, r.log.trace, e);
    PlainNext(lookup, r.log.inputs, n);
    hide Passed, Plain, Inputs;
  }

  lemma RaisedShape(lookup: Lookup, r: Resolver, e: Effect, n: nat)
    requires BufferGood(r, n) && PendingGood(lookup, r, n) && r.state == HoldSustained && n < |r.log.inputs|
    ensures BufferGood(Raised(r, e), n + 1) && PendingGood(lookup, Raised(r, e), n + 1)
  {
  }

  lemma SustainedStepGood(lookup: Lookup, r: Resolver, code: nat, pressed: bool, n: nat)
    requires Good(lookup, r, n) && r.state == HoldSustained && n < |r.log.inputs| && r.log.inputs[n] == Input(code, pressed)
    ensures Good(lookup, InSustained(r, code, pressed, n), n + 1)
  {
    if !pressed && code == r.pendingAction {
      var e := Resolve(SustainUp, U16(r.rules.hold), 0, n);
      assert Right(lookup, r.log.inputs, e) by {
        hide BufferGood, OrderGood, PlainGood, CountGood, U16;
      }
      hide BufferGood, PendingGood, OrderGood, PlainGood, CountGood, U16;
      RaisedShape(lookup, r, e, n);
      RaisedPlain(lookup, r, e, n);
      ReportGood(lookup, Raised(r, e), n + 1);
    } else {
      hide Good;
      PassGood(lookup, r, n);
    }
  }

  lemma WaitingStepGood(lookup: Lookup, r: Resolver, code: nat, pressed: bool, now: int, idle: int, n: nat)
    requires Good(lookup, r, n) && r.state == WaitDoubleTap && n < |r.log.inputs| && r.log.inputs[n] == Input(code, pressed)
    ensures r.Numbered() && Good(lookup, InWaiting(r, code, pressed, lookup(code), now, idle, n), n + 1)
  {
    assert r.Numbered();
    hide InIdle, DoubleTapped, TapNow;
    if pressed && code == r.pendingAction {
      assert lookup(code).Some? by {
        hide BufferGood, OrderGood, PlainGood, CountGood;
      }
      hide Good;
      SwallowGood(lookup, r, n);
      DoubleTapGood(lookup, r, n + 1);
    } else {
      hide Good;
      TapGood(lookup, r, now, n);
      IdleStepGood(lookup, TapNow(r, now), code, pressed, now, idle, n);
    }
  }

  lemma ArrivalGood(lookup: Lookup, r: Resolver, code: nat, pressed: bool, now: int)
    requires Good(lookup, r, |r.log.inputs|)
    ensures Good(lookup, Arrived(r, code, pressed, now), |r.log.inputs|)
  {
    var n := |r.log.inputs|;
    var inputs := r.log.inputs + [Input(code, pressed)];
    assert inputs[..n] == r.log.inputs[..n];
    hide Passed, Count, Plain, Ordered, Below, AllRight, Inputs;
  }

  /** Every input and every tick keeps the invariant. */
  lemma StepGood(lookup: Lookup, r: Resolver, e: Event)
    requires Good(lookup, r, |r.log.inputs|)
    ensures r.Numbered() && var t := Next(lookup, r, e); Good(lookup, t, |t.log.inputs|)
  {
    assert r.Numbered();
    match e {
      case Key(code, pressed, now) => KeyGood(lookup, r, code, pressed, now);
      case At(now) =>
        hide Good, ResolveToTap, ResolveToHold, TapNow;
        var n := |r.log.inputs|;
        if r.state == Pending {
          ToTapGood(lookup, r, now, n);
          HoldGood(lookup, r, n);
        } else if r.state == WaitDoubleTap {
          TapGood(lookup, r, now, n);
        }
    }
  }

  lemma GoodIsNumbered(lookup: Lookup, r: Resolver)
    requires Good(lookup, r, |r.log.inputs|)
    ensures r.Numbered()
  {
    hide PendingGood, OrderGood, PlainGood, CountGood;
  }

  lemma KeyGood(lookup: Lookup, r0: Resolver, code: nat, pressed: bool, now: int)
    requires Good(lookup, r0, |r0.log.inputs|)
    ensures r0.Numbered() && var t := ProcessKey(r0, code, pressed, lookup(code), now); Good(lookup, t, |t.log.inputs|)
  {
    hide Good, InIdle, InPending, InSustained, InWaiting, Arrived;
    GoodIsNumbered(lookup, r0);
    var n := |r0.log.inputs|;
    var idle := if r0.lastAny > 0 then now - r0.lastAny else 1000000000;
    var r := Arrived(r0, code, pressed, now);
    ArrivalGood(lookup, r0, code, pressed, now);
    match r.state {
      case HoldSustained => SustainedStepGood(lookup, r, code, pressed, n);
      case WaitDoubleTap => WaitingStepGood(lookup, r, code, pressed, now, idle, n);
      case Pending => PendingStepGood(lookup, r, code, pressed, now, n);
      case Idle => IdleStepGood(lookup, r, code, pressed, now, idle, n);
    }
  }

  // ---------- Main results, for every run from reset ----------

  function Run(lookup: Lookup, events: seq<Event>): (r: Resolver)
    ensures r.Numbered() && r.log.inputs == Keys(events)
  {
    if events == [] then FRESH
    else
      var before := Run(lookup, events[..|events| - 1]);
      Next(lookup, before, events[|events| - 1])
  }

  /** The key events of a run. */
  function Keys(events: seq<Event>): seq<Input> {
    if events == [] then []
    else
      var last := events[|events| - 1];
      Keys(events[..|events| - 1]) + if last.Key? then [Input(last.code, last.pressed)] else []
  }

  lemma {:induction false} RunGood(lookup: Lookup, events: seq<Event>)
    ensures Good(lookup, Run(lookup, events), |Run(lookup, events).log.inputs|)
  {
    if events == [] {
    } else {
      hide Good, Next;
      RunGood(lookup, events[..|events| - 1]);
      StepGood(lookup, Run(lookup, events[..|events| - 1]), events[|events| - 1]);
    }
  }

  /** Linearisation. The effects answer the inputs in the order of their arrival and
      none is answered twice: whatever is held back by a tap-hold key comes after that
      key's decision, and every effect is the right one for its input. */
  lemma Linearised(lookup: Lookup, events: seq<Event>)
    ensures var trace := Run(lookup, events).log.trace;
            (forall i, j | 0 <= i < j < |trace| && trace[i] != Report && trace[j] != Report ::
               trace[i].origin < trace[j].origin) &&
            forall e | e in trace :: Right(lookup, Keys(events), e)
  {
    RunGood(lookup, events);
    hide Run, PlainGood, CountGood, Right;
  }

  /** Conservation of ordinary keys: what has been passed on, followed by what is
      buffered, is exactly what has been typed. */
  lemma OrdinaryKeysConserved(lookup: Lookup, events: seq<Event>)
    ensures var r := Run(lookup, events);
            Passed(lookup, r.log.trace) + Plain(lookup, Inputs(r.buffer)) == Plain(lookup, Keys(events)) &&
            |r.buffer| <= TH_MAX_DEFERRED_EVENTS && (r.state != Pending ==> r.buffer == [])
  {
    RunGood(lookup, events);
    var inputs := Keys(events);
    assert inputs[..|inputs|] == inputs;
    hide Run, Plain, Passed, Inputs, OrderGood, CountGood;
  }

  /** Conservation of tap-hold presses: each captured press has ended in a tap, a hold
      or half of a double tap, but for the one that is still undecided. Sustained holds
      are released as often as pressed, except while one lasts. */
  lemma TapHoldPressesConserved(lookup: Lookup, events: seq<Event>)
    ensures var r := Run(lookup, events);
            var t := r.log.trace;
            r.log.captured == Count(t, Tap) + Count(t, Hold) + Count(t, SustainDown) + 2 * Count(t, DoubleTap) +
                              (if r.state == Pending || r.state == WaitDoubleTap then 1 else 0) &&
            Count(t, SustainDown) == Count(t, SustainUp) + if r.state == HoldSustained then 1 else 0
  {
    RunGood(lookup, events);
    hide Run, Count, PlainGood, OrderGood;
  }

  /** The step is the press that the decision pending in t is about. */
  predicate Captures(lookup: Lookup, r: Resolver, e: Event, t: Resolver) {
    e.Key? && e.pressed && lookup(e.code) == Some(t.rules) && t.pressTime == e.now && t.log.pending == |r.log.inputs|
  }

  /** A decision is pending after a step either because the step is the press of a
      tap-hold key, or since before, and then the step is not a tick past the threshold. */
  lemma PendingStep(lookup: Lookup, r: Resolver, e: Event)
    requires r.Numbered() && Next(lookup, r, e).state == Pending
    ensures var t := Next(lookup, r, e);
            Captures(lookup, r, e, t) ||
            (r.state == Pending && t.rules == r.rules && t.pressTime == r.pressTime && t.log.pending == r.log.pending &&
             (e.At? ==> e.now - r.pressTime < Threshold(r.rules.holdMs, 200)))
  {
    hide Passes, Threshold, PressedInBuffer, QuickTap;
  }

  /** Event k of the run is the press of a tap-hold key, and no tick since has come
      after its threshold. */
  predicate Awaited(lookup: Lookup, events: seq<Event>, k: nat) {
    k < |events| && events[k].Key? && events[k].pressed && lookup(events[k].code).Some? &&
    forall j | k < j < |events| && events[j].At? :: events[j].now < Due(lookup, events[k])
  }

  /** When the decision of this press is due. */
  function Due(lookup: Lookup, press: Event): int
    requires press.Key? && lookup(press.code).Some?
  {
    press.now + Threshold(lookup(press.code).value.holdMs, 200)
  }

  /** No run leaves a decision pending beyond a tick after its threshold. */
  lemma {:induction false} PendingAwaited(lookup: Lookup, events: seq<Event>) returns (k: nat)
    requires Run(lookup, events).state == Pending
    ensures Awaited(lookup, events, k)
    ensures var r := Run(lookup, events);
            r.pressTime == events[k].now && lookup(events[k].code) == Some(r.rules) && r.log.pending == |Keys(events[..k])|
  {
    var m := |events| - 1;
    var before := Run(lookup, events[..m]);
    var e := events[m];
    PendingStep(lookup, before, e);
    hide Next, Keys, Threshold;
    if Captures(lookup, before, e, Run(lookup, events)) {
      k := m;
    } else {
      k := PendingAwaited(lookup, events[..m]);
      assert events[..m][..k] == events[..k];
    }
  }

  /** A tick takes the pending decision exactly when it comes after the threshold of the
      press that awaits it, and from then on nothing typed is held back. */
  lemma TickDecidesIff(lookup: Lookup, events: seq<Event>, now: int) returns (k: nat)
    requires Run(lookup, events).state == Pending
    ensures Awaited(lookup, events, k)
    ensures var t := Run(lookup, events + [At(now)]);
            (t.state != Pending <==> now >= Due(lookup, events[k])) &&
            (t.state != Pending ==> Passed(lookup, t.log.trace) == Plain(lookup, Keys(events)))
  {
    k := PendingAwaited(lookup, events);
    var r := Run(lookup, events);
    var all := events + [At(now)];
    assert all[..|events|] == events;
    assert Keys(all) == Keys(events);
    assert Run(lookup, all) == Tick(r, now);
    OrdinaryKeysConserved(lookup, all);
    assert Plain(lookup, Inputs([])) == [];
    hide Run, Keys, Plain, Passed, Inputs, Passes;
  }
}
