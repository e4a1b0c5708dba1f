/** What happens to the inputs that a tap-hold press holds back. */
module TapHoldHeld {
  import opened Numbers
  import opened Options
  import opened TapHold
  import opened TapHoldRuns
  import opened TapHoldAnswers

  /** The inputs that wait are all those since the press, by their numbers. */
  predicate Counts(r: Resolver, origin: nat) {
    r.Numbered() && |r.log.inputs| == origin + 1 + |r.buffer| && forall i | 0 <= i < |r.buffer| :: r.log.origins[i] == origin + 1 + i
  }

  lemma CountStep(lookup: Lookup, r: Resolver, p: Press, origin: nat, since: seq<Input>, e: Event)
    requires Counts(r, origin) && Waits(r, p, origin, since) && !Decides(p, since, e)
    ensures Counts(Next(lookup, r, e), origin)
  {
    if e.Key? {
      InBufferIs(r.buffer, e.code);
    }
    hide Inputs, PressedInBuffer, ResolveToHold, ResolveToTap;
  }

  lemma CaptureCounts(lookup: Lookup, r: Resolver, code: nat, pressed: bool, now: int)
    requires r.Numbered() && (r.state == Pending ==> r.log.pending < |r.log.inputs|)
    requires var t := Next(lookup, r, Key(code, pressed, now)); t.state == Pending && t.log.pending == |r.log.inputs|
    ensures Counts(Next(lookup, r, Key(code, pressed, now)), |r.log.inputs|)
  {
    hide Passes, QuickTap, PressedInBuffer, U16, Millis;
  }

  lemma CapturedCounts(lookup: Lookup, events: seq<Event>, k: nat)
    requires IsCaptured(lookup, events, k)
    ensures Counts(Run(lookup, events[..k + 1]), |Keys(events[..k])|)
  {
    var r, e := Run(lookup, events[..k]), events[k];
    RunNext(lookup, events, k);
    RunGood(lookup, events[..k]);
    assert r.state == Pending ==> r.log.pending < |r.log.inputs| by {
      hide Run, BufferGood, OrderGood, PlainGood, CountGood;
    }
    hide Run, Next, Good, Keys, Counts;
    CaptureCounts(lookup, r, e.code, e.pressed, e.now);
  }

  lemma {:induction false} CountsUntil(lookup: Lookup, events: seq<Event>, k: nat, j: nat)
    requires IsCaptured(lookup, events, k) && lookup(events[k].code).Some? && k < j <= |events|
    requires forall m | k < m < j :: !Decides(PressOf(lookup, events, k), Since(events, k, m), events[m])
    ensures Counts(Run(lookup, events[..j]), |Keys(events[..k])|)
  {
    hide Waits, Decides, Next, Run, PressOf, Counts;
    CapturedCounts(lookup, events, k);
    if j > k + 1 {
      CountsUntil(lookup, events, k, j - 1);
      WaitsUntil(lookup, events, k, j - 1);
      RunNext(lookup, events, j - 1);
      CountStep(lookup, Run(lookup, events[..j - 1]), PressOf(lookup, events, k), |Keys(events[..k])|, Since(events, k, j - 1), events[j - 1]);
    }
  }

  // ---------- The event that decides ----------

  /** All the held inputs are passed on, and the deciding one too unless it is a tick or
      the release of the key itself. */
  predicate PassedOn(trace: seq<Effect>, p: Press, origin: nat, since: seq<Input>, e: Event) {
    (forall i | 0 <= i < |since| :: Pass(since[i].code, since[i].pressed, origin + 1 + i) in trace) &&
    (e.Key? && !OwnRelease(p, e) ==> Pass(e.code, e.pressed, origin + 1 + |since|) in trace)
  }

  lemma FlushHas(r: Resolver, now: int, i: nat)
    requires r.Numbered() && i < |r.buffer|
    ensures var pass := Pass(r.buffer[i].code, r.buffer[i].pressed, r.log.origins[i]);
            pass in ResolveToHold(r).log.trace && pass in TapNow(r, now).log.trace
  {
    hide U16;
    var passes := Passes(r.buffer, r.log.origins);
    assert passes[i] == Pass(r.buffer[i].code, r.buffer[i].pressed, r.log.origins[i]);
    assert passes[i] in passes;
  }

  lemma DecideStep(lookup: Lookup, r: Resolver, p: Press, origin: nat, since: seq<Input>, e: Event)
    requires Counts(r, origin) && Waits(r, p, origin, since) && Decides(p, since, e)
    ensures PassedOn(Next(lookup, r, e).log.trace, p, origin, since, e)
  {
    var a := if e.Key? then Arrived(r, e.code, e.pressed, e.now) else r;
    if e.Key? {
      InBufferIs(r.buffer, e.code);
    }
    forall i | 0 <= i < |since|
      ensures var pass := Pass(since[i].code, since[i].pressed, origin + 1 + i);
              pass in ResolveToHold(a).log.trace && pass in TapNow(a, e.now).log.trace
    {
      FlushHas(a, e.now, i);
    }
    assert since == [] <==> r.buffer == [];
    hide Inputs, PressedInBuffer, ResolveToHold, TapNow;
  }

  /** Over every run: when the decision on a press falls, every input since the press has
      been passed on, and so is the one that forces it. */
  lemma HeldArePassedOn(lookup: Lookup, events: seq<Event>, k: nat, d: nat)
    requires IsCaptured(lookup, events, k) && lookup(events[k].code).Some?
    requires d < |events| && k < d && d == FirstDecider(PressOf(lookup, events, k), events, k, k + 1)
    ensures PassedOn(Run(lookup, events[..d + 1]).log.trace, PressOf(lookup, events, k), |Keys(events[..k])|, Since(events, k, d), events[d])
  {
    hide Waits, Decides, Next, Run, PressOf, Counts, FirstDecider, Since, Keys, PassedOn;
    WaitsUntil(lookup, events, k, d);
    CountsUntil(lookup, events, k, d);
    RunNext(lookup, events, d);
    DecideStep(lookup, Run(lookup, events[..d]), PressOf(lookup, events, k), |Keys(events[..k])|, Since(events, k, d), events[d]);
  }
}
