/** Every decision of the tap-hold resolver reaches the host. */
module TapHoldReports {
  import opened Numbers
  import opened Options
  import opened TapHold
  import opened TapHoldRuns

  /** After effect i come passed-on inputs and then a report. */
  predicate ReportedAt(trace: seq<Effect>, i: nat) {
    exists j :: i < j < |trace| && trace[j] == Report && forall m | i < m < j :: trace[m].Pass?
  }

  predicate Reported(trace: seq<Effect>) {
    forall i | 0 <= i < |trace| && trace[i].Resolve? :: ReportedAt(trace, i)
  }

  lemma ReportedConcat(a: seq<Effect>, b: seq<Effect>)
    requires Reported(a) && Reported(b)
    ensures Reported(a + b)
  {
    var t := a + b;
    forall i | 0 <= i < |t| && t[i].Resolve? ensures ReportedAt(t, i) {
      if i < |a| {
        assert ReportedAt(a, i);
        var j :| i < j < |a| && a[j] == Report && forall m | i < m < j :: a[m].Pass?;
        assert t[j] == Report;
      } else {
        assert ReportedAt(b, i - |a|);
        var j :| i - |a| < j < |b| && b[j] == Report && forall m | i - |a| < m < j :: b[m].Pass?;
        assert t[|a| + j] == Report;
        assert forall m | i < m < |a| + j :: t[m] == b[m - |a|];
      }
    }
  }

  lemma PlainIsReported(tail: seq<Effect>)
    requires forall e | e in tail :: !e.Resolve?
    ensures Reported(tail)
  {
  }

  /** A decision, the held inputs, and a report. */
  lemma DecisionIsReported(e: Effect, passes: seq<Effect>)
    requires forall i | 0 <= i < |passes| :: passes[i].Pass?
    ensures Reported([e] + passes + [Report])
  {
    var t := [e] + passes + [Report];
    assert t[|passes| + 1] == Report;
    assert ReportedAt(t, 0);
  }

  lemma DecidedReports(r: Resolver, now: int)
    requires r.Numbered() && Reported(r.log.trace)
    ensures Reported(ResolveToHold(r).log.trace) && Reported(TapNow(r, now).log.trace) && Reported(DoubleTapped(r).log.trace)
  {
    hide U16, Reported;
    var passes := Passes(r.buffer, r.log.origins);
    DecisionReports(r.log.trace, ResolveToHold(r).log.trace, passes);
    DecisionReports(r.log.trace, TapNow(r, now).log.trace, passes);
    DecisionReports(r.log.trace, DoubleTapped(r).log.trace, passes);
  }

  lemma DecisionReports(a: seq<Effect>, b: seq<Effect>, passes: seq<Effect>)
    requires Reported(a) && forall i | 0 <= i < |passes| :: passes[i].Pass?
    requires |b| > |a| && b == a + [b[|a|]] + passes + [Report]
    ensures Reported(b)
  {
    hide Reported;
    DecisionIsReported(b[|a|], passes);
    ReportedConcat(a, [b[|a|]] + passes + [Report]);
    assert b == a + ([b[|a|]] + passes + [Report]);
  }

  lemma MoreIsReported(a: seq<Effect>, e: Effect)
    requires Reported(a) && !e.Resolve?
    ensures Reported(a + [e])
  {
    hide Reported;
    PlainIsReported([e]);
    ReportedConcat(a, [e]);
  }

  lemma IdleReports(r: Resolver, code: nat, pressed: bool, rules: Option<Rules>, now: int, idle: int, origin: nat)
    requires r.Numbered() && Reported(r.log.trace)
    ensures Reported(InIdle(r, code, pressed, rules, now, idle, origin).log.trace)
  {
    hide U16, Millis, QuickTap, Reported;
    MoreIsReported(r.log.trace, Pass(code, pressed, origin));
    var t := InIdle(r, code, pressed, rules, now, idle, origin).log.trace;
    if rules.Some? && pressed && QuickTap(r, code, rules.value, now) {
      DecisionReports(r.log.trace, t, []);
    }
  }

  lemma PendingReports(r: Resolver, code: nat, pressed: bool, now: int, origin: nat)
    requires r.Numbered() && Reported(r.log.trace)
    ensures Reported(InPending(r, code, pressed, now, origin).log.trace)
  {
    hide ResolveToHold, TapNow, PressedInBuffer, Reported;
    DecidedReports(r, now);
    var held := ResolveToHold(r).log.trace;
    MoreIsReported(held, Pass(code, pressed, origin));
    MoreIsReported(held + [Pass(code, pressed, origin)], Report);
  }

  lemma SustainedReports(r: Resolver, code: nat, pressed: bool, origin: nat)
    requires r.Numbered() && Reported(r.log.trace)
    ensures Reported(InSustained(r, code, pressed, origin).log.trace)
  {
    hide U16, Reported;
    MoreIsReported(r.log.trace, Pass(code, pressed, origin));
    if !pressed && code == r.pendingAction {
      DecisionReports(r.log.trace, InSustained(r, code, pressed, origin).log.trace, []);
    }
  }

  lemma WaitingReports(r: Resolver, code: nat, pressed: bool, rules: Option<Rules>, now: int, idle: int, origin: nat)
    requires r.Numbered() && Reported(r.log.trace)
    ensures Reported(InWaiting(r, code, pressed, rules, now, idle, origin).log.trace)
  {
    hide InIdle, TapNow, DoubleTapped, Reported;
    DecidedReports(r, now);
    IdleReports(TapNow(r, now), code, pressed, rules, now, idle, origin);
  }

  lemma NextReports(lookup: Lookup, r: Resolver, e: Event)
    requires r.Numbered() && Reported(r.log.trace)
    ensures Reported(Next(lookup, r, e).log.trace)
  {
    hide ResolveToHold, TapNow, InPending, InIdle, InSustained, InWaiting, Reported;
    DecidedReports(r, e.now);
    if e.Key? {
      var a := Arrived(r, e.code, e.pressed, e.now);
      var idle, n := if r.lastAny > 0 then e.now - r.lastAny else 1000000000, |r.log.inputs|;
      PendingReports(a, e.code, e.pressed, e.now, n);
      IdleReports(a, e.code, e.pressed, lookup(e.code), e.now, idle, n);
      SustainedReports(a, e.code, e.pressed, n);
      WaitingReports(a, e.code, e.pressed, lookup(e.code), e.now, idle, n);
    }
  }

  /** In every run: every tap, hold, double tap and release of a held action is followed,
      after the inputs it let pass and before any other decision, by a report. */
  lemma {:induction false} DecisionsAreReported(lookup: Lookup, events: seq<Event>)
    ensures var trace := Run(lookup, events).log.trace;
            forall i | 0 <= i < |trace| && trace[i].Resolve? ::
              exists j :: i < j < |trace| && trace[j] == Report && forall m | i < m < j :: trace[m].Pass?
  {
    RunReports(lookup, events);
    var trace := Run(lookup, events).log.trace;
    hide Run;
    assert forall i | 0 <= i < |trace| && trace[i].Resolve? :: ReportedAt(trace, i);
  }

  lemma {:induction false} RunReports(lookup: Lookup, events: seq<Event>)
    ensures Reported(Run(lookup, events).log.trace)
  {
    hide Next, Keys;
    if events != [] {
      hide Reported;
      RunReports(lookup, events[..|events| - 1]);
      NextReports(lookup, Run(lookup, events[..|events| - 1]), events[|events| - 1]);
    }
  }
}
