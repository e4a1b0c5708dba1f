/** What a key event makes the combo engine dispatch, told from the state before it. */
module ComboActs {
  import opened Combo
  import opened ComboRuns

  // ---------- What a press dispatches ----------

  /** The press fires combo m: it completes it, no longer combo with its keys is active
      or completed before, and no earlier combo consumes the press. */
  predicate Fires(table: Table, rts: seq<Rt>, x: Context, m: nat)
    requires Shaped(table, rts) && m < |table|
  {
    Completes(table[m], rts[m], x) && !Shadowed(table, rts, x, m, m) && !ConsumedBefore(table, rts, x, m)
  }

  /** Combo a is active when the turn of combo m comes. */
  predicate ActiveAt(table: Table, rts: seq<Rt>, x: Context, m: nat, a: nat)
    requires Shaped(table, rts) && m <= |table| && a < |table|
  {
    (rts[a].active || (a < m && Fires(table, rts, x, a))) &&
    !exists c | 0 <= c < m :: Fires(table, rts, x, c) && Over(table, a, c)
  }

  function ActivesAt(table: Table, rts: seq<Rt>, x: Context, m: nat): (flags: seq<bool>)
    requires Shaped(table, rts) && m <= |table|
    ensures |flags| == |table| && forall a | 0 <= a < |table| :: flags[a] == ActiveAt(table, rts, x, m, a)
  {
    seq(|table|, a requires 0 <= a < |table| => ActiveAt(table, rts, x, m, a))
  }

  /** The release of combo j if it is active and combo i is over it. */
  function Ended(table: Table, actives: seq<bool>, i: nat, j: nat): seq<Act>
    requires |actives| == |table| && i < |table| && j < |table|
  {
    if actives[j] && Over(table, j, i) then [Act(table[j].action, false)] else []
  }

  /** The releases of the active combos below j that combo i is over. */
  function EndedBy(table: Table, actives: seq<bool>, i: nat, j: nat): seq<Act>
    requires |actives| == |table| && i < |table| && j <= |table|
  {
    if j == 0 then [] else EndedBy(table, actives, i, j - 1) + Ended(table, actives, i, j - 1)
  }

  /** The releases of the first k keys, as far as they have an action. */
  function KeysUp(keys: seq<Key>, x: Context, k: nat): seq<Act>
    requires k <= |keys|
  {
    if k == 0 then []
    else KeysUp(keys, x, k - 1) + if x.layout(keys[k - 1], x.mask) == 0 then [] else [Act(x.layout(keys[k - 1], x.mask), false)]
  }

  /** What firing combo m dispatches: the combos that it is over are released, then its
      keys if it cancels them and does not delay them, and then its action is pressed. */
  function FiringActs(table: Table, actives: seq<bool>, m: nat, x: Context): seq<Act>
    requires |actives| == |table| && m < |table|
  {
    var c := table[m];
    EndedBy(table, actives, m, |table|) +
    (if c.cancelKeys && !c.delayed then KeysUp(c.keys, x, |c.keys|) else []) +
    [Act(c.action, true)]
  }

  function FiredActs(table: Table, rts: seq<Rt>, x: Context, j: nat): seq<Act>
    requires Shaped(table, rts) && j <= |table|
  {
    if j == 0 then []
    else
      FiredActs(table, rts, x, j - 1) +
      if Fires(table, rts, x, j - 1) then FiringActs(table, ActivesAt(table, rts, x, j - 1), j - 1, x) else []
  }

  /** Some delayed combo takes the press as one of its keys. */
  predicate Delays(table: Table, rts: seq<Rt>, x: Context)
    requires Shaped(table, rts)
  {
    exists m | 0 <= m < |table| :: table[m].delayed && Sees(table[m], rts[m], x)
  }

  predicate Sees(c: Definition, rt: Rt, x: Context) {
    var k := Trigger(c.keys, x.key, 0);
    c.layers * x.mask != {} && k < |c.keys| && !(c.strict && k != rt.matched)
  }

  /** The suppressed keys are pressed after all. */
  function Typed(s: seq<Suppressed>): seq<Act> {
    if s == [] then [] else Typed(s[..|s| - 1]) + [Act(s[|s| - 1].code, true)]
  }

  function PressActs(table: Table, e: Engine, x: Context): seq<Act>
    requires Shaped(table, e.rts)
  {
    FiredActs(table, e.rts, x, |table|) +
    if ConsumedBefore(table, e.rts, x, |table|) || Delays(table, e.rts, x) then [] else Typed(e.suppressed)
  }

  // ---------- What a release dispatches ----------

  /** The release ends combo c. */
  predicate EndsNow(c: Definition, rt: Rt, x: Context)
    requires |c.keys| <= CFG_COMBO_MAX_KEYS == |rt.pressed|
  {
    var k := Trigger(c.keys, x.key, 0);
    rt.active && c.layers * x.mask != {} && k < |c.keys| && rt.pressed[k] && (c.releaseFirst || rt.matched <= 1)
  }

  function EndingActs(table: Table, rts: seq<Rt>, x: Context, j: nat): seq<Act>
    requires Shaped(table, rts) && j <= |table|
  {
    if j == 0 then []
    else EndingActs(table, rts, x, j - 1) + if EndsNow(table[j - 1], rts[j - 1], x) then [Act(table[j - 1].action, false)] else []
  }

  /** Suppressed entries of the released key are typed. */
  function TypedLate(s: seq<Suppressed>, key: Key): seq<Act> {
    if s == [] then []
    else
      var last := s[|s| - 1];
      TypedLate(s[..|s| - 1], key) + if last.key == key then [Act(last.code, true), Act(last.code, false)] else []
  }

  function ReleaseActs(table: Table, e: Engine, x: Context): seq<Act>
    requires Shaped(table, e.rts)
  {
    EndingActs(table, e.rts, x, |table|) + TypedLate(e.suppressed, x.key)
  }

  // ---------- The loop of a press ----------

  function Actives(rts: seq<Rt>): (flags: seq<bool>)
    ensures |flags| == |rts| && forall a | 0 <= a < |rts| :: flags[a] == rts[a].active
  {
    seq(|rts|, a requires 0 <= a < |rts| => rts[a].active)
  }

  /** The rest of EndedBy, from j on. */
  function EndedFrom(table: Table, actives: seq<bool>, i: nat, j: nat): seq<Act>
    requires |actives| == |table| && i < |table| && j <= |table|
    decreases |table| - j
  {
    if j == |table| then [] else Ended(table, actives, i, j) + EndedFrom(table, actives, i, j + 1)
  }

  lemma Regroup(a: seq<Act>, b: seq<Act>, c: seq<Act>)
    ensures a + (b + c) == a + b + c
  {
  }

  lemma {:induction false} EndedSplit(table: Table, actives: seq<bool>, i: nat, j: nat)
    requires |actives| == |table| && i < |table| && j <= |table|
    ensures EndedBy(table, actives, i, j) + EndedFrom(table, actives, i, j) == EndedBy(table, actives, i, |table|)
    decreases |table| - j
  {
    hide Ended;
    if j < |table| {
      EndedSplit(table, actives, i, j + 1);
      Regroup(EndedBy(table, actives, i, j), Ended(table, actives, i, j), EndedFrom(table, actives, i, j + 1));
    }
  }

  lemma CancelsIs(table: Table, rts: seq<Rt>, i: nat, j: nat)
    requires |rts| == |table| && i < |table| && j < |table|
    ensures Cancels(table, rts, i, j) <==> rts[j].active && Over(table, j, i)
  {
    hide Subset;
  }

  function Cancelled(table: Table, e: Engine, j: nat): (r: Engine)
    requires Shaped(table, e.rts) && j < |table|
    ensures Shaped(table, r.rts)
  {
    Act1(e, table[j].action, false).(rts := e.rts[j := e.rts[j].(active := false)])
  }

  lemma CancelStep(table: Table, e: Engine, i: nat, j: nat)
    requires Shaped(table, e.rts) && i < |table| && j < |table|
    ensures CancelFrom(table, e, i, j) ==
            CancelFrom(table, if Cancels(table, e.rts, i, j) then Cancelled(table, e, j) else e, i, j + 1)
  {
    hide Subset, Cancels, Shaped;
  }

  lemma EndedStep(table: Table, actives: seq<bool>, i: nat, j: nat)
    requires |actives| == |table| && i < |table| && j < |table|
    ensures EndedFrom(table, actives, i, j) == Ended(table, actives, i, j) + EndedFrom(table, actives, i, j + 1)
  {
    hide Over;
  }

  lemma CancelledIs(table: Table, e: Engine, i: nat, j: nat)
    requires Shaped(table, e.rts) && i < |table| && j < |table|
    ensures var d := if Cancels(table, e.rts, i, j) then Cancelled(table, e, j) else e;
            d.trace == e.trace + Ended(table, Actives(e.rts), i, j) && |d.rts| == |e.rts| &&
            forall m | 0 <= m < |table| && m != j :: d.rts[m].active == e.rts[m].active
  {
    hide Subset, Over, Cancels;
    CancelsIs(table, e.rts, i, j);
    assert e.trace + [] == e.trace;
  }

  lemma {:induction false} CancelTrace(table: Table, e: Engine, i: nat, j: nat)
    requires Shaped(table, e.rts) && i < |table| && j <= |table|
    ensures CancelFrom(table, e, i, j).trace == e.trace + EndedFrom(table, Actives(e.rts), i, j)
    decreases |table| - j
  {
    if j < |table| {
      hide Subset, Over, Cancels, CancelFrom, EndedFrom, Shaped, Cancelled;
      CancelStep(table, e, i, j);
      EndedStep(table, Actives(e.rts), i, j);
      CancelledIs(table, e, i, j);
      var d := if Cancels(table, e.rts, i, j) then Cancelled(table, e, j) else e;
      CancelTrace(table, d, i, j + 1);
      SameFrom(table, Actives(e.rts), Actives(d.rts), i, j + 1);
      Regroup(e.trace, Ended(table, Actives(e.rts), i, j), EndedFrom(table, Actives(e.rts), i, j + 1));
    }
  }

  lemma {:induction false} SameFrom(table: Table, a: seq<bool>, b: seq<bool>, i: nat, j: nat)
    requires |a| == |b| == |table| && i < |table| && j <= |table| && forall m | j <= m < |table| :: a[m] == b[m]
    ensures EndedFrom(table, a, i, j) == EndedFrom(table, b, i, j)
    decreases |table| - j
  {
    if j < |table| {
      SameFrom(table, a, b, i, j + 1);
    }
  }

  lemma {:induction false} ReleasesAre(keys: seq<Key>, x: Context, k: nat)
    requires k <= |keys|
    ensures Releases(keys, x, k) == KeysUp(keys, x, k)
  {
    if k > 0 {
      ReleasesAre(keys, x, k - 1);
    }
  }

  /** What the turn of combo j dispatches, and what it leaves of the suppressed keys. */
  lemma TurnActs(table: Table, e: Engine, j: nat, x: Context)
    requires Shaped(table, e.rts) && j < |table|
    ensures var h := PressCombo(table, e, j, x);
            var fires := Completes(table[j], e.rts[j], x) && !Subsumed(table, e.rts, j);
            h.e.trace == e.trace + (if fires then FiringActs(table, Actives(e.rts), j, x) else []) &&
            h.waits == (table[j].delayed && Sees(table[j], e.rts[j], x)) &&
            h.e.suppressed == if h.consumed then Others(e.suppressed, table[j].keys) else e.suppressed
  {
    var c, rt, k := table[j], e.rts[j], Trigger(table[j].keys, x.key, 0);
    hide Trigger, Subset;
    if c.layers * x.mask != {} && k < |c.keys| && !(c.strict && k != rt.matched) {
      var f := e.(rts := e.rts[j := Recorded(rt, k)]);
      assert Subsumed(table, f.rts, j) == Subsumed(table, e.rts, j) by {
        assert forall m | 0 <= m < |table| :: Subsumes(table, f.rts, j, m) == Subsumes(table, e.rts, j, m);
      }
      assert Actives(f.rts) == Actives(e.rts);
      FireActs(table, f, j, x);
      FireKeys(table, f, j, x);
      hide CancelFrom, Subsumed, Fire, FiringActs;
    }
  }

  lemma FireActs(table: Table, e: Engine, i: nat, x: Context)
    requires Shaped(table, e.rts) && i < |table|
    ensures Fire(table, e, i, x).trace == e.trace + FiringActs(table, Actives(e.rts), i, x)
  {
    hide CancelFrom, Releases, KeysUp, EndedFrom, EndedBy, Discard, Others;
    var c := table[i];
    CancelTrace(table, e, i, 0);
    EndedSplit(table, Actives(e.rts), i, 0);
    assert EndedBy(table, Actives(e.rts), i, 0) == [] by {
      NothingEnded(table, Actives(e.rts), i);
    }
    ReleasesAre(c.keys, x, |c.keys|);
    var ended := EndedBy(table, Actives(e.rts), i, |table|);
    var keys := if c.cancelKeys && !c.delayed then KeysUp(c.keys, x, |c.keys|) else [];
    assert e.trace + ended + keys + [Act(c.action, true)] == e.trace + (ended + keys + [Act(c.action, true)]);
  }

  lemma FireKeys(table: Table, e: Engine, i: nat, x: Context)
    requires Shaped(table, e.rts) && i < |table|
    ensures Fire(table, e, i, x).suppressed == if table[i].delayed then Others(e.suppressed, table[i].keys) else e.suppressed
  {
    hide CancelFrom, Releases, Discard, Others;
    DiscardIs(e.suppressed, table[i].keys, |table[i].keys|);
    assert table[i].keys[..|table[i].keys|] == table[i].keys;
  }

  lemma NothingEnded(table: Table, actives: seq<bool>, i: nat)
    requires |actives| == |table| && i < |table|
    ensures EndedBy(table, actives, i, 0) == []
  {
  }

  /** The loop after j combos. */
  ghost predicate LoopTold(table: Table, e: Engine, x: Context, j: nat)
    requires Shaped(table, e.rts) && j <= |table|
  {
    var h := Loop(table, e, x, j);
    h.e.trace == e.trace + FiredActs(table, e.rts, x, j) &&
    (forall a | 0 <= a < |table| :: h.e.rts[a].active <==> ActiveAt(table, e.rts, x, j, a)) &&
    (!h.consumed ==> (h.waits <==> exists m | 0 <= m < j :: table[m].delayed && Sees(table[m], e.rts[m], x)))
  }

  /** What is left of the suppressed keys when a combo consumes the press. */
  ghost predicate TakenBy(table: Table, e: Engine, x: Context, left: seq<Suppressed>)
    requires Shaped(table, e.rts)
  {
    exists m | 0 <= m < |table| ::
      Consumes(table, e.rts, x, m) && !ConsumedBefore(table, e.rts, x, m) && left == Others(e.suppressed, table[m].keys)
  }

  lemma NotUnderFired(table: Table, rts: seq<Rt>, x: Context, j: nat, c: nat)
    requires Shaped(table, rts) && c <= j < |table| && Fires(table, rts, x, j) && Fires(table, rts, x, c)
    ensures !Over(table, j, c)
  {
    hide Completes, Subset;
  }

  lemma ActiveNext(table: Table, rts: seq<Rt>, x: Context, j: nat, a: nat)
    requires Shaped(table, rts) && j < |table| && a < |table|
    ensures ActiveAt(table, rts, x, j + 1, a) <==>
            if Fires(table, rts, x, j) && a == j then true
            else ActiveAt(table, rts, x, j, a) && !(Fires(table, rts, x, j) && Over(table, a, j))
  {
    hide Fires, Over;
    if Fires(table, rts, x, j) && a == j {
      forall c | 0 <= c < j + 1 && Fires(table, rts, x, c) ensures !Over(table, j, c) {
        NotUnderFired(table, rts, x, j, c);
      }
    }
  }

  lemma SeesSame(c: Definition, a: Rt, b: Rt, x: Context)
    requires SameRecords(a, b)
    ensures Sees(c, a, x) == Sees(c, b, x)
  {
    hide Trigger;
  }

  lemma FiredNext(table: Table, rts: seq<Rt>, x: Context, j: nat)
    requires Shaped(table, rts) && j < |table|
    ensures FiredActs(table, rts, x, j + 1) ==
            FiredActs(table, rts, x, j) + if Fires(table, rts, x, j) then FiringActs(table, ActivesAt(table, rts, x, j), j, x) else []
  {
    hide Fires, FiringActs, ActivesAt;
  }

  /** The turn of combo m, when nothing has consumed the press before it. */
  lemma TurnTells(table: Table, e: Engine, x: Context, m: nat)
    requires Shaped(table, e.rts) && m < |table| && LoopTold(table, e, x, m) && !Loop(table, e, x, m).consumed
    ensures LoopTold(table, e, x, m + 1)
  {
    hide PressCombo, Subsumed, Shadowed, Completes, FiringActs, FiredActs, Touched, Consumes, Over, Sees, ActiveAt;
    var h := Loop(table, e, x, m);
    LoopStays(table, e, x, m);
    LoopStays(table, e, x, m + 1);
    TurnIs(table, h.e, m, x);
    TurnActs(table, h.e, m, x);
    SameTurn(table[m], h.e.rts[m], e.rts[m], x);
    SeesSame(table[m], h.e.rts[m], e.rts[m], x);
    assert Fires(table, e.rts, x, m) <==> Completes(table[m], h.e.rts[m], x) && !Subsumed(table, h.e.rts, m);
    assert Actives(h.e.rts) == ActivesAt(table, e.rts, x, m);
    FiredNext(table, e.rts, x, m);
    forall a | 0 <= a < |table|
      ensures ActiveAt(table, e.rts, x, m + 1, a) <==>
              if Fires(table, e.rts, x, m) && a == m then true
              else ActiveAt(table, e.rts, x, m, a) && !(Fires(table, e.rts, x, m) && Over(table, a, m))
    {
      ActiveNext(table, e.rts, x, m, a);
    }
    var here := if Fires(table, e.rts, x, m) then FiringActs(table, ActivesAt(table, e.rts, x, m), m, x) else [];
    Regroup(e.trace, FiredActs(table, e.rts, x, m), here);
  }

  /** And when something has. */
  lemma NoTurnTells(table: Table, e: Engine, x: Context, m: nat)
    requires Shaped(table, e.rts) && m < |table| && LoopTold(table, e, x, m) && Loop(table, e, x, m).consumed
    ensures LoopTold(table, e, x, m + 1)
  {
    hide PressCombo, Shadowed, Completes, FiringActs, FiredActs, Touched, Consumes, Over, Sees, ActiveAt;
    LoopStays(table, e, x, m);
    assert !Fires(table, e.rts, x, m);
    FiredNext(table, e.rts, x, m);
    forall a | 0 <= a < |table| ensures ActiveAt(table, e.rts, x, m + 1, a) == ActiveAt(table, e.rts, x, m, a) {
      ActiveNext(table, e.rts, x, m, a);
    }
    assert FiredActs(table, e.rts, x, m) + [] == FiredActs(table, e.rts, x, m);
  }

  lemma LoopStarts(table: Table, e: Engine, x: Context)
    requires Shaped(table, e.rts)
    ensures LoopTold(table, e, x, 0)
  {
    hide Over, Fires, Sees;
    assert e.trace + [] == e.trace;
  }

  lemma {:induction false} LoopTells(table: Table, e: Engine, x: Context, j: nat)
    requires Shaped(table, e.rts) && j <= |table|
    ensures LoopTold(table, e, x, j)
  {
    hide LoopTold, Loop;
    if j == 0 {
      LoopStarts(table, e, x);
    } else {
      LoopTells(table, e, x, j - 1);
      if Loop(table, e, x, j - 1).consumed {
        NoTurnTells(table, e, x, j - 1);
      } else {
        TurnTells(table, e, x, j - 1);
      }
    }
  }

  lemma {:induction false} LoopKeeps(table: Table, e: Engine, x: Context, j: nat)
    requires Shaped(table, e.rts) && j <= |table|
    ensures var h := Loop(table, e, x, j);
            if h.consumed then TakenBy(table, e, x, h.e.suppressed) else h.e.suppressed == e.suppressed
  {
    hide PressCombo, Subsumed, Shadowed, Completes, Touched, FiringActs, Sees, Others;
    if j > 0 {
      var m := j - 1;
      LoopKeeps(table, e, x, m);
      LoopStays(table, e, x, m);
      LoopStays(table, e, x, j);
      var h := Loop(table, e, x, m);
      if !h.consumed {
        TurnActs(table, h.e, m, x);
      }
    }
  }

  // ---------- Main results: a press ----------

  lemma {:induction false} TypedIs(s: seq<Suppressed>)
    ensures Flushed(s) == Typed(s)
  {
    if s != [] {
      var m := |s| - 1;
      TypedIs(s[..m]);
      assert Flushed(s) == Flushed(s[..m]) + [Act(s[m].code, true)];
    }
  }

  /** What a press leaves of the suppressed keys. */
  ghost predicate Kept(table: Table, e: Engine, x: Context, left: seq<Suppressed>)
    requires Shaped(table, e.rts)
  {
    if ConsumedBefore(table, e.rts, x, |table|) then TakenBy(table, e, x, left)
    else if Delays(table, e.rts, x) then
      left == if |e.suppressed| < MAX_SUPPRESSED
              then e.suppressed + [Suppressed(x.key, x.now, x.layout(x.key, x.mask), x.mask)] else e.suppressed
    else left == []
  }

  lemma PressTold(table: Table, e: Engine, x: Context)
    requires Shaped(table, e.rts) && table != []
    ensures var r := Process(table, e, true, x);
            r.e.trace == e.trace + PressActs(table, e, x) && Kept(table, e, x, r.e.suppressed) &&
            (r.consumed <==> ConsumedBefore(table, e.rts, x, |table|) || Delays(table, e.rts, x)) &&
            forall a | 0 <= a < |table| :: r.e.rts[a].active <==> ActiveAt(table, e.rts, x, |table|, a)
  {
    hide Loop, FiredActs, ConsumedBefore, ActiveAt, Flushed, Typed, TakenBy, Sees;
    LoopIs(table, e, x, |table|);
    LoopStays(table, e, x, |table|);
    LoopTells(table, e, x, |table|);
    LoopKeeps(table, e, x, |table|);
    TypedIs(e.suppressed);
    var fired := FiredActs(table, e.rts, x, |table|);
    assert e.trace + fired + Typed(e.suppressed) == e.trace + (fired + Typed(e.suppressed));
    assert e.trace + (fired + []) == e.trace + fired;
  }

  lemma {:induction false} NothingWithoutCombos(events: seq<Event>)
    ensures Run([], events) == Engine([], [], [])
  {
    if events != [] {
      NothingWithoutCombos(events[..|events| - 1]);
    }
  }

  /** A press in any reachable state dispatches exactly this, is kept from the layout
      exactly when a combo consumes or delays it, and leaves exactly these combos active. */
  lemma {:induction false} PressDispatches(table: Table, events: seq<Event>, x: Context)
    requires WellFormed(table)
    ensures var e, r := Run(table, events), Run(table, events + [Event(true, x)]);
            r.trace == e.trace + PressActs(table, e, x) && Kept(table, e, x, r.suppressed) &&
            forall a | 0 <= a < |table| :: r.rts[a].active <==> ActiveAt(table, e.rts, x, |table|, a)
  {
    var e := Run(table, events);
    assert (events + [Event(true, x)])[..|events|] == events;
    assert Run(table, events + [Event(true, x)]) == Process(table, e, true, x).e;
    hide Run, PressFrom, ActiveAt;
    if table == [] {
      NothingWithoutCombos(events);
      assert !Delays(table, e.rts, x) && !ConsumedBefore(table, e.rts, x, 0);
      assert PressActs(table, e, x) == [];
    } else {
      PressTold(table, e, x);
    }
  }

  // ---------- Main results: a release ----------

  lemma EndsIs(table: Table, e: Engine, j: nat, x: Context)
    requires Shaped(table, e.rts) && j < |table|
    ensures var ends, r := EndsNow(table[j], e.rts[j], x), ReleaseCombo(table, e, j, x);
            r.trace == e.trace + (if ends then [Act(table[j].action, false)] else []) &&
            (r.rts[j].active <==> e.rts[j].active && !ends) &&
            forall m | 0 <= m < |table| && m != j :: r.rts[m] == e.rts[m]
  {
    hide Trigger;
  }

  lemma {:induction false} ReleaseTrace(table: Table, was: Engine, e: Engine, j: nat, x: Context)
    requires Shaped(table, was.rts) && Shaped(table, e.rts) && j <= |table|
    requires forall m | j <= m < |table| :: e.rts[m] == was.rts[m]
    requires e.trace == was.trace + EndingActs(table, was.rts, x, j)
    ensures ReleaseFrom(table, e, j, x).trace == was.trace + EndingActs(table, was.rts, x, |table|)
    decreases |table| - j
  {
    hide EndsNow, ReleaseCombo;
    if j < |table| {
      EndsIs(table, e, j, x);
      var here := if EndsNow(table[j], was.rts[j], x) then [Act(table[j].action, false)] else [];
      assert was.trace + EndingActs(table, was.rts, x, j) + here == was.trace + (EndingActs(table, was.rts, x, j) + here);
      ReleaseTrace(table, was, ReleaseCombo(table, e, j, x), j + 1, x);
    }
  }

  lemma {:induction false} LateConcat(a: seq<Suppressed>, b: seq<Suppressed>, key: Key)
    ensures TypedLate(a + b, key) == TypedLate(a, key) + TypedLate(b, key)
  {
    if b == [] {
      assert a + b == a;
    } else {
      LateConcat(a, b[..|b| - 1], key);
      assert (a + b)[..|a + b| - 1] == a + b[..|b| - 1];
    }
  }

  lemma LateOne(s: Suppressed, key: Key)
    ensures TypedLate([s], key) == if s.key == key then [Act(s.code, true), Act(s.code, false)] else []
    ensures Others([s], [key]) == if s.key == key then [] else [s]
  {
    assert [s][..0] == [];
  }

  lemma Splits(s: seq<Suppressed>, key: Key, i: nat)
    requires i < |s|
    ensures TypedLate(s[i..], key) ==
            (if s[i].key == key then [Act(s[i].code, true), Act(s[i].code, false)] else []) + TypedLate(s[i + 1..], key)
    ensures Others(s[i..], [key]) == (if s[i].key == key then [] else [s[i]]) + Others(s[i + 1..], [key])
  {
    hide TypedLate, Others;
    assert s[i..] == [s[i]] + s[i + 1..];
    LateConcat([s[i]], s[i + 1..], key);
    OthersConcat([s[i]], s[i + 1..], [key]);
    LateOne(s[i], key);
  }

  function Late(e: Engine, i: nat): (r: Engine)
    requires i < |e.suppressed|
    ensures |r.suppressed| == |e.suppressed| - 1
  {
    var code := e.suppressed[i].code;
    Act1(Act1(e, code, true), code, false).(suppressed := Without(e.suppressed, i))
  }

  lemma UnsuppressStep(e: Engine, key: Key, i: nat)
    requires i < |e.suppressed|
    ensures Unsuppress(e, key, i) == if e.suppressed[i].key == key then Unsuppress(Late(e, i), key, i) else Unsuppress(e, key, i + 1)
  {
    hide Without;
  }

  lemma {:induction false} UnsuppressIs(e: Engine, key: Key, i: nat)
    requires i <= |e.suppressed|
    ensures var s, r := e.suppressed, Unsuppress(e, key, i);
            r.trace == e.trace + TypedLate(s[i..], key) && r.suppressed == s[..i] + Others(s[i..], [key])
    decreases |e.suppressed| - i
  {
    var s := e.suppressed;
    if i < |s| {
      hide TypedLate, Others, Without, Unsuppress;
      UnsuppressStep(e, key, i);
      Splits(s, key, i);
      var rest, code := TypedLate(s[i + 1..], key), s[i].code;
      if s[i].key == key {
        WithoutOne(s, i);
        UnsuppressIs(Late(e, i), key, i);
        assert e.trace + [Act(code, true)] + [Act(code, false)] + rest == e.trace + ([Act(code, true), Act(code, false)] + rest);
      } else {
        UnsuppressIs(e, key, i + 1);
        assert [] + rest == rest;
        assert s[..i + 1] == s[..i] + [s[i]];
      }
    }
  }

  lemma WithoutOne(s: seq<Suppressed>, i: nat)
    requires i < |s|
    ensures Without(s, i)[..i] == s[..i] && Without(s, i)[i..] == s[i + 1..]
  {
  }

  /** A release in any reachable state ends exactly these combos, releasing their actions
      in turn, and then types the suppressed entries of the key; the others stay. */
  lemma {:induction false} ReleaseDispatches(table: Table, events: seq<Event>, x: Context)
    requires WellFormed(table)
    ensures var e, r := Run(table, events), Run(table, events + [Event(false, x)]);
            r.trace == e.trace + ReleaseActs(table, e, x) && r.suppressed == Others(e.suppressed, [x.key]) &&
            forall a | 0 <= a < |table| :: r.rts[a].active <==> e.rts[a].active && !EndsNow(table[a], e.rts[a], x)
  {
    var e := Run(table, events);
    assert (events + [Event(false, x)])[..|events|] == events;
    assert Run(table, events + [Event(false, x)]) == Process(table, e, false, x).e;
    if table == [] {
      NothingWithoutCombos(events);
    } else {
      hide Run, ReleaseFrom, Unsuppress, EndsNow, TypedLate, Others, ReleaseCombo;
      assert e.trace + [] == e.trace && EndingActs(table, e.rts, x, 0) == [];
      ReleaseTrace(table, e, e, 0, x);
      var released := ReleaseFrom(table, e, 0, x);
      UnsuppressIs(released, x.key, 0);
      assert e.suppressed[0..] == e.suppressed && e.suppressed[..0] == [];
      assert e.trace + EndingActs(table, e.rts, x, |table|) + TypedLate(e.suppressed, x.key) ==
             e.trace + ReleaseActs(table, e, x);
      forall a | 0 <= a < |table|
        ensures Process(table, e, false, x).e.rts[a].active <==> e.rts[a].active && !EndsNow(table[a], e.rts[a], x)
      {
        ReleaseIs(table, e, x, a);
        EndsIs(table, e, a, x);
      }
    }
  }

  // ---------- Main results: no change goes untold ----------

  lemma {:induction false} EndedShows(table: Table, actives: seq<bool>, i: nat, j: nat, a: nat)
    requires |actives| == |table| && i < |table| && a < j <= |table| && actives[a] && Over(table, a, i)
    ensures Act(table[a].action, false) in EndedBy(table, actives, i, j)
  {
    hide Over;
    if a < j - 1 {
      EndedShows(table, actives, i, j - 1, a);
    }
  }

  lemma FiringShows(table: Table, actives: seq<bool>, m: nat, x: Context, a: nat)
    requires |actives| == |table| && m < |table| && a < |table|
    ensures Act(table[m].action, true) in FiringActs(table, actives, m, x)
    ensures actives[a] && Over(table, a, m) ==> Act(table[a].action, false) in FiringActs(table, actives, m, x)
  {
    hide EndedBy, KeysUp, Over;
    if actives[a] && Over(table, a, m) {
      EndedShows(table, actives, m, |table|, a);
    }
  }

  lemma {:induction false} FiredShows(table: Table, rts: seq<Rt>, x: Context, j: nat, a: nat)
    requires Shaped(table, rts) && a < j <= |table| && Fires(table, rts, x, a)
    ensures Act(table[a].action, true) in FiredActs(table, rts, x, j)
  {
    hide Fires, FiringActs, ActivesAt;
    if a < j - 1 {
      FiredShows(table, rts, x, j - 1, a);
    } else {
      FiringShows(table, ActivesAt(table, rts, x, a), a, x, a);
    }
  }

  lemma {:induction false} CutShows(table: Table, rts: seq<Rt>, x: Context, j: nat, a: nat)
    requires Shaped(table, rts) && j <= |table| && a < |table| && rts[a].active && !ActiveAt(table, rts, x, j, a)
    ensures Act(table[a].action, false) in FiredActs(table, rts, x, j)
  {
    hide Fires, Over, FiringActs;
    if j > 0 {
      hide ActiveAt;
      ActiveNext(table, rts, x, j - 1, a);
      if ActiveAt(table, rts, x, j - 1, a) {
        FiringShows(table, ActivesAt(table, rts, x, j - 1), j - 1, x, a);
      } else {
        CutShows(table, rts, x, j - 1, a);
      }
    }
  }

  lemma {:induction false} EndingShows(table: Table, rts: seq<Rt>, x: Context, j: nat, a: nat)
    requires Shaped(table, rts) && a < j <= |table| && EndsNow(table[a], rts[a], x)
    ensures Act(table[a].action, false) in EndingActs(table, rts, x, j)
  {
    hide EndsNow;
    if a < j - 1 {
      EndingShows(table, rts, x, j - 1, a);
    }
  }

  /** Over every run: a combo that an event makes active gets its action pressed in that
      event, and one that an event ends gets its action released in that event. */
  lemma {:induction false} ChangesAreTold(table: Table, events: seq<Event>, event: Event, a: nat)
    requires WellFormed(table) && a < |table|
    ensures var e, r := Run(table, events), Run(table, events + [event]);
            |e.trace| <= |r.trace| && r.trace[..|e.trace|] == e.trace &&
            (!e.rts[a].active && r.rts[a].active ==> Act(table[a].action, true) in r.trace[|e.trace|..]) &&
            (e.rts[a].active && !r.rts[a].active ==> Act(table[a].action, false) in r.trace[|e.trace|..])
  {
    var e, r, x := Run(table, events), Run(table, events + [event]), event.x;
    assert event == Event(event.pressed, x);
    hide Run, Fires, EndsNow, Typed, TypedLate, Delays, ConsumedBefore, Kept;
    if event.pressed {
      PressDispatches(table, events, x);
      if e.rts[a].active && !r.rts[a].active {
        CutShows(table, e.rts, x, |table|, a);
      }
      if Fires(table, e.rts, x, a) {
        FiredShows(table, e.rts, x, |table|, a);
      }
      assert r.trace[|e.trace|..] == PressActs(table, e, x);
    } else {
      ReleaseDispatches(table, events, x);
      if EndsNow(table[a], e.rts[a], x) {
        EndingShows(table, e.rts, x, |table|, a);
      }
      assert r.trace[|e.trace|..] == ReleaseActs(table, e, x);
    }
  }
}
