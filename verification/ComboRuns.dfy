/** What the combo engine keeps in every reachable state. */
module ComboRuns {
  import opened Combo

  function Trues(bits: seq<bool>): nat {
    if bits == [] then 0 else Trues(bits[..|bits| - 1]) + if bits[|bits| - 1] then 1 else 0
  }

  lemma {:induction false} TruesUpdate(bits: seq<bool>, k: nat, b: bool)
    requires k < |bits|
    ensures Trues(bits[k := b]) == Trues(bits) - (if bits[k] then 1 else 0) + (if b then 1 else 0)
  {
    var m := |bits| - 1;
    if k < m {
      TruesUpdate(bits[..m], k, b);
      assert bits[k := b][..m] == bits[..m][k := b];
    } else {
      assert bits[k := b][..m] == bits[..m];
    }
  }

  /** Records stand only where a trigger key is found, and an active combo has a layer. */
  predicate Placed(c: Definition, rt: Rt) {
    (forall k | 0 <= k < |rt.pressed| && rt.pressed[k] :: k < |c.keys| && Trigger(c.keys, c.keys[k], 0) == k) &&
    (rt.active ==> c.layers != {})
  }

  /** matched_count is the number of recorded keys; an active combo that does not
      insist on order has one. */
  predicate RtGood(c: Definition, rt: Rt) {
    rt.matched == Trues(rt.pressed) && (rt.active && !c.strict ==> rt.matched > 0) && Placed(c, rt)
  }

  /** No active combo has all its keys in a longer active one. */
  predicate Antichain(table: Table, rts: seq<Rt>)
    requires |rts| == |table|
  {
    forall i, j | 0 <= i < |table| && 0 <= j < |table| && rts[i].active :: !Subsumes(table, rts, i, j)
  }

  predicate Inv(table: Table, rts: seq<Rt>) {
    Shaped(table, rts) && Antichain(table, rts) && forall i | 0 <= i < |table| :: RtGood(table[i], rts[i])
  }

  /** Cancelling deactivates exactly the cancelled combos and changes nothing else. */
  lemma {:induction false} CancelledAre(table: Table, e: Engine, i: nat, j: nat)
    requires Shaped(table, e.rts) && i < |table| && j <= |table|
    ensures var r := CancelFrom(table, e, i, j).rts;
            forall m | 0 <= m < |table| ::
              r[m] == if m >= j && Cancels(table, e.rts, i, m) then e.rts[m].(active := false) else e.rts[m]
    decreases |table| - j
  {
    hide Subset;
    if j < |table| {
      if Cancels(table, e.rts, i, j) {
        CancelledAre(table, Act1(e, table[j].action, false).(rts := e.rts[j := e.rts[j].(active := false)]), i, j + 1);
      } else {
        CancelledAre(table, e, i, j + 1);
      }
    }
  }

  lemma FireKeeps(table: Table, e: Engine, i: nat, x: Context)
    requires Inv(table, e.rts) && i < |table| && !Subsumed(table, e.rts, i) && e.rts[i].matched > 0 && table[i].layers != {}
    ensures Inv(table, Fire(table, e, i, x).rts)
  {
    hide CancelFrom, Subset, Trues;
    CancelledAre(table, e, i, 0);
    var r := Fire(table, e, i, x).rts;
    forall m | 0 <= m < |table|
      ensures r[m].pressed == e.rts[m].pressed && r[m].matched == e.rts[m].matched
      ensures r[m].active <==> m == i || (e.rts[m].active && !Cancels(table, e.rts, i, m))
    {
    }
    forall a, b | 0 <= a < |table| && 0 <= b < |table| && r[a].active ensures !Subsumes(table, r, a, b) {
      assert Subsumes(table, r, a, b) && b != i ==> Subsumes(table, e.rts, a, b);
    }
    assert forall m | 0 <= m < |table| :: RtGood(table[m], e.rts[m]);
  }

  /** A change of the records of one combo that does not activate it. */
  lemma RecordKeeps(table: Table, rts: seq<Rt>, i: nat, rt: Rt)
    requires Inv(table, rts) && i < |table| && RtGood(table[i], rt) && (rt.active ==> rts[i].active) && |rt.pressed| == CFG_COMBO_MAX_KEYS
    ensures Inv(table, rts[i := rt])
  {
    hide Subset, Trues, RtGood;
    var r := rts[i := rt];
    forall a, b | 0 <= a < |table| && 0 <= b < |table| && r[a].active ensures !Subsumes(table, r, a, b) {
      assert Subsumes(table, r, a, b) ==> Subsumes(table, rts, a, b);
    }
  }

  lemma PressComboKeeps(table: Table, e: Engine, i: nat, x: Context)
    requires Inv(table, e.rts) && i < |table|
    ensures Inv(table, PressCombo(table, e, i, x).e.rts)
  {
    var k := Trigger(table[i].keys, x.key, 0);
    var rt := e.rts[i];
    assert RtGood(table[i], rt);
    hide Trigger, Fire, Subsumed, Inv;
    if k < |table[i].keys| && table[i].layers * x.mask != {} {
      assert Inv(table, e.rts);
      assert |rt.pressed| == CFG_COMBO_MAX_KEYS && |table[i].keys| <= CFG_COMBO_MAX_KEYS by {
        InvShape(table, e.rts, i);
      }
      TruesUpdate(rt.pressed, k, true);
      assert Trues(NO_KEYS) == 0 by {
        NoTrues(NO_KEYS);
      }
      hide Trues;
      if table[i].strict && k != rt.matched {
        RecordKeeps(table, e.rts, i, Rt(NO_KEYS, 0, rt.active));
      } else {
        var f := e.(rts := e.rts[i := Recorded(rt, k)]);
        RecordKeeps(table, e.rts, i, Recorded(rt, k));
        if Recorded(rt, k).matched == |table[i].keys| && !Subsumed(table, f.rts, i) {
          FireKeeps(table, f, i, x);
        }
      }
    }
  }

  lemma InvShape(table: Table, rts: seq<Rt>, i: nat)
    requires Inv(table, rts) && i < |table|
    ensures |rts[i].pressed| == CFG_COMBO_MAX_KEYS && |table[i].keys| <= CFG_COMBO_MAX_KEYS && RtGood(table[i], rts[i])
  {
  }

  lemma {:induction false} NoTrues(bits: seq<bool>)
    requires forall i | 0 <= i < |bits| :: !bits[i]
    ensures Trues(bits) == 0
  {
    if bits != [] {
      NoTrues(bits[..|bits| - 1]);
    }
  }

  lemma {:induction false} PressKeeps(table: Table, e: Engine, i: nat, x: Context, waits: bool)
    requires Inv(table, e.rts) && i <= |table|
    ensures Inv(table, PressFrom(table, e, i, x, waits).e.rts)
    decreases |table| - i
  {
    hide PressCombo, FinishPress, Antichain, RtGood;
    if i < |table| {
      PressComboKeeps(table, e, i, x);
      var h := PressCombo(table, e, i, x);
      if !h.consumed {
        PressKeeps(table, h.e, i + 1, x, waits || h.waits);
      }
    }
  }

  lemma ReleaseComboKeeps(table: Table, e: Engine, i: nat, x: Context)
    requires Inv(table, e.rts) && i < |table|
    ensures Inv(table, ReleaseCombo(table, e, i, x).rts)
  {
    var k := Trigger(table[i].keys, x.key, 0);
    var rt := e.rts[i];
    InvShape(table, e.rts, i);
    hide Trigger, Antichain;
    if k < |table[i].keys| && rt.pressed[k] {
      TruesUpdate(rt.pressed, k, false);
      hide Trues, Inv;
      var left := Unrecorded(rt, k);
      if left.active && (table[i].releaseFirst || left.matched == 0) {
        RecordKeeps(table, e.rts, i, left.(active := false));
      } else {
        RecordKeeps(table, e.rts, i, left);
      }
    }
  }

  lemma {:induction false} ReleaseKeeps(table: Table, e: Engine, i: nat, x: Context)
    requires Inv(table, e.rts) && i <= |table|
    ensures Inv(table, ReleaseFrom(table, e, i, x).rts)
    decreases |table| - i
  {
    hide ReleaseCombo, Antichain, RtGood;
    if i < |table| {
      ReleaseComboKeeps(table, e, i, x);
      ReleaseKeeps(table, ReleaseCombo(table, e, i, x), i + 1, x);
    }
  }

  // ---------- Runs ----------

  datatype Event = Event(pressed: bool, x: Context)

  function Run(table: Table, events: seq<Event>): (e: Engine)
    requires WellFormed(table)
    ensures Shaped(table, e.rts)
  {
    if events == [] then Reset(table)
    else
      var last := events[|events| - 1];
      Process(table, Run(table, events[..|events| - 1]), last.pressed, last.x).e
  }

  lemma {:induction false} RunGood(table: Table, events: seq<Event>)
    requires WellFormed(table)
    ensures Inv(table, Run(table, events).rts)
  {
    if events == [] {
      NoTrues(NO_KEYS);
    } else {
      var last := events[|events| - 1];
      var before := Run(table, events[..|events| - 1]);
      RunGood(table, events[..|events| - 1]);
      hide Inv, PressFrom, ReleaseFrom, Unsuppress;
      if last.pressed {
        PressKeeps(table, before, 0, last.x, false);
      } else {
        ReleaseKeeps(table, before, 0, last.x);
      }
    }
  }

  // ---------- Main results ----------

  /** In every reachable state matched_count is the number of recorded trigger keys. */
  lemma MatchedCountsRecordedKeys(table: Table, events: seq<Event>, i: nat)
    requires WellFormed(table) && i < |table|
    ensures var rt := Run(table, events).rts[i]; rt.matched == Trues(rt.pressed) <= CFG_COMBO_MAX_KEYS
  {
    RunGood(table, events);
    InvShape(table, Run(table, events).rts, i);
    TruesAtMost(Run(table, events).rts[i].pressed);
    hide Run, Trues, Inv;
  }

  lemma {:induction false} TruesAtMost(bits: seq<bool>)
    ensures Trues(bits) <= |bits|
  {
    if bits != [] {
      TruesAtMost(bits[..|bits| - 1]);
    }
  }

  /** In every reachable state no active combo has all its keys in a longer active one. */
  lemma LongestActiveOnly(table: Table, events: seq<Event>, i: nat, j: nat)
    requires WellFormed(table) && i < |table| && j < |table|
    requires var rts := Run(table, events).rts; rts[i].active && rts[j].active && |table[i].keys| < |table[j].keys|
    ensures exists k :: 0 <= k < |table[i].keys| && table[i].keys[k] !in table[j].keys
  {
    RunGood(table, events);
    var rts := Run(table, events).rts;
    assert Antichain(table, rts);
    assert !Subsumes(table, rts, i, j);
    hide Run;
  }

  /** An active combo that does not insist on order has a recorded key. */
  lemma ActiveHasKey(table: Table, events: seq<Event>, i: nat)
    requires WellFormed(table) && i < |table| && !table[i].strict && Run(table, events).rts[i].active
    ensures exists k :: 0 <= k < CFG_COMBO_MAX_KEYS && Run(table, events).rts[i].pressed[k]
  {
    RunGood(table, events);
    var rt := Run(table, events).rts[i];
    InvShape(table, Run(table, events).rts, i);
    hide Run, Inv;
    if forall k | 0 <= k < CFG_COMBO_MAX_KEYS :: !rt.pressed[k] {
      NoTrues(rt.pressed);
    }
  }

  // ---------- When releases end a combo ----------

  function ReleaseAll(table: Table, e: Engine, releases: seq<Context>): (r: Engine)
    requires Shaped(table, e.rts)
    ensures Shaped(table, r.rts)
  {
    if releases == [] then e
    else Process(table, ReleaseAll(table, e, releases[..|releases| - 1]), false, releases[|releases| - 1]).e
  }

  /** What releasing a key does to one combo, whatever the other combos are. */
  lemma {:induction false} ReleaseFromIs(table: Table, e: Engine, j: nat, x: Context, i: nat)
    requires Shaped(table, e.rts) && i < |table| && j <= |table|
    ensures ReleaseFrom(table, e, j, x).rts[i] == if j <= i then ReleaseCombo(table, e, i, x).rts[i] else e.rts[i]
    decreases |table| - j
  {
    hide Trigger;
    if j < |table| {
      ReleaseFromIs(table, ReleaseCombo(table, e, j, x), j + 1, x, i);
    }
  }

  lemma ReleaseIs(table: Table, e: Engine, x: Context, i: nat)
    requires Shaped(table, e.rts) && i < |table|
    ensures Process(table, e, false, x).e.rts[i] == ReleaseCombo(table, e, i, x).rts[i]
  {
    ReleaseFromIs(table, e, 0, x, i);
    hide ReleaseFrom, ReleaseCombo, Unsuppress;
  }

  /** The release is seen by the combo, as one of its trigger key k. */
  predicate Frees(c: Definition, x: Context, k: nat) {
    c.layers * x.mask != {} && Trigger(c.keys, x.key, 0) == k
  }

  predicate Freed(c: Definition, releases: seq<Context>, k: nat) {
    exists n | 0 <= n < |releases| :: Frees(c, releases[n], k)
  }

  predicate SomeFreed(c: Definition, rt: Rt, releases: seq<Context>) {
    exists k | 0 <= k < |rt.pressed| :: rt.pressed[k] && Freed(c, releases, k)
  }

  predicate AllFreed(c: Definition, rt: Rt, releases: seq<Context>) {
    forall k | 0 <= k < |rt.pressed| && rt.pressed[k] :: Freed(c, releases, k)
  }

  lemma FreedNext(c: Definition, releases: seq<Context>, x: Context, k: nat)
    ensures Freed(c, releases + [x], k) <==> Freed(c, releases, k) || Frees(c, x, k)
  {
    hide Frees;
    var all := releases + [x];
    assert all[|releases|] == x;
    if Freed(c, releases, k) {
      var n :| 0 <= n < |releases| && Frees(c, releases[n], k);
      assert all[n] == releases[n];
    }
  }

  lemma NoneLeftIff(bits: seq<bool>)
    ensures Trues(bits) == 0 <==> forall k | 0 <= k < |bits| :: !bits[k]
  {
    if k :| 0 <= k < |bits| && bits[k] {
      TruesUpdate(bits, k, false);
    } else {
      NoTrues(bits);
    }
    hide Trues;
  }

  /** One combo before and after some releases. */
  predicate Released(c: Definition, rt: Rt, releases: seq<Context>, t: Rt)
    requires |rt.pressed| == |t.pressed|
  {
    (forall k | 0 <= k < |rt.pressed| :: t.pressed[k] == (rt.pressed[k] && !Freed(c, releases, k))) &&
    t.matched == Trues(t.pressed) &&
    (t.active <==> !(rt.matched > 0 && if c.releaseFirst then SomeFreed(c, rt, releases) else AllFreed(c, rt, releases)))
  }

  lemma ReleasedNext(table: Table, e: Engine, i: nat, x: Context, rt: Rt, releases: seq<Context>)
    requires Shaped(table, e.rts) && i < |table| && |rt.pressed| == CFG_COMBO_MAX_KEYS && RtGood(table[i], rt) && rt.active
    requires Released(table[i], rt, releases, e.rts[i])
    ensures Released(table[i], rt, releases + [x], ReleaseCombo(table, e, i, x).rts[i])
  {
    hide Trigger, Trues, Freed, SomeFreed;
    var c, before, after := table[i], e.rts[i], ReleaseCombo(table, e, i, x).rts[i];
    var hit := Trigger(c.keys, x.key, 0);
    forall k | 0 <= k < |rt.pressed|
      ensures Freed(c, releases + [x], k) <==> Freed(c, releases, k) || Frees(c, x, k)
    {
      FreedNext(c, releases, x, k);
    }
    if c.layers * x.mask != {} && hit < |c.keys| && before.pressed[hit] {
      TruesUpdate(before.pressed, hit, false);
      NoneLeftIff(after.pressed);
      NoneLeftIff(before.pressed);
      NoneLeftIff(rt.pressed);
      ReleasedHit(c, rt, releases, x, hit, after);
    } else {
      assert forall k | 0 <= k < |rt.pressed| && rt.pressed[k] :: Freed(c, releases + [x], k) == Freed(c, releases, k);
      FreedSame(c, rt, releases, releases + [x]);
    }
  }

  lemma FreedSame(c: Definition, rt: Rt, a: seq<Context>, b: seq<Context>)
    requires forall k | 0 <= k < |rt.pressed| && rt.pressed[k] :: Freed(c, a, k) == Freed(c, b, k)
    ensures SomeFreed(c, rt, a) == SomeFreed(c, rt, b) && AllFreed(c, rt, a) == AllFreed(c, rt, b)
  {
    hide Freed;
  }

  /** A recorded key that is freed: some are freed now, and all exactly when none is left. */
  lemma ReleasedHit(c: Definition, rt: Rt, releases: seq<Context>, x: Context, hit: nat, after: Rt)
    requires hit < |rt.pressed| == |after.pressed| && rt.pressed[hit] && Frees(c, x, hit)
    requires forall k | 0 <= k < |rt.pressed| :: after.pressed[k] == (rt.pressed[k] && !Freed(c, releases + [x], k))
    ensures SomeFreed(c, rt, releases + [x])
    ensures AllFreed(c, rt, releases + [x]) <==> forall k | 0 <= k < |after.pressed| :: !after.pressed[k]
  {
    FreedNext(c, releases, x, hit);
    hide Freed, Frees;
  }

  lemma {:induction false} AllReleased(table: Table, e: Engine, i: nat, releases: seq<Context>)
    requires Inv(table, e.rts) && i < |table| && e.rts[i].active
    ensures |ReleaseAll(table, e, releases).rts[i].pressed| == |e.rts[i].pressed|
    ensures Released(table[i], e.rts[i], releases, ReleaseAll(table, e, releases).rts[i])
  {
    assert Shaped(table, e.rts);
    hide Trues, Trigger, Process, ReleaseCombo, Inv;
    InvShape(table, e.rts, i);
    var rt := e.rts[i];
    if releases == [] {
      NoneLeftIff(rt.pressed);
      assert forall k :: !Freed(table[i], [], k);
    } else {
      var front, x := releases[..|releases| - 1], releases[|releases| - 1];
      AllReleased(table, e, i, front);
      var before := ReleaseAll(table, e, front);
      hide Released;
      ReleasedNext(table, before, i, x, rt, front);
      ReleaseIs(table, before, x, i);
      assert front + [x] == releases;
    }
  }

  /** In every reachable state, for all releases: an active combo ends exactly when some
      key of it is recorded and the releases that it sees, under a mask with a layer of
      it, free one recorded key or, unless it goes by the first release, all of them. */
  lemma EndsIff(table: Table, events: seq<Event>, i: nat, releases: seq<Context>)
    requires WellFormed(table) && i < |table| && Run(table, events).rts[i].active
    ensures var c, rt := table[i], Run(table, events).rts[i];
            !ReleaseAll(table, Run(table, events), releases).rts[i].active <==>
            rt.matched > 0 && if c.releaseFirst then SomeFreed(c, rt, releases) else AllFreed(c, rt, releases)
  {
    RunGood(table, events);
    AllReleased(table, Run(table, events), i, releases);
    hide Run, ReleaseAll, SomeFreed, AllFreed, Inv;
  }

  /** A key event at which no key has an action of its own. */
  function At(key: Key, mask: set<nat>): Context {
    Context(key, mask, 0, (k, m) => ACTION_CODE_NONE)
  }

  /** So an active combo can be ended by releases if and only if a key of it is recorded. */
  lemma ReleasesEndIff(table: Table, events: seq<Event>, i: nat)
    requires WellFormed(table) && i < |table| && Run(table, events).rts[i].active
    ensures (exists releases :: !ReleaseAll(table, Run(table, events), releases).rts[i].active) <==>
            Run(table, events).rts[i].matched > 0
  {
    var c, rt := table[i], Run(table, events).rts[i];
    forall releases ensures !ReleaseAll(table, Run(table, events), releases).rts[i].active ==> rt.matched > 0 {
      EndsIff(table, events, i, releases);
    }
    if rt.matched > 0 {
      RunGood(table, events);
      InvShape(table, Run(table, events).rts, i);
      hide Run, Inv, ReleaseAll, Trigger;
      var releases := seq(|c.keys|, k requires 0 <= k < |c.keys| => At(c.keys[k], c.layers));
      assert c.layers * c.layers == c.layers;
      forall k | 0 <= k < |rt.pressed| && rt.pressed[k] ensures Freed(c, releases, k) {
        assert Placed(c, rt);
        assert Frees(c, releases[k], k);
      }
      NoneLeftIff(rt.pressed);
      EndsIff(table, events, i, releases);
    }
  }

  /** What an event does to a combo that is alone in the table. */
  lemma Alone(c: Definition, events: seq<Event>, pressed: bool, x: Context)
    requires WellFormed([c])
    ensures var e := Run([c], events);
            Run([c], events + [Event(pressed, x)]).rts[0] ==
            if pressed then PressCombo([c], e, 0, x).e.rts[0] else ReleaseCombo([c], e, 0, x).rts[0]
  {
    var e := Run([c], events);
    assert (events + [Event(pressed, x)])[..|events|] == events;
    hide PressCombo, ReleaseCombo, FinishPress, Unsuppress;
    if pressed {
      var h := PressCombo([c], e, 0, x);
      assert PressFrom([c], h.e, 1, x, h.waits) == FinishPress(h.e, x, h.waits);
    } else {
      ReleaseIs([c], e, x, 0);
    }
  }

  /** It fires when its last key is recorded. */
  lemma AloneFires(c: Definition, e: Engine, x: Context)
    requires Shaped([c], e.rts)
    ensures Fire([c], e, 0, x).rts[0] == e.rts[0].(active := true) && !Subsumed([c], e.rts, 0)
  {
    CancelledAre([c], e, 0, 0);
    hide CancelFrom, Subset;
  }

  /** Pressing both keys of a combo of two, on a layer of it. */
  lemma BothPressed(c: Definition) returns (events: seq<Event>)
    requires |c.keys| == 2 && c.keys[0] != c.keys[1] && c.layers != {}
    ensures Trigger(c.keys, c.keys[0], 0) == 0 && Trigger(c.keys, c.keys[1], 0) == 1
    ensures Run([c], events).rts[0] == Rt(NO_KEYS[0 := true][1 := true], 2, true)
  {
    var a, b := At(c.keys[0], c.layers), At(c.keys[1], c.layers);
    assert c.layers * c.layers == c.layers;
    assert Trigger(c.keys, c.keys[0], 0) == 0 && Trigger(c.keys, c.keys[1], 0) == Trigger(c.keys, c.keys[1], 1) == 1;
    events := [];
    assert Run([c], events).rts[0] == Rt(NO_KEYS, 0, false);
    hide Run, Fire, Trigger, Subsumed;
    Alone(c, events, true, a);
    events := events + [Event(true, a)];
    var one := Run([c], events);
    assert one.rts[0] == Rt(NO_KEYS[0 := true], 1, false);
    Alone(c, events, true, b);
    AloneFires(c, one.(rts := one.rts[0 := Recorded(one.rts[0], 1)]), b);
    events := events + [Event(true, b)];
  }

  /** A combo that insists on order can be left active without a record: press both keys,
      release the first and press it again. */
  lemma StuckComboReachable(c: Definition) returns (events: seq<Event>)
    requires c.strict && !c.releaseFirst && |c.keys| == 2 && c.keys[0] != c.keys[1] && c.layers != {}
    ensures Run([c], events).rts[0] == Rt(NO_KEYS, 0, true)
  {
    hide Run, Fire, Trigger, Subsumed;
    events := BothPressed(c);
    var a := At(c.keys[0], c.layers);
    assert c.layers * c.layers == c.layers;
    Alone(c, events, false, a);
    events := events + [Event(false, a)];
    assert Run([c], events).rts[0] == Rt(NO_KEYS[1 := true], 1, true);
    Alone(c, events, true, a);
    events := events + [Event(true, a)];
  }

  /** Any combo of two keys stays active with both keys up: press both, leave its layers,
      and release both. */
  lemma HeldThoughReleased(c: Definition, mask: set<nat>) returns (events: seq<Event>)
    requires |c.keys| == 2 && c.keys[0] != c.keys[1] && c.layers != {} && c.layers * mask == {}
    ensures |events| >= 2 && events[|events| - 2..] == [Event(false, At(c.keys[0], mask)), Event(false, At(c.keys[1], mask))]
    ensures Run([c], events).rts[0] == Rt(NO_KEYS[0 := true][1 := true], 2, true)
  {
    hide Run, Fire, Trigger, Subsumed;
    events := BothPressed(c);
    var a, b := Event(false, At(c.keys[0], mask)), Event(false, At(c.keys[1], mask));
    Alone(c, events, false, a.x);
    events := events + [a];
    Alone(c, events, false, b.x);
    events := events + [b];
    assert events[|events| - 2..] == [a, b];
  }

  // ---------- Which presses take the records of a combo ----------

  /** What a press that reaches a combo does to its records. */
  function Touched(c: Definition, rt: Rt, x: Context): (t: Rt)
    requires |c.keys| <= CFG_COMBO_MAX_KEYS == |rt.pressed|
    ensures t.active == rt.active
  {
    var k := Trigger(c.keys, x.key, 0);
    if c.layers * x.mask == {} || k == |c.keys| then rt
    else if c.strict && k != rt.matched then Rt(NO_KEYS, 0, rt.active)
    else Recorded(rt, k)
  }

  /** The press completes the combo. */
  predicate Completes(c: Definition, rt: Rt, x: Context)
    requires |c.keys| <= CFG_COMBO_MAX_KEYS == |rt.pressed|
  {
    var k := Trigger(c.keys, x.key, 0);
    c.layers * x.mask != {} && k < |c.keys| && !(c.strict && k != rt.matched) && Recorded(rt, k).matched == |c.keys|
  }

  /** Combo m is longer than combo a and has all its keys. */
  predicate Over(table: Table, a: nat, m: nat)
    requires a < |table| && m < |table|
  {
    |table[m].keys| > |table[a].keys| && Subset(table[a], table[m])
  }

  lemma OverTransitive(table: Table, a: nat, b: nat, c: nat)
    requires a < |table| && b < |table| && c < |table| && Over(table, a, b) && Over(table, b, c)
    ensures Over(table, a, c)
  {
    forall i | 0 <= i < |table[a].keys| ensures table[a].keys[i] in table[c].keys {
      var j :| 0 <= j < |table[b].keys| && table[b].keys[j] == table[a].keys[i];
    }
  }

  /** Before the press, seen for the turn of combo a after the first j: a longer combo
      with all its keys is active, or is among the first j and completed by the press. */
  predicate Shadowed(table: Table, rts: seq<Rt>, x: Context, a: nat, j: nat)
    requires Shaped(table, rts) && a < |table| && j <= |table|
  {
    exists m | 0 <= m < |table| :: Over(table, a, m) && (rts[m].active || (m < j && Completes(table[m], rts[m], x)))
  }

  /** Told from the state before the press: combo j, if its turn comes, consumes it. */
  predicate Consumes(table: Table, rts: seq<Rt>, x: Context, j: nat)
    requires Shaped(table, rts) && j < |table|
  {
    table[j].delayed && Completes(table[j], rts[j], x) && !Shadowed(table, rts, x, j, j)
  }

  /** The loop of kb_combo_process_key for a press, after the first j combos. */
  function Loop(table: Table, e: Engine, x: Context, j: nat): (h: Hit)
    requires Shaped(table, e.rts) && j <= |table|
    ensures Shaped(table, h.e.rts)
  {
    if j == 0 then Hit(e, false, false)
    else
      var h := Loop(table, e, x, j - 1);
      if h.consumed then h
      else
        var next := PressCombo(table, h.e, j - 1, x);
        Hit(next.e, h.waits || next.waits, next.consumed)
  }

  lemma {:induction false} LoopIs(table: Table, e: Engine, x: Context, j: nat)
    requires Shaped(table, e.rts) && j <= |table|
    ensures var h := Loop(table, e, x, j);
            PressFrom(table, e, 0, x, false) == if h.consumed then Reply(h.e, true) else PressFrom(table, h.e, j, x, h.waits)
  {
    hide PressCombo, FinishPress, Shaped;
    if j > 0 {
      LoopIs(table, e, x, j - 1);
    }
  }

  lemma PressIs(table: Table, e: Engine, x: Context)
    requires Shaped(table, e.rts) && table != []
    ensures Process(table, e, true, x).e.rts == Loop(table, e, x, |table|).e.rts
  {
    LoopIs(table, e, x, |table|);
    hide Loop;
  }

  /** The turn of combo j in terms of its records and of who shadows it. */
  lemma TurnIs(table: Table, e: Engine, j: nat, x: Context)
    requires Shaped(table, e.rts) && j < |table|
    ensures var h := PressCombo(table, e, j, x);
            var fires := Completes(table[j], e.rts[j], x) && !Subsumed(table, e.rts, j);
            h.consumed == (table[j].delayed && fires) &&
            forall m | 0 <= m < |table| ::
              h.e.rts[m] == (if m == j then Touched(table[j], e.rts[j], x) else e.rts[m]).(
                active := if fires && m == j then true else e.rts[m].active && !(fires && Over(table, m, j)))
  {
    var c, rt, k := table[j], e.rts[j], Trigger(table[j].keys, x.key, 0);
    hide Trigger, Subset;
    if c.layers * x.mask != {} && k < |c.keys| && !(c.strict && k != rt.matched) {
      var f := e.(rts := e.rts[j := Recorded(rt, k)]);
      CancelledAre(table, f, j, 0);
      assert Subsumed(table, f.rts, j) == Subsumed(table, e.rts, j) by {
        assert forall m | 0 <= m < |table| :: Subsumes(table, f.rts, j, m) == Subsumes(table, e.rts, j, m);
      }
      hide CancelFrom, Subsumed;
    }
  }

  /** Firing combo j shadows exactly those that it is over, on top of those shadowed
      before: a longer combo that it cancels lies under it. */
  lemma ShadowsNext(table: Table, now: seq<Rt>, next: seq<Rt>, j: nat, completes: bool, a: nat)
    requires |now| == |next| == |table| && j < |table| && a < |table|
    requires var fires := completes && !Subsumed(table, now, j);
             forall m | 0 <= m < |table| ::
               next[m].active == if fires && m == j then true else now[m].active && !(fires && Over(table, m, j))
    ensures Subsumed(table, next, a) <==> Subsumed(table, now, a) || (completes && Over(table, a, j))
  {
    hide Subset;
    forall m | 0 <= m < |table| ensures Over(table, a, m) && Over(table, m, j) ==> Over(table, a, j) {
      if Over(table, a, m) && Over(table, m, j) {
        OverTransitive(table, a, m, j);
      }
    }
    forall m | 0 <= m < |table| ensures Over(table, a, j) && Over(table, j, m) ==> Over(table, a, m) {
      if Over(table, a, j) && Over(table, j, m) {
        OverTransitive(table, a, j, m);
      }
    }
    assert forall m | 0 <= m < |table| :: Subsumes(table, now, a, m) == (now[m].active && Over(table, a, m));
    assert forall m | 0 <= m < |table| :: Subsumes(table, now, j, m) == (now[m].active && Over(table, j, m));
    assert forall m | 0 <= m < |table| :: Subsumes(table, next, a, m) == (next[m].active && Over(table, a, m));
    hide Over, Subsumes;
    if Subsumed(table, now, a) {
      var m :| 0 <= m < |table| && Subsumes(table, now, a, m);
      assert Subsumes(table, next, a, m) || Subsumes(table, next, a, j);
    }
    if completes && Over(table, a, j) {
      if m :| 0 <= m < |table| && Subsumes(table, now, j, m) {
        assert Subsumes(table, next, a, m);
      } else {
        assert Subsumes(table, next, a, j);
      }
    }
  }

  predicate ConsumedBefore(table: Table, rts: seq<Rt>, x: Context, j: nat)
    requires Shaped(table, rts) && j <= |table|
  {
    exists m | 0 <= m < j :: Consumes(table, rts, x, m)
  }

  predicate SameRecords(a: Rt, b: Rt) {
    a.pressed == b.pressed && a.matched == b.matched
  }

  /** The loop after j combos, told from the state before the press. */
  ghost predicate LoopGood(table: Table, e: Engine, x: Context, j: nat)
    requires Shaped(table, e.rts) && j <= |table|
  {
    var h := Loop(table, e, x, j);
    (h.consumed <==> ConsumedBefore(table, e.rts, x, j)) &&
    (forall m | 0 <= m < |table| ::
       SameRecords(h.e.rts[m],
                   if m < j && !ConsumedBefore(table, e.rts, x, m) then Touched(table[m], e.rts[m], x) else e.rts[m])) &&
    (!h.consumed ==> forall a | 0 <= a < |table| :: Subsumed(table, h.e.rts, a) <==> Shadowed(table, e.rts, x, a, j))
  }

  lemma ShadowedNext(table: Table, rts: seq<Rt>, x: Context, a: nat, j: nat)
    requires Shaped(table, rts) && a < |table| && j < |table|
    ensures Shadowed(table, rts, x, a, j + 1) <==>
            Shadowed(table, rts, x, a, j) || (Over(table, a, j) && Completes(table[j], rts[j], x))
  {
    hide Over, Completes;
  }

  lemma ShadowedFirst(table: Table, rts: seq<Rt>, x: Context, a: nat)
    requires Shaped(table, rts) && a < |table|
    ensures Shadowed(table, rts, x, a, 0) <==> Subsumed(table, rts, a)
  {
    assert forall m | 0 <= m < |table| :: Subsumes(table, rts, a, m) == (rts[m].active && Over(table, a, m));
    hide Over, Subsumes, Completes;
  }

  lemma {:induction false} LoopStays(table: Table, e: Engine, x: Context, j: nat)
    requires Shaped(table, e.rts) && j <= |table|
    ensures LoopGood(table, e, x, j)
  {
    hide PressCombo, Subsumed, Shadowed, Touched, Completes;
    if j == 0 {
      forall a | 0 <= a < |table| ensures Subsumed(table, e.rts, a) <==> Shadowed(table, e.rts, x, a, 0) {
        ShadowedFirst(table, e.rts, x, a);
      }
    } else {
      LoopStays(table, e, x, j - 1);
      var h := Loop(table, e, x, j - 1);
      assert ConsumedBefore(table, e.rts, x, j) <==> ConsumedBefore(table, e.rts, x, j - 1) || Consumes(table, e.rts, x, j - 1);
      if !h.consumed {
        TurnIs(table, h.e, j - 1, x);
        SameTurn(table[j - 1], h.e.rts[j - 1], e.rts[j - 1], x);
        var next := PressCombo(table, h.e, j - 1, x).e.rts;
        forall a | 0 <= a < |table| ensures Subsumed(table, next, a) <==> Shadowed(table, e.rts, x, a, j) {
          ShadowsNext(table, h.e.rts, next, j - 1, Completes(table[j - 1], e.rts[j - 1], x), a);
          ShadowedNext(table, e.rts, x, a, j - 1);
        }
      }
    }
  }

  lemma SameTurn(c: Definition, a: Rt, b: Rt, x: Context)
    requires |c.keys| <= CFG_COMBO_MAX_KEYS == |a.pressed| && SameRecords(a, b)
    ensures Completes(c, a, x) == Completes(c, b, x) && SameRecords(Touched(c, a, x), Touched(c, b, x))
  {
    hide Trigger;
  }

  /** In every reachable state and for every press: it takes the records from a combo
      exactly when the combo insists on order, sees the press, has the key but not as its
      next one, and no combo before it consumes the press. */
  lemma PressForgetsIff(table: Table, events: seq<Event>, i: nat, x: Context)
    requires WellFormed(table) && i < |table| && Run(table, events).rts[i].matched > 0
    ensures var c, rts := table[i], Run(table, events).rts;
            var k := Trigger(c.keys, x.key, 0);
            Run(table, events + [Event(true, x)]).rts[i].matched == 0 <==>
            c.strict && c.layers * x.mask != {} && k < |c.keys| && k != rts[i].matched && !ConsumedBefore(table, rts, x, i)
  {
    var e := Run(table, events);
    assert (events + [Event(true, x)])[..|events|] == events;
    assert Run(table, events + [Event(true, x)]) == Process(table, e, true, x).e;
    hide Run, Process, Trigger, Loop, Subsumed, ConsumedBefore;
    PressIs(table, e, x);
    LoopStays(table, e, x, |table|);
    assert SameRecords(Loop(table, e, x, |table|).e.rts[i],
                       if !ConsumedBefore(table, e.rts, x, i) then Touched(table[i], e.rts[i], x) else e.rts[i]);
  }

  // ---------- Discarding suppressed keys ----------

  /** The entries whose keys do not belong to the combo, in order. */
  function Others(s: seq<Suppressed>, keys: seq<Key>): seq<Suppressed> {
    if s == [] then [] else Others(s[..|s| - 1], keys) + if s[|s| - 1].key in keys then [] else [s[|s| - 1]]
  }

  lemma {:induction false} OthersConcat(a: seq<Suppressed>, b: seq<Suppressed>, keys: seq<Key>)
    ensures Others(a + b, keys) == Others(a, keys) + Others(b, keys)
  {
    if b == [] {
      assert a + b == a;
    } else {
      OthersConcat(a, b[..|b| - 1], keys);
      assert (a + b)[..|a + b| - 1] == a + b[..|b| - 1];
    }
  }

  lemma {:induction false} DropIs(s: seq<Suppressed>, key: Key, i: nat)
    requires i <= |s|
    ensures Drop(s, key, i) == s[..i] + Others(s[i..], [key])
    decreases |s| - i
  {
    if i < |s| {
      var here := [s[i]];
      assert s[i..] == here + s[i + 1..];
      OthersConcat(here, s[i + 1..], [key]);
      assert here[..0] == [];
      assert Others(here, [key]) == if s[i].key == key then [] else here;
      hide Others;
      if s[i].key == key {
        DropIs(Without(s, i), key, i);
        assert Without(s, i)[..i] == s[..i] && Without(s, i)[i..] == s[i + 1..];
      } else {
        DropIs(s, key, i + 1);
        assert s[..i + 1] == s[..i] + here;
      }
    }
  }

  lemma {:induction false} OthersTwice(s: seq<Suppressed>, a: seq<Key>, b: seq<Key>)
    ensures Others(Others(s, a), b) == Others(s, a + b)
  {
    if s != [] {
      var m := |s| - 1;
      OthersTwice(s[..m], a, b);
      OthersConcat(Others(s[..m], a), if s[m].key in a then [] else [s[m]], b);
      assert [s[m]][..0] == [];
      assert Others([s[m]], b) == if s[m].key in b then [] else [s[m]];
    }
  }

  /** A triggered combo discards exactly the suppressed entries of its own keys and
      keeps the rest in order. */
  lemma {:induction false} DiscardIs(s: seq<Suppressed>, keys: seq<Key>, k: nat)
    requires k <= |keys|
    ensures Discard(s, keys, k) == Others(s, keys[..k])
  {
    if k == 0 {
      OthersNothing(s);
    } else {
      DiscardIs(s, keys, k - 1);
      var before := Discard(s, keys, k - 1);
      DropIs(before, keys[k - 1], 0);
      OthersTwice(s, keys[..k - 1], [keys[k - 1]]);
      assert keys[..k - 1] + [keys[k - 1]] == keys[..k];
      hide Others, Drop;
      assert before[..0] == [] && before[0..] == before;
    }
  }

  lemma {:induction false} OthersNothing(s: seq<Suppressed>)
    ensures Others(s, []) == s
  {
    if s != [] {
      OthersNothing(s[..|s| - 1]);
    }
  }
}
