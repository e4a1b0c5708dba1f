/** Key combos (components/keyboard/kb_combo.c). */
module Combo {

  const CFG_COMBO_MAX_KEYS: nat := 8
  const MAX_SUPPRESSED: nat := 16
  const ACTION_CODE_NONE: nat := 0

  datatype Key = Key(row: nat, col: nat)

  /** cfg_combo_t; layer masks are the sets of their bits. */
  datatype Definition = Definition(
    keys: seq<Key>,
    action: nat,
    layers: set<nat>,
    strict: bool,
    cancelKeys: bool,
    delayed: bool,
    releaseFirst: bool
  )

  type Table = seq<Definition>

  /** combo_rt_t: which trigger keys are recorded, their number, and whether the combo has fired. */
  datatype Rt = Rt(pressed: seq<bool>, matched: nat, active: bool)

  datatype Suppressed = Suppressed(key: Key, time: int, code: nat, mask: set<nat>)

  datatype Act = Act(code: nat, pressed: bool)

  /** trace is what has gone to kb_macro_process_action. */
  datatype Engine = Engine(rts: seq<Rt>, suppressed: seq<Suppressed>, trace: seq<Act>)

  /** One key event: the layer mask, the time, and the layout at that moment. */
  datatype Context = Context(key: Key, mask: set<nat>, now: int, layout: (Key, set<nat>) -> nat)

  predicate WellFormed(table: Table) {
    forall i | 0 <= i < |table| :: |table[i].keys| <= CFG_COMBO_MAX_KEYS
  }

  predicate Shaped(table: Table, rts: seq<Rt>) {
    WellFormed(table) && |rts| == |table| && forall i | 0 <= i < |rts| :: |rts[i].pressed| == CFG_COMBO_MAX_KEYS
  }

  // ---------- Pieces of kb_combo_process_key ----------

  /** The index of the key among the trigger keys from i on, or their number. */
  function Trigger(keys: seq<Key>, key: Key, i: nat): (k: nat)
    requires i <= |keys|
    ensures i <= k <= |keys| && (k < |keys| ==> keys[k] == key) && forall m | i <= m < k :: keys[m] != key
    decreases |keys| - i
  {
    if i == |keys| || keys[i] == key then i else Trigger(keys, key, i + 1)
  }

  /** is_subset. */
  predicate Subset(sub: Definition, super: Definition) {
    forall i | 0 <= i < |sub.keys| :: sub.keys[i] in super.keys
  }

  const NO_KEYS: seq<bool> := [false, false, false, false, false, false, false, false]

  function Recorded(rt: Rt, k: nat): (r: Rt)
    requires k < |rt.pressed|
    ensures |r.pressed| == |rt.pressed| && r.active == rt.active
  {
    if rt.pressed[k] then rt else rt.(pressed := rt.pressed[k := true], matched := rt.matched + 1)
  }

  function Unrecorded(rt: Rt, k: nat): (r: Rt)
    requires k < |rt.pressed|
    ensures |r.pressed| == |rt.pressed| && r.active == rt.active
  {
    rt.(pressed := rt.pressed[k := false], matched := if rt.matched > 0 then rt.matched - 1 else 0)
  }

  /** Another active combo is longer and has all the keys of combo i. */
  predicate Subsumes(table: Table, rts: seq<Rt>, i: nat, j: nat)
    requires |rts| == |table| && i < |table| && j < |table|
  {
    rts[j].active && |table[j].keys| > |table[i].keys| && Subset(table[i], table[j])
  }

  predicate Subsumed(table: Table, rts: seq<Rt>, i: nat)
    requires |rts| == |table| && i < |table|
  {
    exists j :: 0 <= j < |table| && Subsumes(table, rts, i, j)
  }

  /** An active shorter combo with keys of combo i only. */
  predicate Cancels(table: Table, rts: seq<Rt>, i: nat, j: nat)
    requires |rts| == |table| && i < |table| && j < |table|
  {
    rts[j].active && |table[j].keys| < |table[i].keys| && Subset(table[j], table[i])
  }

  function Act1(e: Engine, code: nat, pressed: bool): Engine {
    e.(trace := e.trace + [Act(code, pressed)])
  }

  /** The combos from j on that combo i cancels. */
  function CancelFrom(table: Table, e: Engine, i: nat, j: nat): (r: Engine)
    requires Shaped(table, e.rts) && i < |table| && j <= |table|
    ensures Shaped(table, r.rts) && r.suppressed == e.suppressed
    decreases |table| - j
  {
    if j == |table| then e
    else if Cancels(table, e.rts, i, j) then
      CancelFrom(table, Act1(e, table[j].action, false).(rts := e.rts[j := e.rts[j].(active := false)]), i, j + 1)
    else CancelFrom(table, e, i, j + 1)
  }

  function Without(s: seq<Suppressed>, i: nat): (r: seq<Suppressed>)
    requires i < |s|
    ensures |r| == |s| - 1
  {
    s[..i] + s[i + 1..]
  }

  /** Without the entries of this key from i on. */
  function Drop(s: seq<Suppressed>, key: Key, i: nat): (r: seq<Suppressed>)
    requires i <= |s|
    ensures |r| <= |s|
    decreases |s| - i
  {
    if i == |s| then s else if s[i].key == key then Drop(Without(s, i), key, i) else Drop(s, key, i + 1)
  }

  /** discard_all_suppressed_for_combo, for the first k keys. */
  function Discard(s: seq<Suppressed>, keys: seq<Key>, k: nat): (r: seq<Suppressed>)
    requires k <= |keys|
    ensures |r| <= |s|
  {
    if k == 0 then s else Drop(Discard(s, keys, k - 1), keys[k - 1], 0)
  }

  /** release_individual_keys_for_combo, for the first k keys. */
  function Releases(keys: seq<Key>, x: Context, k: nat): seq<Act>
    requires k <= |keys|
  {
    if k == 0 then []
    else
      var code := x.layout(keys[k - 1], x.mask);
      Releases(keys, x, k - 1) + if code != ACTION_CODE_NONE then [Act(code, false)] else []
  }

  /** Combo i triggers. */
  function Fire(table: Table, e: Engine, i: nat, x: Context): (r: Engine)
    requires Shaped(table, e.rts) && i < |table|
    ensures Shaped(table, r.rts)
  {
    var c := table[i];
    var d := CancelFrom(table, e, i, 0);
    var cleaned := if c.delayed then d.(suppressed := Discard(d.suppressed, c.keys, |c.keys|))
                   else if c.cancelKeys then d.(trace := d.trace + Releases(c.keys, x, |c.keys|))
                   else d;
    Act1(cleaned, c.action, true).(rts := cleaned.rts[i := cleaned.rts[i].(active := true)])
  }

  /** What a key press does to one combo; waits if the combo delays the key, consumed if it has taken it. */
  datatype Hit = Hit(e: Engine, waits: bool, consumed: bool)

  function PressCombo(table: Table, e: Engine, i: nat, x: Context): (h: Hit)
    requires Shaped(table, e.rts) && i < |table|
    ensures Shaped(table, h.e.rts)
  {
    var c := table[i];
    var k := Trigger(c.keys, x.key, 0);
    if c.layers * x.mask == {} || k == |c.keys| then Hit(e, false, false)
    else if c.strict && k != e.rts[i].matched then
      Hit(e.(rts := e.rts[i := Rt(NO_KEYS, 0, e.rts[i].active)]), false, false)
    else
      var rt := Recorded(e.rts[i], k);
      var f := e.(rts := e.rts[i := rt]);
      if rt.matched != |c.keys| || Subsumed(table, f.rts, i) then Hit(f, c.delayed, false)
      else Hit(Fire(table, f, i, x), c.delayed, c.delayed)
  }

  function Flushed(s: seq<Suppressed>): (acts: seq<Act>)
    ensures |acts| == |s|
  {
    seq(|s|, i requires 0 <= i < |s| => Act(s[i].code, true))
  }

  datatype Reply = Reply(e: Engine, consumed: bool)

  function FinishPress(e: Engine, x: Context, waits: bool): (r: Reply)
    ensures r.e.rts == e.rts
  {
    if !waits then Reply(e.(trace := e.trace + Flushed(e.suppressed), suppressed := []), false)
    else if |e.suppressed| < MAX_SUPPRESSED then
      Reply(e.(suppressed := e.suppressed + [Suppressed(x.key, x.now, x.layout(x.key, x.mask), x.mask)]), true)
    else Reply(e, true)
  }

  function PressFrom(table: Table, e: Engine, i: nat, x: Context, waits: bool): (r: Reply)
    requires Shaped(table, e.rts) && i <= |table|
    ensures Shaped(table, r.e.rts)
    decreases |table| - i
  {
    if i == |table| then FinishPress(e, x, waits)
    else
      var h := PressCombo(table, e, i, x);
      if h.consumed then Reply(h.e, true) else PressFrom(table, h.e, i + 1, x, waits || h.waits)
  }

  function ReleaseCombo(table: Table, e: Engine, i: nat, x: Context): (r: Engine)
    requires Shaped(table, e.rts) && i < |table|
    ensures Shaped(table, r.rts) && r.suppressed == e.suppressed
  {
    var c, rt := table[i], e.rts[i];
    var k := Trigger(c.keys, x.key, 0);
    if c.layers * x.mask == {} || k == |c.keys| || !rt.pressed[k] then e
    else
      var left := Unrecorded(rt, k);
      if left.active && (c.releaseFirst || left.matched == 0) then
        Act1(e, c.action, false).(rts := e.rts[i := left.(active := false)])
      else e.(rts := e.rts[i := left])
  }

  function ReleaseFrom(table: Table, e: Engine, i: nat, x: Context): (r: Engine)
    requires Shaped(table, e.rts) && i <= |table|
    ensures Shaped(table, r.rts) && r.suppressed == e.suppressed
    decreases |table| - i
  {
    if i == |table| then e else ReleaseFrom(table, ReleaseCombo(table, e, i, x), i + 1, x)
  }

  /** A suppressed key that is released before any combo takes it is typed after all. */
  function Unsuppress(e: Engine, key: Key, i: nat): (r: Engine)
    requires i <= |e.suppressed|
    ensures r.rts == e.rts && |r.suppressed| <= |e.suppressed|
    decreases |e.suppressed| - i
  {
    if i == |e.suppressed| then e
    else if e.suppressed[i].key == key then
      Unsuppress(Act1(Act1(e, e.suppressed[i].code, true), e.suppressed[i].code, false).(suppressed := Without(e.suppressed, i)), key, i)
    else Unsuppress(e, key, i + 1)
  }

  /** kb_combo_process_key. */
  function Process(table: Table, e: Engine, pressed: bool, x: Context): (r: Reply)
    requires Shaped(table, e.rts)
    ensures Shaped(table, r.e.rts)
  {
    if table == [] then Reply(e, false)
    else if pressed then PressFrom(table, e, 0, x, false)
    else Reply(Unsuppress(ReleaseFrom(table, e, 0, x), x.key, 0), false)
  }

  // ---------- The engine behind its methods ----------

  class ComboEngine {
    const table: Table
    var rts: array<Rt>
    var suppressed: array<Suppressed>
    var count: nat
    ghost var trace: seq<Act>

    ghost predicate Valid()
      reads this, rts
    {
      Shaped(table, rts[..]) && suppressed.Length == MAX_SUPPRESSED && count <= MAX_SUPPRESSED
    }

    ghost function View(): (e: Engine)
      requires Valid()
      reads this, rts, suppressed
      ensures Shaped(table, e.rts) && |e.suppressed| == count <= MAX_SUPPRESSED
    {
      Engine(rts[..], suppressed[..count], trace)
    }

    constructor (table: Table)
      requires WellFormed(table)
      ensures Valid() && fresh(rts) && fresh(suppressed) && this.table == table && View() == Reset(table)
    {
      this.table := table;
      rts := new Rt[|table|](i => Rt(NO_KEYS, 0, false));
      suppressed := new Suppressed[MAX_SUPPRESSED](i => Suppressed(Key(0, 0), 0, 0, {}));
      count, trace := 0, [];
      new;
      assert rts[..] == Reset(table).rts;
    }

    ghost method Emit(code: nat, pressed: bool)
      requires Valid()
      modifies this`trace
      ensures Valid() && View() == Act1(old(View()), code, pressed)
    {
      trace := trace + [Act(code, pressed)];
    }

    method SetRt(i: nat, rt: Rt)
      requires Valid() && i < |table| && |rt.pressed| == CFG_COMBO_MAX_KEYS
      modifies rts
      ensures Valid() && View() == old(View()).(rts := old(View()).rts[i := rt])
    {
      rts[i] := rt;
    }

    method FindTrigger(keys: seq<Key>, key: Key) returns (k: nat)
      ensures k == Trigger(keys, key, 0)
    {
      k := 0;
      while k < |keys| && keys[k] != key
        invariant k <= |keys| && Trigger(keys, key, 0) == Trigger(keys, key, k)
      {
        k := k + 1;
      }
    }

    method IsSubset(sub: Definition, super: Definition) returns (yes: bool)
      ensures yes == Subset(sub, super)
    {
      for i := 0 to |sub.keys|
        invariant forall m | 0 <= m < i :: sub.keys[m] in super.keys
      {
        var j := 0;
        while j < |super.keys| && sub.keys[i] != super.keys[j]
          invariant j <= |super.keys| && forall m | 0 <= m < j :: super.keys[m] != sub.keys[i]
        {
          j := j + 1;
        }
        if j == |super.keys| {
          assert sub.keys[i] !in super.keys;
          return false;
        }
      }
      return true;
    }

    method IsSubsumed(i: nat) returns (yes: bool)
      requires Valid() && i < |table|
      ensures yes == Subsumed(table, View().rts, i)
    {
      for j := 0 to |table|
        invariant forall m | 0 <= m < j :: !Subsumes(table, View().rts, i, m)
      {
        if rts[j].active && |table[j].keys| > |table[i].keys| {
          var contained := IsSubset(table[i], table[j]);
          if contained {
            assert Subsumes(table, View().rts, i, j);
            return true;
          }
        }
      }
      return false;
    }

    method CancelSmaller(i: nat)
      requires Valid() && i < |table|
      modifies this`trace, rts
      ensures Valid() && View() == CancelFrom(table, old(View()), i, 0)
    {
      for j := 0 to |table|
        invariant Valid() && CancelFrom(table, View(), i, j) == CancelFrom(table, old(View()), i, 0)
      {
        var cancels := rts[j].active && |table[j].keys| < |table[i].keys|;
        if cancels {
          cancels := IsSubset(table[j], table[i]);
        }
        assert cancels == Cancels(table, View().rts, i, j);
        if cancels {
          Emit(table[j].action, false);
          SetRt(j, rts[j].(active := false));
        }
      }
    }

    /** Remove one entry by moving the later ones down. */
    method RemoveAt(i: nat)
      requires Valid() && i < count
      modifies this`count, suppressed
      ensures Valid() && View() == old(View()).(suppressed := Without(old(View()).suppressed, i))
    {
      ghost var was := suppressed[..count];
      for j := i to count - 1
        invariant count == old(count) && rts[..] == old(rts[..])
        invariant forall m | 0 <= m < i :: suppressed[m] == was[m]
        invariant forall m | i <= m < j :: suppressed[m] == was[m + 1]
        invariant forall m | j <= m < count :: suppressed[m] == was[m]
      {
        suppressed[j] := suppressed[j + 1];
      }
      count := count - 1;
      assert suppressed[..count] == Without(was, i);
    }

    method DropKey(key: Key)
      requires Valid()
      modifies this`count, suppressed
      ensures Valid() && View() == old(View()).(suppressed := Drop(old(View()).suppressed, key, 0))
    {
      hide Without;
      var i := 0;
      while i < count
        invariant Valid() && i <= count && View() == old(View()).(suppressed := View().suppressed)
        invariant Drop(View().suppressed, key, i) == Drop(old(View()).suppressed, key, 0)
        decreases count - i
      {
        if suppressed[i].key == key {
          RemoveAt(i);
        } else {
          i := i + 1;
        }
      }
    }

    method DiscardFor(c: Definition)
      requires Valid()
      modifies this`count, suppressed
      ensures Valid() && View() == old(View()).(suppressed := Discard(old(View()).suppressed, c.keys, |c.keys|))
    {
      hide Drop;
      for k := 0 to |c.keys|
        invariant Valid() && View() == old(View()).(suppressed := Discard(old(View()).suppressed, c.keys, k))
      {
        DropKey(c.keys[k]);
      }
    }

    method ReleaseIndividualKeys(c: Definition, x: Context)
      requires Valid()
      modifies this`trace
      ensures Valid() && View() == old(View()).(trace := old(View()).trace + Releases(c.keys, x, |c.keys|))
    {
      for k := 0 to |c.keys|
        invariant Valid() && View() == old(View()).(trace := old(View()).trace + Releases(c.keys, x, k))
      {
        var code := x.layout(c.keys[k], x.mask);
        if code != ACTION_CODE_NONE {
          Emit(code, false);
        }
      }
    }

    method FireCombo(i: nat, x: Context)
      requires Valid() && i < |table|
      modifies this`trace, this`count, rts, suppressed
      ensures Valid() && View() == Fire(table, old(View()), i, x)
    {
      hide CancelFrom, Discard, Releases;
      var c := table[i];
      CancelSmaller(i);
      if c.delayed {
        DiscardFor(c);
      } else if c.cancelKeys {
        ReleaseIndividualKeys(c, x);
      }
      Emit(c.action, true);
      SetRt(i, rts[i].(active := true));
    }

    /** The key-down half of the loop body of kb_combo_process_key. */
    method PressOne(i: nat, x: Context) returns (waits: bool, consumed: bool)
      requires Valid() && i < |table|
      modifies this`trace, this`count, rts, suppressed
      ensures Valid() && Hit(View(), waits, consumed) == PressCombo(table, old(View()), i, x)
    {
      hide Fire, Subsumed;
      waits, consumed := false, false;
      var c := table[i];
      if c.layers * x.mask == {} {
        return;
      }
      var k := FindTrigger(c.keys, x.key);
      if k == |c.keys| {
        return;
      }
      if c.strict && k != rts[i].matched {
        SetRt(i, Rt(NO_KEYS, 0, rts[i].active));
        return;
      }
      if !rts[i].pressed[k] {
        SetRt(i, rts[i].(pressed := rts[i].pressed[k := true], matched := rts[i].matched + 1));
      } else {
        SetRt(i, rts[i]);
      }
      waits := c.delayed;
      if rts[i].matched == |c.keys| {
        var subsumed := IsSubsumed(i);
        if !subsumed {
          FireCombo(i, x);
          consumed := c.delayed;
        }
      }
    }

    method ReleaseOne(i: nat, x: Context)
      requires Valid() && i < |table|
      modifies this`trace, rts
      ensures Valid() && View() == ReleaseCombo(table, old(View()), i, x)
    {
      var c := table[i];
      if c.layers * x.mask == {} {
        return;
      }
      var k := FindTrigger(c.keys, x.key);
      if k == |c.keys| {
        return;
      }
      if rts[i].pressed[k] {
        var left := rts[i].(pressed := rts[i].pressed[k := false], matched := if rts[i].matched > 0 then rts[i].matched - 1 else 0);
        if left.active && (c.releaseFirst || left.matched == 0) {
          Emit(c.action, false);
          SetRt(i, left.(active := false));
        } else {
          SetRt(i, left);
        }
      }
    }

    method FlushSuppressed()
      requires Valid()
      modifies this`trace, this`count
      ensures Valid() && View() == old(View()).(trace := old(View()).trace + Flushed(old(View()).suppressed), suppressed := [])
    {
      for i := 0 to count
        invariant Valid() && View() == old(View()).(trace := old(View()).trace + Flushed(old(View()).suppressed)[..i])
      {
        Emit(suppressed[i].code, true);
      }
      count := 0;
    }

    method EndPress(x: Context, waits: bool) returns (consumed: bool)
      requires Valid()
      modifies this`trace, this`count, suppressed
      ensures Valid() && Reply(View(), consumed) == FinishPress(old(View()), x, waits)
    {
      hide Flushed;
      if waits {
        if count < MAX_SUPPRESSED {
          suppressed[count] := Suppressed(x.key, x.now, x.layout(x.key, x.mask), x.mask);
          count := count + 1;
        }
        return true;
      }
      FlushSuppressed();
      return false;
    }

    method UnsuppressKey(key: Key)
      requires Valid()
      modifies this`trace, this`count, suppressed
      ensures Valid() && View() == Unsuppress(old(View()), key, 0)
    {
      hide Without;
      var i := 0;
      while i < count
        invariant Valid() && i <= count && Unsuppress(View(), key, i) == Unsuppress(old(View()), key, 0)
        decreases count - i
      {
        if suppressed[i].key == key {
          Emit(suppressed[i].code, true);
          Emit(suppressed[i].code, false);
          RemoveAt(i);
        } else {
          i := i + 1;
        }
      }
    }

    /** kb_combo_process_key. */
    method ProcessKey(pressed: bool, x: Context) returns (consumed: bool)
      requires Valid()
      modifies this`trace, this`count, rts, suppressed
      ensures Valid() && Reply(View(), consumed) == Process(table, old(View()), pressed, x)
    {
      hide PressCombo, ReleaseCombo, Unsuppress, FinishPress;
      if |table| == 0 {
        return false;
      }
      var waits := false;
      if pressed {
        for i := 0 to |table|
          invariant Valid() && PressFrom(table, View(), i, x, waits) == PressFrom(table, old(View()), 0, x, false)
        {
          var w;
          w, consumed := PressOne(i, x);
          if consumed {
            return;
          }
          waits := waits || w;
        }
        consumed := EndPress(x, waits);
      } else {
        for i := 0 to |table|
          invariant Valid() && ReleaseFrom(table, View(), i, x) == ReleaseFrom(table, old(View()), 0, x)
        {
          ReleaseOne(i, x);
        }
        UnsuppressKey(x.key);
        consumed := false;
      }
    }
  }

  function Reset(table: Table): (e: Engine)
    requires WellFormed(table)
    ensures Shaped(table, e.rts)
    ensures forall i | 0 <= i < |table| :: e.rts[i] == Rt(NO_KEYS, 0, false)
    ensures e.suppressed == [] && e.trace == []
  {
    Engine(seq(|table|, i => Rt(NO_KEYS, 0, false)), [], [])
  }
}
