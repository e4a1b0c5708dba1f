/** The macro executor (components/keyboard/kb_macro.c). */
module Macro {
  import opened Options
  import Bits
  import opened Numbers

  const ACTION_CODE_HID_MIN: nat := 0x0001
  const ACTION_CODE_HID_MAX: nat := 0x00FF
  const ACTION_CODE_MACRO_MIN: nat := 0x4000
  const ACTION_CODE_MACRO_MAX: nat := 0x4FFF
  const NKRO_BYTES: nat := 32
  /** Executions at depths 0 to 5 run; deeper ones return at once. */
  const LEVELS: nat := 6

  datatype Kind = Nothing | KeyPress | KeyRelease | Delay | KeyTap

  datatype Event = Event(kind: Kind, value: nat, duration: nat, delay: nat)

  datatype Definition = Definition(id: nat, events: seq<Event>)

  type Table = seq<Definition>

  /** What a macro does to the rest of the keyboard; Ms is one millisecond of waiting. */
  datatype Step = Act(code: nat, pressed: bool) | SendReport | Ms

  predicate IsMacro(code: nat) {
    ACTION_CODE_MACRO_MIN <= code <= ACTION_CODE_MACRO_MAX
  }

  /** The first macro of the table with this id. */
  function Find(table: Table, id: nat): Option<Definition> {
    if table == [] then None
    else if table[0].id == id then Some(table[0])
    else Find(table[1..], id)
  }

  function Wait(ms: nat): (w: seq<Step>)
    ensures |w| == ms && forall i | 0 <= i < ms :: w[i] == Ms
  {
    seq(ms, i => Ms)
  }

  function Single(code: nat, pressed: bool): seq<Step> {
    [Act(code, pressed), SendReport]
  }

  /** The meaning of macro id with the given number of levels left. */
  function Expand(table: Table, id: nat, levels: nat): seq<Step>
    decreases levels, 1, 0
  {
    if levels == 0 || Find(table, id) == None then []
    else ExpandEvents(table, Find(table, id).value.events, levels)
  }

  function ExpandEvents(table: Table, events: seq<Event>, levels: nat): seq<Step>
    requires levels > 0
    decreases levels, 0, |events|
  {
    if events == [] then []
    else
      var last := events[|events| - 1];
      ExpandEvents(table, events[..|events| - 1], levels) + (ExpandBody(table, last, levels) + Wait(last.delay))
  }

  function ExpandBody(table: Table, e: Event, levels: nat): seq<Step>
    requires levels > 0
    decreases levels, 0, 0
  {
    match e.kind
    case Nothing => []
    case KeyPress => if IsMacro(e.value) then Expand(table, e.value - ACTION_CODE_MACRO_MIN, levels - 1) else Single(e.value, true)
    case KeyRelease => if IsMacro(e.value) then [] else Single(e.value, false)
    case Delay => Wait(e.value)
    case KeyTap =>
      if IsMacro(e.value) then Expand(table, e.value - ACTION_CODE_MACRO_MIN, levels - 1)
      else Single(e.value, true) + Wait(e.duration) + Single(e.value, false)
  }

  /** The virtual key bitmap after a step; only HID codes touch it. */
  function Touch(nkro: seq<bv8>, s: Step): (r: seq<bv8>)
    requires |nkro| == NKRO_BYTES
    ensures |r| == NKRO_BYTES
  {
    if s.Act? && ACTION_CODE_HID_MIN <= s.code <= ACTION_CODE_HID_MAX then
      if s.pressed then Bits.Set(nkro, s.code) else Bits.Clear(nkro, s.code)
    else nkro
  }

  function TouchAll(nkro: seq<bv8>, steps: seq<Step>): (r: seq<bv8>)
    requires |nkro| == NKRO_BYTES
    ensures |r| == NKRO_BYTES
  {
    if steps == [] then nkro else Touch(TouchAll(nkro, steps[..|steps| - 1]), steps[|steps| - 1])
  }

  predicate Cleared(nkro: seq<bv8>) {
    |nkro| == NKRO_BYTES && forall i | 0 <= i < NKRO_BYTES :: nkro[i] == 0
  }

  lemma {:induction false} TouchAllConcat(nkro: seq<bv8>, a: seq<Step>, b: seq<Step>)
    requires |nkro| == NKRO_BYTES
    ensures TouchAll(nkro, a + b) == TouchAll(TouchAll(nkro, a), b)
  {
    hide Touch;
    if b == [] {
      assert a + b == a;
    } else {
      var m := |b| - 1;
      TouchAllConcat(nkro, a, b[..m]);
      assert (a + b)[..|a + b| - 1] == a + b[..m];
    }
  }

  /** The events up to i expand to a prefix of what all of them expand to. */
  lemma {:induction false} ExpandPrefix(table: Table, events: seq<Event>, levels: nat, i: nat)
    requires levels > 0 && i <= |events|
    ensures ExpandEvents(table, events[..i], levels) <= ExpandEvents(table, events, levels)
    decreases |events|
  {
    hide ExpandBody;
    if i < |events| {
      var front := events[..|events| - 1];
      ExpandPrefix(table, front, levels, i);
      assert front[..i] == events[..i];
    } else {
      assert events[..i] == events;
    }
  }

  lemma ExpandNext(table: Table, events: seq<Event>, levels: nat, i: nat)
    requires levels > 0 && i < |events|
    ensures ExpandEvents(table, events[..i + 1], levels) ==
            ExpandEvents(table, events[..i], levels) + (ExpandBody(table, events[i], levels) + Wait(events[i].delay))
    ensures ExpandEvents(table, events[..i + 1], levels) <= ExpandEvents(table, events, levels)
  {
    hide ExpandBody;
    assert events[..i + 1][..i] == events[..i];
    ExpandPrefix(table, events, levels, i + 1);
  }

  /** The virtual keys, everything done so far, and how often cancel_requested has been looked at. */
  datatype State = State(nkro: seq<bv8>, trace: seq<Step>, looks: nat) {
    predicate Shaped() {
      |nkro| == NKRO_BYTES
    }
  }

  datatype Mode = Mode(cancellable: bool, requested: nat -> bool)

  /** What a piece of a run has done: all of steps, or, when it was cancelled, a part
      of them followed by the report of an empty bitmap. It was cancelled exactly if
      the last look found the request. */
  predicate Ran(mode: Mode, s: State, t: State, steps: seq<Step>, done: bool, part: seq<Step>)
    requires s.Shaped() && t.Shaped()
  {
    s.looks <= t.looks &&
    (mode.cancellable ==> forall n | s.looks <= n < (if done then t.looks else t.looks - 1) :: !mode.requested(n)) &&
    if done then t.trace == s.trace + steps && t.nkro == TouchAll(s.nkro, steps)
    else
      mode.cancellable && t.looks > s.looks && mode.requested(t.looks - 1) &&
      part <= steps && t.trace == s.trace + part + [SendReport] && Cleared(t.nkro)
  }

  /** Pieces of a run follow each other. */
  lemma RanThen(mode: Mode, s: State, t: State, u: State, a: seq<Step>, b: seq<Step>, done: bool, part: seq<Step>)
    requires s.Shaped() && t.Shaped() && u.Shaped()
    requires Ran(mode, s, t, a, true, []) && Ran(mode, t, u, b, done, part)
    ensures Ran(mode, s, u, a + b, done, if done then [] else a + part)
  {
    TouchAllConcat(s.nkro, a, b);
    hide TouchAll, Cleared;
    if done {
      assert s.trace + a + b == s.trace + (a + b);
    } else {
      assert s.trace + a + part + [SendReport] == s.trace + (a + part) + [SendReport];
    }
  }

  /** A cancelled piece is a cancelled piece of anything longer. */
  lemma RanLonger(mode: Mode, s: State, t: State, a: seq<Step>, whole: seq<Step>, part: seq<Step>)
    requires s.Shaped() && t.Shaped() && Ran(mode, s, t, a, false, part) && a <= whole
    ensures Ran(mode, s, t, whole, false, part)
  {
  }

  lemma TouchSingle(nkro: seq<bv8>, code: nat, pressed: bool)
    requires |nkro| == NKRO_BYTES
    ensures TouchAll(nkro, Single(code, pressed)) == Touch(nkro, Act(code, pressed))
  {
    hide Bits.Set, Bits.Clear;
    var a := Act(code, pressed);
    assert [a, SendReport][..1] == [a] && [a][..0] == [];
    assert TouchAll(nkro, [a]) == Touch(nkro, a);
  }

  lemma {:induction false} TouchWait(nkro: seq<bv8>, ms: nat)
    requires |nkro| == NKRO_BYTES
    ensures TouchAll(nkro, Wait(ms)) == nkro
  {
    if ms > 0 {
      TouchWait(nkro, ms - 1);
      assert Wait(ms)[..ms - 1] == Wait(ms - 1);
    }
  }

  class Engine {
    const table: Table
    /** What the n-th look at cancel_requested finds. */
    const requested: nat -> bool
    var nkro: array<bv8>
    ghost var trace: seq<Step>
    var looks: nat

    ghost predicate Valid()
      reads this
    {
      nkro.Length == NKRO_BYTES
    }

    ghost function View(): (s: State)
      requires Valid()
      reads this, nkro
      ensures s.Shaped()
    {
      State(nkro[..], trace, looks)
    }

    constructor (table: Table, requested: nat -> bool)
      ensures Valid() && fresh(nkro) && this.table == table && this.requested == requested
      ensures Cleared(nkro[..]) && trace == [] && looks == 0
    {
      this.table, this.requested := table, requested;
      nkro := new bv8[NKRO_BYTES](i => 0);
      trace, looks := [], 0;
    }

    method VirtualPress(code: nat)
      requires Valid() && code < 256
      modifies nkro
      ensures nkro[..] == Bits.Set(old(nkro[..]), code)
    {
      hide Bits.Mask;
      nkro[code / 8] := nkro[code / 8] | Bits.Mask(code % 8);
    }

    method VirtualRelease(code: nat)
      requires Valid() && code < 256
      modifies nkro
      ensures nkro[..] == Bits.Clear(old(nkro[..]), code)
    {
      hide Bits.Mask;
      nkro[code / 8] := nkro[code / 8] & !Bits.Mask(code % 8);
    }

    /** kb_macro_process_action and kb_macro_send_report. */
    method ProcessAction(code: nat, pressed: bool, ghost mode: Mode)
      requires Valid()
      modifies this`trace, nkro
      ensures Valid() && Ran(mode, old(View()), View(), Single(code, pressed), true, [])
    {
      TouchSingle(nkro[..], code, pressed);
      hide Bits.Set, Bits.Clear, TouchAll;
      if ACTION_CODE_HID_MIN <= code <= ACTION_CODE_HID_MAX {
        if pressed {
          VirtualPress(code);
        } else {
          VirtualRelease(code);
        }
      }
      trace := trace + [Act(code, pressed), SendReport];
    }

    method Sleep(ms: nat, ghost mode: Mode)
      requires Valid()
      modifies this`trace
      ensures Valid() && Ran(mode, old(View()), View(), Wait(ms), true, [])
    {
      TouchWait(nkro[..], ms);
      trace := trace + Wait(ms);
    }

    method ForceClear()
      requires Valid()
      modifies this`trace, nkro
      ensures Valid() && trace == old(trace) + [SendReport] && Cleared(nkro[..])
    {
      forall i | 0 <= i < nkro.Length {
        nkro[i] := 0;
      }
      trace := trace + [SendReport];
    }

    /** The look at cancel_requested, followed by force_clear when it is set. */
    method Proceed(cancellable: bool) returns (goOn: bool)
      requires Valid()
      modifies this`looks, this`trace, nkro
      ensures Valid() && Ran(Mode(cancellable, requested), old(View()), View(), [], goOn, [])
      ensures looks == old(looks) + if cancellable then 1 else 0
    {
      goOn := true;
      if cancellable {
        looks := looks + 1;
        if requested(looks - 1) {
          ForceClear();
          goOn := false;
        }
      }
    }

    /** A delay: in one piece, or in pieces of at most 10 ms with a look before each. */
    method Pause(ms: nat, cancellable: bool) returns (done: bool, ghost part: seq<Step>)
      requires Valid()
      modifies this`looks, this`trace, nkro
      ensures Valid() && (done ==> part == [])
      ensures Ran(Mode(cancellable, requested), old(View()), View(), Wait(ms), done, part)
      ensures cancellable && done ==> looks == old(looks) + (ms + 9) / 10
      ensures !done ==> |part| == 10 * (looks - old(looks) - 1) < ms
    {
      ghost var mode := Mode(cancellable, requested);
      ghost var start := View();
      hide Ran;
      done, part := true, [];
      if !cancellable {
        Sleep(ms, mode);
        return;
      }
      var remaining := ms;
      assert Wait(0) == [];
      while remaining > 0
        invariant Valid() && 0 <= remaining <= ms && done && part == []
        invariant looks == old(looks) + (ms - remaining + 9) / 10 && (remaining == 0 || (ms - remaining) % 10 == 0)
        invariant Ran(mode, start, View(), Wait(ms - remaining), true, [])
      {
        ghost var before := View();
        done := Proceed(true);
        ghost var after := View();
        RanThen(mode, start, before, after, Wait(ms - remaining), [], done, []);
        assert Wait(ms - remaining) + [] == Wait(ms - remaining);
        if !done {
          RanLonger(mode, start, View(), Wait(ms - remaining), Wait(ms), Wait(ms - remaining));
          part := Wait(ms - remaining);
          return;
        }
        var chunk := if remaining > 10 then 10 else remaining;
        Sleep(chunk, mode);
        RanThen(mode, start, after, View(), Wait(ms - remaining), Wait(chunk), true, []);
        assert Wait(ms - remaining) + Wait(chunk) == Wait(ms - remaining + chunk);
        remaining := remaining - chunk;
      }
    }

    method FindMacro(id: nat) returns (found: Option<Definition>)
      ensures found == Find(table, id)
    {
      for i := 0 to |table|
        invariant Find(table, id) == Find(table[i..], id)
      {
        if table[i].id == id {
          return Some(table[i]);
        }
      }
      return None;
    }

    /** execute_macro_cancellable. */
    method Execute(id: nat, depth: nat, cancellable: bool) returns (done: bool, ghost part: seq<Step>)
      requires Valid()
      modifies this`looks, this`trace, nkro
      ensures Valid() && (done ==> part == [])
      ensures Ran(Mode(cancellable, requested), old(View()), View(), Expand(table, id, Levels(depth)), done, part)
      ensures forall e, pressed | AtMost(table, e) :: Acts(trace, pressed) <= Acts(old(trace), pressed) + Pow(e, Levels(depth))
      decreases Levels(depth), 1
    {
      ghost var mode := Mode(cancellable, requested);
      ghost var start := View();
      hide Ran, ExpandBody, Acts, Pow, AtMost;
      done, part := true, [];
      if depth > 5 {
        PerformedAtMost(mode, start, View(), table, id, 0, done, part);
        return;
      }
      var found := FindMacro(id);
      if found == None {
        PerformedAtMost(mode, start, View(), table, id, Levels(depth), done, part);
        return;
      }
      var events := found.value.events;
      ghost var levels := Levels(depth);
      for i := 0 to |events|
        invariant Valid() && done && part == []
        invariant Ran(mode, start, View(), ExpandEvents(table, events[..i], levels), true, [])
      {
        done, part := Play(events[i], depth, cancellable, start, events, i);
        if !done {
          PerformedAtMost(mode, start, View(), table, id, levels, done, part);
          return;
        }
      }
      assert events[..|events|] == events;
      PerformedAtMost(mode, start, View(), table, id, levels, done, part);
    }

    /** One round of the loop of execute_macro_cancellable: event i of events, for a
        run that began in state start. */
    method Play(e: Event, depth: nat, cancellable: bool, ghost start: State, ghost events: seq<Event>, ghost i: nat)
      returns (done: bool, ghost part: seq<Step>)
      requires Valid() && depth <= 5 && i < |events| && events[i] == e && start.Shaped()
      requires Ran(Mode(cancellable, requested), start, View(), ExpandEvents(table, events[..i], Levels(depth)), true, [])
      modifies this`looks, this`trace, nkro
      ensures Valid() && (done ==> part == [])
      ensures Ran(Mode(cancellable, requested), start, View(),
                  ExpandEvents(table, if done then events[..i + 1] else events, Levels(depth)), done, part)
      decreases Levels(depth), 0, 1
    {
      ghost var mode := Mode(cancellable, requested);
      ghost var levels := Levels(depth);
      ghost var so, body := ExpandEvents(table, events[..i], levels), ExpandBody(table, e, levels);
      ghost var all := ExpandEvents(table, events, levels);
      ExpandNext(table, events, levels, i);
      hide Ran, ExpandEvents, ExpandBody, Levels;
      ghost var s0 := View();
      done := Proceed(cancellable);
      ghost var s1 := View();
      RanThen(mode, start, s0, s1, so, [], done, []);
      assert so + [] == so;
      part := if done then [] else so;
      if !done {
        RanLonger(mode, start, s1, so, all, so);
        return;
      }
      done, part := PlayBody(e, depth, cancellable);
      ghost var s2 := View();
      RanThen(mode, start, s1, s2, so, body, done, part);
      if !done {
        part := so + part;
        RanLonger(mode, start, s2, so + body, all, part);
        return;
      }
      done, part := Pause(e.delay, cancellable);
      RanThen(mode, start, s2, View(), so + body, Wait(e.delay), done, part);
      assert so + body + Wait(e.delay) == so + (body + Wait(e.delay));
      part := if done then [] else so + body + part;
      if !done {
        RanLonger(mode, start, View(), so + body + Wait(e.delay), all, part);
      }
    }

    method PlayBody(e: Event, depth: nat, cancellable: bool) returns (done: bool, ghost part: seq<Step>)
      requires Valid() && depth <= 5
      modifies this`looks, this`trace, nkro
      ensures Valid() && (done ==> part == [])
      ensures Ran(Mode(cancellable, requested), old(View()), View(), ExpandBody(table, e, Levels(depth)), done, part)
      decreases Levels(depth), 0, 0
    {
      ghost var mode := Mode(cancellable, requested);
      ghost var start := View();
      hide Ran, Expand;
      done, part := true, [];
      match e.kind {
        case KeyPress =>
          if IsMacro(e.value) {
            done, part := Execute(e.value - ACTION_CODE_MACRO_MIN, depth + 1, cancellable);
          } else {
            ProcessAction(e.value, true, mode);
          }
        case KeyRelease =>
          if !IsMacro(e.value) {
            ProcessAction(e.value, false, mode);
          }
        case KeyTap =>
          if IsMacro(e.value) {
            done, part := Execute(e.value - ACTION_CODE_MACRO_MIN, depth + 1, cancellable);
          } else {
            ProcessAction(e.value, true, mode);
            ghost var s1 := View();
            Sleep(e.duration, mode);
            ghost var s2 := View();
            RanThen(mode, start, s1, s2, Single(e.value, true), Wait(e.duration), true, []);
            ProcessAction(e.value, false, mode);
            RanThen(mode, start, s2, View(), Single(e.value, true) + Wait(e.duration), Single(e.value, false), true, []);
          }
        case Delay =>
          done, part := Pause(e.value, cancellable);
        case Nothing =>
      }
    }
  }

  /** The levels that an execution at this depth may still use. */
  function Levels(depth: nat): nat {
    if depth > 5 then 0 else LEVELS - depth
  }

  // ---------- How much a macro can do ----------

  function Pow(base: nat, exponent: nat): nat {
    if exponent == 0 then 1 else base * Pow(base, exponent - 1)
  }

  /** The events that an execution performs itself, at all levels: everything but the
      references to other macros. */
  function Leaves(table: Table, id: nat, levels: nat): nat
    decreases levels, 1, 0
  {
    if levels == 0 || Find(table, id) == None then 0
    else LeavesOf(table, Find(table, id).value.events, levels)
  }

  function LeavesOf(table: Table, events: seq<Event>, levels: nat): nat
    requires levels > 0
    decreases levels, 0, |events|
  {
    if events == [] then 0
    else
      var last := events[|events| - 1];
      LeavesOf(table, events[..|events| - 1], levels) + LeavesOfEvent(table, last, levels)
  }

  /** The leaves of one event. */
  function LeavesOfEvent(table: Table, e: Event, levels: nat): nat
    requires levels > 0
    decreases levels, 0, 0
  {
    if (e.kind == KeyPress || e.kind == KeyTap) && IsMacro(e.value) then Leaves(table, e.value - ACTION_CODE_MACRO_MIN, levels - 1)
    else if e.kind == KeyRelease && IsMacro(e.value) then 0
    else 1
  }

  predicate AtMost(table: Table, e: nat) {
    forall i | 0 <= i < |table| :: |table[i].events| <= e
  }

  lemma {:induction false} FoundIsSmall(table: Table, id: nat, e: nat)
    requires AtMost(table, e) && Find(table, id).Some?
    ensures |Find(table, id).value.events| <= e
  {
    if table[0].id != id {
      FoundIsSmall(table[1..], id, e);
    }
  }

  lemma {:induction false} PowPositive(base: nat, exponent: nat)
    requires base >= 1
    ensures Pow(base, exponent) >= 1
  {
    if exponent > 0 {
      PowPositive(base, exponent - 1);
      assert base * Pow(base, exponent - 1) >= Pow(base, exponent - 1) by {
        assert (base - 1) * Pow(base, exponent - 1) >= 0;
      }
    }
  }

  /** However the macros refer to each other, in cycles or not: with at most e events
      per macro, an execution performs at most e to the power of its levels. */
  lemma {:induction false} LeavesBounded(table: Table, id: nat, levels: nat, e: nat)
    requires AtMost(table, e)
    ensures Leaves(table, id, levels) <= Pow(e, levels)
    decreases levels, 1, 0
  {
    if levels > 0 && Find(table, id).Some? {
      var events := Find(table, id).value.events;
      FoundIsSmall(table, id, e);
      LeavesOfBounded(table, events, levels, e);
      Monotone(|events|, e, Pow(e, levels - 1));
    }
  }

  lemma {:induction false} LeavesOfBounded(table: Table, events: seq<Event>, levels: nat, e: nat)
    requires AtMost(table, e) && levels > 0 && |events| <= e
    ensures LeavesOf(table, events, levels) <= |events| * Pow(e, levels - 1)
    decreases levels, 0, |events|
  {
    if events != [] {
      var last := events[|events| - 1];
      LeavesOfBounded(table, events[..|events| - 1], levels, e);
      if IsMacro(last.value) {
        LeavesBounded(table, last.value - ACTION_CODE_MACRO_MIN, levels - 1, e);
      }
      PowPositive(e, levels - 1);
      assert |events| * Pow(e, levels - 1) == (|events| - 1) * Pow(e, levels - 1) + Pow(e, levels - 1);
    }
  }

  /** The presses, or the releases, among the steps. */
  function Acts(steps: seq<Step>, pressed: bool): nat {
    if steps == [] then 0
    else
      var last := steps[|steps| - 1];
      Acts(steps[..|steps| - 1], pressed) + if last.Act? && last.pressed == pressed then 1 else 0
  }

  lemma {:induction false} ActsConcat(a: seq<Step>, b: seq<Step>, pressed: bool)
    ensures Acts(a + b, pressed) == Acts(a, pressed) + Acts(b, pressed)
  {
    if b == [] {
      assert a + b == a;
    } else {
      ActsConcat(a, b[..|b| - 1], pressed);
      assert (a + b)[..|a + b| - 1] == a + b[..|b| - 1];
    }
  }

  lemma {:induction false} ActsOfWait(ms: nat, pressed: bool)
    ensures Acts(Wait(ms), pressed) == 0
  {
    if ms > 0 {
      ActsOfWait(ms - 1, pressed);
      assert Wait(ms)[..ms - 1] == Wait(ms - 1);
    }
  }

  lemma ActsOfSingle(code: nat, down: bool, pressed: bool)
    ensures Acts(Single(code, down), pressed) == if down == pressed then 1 else 0
  {
    assert Single(code, down)[..1] == [Act(code, down)] && [Act(code, down)][..0] == [];
    assert Acts([Act(code, down)], pressed) == if down == pressed then 1 else 0;
  }

  /** What an event that refers to no macro expands to has at most one press and one release. */
  lemma ActsOfLeaf(table: Table, e: Event, levels: nat, pressed: bool)
    requires levels > 0 && e.kind != Nothing && (e.kind == Delay || !IsMacro(e.value))
    ensures Acts(ExpandBody(table, e, levels), pressed) <= 1
  {
    ActsOfSingle(e.value, true, pressed);
    ActsOfSingle(e.value, false, pressed);
    ActsOfWait(e.duration, pressed);
    ActsOfWait(e.value, pressed);
    ActsConcat(Single(e.value, true), Wait(e.duration), pressed);
    ActsConcat(Single(e.value, true) + Wait(e.duration), Single(e.value, false), pressed);
    hide Acts, Single, Wait, Expand;
  }

  /** A macro performs at most one press and one release for each of its leaves. */
  lemma {:induction false} ActsAtMostLeaves(table: Table, id: nat, levels: nat, pressed: bool)
    ensures Acts(Expand(table, id, levels), pressed) <= Leaves(table, id, levels)
    decreases levels, 1, 0
  {
    if levels > 0 && Find(table, id).Some? {
      ActsOfEvents(table, Find(table, id).value.events, levels, pressed);
    }
  }

  lemma {:induction false} ActsOfEvents(table: Table, events: seq<Event>, levels: nat, pressed: bool)
    requires levels > 0
    ensures Acts(ExpandEvents(table, events, levels), pressed) <= LeavesOf(table, events, levels)
    decreases levels, 0, |events|
  {
    hide Acts, Wait, Expand, Leaves;
    if events == [] {
      assert Acts([], pressed) == 0 by {
        ActsOfWait(0, pressed);
        assert Wait(0) == [];
      }
    } else {
      var last, front := events[|events| - 1], events[..|events| - 1];
      ActsOfEvents(table, front, levels, pressed);
      var body := ExpandBody(table, last, levels);
      ActsConcat(ExpandEvents(table, front, levels), body + Wait(last.delay), pressed);
      ActsConcat(body, Wait(last.delay), pressed);
      ActsOfWait(last.delay, pressed);
      ActsOfBody(table, last, levels, pressed);
      hide ExpandBody;
    }
  }

  lemma {:induction false} ActsOfBody(table: Table, e: Event, levels: nat, pressed: bool)
    requires levels > 0
    ensures Acts(ExpandBody(table, e, levels), pressed) <= LeavesOfEvent(table, e, levels)
    decreases levels, 0, 0
  {
    hide Acts, Wait, Expand, Leaves;
    if e.kind == Nothing || (e.kind == KeyRelease && IsMacro(e.value)) {
      ActsOfWait(0, pressed);
      assert Wait(0) == [];
    } else if e.kind == Delay || !IsMacro(e.value) {
      ActsOfLeaf(table, e, levels, pressed);
    } else {
      ActsAtMostLeaves(table, e.value - ACTION_CODE_MACRO_MIN, levels - 1, pressed);
    }
  }

  /** Whether it runs to the end or is cancelled, an execution presses at most e to the
      power of its levels times, and releases no more often either. */
  lemma PerformedAtMost(mode: Mode, s: State, t: State, table: Table, id: nat, levels: nat, done: bool, part: seq<Step>)
    requires s.Shaped() && t.Shaped() && Ran(mode, s, t, Expand(table, id, levels), done, part)
    ensures forall e, pressed | AtMost(table, e) :: Acts(t.trace, pressed) <= Acts(s.trace, pressed) + Pow(e, levels)
  {
    hide Expand, Leaves, Pow, AtMost, Cleared, TouchAll;
    var whole := Expand(table, id, levels);
    forall e, pressed | AtMost(table, e) ensures Acts(t.trace, pressed) <= Acts(s.trace, pressed) + Pow(e, levels) {
      ActsAtMostLeaves(table, id, levels, pressed);
      LeavesBounded(table, id, levels, e);
      if done {
        ActsConcat(s.trace, whole, pressed);
      } else {
        ActsConcat(part, whole[|part|..], pressed);
        assert part + whole[|part|..] == whole;
        ActsConcat(s.trace, part, pressed);
        assert t.trace[..|t.trace| - 1] == s.trace + part;
      }
    }
  }

  /** An execution from depth 0 performs at most e^6 events, so it presses, and
      releases, at most e^6 times. */
  lemma SixthPower(table: Table, id: nat, e: nat, pressed: bool)
    requires AtMost(table, e)
    ensures Acts(Expand(table, id, Levels(0)), pressed) <= Leaves(table, id, Levels(0)) <= e * e * e * e * e * e == Pow(e, Levels(0))
  {
    hide Acts, Expand, Leaves;
    ActsAtMostLeaves(table, id, 6, pressed);
    LeavesBounded(table, id, 6, e);
    PowSix(e);
  }

  lemma PowSix(e: nat)
    ensures Pow(e, 6) == e * e * e * e * e * e
  {
    var p2 := e * e;
    var p3 := e * p2;
    var p4 := e * p3;
    var p5 := e * p4;
    assert Pow(e, 1) == e && Pow(e, 2) == p2;
    assert Pow(e, 3) == p3 && Pow(e, 4) == p4 && Pow(e, 5) == p5 && Pow(e, 6) == e * p5;
  }

  // ---------- When the depth limit shows ----------

  /** rank grows along references, so that there are no cycles. */
  ghost predicate Ranked(table: Table, rank: nat -> nat) {
    forall id, i :: Find(table, id).Some? && 0 <= i < |Find(table, id).value.events| ==>
      var e := Find(table, id).value.events[i];
      (e.kind == KeyPress || e.kind == KeyTap) && IsMacro(e.value) ==> rank(e.value - ACTION_CODE_MACRO_MIN) < rank(id)
  }

  /** A macro whose references go less deep than the levels left means the same with
      more levels: the limit cuts off nothing. */
  lemma {:induction false} LimitInvisible(table: Table, rank: nat -> nat, id: nat, levels: nat, more: nat)
    requires Ranked(table, rank) && rank(id) < levels <= more
    ensures Expand(table, id, levels) == Expand(table, id, more)
    decreases levels, 1, 0
  {
    if Find(table, id).Some? {
      LimitInvisibleIn(table, rank, id, |Find(table, id).value.events|, levels, more);
      var events := Find(table, id).value.events;
      assert events[..|events|] == events;
    }
  }

  lemma {:induction false} LimitInvisibleIn(table: Table, rank: nat -> nat, id: nat, i: nat, levels: nat, more: nat)
    requires Ranked(table, rank) && rank(id) < levels <= more && Find(table, id).Some?
    requires i <= |Find(table, id).value.events|
    ensures var events := Find(table, id).value.events;
            ExpandEvents(table, events[..i], levels) == ExpandEvents(table, events[..i], more)
    decreases levels, 0, i
  {
    if i > 0 {
      var events := Find(table, id).value.events;
      var last := events[i - 1];
      LimitInvisibleIn(table, rank, id, i - 1, levels, more);
      assert events[..i][..i - 1] == events[..i - 1];
      if (last.kind == KeyPress || last.kind == KeyTap) && IsMacro(last.value) {
        LimitInvisible(table, rank, last.value - ACTION_CODE_MACRO_MIN, levels - 1, more - 1);
      }
      assert ExpandBody(table, last, levels) == ExpandBody(table, last, more);
      hide ExpandBody;
    }
  }

  /** A macro that only taps itself does nothing at any depth. */
  lemma {:induction false} SelfReferenceIsSilent(id: nat, levels: nat)
    requires IsMacro(ACTION_CODE_MACRO_MIN + id)
    ensures Expand([Definition(id, [Event(KeyTap, ACTION_CODE_MACRO_MIN + id, 0, 0)])], id, levels) == []
  {
    var e := Event(KeyTap, ACTION_CODE_MACRO_MIN + id, 0, 0);
    var table := [Definition(id, [e])];
    if levels > 0 {
      SelfReferenceIsSilent(id, levels - 1);
      assert [e][..0] == [];
      assert ExpandBody(table, e, levels) == [];
      assert ExpandEvents(table, [e], levels) == [];
    }
  }
}
