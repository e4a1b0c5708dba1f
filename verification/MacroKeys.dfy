/** Which keys a macro presses and releases and when, told from its events alone. */
module MacroKeys {
  import opened Options
  import Bits
  import opened Macro

  // ---------- The events, with the references resolved ----------

  predicate Refers(e: Event) {
    (e.kind == KeyPress || e.kind == KeyTap) && IsMacro(e.value)
  }

  /** A reference stands for the events of the macro it names and then its own delay; the
      release of a macro stands for its delay alone. */
  function Played(table: Table, id: nat, levels: nat): seq<Event>
    decreases levels, 1, 0
  {
    if levels == 0 || Find(table, id) == None then []
    else PlayedOf(table, Find(table, id).value.events, levels)
  }

  function PlayedOf(table: Table, events: seq<Event>, levels: nat): seq<Event>
    requires levels > 0
    decreases levels, 0, |events|
  {
    if events == [] then []
    else PlayedOf(table, events[..|events| - 1], levels) + PlayedEvent(table, events[|events| - 1], levels)
  }

  function PlayedEvent(table: Table, e: Event, levels: nat): seq<Event>
    requires levels > 0
    decreases levels, 0, 0
  {
    var rest := Event(Delay, e.delay, 0, 0);
    if Refers(e) then Played(table, e.value - ACTION_CODE_MACRO_MIN, levels - 1) + [rest]
    else if e.kind == KeyRelease && IsMacro(e.value) then [rest]
    else [e]
  }

  // ---------- What they press and release, and when ----------

  /** A press or a release, at a time in milliseconds. */
  datatype Note = Note(code: nat, pressed: bool, at: nat)

  /** How long an event takes. */
  function Length(e: Event): nat {
    e.delay + if e.kind == Delay then e.value else if e.kind == KeyTap then e.duration else 0
  }

  function Total(events: seq<Event>): nat {
    if events == [] then 0 else Total(events[..|events| - 1]) + Length(events[|events| - 1])
  }

  /** An event that begins at time t. */
  function NotesOf(e: Event, t: nat): seq<Note> {
    match e.kind
    case KeyPress => [Note(e.value, true, t)]
    case KeyRelease => [Note(e.value, false, t)]
    case KeyTap => [Note(e.value, true, t), Note(e.value, false, t + e.duration)]
    case Delay => []
    case Nothing => []
  }

  /** Events that follow each other from time t on. */
  function Notes(events: seq<Event>, t: nat): seq<Note> {
    if events == [] then []
    else
      var m := |events| - 1;
      Notes(events[..m], t) + NotesOf(events[m], t + Total(events[..m]))
  }

  // ---------- What the steps of a run press and release, and when ----------

  function Elapsed(steps: seq<Step>): nat {
    if steps == [] then 0 else Elapsed(steps[..|steps| - 1]) + if steps[|steps| - 1].Ms? then 1 else 0
  }

  function Heard(steps: seq<Step>, t: nat): seq<Note> {
    if steps == [] then []
    else
      var m := |steps| - 1;
      Heard(steps[..m], t) +
      if steps[m].Act? then [Note(steps[m].code, steps[m].pressed, t + Elapsed(steps[..m]))] else []
  }

  /** A report follows every press and release, and none is sent otherwise. */
  predicate Reported(steps: seq<Step>) {
    (forall i | 0 <= i < |steps| && steps[i].Act? :: i + 1 < |steps| && steps[i + 1] == SendReport) &&
    (forall i | 0 <= i < |steps| && steps[i] == SendReport :: i > 0 && steps[i - 1].Act?)
  }

  lemma {:induction false} ElapsedConcat(a: seq<Step>, b: seq<Step>)
    ensures Elapsed(a + b) == Elapsed(a) + Elapsed(b)
  {
    if b == [] {
      assert a + b == a;
    } else {
      ElapsedConcat(a, b[..|b| - 1]);
      assert (a + b)[..|a + b| - 1] == a + b[..|b| - 1];
    }
  }

  lemma {:induction false} HeardConcat(a: seq<Step>, b: seq<Step>, t: nat)
    ensures Heard(a + b, t) == Heard(a, t) + Heard(b, t + Elapsed(a))
  {
    hide Elapsed;
    if b == [] {
      assert a + b == a;
    } else {
      var m := |b| - 1;
      HeardConcat(a, b[..m], t);
      ElapsedConcat(a, b[..m]);
      assert (a + b)[..|a + b| - 1] == a + b[..m];
    }
  }

  lemma {:induction false} TotalConcat(a: seq<Event>, b: seq<Event>)
    ensures Total(a + b) == Total(a) + Total(b)
  {
    if b == [] {
      assert a + b == a;
    } else {
      TotalConcat(a, b[..|b| - 1]);
      assert (a + b)[..|a + b| - 1] == a + b[..|b| - 1];
    }
  }

  lemma {:induction false} NotesConcat(a: seq<Event>, b: seq<Event>, t: nat)
    ensures Notes(a + b, t) == Notes(a, t) + Notes(b, t + Total(a))
  {
    hide NotesOf, Total;
    if b == [] {
      assert a + b == a;
    } else {
      var m := |b| - 1;
      NotesConcat(a, b[..m], t);
      TotalConcat(a, b[..m]);
      assert (a + b)[..|a + b| - 1] == a + b[..m];
    }
  }

  lemma OneEvent(e: Event, t: nat)
    ensures Notes([e], t) == NotesOf(e, t) && Total([e]) == Length(e)
  {
    assert [e][..0] == [];
    assert Total([]) == 0 && Notes([], t) == [];
  }

  // ---------- The steps of one event ----------

  /** The steps sound like the events, take as long, and report what they do. */
  predicate Sounds(steps: seq<Step>, events: seq<Event>, t: nat) {
    Heard(steps, t) == Notes(events, t) && Elapsed(steps) == Total(events) && Reported(steps)
  }

  lemma SoundsConcat(a: seq<Step>, b: seq<Step>, x: seq<Event>, y: seq<Event>, t: nat)
    requires Sounds(a, x, t) && Sounds(b, y, t + Total(x))
    ensures Sounds(a + b, x + y, t)
  {
    hide Heard, Notes, Total, Elapsed;
    HeardConcat(a, b, t);
    ElapsedConcat(a, b);
    TotalConcat(x, y);
    NotesConcat(x, y, t);
  }

  lemma {:induction false} WaitSounds(ms: nat, t: nat)
    ensures Heard(Wait(ms), t) == [] && Elapsed(Wait(ms)) == ms
  {
    if ms > 0 {
      WaitSounds(ms - 1, t);
      assert Wait(ms)[..ms - 1] == Wait(ms - 1);
    }
  }

  lemma SingleSounds(code: nat, pressed: bool, t: nat)
    ensures Heard(Single(code, pressed), t) == [Note(code, pressed, t)] && Elapsed(Single(code, pressed)) == 0
  {
    var a := Act(code, pressed);
    assert [a, SendReport][..1] == [a] && [a][..0] == [];
    assert Elapsed([]) == 0 && Heard([], t) == [] && Elapsed([a]) == 0;
    assert Heard([a], t) == [Note(code, pressed, t)];
  }

  lemma TapSounds(code: nat, duration: nat, t: nat)
    ensures var steps := Single(code, true) + Wait(duration) + Single(code, false);
            Heard(steps, t) == [Note(code, true, t), Note(code, false, t + duration)] && Elapsed(steps) == duration && Reported(steps)
  {
    var down, up := Single(code, true), Single(code, false);
    hide Heard, Elapsed;
    SingleSounds(code, true, t);
    SingleSounds(code, false, t + duration);
    WaitSounds(duration, t);
    HeardConcat(down, Wait(duration), t);
    ElapsedConcat(down, Wait(duration));
    HeardConcat(down + Wait(duration), up, t);
    ElapsedConcat(down + Wait(duration), up);
  }

  /** An event that refers to no macro. */
  lemma LeafSounds(table: Table, e: Event, levels: nat, t: nat)
    requires levels > 0 && !Refers(e) && !(e.kind == KeyRelease && IsMacro(e.value))
    ensures Sounds(ExpandBody(table, e, levels), [e.(delay := 0)], t)
  {
    hide Heard, Elapsed, Notes, Total;
    OneEvent(e.(delay := 0), t);
    match e.kind
    case Nothing =>
      WaitSounds(0, t);
      assert Wait(0) == [];
    case KeyPress => SingleSounds(e.value, true, t);
    case KeyRelease => SingleSounds(e.value, false, t);
    case Delay => WaitSounds(e.value, t);
    case KeyTap => TapSounds(e.value, e.duration, t);
  }

  lemma DelaySounds(ms: nat, t: nat)
    ensures Sounds(Wait(ms), [Event(Delay, ms, 0, 0)], t)
  {
    WaitSounds(ms, t);
    OneEvent(Event(Delay, ms, 0, 0), t);
    hide Heard, Elapsed, Notes, Total;
  }

  lemma DelayAdds(e: Event, t: nat)
    ensures var a, b := e.(delay := 0), Event(Delay, e.delay, 0, 0);
            Length(e) == Length(a) + Length(b) && NotesOf(e, t) == NotesOf(a, t) && NotesOf(b, t + Length(a)) == []
  {
  }

  /** The delay of an event can be told apart from it. */
  lemma DelayApart(e: Event, t: nat)
    ensures Notes([e], t) == Notes([e.(delay := 0)] + [Event(Delay, e.delay, 0, 0)], t)
    ensures Total([e]) == Total([e.(delay := 0)] + [Event(Delay, e.delay, 0, 0)])
  {
    var a, b := e.(delay := 0), Event(Delay, e.delay, 0, 0);
    DelayAdds(e, t);
    hide Notes, Total, NotesOf, Length;
    OneEvent(e, t);
    OneEvent(a, t);
    OneEvent(b, t + Total([a]));
    NotesConcat([a], [b], t);
    TotalConcat([a], [b]);
  }

  // ---------- The steps of a macro ----------

  /** A macro presses and releases exactly what its events say, references resolved, at
      exactly these times, and takes exactly as long. */
  lemma {:induction false} ExpandSounds(table: Table, id: nat, levels: nat, t: nat)
    ensures Sounds(Expand(table, id, levels), Played(table, id, levels), t)
    decreases levels, 1, 0
  {
    if levels > 0 && Find(table, id).Some? {
      EventsSound(table, Find(table, id).value.events, levels, t);
    }
  }

  lemma {:induction false} EventsSound(table: Table, events: seq<Event>, levels: nat, t: nat)
    requires levels > 0
    ensures Sounds(ExpandEvents(table, events, levels), PlayedOf(table, events, levels), t)
    decreases levels, 0, |events|
  {
    hide Sounds, ExpandBody, PlayedEvent;
    if events == [] {
      assert Sounds([], [], t) by {
        NothingSounds(t);
      }
    } else {
      var m := |events| - 1;
      EventsSound(table, events[..m], levels, t);
      var so := PlayedOf(table, events[..m], levels);
      EventSounds(table, events[m], levels, t + Total(so));
      SoundsConcat(ExpandEvents(table, events[..m], levels), ExpandBody(table, events[m], levels) + Wait(events[m].delay),
                   so, PlayedEvent(table, events[m], levels), t);
    }
  }

  lemma NothingSounds(t: nat)
    ensures Sounds([], [], t)
  {
  }

  lemma {:induction false} EventSounds(table: Table, e: Event, levels: nat, t: nat)
    requires levels > 0
    ensures Sounds(ExpandBody(table, e, levels) + Wait(e.delay), PlayedEvent(table, e, levels), t)
    decreases levels, 0, 0
  {
    hide Heard, Elapsed, Notes, Total, Expand, Played;
    var rest := [Event(Delay, e.delay, 0, 0)];
    if Refers(e) {
      var nested := Played(table, e.value - ACTION_CODE_MACRO_MIN, levels - 1);
      ExpandSounds(table, e.value - ACTION_CODE_MACRO_MIN, levels - 1, t);
      DelaySounds(e.delay, t + Total(nested));
      SoundsConcat(ExpandBody(table, e, levels), Wait(e.delay), nested, rest, t);
    } else if e.kind == KeyRelease && IsMacro(e.value) {
      DelaySounds(e.delay, t);
      assert [] + Wait(e.delay) == Wait(e.delay);
    } else {
      var alone := [e.(delay := 0)];
      LeafSounds(table, e, levels, t);
      DelaySounds(e.delay, t + Total(alone));
      SoundsConcat(ExpandBody(table, e, levels), Wait(e.delay), alone, rest, t);
      DelayApart(e, t);
    }
  }

  /** Find is the first macro of the table with the id. */
  lemma {:induction false} FindsFirst(table: Table, id: nat)
    ensures match Find(table, id)
            case None => forall i | 0 <= i < |table| :: table[i].id != id
            case Some(found) =>
              exists i | 0 <= i < |table| :: table[i] == found && found.id == id && forall j | 0 <= j < i :: table[j].id != id
  {
    if table != [] && table[0].id != id {
      FindsFirst(table[1..], id);
      if Find(table, id).Some? {
        var i :| 0 <= i < |table[1..]| && table[1..][i] == Find(table, id).value && forall j | 0 <= j < i :: table[1..][j].id != id;
        assert forall j | 0 < j < i + 1 :: table[j] == table[1..][j - 1];
        assert table[i + 1] == Find(table, id).value;
      }
    }
  }

  // ---------- Main results ----------

  /** In a finished run every tap of an ordinary key, at any depth of nesting, presses its
      code at its place in time and releases it exactly its duration later, as the next
      thing; a press presses and a release releases its own code. */
  lemma EventIsHeard(table: Table, id: nat, levels: nat, k: nat)
    requires k < |Played(table, id, levels)|
    ensures var events := Played(table, id, levels);
            var heard, e, at := Heard(Expand(table, id, levels), 0), events[k], Total(events[..k]);
            var i := |Notes(events[..k], 0)|;
            Notes(events[..k], 0) <= heard &&
            (e.kind == KeyTap ==> i + 1 < |heard| && heard[i] == Note(e.value, true, at) && heard[i + 1] == Note(e.value, false, at + e.duration)) &&
            (e.kind == KeyPress ==> i < |heard| && heard[i] == Note(e.value, true, at)) &&
            (e.kind == KeyRelease ==> i < |heard| && heard[i] == Note(e.value, false, at))
  {
    hide Heard, Notes, Played, Expand, Total, Elapsed;
    var events := Played(table, id, levels);
    ExpandSounds(table, id, levels, 0);
    assert events == events[..k] + ([events[k]] + events[k + 1..]);
    NotesConcat(events[..k], [events[k]] + events[k + 1..], 0);
    NotesConcat([events[k]], events[k + 1..], Total(events[..k]));
    OneEvent(events[k], Total(events[..k]));
  }

  lemma {:induction false} PlayedAreOrdinary(table: Table, id: nat, levels: nat)
    ensures forall e | e in Played(table, id, levels) :: e.kind == Delay || e.kind == Nothing || !IsMacro(e.value)
    decreases levels, 1, 0
  {
    if levels > 0 && Find(table, id).Some? {
      PlayedOfAreOrdinary(table, Find(table, id).value.events, levels);
    }
  }

  lemma {:induction false} PlayedOfAreOrdinary(table: Table, events: seq<Event>, levels: nat)
    requires levels > 0
    ensures forall e | e in PlayedOf(table, events, levels) :: e.kind == Delay || e.kind == Nothing || !IsMacro(e.value)
    decreases levels, 0, |events|
  {
    if events != [] {
      var last := events[|events| - 1];
      PlayedOfAreOrdinary(table, events[..|events| - 1], levels);
      if Refers(last) {
        PlayedAreOrdinary(table, last.value - ACTION_CODE_MACRO_MIN, levels - 1);
      }
    }
  }

  // ---------- The virtual key bitmap ----------

  /** Whether the key is down after these notes, if it was down or not before. */
  predicate Held(notes: seq<Note>, code: nat, was: bool) {
    if notes == [] then was
    else if notes[|notes| - 1].code == code then notes[|notes| - 1].pressed
    else Held(notes[..|notes| - 1], code, was)
  }

  predicate IsHid(code: nat) {
    ACTION_CODE_HID_MIN <= code <= ACTION_CODE_HID_MAX
  }

  lemma TouchBit(nkro: seq<bv8>, s: Step, code: nat)
    requires |nkro| == NKRO_BYTES && IsHid(code)
    ensures Bits.Get(Touch(nkro, s), code) <==> if s.Act? && s.code == code then s.pressed else Bits.Get(nkro, code)
  {
    hide Bits.Get, Bits.Set, Bits.Clear;
    if s.Act? && IsHid(s.code) {
      Bits.GetSet(nkro, s.code, code);
      Bits.GetClear(nkro, s.code, code);
    }
  }

  lemma {:induction false} BitIsHeld(nkro: seq<bv8>, steps: seq<Step>, code: nat, t: nat)
    requires |nkro| == NKRO_BYTES && IsHid(code)
    ensures Bits.Get(TouchAll(nkro, steps), code) <==> Held(Heard(steps, t), code, Bits.Get(nkro, code))
  {
    hide Bits.Get, Touch, Elapsed;
    if steps != [] {
      var m := |steps| - 1;
      BitIsHeld(nkro, steps[..m], code, t);
      TouchBit(TouchAll(nkro, steps[..m]), steps[m], code);
      if steps[m].Act? {
        var before := Heard(steps[..m], t);
        assert Heard(steps, t)[..|before|] == before;
      } else {
        assert Heard(steps, t) == Heard(steps[..m], t);
      }
    }
  }

  /** The key is down after these events: of those with its code, the last is a press; or
      there is none and it was down before. */
  predicate Down(events: seq<Event>, code: nat, was: bool) {
    if events == [] then was
    else
      var e := events[|events| - 1];
      if e.value == code && e.kind == KeyPress then true
      else if e.value == code && (e.kind == KeyRelease || e.kind == KeyTap) then false
      else Down(events[..|events| - 1], code, was)
  }

  lemma HeldThen(notes: seq<Note>, note: Note, code: nat, was: bool)
    ensures Held(notes + [note], code, was) == if note.code == code then note.pressed else Held(notes, code, was)
  {
    assert (notes + [note])[..|notes|] == notes;
  }

  lemma {:induction false} HeldIsDown(events: seq<Event>, code: nat, was: bool, t: nat)
    ensures Held(Notes(events, t), code, was) == Down(events, code, was)
  {
    hide Held, Total;
    if events == [] {
      assert Held([], code, was) == was by {
        HeldNothing(code, was);
      }
    } else {
      var m := |events| - 1;
      var e, so, at := events[m], Notes(events[..m], t), t + Total(events[..m]);
      HeldIsDown(events[..m], code, was, t);
      match e.kind
      case KeyPress => HeldThen(so, Note(e.value, true, at), code, was);
      case KeyRelease => HeldThen(so, Note(e.value, false, at), code, was);
      case KeyTap =>
        var down, up := Note(e.value, true, at), Note(e.value, false, at + e.duration);
        HeldThen(so, down, code, was);
        HeldThen(so + [down], up, code, was);
        assert so + [down, up] == so + [down] + [up];
      case Delay => assert so + [] == so;
      case Nothing => assert so + [] == so;
    }
  }

  lemma HeldNothing(code: nat, was: bool)
    ensures Held([], code, was) == was
  {
  }

  /** After a finished run a key is down exactly if the last event with its code is a
      press, or there is none and it was down before. */
  lemma BitsTell(mode: Mode, s: State, t: State, table: Table, id: nat, levels: nat, code: nat)
    requires s.Shaped() && t.Shaped() && Ran(mode, s, t, Expand(table, id, levels), true, []) && IsHid(code)
    ensures Bits.Get(t.nkro, code) <==> Down(Played(table, id, levels), code, Bits.Get(s.nkro, code))
  {
    hide Bits.Get, TouchAll, Expand, Played, Held, Down, Heard;
    BitIsHeld(s.nkro, Expand(table, id, levels), code, 0);
    ExpandSounds(table, id, levels, 0);
    HeldIsDown(Played(table, id, levels), code, Bits.Get(s.nkro, code), 0);
  }

  lemma {:induction false} TapsLeaveUp(events: seq<Event>, code: nat, was: bool)
    requires forall e | e in events :: e.kind == KeyTap || e.kind == Delay || e.kind == Nothing
    ensures Down(events, code, was) <==> was && !exists e | e in events :: e.kind == KeyTap && e.value == code
  {
    if events != [] {
      var m := |events| - 1;
      TapsLeaveUp(events[..m], code, was);
      assert forall e :: e in events <==> e in events[..m] || e == events[m];
    }
  }

  /** A finished run of a macro that, references resolved, only taps and waits: exactly the
      keys that were down before and have not been tapped are down; so no key is down that
      was not before, and every tapped key is up. */
  lemma TapsLeaveNothingDown(mode: Mode, s: State, t: State, table: Table, id: nat, levels: nat, code: nat)
    requires s.Shaped() && t.Shaped() && Ran(mode, s, t, Expand(table, id, levels), true, []) && IsHid(code)
    requires forall e | e in Played(table, id, levels) :: e.kind == KeyTap || e.kind == Delay || e.kind == Nothing
    ensures Bits.Get(t.nkro, code) <==>
            Bits.Get(s.nkro, code) && !exists e | e in Played(table, id, levels) :: e.kind == KeyTap && e.value == code
  {
    hide Bits.Get, Ran, Expand, Played, Down;
    BitsTell(mode, s, t, table, id, levels, code);
    TapsLeaveUp(Played(table, id, levels), code, Bits.Get(s.nkro, code));
  }
}
