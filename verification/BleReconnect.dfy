/** The BLE reconnect scheduler (components/ble_module/ble_reconnect.c). */
module BleReconnect {

  const CFG_BLE_MAX_PROFILES: nat := 9
  const FINITE_CYCLES: nat := 5

  datatype Phase = Idle | Selected | Forever | Finite

  datatype Action = NoAction | RetrySelected | StartAdvertise | FallbackBackground

  /** pending is the set of the bits of pending_bitmap; -1 stands for no profile. */
  datatype Scheduler = Scheduler(
    phase: Phase,
    pending: set<nat>,
    cycles: seq<nat>,
    last: int,
    retriesLeft: int,
    directed: int
  ) {
    predicate Shaped() {
      |cycles| == CFG_BLE_MAX_PROFILES && -1 <= last < CFG_BLE_MAX_PROFILES
    }
  }

  datatype Outcome = Outcome(s: Scheduler, action: Action)

  predicate IsProfile(id: int) {
    0 <= id < CFG_BLE_MAX_PROFILES
  }

  function Zeros(): (z: seq<nat>)
    ensures |z| == CFG_BLE_MAX_PROFILES && forall i | 0 <= i < |z| :: z[i] == 0
  {
    [0, 0, 0, 0, 0, 0, 0, 0, 0]
  }

  const RESET := Scheduler(Idle, {}, Zeros(), -1, 0, -1)

  function StartSelected(id: int, retries: int): Scheduler {
    Scheduler(Selected, {}, Zeros(), -1, retries, id)
  }

  function StartCycling(s: Scheduler, phase: Phase, pending: set<nat>): (t: Scheduler)
    ensures t.Shaped()
  {
    Scheduler(phase, pending, Zeros(), -1, s.retriesLeft, -1)
  }

  /** The candidate at place i after the last profile. */
  function Candidate(last: int, i: nat): (c: nat)
    requires last >= -1
    ensures c < CFG_BLE_MAX_PROFILES
  {
    (last + i + CFG_BLE_MAX_PROFILES) % CFG_BLE_MAX_PROFILES
  }

  /** The first pending profile among candidates i to 9 after the last one. */
  function Seek(pending: set<nat>, last: int, i: nat): (picked: int)
    requires last >= -1
    ensures picked == -1 || (IsProfile(picked) && picked in pending)
    decreases CFG_BLE_MAX_PROFILES + 1 - i
  {
    if i > CFG_BLE_MAX_PROFILES then -1
    else if Candidate(last, i) in pending then Candidate(last, i)
    else Seek(pending, last, i + 1)
  }

  function PickNext(s: Scheduler): (t: Scheduler)
    requires s.Shaped()
    ensures t.Shaped() && t.cycles == s.cycles && t.pending == s.pending
  {
    var picked := Seek(s.pending, s.last, 1);
    if s.phase == Idle || s.pending == {} || picked == -1 then s.(directed := -1, phase := Idle)
    else s.(directed := picked, last := picked)
  }

  /** pick_next and the action that reports it. */
  function Advance(s: Scheduler): (o: Outcome)
    requires s.Shaped()
    ensures o.s.Shaped()
  {
    var t := PickNext(s);
    Outcome(t, if t.directed != -1 then StartAdvertise else FallbackBackground)
  }

  /** The selected profile has used up its retries. */
  function GiveUpSelected(s: Scheduler, id: int, isValid: bool): (o: Outcome)
    requires s.Shaped()
    ensures o.s.Shaped()
  {
    Advance(s.(phase := Forever, directed := -1, pending := if isValid && IsProfile(id) then s.pending + {id} else s.pending))
  }

  /** One more cycle of a profile, in a uint8_t. */
  function Cycled(s: Scheduler, id: int): (t: Scheduler)
    requires s.Shaped()
    ensures t.Shaped()
  {
    if IsProfile(id) then s.(cycles := s.cycles[id := (s.cycles[id] + 1) % 256]) else s
  }

  function OnAdvTimeout(s: Scheduler, id: int, isValid: bool): (o: Outcome)
    requires s.Shaped()
    ensures o.s.Shaped()
  {
    if id == -1 then Outcome(s.(directed := -1, phase := Idle), FallbackBackground)
    else
      match s.phase
      case Selected =>
        var t := Cycled(s, id).(retriesLeft := s.retriesLeft - 1);
        if t.retriesLeft <= 0 then GiveUpSelected(t, id, isValid)
        else if t.retriesLeft % 2 == 0 && t.pending != {} then Advance(t.(directed := -1))
        else Outcome(t.(directed := id), RetrySelected)
      case Forever => Advance(s.(directed := -1))
      case Finite =>
        var t := Cycled(s, id).(directed := -1);
        Advance(if IsProfile(id) && t.cycles[id] >= FINITE_CYCLES then t.(pending := t.pending - {id}) else t)
      case Idle => Outcome(s.(directed := -1), FallbackBackground)
  }

  function OnConnectFailed(s: Scheduler, id: int, isValid: bool): (o: Outcome)
    requires s.Shaped()
    ensures o.s.Shaped()
  {
    match s.phase
    case Idle => Outcome(s, FallbackBackground)
    case Selected =>
      var t := s.(retriesLeft := s.retriesLeft - 1);
      if t.retriesLeft > 0 then Outcome(t.(directed := id), RetrySelected) else GiveUpSelected(t, id, isValid)
    case _ => Advance(s)
  }

  function OnConnected(s: Scheduler, id: int): (o: Outcome)
    requires s.Shaped()
    ensures o.s.Shaped()
  {
    var t := if s.phase == Selected || s.phase == Forever then s.(phase := Finite, cycles := Zeros()) else s;
    var u := if IsProfile(id) then t.(pending := t.pending - {id}) else t;
    if u.phase == Finite && u.pending != {} then Advance(u)
    else Outcome(u.(phase := Idle, directed := -1), NoAction)
  }

  class Reconnect {
    var phase: Phase
    var pending: set<nat>
    var cycles: array<nat>
    var last: int
    var retriesLeft: int
    var directed: int

    ghost predicate Valid()
      reads this
    {
      cycles.Length == CFG_BLE_MAX_PROFILES && -1 <= last < CFG_BLE_MAX_PROFILES
    }

    ghost function View(): (s: Scheduler)
      requires Valid()
      reads this, cycles
      ensures s.Shaped()
    {
      Scheduler(phase, pending, cycles[..], last, retriesLeft, directed)
    }

    constructor ()
      ensures Valid() && fresh(cycles) && View() == RESET
    {
      cycles := new nat[CFG_BLE_MAX_PROFILES](i => 0);
      phase, pending, last, retriesLeft, directed := Idle, {}, -1, 0, -1;
      new;
      assert cycles[..] == Zeros();
    }

    method ClearCycles()
      requires Valid()
      modifies cycles
      ensures cycles[..] == Zeros()
    {
      forall i | 0 <= i < cycles.Length {
        cycles[i] := 0;
      }
    }

    method Reset()
      requires Valid()
      modifies this, cycles
      ensures Valid() && cycles == old(cycles) && View() == RESET
    {
      phase, pending, retriesLeft, directed, last := Idle, {}, 0, -1, -1;
      ClearCycles();
    }

    method BeginSelected(id: int, retries: int)
      requires Valid()
      modifies this, cycles
      ensures Valid() && cycles == old(cycles) && View() == StartSelected(id, retries)
    {
      pending, phase, retriesLeft := {}, Selected, retries;
      ClearCycles();
      last, directed := -1, id;
    }

    /** ble_reconnect_start_finite and ble_reconnect_start_forever. */
    method BeginCycling(newPhase: Phase, bitmap: set<nat>)
      requires Valid()
      modifies this, cycles
      ensures Valid() && cycles == old(cycles) && View() == StartCycling(old(View()), newPhase, bitmap)
    {
      pending, phase := bitmap, newPhase;
      ClearCycles();
      last, directed := -1, -1;
    }

    method Pick() returns (picked: int)
      requires Valid()
      modifies this`phase, this`last, this`directed
      ensures Valid() && View() == PickNext(old(View())) && picked == directed
    {
      if phase == Idle || pending == {} {
        directed, phase := -1, Idle;
        return -1;
      }
      picked := -1;
      var i := 1;
      while i <= CFG_BLE_MAX_PROFILES && picked == -1
        invariant 1 <= i <= CFG_BLE_MAX_PROFILES + 1
        invariant Seek(pending, last, 1) == if picked == -1 then Seek(pending, last, i) else picked
        invariant picked == -1 || IsProfile(picked)
        decreases CFG_BLE_MAX_PROFILES + 1 - i, picked == -1
      {
        var candidate := (last + i + CFG_BLE_MAX_PROFILES) % CFG_BLE_MAX_PROFILES;
        if candidate in pending {
          picked := candidate;
        } else {
          i := i + 1;
        }
      }
      if picked != -1 {
        directed, last := picked, picked;
      } else {
        directed, phase := -1, Idle;
      }
    }

    method PickAndReport() returns (action: Action)
      requires Valid()
      modifies this`phase, this`last, this`directed
      ensures Valid() && Outcome(View(), action) == Advance(old(View()))
    {
      hide PickNext;
      var next := Pick();
      action := if next != -1 then StartAdvertise else FallbackBackground;
    }

    method AdvTimeout(id: int, isValid: bool) returns (action: Action)
      requires Valid()
      modifies this`phase, this`pending, this`last, this`retriesLeft, this`directed, cycles
      ensures Valid() && Outcome(View(), action) == OnAdvTimeout(old(View()), id, isValid)
    {
      hide PickNext;
      if id == -1 {
        directed, phase := -1, Idle;
        return FallbackBackground;
      }
      if phase == Selected {
        if 0 <= id < CFG_BLE_MAX_PROFILES {
          cycles[id] := (cycles[id] + 1) % 256;
        }
        retriesLeft := retriesLeft - 1;
        assert View() == Cycled(old(View()), id).(retriesLeft := retriesLeft);
        if retriesLeft > 0 {
          if retriesLeft % 2 == 0 && pending != {} {
            directed := -1;
            action := PickAndReport();
          } else {
            directed := id;
            return RetrySelected;
          }
        } else {
          if isValid && 0 <= id < CFG_BLE_MAX_PROFILES {
            pending := pending + {id};
          }
          phase, directed := Forever, -1;
          action := PickAndReport();
        }
      } else if phase == Forever {
        directed := -1;
        action := PickAndReport();
      } else if phase == Finite {
        if 0 <= id < CFG_BLE_MAX_PROFILES {
          cycles[id] := (cycles[id] + 1) % 256;
          if cycles[id] >= FINITE_CYCLES {
            pending := pending - {id};
          }
        }
        directed := -1;
        action := PickAndReport();
      } else {
        directed, phase := -1, Idle;
        return FallbackBackground;
      }
    }

    method ConnectFailed(id: int, isValid: bool) returns (action: Action)
      requires Valid()
      modifies this`phase, this`pending, this`last, this`retriesLeft, this`directed
      ensures Valid() && Outcome(View(), action) == OnConnectFailed(old(View()), id, isValid)
    {
      hide PickNext;
      if phase == Idle {
        return FallbackBackground;
      }
      if phase == Selected {
        retriesLeft := retriesLeft - 1;
        if retriesLeft > 0 {
          directed := id;
          return RetrySelected;
        }
        if isValid && 0 <= id < CFG_BLE_MAX_PROFILES {
          pending := pending + {id};
        }
        phase, directed := Forever, -1;
      }
      action := PickAndReport();
    }

    method Connected(id: int) returns (action: Action)
      requires Valid()
      modifies this`phase, this`pending, this`last, this`directed, cycles
      ensures Valid() && Outcome(View(), action) == OnConnected(old(View()), id)
    {
      hide PickNext;
      if phase == Selected || phase == Forever {
        phase := Finite;
        ClearCycles();
      }
      if 0 <= id < CFG_BLE_MAX_PROFILES {
        pending := pending - {id};
      }
      if phase == Finite && pending != {} {
        action := PickAndReport();
        return;
      }
      phase, directed := Idle, -1;
      return NoAction;
    }
  }

  // ---------- The pending profiles in the order of their turns ----------

  lemma CandidateShift(last: int, a: nat, m: nat)
    requires -1 <= last < CFG_BLE_MAX_PROFILES
    ensures Candidate(Candidate(last, a), m) == Candidate(last, a + m)
    ensures Candidate(last, a + CFG_BLE_MAX_PROFILES) == Candidate(last, a)
  {
  }

  /** The place of a profile after the last one. */
  function Place(last: int, c: nat): (i: nat)
    requires -1 <= last < CFG_BLE_MAX_PROFILES && c < CFG_BLE_MAX_PROFILES
    ensures 1 <= i <= CFG_BLE_MAX_PROFILES && Candidate(last, i) == c
  {
    if c > last then c - last else c - last + CFG_BLE_MAX_PROFILES
  }

  lemma {:induction false} SeekFinds(pending: set<nat>, last: int, i: nat, t: nat)
    requires last >= -1 && 1 <= i <= t <= CFG_BLE_MAX_PROFILES && Candidate(last, t) in pending
    requires forall m | i <= m < t :: Candidate(last, m) !in pending
    ensures Seek(pending, last, i) == Candidate(last, t)
    decreases t - i
  {
    hide Candidate;
    if i < t {
      SeekFinds(pending, last, i + 1, t);
    }
  }

  lemma {:induction false} SeekSucceeds(pending: set<nat>, last: int, i: nat, t: nat)
    requires last >= -1 && 1 <= i <= t <= CFG_BLE_MAX_PROFILES && Candidate(last, t) in pending
    ensures Seek(pending, last, i) != -1
    decreases t - i
  {
    hide Candidate;
    if i < t {
      SeekSucceeds(pending, last, i + 1, t);
    }
  }

  /** The places, from i on, at which there are pending profiles. */
  function Places(pending: set<nat>, last: int, i: nat): (list: seq<nat>)
    requires last >= -1 && i <= CFG_BLE_MAX_PROFILES + 1
    ensures forall k | 0 <= k < |list| :: i <= list[k] <= CFG_BLE_MAX_PROFILES && Candidate(last, list[k]) in pending
    ensures forall k, m | 0 <= k < m < |list| :: list[k] < list[m]
    decreases CFG_BLE_MAX_PROFILES + 1 - i
  {
    if i == CFG_BLE_MAX_PROFILES + 1 then []
    else if Candidate(last, i) in pending then [i] + Places(pending, last, i + 1)
    else Places(pending, last, i + 1)
  }

  lemma {:induction false} IsPlaced(pending: set<nat>, last: int, i: nat, t: nat) returns (k: nat)
    requires last >= -1 && i <= t <= CFG_BLE_MAX_PROFILES && Candidate(last, t) in pending
    ensures k < |Places(pending, last, i)| && Places(pending, last, i)[k] == t
    decreases CFG_BLE_MAX_PROFILES - i
  {
    hide Candidate;
    if i == t {
      k := 0;
    } else {
      k := IsPlaced(pending, last, i + 1, t);
      k := if Candidate(last, i) in pending then k + 1 else k;
    }
  }

  lemma PlacesDiffer(last: int, a: nat, b: nat)
    requires -1 <= last < CFG_BLE_MAX_PROFILES && 1 <= a < b <= CFG_BLE_MAX_PROFILES
    ensures Candidate(last, a) != Candidate(last, b)
  {
  }

  /** The pending profiles, in ascending order from the one after the last, and around. */
  function Round(pending: set<nat>, last: int): (list: seq<nat>)
    requires -1 <= last < CFG_BLE_MAX_PROFILES
    ensures forall k | 0 <= k < |list| :: list[k] < CFG_BLE_MAX_PROFILES && list[k] in pending
    ensures forall k, m | 0 <= k < m < |list| :: list[k] != list[m]
  {
    var places := Places(pending, last, 1);
    forall k, m {:trigger places[k], places[m]} | 0 <= k < m < |places| ensures Candidate(last, places[k]) != Candidate(last, places[m]) {
      PlacesDiffer(last, places[k], places[m]);
    }
    seq(|places|, k requires 0 <= k < |places| => Candidate(last, places[k]))
  }

  lemma EveryPendingInRound(pending: set<nat>, last: int, c: nat) returns (k: nat)
    requires -1 <= last < CFG_BLE_MAX_PROFILES && c in pending && c < CFG_BLE_MAX_PROFILES
    ensures k < |Round(pending, last)| && Round(pending, last)[k] == c
  {
    k := IsPlaced(pending, last, 1, Place(last, c));
  }

  /** Between the j-th place and the one after it, going around, nothing is pending. */
  lemma NothingBetween(pending: set<nat>, last: int, j: nat, place: nat)
    requires -1 <= last < CFG_BLE_MAX_PROFILES && j < |Places(pending, last, 1)| && 1 <= place <= CFG_BLE_MAX_PROFILES
    requires var places := Places(pending, last, 1);
             if j + 1 < |places| then places[j] < place < places[j + 1] else places[j] < place || place < places[0]
    ensures Candidate(last, place) !in pending
  {
    hide Candidate, Places;
    if Candidate(last, place) in pending {
      var k := IsPlaced(pending, last, 1, place);
    }
  }

  /** Going on for m places from place a. */
  function GoOn(a: nat, m: nat): nat {
    if a + m <= CFG_BLE_MAX_PROFILES then a + m else a + m - CFG_BLE_MAX_PROFILES
  }

  lemma GoOnIs(last: int, a: nat, m: nat)
    requires -1 <= last < CFG_BLE_MAX_PROFILES
    ensures Candidate(Candidate(last, a), m) == Candidate(last, GoOn(a, m))
  {
    hide Candidate;
    CandidateShift(last, a, m);
    CandidateShift(last, GoOn(a, m), 0);
  }

  lemma RoundIs(pending: set<nat>, last: int)
    requires -1 <= last < CFG_BLE_MAX_PROFILES
    ensures var places := Places(pending, last, 1);
            |Round(pending, last)| == |places| &&
            forall k | 0 <= k < |places| :: Round(pending, last)[k] == Candidate(last, places[k])
  {
    hide Candidate, Places;
  }

  /** Whatever of the round is left, the profile after the j-th one is the next in it. */
  lemma NextInRound(pending: set<nat>, last: int, j: nat, left: set<nat>)
    requires -1 <= last < CFG_BLE_MAX_PROFILES && j < |Round(pending, last)|
    requires forall c | c in left && c < CFG_BLE_MAX_PROFILES :: c in pending
    requires var list := Round(pending, last); list[if j + 1 < |list| then j + 1 else 0] in left
    ensures var list := Round(pending, last); Seek(left, list[j], 1) == list[if j + 1 < |list| then j + 1 else 0]
  {
    hide Candidate, Round, Seek, Places;
    RoundIs(pending, last);
    var places := Places(pending, last, 1);
    var next := if j + 1 < |places| then j + 1 else 0;
    var here, there := places[j], places[next];
    var t := if j + 1 < |places| then there - here else there - here + CFG_BLE_MAX_PROFILES;
    GoOnIs(last, here, t);
    forall m | 1 <= m < t ensures Candidate(Candidate(last, here), m) !in left {
      GoOnIs(last, here, m);
      NothingBetween(pending, last, j, GoOn(here, m));
    }
    SeekFinds(left, Candidate(last, here), 1, t);
  }

  // ---------- Runs driven by timeouts of the advertised profile ----------

  /** After the first pick and k timeouts. */
  function After(s: Scheduler, k: nat): (t: Scheduler)
    requires s.Shaped()
    ensures t.Shaped()
  {
    if k == 0 then PickNext(s)
    else
      var before := After(s, k - 1);
      OnAdvTimeout(before, before.directed, true).s
  }

  lemma AfterOneMore(s: Scheduler, k: nat)
    requires s.Shaped()
    ensures After(s, k + 1) == OnAdvTimeout(After(s, k), After(s, k).directed, true).s && After(s, 0) == PickNext(s)
  {
    hide OnAdvTimeout, PickNext;
  }

  /** Advertising the j-th pending profile in round q of the finite phase. */
  ghost predicate InFiniteRound(s: Scheduler, pending: set<nat>, last: int, q: nat, j: nat)
    requires -1 <= last < CFG_BLE_MAX_PROFILES && j < |Round(pending, last)|
  {
    var list := Round(pending, last);
    s.Shaped() && s.phase == Finite && s.directed == list[j] && s.last == list[j] &&
    (forall k | 0 <= k < |list| :: s.cycles[list[k]] == if k < j then q + 1 else q) &&
    forall c :: c in s.pending <==> c in pending && (c < CFG_BLE_MAX_PROFILES ==> s.cycles[c] < FINITE_CYCLES)
  }

  /** No cycle of the pending profiles has been used up yet. */
  predicate Fresh(s: Scheduler) {
    s.Shaped() && forall c | 0 <= c < CFG_BLE_MAX_PROFILES && c in s.pending :: s.cycles[c] == 0
  }

  lemma FirstOfRound(pending: set<nat>, last: int)
    requires -1 <= last < CFG_BLE_MAX_PROFILES && Round(pending, last) != []
    ensures Seek(pending, last, 1) == Round(pending, last)[0]
  {
    hide Candidate, Round, Places, Seek;
    RoundIs(pending, last);
    var places := Places(pending, last, 1);
    forall m | 1 <= m < places[0] ensures Candidate(last, m) !in pending {
      NothingBetween(pending, last, |places| - 1, m);
    }
    SeekFinds(pending, last, 1, places[0]);
  }

  lemma FiniteStarts(s: Scheduler)
    requires Fresh(s) && s.phase == Finite && Round(s.pending, s.last) != []
    ensures InFiniteRound(PickNext(s), s.pending, s.last, 0, 0)
  {
    hide Round, Seek;
    FirstOfRound(s.pending, s.last);
  }

  /** What a timeout leaves before the next pick. */
  function TimedOut(s: Scheduler): (t: Scheduler)
    requires s.Shaped() && IsProfile(s.directed)
    ensures t.Shaped()
  {
    var id := s.directed;
    var t := Cycled(s, id).(directed := -1);
    if t.cycles[id] >= FINITE_CYCLES then t.(pending := t.pending - {id}) else t
  }

  lemma CyclesAdvance(s: Scheduler, pending: set<nat>, last: int, q: nat, j: nat)
    requires -1 <= last < CFG_BLE_MAX_PROFILES && j < |Round(pending, last)| && q < FINITE_CYCLES
    requires InFiniteRound(s, pending, last, q, j)
    ensures var list := Round(pending, last);
            var t := TimedOut(s);
            t.phase == Finite && t.last == list[j] && OnAdvTimeout(s, s.directed, true).s == PickNext(t) &&
            (forall k | 0 <= k < |list| :: t.cycles[list[k]] == if k <= j then q + 1 else q) &&
            forall c :: c in t.pending <==> c in pending && (c < CFG_BLE_MAX_PROFILES ==> t.cycles[c] < FINITE_CYCLES)
  {
    hide PickNext, Round;
    var list := Round(pending, last);
    assert forall k | 0 <= k < |list| && k != j :: list[k] != list[j];
  }

  lemma RoundStep(s: Scheduler, pending: set<nat>, last: int, q: nat, j: nat)
    requires -1 <= last < CFG_BLE_MAX_PROFILES && j < |Round(pending, last)| && q < FINITE_CYCLES
    requires InFiniteRound(s, pending, last, q, j)
    ensures var t := OnAdvTimeout(s, s.directed, true).s;
            if j + 1 < |Round(pending, last)| then InFiniteRound(t, pending, last, q, j + 1)
            else q + 1 < FINITE_CYCLES ==> InFiniteRound(t, pending, last, q + 1, 0)
  {
    hide Round, OnAdvTimeout, TimedOut, Seek;
    CyclesAdvance(s, pending, last, q, j);
    var list := Round(pending, last);
    var t := TimedOut(s);
    var next := if j + 1 < |list| then j + 1 else 0;
    if j + 1 < |list| || q + 1 < FINITE_CYCLES {
      assert t.cycles[list[next]] < FINITE_CYCLES && list[next] in t.pending;
      NextInRound(pending, last, j, t.pending);
    }
  }

  /** q rounds of n timeouts and j more. */
  function Turns(q: nat, n: nat, j: nat): nat {
    if q == 0 then j else n + Turns(q - 1, n, j)
  }

  lemma {:induction false} TurnsIs(q: nat, n: nat, j: nat)
    ensures Turns(q, n, j) == q * n + j
  {
    if q > 0 {
      TurnsIs(q - 1, n, j);
    }
  }

  lemma {:induction false} TurnsStep(q: nat, n: nat, j: nat)
    ensures j > 0 ==> Turns(q, n, j) == Turns(q, n, j - 1) + 1
    ensures q > 0 && n > 0 && j == 0 ==> Turns(q, n, 0) == Turns(q - 1, n, n - 1) + 1
  {
    if q > 0 {
      TurnsStep(q - 1, n, j);
      if n > 1 {
        TurnsStep(q - 1, n, n - 1);
      }
      if q > 1 {
        TurnsStep(q - 1, n, 0);
      }
    }
  }

  /** So it is entered by a connection: no cycle is used up, and the last profile stays. */
  lemma ConnectionStartsFresh(s: Scheduler, id: int) returns (u: Scheduler)
    requires s.Shaped() && (s.phase == Selected || s.phase == Forever) && OnConnected(s, id).s.phase == Finite
    ensures Fresh(u) && u.phase == Finite && u.last == s.last && OnConnected(s, id).s == After(u, 0)
    ensures u.pending == if IsProfile(id) then s.pending - {id} else s.pending
  {
    hide PickNext;
    u := s.(phase := Finite, cycles := Zeros(), pending := if IsProfile(id) then s.pending - {id} else s.pending);
  }

  /** However the finite phase is entered, the pending profiles are advertised in
      ascending order from the one after the last, around and around: after q full
      rounds and j more timeouts it is the j-th one's turn, and the first j are one
      cycle ahead of the others. */
  lemma {:induction false} FiniteRoundRobin(s: Scheduler, q: nat, j: nat)
    requires Fresh(s) && s.phase == Finite && j < |Round(s.pending, s.last)| && q < FINITE_CYCLES
    ensures InFiniteRound(After(s, Turns(q, |Round(s.pending, s.last)|, j)), s.pending, s.last, q, j)
    decreases q, j
  {
    hide Round, InFiniteRound, OnAdvTimeout, PickNext, After, Turns;
    var n := |Round(s.pending, s.last)|;
    TurnsStep(q, n, j);
    if j > 0 {
      FiniteRoundRobin(s, q, j - 1);
      AfterOneMore(s, Turns(q, n, j - 1));
      RoundStep(After(s, Turns(q, n, j - 1)), s.pending, s.last, q, j - 1);
    } else if q > 0 {
      FiniteRoundRobin(s, q - 1, n - 1);
      AfterOneMore(s, Turns(q - 1, n, n - 1));
      RoundStep(After(s, Turns(q - 1, n, n - 1)), s.pending, s.last, q - 1, n - 1);
    } else {
      TurnsIs(0, n, 0);
      AfterOneMore(s, 0);
      FiniteStarts(s);
    }
  }

  /** After exactly five timeouts per pending profile, and no earlier, the scheduler
      is idle; every pending profile has then been advertised five times. */
  lemma FiniteEnds(s: Scheduler, k: nat)
    requires Fresh(s) && s.phase == Finite && Round(s.pending, s.last) != []
    requires k <= FINITE_CYCLES * |Round(s.pending, s.last)|
    ensures var list := Round(s.pending, s.last);
            var t := After(s, k);
            (t.phase == Idle <==> k == FINITE_CYCLES * |list|) && (t.directed == -1 <==> t.phase == Idle) &&
            (t.phase == Idle ==> forall c | c in list :: t.cycles[c] == FINITE_CYCLES)
  {
    hide Round, OnAdvTimeout, PickNext, After, Turns;
    var n := |Round(s.pending, s.last)|;
    TurnsIs(4, n, n - 1);
    if k < FINITE_CYCLES * n {
      var q := if k < n then 0 else if k < 2 * n then 1 else if k < 3 * n then 2 else if k < 4 * n then 3 else 4;
      TurnsIs(q, n, k - q * n);
      FiniteRoundRobin(s, q, k - q * n);
    } else {
      FiniteRoundRobin(s, 4, n - 1);
      AfterOneMore(s, k - 1);
      LastTimeout(After(s, k - 1), s.pending, s.last);
    }
  }

  lemma LastTimeout(s: Scheduler, pending: set<nat>, last: int)
    requires -1 <= last < CFG_BLE_MAX_PROFILES && Round(pending, last) != []
    requires InFiniteRound(s, pending, last, 4, |Round(pending, last)| - 1)
    ensures var t := OnAdvTimeout(s, s.directed, true).s;
            t.phase == Idle && t.directed == -1 && forall c | c in Round(pending, last) :: t.cycles[c] == FINITE_CYCLES
  {
    hide Round, OnAdvTimeout, TimedOut, Seek;
    var list := Round(pending, last);
    CyclesAdvance(s, pending, last, 4, |list| - 1);
    var t := TimedOut(s);
    forall c | 0 <= c < CFG_BLE_MAX_PROFILES ensures c !in t.pending {
      if c in pending {
        var k := EveryPendingInRound(pending, last, c);
        assert t.cycles[list[k]] == FINITE_CYCLES;
      }
    }
  }

  // ---------- The forever phase ----------

  predicate InForeverRound(s: Scheduler, pending: set<nat>, last: int, j: nat)
    requires -1 <= last < CFG_BLE_MAX_PROFILES && j < |Round(pending, last)|
  {
    s.phase == Forever && s.pending == pending && s.directed == s.last == Round(pending, last)[j]
  }

  lemma ForeverStep(s: Scheduler, pending: set<nat>, last: int, j: nat)
    requires -1 <= last < CFG_BLE_MAX_PROFILES && j < |Round(pending, last)| && s.Shaped() && InForeverRound(s, pending, last, j)
    ensures InForeverRound(OnAdvTimeout(s, s.directed, true).s, pending, last, if j + 1 < |Round(pending, last)| then j + 1 else 0)
  {
    hide Round, Seek;
    NextInRound(pending, last, j, pending);
  }

  /** In the forever phase the same order repeats without end. */
  lemma {:induction false} ForeverRoundRobin(s: Scheduler, q: nat, j: nat)
    requires s.Shaped() && s.phase == Forever && j < |Round(s.pending, s.last)|
    ensures InForeverRound(After(s, Turns(q, |Round(s.pending, s.last)|, j)), s.pending, s.last, j)
    decreases q, j
  {
    hide Round, InForeverRound, OnAdvTimeout, PickNext, After, Turns;
    var n := |Round(s.pending, s.last)|;
    TurnsStep(q, n, j);
    if j > 0 {
      ForeverRoundRobin(s, q, j - 1);
      AfterOneMore(s, Turns(q, n, j - 1));
      ForeverStep(After(s, Turns(q, n, j - 1)), s.pending, s.last, j - 1);
    } else if q > 0 {
      ForeverRoundRobin(s, q - 1, n - 1);
      AfterOneMore(s, Turns(q - 1, n, n - 1));
      ForeverStep(After(s, Turns(q - 1, n, n - 1)), s.pending, s.last, n - 1);
    } else {
      TurnsIs(0, n, 0);
      AfterOneMore(s, 0);
      ForeverStarts(s);
    }
  }

  lemma ForeverStarts(s: Scheduler)
    requires s.Shaped() && s.phase == Forever && Round(s.pending, s.last) != []
    ensures InForeverRound(PickNext(s), s.pending, s.last, 0)
  {
    hide Round, Seek;
    FirstOfRound(s.pending, s.last);
  }

  // ---------- The end of the finite phase, with timeouts and failed connections ----------

  /** What is left to advertise in the finite phase, of the profiles from i on. */
  function Remaining(s: Scheduler, i: nat): nat
    requires s.Shaped() && i <= CFG_BLE_MAX_PROFILES
    decreases CFG_BLE_MAX_PROFILES - i
  {
    if i == CFG_BLE_MAX_PROFILES then 0
    else (if i in s.pending && s.cycles[i] < FINITE_CYCLES then FINITE_CYCLES - s.cycles[i] else 0) + Remaining(s, i + 1)
  }

  lemma {:induction false} RemainingOneLess(s: Scheduler, t: Scheduler, id: nat, i: nat)
    requires s.Shaped() && t.Shaped() && id < CFG_BLE_MAX_PROFILES && i <= CFG_BLE_MAX_PROFILES
    requires forall c | 0 <= c < CFG_BLE_MAX_PROFILES && c != id :: (c in t.pending <==> c in s.pending) && t.cycles[c] == s.cycles[c]
    requires id in s.pending && s.cycles[id] < FINITE_CYCLES && t.cycles[id] == s.cycles[id] + 1
    requires t.cycles[id] < FINITE_CYCLES ==> id in t.pending
    ensures Remaining(t, i) == Remaining(s, i) - if i <= id then 1 else 0
    decreases CFG_BLE_MAX_PROFILES - i
  {
    if i < CFG_BLE_MAX_PROFILES {
      RemainingOneLess(s, t, id, i + 1);
    }
  }

  lemma {:induction false} NothingRemains(s: Scheduler, i: nat)
    requires s.Shaped() && i <= CFG_BLE_MAX_PROFILES
    ensures Remaining(s, i) == 0 <==>
            forall c | i <= c < CFG_BLE_MAX_PROFILES :: !(c in s.pending && s.cycles[c] < FINITE_CYCLES)
    decreases CFG_BLE_MAX_PROFILES - i
  {
    if i < CFG_BLE_MAX_PROFILES {
      NothingRemains(s, i + 1);
    }
  }

  lemma TimedOutOneLess(s: Scheduler)
    requires s.Shaped() && IsProfile(s.directed) && s.directed in s.pending && s.cycles[s.directed] < FINITE_CYCLES
    ensures Remaining(TimedOut(s), 0) == Remaining(s, 0) - 1
  {
    hide Remaining;
    RemainingOneLess(s, TimedOut(s), s.directed, 0);
  }

  lemma TimeoutIs(s: Scheduler, id: int, isValid: bool)
    requires s.Shaped() && s.phase == Finite && IsProfile(id)
    ensures OnAdvTimeout(s, id, isValid).s == PickNext(TimedOut(s.(directed := id)))
  {
    hide PickNext;
  }

  /** A timeout of any pending profile uses up one cycle of it. */
  lemma TimeoutUsesACycle(s: Scheduler, id: nat, isValid: bool)
    requires s.Shaped() && s.phase == Finite && IsProfile(id) && id in s.pending && s.cycles[id] < FINITE_CYCLES
    ensures Remaining(OnAdvTimeout(s, id, isValid).s, 0) == Remaining(s, 0) - 1
  {
    hide Remaining, PickNext, OnAdvTimeout, TimedOut;
    var u := s.(directed := id);
    TimeoutIs(s, id, isValid);
    TimedOutOneLess(u);
    RemainingSame(u, s, 0);
    RemainingSame(TimedOut(u), PickNext(TimedOut(u)), 0);
  }

  /** Advertising a pending profile in the finite phase, with every pending one still to
      go; how the phase was entered and what was advertised last does not matter. */
  predicate Cycling(s: Scheduler) {
    s.Shaped() && s.phase == Finite && IsProfile(s.directed) && s.directed in s.pending &&
    forall c | 0 <= c < CFG_BLE_MAX_PROFILES && c in s.pending :: s.cycles[c] < FINITE_CYCLES
  }

  /** Idle with no profile pending. */
  predicate Spent(s: Scheduler) {
    s.phase == Idle && s.directed == -1 && forall c | 0 <= c < CFG_BLE_MAX_PROFILES :: c !in s.pending
  }

  /** A pick goes on exactly while something remains. */
  lemma PickGoesOn(s: Scheduler)
    requires s.Shaped() && s.phase == Finite
    requires forall c | 0 <= c < CFG_BLE_MAX_PROFILES && c in s.pending :: s.cycles[c] < FINITE_CYCLES
    ensures var t := PickNext(s);
            if Remaining(s, 0) > 0 then Cycling(t) else Spent(t)
  {
    hide Remaining, Seek, Candidate;
    NothingRemains(s, 0);
    if c :| 0 <= c < CFG_BLE_MAX_PROFILES && c in s.pending {
      SeekSucceeds(s.pending, s.last, 1, Place(s.last, c));
    }
  }

  /** The advertised profile times out, or its connection fails. */
  datatype Try = TimesOut(isValid: bool) | Fails(isValid: bool)

  function Tried(s: Scheduler, x: Try): (t: Scheduler)
    requires s.Shaped()
    ensures t.Shaped()
  {
    match x
    case TimesOut(isValid) => OnAdvTimeout(s, s.directed, isValid).s
    case Fails(isValid) => OnConnectFailed(s, s.directed, isValid).s
  }

  function Driven(s: Scheduler, tries: seq<Try>): (t: Scheduler)
    requires s.Shaped()
    ensures t.Shaped()
  {
    if tries == [] then s else Tried(Driven(s, tries[..|tries| - 1]), tries[|tries| - 1])
  }

  function Timeouts(tries: seq<Try>): nat {
    if tries == [] then 0 else Timeouts(tries[..|tries| - 1]) + if tries[|tries| - 1].TimesOut? then 1 else 0
  }

  /** Every profile pending in s is still pending in t or has used up its cycles. */
  predicate Served(s: Scheduler, t: Scheduler)
    requires s.Shaped() && t.Shaped()
  {
    forall c | 0 <= c < CFG_BLE_MAX_PROFILES && c in s.pending :: c in t.pending || t.cycles[c] == FINITE_CYCLES
  }

  /** A failed connection uses up nothing: the next pending profile is advertised. */
  lemma FailureUsesNone(s: Scheduler, id: nat, isValid: bool)
    requires s.Shaped() && s.phase == Finite && IsProfile(id) && id in s.pending
    ensures var t := OnConnectFailed(s, id, isValid).s;
            t.phase == Finite && t.pending == s.pending && t.cycles == s.cycles && IsProfile(t.directed) && t.directed in s.pending
  {
    hide Seek, Candidate;
    SeekSucceeds(s.pending, s.last, 1, Place(s.last, id));
  }

  lemma TryStep(start: Scheduler, s: Scheduler, x: Try)
    requires start.Shaped() && Cycling(s) && Served(start, s)
    ensures var t := Tried(s, x);
            Remaining(t, 0) == Remaining(s, 0) - (if x.TimesOut? then 1 else 0) && Served(start, t) &&
            if Remaining(t, 0) > 0 then Cycling(t) else Spent(t)
  {
    hide Remaining, Seek;
    NothingRemains(s, 0);
    var id := s.directed;
    if x.TimesOut? {
      TimedOutOneLess(s);
      PickGoesOn(TimedOut(s));
      RemainingSame(TimedOut(s), PickNext(TimedOut(s)), 0);
    } else {
      FailureUsesNone(s, id, x.isValid);
      RemainingSame(s, Tried(s, x), 0);
    }
  }

  lemma {:induction false} RemainingSame(s: Scheduler, t: Scheduler, i: nat)
    requires s.Shaped() && t.Shaped() && i <= CFG_BLE_MAX_PROFILES && t.pending == s.pending && t.cycles == s.cycles
    ensures Remaining(t, i) == Remaining(s, i)
    decreases CFG_BLE_MAX_PROFILES - i
  {
    if i < CFG_BLE_MAX_PROFILES {
      RemainingSame(s, t, i + 1);
    }
  }

  /** From any state of the finite phase, whatever was advertised last, and however
      many connections fail in between: the phase is over exactly when the timeouts
      number the cycles that remained, and then every profile has used up its own.
      So failed connections alone, however many, never end it. */
  lemma {:induction false} FiniteEndsIff(s: Scheduler, tries: seq<Try>)
    requires Cycling(s) && Timeouts(tries) <= Remaining(s, 0)
    ensures var t := Driven(s, tries);
            Remaining(t, 0) == Remaining(s, 0) - Timeouts(tries) && Served(s, t) &&
            (t.phase == Idle <==> Timeouts(tries) == Remaining(s, 0)) &&
            if t.phase == Idle then Spent(t) else Cycling(t)
  {
    hide Remaining, Seek, OnAdvTimeout;
    if tries == [] {
      NothingRemains(s, 0);
    } else {
      FiniteEndsIff(s, tries[..|tries| - 1]);
      var before := Driven(s, tries[..|tries| - 1]);
      if before.phase != Idle {
        TryStep(s, before, tries[|tries| - 1]);
      }
    }
  }

  /** A phase that starts afresh has five cycles to go for each pending profile. */
  lemma {:induction false} FreshRemaining(s: Scheduler, i: nat)
    requires Fresh(s) && i <= CFG_BLE_MAX_PROFILES
    ensures Remaining(s, i) == FINITE_CYCLES * |set c | i <= c < CFG_BLE_MAX_PROFILES && c in s.pending|
    decreases CFG_BLE_MAX_PROFILES - i
  {
    var here := set c | i <= c < CFG_BLE_MAX_PROFILES && c in s.pending;
    if i < CFG_BLE_MAX_PROFILES {
      FreshRemaining(s, i + 1);
      var rest := set c | i + 1 <= c < CFG_BLE_MAX_PROFILES && c in s.pending;
      assert here == if i in s.pending then rest + {i} else rest;
    } else {
      assert here == {};
    }
  }

  // ---------- Every run ----------

  /** The functions of the scheduler in any order. When the half becomes master, the BLE
      module also sets the last profile and the cycles of one itself, and it picks
      without an event. */
  datatype Event =
    | Start(phase: Phase, profile: int, retries: int, bitmap: set<nat>)
    | Resume(last: int, id: int, cycles: nat)
    | Pick
    | Timeout(id: int, isValid: bool)
    | Failed(id: int, isValid: bool)
    | Connection(id: int)

  function Next(s: Scheduler, e: Event): (t: Scheduler)
    requires s.Shaped()
    ensures t.Shaped()
  {
    match e
    case Start(phase, profile, retries, bitmap) =>
      (match phase
       case Idle => RESET
       case Selected => StartSelected(profile, retries)
       case _ => StartCycling(s, phase, bitmap))
    case Resume(last, id, cycles) =>
      s.(last := if IsProfile(last) then last else s.last, cycles := if IsProfile(id) then s.cycles[id := cycles] else s.cycles)
    case Pick => PickNext(s)
    case Timeout(id, isValid) => OnAdvTimeout(s, id, isValid).s
    case Failed(id, isValid) => OnConnectFailed(s, id, isValid).s
    case Connection(id) => OnConnected(s, id).s
  }

  function Run(events: seq<Event>): (s: Scheduler)
    ensures s.Shaped()
  {
    if events == [] then RESET else Next(Run(events[..|events| - 1]), events[|events| - 1])
  }

  /** While a profile is selected nothing else is pending, so the branch that would
      alternate with other profiles never runs: a timeout with retries left always
      retries the selected profile. */
  lemma {:induction false} SelectedIsAlone(events: seq<Event>, id: int, isValid: bool)
    requires Run(events).phase == Selected
    ensures Run(events).pending == {}
    ensures id != -1 && Run(events).retriesLeft > 1 ==>
              var o := OnAdvTimeout(Run(events), id, isValid); o.action == RetrySelected && o.s.directed == id && o.s.phase == Selected
  {
    var e := events[|events| - 1];
    var before := Run(events[..|events| - 1]);
    if before.phase == Selected {
      SelectedIsAlone(events[..|events| - 1], id, isValid);
    }
    hide Seek;
  }
}
