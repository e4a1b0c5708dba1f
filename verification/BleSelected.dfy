/** The phases of the reconnect scheduler around the finite one: a selected profile, a
    connection, and what the actions tell the BLE module. */
module BleSelected {
  import opened BleReconnect

  // ---------- A selected profile ----------

  /** How often a selected profile is tried: at least once. */
  function Limit(retries: int): (n: nat)
    ensures n >= 1
  {
    if retries >= 1 then retries else 1
  }

  function ActionOf(s: Scheduler, x: Try): Action
    requires s.Shaped()
  {
    match x
    case TimesOut(isValid) => OnAdvTimeout(s, s.directed, isValid).action
    case Fails(isValid) => OnConnectFailed(s, s.directed, isValid).action
  }

  /** Profile id is advertised as the selected one, with so many tries to go. */
  predicate Trying(s: Scheduler, id: nat, left: int) {
    s.Shaped() && s.phase == Selected && s.pending == {} && s.directed == id && s.last == -1 && s.retriesLeft == left
  }

  /** The selected profile is advertised for good, or nothing is when it is not valid. */
  predicate GivenUp(s: Scheduler, id: nat, isValid: bool) {
    if isValid then s.phase == Forever && s.pending == {id} && s.directed == id
    else s.phase == Idle && s.pending == {} && s.directed == -1
  }

  lemma TryOnce(s: Scheduler, id: nat, left: int, x: Try)
    requires IsProfile(id) && Trying(s, id, left)
    ensures if left > 1 then Trying(Tried(s, x), id, left - 1) && ActionOf(s, x) == RetrySelected
            else GivenUp(Tried(s, x), id, x.isValid) && ActionOf(s, x) == if x.isValid then StartAdvertise else FallbackBackground
  {
    hide Candidate, Seek;
    assert s.pending + {id} == {id};
    SeekSucceeds({id}, -1, 1, Place(-1, id));
  }

  /** A selected profile whose advertising times out or whose connection fails is retried
      until it has been tried as often as asked; then it is advertised for good if it is
      valid, and nothing is otherwise. */
  lemma {:induction false} SelectedRetries(id: nat, retries: int, tries: seq<Try>)
    requires IsProfile(id) && 1 <= |tries| <= Limit(retries)
    ensures StartSelected(id, retries).Shaped()
    ensures var before, s := Driven(StartSelected(id, retries), tries[..|tries| - 1]), Driven(StartSelected(id, retries), tries);
            var last := tries[|tries| - 1];
            if |tries| < Limit(retries) then Trying(s, id, retries - |tries|) && ActionOf(before, last) == RetrySelected
            else GivenUp(s, id, last.isValid) && ActionOf(before, last) == if last.isValid then StartAdvertise else FallbackBackground
  {
    hide Tried, ActionOf;
    var start, front := StartSelected(id, retries), tries[..|tries| - 1];
    if front == [] {
      assert Trying(Driven(start, front), id, retries);
    } else {
      SelectedRetries(id, retries, front);
    }
    TryOnce(Driven(start, front), id, retries - |front|, tries[|tries| - 1]);
  }

  // ---------- A connection ----------

  /** What a connection of profile id leads to, in any state: while a selected or an
      endless search was on, the others are now searched for a limited time; a limited
      search goes on; and nothing is left to do once no other profile is pending. */
  lemma ConnectionLeads(s: Scheduler, id: nat)
    requires s.Shaped() && IsProfile(id)
    ensures var o := OnConnected(s, id);
            var others := s.pending - {id};
            o.s.pending == others && o.s.retriesLeft == s.retriesLeft &&
            o.s.cycles == (if s.phase == Selected || s.phase == Forever then Zeros() else s.cycles) &&
            (if s.phase != Idle && exists c :: c in others && IsProfile(c) then
               o.s.phase == Finite && o.s.directed in others && IsProfile(o.s.directed) && o.s.last == o.s.directed && o.action == StartAdvertise
             else
               o.s.phase == Idle && o.s.directed == -1 && o.s.last == s.last &&
               o.action == if s.phase != Idle && others != {} then FallbackBackground else NoAction)
  {
    hide Seek, Candidate;
    var others := s.pending - {id};
    if c :| c in others && IsProfile(c) {
      SeekSucceeds(others, s.last, 1, Place(s.last, c));
    }
  }

  // ---------- What the actions tell ----------

  /** The action says what the scheduler is doing. */
  predicate Tells(o: Outcome) {
    match o.s.phase
    case Idle => o.action == FallbackBackground
    case Selected => o.action == RetrySelected
    case _ => o.action == StartAdvertise && IsProfile(o.s.directed) && o.s.directed in o.s.pending
  }

  /** In every reachable state, after a timeout and after a failed connection: the BLE
      module falls back to background advertising exactly when the search is over,
      retries exactly while a profile is selected, and otherwise advertises to the pending
      profile that is next. */
  lemma ActionTells(events: seq<Event>, id: int, isValid: bool)
    ensures Tells(OnAdvTimeout(Run(events), id, isValid)) && Tells(OnConnectFailed(Run(events), id, isValid))
  {
    hide Run, Seek, Candidate;
    if Run(events).phase == Selected {
      SelectedIsAlone(events, id, isValid);
    }
  }
}
