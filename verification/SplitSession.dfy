/** Role negotiation between two paired halves: the session state of
    split_session.c, the handlers of split_dispatch.c and split_task.c and the
    session key of split_crypto.c. */
module SplitSession {
  import opened Options
  import opened Numbers
  import opened SplitRole

  type Key = seq<bv8>

  datatype State = Connecting | Connected | Disconnected

  /** What stays fixed in a half during a run: its inputs to the decision, its
      session salt and its sequence epoch. */
  datatype Half = Half(standing: Standing, salt: nat, epoch: nat)

  /** The key shared by pairing and the hash over key and salts. */
  datatype Secrets = Secrets(stored: Key, hash: (Key, nat, nat) -> Key)

  datatype Node = Node(
    state: State,
    role: Role,
    key: Option<Key>,      // session key of the transport
    last: Role,            // persisted last_role
    peerSalt: nat,         // s_last_peer_salt
    txSeq: nat,
    rxSeq: Option<nat>,    // s_peer_seq_last, when s_peer_seq_valid
    derived: bool          // history: whether the latest key derivation succeeded
  )

  datatype Negotiate = Negotiate(usb: bool, ble: nat, unsynced: bool, last: Role, salt: nat, seqNo: nat)

  datatype Turn = Turn(node: Node, sent: seq<Negotiate>)

  /** split_crypto_derive_session_key: the smaller salt goes first. */
  function SessionKey(secrets: Secrets, own: nat, peer: nat): Key {
    if own < peer then secrets.hash(secrets.stored, own, peer) else secrets.hash(secrets.stored, peer, own)
  }

  lemma SessionKeySymmetric(secrets: Secrets, a: nat, b: nat)
    ensures SessionKey(secrets, a, b) == SessionKey(secrets, b, a)
  {
  }

  /** split_session_reset_tx_seq. */
  function FirstSeq(half: Half): nat {
    half.epoch % 0x1_0000 * 0x1_0000_0000 + 1
  }

  /** split_task_send_role_negotiate; the 500 ms throttle may swallow it. */
  function Send(half: Half, n: Node, throttled: bool): Turn {
    if throttled then Turn(n, [])
    else
      var s := half.standing;
      Turn(n.(txSeq := n.txSeq + 1), [Negotiate(s.usb, s.ble, s.unsynced, n.last, half.salt, n.txSeq)])
  }

  /** split_task_handle_disconnect. */
  function Dropped(half: Half, n: Node): Node {
    n.(state := Disconnected, role := NoRole, key := None, rxSeq := None, txSeq := FirstSeq(half))
  }

  function PeerStanding(mac: seq<bv8>, m: Negotiate): Standing {
    Standing(mac, m.usb, m.ble, m.unsynced)
  }

  /** on_role_negotiate; kdfOk is the outcome of the key derivation. */
  function OnNegotiate(half: Half, peerMac: seq<bv8>, secrets: Secrets, n: Node, m: Negotiate, kdfOk: bool, throttled: bool): Turn
    requires |half.standing.mac| == |peerMac|
  {
    if n.state == Connected && m.salt == n.peerSalt then
      Send(half, n.(txSeq := FirstSeq(half), rxSeq := None), throttled)
    else
      var decided := Decide(half.standing, n.last, PeerStanding(peerMac, m), m.last);
      var keyed := if kdfOk then n.(key := Some(SessionKey(secrets, half.salt, m.salt)), peerSalt := m.salt,
                                    txSeq := FirstSeq(half), rxSeq := None) else n;
      Send(half, keyed.(role := decided, last := decided, state := Connected, derived := kdfOk), throttled)
  }

  /** gate_incoming_frame and handle_role_negotiate_msg. */
  function Receive(half: Half, peerMac: seq<bv8>, secrets: Secrets, n: Node, m: Negotiate, kdfOk: bool, throttled: bool): Turn
    requires |half.standing.mac| == |peerMac|
  {
    if n.rxSeq.Some? && m.seqNo <= n.rxSeq.value then Turn(n, [])
    else
      var seen := n.(rxSeq := Some(m.seqNo));
      if n.state == Connected && m.salt != n.peerSalt then
        OnNegotiate(half, peerMac, secrets, Dropped(half, seen).(state := Connecting), m, kdfOk, throttled)
      else
        OnNegotiate(half, peerMac, secrets, seen, m, kdfOk, throttled)
  }

  /** tick_connecting and tick_disconnected of a paired half. */
  function Tick(half: Half, n: Node, throttled: bool): Turn {
    match n.state
    case Connecting => Send(half, n, throttled)
    case Disconnected => Turn(n.(state := Connecting), [])
    case Connected => Turn(n, [])
  }

  class Session {
    const half: Half
    const secrets: Secrets
    var state: State
    var role: Role
    var key: Option<Key>
    var last: Role
    var peerMac: seq<bv8>
    var peerSalt: nat
    var txSeq: nat
    var rxSeqLast: nat
    var rxSeqValid: bool
    ghost var derived: bool

    ghost function View(): Node
      reads this
    {
      Node(state, role, key, last, peerSalt, txSeq, if rxSeqValid then Some(rxSeqLast) else None, derived)
    }

    constructor (half: Half, secrets: Secrets, peerMac: seq<bv8>, last: Role)
      ensures this.half == half && this.secrets == secrets && this.peerMac == peerMac
      ensures View() == Node(Disconnected, NoRole, None, last, 0, FirstSeq(half), None, false)
    {
      this.half, this.secrets, this.peerMac, this.last := half, secrets, peerMac, last;
      state, role, key, peerSalt, rxSeqLast, rxSeqValid, derived := Disconnected, NoRole, None, 0, 0, false, false;
      txSeq := half.epoch % 0x1_0000 * 0x1_0000_0000 + 1;
    }

    method NextSeq() returns (s: nat)
      modifies this`txSeq
      ensures s == old(txSeq) && txSeq == s + 1
    {
      s := txSeq;
      txSeq := txSeq + 1;
    }

    /** split_session_check_rx_seq. */
    method CheckRxSeq(s: nat) returns (isNew: bool)
      modifies this`rxSeqLast, this`rxSeqValid
      ensures isNew <==> !old(rxSeqValid) || s > old(rxSeqLast)
      ensures View() == if isNew then old(View()).(rxSeq := Some(s)) else old(View())
    {
      if rxSeqValid && s <= rxSeqLast {
        return false;
      }
      rxSeqLast, rxSeqValid := s, true;
      return true;
    }

    method ResetSeqs()
      modifies this`txSeq, this`rxSeqLast, this`rxSeqValid
      ensures View() == old(View()).(txSeq := FirstSeq(half), rxSeq := None)
    {
      txSeq := half.epoch % 0x1_0000 * 0x1_0000_0000 + 1;
      rxSeqLast, rxSeqValid := 0, false;
    }

    method SendNegotiate(throttled: bool) returns (sent: seq<Negotiate>)
      modifies this`txSeq
      ensures Turn(View(), sent) == Send(half, old(View()), throttled)
    {
      if throttled {
        return [];
      }
      var s := NextSeq();
      sent := [Negotiate(half.standing.usb, half.standing.ble, half.standing.unsynced, last, half.salt, s)];
    }

    method HandleDisconnect()
      modifies this`state, this`role, this`key, this`txSeq, this`rxSeqLast, this`rxSeqValid
      ensures View() == Dropped(half, old(View()))
    {
      state, role := Disconnected, NoRole;
      ResetSeqs();
      key := None;
    }

    method DeriveSessionKey(salt: nat, kdfOk: bool) returns (derivedKey: Option<Key>)
      ensures derivedKey == if kdfOk then Some(SessionKey(secrets, half.salt, salt)) else None
    {
      var s1 := if half.salt < salt then half.salt else salt;
      var s2 := if half.salt < salt then salt else half.salt;
      derivedKey := if kdfOk then Some(secrets.hash(secrets.stored, s1, s2)) else None;
    }

    method OnRoleNegotiate(m: Negotiate, kdfOk: bool, throttled: bool) returns (sent: seq<Negotiate>)
      requires |half.standing.mac| == |peerMac|
      modifies this`state, this`role, this`key, this`last, this`peerSalt, this`txSeq, this`rxSeqLast, this`rxSeqValid,
               this`derived
      ensures Turn(View(), sent) == OnNegotiate(half, peerMac, secrets, old(View()), m, kdfOk, throttled)
    {
      hide Decide, SessionKey, FirstSeq, Send;
      if state == Connected && m.salt == peerSalt {
        ResetSeqs();
        sent := SendNegotiate(throttled);
        return;
      }
      var decided := Decide(half.standing, last, PeerStanding(peerMac, m), m.last);
      var tsk := DeriveSessionKey(m.salt, kdfOk);
      derived := tsk.Some?;
      if tsk.Some? {
        key := tsk;
        ResetSeqs();
        peerSalt := m.salt;
      }
      role := decided;
      last := decided;
      state := Connected;
      sent := SendNegotiate(throttled);
    }

    method HandleRoleNegotiate(m: Negotiate, kdfOk: bool, throttled: bool) returns (sent: seq<Negotiate>)
      requires |half.standing.mac| == |peerMac|
      modifies this`state, this`role, this`key, this`last, this`peerSalt, this`txSeq, this`rxSeqLast, this`rxSeqValid,
               this`derived
      ensures Turn(View(), sent) == Receive(half, peerMac, secrets, old(View()), m, kdfOk, throttled)
    {
      var isNew := CheckRxSeq(m.seqNo);
      if !isNew {
        return [];
      }
      if state == Connected && m.salt != peerSalt {
        HandleDisconnect();
        state := Connecting;
      }
      sent := OnRoleNegotiate(m, kdfOk, throttled);
    }

    method TaskTick(throttled: bool) returns (sent: seq<Negotiate>)
      modifies this`state, this`txSeq
      ensures Turn(View(), sent) == Tick(half, old(View()), throttled)
    {
      sent := [];
      if state == Connecting {
        sent := SendNegotiate(throttled);
      } else if state == Disconnected {
        state := Connecting;
      }
    }
  }

  // ---------- Two halves and everything they ever sent ----------

  datatype Side = Left | Right {
    function Other(): Side {
      if this == Left then Right else Left
    }
  }

  datatype Pair<T> = Pair(left: T, right: T) {
    function Of(side: Side): T {
      if side == Left then left else right
    }

    function With(side: Side, value: T): Pair<T> {
      if side == Left then Pair(value, right) else Pair(left, value)
    }
  }

  datatype World = World(halves: Pair<Half>, initial: Pair<Role>, secrets: Secrets) {
    ghost predicate Valid() {
      |halves.left.standing.mac| == |halves.right.standing.mac| && halves.left.standing.mac != halves.right.standing.mac
    }

    function Mac(side: Side): seq<bv8> {
      halves.Of(side).standing.mac
    }

    /** The role that a half decides on with the roles persisted at the start. */
    function Decided(side: Side): (role: Role)
      requires Valid()
      ensures role != NoRole
    {
      Decide(halves.Of(side).standing, initial.Of(side), halves.Of(side.Other()).standing, initial.Of(side.Other()))
    }

    function Tsk(): Key {
      SessionKey(secrets, halves.left.salt, halves.right.salt)
    }
  }

  datatype Sys = Sys(nodes: Pair<Node>, sent: Pair<seq<Negotiate>>)

  /** Any message ever sent may arrive now, however often it has arrived before and
      whatever has overtaken it; a lost one never does. A half may lose the
      connection at any time. All other frames share the sequence numbers: Traffic moves
      those of a half in any way. */
  datatype Event =
    | TaskTick(side: Side, throttled: bool)
    | Arrive(to: Side, index: nat, kdfOk: bool, throttled: bool)
    | Disconnect(side: Side)
    | Traffic(side: Side, txSeq: nat, rxSeq: Option<nat>)

  function Apply(s: Sys, side: Side, turn: Turn): Sys {
    Sys(s.nodes.With(side, turn.node), s.sent.With(side, s.sent.Of(side) + turn.sent))
  }

  function Next(w: World, s: Sys, e: Event): Sys
    requires w.Valid()
  {
    match e
    case TaskTick(side, throttled) => Apply(s, side, Tick(w.halves.Of(side), s.nodes.Of(side), throttled))
    case Arrive(to, index, kdfOk, throttled) =>
      if index >= |s.sent.Of(to.Other())| then s
      else Apply(s, to, Receive(w.halves.Of(to), w.Mac(to.Other()), w.secrets, s.nodes.Of(to), s.sent.Of(to.Other())[index], kdfOk, throttled))
    case Disconnect(side) => Apply(s, side, Turn(Dropped(w.halves.Of(side), s.nodes.Of(side)), []))
    case Traffic(side, txSeq, rxSeq) => Apply(s, side, Turn(s.nodes.Of(side).(txSeq := txSeq, rxSeq := rxSeq), []))
  }

  function Run(w: World, s: Sys, events: seq<Event>): Sys
    requires w.Valid()
  {
    if events == [] then s else Next(w, Run(w, s, events[..|events| - 1]), events[|events| - 1])
  }

  /** Two paired halves before they have connected; persisted roles, remembered
      salts and sequence numbers may come from anywhere. */
  predicate Start(w: World, s: Sys) {
    s.sent == Pair([], []) && Idle(w, s.nodes.left, Left) && Idle(w, s.nodes.right, Right)
  }

  predicate Idle(w: World, n: Node, side: Side) {
    n.state != Connected && n.role == NoRole && n.key == None && n.last == w.initial.Of(side)
  }

  ghost predicate NodeGood(w: World, n: Node, side: Side)
    requires w.Valid()
  {
    n.last in {w.initial.Of(side), w.Decided(side)} && (n.state == Connected ==> n.last == w.Decided(side)) &&
    n.role == (if n.state == Connected then w.Decided(side) else NoRole) &&
    n.key == (if n.state == Connected && n.derived then Some(w.Tsk()) else None)
  }

  ghost predicate MessageGood(w: World, m: Negotiate, side: Side)
    requires w.Valid()
  {
    PeerStanding(w.Mac(side), m) == w.halves.Of(side).standing && m.salt == w.halves.Of(side).salt &&
    m.last in {w.initial.Of(side), w.Decided(side)}
  }

  ghost predicate SideGood(w: World, s: Sys, side: Side)
    requires w.Valid()
  {
    NodeGood(w, s.nodes.Of(side), side) && forall m | m in s.sent.Of(side) :: MessageGood(w, m, side)
  }

  ghost predicate Inv(w: World, s: Sys)
    requires w.Valid()
  {
    SideGood(w, s, Left) && SideGood(w, s, Right)
  }

  ghost predicate TurnGood(w: World, turn: Turn, side: Side)
    requires w.Valid()
  {
    NodeGood(w, turn.node, side) && forall m | m in turn.sent :: MessageGood(w, m, side)
  }

  lemma DecisionStands(w: World, side: Side, last: Role, m: Negotiate)
    requires w.Valid() && MessageGood(w, m, side.Other()) && last in {w.initial.Of(side), w.Decided(side)}
    ensures Decide(w.halves.Of(side).standing, last, PeerStanding(w.Mac(side.Other()), m), m.last) == w.Decided(side)
    ensures SessionKey(w.secrets, w.halves.Of(side).salt, m.salt) == w.Tsk()
  {
    var own, peer := w.halves.Of(side), w.halves.Of(side.Other());
    PersistingKeepsDecision(own.standing, w.initial.Of(side), peer.standing, w.initial.Of(side.Other()), last, m.last);
    SessionKeySymmetric(w.secrets, own.salt, peer.salt);
  }

  lemma OnNegotiateGood(w: World, side: Side, n: Node, m: Negotiate, kdfOk: bool, throttled: bool)
    requires w.Valid() && NodeGood(w, n, side) && MessageGood(w, m, side.Other())
    requires n.state == Connected ==> m.salt == n.peerSalt
    ensures TurnGood(w, OnNegotiate(w.halves.Of(side), w.Mac(side.Other()), w.secrets, n, m, kdfOk, throttled), side)
  {
    DecisionStands(w, side, n.last, m);
    hide Decide, SessionKey, FirstSeq;
  }

  lemma ReceiveGood(w: World, side: Side, n: Node, m: Negotiate, kdfOk: bool, throttled: bool)
    requires w.Valid() && NodeGood(w, n, side) && MessageGood(w, m, side.Other())
    ensures TurnGood(w, Receive(w.halves.Of(side), w.Mac(side.Other()), w.secrets, n, m, kdfOk, throttled), side)
  {
    hide Decide, SessionKey, FirstSeq, OnNegotiate, MessageGood;
    var seen := n.(rxSeq := Some(m.seqNo));
    if n.state == Connected && m.salt != n.peerSalt {
      OnNegotiateGood(w, side, Dropped(w.halves.Of(side), seen).(state := Connecting), m, kdfOk, throttled);
    } else {
      OnNegotiateGood(w, side, seen, m, kdfOk, throttled);
    }
  }

  lemma ApplyGood(w: World, s: Sys, side: Side, turn: Turn)
    requires w.Valid() && Inv(w, s) && TurnGood(w, turn, side)
    ensures Inv(w, Apply(s, side, turn))
  {
    hide NodeGood, MessageGood;
    assert SideGood(w, s, side) && SideGood(w, s, side.Other());
  }

  lemma StepKeepsInv(w: World, s: Sys, e: Event)
    requires w.Valid() && Inv(w, s)
    ensures Inv(w, Next(w, s, e))
  {
    hide Decide, SessionKey, Apply, Receive;
    match e {
      case TaskTick(side, throttled) =>
        ApplyGood(w, s, side, Tick(w.halves.Of(side), s.nodes.Of(side), throttled));
      case Arrive(to, index, kdfOk, throttled) =>
        if index < |s.sent.Of(to.Other())| {
          var m := s.sent.Of(to.Other())[index];
          ReceiveGood(w, to, s.nodes.Of(to), m, kdfOk, throttled);
          ApplyGood(w, s, to, Receive(w.halves.Of(to), w.Mac(to.Other()), w.secrets, s.nodes.Of(to), m, kdfOk, throttled));
        }
      case Disconnect(side) =>
        ApplyGood(w, s, side, Turn(Dropped(w.halves.Of(side), s.nodes.Of(side)), []));
      case Traffic(side, txSeq, rxSeq) =>
        ApplyGood(w, s, side, Turn(s.nodes.Of(side).(txSeq := txSeq, rxSeq := rxSeq), []));
    }
  }

  lemma {:induction false} RunGood(w: World, s: Sys, events: seq<Event>)
    requires w.Valid() && Start(w, s)
    ensures Inv(w, Run(w, s, events))
  {
    if events == [] {
    } else {
      RunGood(w, s, events[..|events| - 1]);
      StepKeepsInv(w, Run(w, s, events[..|events| - 1]), events[|events| - 1]);
    }
  }

  // ---------- Main results ----------

  /** In every run, two halves that are both connected have one master and one
      slave, and those are the roles decided at the start. */
  lemma SingleMaster(w: World, s: Sys, events: seq<Event>)
    requires w.Valid() && Start(w, s)
    ensures var t := Run(w, s, events);
            t.nodes.left.state == Connected && t.nodes.right.state == Connected ==>
              {t.nodes.left.role, t.nodes.right.role} == {Master, Slave} &&
              t.nodes.left.role == w.Decided(Left) && t.nodes.right.role == w.Decided(Right)
  {
    RunGood(w, s, events);
    DecideComplementaryIff(w.halves.left.standing, w.initial.left, w.halves.right.standing, w.initial.right);
    hide Run, Decide, Tied;
  }

  /** In every run, a connected half is master exactly when its rank at the start was the
      larger one; that is also the role that it has persisted. */
  lemma MasterHasHigherRank(w: World, s: Sys, events: seq<Event>, side: Side)
    requires w.Valid() && Start(w, s)
    ensures var n := Run(w, s, events).nodes.Of(side);
            var own, peer := w.halves.Of(side).standing, w.halves.Of(side.Other()).standing;
            n.state == Connected ==>
              n.role == n.last == if Rank(own, w.initial.Of(side)) > Rank(peer, w.initial.Of(side.Other())) then Master else Slave
  {
    RunGood(w, s, events);
    MasterIffHigherRank(w.halves.Of(side).standing, w.initial.Of(side), w.halves.Of(side.Other()).standing, w.initial.Of(side.Other()));
    hide Run, Decide, Rank;
  }

  /** So of two connected halves the one on the USB host is master, when they do not
      differ in unsynced data. */
  lemma UsbHalfIsMaster(w: World, s: Sys, events: seq<Event>, side: Side)
    requires w.Valid() && Start(w, s)
    requires var own, peer := w.halves.Of(side).standing, w.halves.Of(side.Other()).standing;
             own.unsynced == peer.unsynced && own.usb && !peer.usb
    ensures var t := Run(w, s, events);
            t.nodes.left.state == Connected && t.nodes.right.state == Connected ==>
              t.nodes.Of(side).role == Master && t.nodes.Of(side.Other()).role == Slave
  {
    MasterHasHigherRank(w, s, events, side);
    MasterHasHigherRank(w, s, events, side.Other());
    var own, peer := w.halves.Of(side).standing, w.halves.Of(side.Other()).standing;
    DigitDecides(Weight(own, w.initial.Of(side)), Weight(peer, w.initial.Of(side.Other())), Power(|own.mac|),
                 Number(own.mac), Number(peer.mac));
    hide Run, Number, Power;
  }

  /** The message passes the replay gate and does not take the early path: the half
      decides its role and derives a key. */
  predicate Decides(n: Node, m: Negotiate) {
    (n.rxSeq == None || m.seqNo > n.rxSeq.value) && !(n.state == Connected && m.salt == n.peerSalt)
  }

  predicate DecidesAt(w: World, t: Sys, side: Side, e: Event) {
    e.Arrive? && e.to == side && e.index < |t.sent.Of(side.Other())| &&
    Decides(t.nodes.Of(side), t.sent.Of(side.Other())[e.index])
  }

  /** Whether the key derivation succeeded at the last arrival at which this half decided. */
  function LatestKdf(w: World, s: Sys, events: seq<Event>, side: Side): bool
    requires w.Valid()
  {
    if events == [] then false
    else
      var e, before := events[|events| - 1], events[..|events| - 1];
      if DecidesAt(w, Run(w, s, before), side, e) then e.kdfOk else LatestKdf(w, s, before, side)
  }

  lemma DerivedStep(w: World, t: Sys, e: Event, side: Side)
    requires w.Valid()
    ensures var n, m := t.nodes.Of(side), Next(w, t, e).nodes.Of(side);
            m.state == Connected ==>
              if DecidesAt(w, t, side, e) then m.derived == e.kdfOk else n.state == Connected && m.derived == n.derived
  {
    hide Decide, SessionKey, FirstSeq;
  }

  lemma {:induction false} DerivedIsLatestKdf(w: World, s: Sys, events: seq<Event>, side: Side)
    requires w.Valid() && Start(w, s)
    ensures var n := Run(w, s, events).nodes.Of(side); n.state == Connected ==> n.derived == LatestKdf(w, s, events, side)
  {
    if events != [] {
      hide Next, DecidesAt;
      DerivedIsLatestKdf(w, s, events[..|events| - 1], side);
      DerivedStep(w, Run(w, s, events[..|events| - 1]), events[|events| - 1], side);
    }
  }

  /** Two connected halves have the same session key exactly when the key derivation
      ended alike at the last arrivals at which they decided; if it succeeded, the key
      comes from the paired key and the two salts. */
  lemma SameKeyIff(w: World, s: Sys, events: seq<Event>)
    requires w.Valid() && Start(w, s)
    ensures var t := Run(w, s, events);
            var left, right := LatestKdf(w, s, events, Left), LatestKdf(w, s, events, Right);
            t.nodes.left.state == Connected && t.nodes.right.state == Connected ==>
              (t.nodes.left.key == t.nodes.right.key <==> left == right) &&
              (left && right ==>
                 t.nodes.left.key == t.nodes.right.key ==
                 Some(w.secrets.hash(w.secrets.stored, Min(w.halves.left.salt, w.halves.right.salt), Max(w.halves.left.salt, w.halves.right.salt))))
  {
    RunGood(w, s, events);
    DerivedIsLatestKdf(w, s, events, Left);
    DerivedIsLatestKdf(w, s, events, Right);
    hide Run, LatestKdf, Decide;
  }

  /** No derivation failed along the run. */
  predicate KdfAlwaysOk(events: seq<Event>) {
    forall e | e in events :: e.Arrive? ==> e.kdfOk
  }

  lemma {:induction false} DerivedWhenConnected(w: World, s: Sys, events: seq<Event>, side: Side)
    requires w.Valid() && Start(w, s) && KdfAlwaysOk(events)
    ensures var n := Run(w, s, events).nodes.Of(side); n.state == Connected ==> n.derived
  {
    if events != [] {
      DerivedWhenConnected(w, s, events[..|events| - 1], side);
      hide Decide, SessionKey, FirstSeq;
    }
  }

  /** Without a failing derivation connected halves always share their key. */
  lemma OneKey(w: World, s: Sys, events: seq<Event>)
    requires w.Valid() && Start(w, s) && KdfAlwaysOk(events)
    ensures var t := Run(w, s, events);
            t.nodes.left.state == Connected && t.nodes.right.state == Connected ==>
              t.nodes.left.key == t.nodes.right.key == Some(w.Tsk())
  {
    RunGood(w, s, events);
    DerivedWhenConnected(w, s, events, Left);
    DerivedWhenConnected(w, s, events, Right);
    hide Run, Decide, SessionKey;
  }

  /** A connected half without a key gets one from the next negotiation exactly when
      the peer's salt differs from the remembered one. */
  lemma KeylessRepairedIff(half: Half, peerMac: seq<bv8>, secrets: Secrets, n: Node, m: Negotiate, throttled: bool)
    requires |half.standing.mac| == |peerMac| && n.state == Connected && n.key == None
    requires n.rxSeq == None || m.seqNo > n.rxSeq.value
    ensures Receive(half, peerMac, secrets, n, m, true, throttled).node.key != None <==> m.salt != n.peerSalt
  {
  }

  /** So a half that reconnects to a peer whose salt it remembers, and fails to
      derive the key, stays connected without a key in every continuation in which
      it is not disconnected from elsewhere. */
  lemma {:induction false} KeylessForever(w: World, s: Sys, side: Side, events: seq<Event>)
    requires w.Valid() && Inv(w, s)
    requires var n := s.nodes.Of(side);
             n.state == Connected && n.key == None && n.peerSalt == w.halves.Of(side.Other()).salt
    requires Disconnect(side) !in events
    ensures var n := Run(w, s, events).nodes.Of(side);
            Inv(w, Run(w, s, events)) &&
            n.state == Connected && n.key == None && n.peerSalt == w.halves.Of(side.Other()).salt
  {
    if events != [] {
      var t := Run(w, s, events[..|events| - 1]);
      KeylessForever(w, s, side, events[..|events| - 1]);
      StepKeepsInv(w, t, events[|events| - 1]);
      KeylessStep(w, t, side, events[|events| - 1]);
      hide Inv, Next;
    }
  }

  lemma KeylessStep(w: World, s: Sys, side: Side, e: Event)
    requires w.Valid() && Inv(w, s) && e != Disconnect(side)
    requires var n := s.nodes.Of(side);
             n.state == Connected && n.key == None && n.peerSalt == w.halves.Of(side.Other()).salt
    ensures var n := Next(w, s, e).nodes.Of(side);
            n.state == Connected && n.key == None && n.peerSalt == w.halves.Of(side.Other()).salt
  {
    if e.Arrive? && e.to == side && e.index < |s.sent.Of(side.Other())| {
      assert MessageGood(w, s.sent.Of(side.Other())[e.index], side.Other());
      hide Decide, SessionKey, FirstSeq;
    }
  }

  /** Both halves are connected, but only one has the session key. */
  lemma KeyMismatchReachable(w: World, s: Sys) returns (events: seq<Event>)
    requires w.Valid() && Start(w, s)
    ensures var t := Run(w, s, events);
            t.nodes.left.state == Connected && t.nodes.right.state == Connected &&
            t.nodes.left.key == None && t.nodes.right.key == Some(w.Tsk())
  {
    events := Reconnect(w, s, []);
    var t := Run(w, s, events);
    var again := Disconnect(Left);
    RunThen(w, s, events, again);
    var t1 := Run(w, s, events + [again]);
    var failed := Arrive(Left, |t.sent.right| - 1, false, true);
    RunThen(w, s, events + [again], failed);
    RunGood(w, s, events + [again] + [failed]);
    hide Run, Decide, SessionKey, FirstSeq, Inv, MessageGood;
    events := events + [again] + [failed];
  }

  lemma RunThen(w: World, s: Sys, events: seq<Event>, e: Event)
    requires w.Valid()
    ensures Run(w, s, events + [e]) == Next(w, Run(w, s, events), e)
  {
    hide Next;
    assert (events + [e])[..|events|] == events;
  }

  /** From wherever a run has led, two losses of the connection followed by one
      message each way bring both halves back with one master and one key. */
  lemma Reconnect(w: World, s: Sys, before: seq<Event>) returns (events: seq<Event>)
    requires w.Valid() && Start(w, s)
    ensures before <= events
    ensures var t := Run(w, s, events);
            t.nodes.left.state == Connected && t.nodes.right.state == Connected &&
            t.nodes.left.key == t.nodes.right.key == Some(w.Tsk()) && t.sent.right != []
  {
    var t := Run(w, s, before);
    var e1, e2, e3, e4 := Disconnect(Left), Disconnect(Right), TaskTick(Left, false), TaskTick(Left, false);
    RunThen(w, s, before, e1);
    RunThen(w, s, before + [e1], e2);
    RunThen(w, s, before + [e1] + [e2], e3);
    RunThen(w, s, before + [e1] + [e2] + [e3], e4);
    var e5 := Arrive(Right, |t.sent.left|, true, false);
    RunThen(w, s, before + [e1] + [e2] + [e3] + [e4], e5);
    var e6 := Arrive(Left, |t.sent.right|, true, true);
    RunThen(w, s, before + [e1] + [e2] + [e3] + [e4] + [e5], e6);
    events := before + [e1] + [e2] + [e3] + [e4] + [e5] + [e6];
    RunGood(w, s, events);
    hide Run, Decide, SessionKey, FirstSeq, Inv, MessageGood;
  }

  /** A half that alone loses the connection sends its first number again, while the
      other one is still connected and remembers it. */
  function Resumed(before: seq<Event>, a: Side, index: nat): seq<Event> {
    before + [Disconnect(a)] + [TaskTick(a, false)] + [TaskTick(a, false)] + [Arrive(a.Other(), index, true, false)]
  }

  /** Then it is heard, and answered, exactly when that number is above the last one that
      the other half has seen; and the answer alone brings it back, with the same key. */
  lemma ResumedIff(w: World, s: Sys, before: seq<Event>, a: Side)
    requires w.Valid() && Start(w, s)
    requires var b := Run(w, s, before).nodes.Of(a.Other());
             b.state == Connected && b.key != None && b.peerSalt == w.halves.Of(a).salt
    ensures var t := Run(w, s, before);
            var events, seen, answers := Resumed(before, a, |t.sent.Of(a)|), t.nodes.Of(a.Other()).rxSeq, |t.sent.Of(a.Other())|;
            (|Run(w, s, events).sent.Of(a.Other())| > answers <==> seen == None || FirstSeq(w.halves.Of(a)) > seen.value) &&
            (seen == None || FirstSeq(w.halves.Of(a)) > seen.value ==>
               var u := Run(w, s, events + [Arrive(a, answers, true, true)]);
               u.nodes.left.state == Connected && u.nodes.right.state == Connected && u.nodes.left.key == u.nodes.right.key == Some(w.Tsk()))
  {
    var t := Run(w, s, before);
    var e1, e2, e4 := Disconnect(a), TaskTick(a, false), Arrive(a.Other(), |t.sent.Of(a)|, true, false);
    RunThen(w, s, before, e1);
    RunThen(w, s, before + [e1], e2);
    RunThen(w, s, before + [e1] + [e2], e2);
    RunThen(w, s, before + [e1] + [e2] + [e2], e4);
    var events := Resumed(before, a, |t.sent.Of(a)|);
    var e5 := Arrive(a, |t.sent.Of(a.Other())|, true, true);
    RunThen(w, s, events, e5);
    RunGood(w, s, before);
    RunGood(w, s, events + [e5]);
    hide Run, Decide, SessionKey, FirstSeq, MessageGood;
  }
}
