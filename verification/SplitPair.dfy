/** Pairing of split halves (components/split/split_pair.c and the pairing
    branches of split_dispatch.c), for any number of devices in range. */
module SplitPair {
  import opened Options
  import opened SplitRole

  type Mac = seq<bv8>
  type PublicKey = seq<bv8>
  type Key = seq<bv8>

  /** ECDH: the public key of a private one, and the derived shared key. */
  datatype Ecdh = Ecdh(pub: nat -> PublicKey, derive: (nat, PublicKey) -> Key)

  ghost predicate Commutes(ecdh: Ecdh) {
    forall x, y :: ecdh.derive(x, ecdh.pub(y)) == ecdh.derive(y, ecdh.pub(x))
  }

  datatype Phase = Idle | Broadcasting | SentRequest | Complete

  /** History: how a completed device completed, and with which private key. */
  datatype Done = Unfinished | Initiator | Responder(secret: nat)

  datatype Device = Device(
    phase: Phase,
    secret: Option<nat>,   // s_ecdh, alive between request and response
    paired: bool,
    peer: Mac,
    key: Key,
    done: Done
  )

  datatype Message =
    | Discovery(src: Mac)
    | PairRequest(src: Mac, dst: Mac, pub: PublicKey)
    | PairResponse(src: Mac, dst: Mac, pub: PublicKey)

  datatype Turn = Turn(device: Device, sent: set<Message>)

  /** What the crypto layer and the radio answer while one message is handled. */
  datatype Luck = Luck(keypair: Option<nat>, deriveOk: bool, sendOk: bool)

  /** split_pair_start: earlier pairing data stays until a new pairing replaces it. */
  function Started(paired: bool, peer: Mac, key: Key): Device {
    Device(Broadcasting, None, paired, peer, key, Unfinished)
  }

  /** split_pair_on_discovery. */
  function OnDiscovery(ecdh: Ecdh, d: Device, own: Mac, src: Mac, luck: Luck): Turn {
    if d.phase != Broadcasting then Turn(d, {})
    else if luck.keypair == None || !luck.sendOk then Turn(d.(secret := None), {})
    else Turn(d.(secret := luck.keypair, peer := src, phase := SentRequest),
              {PairRequest(own, src, ecdh.pub(luck.keypair.value))})
  }

  /** split_pair_on_pair_request. */
  function OnRequest(ecdh: Ecdh, d: Device, own: Mac, src: Mac, pub: PublicKey, luck: Luck): Turn
    requires |own| == |src|
  {
    if d.phase == SentRequest && MemCmp(own, src) < 0 then Turn(d, {})
    else if d.phase != SentRequest && d.phase != Broadcasting then Turn(d, {})
    else
      var open := if d.phase == SentRequest then d.(secret := None) else d;
      if luck.keypair == None || !luck.deriveOk then Turn(open, {})
      else
        var x := luck.keypair.value;
        var keyed := open.(peer := src, key := ecdh.derive(x, pub), paired := true);
        if !luck.sendOk then Turn(keyed, {})
        else Turn(keyed.(phase := Complete, done := Responder(x)), {PairResponse(own, src, ecdh.pub(x))})
  }

  /** split_pair_on_pair_response. */
  function OnResponse(ecdh: Ecdh, d: Device, src: Mac, pub: PublicKey, luck: Luck): Turn {
    if d.phase != SentRequest || d.secret == None || src != d.peer then Turn(d, {})
    else if !luck.deriveOk then Turn(d.(secret := None), {})
    else Turn(d.(secret := None, key := ecdh.derive(d.secret.value, pub), paired := true, phase := Complete, done := Initiator), {})
  }

  class Pairing {
    const ecdh: Ecdh
    const own: Mac
    var phase: Phase
    var secret: Option<nat>
    var paired: bool
    var peer: Mac
    var key: Key
    ghost var done: Done

    ghost function View(): Device
      reads this
    {
      Device(phase, secret, paired, peer, key, done)
    }

    constructor (ecdh: Ecdh, own: Mac, paired: bool, peer: Mac, key: Key)
      ensures this.ecdh == ecdh && this.own == own && View() == Started(paired, peer, key)
    {
      this.ecdh, this.own, this.paired, this.peer, this.key := ecdh, own, paired, peer, key;
      phase, secret, done := Broadcasting, None, Unfinished;
    }

    method Cancel()
      modifies this`phase, this`secret
      ensures View() == old(View()).(phase := Idle, secret := None)
    {
      secret := None;
      phase := Idle;
    }

    method HandleDiscovery(src: Mac, luck: Luck) returns (sent: set<Message>)
      modifies this`phase, this`secret, this`peer
      ensures Turn(View(), sent) == OnDiscovery(ecdh, old(View()), own, src, luck)
    {
      sent := {};
      if phase != Broadcasting {
        return;
      }
      secret := luck.keypair;
      if secret == None {
        return;
      }
      if !luck.sendOk {
        secret := None;
        return;
      }
      sent := {PairRequest(own, src, ecdh.pub(secret.value))};
      peer := src;
      phase := SentRequest;
    }

    method HandleRequest(src: Mac, pub: PublicKey, luck: Luck) returns (sent: set<Message>)
      requires |own| == |src|
      modifies this`phase, this`secret, this`paired, this`peer, this`key, this`done
      ensures Turn(View(), sent) == OnRequest(ecdh, old(View()), own, src, pub, luck)
    {
      sent := {};
      if phase == SentRequest {
        if MemCmp(own, src) < 0 {
          return;
        }
        secret := None;
      } else if phase != Broadcasting {
        return;
      }
      if luck.keypair == None || !luck.deriveOk {
        return;
      }
      var x := luck.keypair.value;
      peer := src;
      key := ecdh.derive(x, pub);
      paired := true;
      if !luck.sendOk {
        return;
      }
      sent := {PairResponse(own, src, ecdh.pub(x))};
      phase := Complete;
      done := Responder(x);
    }

    method HandleResponse(src: Mac, pub: PublicKey, luck: Luck)
      modifies this`phase, this`secret, this`paired, this`key, this`done
      ensures Turn(View(), {}) == OnResponse(ecdh, old(View()), src, pub, luck)
    {
      if phase != SentRequest || secret == None || src != peer {
        return;
      }
      var x := secret.value;
      secret := None;
      if !luck.deriveOk {
        return;
      }
      key := ecdh.derive(x, pub);
      paired := true;
      phase := Complete;
      done := Initiator;
    }
  }

  // ---------- All devices and everything they ever sent ----------

  datatype Sys = Sys(devices: map<Mac, Device>, air: set<Message>)

  /** Any message on the air may reach its addressee at any time and any number of
      times, or never. A device that has not completed may time out. */
  datatype Event =
    | Broadcast(mac: Mac)
    | Arrive(mac: Mac, message: Message, luck: Luck)
    | Timeout(mac: Mac)

  function Apply(s: Sys, mac: Mac, turn: Turn): Sys {
    Sys(s.devices[mac := turn.device], s.air + turn.sent)
  }

  /** The sender of a message is another device, of an address of the same length. */
  predicate Audible(s: Sys, mac: Mac, m: Message) {
    m in s.air && m.src != mac && |m.src| == |mac|
  }

  function Next(ecdh: Ecdh, s: Sys, e: Event): Sys {
    if e.mac !in s.devices then s
    else
      var d := s.devices[e.mac];
      match e
      case Broadcast(mac) => if d.phase == Idle || d.phase == Complete then s else Apply(s, mac, Turn(d, {Discovery(mac)}))
      case Timeout(mac) => if d.phase == Complete then s else Apply(s, mac, Turn(d.(phase := Idle, secret := None), {}))
      case Arrive(mac, message, luck) =>
        if !Audible(s, mac, message) then s
        else
          match message
          case Discovery(src) => Apply(s, mac, OnDiscovery(ecdh, d, mac, src, luck))
          case PairRequest(src, dst, pub) => if dst != mac then s else Apply(s, mac, OnRequest(ecdh, d, mac, src, pub, luck))
          case PairResponse(src, dst, pub) => if dst != mac then s else Apply(s, mac, OnResponse(ecdh, d, src, pub, luck))
  }

  function Run(ecdh: Ecdh, s: Sys, events: seq<Event>): Sys {
    if events == [] then s else Next(ecdh, Run(ecdh, s, events[..|events| - 1]), events[|events| - 1])
  }

  /** Every device has just started pairing; what it was paired with before is arbitrary. */
  ghost predicate Start(s: Sys) {
    s.air == {} && forall mac | mac in s.devices ::
      |mac| == 6 && s.devices[mac] == Started(s.devices[mac].paired, s.devices[mac].peer, s.devices[mac].key)
  }

  // ---------- The invariant ----------

  predicate Requested(s: Sys, src: Mac, dst: Mac) {
    exists m | m in s.air :: m.PairRequest? && m.src == src && m.dst == dst
  }

  predicate EverRequested(s: Sys, src: Mac) {
    exists m | m in s.air :: m.PairRequest? && m.src == src
  }

  ghost predicate DeviceGood(ecdh: Ecdh, s: Sys, mac: Mac, d: Device) {
    |mac| == 6 &&
    (d.phase == Broadcasting ==> !EverRequested(s, mac) && d.secret == None) &&
    (d.secret != None ==> d.phase == SentRequest && PairRequest(mac, d.peer, ecdh.pub(d.secret.value)) in s.air) &&
    (d.done != Unfinished <==> d.phase == Complete) &&
    (d.done.Responder? ==>
       d.paired && |d.peer| == 6 && Requested(s, d.peer, mac) && (EverRequested(s, mac) ==> MemCmp(mac, d.peer) >= 0)) &&
    (d.done.Initiator? ==> d.paired && AnsweredBy(s, mac, d))
  }

  /** The peer has completed too, as responder to this device, with the same key. */
  predicate AnsweredBy(s: Sys, mac: Mac, d: Device) {
    d.peer in s.devices && var p := s.devices[d.peer]; p.done.Responder? && p.peer == mac && p.key == d.key
  }

  ghost predicate MessageGood(ecdh: Ecdh, s: Sys, m: Message) {
    m.src in s.devices &&
    (m.PairResponse? ==>
       var d := s.devices[m.src];
       d.done.Responder? && d.peer == m.dst && m.pub == ecdh.pub(d.done.secret) &&
       (m.dst in s.devices ==> s.devices[m.dst].phase != Broadcasting) &&
       forall p | PairRequest(m.dst, m.src, p) in s.air :: d.key == ecdh.derive(d.done.secret, p))
  }

  ghost predicate OneRequestEach(s: Sys) {
    forall m1, m2 | m1 in s.air && m2 in s.air && m1.PairRequest? && m2.PairRequest? && m1.src == m2.src :: m1 == m2
  }

  ghost predicate Inv(ecdh: Ecdh, s: Sys) {
    OneRequestEach(s) &&
    (forall mac | mac in s.devices :: DeviceGood(ecdh, s, mac, s.devices[mac])) &&
    (forall m | m in s.air :: MessageGood(ecdh, s, m))
  }

  // ---------- Every step keeps it ----------

  /** A turn that neither sends a pairing message nor completes. */
  lemma QuietTurn(ecdh: Ecdh, s: Sys, mac: Mac, d: Device, sent: set<Message>)
    requires Inv(ecdh, s) && mac in s.devices && s.devices[mac].phase != Complete
    requires d.phase != Complete && d.done == Unfinished
    requires d.phase == Broadcasting ==> s.devices[mac].phase == Broadcasting && d.secret == None
    requires d.secret != None ==> d.phase == SentRequest && d.peer == s.devices[mac].peer && d.secret == s.devices[mac].secret
    requires sent <= {Discovery(mac)}
    ensures Inv(ecdh, Apply(s, mac, Turn(d, sent)))
  {
    var t := Apply(s, mac, Turn(d, sent));
    assert DeviceGood(ecdh, s, mac, s.devices[mac]);
    SameRequests(s, t);
    hide EverRequested, Requested, Commutes, MemCmp;
    forall other | other in t.devices ensures DeviceGood(ecdh, t, other, t.devices[other]) {
      assert DeviceGood(ecdh, s, other, s.devices[other]);
    }
    forall m | m in t.air ensures MessageGood(ecdh, t, m) {
      assert m != Discovery(mac) ==> MessageGood(ecdh, s, m);
    }
  }

  lemma SameRequests(s: Sys, t: Sys)
    requires s.air <= t.air
    requires forall m | m in t.air && m.PairRequest? :: m in s.air
    ensures forall mac :: EverRequested(t, mac) == EverRequested(s, mac)
    ensures forall src, dst :: Requested(t, src, dst) == Requested(s, src, dst)
  {
  }

  lemma RequestTurn(ecdh: Ecdh, s: Sys, mac: Mac, src: Mac, x: nat)
    requires Inv(ecdh, s) && mac in s.devices && s.devices[mac].phase == Broadcasting
    ensures var d := s.devices[mac].(secret := Some(x), peer := src, phase := SentRequest);
            Inv(ecdh, Apply(s, mac, Turn(d, {PairRequest(mac, src, ecdh.pub(x))})))
  {
    var d := s.devices[mac].(secret := Some(x), peer := src, phase := SentRequest);
    var r := PairRequest(mac, src, ecdh.pub(x));
    var t := Apply(s, mac, Turn(d, {r}));
    assert DeviceGood(ecdh, s, mac, s.devices[mac]);
    forall m | m in s.air && m.PairRequest? ensures m.src != mac {
      assert MessageGood(ecdh, s, m);
    }
    hide EverRequested, Requested, MemCmp;
    forall other | other in t.devices ensures DeviceGood(ecdh, t, other, t.devices[other]) {
      assert DeviceGood(ecdh, s, other, s.devices[other]);
    }
    forall m | m in t.air ensures MessageGood(ecdh, t, m) {
      assert m != r ==> MessageGood(ecdh, s, m);
    }
  }

  function Responded(ecdh: Ecdh, d: Device, m: Message, x: nat): Device
    requires m.PairRequest?
  {
    d.(secret := None, peer := m.src, key := ecdh.derive(x, m.pub), paired := true, phase := Complete, done := Responder(x))
  }

  ghost predicate MayRespond(s: Sys, mac: Mac, m: Message) {
    mac in s.devices && m in s.air && m.PairRequest? && m.dst == mac && |m.src| == |mac| &&
    (s.devices[mac].phase == Broadcasting || (s.devices[mac].phase == SentRequest && MemCmp(mac, m.src) >= 0))
  }

  lemma ResponderTurn(ecdh: Ecdh, s: Sys, mac: Mac, m: Message, x: nat)
    requires Inv(ecdh, s) && MayRespond(s, mac, m)
    ensures Inv(ecdh, Apply(s, mac, Turn(Responded(ecdh, s.devices[mac], m, x), {PairResponse(mac, m.src, ecdh.pub(x))})))
  {
    var r := PairResponse(mac, m.src, ecdh.pub(x));
    var t := Apply(s, mac, Turn(Responded(ecdh, s.devices[mac], m, x), {r}));
    assert DeviceGood(ecdh, s, mac, s.devices[mac]) && MessageGood(ecdh, s, m);
    assert Requested(s, m.src, mac);
    SameRequests(s, t);
    hide EverRequested, Requested, MemCmp;
    forall other | other in t.devices ensures DeviceGood(ecdh, t, other, t.devices[other]) {
      assert DeviceGood(ecdh, s, other, s.devices[other]);
    }
    forall n | n in t.air ensures MessageGood(ecdh, t, n) {
      assert n != r ==> MessageGood(ecdh, s, n);
    }
  }

  lemma InitiatorTurn(ecdh: Ecdh, s: Sys, mac: Mac, m: Message)
    requires Commutes(ecdh) && Inv(ecdh, s) && mac in s.devices && m in s.air && m.PairResponse? && m.dst == mac && m.src != mac
    requires s.devices[mac].phase == SentRequest && s.devices[mac].secret != None && m.src == s.devices[mac].peer
    ensures var d := s.devices[mac];
            Inv(ecdh, Apply(s, mac, Turn(d.(secret := None, key := ecdh.derive(d.secret.value, m.pub), paired := true,
                                            phase := Complete, done := Initiator), {})))
  {
    var d0 := s.devices[mac];
    var d := d0.(secret := None, key := ecdh.derive(d0.secret.value, m.pub), paired := true, phase := Complete, done := Initiator);
    var t := Apply(s, mac, Turn(d, {}));
    assert DeviceGood(ecdh, s, mac, d0) && MessageGood(ecdh, s, m);
    var p := s.devices[m.src];
    assert p.key == ecdh.derive(p.done.secret, ecdh.pub(d0.secret.value)) == d.key;
    SameRequests(s, t);
    hide EverRequested, Requested, MemCmp, Commutes;
    forall other | other in t.devices ensures DeviceGood(ecdh, t, other, t.devices[other]) {
      assert DeviceGood(ecdh, s, other, s.devices[other]);
    }
    forall n | n in t.air ensures MessageGood(ecdh, t, n) {
      assert MessageGood(ecdh, s, n);
    }
  }

  lemma NoChange(s: Sys, mac: Mac)
    requires mac in s.devices
    ensures Apply(s, mac, Turn(s.devices[mac], {})) == s
  {
    assert s.devices[mac := s.devices[mac]] == s.devices;
  }

  lemma StepKeepsInv(ecdh: Ecdh, s: Sys, e: Event)
    requires Commutes(ecdh) && Inv(ecdh, s)
    ensures Inv(ecdh, Next(ecdh, s, e))
  {
    if e.mac in s.devices {
      NoChange(s, e.mac);
      var d := s.devices[e.mac];
      assert DeviceGood(ecdh, s, e.mac, d);
      hide Inv, Apply, MemCmp, Commutes;
      match e {
        case Broadcast(mac) =>
          if d.phase != Idle && d.phase != Complete {
            QuietTurn(ecdh, s, mac, d, {Discovery(mac)});
          }
        case Timeout(mac) =>
          if d.phase != Complete {
            QuietTurn(ecdh, s, mac, d.(phase := Idle, secret := None), {});
          }
        case Arrive(mac, message, luck) =>
          if Audible(s, mac, message) {
            ArrivalKeepsInv(ecdh, s, mac, message, luck);
          }
      }
    }
  }

  lemma ArrivalKeepsInv(ecdh: Ecdh, s: Sys, mac: Mac, m: Message, luck: Luck)
    requires Commutes(ecdh) && Inv(ecdh, s) && mac in s.devices && Audible(s, mac, m)
    ensures Inv(ecdh, Next(ecdh, s, Arrive(mac, m, luck)))
  {
    NoChange(s, mac);
    var d := s.devices[mac];
    assert DeviceGood(ecdh, s, mac, d);
    hide Inv, Apply, MemCmp, Commutes;
    match m {
      case Discovery(src) =>
        var turn := OnDiscovery(ecdh, d, mac, src, luck);
        if turn.device.phase == SentRequest && d.phase == Broadcasting {
          RequestTurn(ecdh, s, mac, src, luck.keypair.value);
        } else if d.phase == Broadcasting {
          QuietTurn(ecdh, s, mac, turn.device, {});
        }
      case PairRequest(src, dst, pub) =>
        if dst == mac {
          var turn := OnRequest(ecdh, d, mac, src, pub, luck);
          if d.phase != Complete && turn.device.phase == Complete {
            ResponderTurn(ecdh, s, mac, m, luck.keypair.value);
          } else if d.phase != Complete {
            QuietTurn(ecdh, s, mac, turn.device, {});
          }
        }
      case PairResponse(src, dst, pub) =>
        if dst == mac {
          var turn := OnResponse(ecdh, d, src, pub, luck);
          if d.phase != Complete && turn.device.phase == Complete {
            InitiatorTurn(ecdh, s, mac, m);
          } else if d.phase != Complete {
            QuietTurn(ecdh, s, mac, turn.device, {});
          }
        }
    }
  }

  lemma {:induction false} RunGood(ecdh: Ecdh, s: Sys, events: seq<Event>)
    requires Commutes(ecdh) && Start(s)
    ensures Inv(ecdh, Run(ecdh, s, events))
  {
    if events != [] {
      RunGood(ecdh, s, events[..|events| - 1]);
      StepKeepsInv(ecdh, Run(ecdh, s, events[..|events| - 1]), events[|events| - 1]);
      hide Inv, Next;
    }
  }

  // ---------- Where keys come from ----------

  ghost predicate IsPublic(ecdh: Ecdh, pub: PublicKey) {
    exists x :: pub == ecdh.pub(x)
  }

  /** A responder's key comes from its own private key and the request that it answered. */
  ghost predicate KeysGood(ecdh: Ecdh, s: Sys) {
    (forall mac, p | mac in s.devices && s.devices[mac].done.Responder? && PairRequest(s.devices[mac].peer, mac, p) in s.air ::
       s.devices[mac].key == ecdh.derive(s.devices[mac].done.secret, p)) &&
    (forall m | m in s.air && m.PairRequest? :: IsPublic(ecdh, m.pub))
  }

  /** A responder after a step was one before, or answers a request now. */
  lemma StepResponders(ecdh: Ecdh, s: Sys, e: Event, mac: Mac)
    requires mac in s.devices && (s.devices[mac].done != Unfinished <==> s.devices[mac].phase == Complete)
    requires Next(ecdh, s, e).devices[mac].done.Responder?
    ensures var d, t := s.devices[mac], Next(ecdh, s, e).devices[mac];
            t == d ||
            (e.mac == mac && e.Arrive? && e.message.PairRequest? && e.message in s.air && e.message.dst == mac &&
             t.peer == e.message.src && t.key == ecdh.derive(t.done.secret, e.message.pub))
  {
    hide MemCmp;
  }

  lemma StepRequests(ecdh: Ecdh, s: Sys, e: Event)
    ensures forall m | m in Next(ecdh, s, e).air && m.PairRequest? :: m in s.air || IsPublic(ecdh, m.pub)
    ensures s.air <= Next(ecdh, s, e).air && Next(ecdh, s, e).devices.Keys == s.devices.Keys
  {
    hide MemCmp;
    if e.Arrive? && e.message.Discovery? && e.luck.keypair.Some? {
      assert IsPublic(ecdh, ecdh.pub(e.luck.keypair.value));
    }
  }

  lemma StepKeepsKeys(ecdh: Ecdh, s: Sys, e: Event)
    requires Commutes(ecdh) && Inv(ecdh, s) && KeysGood(ecdh, s)
    ensures Inv(ecdh, Next(ecdh, s, e)) && KeysGood(ecdh, Next(ecdh, s, e))
  {
    StepKeepsInv(ecdh, s, e);
    var t := Next(ecdh, s, e);
    assert OneRequestEach(t);
    hide Inv, Next, MemCmp, Commutes, EverRequested, MessageGood;
    StepRequests(ecdh, s, e);
    forall mac, p | mac in t.devices && t.devices[mac].done.Responder? && PairRequest(t.devices[mac].peer, mac, p) in t.air
      ensures t.devices[mac].key == ecdh.derive(t.devices[mac].done.secret, p)
    {
      OneDeviceGood(ecdh, s, mac);
      StepResponders(ecdh, s, e, mac);
      if t.devices[mac] == s.devices[mac] {
        assert Requested(s, s.devices[mac].peer, mac);
      }
    }
  }

  lemma OneDeviceGood(ecdh: Ecdh, s: Sys, mac: Mac)
    requires Inv(ecdh, s) && mac in s.devices
    ensures DeviceGood(ecdh, s, mac, s.devices[mac])
  {
  }

  lemma {:induction false} RunKeysGood(ecdh: Ecdh, s: Sys, events: seq<Event>)
    requires Commutes(ecdh) && Start(s)
    ensures Inv(ecdh, Run(ecdh, s, events)) && KeysGood(ecdh, Run(ecdh, s, events))
  {
    if events != [] {
      RunKeysGood(ecdh, s, events[..|events| - 1]);
      StepKeepsKeys(ecdh, Run(ecdh, s, events[..|events| - 1]), events[|events| - 1]);
      hide Inv, Next, KeysGood;
    }
  }

  // ---------- Main results ----------

  /** A device that has completed as initiator is answered: its peer has completed
      as responder to it, with the same key. */
  lemma InitiatorAgrees(ecdh: Ecdh, s: Sys, events: seq<Event>, a: Mac)
    requires Commutes(ecdh) && Start(s)
    requires var t := Run(ecdh, s, events); a in t.devices && t.devices[a].done == Initiator
    ensures var t := Run(ecdh, s, events);
            var b := t.devices[a].peer;
            b in t.devices && t.devices[b].done.Responder? && t.devices[b].peer == a && t.devices[b].key == t.devices[a].key
  {
    RunGood(ecdh, s, events);
    assert DeviceGood(ecdh, Run(ecdh, s, events), a, Run(ecdh, s, events).devices[a]);
    hide Run, MessageGood;
  }

  /** Two devices never both complete as responder to each other. */
  lemma NeverBothResponders(ecdh: Ecdh, s: Sys, events: seq<Event>, a: Mac, b: Mac)
    requires Commutes(ecdh) && Start(s) && a != b
    requires var t := Run(ecdh, s, events);
             a in t.devices && b in t.devices && t.devices[a].peer == b && t.devices[b].peer == a
    ensures var t := Run(ecdh, s, events); !(t.devices[a].done.Responder? && t.devices[b].done.Responder?)
  {
    RunGood(ecdh, s, events);
    var t := Run(ecdh, s, events);
    assert DeviceGood(ecdh, t, a, t.devices[a]) && DeviceGood(ecdh, t, b, t.devices[b]);
    hide Run, MessageGood;
    MemCmpFlips(a, b);
    assert t.devices[b].done.Responder? ==> EverRequested(t, a);
    assert t.devices[a].done.Responder? ==> EverRequested(t, b);
  }

  /** Two devices that have completed with each other share one key, and exactly one
      of them was the initiator. */
  lemma PairingAgrees(ecdh: Ecdh, s: Sys, events: seq<Event>, a: Mac, b: Mac)
    requires Commutes(ecdh) && Start(s) && a != b
    requires var t := Run(ecdh, s, events);
             a in t.devices && b in t.devices && t.devices[a].peer == b && t.devices[b].peer == a &&
             t.devices[a].phase == Complete && t.devices[b].phase == Complete
    ensures var t := Run(ecdh, s, events);
            t.devices[a].key == t.devices[b].key && t.devices[a].done.Initiator? != t.devices[b].done.Initiator?
  {
    RunGood(ecdh, s, events);
    NeverBothResponders(ecdh, s, events, a, b);
    var t := Run(ecdh, s, events);
    assert DeviceGood(ecdh, t, a, t.devices[a]) && DeviceGood(ecdh, t, b, t.devices[b]);
    hide Run, MessageGood, EverRequested, Requested;
    if t.devices[a].done.Initiator? {
      InitiatorAgrees(ecdh, s, events, a);
    } else {
      assert t.devices[b].done.Initiator?;
      InitiatorAgrees(ecdh, s, events, b);
    }
  }

  /** And that key is the secret shared by the key pairs that the two made for this
      pairing, from either side. */
  lemma KeyIsSharedSecret(ecdh: Ecdh, s: Sys, events: seq<Event>, a: Mac) returns (x: nat, y: nat)
    requires Commutes(ecdh) && Start(s)
    requires var t := Run(ecdh, s, events); a in t.devices && t.devices[a].done == Initiator
    ensures var t := Run(ecdh, s, events);
            var b := t.devices[a].peer;
            PairRequest(a, b, ecdh.pub(x)) in t.air && b in t.devices && t.devices[b].done == Responder(y) &&
            t.devices[a].key == t.devices[b].key == ecdh.derive(y, ecdh.pub(x)) == ecdh.derive(x, ecdh.pub(y))
  {
    RunKeysGood(ecdh, s, events);
    InitiatorAgrees(ecdh, s, events, a);
    var t := Run(ecdh, s, events);
    var b := t.devices[a].peer;
    assert DeviceGood(ecdh, t, b, t.devices[b]);
    hide Run, EverRequested, MemCmp, MessageGood;
    y := t.devices[b].done.secret;
    var m :| m in t.air && m.PairRequest? && m.src == a && m.dst == b;
    assert m == PairRequest(a, b, m.pub);
    x :| m.pub == ecdh.pub(x);
  }

  /** The tie-break: of two devices that have asked each other, only the one with the
      larger address gives in and answers. */
  lemma LargerAddressResponds(ecdh: Ecdh, s: Sys, events: seq<Event>, a: Mac)
    requires Commutes(ecdh) && Start(s)
    requires var t := Run(ecdh, s, events);
             a in t.devices && t.devices[a].done.Responder? && exists m :: m in t.air && m.PairRequest? && m.src == a
    ensures Number(a) >= Number(Run(ecdh, s, events).devices[a].peer)
  {
    RunGood(ecdh, s, events);
    var t := Run(ecdh, s, events);
    assert DeviceGood(ecdh, t, a, t.devices[a]);
    hide Run, MessageGood, MemCmp, Number;
    MemCmpIsOrder(a, t.devices[a].peer);
  }

  lemma RunThen(ecdh: Ecdh, s: Sys, events: seq<Event>, e: Event)
    ensures Run(ecdh, s, events + [e]) == Next(ecdh, Run(ecdh, s, events), e)
  {
    hide Next;
    assert (events + [e])[..|events|] == events;
  }

  /** Any two devices can complete with each other when nothing is lost. If only the
      response is lost, the responder has completed and the initiator has not. */
  lemma CanPair(ecdh: Ecdh, s: Sys, a: Mac, b: Mac, x: nat, y: nat) returns (half: seq<Event>, whole: seq<Event>)
    requires Commutes(ecdh) && Start(s) && a != b && a in s.devices && b in s.devices
    ensures var t := Run(ecdh, s, half);
            t.devices.Keys == s.devices.Keys && t.devices[b].done.Responder? && t.devices[b].peer == a &&
            t.devices[a].phase == SentRequest
    ensures var t := Run(ecdh, s, whole);
            t.devices.Keys == s.devices.Keys && t.devices[a].done == Initiator && t.devices[a].peer == b &&
            t.devices[b].done.Responder? && t.devices[b].peer == a
  {
    var e1 := Broadcast(b);
    var e2 := Arrive(a, Discovery(b), Luck(Some(x), true, true));
    var e3 := Arrive(b, PairRequest(a, b, ecdh.pub(x)), Luck(Some(y), true, true));
    var e4 := Arrive(a, PairResponse(b, a, ecdh.pub(y)), Luck(None, true, true));
    RunThen(ecdh, s, [], e1);
    RunThen(ecdh, s, [] + [e1], e2);
    RunThen(ecdh, s, [] + [e1] + [e2], e3);
    RunThen(ecdh, s, [] + [e1] + [e2] + [e3], e4);
    half := [] + [e1] + [e2] + [e3];
    whole := [] + [e1] + [e2] + [e3] + [e4];
    assert Run(ecdh, s, []) == s;
    hide Run, MemCmp, Commutes;
  }
}
