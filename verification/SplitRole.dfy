/** Who becomes master (components/split/split_role.c). */
module SplitRole {

  datatype Role = NoRole | Master | Slave

  /** What one half brings to the decision, apart from its last persisted role. */
  datatype Standing = Standing(mac: seq<bv8>, usb: bool, ble: nat, unsynced: bool)

  function Flip(role: Role): Role {
    if role == Master then Slave else Master
  }

  /** The sign of memcmp. */
  function MemCmp(a: seq<bv8>, b: seq<bv8>): int
    requires |a| == |b|
  {
    if a == [] then 0
    else if a[0] != b[0] then if a[0] > b[0] then 1 else -1
    else MemCmp(a[1..], b[1..])
  }

  /** split_role_decide. */
  function Decide(own: Standing, ownLast: Role, peer: Standing, peerLast: Role): (role: Role)
    requires |own.mac| == |peer.mac|
    ensures role != NoRole
  {
    if own.unsynced && !peer.unsynced then Master
    else if !own.unsynced && peer.unsynced then Slave
    else if own.usb && !peer.usb then Master
    else if !own.usb && peer.usb then Slave
    else if own.ble != 0 && peer.ble == 0 then Master
    else if own.ble == 0 && peer.ble != 0 then Slave
    else if ownLast == Master && peerLast != Master then Master
    else if peerLast == Master && ownLast != Master then Slave
    else if ownLast == Slave && peerLast != Slave then Slave
    else if peerLast == Slave && ownLast != Slave then Master
    else if MemCmp(own.mac, peer.mac) > 0 then Master
    else Slave
  }

  lemma {:induction false} MemCmpFlips(a: seq<bv8>, b: seq<bv8>)
    requires |a| == |b|
    ensures MemCmp(a, b) == -MemCmp(b, a)
    ensures MemCmp(a, b) == 0 <==> a == b
  {
    if a != [] && a[0] == b[0] {
      MemCmpFlips(a[1..], b[1..]);
      assert a == [a[0]] + a[1..] && b == [b[0]] + b[1..];
    }
  }

  // ---------- Who becomes master ----------

  function Bit(b: bool): nat {
    if b then 1 else 0
  }

  /** 256 to the power of n. */
  function Power(n: nat): (p: nat)
    ensures p >= 1
  {
    if n == 0 then 1 else 256 * Power(n - 1)
  }

  /** An address as a number, its first byte the most significant one. */
  function Number(mac: seq<bv8>): (n: nat)
    ensures n < Power(|mac|)
  {
    if mac == [] then 0
    else
      Top(mac[0] as nat, Power(|mac| - 1));
      (mac[0] as nat) * Power(|mac| - 1) + Number(mac[1..])
  }

  lemma Top(digit: nat, weight: nat)
    requires digit < 256
    ensures digit * weight + weight <= 256 * weight
  {
    assert 256 * weight == (digit + 1) * weight + (255 - digit) * weight;
  }

  /** What one half weighs on its own: unsynced data, then USB, then BLE, then the last
      role, where having been master counts most and slave least. */
  function Weight(s: Standing, last: Role): (w: nat)
    ensures w < 24
  {
    12 * Bit(s.unsynced) + 6 * Bit(s.usb) + 3 * Bit(s.ble != 0) + match last case Slave => 0 case NoRole => 1 case Master => 2
  }

  /** A rank from one half alone; the address breaks the ties. */
  function Rank(s: Standing, last: Role): nat {
    Weight(s, last) * Power(|s.mac|) + Number(s.mac)
  }

  lemma {:induction false} MemCmpIsOrder(a: seq<bv8>, b: seq<bv8>)
    requires |a| == |b|
    ensures MemCmp(a, b) > 0 <==> Number(a) > Number(b)
    ensures MemCmp(a, b) == 0 <==> Number(a) == Number(b)
  {
    if a != [] {
      MemCmpIsOrder(a[1..], b[1..]);
      DigitDecides(a[0] as nat, b[0] as nat, Power(|a| - 1), Number(a[1..]), Number(b[1..]));
      DigitDecides(b[0] as nat, a[0] as nat, Power(|a| - 1), Number(b[1..]), Number(a[1..]));
    }
  }

  lemma DigitDecides(x: nat, y: nat, weight: nat, p: nat, q: nat)
    requires p < weight && q < weight
    ensures x > y ==> x * weight + p > y * weight + q
  {
    if x > y {
      assert x * weight == (y + 1) * weight + (x - y - 1) * weight;
    }
  }

  /** A half becomes master exactly when its rank is the larger one. */
  lemma MasterIffHigherRank(own: Standing, ownLast: Role, peer: Standing, peerLast: Role)
    requires |own.mac| == |peer.mac|
    ensures Decide(own, ownLast, peer, peerLast) == Master <==> Rank(own, ownLast) > Rank(peer, peerLast)
  {
    MemCmpIsOrder(own.mac, peer.mac);
    var w := Power(|own.mac|);
    DigitDecides(Weight(own, ownLast), Weight(peer, peerLast), w, Number(own.mac), Number(peer.mac));
    DigitDecides(Weight(peer, peerLast), Weight(own, ownLast), w, Number(peer.mac), Number(own.mac));
    hide MemCmp, Number, Power;
  }

  /** Nothing above the address comparison tells the two halves apart. */
  predicate Tied(own: Standing, ownLast: Role, peer: Standing, peerLast: Role) {
    own.unsynced == peer.unsynced && own.usb == peer.usb && (own.ble == 0) == (peer.ble == 0) && ownLast == peerLast
  }

  /** The two halves, each deciding for itself, take complementary roles exactly
      when they differ in something the decision looks at. */
  lemma DecideComplementaryIff(a: Standing, aLast: Role, b: Standing, bLast: Role)
    requires |a.mac| == |b.mac|
    ensures Decide(a, aLast, b, bLast) == Flip(Decide(b, bLast, a, aLast)) <==>
            a.mac != b.mac || !Tied(a, aLast, b, bLast)
  {
    MemCmpFlips(a.mac, b.mac);
    hide MemCmp;
  }

  /** Persisting the decided role, on either half or on both, does not change it. */
  lemma PersistingKeepsDecision(a: Standing, aLast: Role, b: Standing, bLast: Role, aNext: Role, bNext: Role)
    requires |a.mac| == |b.mac| && a.mac != b.mac
    requires aNext in {aLast, Decide(a, aLast, b, bLast)}
    requires bNext in {bLast, Decide(b, bLast, a, aLast)}
    ensures Decide(a, aNext, b, bNext) == Decide(a, aLast, b, bLast)
  {
    MemCmpFlips(a.mac, b.mac);
    hide MemCmp;
  }
}
