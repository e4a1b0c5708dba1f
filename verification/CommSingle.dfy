/** Messages that do not use Blast: what the receiver makes of them
    (components/comm_module/comm_rx.c and comm_dispatch.c). */
module CommSingle {
  import opened CommPacket
  import opened CommRx

  function Joined(packets: seq<Packet>): seq<bv8> {
    if packets == [] then [] else Joined(packets[..|packets| - 1]) + packets[|packets| - 1].payload
  }

  /** The packets of one message: the first opens it and announces no further ones, the
      last closes it, and none is empty. */
  predicate IsMessage(packets: seq<Packet>) {
    packets != [] && packets[0].rem == 0 &&
    forall i | 0 <= i < |packets| ::
      packets[i].payload != [] &&
      packets[i].flags == NONE.(first := i == 0, mid := 0 < i < |packets| - 1, last := i == |packets| - 1)
  }

  /** The receiver after all of these packets, with everything it replied and delivered. */
  function Fed(rx: Rx, packets: seq<Packet>, mtu: nat, session: bool, callbackOk: bool): (r: Reaction)
    requires rx.Shaped()
    ensures r.rx.Shaped()
  {
    if packets == [] then Reaction(rx, [], [])
    else
      var m := |packets| - 1;
      var so := Fed(rx, packets[..m], mtu, session, callbackOk);
      var next := Receive(so.rx, packets[m], mtu, session, callbackOk);
      Reaction(next.rx, so.replies + next.replies, so.delivered + next.delivered)
  }

  function Acks(packets: seq<Packet>): seq<Packet> {
    if packets == [] then [] else Acks(packets[..|packets| - 1]) + [Control(ACK, packets[|packets| - 1].rem)]
  }

  /** The receiver holds the message so far. */
  predicate Holds(rx: Rx, data: seq<bv8>) {
    rx.Shaped() && !rx.blast && rx.bufLen == |data| <= MAX_RX_BUF_SIZE && rx.buf[..|data|] == data
  }

  lemma Spliced(buf: seq<bv8>, data: seq<bv8>, more: seq<bv8>)
    requires |data| + |more| <= |buf| && buf[..|data|] == data
    ensures Splice(buf, |data|, more)[..|data| + |more|] == data + more
  {
  }

  /** A packet that is not the last is appended and acknowledged. */
  lemma Appended(rx: Rx, data: seq<bv8>, p: Packet, mtu: nat, session: bool, callbackOk: bool)
    requires p.payload != [] && (p.flags == MID || (p.flags == FIRST && p.rem == 0))
    requires if p.flags.first then rx.Shaped() && !rx.blast && data == [] else Holds(rx, data)
    requires |data| + |p.payload| <= MAX_RX_BUF_SIZE
    ensures rx.Shaped()
    ensures var r := Receive(rx, p, mtu, session, callbackOk);
            Holds(r.rx, data + p.payload) && r.replies == [Control(ACK, p.rem)] && r.delivered == []
  {
    hide Bits.Get;
    Spliced(if p.flags.first then Erased().buf else rx.buf, data, p.payload);
  }

  /** The last packet hands the whole message over. */
  lemma HandedOver(rx: Rx, data: seq<bv8>, p: Packet, mtu: nat, session: bool, callbackOk: bool)
    requires p.payload != [] && (p.flags == LAST || (p.flags == LAST.(first := true) && p.rem == 0))
    requires if p.flags.first then rx.Shaped() && !rx.blast && data == [] else Holds(rx, data)
    requires |data| + |p.payload| <= MAX_RX_BUF_SIZE
    ensures rx.Shaped()
    ensures var r := Receive(rx, p, mtu, session, callbackOk);
            |r.delivered| == 1 && r.delivered[0].len == |data| + |p.payload| <= |r.delivered[0].buf| &&
            r.delivered[0].buf[..|data| + |p.payload|] == data + p.payload &&
            r.replies == [Control(ACK, p.rem)] + if callbackOk then [] else [Control(ERR, p.rem)]
  {
    Spliced(if p.flags.first then Erased().buf else rx.buf, data, p.payload);
  }

  lemma {:induction false} JoinedGrows(packets: seq<Packet>, i: nat)
    requires i <= |packets|
    ensures |Joined(packets[..i])| <= |Joined(packets)|
  {
    if i < |packets| {
      assert packets[..|packets| - 1][..i] == packets[..i];
      JoinedGrows(packets[..|packets| - 1], i);
    } else {
      assert packets[..i] == packets;
    }
  }

  lemma {:induction false} FedSoFar(rx: Rx, packets: seq<Packet>, i: nat, mtu: nat, session: bool, callbackOk: bool)
    requires rx.Shaped() && !rx.blast && IsMessage(packets) && i < |packets| && |Joined(packets)| <= MAX_RX_BUF_SIZE
    ensures var r := Fed(rx, packets[..i], mtu, session, callbackOk);
            (if i == 0 then r.rx == rx else Holds(r.rx, Joined(packets[..i]))) && r.replies == Acks(packets[..i]) && r.delivered == []
  {
    hide Receive, Holds;
    if i > 0 {
      var front, p := packets[..i], packets[i - 1];
      assert front[..i - 1] == packets[..i - 1];
      FedSoFar(rx, packets, i - 1, mtu, session, callbackOk);
      JoinedGrows(packets, i);
      Appended(Fed(rx, packets[..i - 1], mtu, session, callbackOk).rx, Joined(packets[..i - 1]), p, mtu, session, callbackOk);
    }
  }

  /** A message that fits the buffer, in one packet or in several, is delivered once and
      exactly as it was sent; every packet is acknowledged, and an error is reported
      exactly when the callback refuses it. */
  lemma MessageIsDelivered(rx: Rx, packets: seq<Packet>, mtu: nat, session: bool, callbackOk: bool)
    requires rx.Shaped() && !rx.blast && IsMessage(packets) && |Joined(packets)| <= MAX_RX_BUF_SIZE
    ensures var r, data := Fed(rx, packets, mtu, session, callbackOk), Joined(packets);
            |r.delivered| == 1 && r.delivered[0].len == |data| <= |r.delivered[0].buf| && r.delivered[0].buf[..|data|] == data &&
            r.replies == Acks(packets) + if callbackOk then [] else [Control(ERR, packets[|packets| - 1].rem)]
  {
    hide Receive, Holds;
    var m := |packets| - 1;
    FedSoFar(rx, packets, m, mtu, session, callbackOk);
    HandedOver(Fed(rx, packets[..m], mtu, session, callbackOk).rx, Joined(packets[..m]), packets[m], mtu, session, callbackOk);
  }
}
