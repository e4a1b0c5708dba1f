/** One Blast transfer between two firmware nodes over lossy FIFO channels
    (comm_tx.c, comm_rx.c and comm_dispatch.c together). */
module CommBlast {
  import opened CommPacket
  import opened Numbers
  import opened CommRx
  import opened CommTx
  import Bits

  // ---------- The transfer ----------

  function Packets(data: seq<bv8>, mtu: nat): nat
    requires mtu > 0
  {
    (|data| + mtu - 1) / mtu
  }

  /** A multi-packet payload that fits the receive buffer and its bitmap. */
  predicate Fits(data: seq<bv8>, mtu: nat) {
    0 < mtu <= 255 && mtu < |data| <= MAX_RX_BUF_SIZE && Packets(data, mtu) <= RX_BLAST_MAX_PACKETS
  }

  /** A bitmap response, which is cut to one payload, reaches every MID packet. */
  predicate BitmapSpans(data: seq<bv8>, mtu: nat)
    requires mtu > 0
  {
    Packets(data, mtu) - 2 < 8 * mtu
  }

  /** Packet index of the transfer. */
  function Genuine(data: seq<bv8>, mtu: nat, index: nat): Packet
    requires Fits(data, mtu) && index < Packets(data, mtu)
  {
    PacketBounds(data, mtu, index);
    var n := Packets(data, mtu);
    var flags := if index == 0 then FIRST else if index == n - 1 then LAST else MID;
    Packet(flags, n - 1 - index, data[index * mtu..Min(index * mtu + mtu, |data|)])
  }

  lemma PacketBounds(data: seq<bv8>, mtu: nat, index: nat)
    requires Fits(data, mtu) && index < Packets(data, mtu)
    ensures Packets(data, mtu) >= 2
    ensures index * mtu < |data|
    ensures index < Packets(data, mtu) - 1 ==> index * mtu + mtu <= (Packets(data, mtu) - 1) * mtu < |data|
    ensures index == Packets(data, mtu) - 1 ==> index * mtu + mtu >= |data|
  {
    var n := Packets(data, mtu);
    DivBounds(|data| + mtu - 1, mtu);
    assert (n - 1) * mtu == n * mtu - mtu;
    AtLeastTwo(n, mtu);
    Monotone(index, n - 1, mtu);
    if index < n - 1 {
      Monotone(index + 1, n - 1, mtu);
      assert (index + 1) * mtu == index * mtu + mtu;
    }
  }

  lemma DivBounds(a: nat, m: nat)
    requires m > 0
    ensures (a / m) * m <= a < (a / m) * m + m
  {
    assert a == (a / m) * m + a % m;
  }

  lemma AtLeastTwo(n: nat, m: nat)
    requires n * m > m
    ensures n >= 2
  {
    if n <= 1 {
      Monotone(n, 1, m);
    }
  }

  // ---------- The two nodes and the channels ----------

  datatype Sys = Sys(
    tx: Tx,
    rx: Rx,
    down: seq<Packet>,           // in flight to the receiver, oldest first
    up: seq<Packet>,             // in flight to the sender
    delivered: seq<Delivery>,
    repairs: nat                 // MID packets sent in answer to bitmaps
  )

  datatype Fate = Intact | Lost | Corrupted(rem: nat)

  /** The oldest packet of one channel leaves it. A corrupted packet fails its
      checksum; rem is what its header then says. */
  datatype Event = Down(fate: Fate, callbackOk: bool) | Up(fate: Fate, budget: nat)

  function Mids(packets: seq<Packet>): nat {
    if packets == [] then 0 else Mids(packets[..|packets| - 1]) + (if packets[|packets| - 1].flags == MID then 1 else 0)
  }

  function Next(s: Sys, mtu: nat, e: Event): Sys
    requires s.rx.Shaped()
    ensures Next(s, mtu, e).rx.Shaped()
  {
    match e
    case Down(fate, callbackOk) =>
      if s.down == [] then s
      else
        var p, rest := s.down[0], s.down[1..];
        (match fate
         case Intact =>
           var r := Receive(s.rx, p, mtu, true, callbackOk);
           s.(rx := r.rx, down := rest, up := s.up + r.replies, delivered := s.delivered + r.delivered)
         case Lost => s.(down := rest)
         case Corrupted(rem) => s.(down := rest, up := s.up + ReceiveCorrupt(s.rx, rem)))
    case Up(fate, budget) =>
      if s.up == [] then s
      else
        var p, rest := s.up[0], s.up[1..];
        (match fate
         case Intact =>
           var o := OnResponse(s.tx, p, budget);
           s.(tx := o.tx, up := rest, down := s.down + o.sent,
              repairs := s.repairs + if p.flags == BITMAP then Mids(o.sent) else 0)
         case Lost => s.(up := rest)
         // The sender's own receiver is not in Blast mode, so it answers with NAK.
         case Corrupted(rem) => s.(up := rest, down := s.down + [Control(NAK, rem)]))
  }

  function Init(data: seq<bv8>, mtu: nat, budget: nat): (s: Sys)
    requires Fits(data, mtu)
    ensures s.rx.Shaped()
  {
    var o := Start(data, mtu, budget);
    Sys(o.tx, Erased(), o.sent, [], [], 0)
  }

  function Run(s: Sys, mtu: nat, events: seq<Event>): (r: Sys)
    requires s.rx.Shaped()
    ensures r.rx.Shaped()
  {
    if events == [] then s else Next(Run(s, mtu, events[..|events| - 1]), mtu, events[|events| - 1])
  }

  // ---------- The invariant ----------

  ghost predicate TxGood(tx: Tx, data: seq<bv8>, mtu: nat)
    requires Fits(data, mtu)
  {
    tx == IDLE ||
    (tx.blast && tx.awaiting && tx.data == data && tx.total == Packets(data, mtu) && tx.maxPayload == mtu &&
     tx.attempts <= TX_BLAST_MAX_RECONCILE_ROUNDS)
  }

  /** The packets of the bitmap are in the buffer, each where it belongs. */
  ghost predicate Stored(rx: Rx, data: seq<bv8>, mtu: nat, index: nat)
    requires Fits(data, mtu) && rx.Shaped() && index < Packets(data, mtu)
  {
    rx.lens[index] == |Genuine(data, mtu, index).payload| &&
    forall k | index * mtu <= k < index * mtu + mtu && k < |data| :: rx.buf[k] == data[k]
  }

  ghost predicate RxGood(rx: Rx, data: seq<bv8>, mtu: nat)
    requires Fits(data, mtu)
  {
    rx.Shaped() &&
    (rx.blast ==>
       rx.total == Packets(data, mtu) && rx.maxPayload == mtu &&
       forall i | 0 <= i < Packets(data, mtu) :: rx.Has(i) ==> Stored(rx, data, mtu, i))
  }

  predicate AllButLast(rx: Rx, data: seq<bv8>, mtu: nat)
    requires Fits(data, mtu) && rx.Shaped()
  {
    rx.blast && forall i | 0 <= i < Packets(data, mtu) - 1 :: rx.Has(i)
  }

  predicate IsMid(p: Packet, data: seq<bv8>, mtu: nat)
    requires Fits(data, mtu)
  {
    var n := Packets(data, mtu);
    1 <= p.rem < n - 1 && p == Genuine(data, mtu, n - 1 - p.rem)
  }

  predicate IsFirst(p: Packet, data: seq<bv8>, mtu: nat)
    requires Fits(data, mtu)
  {
    PacketBoundsZero(data, mtu);
    p == Genuine(data, mtu, 0)
  }

  predicate IsLast(p: Packet, data: seq<bv8>, mtu: nat)
    requires Fits(data, mtu)
  {
    PacketBoundsZero(data, mtu);
    p == Genuine(data, mtu, Packets(data, mtu) - 1)
  }

  lemma PacketBoundsZero(data: seq<bv8>, mtu: nat)
    requires Fits(data, mtu)
    ensures Packets(data, mtu) >= 2
  {
    DivBounds(|data| + mtu - 1, mtu);
    AtLeastTwo(Packets(data, mtu), mtu);
  }

  /** Once the sender has been through a bitmap, or has stopped, a plain ACK moves
      nothing any more. */
  predicate PastAck(tx: Tx) {
    tx == IDLE || tx.attempts >= 1
  }

  /** What may end the queue to the receiver, and what the receiver holds then. */
  ghost predicate TokenGood(p: Packet, s: Sys, data: seq<bv8>, mtu: nat)
    requires Fits(data, mtu) && s.rx.Shaped()
  {
    || IsFirst(p, data, mtu)
    || (p == Control(STATUS_REQ, 0) && s.rx.blast)
    || (IsLast(p, data, mtu) && AllButLast(s.rx, data, mtu) && PastAck(s.tx) && s.delivered == [] && BitmapSpans(data, mtu))
    || (p.flags == NAK && p.payload == [])
    || p == Control(ABORT, 0)
  }

  ghost predicate ReplyGood(p: Packet, s: Sys, data: seq<bv8>, mtu: nat)
    requires Fits(data, mtu) && s.rx.Shaped()
  {
    || (p.flags == ACK && s.rx.blast)
    || (p.flags == BITMAP && s.rx.blast && |p.payload| <= mtu &&
        forall i | 0 <= i < Packets(data, mtu) :: Reported(p.payload, i) ==> s.rx.Has(i))
    || (p.flags == ACK_OK && PastAck(s.tx) && s.delivered != [])
    || (p.flags == ACK_ERR && PastAck(s.tx))
    || p.flags == NAK
  }

  /** After a delivery nothing in flight can lead to another one. */
  predicate Spent(s: Sys) {
    PastAck(s.tx) &&
    (forall p | p in s.down :: p.flags == FIRST || p.flags == NAK || p.flags == ABORT) &&
    (forall p | p in s.up :: p.flags != BITMAP)
  }

  ghost predicate Correct(d: Delivery, data: seq<bv8>) {
    d.len == |data| && |d.buf| >= |data| && d.buf[..|data|] == data
  }

  ghost predicate ChannelsGood(s: Sys, data: seq<bv8>, mtu: nat)
    requires Fits(data, mtu) && s.rx.Shaped()
  {
    (forall k | 0 <= k < |s.down| :: IsMid(s.down[k], data, mtu) || (k == |s.down| - 1 && TokenGood(s.down[k], s, data, mtu))) &&
    (s.down != [] && IsMid(s.down[0], data, mtu) ==> s.rx.blast) &&
    |s.up| <= 1 && (s.up != [] ==> s.down == [] && ReplyGood(s.up[0], s, data, mtu))
  }

  ghost predicate Inv(s: Sys, data: seq<bv8>, mtu: nat)
    requires Fits(data, mtu)
  {
    TxGood(s.tx, data, mtu) && RxGood(s.rx, data, mtu) && (s.rx.blast ==> s.rx.Has(0)) && ChannelsGood(s, data, mtu) &&
    (s.delivered != [] ==> |s.delivered| == 1 && Correct(s.delivered[0], data) && Spent(s) && BitmapSpans(data, mtu)) &&
    s.repairs <= (if s.tx.blast then s.tx.attempts else TX_BLAST_MAX_RECONCILE_ROUNDS) * (Packets(data, mtu) - 2)
  }

  // ---------- The receiver's moves ----------

  lemma IndexOf(data: seq<bv8>, mtu: nat, index: nat)
    requires Fits(data, mtu) && index < Packets(data, mtu)
    ensures var p := Genuine(data, mtu, index);
            U16(Packets(data, mtu) - 1 - p.rem) == index && U16(index * mtu) == index * mtu &&
            p.payload != [] && index * mtu + |p.payload| <= MAX_RX_BUF_SIZE
  {
    PacketBounds(data, mtu, index);
  }

  lemma StoreGood(rx: Rx, data: seq<bv8>, mtu: nat, index: nat)
    requires Fits(data, mtu) && index < Packets(data, mtu)
    requires RxGood(rx, data, mtu) && rx.blast
    ensures var r := Store(rx, Genuine(data, mtu, index));
            RxGood(r, data, mtu) && r.blast && r.Has(index) &&
            forall i | 0 <= i < RX_BLAST_MAX_PACKETS && i != index :: r.Has(i) == rx.Has(i)
  {
    IndexOf(data, mtu, index);
    var p := Genuine(data, mtu, index);
    var r := Store(rx, p);
    hide Bits.Get, Bits.Set;
    if !rx.Has(index) {
      forall i | 0 <= i < RX_BLAST_MAX_PACKETS ensures r.Has(i) == (i == index || rx.Has(i)) {
        Bits.GetSet(rx.bitmap, index, i);
      }
      forall i | 0 <= i < Packets(data, mtu) && r.Has(i) ensures Stored(r, data, mtu, i) {
        StoredAfter(rx, data, mtu, index, i);
      }
    }
  }

  lemma PayloadIs(data: seq<bv8>, mtu: nat, index: nat)
    requires Fits(data, mtu) && index < Packets(data, mtu)
    ensures index * mtu < |data| && Genuine(data, mtu, index).payload == data[index * mtu..Min(index * mtu + mtu, |data|)]
  {
    PacketBounds(data, mtu, index);
  }

  lemma StoredAfter(rx: Rx, data: seq<bv8>, mtu: nat, index: nat, i: nat)
    requires Fits(data, mtu) && index < Packets(data, mtu) && i < Packets(data, mtu)
    requires rx.Shaped() && (i != index ==> Stored(rx, data, mtu, i))
    ensures index * mtu + |Genuine(data, mtu, index).payload| <= MAX_RX_BUF_SIZE
    ensures var p := Genuine(data, mtu, index);
            Stored(rx.(buf := Splice(rx.buf, index * mtu, p.payload), lens := rx.lens[index := |p.payload|]), data, mtu, i)
  {
    hide Genuine, Packets;
    IndexOf(data, mtu, index);
    PayloadIs(data, mtu, index);
    PayloadIs(data, mtu, i);
    var payload := Genuine(data, mtu, index).payload;
    Disjoint(index, i, mtu);
    var at, lo := index * mtu, i * mtu;
    var buf := Splice(rx.buf, at, payload);
    forall k | lo <= k < lo + mtu && k < |data| ensures buf[k] == data[k] {
      if i == index {
        assert payload[k - at] == data[k];
      }
    }
  }

  lemma Disjoint(i: nat, j: nat, m: nat)
    ensures i == j || i * m + m <= j * m || j * m + m <= i * m
  {
    if i < j {
      Monotone(i + 1, j, m);
      assert (i + 1) * m == i * m + m;
    } else if j < i {
      Monotone(j + 1, i, m);
      assert (j + 1) * m == j * m + m;
    }
  }

  function Opened(data: seq<bv8>, mtu: nat): (rx: Rx)
    requires Fits(data, mtu)
    ensures rx.Shaped()
  {
    Erased().(blast := true, total := Packets(data, mtu), maxPayload := mtu)
  }

  lemma FirstReceived(rx: Rx, data: seq<bv8>, mtu: nat, callbackOk: bool)
    requires Fits(data, mtu) && rx.Shaped()
    ensures Packets(data, mtu) >= 2
    ensures Receive(rx, Genuine(data, mtu, 0), mtu, true, callbackOk) ==
            Reaction(Store(Opened(data, mtu), Genuine(data, mtu, 0)), [Control(ACK, Packets(data, mtu) - 1)], [])
  {
    PacketBoundsZero(data, mtu);
    IndexOf(data, mtu, 0);
    var n := Packets(data, mtu);
    var p := Genuine(data, mtu, 0);
    assert p.flags == FIRST && p.rem == n - 1 && p.payload != [] && U16(n) == n;
    hide Store, Genuine, Fits, Packets;
    assert ProcessRequest(rx, p, mtu, true, callbackOk) == Reaction(Store(Opened(data, mtu), p), [], []);
  }

  lemma FirstGood(rx: Rx, data: seq<bv8>, mtu: nat, callbackOk: bool)
    requires Fits(data, mtu) && RxGood(rx, data, mtu)
    ensures Packets(data, mtu) >= 2
    ensures var r := Receive(rx, Genuine(data, mtu, 0), mtu, true, callbackOk);
            RxGood(r.rx, data, mtu) && r.rx.blast && r.rx.Has(0) && r.delivered == [] &&
            r.replies == [Control(ACK, Packets(data, mtu) - 1)]
  {
    FirstReceived(rx, data, mtu, callbackOk);
    var rx0 := Opened(data, mtu);
    hide Bits.Get, Receive, Store, Genuine;
    forall i | 0 <= i < RX_BLAST_MAX_PACKETS ensures !rx0.Has(i) {
      Bits.ZeroGet(rx0.bitmap, i);
    }
    StoreGood(rx0, data, mtu, 0);
  }

  lemma {:induction false} SumOfEqual(lens: seq<nat>, mtu: nat)
    requires forall i | 0 <= i < |lens| :: lens[i] == mtu
    ensures Sum(lens) == |lens| * mtu
  {
    if lens != [] {
      SumOfEqual(lens[..|lens| - 1], mtu);
    }
  }

  lemma CommitLength(rx: Rx, data: seq<bv8>, mtu: nat)
    requires Fits(data, mtu) && RxGood(rx, data, mtu) && AllButLast(rx, data, mtu)
    ensures Packets(data, mtu) >= 2
    ensures var n := Packets(data, mtu);
            Sum(rx.lens[n - 1 := |Genuine(data, mtu, n - 1).payload|][..n]) == |data|
  {
    PacketBoundsZero(data, mtu);
    var n := Packets(data, mtu);
    PacketBounds(data, mtu, n - 1);
    var lens := rx.lens[n - 1 := |Genuine(data, mtu, n - 1).payload|];
    assert lens[..n][..n - 1] == lens[..n - 1];
    forall i | 0 <= i < n - 1 ensures lens[i] == mtu {
      PacketBounds(data, mtu, i);
      assert rx.Has(i) && Stored(rx, data, mtu, i);
    }
    SumOfEqual(lens[..n - 1], mtu);
  }

  lemma ByteStored(rx: Rx, data: seq<bv8>, mtu: nat, k: nat)
    requires Fits(data, mtu) && RxGood(rx, data, mtu) && AllButLast(rx, data, mtu)
    requires Packets(data, mtu) >= 2 && k < (Packets(data, mtu) - 1) * mtu && k < |data|
    ensures rx.buf[k] == data[k]
  {
    InSomePacket(data, mtu, k);
    assert rx.Has(k / mtu) && Stored(rx, data, mtu, k / mtu);
  }

  lemma CommitContents(rx: Rx, data: seq<bv8>, mtu: nat)
    requires Fits(data, mtu) && RxGood(rx, data, mtu) && AllButLast(rx, data, mtu)
    ensures Packets(data, mtu) >= 2
    ensures var n := Packets(data, mtu);
            var p := Genuine(data, mtu, n - 1);
            (n - 1) * mtu + |p.payload| <= MAX_RX_BUF_SIZE &&
            Splice(rx.buf, (n - 1) * mtu, p.payload)[..|data|] == data
  {
    PacketBoundsZero(data, mtu);
    var n := Packets(data, mtu);
    var p := Genuine(data, mtu, n - 1);
    IndexOf(data, mtu, n - 1);
    PacketBounds(data, mtu, n - 1);
    var at := (n - 1) * mtu;
    var buf := Splice(rx.buf, at, p.payload);
    assert p.payload == data[at..];
    hide Genuine, Bits.Get;
    forall k | 0 <= k < |data| ensures buf[k] == data[k] {
      if k < at {
        ByteStored(rx, data, mtu, k);
      }
    }
  }

  /** The commit trusts the bitmap; it is right when every earlier packet is in. */
  lemma CommitGood(rx: Rx, data: seq<bv8>, mtu: nat, callbackOk: bool)
    requires Fits(data, mtu) && RxGood(rx, data, mtu) && AllButLast(rx, data, mtu)
    ensures Packets(data, mtu) >= 2
    ensures var r := Receive(rx, Genuine(data, mtu, Packets(data, mtu) - 1), mtu, true, callbackOk);
            r.rx == Erased() && r.replies == [Control(if callbackOk then ACK_OK else ACK_ERR, 0)] &&
            |r.delivered| == 1 && Correct(r.delivered[0], data)
  {
    PacketBoundsZero(data, mtu);
    IndexOf(data, mtu, Packets(data, mtu) - 1);
    CommitLength(rx, data, mtu);
    CommitContents(rx, data, mtu);
    var p := Genuine(data, mtu, Packets(data, mtu) - 1);
    assert p.flags == LAST;
    hide Genuine, Sum, Splice, Bits.Get;
    assert CommitBuffer(rx, p).len == |data|;
  }

  /** Every byte before the last packet lies in a packet whose index is known. */
  lemma InSomePacket(data: seq<bv8>, mtu: nat, k: nat)
    requires Fits(data, mtu) && Packets(data, mtu) >= 2 && k < (Packets(data, mtu) - 1) * mtu
    ensures k / mtu < Packets(data, mtu) - 1 && (k / mtu) * mtu <= k < (k / mtu) * mtu + mtu
  {
    var i := k / mtu;
    assert i * mtu + k % mtu == k;
    if i >= Packets(data, mtu) - 1 {
      Monotone(Packets(data, mtu) - 1, i, mtu);
    }
  }

  lemma MidGood(rx: Rx, data: seq<bv8>, mtu: nat, p: Packet, callbackOk: bool)
    requires Fits(data, mtu) && RxGood(rx, data, mtu) && rx.blast && IsMid(p, data, mtu)
    ensures var r := Receive(rx, p, mtu, true, callbackOk);
            RxGood(r.rx, data, mtu) && r.rx.blast && r.replies == [] && r.delivered == [] &&
            r.rx.Has(Packets(data, mtu) - 1 - p.rem) &&
            forall i | 0 <= i < RX_BLAST_MAX_PACKETS && rx.Has(i) :: r.rx.Has(i)
  {
    var index := Packets(data, mtu) - 1 - p.rem;
    IndexOf(data, mtu, index);
    StoreGood(rx, data, mtu, index);
  }

  lemma BitmapGood(rx: Rx, data: seq<bv8>, mtu: nat)
    requires Fits(data, mtu) && RxGood(rx, data, mtu) && rx.blast
    ensures var b := BitmapReply(rx, mtu).payload;
            |b| <= mtu && |b| == Min((Packets(data, mtu) + 7) / 8, mtu) &&
            forall i | 0 <= i < Packets(data, mtu) :: Reported(b, i) <==> i < 8 * |b| && rx.Has(i)
  {
    hide Bits.Test, Stored, Genuine;
    var b := BitmapReply(rx, mtu).payload;
    assert |b| == Min((Packets(data, mtu) + 7) / 8, mtu);
    forall i | 0 <= i < Packets(data, mtu) ensures Reported(b, i) <==> i < 8 * |b| && rx.Has(i) {
      if i < 8 * |b| {
        assert b[i / 8] == rx.bitmap[i / 8];
      }
    }
  }

  // ---------- The sender's moves ----------

  lemma PacketAtGood(tx: Tx, data: seq<bv8>, mtu: nat, index: nat)
    requires Fits(data, mtu) && TxGood(tx, data, mtu) && tx.blast && index < Packets(data, mtu)
    ensures PacketAt(tx, index) == [Genuine(data, mtu, index)]
  {
    PacketBounds(data, mtu, index);
    IndexOf(data, mtu, index);
  }

  lemma MidIsMid(data: seq<bv8>, mtu: nat, index: nat)
    requires Fits(data, mtu) && 1 <= index < Packets(data, mtu) - 1
    ensures IsMid(Genuine(data, mtu, index), data, mtu)
  {
  }

  lemma {:induction false} SendMissingGood(tx: Tx, data: seq<bv8>, mtu: nat, bitmap: seq<bv8>, i: nat, budget: nat)
    requires Fits(data, mtu) && TxGood(tx, data, mtu) && tx.blast && i >= 1
    ensures var r := SendMissing(tx, bitmap, i, budget);
            (forall p | p in r.packets :: IsMid(p, data, mtu)) &&
            (i + 1 <= Packets(data, mtu) ==> |r.packets| <= Packets(data, mtu) - 1 - i)
    decreases tx.total - i
  {
    if i + 1 < tx.total {
      hide Bits.Get, IsMid, PacketAt, Genuine;
      if Reported(bitmap, i) {
        SendMissingGood(tx, data, mtu, bitmap, i + 1, budget);
      } else if budget > 0 {
        PacketAtGood(tx, data, mtu, i);
        MidIsMid(data, mtu, i);
        hide Fits, TxGood, Reported;
        SendMissingGood(tx, data, mtu, bitmap, i + 1, budget - 1);
        var rest := SendMissing(tx, bitmap, i + 1, budget - 1);
        assert SendMissing(tx, bitmap, i, budget).packets == [Genuine(data, mtu, i)] + rest.packets;
      }
    }
  }

  lemma {:induction false} MidsAtMost(packets: seq<Packet>)
    ensures Mids(packets) <= |packets|
  {
    if packets != [] {
      MidsAtMost(packets[..|packets| - 1]);
    }
  }

  lemma MidsWithEnd(packets: seq<Packet>, end: Packet)
    requires end.flags != MID
    ensures Mids(packets + [end]) == Mids(packets)
  {
    assert (packets + [end])[..|packets|] == packets;
  }

  /** LAST is released only by a bitmap that reports every MID packet; one that is
      too short for the transfer cannot. */
  lemma LastNeedsFullBitmap(tx: Tx, data: seq<bv8>, mtu: nat, bitmap: seq<bv8>, budget: nat)
    requires Fits(data, mtu) && TxGood(tx, data, mtu) && tx.blast
    ensures (exists p :: p in OnBitmap(tx, bitmap, budget).sent && IsLast(p, data, mtu)) <==>
            tx.attempts < TX_BLAST_MAX_RECONCILE_ROUNDS && budget > 0 &&
            forall i | 1 <= i < Packets(data, mtu) - 1 :: Reported(bitmap, i)
  {
    PacketBoundsZero(data, mtu);
    if tx.attempts < TX_BLAST_MAX_RECONCILE_ROUNDS {
      var tx1 := tx.(attempts := tx.attempts + 1);
      var p := Packet(BITMAP, 0, bitmap);
      assert OnResponse(tx, p, budget) == OnBitmap(tx, bitmap, budget);
      if AllReported(tx1, bitmap) {
        NothingMissing(tx1, bitmap, 1, budget);
        LastOutcome(tx, p, data, mtu, budget);
      } else {
        NoLastAmongRepairs(tx, data, mtu, p, budget);
      }
    }
    hide Bits.Get, Genuine, SendMissing, SendIndex;
    var last := Genuine(data, mtu, Packets(data, mtu) - 1);
    if budget > 0 && AllReported(tx, bitmap) && tx.attempts < TX_BLAST_MAX_RECONCILE_ROUNDS {
      assert last in OnBitmap(tx, bitmap, budget).sent;
    }
  }

  lemma NoLastAmongRepairs(tx: Tx, data: seq<bv8>, mtu: nat, p: Packet, budget: nat)
    requires Fits(data, mtu) && TxGood(tx, data, mtu) && tx.blast
    requires tx.attempts < TX_BLAST_MAX_RECONCILE_ROUNDS && p.flags == BITMAP && !AllReported(tx, p.payload)
    ensures forall q | q in OnResponse(tx, p, budget).sent :: !IsLast(q, data, mtu)
  {
    var tx1 := tx.(attempts := tx.attempts + 1);
    hide Bits.Get, SendMissing, OnResponse;
    RepairOutcome(tx, p, budget);
    SendMissingGood(tx1, data, mtu, p.payload, 1, budget);
    forall q | q in OnResponse(tx, p, budget).sent ensures !IsLast(q, data, mtu) {
      Kinds(q, data, mtu);
      hide Genuine, IsMid, IsLast;
    }
  }

  lemma {:induction false} NothingMissing(tx: Tx, bitmap: seq<bv8>, i: nat, budget: nat)
    requires forall j | i <= j < tx.total - 1 :: Reported(bitmap, j)
    ensures SendMissing(tx, bitmap, i, budget) == Sent([], true)
    decreases tx.total - i
  {
    hide Reported;
    if i + 1 < tx.total {
      NothingMissing(tx, bitmap, i + 1, budget);
    }
  }

  // ---------- Every step keeps the invariant ----------

  lemma Kinds(p: Packet, data: seq<bv8>, mtu: nat)
    requires Fits(data, mtu)
    ensures IsMid(p, data, mtu) ==> p.flags == MID
    ensures IsFirst(p, data, mtu) ==> p.flags == FIRST
    ensures IsLast(p, data, mtu) ==> p.flags == LAST
  {
    PacketBoundsZero(data, mtu);
  }

  /** A MID packet leaves the queue, and the receiver holds at least what it held. */
  lemma MidTaken(s: Sys, rx: Rx, data: seq<bv8>, mtu: nat)
    requires Fits(data, mtu) && Inv(s, data, mtu) && s.down != [] && IsMid(s.down[0], data, mtu)
    requires RxGood(rx, data, mtu) && rx.blast && forall i | 0 <= i < RX_BLAST_MAX_PACKETS && s.rx.Has(i) :: rx.Has(i)
    ensures Inv(s.(rx := rx, down := s.down[1..]), data, mtu)
  {
    Kinds(s.down[0], data, mtu);
    assert s.delivered == [] || Spent(s);
    hide Genuine, Bits.Get, Stored, TxGood, IsFirst, IsLast, IsMid;
    var t := s.(rx := rx, down := s.down[1..]);
    assert s.up == [];
    forall k | 0 <= k < |t.down|
      ensures IsMid(t.down[k], data, mtu) || (k == |t.down| - 1 && TokenGood(t.down[k], t, data, mtu))
    {
      assert t.down[k] == s.down[k + 1];
    }
  }

  lemma DownMid(s: Sys, data: seq<bv8>, mtu: nat, callbackOk: bool)
    requires Fits(data, mtu) && Inv(s, data, mtu) && s.down != [] && IsMid(s.down[0], data, mtu)
    ensures Inv(Next(s, mtu, Down(Intact, callbackOk)), data, mtu)
  {
    var p := s.down[0];
    assert RxGood(s.rx, data, mtu) && s.rx.blast;
    hide Receive, Genuine, Bits.Get, Stored, TxGood, IsMid, Inv, RxGood;
    MidGood(s.rx, data, mtu, p, callbackOk);
    var rx := Receive(s.rx, p, mtu, true, callbackOk).rx;
    MidTaken(s, rx, data, mtu);
    assert Next(s, mtu, Down(Intact, callbackOk)) == s.(rx := rx, down := s.down[1..]);
  }

  lemma DownFirst(s: Sys, data: seq<bv8>, mtu: nat, callbackOk: bool)
    requires Fits(data, mtu) && Inv(s, data, mtu) && |s.down| == 1 && IsFirst(s.down[0], data, mtu)
    ensures Inv(Next(s, mtu, Down(Intact, callbackOk)), data, mtu)
  {
    FirstGood(s.rx, data, mtu, callbackOk);
    hide Receive, Genuine, Bits.Get, Stored;
    var t := Next(s, mtu, Down(Intact, callbackOk));
    assert t.down == [] && t.up == [Control(ACK, Packets(data, mtu) - 1)];
  }

  lemma DownStatus(s: Sys, data: seq<bv8>, mtu: nat, callbackOk: bool)
    requires Fits(data, mtu) && Inv(s, data, mtu) && s.down == [Control(STATUS_REQ, 0)]
    ensures Inv(Next(s, mtu, Down(Intact, callbackOk)), data, mtu)
  {
    var p := s.down[0];
    assert Receive(s.rx, p, mtu, true, callbackOk) == Reaction(s.rx, if s.rx.blast then [BitmapReply(s.rx, mtu)] else [], []);
    if s.rx.blast {
      BitmapGood(s.rx, data, mtu);
    }
    hide Receive, Genuine, Bits.Get, Stored;
    var t := Next(s, mtu, Down(Intact, callbackOk));
    assert t.down == [] && t.up == if s.rx.blast then [BitmapReply(s.rx, mtu)] else [];
  }

  lemma DownLast(s: Sys, data: seq<bv8>, mtu: nat, callbackOk: bool)
    requires Fits(data, mtu) && Inv(s, data, mtu) && |s.down| == 1 && IsLast(s.down[0], data, mtu)
    ensures Inv(Next(s, mtu, Down(Intact, callbackOk)), data, mtu)
  {
    PacketBoundsZero(data, mtu);
    Kinds(s.down[0], data, mtu);
    CommitGood(s.rx, data, mtu, callbackOk);
    hide Receive, Genuine, Bits.Get, Stored;
    var t := Next(s, mtu, Down(Intact, callbackOk));
    assert t.down == [] && t.up == [Control(if callbackOk then ACK_OK else ACK_ERR, 0)];
  }

  lemma DownIntact(s: Sys, data: seq<bv8>, mtu: nat, callbackOk: bool)
    requires Fits(data, mtu) && Inv(s, data, mtu) && s.down != []
    ensures Inv(Next(s, mtu, Down(Intact, callbackOk)), data, mtu)
  {
    var p := s.down[0];
    hide Genuine, Bits.Get, Stored;
    if IsMid(p, data, mtu) {
      DownMid(s, data, mtu, callbackOk);
    } else if IsFirst(p, data, mtu) {
      DownFirst(s, data, mtu, callbackOk);
    } else if p == Control(STATUS_REQ, 0) {
      DownStatus(s, data, mtu, callbackOk);
    } else if IsLast(p, data, mtu) {
      DownLast(s, data, mtu, callbackOk);
    } else {
      assert Receive(s.rx, p, mtu, true, callbackOk) == Reaction(s.rx, [], []);
      hide Receive;
      var t := Next(s, mtu, Down(Intact, callbackOk));
      assert t.down == [] && t.up == [];
    }
  }

  lemma DownDamaged(s: Sys, data: seq<bv8>, mtu: nat, fate: Fate, callbackOk: bool)
    requires Fits(data, mtu) && Inv(s, data, mtu) && s.down != [] && fate != Intact
    ensures Inv(Next(s, mtu, Down(fate, callbackOk)), data, mtu)
  {
    hide Genuine, Bits.Get, Stored;
    assert s.up == [];
    var t := Next(s, mtu, Down(fate, callbackOk));
    assert t.down == s.down[1..];
    if IsMid(s.down[0], data, mtu) {
      assert t.up == [];
    } else {
      assert |s.down| == 1;
    }
  }

  lemma UpDamaged(s: Sys, data: seq<bv8>, mtu: nat, fate: Fate, budget: nat)
    requires Fits(data, mtu) && Inv(s, data, mtu) && s.up != [] && fate != Intact
    ensures Inv(Next(s, mtu, Up(fate, budget)), data, mtu)
  {
    hide Genuine, Bits.Get, Stored;
    assert s.up[1..] == [] && s.down == [];
    var t := Next(s, mtu, Up(fate, budget));
    assert t.up == [];
    if fate.Corrupted? {
      assert t.down == [Control(NAK, fate.rem)];
      assert TokenGood(t.down[0], t, data, mtu);
      Kinds(t.down[0], data, mtu);
    }
  }

  lemma RepairBound(s: Sys, data: seq<bv8>, mtu: nat, more: nat)
    requires Fits(data, mtu) && Packets(data, mtu) >= 2 && Inv(s, data, mtu) && s.tx.blast
    requires s.tx.attempts < TX_BLAST_MAX_RECONCILE_ROUNDS && more <= Packets(data, mtu) - 2
    ensures s.repairs + more <= (s.tx.attempts + 1) * (Packets(data, mtu) - 2)
    ensures s.repairs + more <= TX_BLAST_MAX_RECONCILE_ROUNDS * (Packets(data, mtu) - 2)
  {
    var m := Packets(data, mtu) - 2;
    hide Genuine, Bits.Get, Stored;
    assert (s.tx.attempts + 1) * m == s.tx.attempts * m + m;
    Monotone(s.tx.attempts + 1, TX_BLAST_MAX_RECONCILE_ROUNDS, m);
  }

  lemma StopBound(s: Sys, data: seq<bv8>, mtu: nat)
    requires Fits(data, mtu) && Packets(data, mtu) >= 2 && Inv(s, data, mtu)
    ensures s.repairs <= TX_BLAST_MAX_RECONCILE_ROUNDS * (Packets(data, mtu) - 2)
  {
    hide Genuine, Bits.Get, Stored;
    if s.tx.blast {
      Monotone(s.tx.attempts, TX_BLAST_MAX_RECONCILE_ROUNDS, Packets(data, mtu) - 2);
    }
  }

  /** A burst of MID packets closed by STATUS_REQ or ABORT is a good queue. */
  lemma BurstGood(s: Sys, data: seq<bv8>, mtu: nat, burst: seq<Packet>, end: Packet)
    requires Fits(data, mtu) && s.rx.Shaped()
    requires forall p | p in burst :: IsMid(p, data, mtu)
    requires s.down == burst + [end] && (end == Control(STATUS_REQ, 0) || end == Control(ABORT, 0))
    requires s.up == [] && s.rx.blast
    ensures ChannelsGood(s, data, mtu)
  {
    hide Genuine, Bits.Get, IsMid;
    forall k | 0 <= k < |s.down|
      ensures IsMid(s.down[k], data, mtu) || (k == |s.down| - 1 && TokenGood(s.down[k], s, data, mtu))
    {
      if k < |burst| {
        assert s.down[k] in burst;
      }
    }
  }

  lemma UpBitmap(s: Sys, data: seq<bv8>, mtu: nat, budget: nat)
    requires Fits(data, mtu) && Inv(s, data, mtu) && |s.up| == 1 && s.up[0].flags == BITMAP && s.tx.blast
    ensures Inv(Next(s, mtu, Up(Intact, budget)), data, mtu)
  {
    var p := s.up[0];
    assert OnResponse(s.tx, p, budget) == OnBitmap(s.tx, p.payload, budget);
    hide Genuine, Bits.Get, Stored, IsMid, OnResponse, SendMissing;
    if s.tx.attempts >= TX_BLAST_MAX_RECONCILE_ROUNDS {
      PacketBoundsZero(data, mtu);
      StopBound(s, data, mtu);
      var t := s.(tx := IDLE, up := [], down := [Control(ABORT, 0)]);
      assert t.down[..0] == [] && Mids(t.down) == 0;
      assert Next(s, mtu, Up(Intact, budget)) == t;
      BurstGood(t, data, mtu, [], Control(ABORT, 0));
    } else {
      var tx1 := s.tx.(attempts := s.tx.attempts + 1);
      if SendMissing(tx1, p.payload, 1, budget).ok && AllReported(tx1, p.payload) {
        UpBitmapLast(s, data, mtu, budget);
      } else {
        UpBitmapRepair(s, data, mtu, budget);
      }
    }
  }

  lemma RepairOutcome(tx: Tx, p: Packet, budget: nat)
    requires tx.blast && tx.awaiting && tx.attempts < TX_BLAST_MAX_RECONCILE_ROUNDS && p.flags == BITMAP
    requires var tx1 := tx.(attempts := tx.attempts + 1);
             !(SendMissing(tx1, p.payload, 1, budget).ok && AllReported(tx1, p.payload))
    ensures var tx1 := tx.(attempts := tx.attempts + 1);
            var repair := SendMissing(tx1, p.payload, 1, budget);
            OnResponse(tx, p, budget) ==
            if repair.ok then Outcome(tx1, repair.packets + [Control(STATUS_REQ, 0)])
            else Outcome(IDLE, repair.packets + [Control(ABORT, 0)])
  {
    hide SendMissing, AllReported;
    assert tx.(attempts := tx.attempts + 1) == tx.(attempts := tx.attempts + 1, awaiting := true);
  }

  lemma UpBitmapRepair(s: Sys, data: seq<bv8>, mtu: nat, budget: nat)
    requires Fits(data, mtu) && Inv(s, data, mtu) && |s.up| == 1 && s.up[0].flags == BITMAP && s.tx.blast
    requires s.tx.attempts < TX_BLAST_MAX_RECONCILE_ROUNDS
    requires var tx1 := s.tx.(attempts := s.tx.attempts + 1);
             !(SendMissing(tx1, s.up[0].payload, 1, budget).ok && AllReported(tx1, s.up[0].payload))
    ensures Inv(Next(s, mtu, Up(Intact, budget)), data, mtu)
  {
    hide Genuine, Bits.Get, Stored, IsMid, OnResponse, SendMissing, AllReported;
    PacketBoundsZero(data, mtu);
    var p := s.up[0];
    RepairOutcome(s.tx, p, budget);
    var tx1 := s.tx.(attempts := s.tx.attempts + 1);
    var repair := SendMissing(tx1, p.payload, 1, budget);
    SendMissingGood(tx1, data, mtu, p.payload, 1, budget);
    MidsAtMost(repair.packets);
    RepairBound(s, data, mtu, Mids(repair.packets));
    var end := if repair.ok then Control(STATUS_REQ, 0) else Control(ABORT, 0);
    MidsWithEnd(repair.packets, end);
    var t := s.(tx := if repair.ok then tx1 else IDLE, up := [], down := repair.packets + [end],
                repairs := s.repairs + Mids(repair.packets));
    assert Next(s, mtu, Up(Intact, budget)) == t;
    BurstGood(t, data, mtu, repair.packets, end);
    assert s.delivered == [];
  }

  lemma LastOutcome(tx: Tx, p: Packet, data: seq<bv8>, mtu: nat, budget: nat)
    requires Fits(data, mtu) && TxGood(tx, data, mtu) && tx.blast
    requires tx.attempts < TX_BLAST_MAX_RECONCILE_ROUNDS && p.flags == BITMAP
    requires var tx1 := tx.(attempts := tx.attempts + 1);
             SendMissing(tx1, p.payload, 1, budget).ok && AllReported(tx1, p.payload)
    ensures Packets(data, mtu) >= 2
    ensures OnResponse(tx, p, budget) ==
            if budget > 0 then Outcome(tx.(attempts := tx.attempts + 1), [Genuine(data, mtu, Packets(data, mtu) - 1)])
            else Outcome(IDLE, [Control(ABORT, 0)])
  {
    var tx1 := tx.(attempts := tx.attempts + 1);
    LastSent(tx1, data, mtu, budget);
    hide SendMissing, AllReported, SendIndex, Genuine;
    assert tx1 == tx.(attempts := tx.attempts + 1, awaiting := true);
  }

  lemma UpBitmapLast(s: Sys, data: seq<bv8>, mtu: nat, budget: nat)
    requires Fits(data, mtu) && Inv(s, data, mtu) && |s.up| == 1 && s.up[0].flags == BITMAP && s.tx.blast
    requires s.tx.attempts < TX_BLAST_MAX_RECONCILE_ROUNDS
    requires var tx1 := s.tx.(attempts := s.tx.attempts + 1);
             SendMissing(tx1, s.up[0].payload, 1, budget).ok && AllReported(tx1, s.up[0].payload)
    ensures Inv(Next(s, mtu, Up(Intact, budget)), data, mtu)
  {
    hide Genuine, Bits.Get, Stored, IsMid, SendMissing, OnResponse, SendIndex;
    var n := Packets(data, mtu);
    var tx1 := s.tx.(attempts := s.tx.attempts + 1);
    LastSent(tx1, data, mtu, budget);
    LastOutcome(s.tx, s.up[0], data, mtu, budget);
    RepairBound(s, data, mtu, 0);
    assert AllButLast(s.rx, data, mtu);
    assert BitmapSpans(data, mtu) by {
      assert n > 2 ==> Reported(s.up[0].payload, n - 2);
    }
    hide AllReported, AllButLast;
    var t := if budget > 0 then s.(tx := tx1, up := [], down := [Genuine(data, mtu, n - 1)])
             else s.(tx := IDLE, up := [], down := [Control(ABORT, 0)]);
    assert Next(s, mtu, Up(Intact, budget)) == t;
    assert s.delivered == [];
    if budget == 0 {
      BurstGood(t, data, mtu, [], Control(ABORT, 0));
    }
  }

  lemma LastSent(tx: Tx, data: seq<bv8>, mtu: nat, budget: nat)
    requires Fits(data, mtu) && TxGood(tx, data, mtu) && tx.blast
    ensures Packets(data, mtu) >= 2
    ensures var last := Genuine(data, mtu, Packets(data, mtu) - 1);
            SendIndex(tx, U16(tx.total - 1), budget) == Sent(if budget > 0 then [last] else [], budget > 0) &&
            Mids([last]) == 0 && Mids([Control(ABORT, 0)]) == 0
  {
    PacketBoundsZero(data, mtu);
    var n := Packets(data, mtu);
    PacketAtGood(tx, data, mtu, n - 1);
    var last := Genuine(data, mtu, n - 1);
    Kinds(last, data, mtu);
    hide Genuine;
    assert [last][..0] == [] && [Control(ABORT, 0)][..0] == [];
  }

  lemma UpAck(s: Sys, data: seq<bv8>, mtu: nat, budget: nat)
    requires Fits(data, mtu) && Inv(s, data, mtu) && |s.up| == 1 && s.up[0].flags == ACK && s.tx.blast
    ensures Inv(Next(s, mtu, Up(Intact, budget)), data, mtu)
  {
    PacketBoundsZero(data, mtu);
    var t := Next(s, mtu, Up(Intact, budget));
    StopBound(s, data, mtu);
    if s.tx.attempts == 0 {
      assert s.delivered == [];
      var all := SendMissing(s.tx, [], 1, budget);
      var end := if all.ok then Control(STATUS_REQ, 0) else Control(ABORT, 0);
      assert OnResponse(s.tx, s.up[0], budget) == Outcome(if all.ok then s.tx else IDLE, all.packets + [end]);
      hide Genuine, Bits.Get, Stored, IsMid, OnResponse;
      SendMissingGood(s.tx, data, mtu, [], 1, budget);
      assert t.down == all.packets + [end] && t.up == [];
      BurstGood(t, data, mtu, all.packets, end);
    } else {
      assert OnResponse(s.tx, s.up[0], budget) == Outcome(s.tx, []);
      hide Genuine, Bits.Get, Stored, IsMid, OnResponse;
      assert t == s.(up := []);
    }
  }

  lemma NakOutcome(tx: Tx, p: Packet, data: seq<bv8>, mtu: nat, budget: nat)
    requires Fits(data, mtu) && TxGood(tx, data, mtu) && tx.blast && p.flags == NAK
    ensures Packets(data, mtu) > 0
    ensures OnResponse(tx, p, budget) ==
            if tx.naks + 1 >= TX_NAK_RESEND_MAX_ATTEMPTS then Outcome(IDLE, [Control(ABORT, 0)])
            else if budget == 0 then Outcome(IDLE, [])
            else Outcome(tx.(naks := tx.naks + 1), [Genuine(data, mtu, 0)])
  {
    PacketBoundsZero(data, mtu);
    PacketAtGood(tx, data, mtu, 0);
    hide Genuine;
  }

  lemma UpNak(s: Sys, data: seq<bv8>, mtu: nat, budget: nat)
    requires Fits(data, mtu) && Inv(s, data, mtu) && |s.up| == 1 && s.up[0].flags == NAK && s.tx.blast
    ensures Inv(Next(s, mtu, Up(Intact, budget)), data, mtu)
  {
    PacketBoundsZero(data, mtu);
    hide Genuine, Bits.Get, Stored, OnResponse;
    var t := Next(s, mtu, Up(Intact, budget));
    StopBound(s, data, mtu);
    NakOutcome(s.tx, s.up[0], data, mtu, budget);
    var first := Genuine(data, mtu, 0);
    Kinds(first, data, mtu);
    assert t.up == [] && (t.down == [] || t.down == [first] || t.down == [Control(ABORT, 0)]);
    if t.down != [] {
      Kinds(t.down[0], data, mtu);
    }
  }

  lemma UpIntact(s: Sys, data: seq<bv8>, mtu: nat, budget: nat)
    requires Fits(data, mtu) && Inv(s, data, mtu) && s.up != []
    ensures Inv(Next(s, mtu, Up(Intact, budget)), data, mtu)
  {
    PacketBoundsZero(data, mtu);
    var p := s.up[0];
    var t := Next(s, mtu, Up(Intact, budget));
    hide Genuine, Bits.Get, Stored;
    if !s.tx.blast {
      assert OnResponse(s.tx, p, budget) == Outcome(s.tx, []);
      hide OnResponse;
      assert Mids([]) == 0;
      assert t == s.(up := []);
    } else if p.flags == BITMAP {
      UpBitmap(s, data, mtu, budget);
    } else if p.flags == ACK {
      UpAck(s, data, mtu, budget);
    } else if p.flags == NAK {
      UpNak(s, data, mtu, budget);
    } else {
      StopBound(s, data, mtu);
      assert OnResponse(s.tx, p, budget) == Outcome(IDLE, []);
      hide OnResponse;
      assert t == s.(tx := IDLE, up := []);
    }
  }

  lemma StepKeepsInv(s: Sys, data: seq<bv8>, mtu: nat, e: Event)
    requires Fits(data, mtu) && Inv(s, data, mtu)
    ensures Inv(Next(s, mtu, e), data, mtu)
  {
    match e {
      case Down(fate, callbackOk) =>
        if s.down != [] {
          if fate == Intact {
            DownIntact(s, data, mtu, callbackOk);
          } else {
            DownDamaged(s, data, mtu, fate, callbackOk);
          }
        }
      case Up(fate, budget) =>
        if s.up != [] {
          if fate == Intact {
            UpIntact(s, data, mtu, budget);
          } else {
            UpDamaged(s, data, mtu, fate, budget);
          }
        }
    }
  }

  lemma InitGood(data: seq<bv8>, mtu: nat, budget: nat)
    requires Fits(data, mtu)
    ensures Inv(Init(data, mtu, budget), data, mtu)
  {
    PacketBoundsZero(data, mtu);
    var tx := Tx(true, true, data, Packets(data, mtu), mtu, 0, 0);
    PacketAtGood(tx, data, mtu, 0);
    Kinds(Genuine(data, mtu, 0), data, mtu);
  }

  lemma {:induction false} RunGood(data: seq<bv8>, mtu: nat, budget: nat, events: seq<Event>)
    requires Fits(data, mtu)
    ensures Inv(Run(Init(data, mtu, budget), mtu, events), data, mtu)
  {
    hide Inv, Init, Next;
    if events == [] {
      InitGood(data, mtu, budget);
    } else {
      RunGood(data, mtu, budget, events[..|events| - 1]);
      StepKeepsInv(Run(Init(data, mtu, budget), mtu, events[..|events| - 1]), data, mtu, events[|events| - 1]);
    }
  }

  // ---------- Main results ----------

  /** Whatever the channels lose or corrupt, whatever the transport refuses and
      whatever the callback answers: the callback runs at most once, and then on
      exactly the sender's payload. */
  lemma DeliveredOnceAndCorrectly(data: seq<bv8>, mtu: nat, budget: nat, events: seq<Event>)
    requires Fits(data, mtu)
    ensures var s := Run(Init(data, mtu, budget), mtu, events);
            |s.delivered| <= 1 &&
            forall d | d in s.delivered :: d.len == |data| && |d.buf| >= |data| && d.buf[..|data|] == data
  {
    RunGood(data, mtu, budget, events);
  }

  /** In a whole run at most five times n - 2 MID packets are sent as repairs. */
  lemma RepairsBounded(data: seq<bv8>, mtu: nat, budget: nat, events: seq<Event>)
    requires Fits(data, mtu)
    ensures Run(Init(data, mtu, budget), mtu, events).repairs <= TX_BLAST_MAX_RECONCILE_ROUNDS * (Packets(data, mtu) - 2)
  {
    PacketBoundsZero(data, mtu);
    RunGood(data, mtu, budget, events);
    StopBound(Run(Init(data, mtu, budget), mtu, events), data, mtu);
  }
}
