/** The receiving half (components/comm_module/comm_rx.c and the receive branches
    of process_incoming_packet in comm_dispatch.c). */
module CommRx {
  import opened CommPacket
  import opened Numbers
  import Bits

  datatype Rx = Rx(
    buf: seq<bv8>,         // s_rx_buf
    bufLen: nat,           // s_rx_buf_len
    blast: bool,           // s_rx_blast_mode_flag
    total: nat,            // s_rx_blast_total_packets
    maxPayload: nat,       // s_rx_blast_max_payload_len
    bitmap: seq<bv8>,      // s_rx_blast_bitmap
    lens: seq<nat>         // s_rx_blast_payload_lens
  ) {
    predicate Shaped() {
      |buf| == MAX_RX_BUF_SIZE && |bitmap| == RX_BLAST_BITMAP_BYTES && |lens| == RX_BLAST_MAX_PACKETS
    }

    predicate Has(index: nat)
      requires Shaped() && index < RX_BLAST_MAX_PACKETS
    {
      Bits.Get(bitmap, index)
    }
  }

  /** What the module callback is handed: the buffer and the length to read. */
  datatype Delivery = Delivery(buf: seq<bv8>, len: nat)

  /** What one packet makes the receiver do. */
  datatype Reaction = Reaction(rx: Rx, replies: seq<Packet>, delivered: seq<Delivery>)

  function Zeroed(n: nat): (r: seq<bv8>)
    ensures |r| == n
    ensures forall i | 0 <= i < n :: r[i] == 0
  {
    seq(n, i => 0)
  }

  function NoLens(n: nat): (r: seq<nat>)
    ensures |r| == n
    ensures forall i | 0 <= i < n :: r[i] == 0
  {
    seq(n, i => 0)
  }

  /** comm_erase_rx_buffer, which also resets Blast mode. */
  function Erased(): (rx: Rx)
    ensures rx.Shaped()
  {
    Rx(Zeroed(MAX_RX_BUF_SIZE), 0, false, 0, 0, Zeroed(RX_BLAST_BITMAP_BYTES), NoLens(RX_BLAST_MAX_PACKETS))
  }

  /** rx_blast_receive_packet. */
  function Store(rx: Rx, p: Packet): (r: Rx)
    requires rx.Shaped()
    ensures r.Shaped()
  {
    var index := U16(rx.total - 1 - p.rem);
    var offset := U16(index * rx.maxPayload);
    if index >= rx.total || index >= RX_BLAST_MAX_PACKETS then rx
    else if rx.Has(index) then rx
    else if offset + |p.payload| > MAX_RX_BUF_SIZE then rx
    else rx.(buf := Splice(rx.buf, offset, p.payload),
             lens := rx.lens[index := |p.payload|],
             bitmap := Bits.Set(rx.bitmap, index))
  }

  /** comm_rx_blast_build_bitmap_response; mtu is what a packet carries at this moment. */
  function BitmapReply(rx: Rx, mtu: nat): Packet
    requires rx.Shaped()
  {
    var needed := Min((rx.total + 7) / 8 % 256, mtu);
    Packet(BITMAP, 0, rx.bitmap[..Min(needed, RX_BLAST_BITMAP_BYTES)])
  }

  function Sum(lens: seq<nat>): nat {
    if lens == [] then 0 else Sum(lens[..|lens| - 1]) + lens[|lens| - 1]
  }

  /** The index of the last packet, or the end of the length table for totals
      that the table cannot hold. */
  function LastIndex(rx: Rx): nat {
    U16(rx.total - 1)
  }

  /** The buffer and length that comm_rx_blast_commit hands over, or nothing when
      the LAST packet does not fit. */
  function CommitBuffer(rx: Rx, p: Packet): (d: Delivery)
    requires rx.Shaped() && U16(LastIndex(rx) * rx.maxPayload) + |p.payload| <= MAX_RX_BUF_SIZE
  {
    var last := LastIndex(rx);
    var lens := if last < RX_BLAST_MAX_PACKETS then rx.lens[last := |p.payload|] else rx.lens;
    Delivery(Splice(rx.buf, U16(last * rx.maxPayload), p.payload), U16(Sum(lens[..Min(rx.total, RX_BLAST_MAX_PACKETS)])))
  }

  /** comm_rx_blast_commit and the OK or ERR that comm_dispatch sends after it. */
  function Commit(rx: Rx, p: Packet, callbackOk: bool): (r: Reaction)
    requires rx.Shaped()
    ensures r.rx.Shaped()
  {
    if U16(LastIndex(rx) * rx.maxPayload) + |p.payload| > MAX_RX_BUF_SIZE then
      Reaction(Erased(), [Control(ACK_ERR, 0)], [])
    else
      var d := CommitBuffer(rx, p);
      if d.len == 0 then Reaction(Erased(), [Control(ACK_ERR, 0)], [])
      else Reaction(Erased(), [Control(if callbackOk then ACK_OK else ACK_ERR, 0)], [d])
  }

  predicate IsRx(flags: Flags) {
    flags.first || flags.mid || flags.last
  }

  /** The single-packet path of comm_process_rx_request. */
  function Legacy(rx: Rx, p: Packet, callbackOk: bool): (r: Reaction)
    requires rx.Shaped()
    ensures r.rx.Shaped()
  {
    var rx1 := if p.flags.first then Erased() else rx;
    if !IsRx(p.flags) then Reaction(rx1, [], [])
    else if rx1.bufLen + |p.payload| > MAX_RX_BUF_SIZE then
      Reaction(Erased(), [Control(ABORT, p.rem)], [])
    else
      var rx2 := rx1.(buf := Splice(rx1.buf, rx1.bufLen, p.payload), bufLen := rx1.bufLen + |p.payload|);
      if !p.flags.last then Reaction(rx2, [], [])
      else
        var delivered := if rx2.bufLen == 0 then [] else [Delivery(rx2.buf, rx2.bufLen)];
        if rx2.bufLen == 0 || !callbackOk then Reaction(Erased(), [Control(ERR, p.rem)], delivered)
        else Reaction(rx2, [], delivered)
  }

  /** comm_process_rx_request. The session lock is held by, or free for, the
      transport the packet came from exactly when session is true. */
  function ProcessRequest(rx: Rx, p: Packet, mtu: nat, session: bool, callbackOk: bool): (r: Reaction)
    requires rx.Shaped()
    ensures r.rx.Shaped()
  {
    if p.flags.first && p.rem > 0 then
      if !session then Reaction(rx, [Control(ABORT, p.rem)], [])
      else Reaction(Store(Erased().(blast := true, total := U16(p.rem + 1), maxPayload := mtu), p), [], [])
    else if rx.blast && p.flags.mid then
      Reaction(if session then Store(rx, p) else rx, [], [])
    else if rx.blast && p.flags.last then
      Reaction(rx, [], [])
    else
      Legacy(rx, p, callbackOk)
  }

  /** process_incoming_packet for a packet whose checksum is right. Responses
      (ACK, NAK, OK, ERR, ABORT, BITMAP) belong to the sending half and do not
      touch the receiver. */
  function Receive(rx: Rx, p: Packet, mtu: nat, session: bool, callbackOk: bool): (r: Reaction)
    requires rx.Shaped()
    ensures r.rx.Shaped()
  {
    if p.flags == STATUS_REQ then
      Reaction(rx, if rx.blast then [BitmapReply(rx, mtu)] else [], [])
    else if p.flags == BITMAP || !IsRx(p.flags) || p.payload == [] then
      Reaction(rx, [], [])
    else
      var acks := if !rx.blast || p.flags.first then [Control(ACK, p.rem)] else [];
      var next := if rx.blast && p.flags.last then Commit(rx, p, callbackOk)
                  else ProcessRequest(rx, p, mtu, session, callbackOk);
      next.(replies := acks + next.replies)
  }

  /** process_incoming_packet for a packet whose checksum is wrong. */
  function ReceiveCorrupt(rx: Rx, rem: nat): seq<Packet> {
    if rx.blast then [] else [Control(NAK, rem)]
  }

  class Receiver {
    var buf: array<bv8>
    var bufLen: nat
    var blast: bool
    var total: nat
    var maxPayload: nat
    var bitmap: array<bv8>
    var lens: array<nat>

    ghost predicate Valid()
      reads this
    {
      buf.Length == MAX_RX_BUF_SIZE && bitmap.Length == RX_BLAST_BITMAP_BYTES && lens.Length == RX_BLAST_MAX_PACKETS &&
      buf != bitmap
    }

    ghost function View(): (rx: Rx)
      requires Valid()
      reads this, buf, bitmap, lens
      ensures rx.Shaped()
    {
      Rx(buf[..], bufLen, blast, total, maxPayload, bitmap[..], lens[..])
    }

    constructor ()
      ensures Valid() && fresh(buf) && fresh(bitmap) && fresh(lens)
      ensures View() == Erased()
    {
      buf := new bv8[MAX_RX_BUF_SIZE](i => 0);
      bitmap := new bv8[RX_BLAST_BITMAP_BYTES](i => 0);
      lens := new nat[RX_BLAST_MAX_PACKETS](i => 0);
      bufLen, blast, total, maxPayload := 0, false, 0, 0;
      new;
      assert buf[..] == Zeroed(MAX_RX_BUF_SIZE) && bitmap[..] == Zeroed(RX_BLAST_BITMAP_BYTES);
      assert lens[..] == NoLens(RX_BLAST_MAX_PACKETS);
    }

    method EraseBuffer()
      requires Valid()
      modifies this`bufLen, this`blast, this`total, this`maxPayload, buf, bitmap, lens
      ensures Valid() && View() == Erased()
    {
      forall i | 0 <= i < buf.Length {
        buf[i] := 0;
      }
      forall i | 0 <= i < bitmap.Length {
        bitmap[i] := 0;
      }
      forall i | 0 <= i < lens.Length {
        lens[i] := 0;
      }
      bufLen, blast, total, maxPayload := 0, false, 0, 0;
      assert buf[..] == Zeroed(MAX_RX_BUF_SIZE) && bitmap[..] == Zeroed(RX_BLAST_BITMAP_BYTES);
      assert lens[..] == NoLens(RX_BLAST_MAX_PACKETS);
    }

    method Copy(offset: nat, data: seq<bv8>)
      requires Valid() && offset + |data| <= MAX_RX_BUF_SIZE
      modifies buf
      ensures buf[..] == Splice(old(buf[..]), offset, data)
    {
      forall i | 0 <= i < |data| {
        buf[offset + i] := data[i];
      }
    }

    method ReceivePacket(p: Packet)
      requires Valid()
      modifies buf, bitmap, lens
      ensures Valid() && View() == Store(old(View()), p)
    {
      var index := U16(total - 1 - p.rem);
      if index >= total || index >= RX_BLAST_MAX_PACKETS {
        return;
      }
      if Bits.Test(bitmap[index / 8], index % 8) {
        return;
      }
      var offset := U16(index * maxPayload);
      if offset + |p.payload| > MAX_RX_BUF_SIZE {
        return;
      }
      hide Bits.Test, Bits.Mask;
      Copy(offset, p.payload);
      lens[index] := |p.payload|;
      bitmap[index / 8] := bitmap[index / 8] | Bits.Mask(index % 8);
      assert bitmap[..] == Bits.Set(old(bitmap[..]), index);
      assert lens[..] == old(lens[..])[index := |p.payload|];
    }

    method BuildBitmapResponse(mtu: nat) returns (p: Packet)
      requires Valid()
      ensures p == BitmapReply(View(), mtu)
    {
      var needed := (total + 7) / 8 % 256;
      if needed > mtu {
        needed := mtu;
      }
      p := Packet(BITMAP, 0, bitmap[..Min(needed, RX_BLAST_BITMAP_BYTES)]);
    }

    method SumLens() returns (sum: nat)
      requires Valid()
      ensures sum == U16(Sum(lens[..Min(total, RX_BLAST_MAX_PACKETS)]))
    {
      sum := 0;
      for i := 0 to Min(total, RX_BLAST_MAX_PACKETS)
        invariant sum == U16(Sum(lens[..i]))
      {
        assert lens[..i + 1][..i] == lens[..i];
        sum := U16(sum + lens[i]);
      }
    }

    method BlastCommit(p: Packet, callbackOk: bool) returns (reply: Packet, delivered: seq<Delivery>)
      requires Valid()
      modifies this`bufLen, this`blast, this`total, this`maxPayload, buf, bitmap, lens
      ensures Valid()
      ensures Reaction(View(), [reply], delivered) == Commit(old(View()), p, callbackOk)
    {
      var last := U16(total - 1);
      var offset := U16(last * maxPayload);
      delivered := [];
      if offset + |p.payload| > MAX_RX_BUF_SIZE {
        EraseBuffer();
        reply := Control(ACK_ERR, 0);
        return;
      }
      Copy(offset, p.payload);
      if last < RX_BLAST_MAX_PACKETS {
        lens[last] := |p.payload|;
      }
      bufLen := SumLens();
      assert Delivery(buf[..], bufLen) == CommitBuffer(old(View()), p);
      if bufLen != 0 {
        delivered := [Delivery(buf[..], bufLen)];
      }
      reply := Control(if bufLen != 0 && callbackOk then ACK_OK else ACK_ERR, 0);
      EraseBuffer();
    }

    method ProcessLegacy(p: Packet, callbackOk: bool) returns (replies: seq<Packet>, delivered: seq<Delivery>)
      requires Valid()
      modifies this`bufLen, this`blast, this`total, this`maxPayload, buf, bitmap, lens
      ensures Valid()
      ensures Reaction(View(), replies, delivered) == Legacy(old(View()), p, callbackOk)
    {
      replies, delivered := [], [];
      if p.flags.first {
        EraseBuffer();
      }
      if !IsRx(p.flags) {
        return;
      }
      if bufLen + |p.payload| > MAX_RX_BUF_SIZE {
        EraseBuffer();
        replies := [Control(ABORT, p.rem)];
        return;
      }
      Copy(bufLen, p.payload);
      bufLen := bufLen + |p.payload|;
      if p.flags.last {
        if bufLen != 0 {
          delivered := [Delivery(buf[..], bufLen)];
        }
        if bufLen == 0 || !callbackOk {
          EraseBuffer();
          replies := [Control(ERR, p.rem)];
        }
      }
    }

    method ProcessRxRequest(p: Packet, mtu: nat, session: bool, callbackOk: bool)
      returns (replies: seq<Packet>, delivered: seq<Delivery>)
      requires Valid()
      modifies this`bufLen, this`blast, this`total, this`maxPayload, buf, bitmap, lens
      ensures Valid()
      ensures Reaction(View(), replies, delivered) == ProcessRequest(old(View()), p, mtu, session, callbackOk)
    {
      replies, delivered := [], [];
      if p.flags.first && p.rem > 0 {
        if !session {
          replies := [Control(ABORT, p.rem)];
          return;
        }
        EraseBuffer();
        blast, total, maxPayload := true, U16(p.rem + 1), mtu;
        ReceivePacket(p);
      } else if blast && p.flags.mid {
        if session {
          ReceivePacket(p);
        }
      } else if blast && p.flags.last {
      } else {
        replies, delivered := ProcessLegacy(p, callbackOk);
      }
    }

    /** The receive branches of process_incoming_packet. */
    method OnPacket(p: Packet, crcOk: bool, mtu: nat, session: bool, callbackOk: bool)
      returns (replies: seq<Packet>, delivered: seq<Delivery>)
      requires Valid()
      modifies this`bufLen, this`blast, this`total, this`maxPayload, buf, bitmap, lens
      ensures Valid()
      ensures crcOk ==> Reaction(View(), replies, delivered) == Receive(old(View()), p, mtu, session, callbackOk)
      ensures !crcOk ==>
                View() == old(View()) && replies == ReceiveCorrupt(old(View()), p.rem) && delivered == []
    {
      replies, delivered := [], [];
      if !crcOk {
        if !blast {
          replies := [Control(NAK, p.rem)];
        }
        return;
      }
      if p.flags == STATUS_REQ {
        if blast {
          var bitmapReply := BuildBitmapResponse(mtu);
          replies := [bitmapReply];
        }
        return;
      }
      if p.flags == BITMAP {
        return;
      }
      if !IsRx(p.flags) || p.payload == [] {
        return;
      }
      var acks := if !blast || p.flags.first then [Control(ACK, p.rem)] else [];
      if blast && p.flags.last {
        var reply;
        reply, delivered := BlastCommit(p, callbackOk);
        replies := acks + [reply];
      } else {
        replies, delivered := ProcessRxRequest(p, mtu, session, callbackOk);
        replies := acks + replies;
      }
    }
  }
}
