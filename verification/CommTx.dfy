/** The sending half (components/comm_module/comm_tx.c) for multi-packet transfers.
    A handler is given budget, the number of checked sends that the transport
    accepts before it stops being ready; sends whose result the source ignores
    always enter the channel, which may lose them. */
module CommTx {
  import opened CommPacket
  import opened Numbers
  import Bits

  datatype Tx = Tx(
    blast: bool,           // s_tx_blast_mode_flag, with s_tx_current_target set
    awaiting: bool,        // s_tx_awaiting_response
    data: seq<bv8>,        // s_tx_buf[..s_tx_buf_len]
    total: nat,            // s_tx_blast_total_packets
    maxPayload: nat,       // s_tx_blast_max_payload_len
    attempts: nat,         // s_tx_blast_reconcile_attempts
    naks: nat              // s_tx_nak_resend_attempts
  )

  /** erase_tx_buffer_locked. */
  const IDLE := Tx(false, false, [], 0, 0, 0, 0)

  datatype Outcome = Outcome(tx: Tx, sent: seq<Packet>)

  datatype Sent = Sent(packets: seq<Packet>, ok: bool)

  /** The packet that tx_send_packet_by_index builds, when it builds one. */
  function PacketAt(tx: Tx, index: nat): seq<Packet> {
    var offset := U16(index * tx.maxPayload);
    if index >= tx.total || offset >= |tx.data| then []
    else
      var len := Min(|tx.data| - offset, tx.maxPayload);
      var flags := if index == 0 then FIRST else if index == tx.total - 1 then LAST else MID;
      [Packet(flags, tx.total - 1 - index, tx.data[offset..offset + len])]
  }

  function SendIndex(tx: Tx, index: nat, budget: nat): Sent {
    if budget == 0 then Sent([], false) else Sent(PacketAt(tx, index), PacketAt(tx, index) != [])
  }

  /** Whether the bitmap payload says that packet index has arrived. */
  predicate Reported(bitmap: seq<bv8>, index: nat) {
    index < 8 * |bitmap| && Bits.Get(bitmap, index)
  }

  /** Send every MID packet from index i on that the bitmap does not report; the
      empty bitmap asks for all of them. */
  function SendMissing(tx: Tx, bitmap: seq<bv8>, i: nat, budget: nat): Sent
    decreases tx.total - i
  {
    if i + 1 >= tx.total then Sent([], true)
    else if Reported(bitmap, i) then SendMissing(tx, bitmap, i + 1, budget)
    else
      var here := SendIndex(tx, i, budget);
      if !here.ok then here
      else
        var rest := SendMissing(tx, bitmap, i + 1, budget - 1);
        Sent(here.packets + rest.packets, rest.ok)
  }

  predicate AllReported(tx: Tx, bitmap: seq<bv8>) {
    forall i | 1 <= i < tx.total - 1 :: Reported(bitmap, i)
  }

  /** Start of a transfer in comm_tx_task. */
  function Start(data: seq<bv8>, mtu: nat, budget: nat): Outcome
    requires 0 < mtu < |data| <= MAX_TX_BUF_SIZE
  {
    var tx := Tx(true, true, data, U16((|data| + mtu - 1) / mtu), mtu, 0, 0);
    var s := SendIndex(tx, 0, budget);
    if s.ok then Outcome(tx, s.packets) else Outcome(IDLE, s.packets)
  }

  /** comm_tx_blast_handle_bitmap. */
  function OnBitmap(tx: Tx, bitmap: seq<bv8>, budget: nat): Outcome {
    if !tx.blast then Outcome(tx, [])
    else if tx.attempts + 1 > TX_BLAST_MAX_RECONCILE_ROUNDS then Outcome(IDLE, [Control(ABORT, 0)])
    else
      var tx1 := tx.(attempts := tx.attempts + 1, awaiting := true);
      var repair := SendMissing(tx1, bitmap, 1, budget);
      if !repair.ok then Outcome(IDLE, repair.packets + [Control(ABORT, 0)])
      else if AllReported(tx1, bitmap) then
        var last := SendIndex(tx1, U16(tx.total - 1), budget);
        if last.ok then Outcome(tx1, last.packets) else Outcome(IDLE, [Control(ABORT, 0)])
      else Outcome(tx1, repair.packets + [Control(STATUS_REQ, 0)])
  }

  /** The NAK branch of comm_process_tx_response and the flags tested after it. */
  function OnNakAndRest(tx: Tx, flags: Flags, handled: bool, budget: nat): Outcome {
    if flags.nak && tx.naks + 1 >= TX_NAK_RESEND_MAX_ATTEMPTS then Outcome(IDLE, [Control(ABORT, 0)])
    else
      var resent := if flags.nak then SendIndex(tx, 0, budget) else Sent([], true);
      var tx1 := if !resent.ok then IDLE else if flags.nak then tx.(naks := tx.naks + 1) else tx;
      if flags.ok || flags.err || flags.abort || !(handled || flags.nak) then Outcome(IDLE, resent.packets)
      else Outcome(tx1, resent.packets)
  }

  /** comm_process_tx_response, for a response from the transport of the transfer. */
  function OnResponse(tx: Tx, p: Packet, budget: nat): Outcome {
    if !tx.blast || !tx.awaiting then Outcome(tx, [])
    else if p.flags == BITMAP then OnBitmap(tx, p.payload, budget)
    else if p.flags.ack && tx.attempts == 0 then
      var all := SendMissing(tx, [], 1, budget);
      if all.ok then Outcome(tx, all.packets + [Control(STATUS_REQ, 0)])
      else Outcome(IDLE, all.packets + [Control(ABORT, 0)])
    else if p.flags.ack && p.flags.ok then Outcome(IDLE, [])
    else OnNakAndRest(tx, p.flags, p.flags.ack, budget)
  }

  class Sender {
    var blast: bool
    var awaiting: bool
    var buf: array<bv8>
    var bufLen: nat
    var total: nat
    var maxPayload: nat
    var attempts: nat
    var naks: nat

    ghost predicate Valid()
      reads this
    {
      buf.Length == MAX_TX_BUF_SIZE && bufLen <= MAX_TX_BUF_SIZE && (blast ==> maxPayload > 0)
    }

    ghost function View(): Tx
      requires Valid()
      reads this, buf
    {
      Tx(blast, awaiting, buf[..bufLen], total, maxPayload, attempts, naks)
    }

    constructor ()
      ensures Valid() && fresh(buf) && View() == IDLE
    {
      buf := new bv8[MAX_TX_BUF_SIZE](i => 0);
      blast, awaiting, bufLen, total, maxPayload, attempts, naks := false, false, 0, 0, 0, 0, 0;
    }

    method EraseBuffer()
      requires Valid()
      modifies this`blast, this`awaiting, this`bufLen, this`total, this`maxPayload, this`attempts, this`naks
      ensures Valid() && View() == IDLE
    {
      blast, awaiting, bufLen, total, maxPayload, attempts, naks := false, false, 0, 0, 0, 0, 0;
    }

    method SendPacketByIndex(index: nat, budget: nat) returns (packets: seq<Packet>, ok: bool)
      requires Valid()
      ensures Sent(packets, ok) == SendIndex(View(), index, budget)
    {
      packets, ok := [], false;
      if index >= total {
        return;
      }
      var offset := U16(index * maxPayload);
      if offset >= bufLen {
        return;
      }
      var len := bufLen - offset;
      if len > maxPayload {
        len := maxPayload;
      }
      var flags := if index == 0 then FIRST else if index == total - 1 then LAST else MID;
      if budget == 0 {
        return;
      }
      assert buf[..bufLen][offset..offset + len] == buf[offset..offset + len];
      packets, ok := [Packet(flags, total - 1 - index, buf[offset..offset + len])], true;
    }

    /** The loop of comm_tx_blast_handle_bitmap, and with an empty bitmap
        tx_blast_send_all_mid_packets. */
    method SendMissingPackets(bitmap: seq<bv8>, budget: nat) returns (packets: seq<Packet>, ok: bool, missing: bool)
      requires Valid()
      ensures Sent(packets, ok) == SendMissing(View(), bitmap, 1, budget)
      ensures missing == !AllReported(View(), bitmap) || !ok
    {
      hide Bits.Get, PacketAt;
      packets, ok, missing := [], true, false;
      var left := budget;
      var i := 1;
      while i + 1 < total
        invariant 1 <= i && ok
        invariant var rest := SendMissing(View(), bitmap, i, left);
                  SendMissing(View(), bitmap, 1, budget) == Sent(packets + rest.packets, rest.ok)
        invariant missing <==> exists j | 1 <= j < i :: !Reported(bitmap, j)
        invariant i == 1 || i < total
        decreases total - i
      {
        if !Reported(bitmap, i) {
          missing := true;
          var sent;
          sent, ok := SendPacketByIndex(i, left);
          packets := packets + sent;
          if !ok {
            return;
          }
          left := left - 1;
        }
        i := i + 1;
      }
      assert packets + [] == packets;
    }

    /** Start of a transfer in comm_tx_task. */
    method StartTransfer(data: seq<bv8>, mtu: nat, budget: nat) returns (sent: seq<Packet>)
      requires Valid() && 0 < mtu < |data| <= MAX_TX_BUF_SIZE
      modifies this`blast, this`awaiting, this`bufLen, this`total, this`maxPayload, this`attempts, this`naks, buf
      ensures Valid() && Outcome(View(), sent) == Start(data, mtu, budget)
    {
      forall i | 0 <= i < |data| {
        buf[i] := data[i];
      }
      bufLen := |data|;
      assert buf[..bufLen] == data;
      blast, total, maxPayload, attempts, naks := true, U16((bufLen + mtu - 1) / mtu), mtu, 0, 0;
      awaiting := true;
      var ok;
      sent, ok := SendPacketByIndex(0, budget);
      if !ok {
        EraseBuffer();
      }
    }

    method HandleBitmap(bitmap: seq<bv8>, budget: nat) returns (sent: seq<Packet>)
      requires Valid()
      modifies this`blast, this`awaiting, this`bufLen, this`total, this`maxPayload, this`attempts, this`naks
      ensures Valid() && Outcome(View(), sent) == OnBitmap(old(View()), bitmap, budget)
    {
      sent := [];
      if !blast {
        return;
      }
      attempts := attempts + 1;
      if attempts > TX_BLAST_MAX_RECONCILE_ROUNDS {
        EraseBuffer();
        sent := [Control(ABORT, 0)];
        return;
      }
      awaiting := true;
      var ok, missing;
      sent, ok, missing := SendMissingPackets(bitmap, budget);
      if !ok {
        EraseBuffer();
        sent := sent + [Control(ABORT, 0)];
        return;
      }
      if missing {
        sent := sent + [Control(STATUS_REQ, 0)];
      } else {
        sent, ok := SendPacketByIndex(U16(total - 1), budget);
        if !ok {
          EraseBuffer();
          sent := [Control(ABORT, 0)];
        }
      }
    }

    method HandleNakAndRest(flags: Flags, handled: bool, budget: nat) returns (sent: seq<Packet>)
      requires Valid()
      modifies this`blast, this`awaiting, this`bufLen, this`total, this`maxPayload, this`attempts, this`naks
      ensures Valid() && Outcome(View(), sent) == OnNakAndRest(old(View()), flags, handled, budget)
    {
      sent := [];
      if flags.nak {
        naks := naks + 1;
        if naks >= TX_NAK_RESEND_MAX_ATTEMPTS {
          EraseBuffer();
          sent := [Control(ABORT, 0)];
          return;
        }
        var ok;
        sent, ok := SendPacketByIndex(0, budget);
        if !ok {
          EraseBuffer();
        }
      }
      if flags.ok || flags.err || flags.abort || !(handled || flags.nak) {
        EraseBuffer();
      }
    }

    /** comm_process_tx_response. */
    method ProcessResponse(p: Packet, budget: nat) returns (sent: seq<Packet>)
      requires Valid()
      modifies this`blast, this`awaiting, this`bufLen, this`total, this`maxPayload, this`attempts, this`naks
      ensures Valid() && Outcome(View(), sent) == OnResponse(old(View()), p, budget)
    {
      sent := [];
      if !blast || !awaiting {
        return;
      }
      if p.flags == BITMAP {
        sent := HandleBitmap(p.payload, budget);
        return;
      }
      if p.flags.ack {
        if attempts == 0 {
          var ok, missing;
          sent, ok, missing := SendMissingPackets([], budget);
          if ok {
            sent := sent + [Control(STATUS_REQ, 0)];
          } else {
            EraseBuffer();
            sent := sent + [Control(ABORT, 0)];
          }
          return;
        }
        if p.flags.ok {
          EraseBuffer();
          return;
        }
      }
      sent := HandleNakAndRest(p.flags, p.flags.ack, budget);
    }
  }
}
