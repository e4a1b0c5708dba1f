/** Packets of the comm module (components/comm_module/include/comm_defs.h). */
module CommPacket {

  const MAX_RX_BUF_SIZE: nat := 10240
  const MAX_TX_BUF_SIZE: nat := 10240
  const RX_BLAST_BITMAP_BYTES: nat := 48
  const RX_BLAST_MAX_PACKETS: nat := 384
  const TX_BLAST_MAX_RECONCILE_ROUNDS: nat := 5
  const TX_NAK_RESEND_MAX_ATTEMPTS: nat := 3

  /** The eight bits of the flags byte, most significant first. */
  datatype Flags = Flags(first: bool, mid: bool, last: bool, ack: bool, nak: bool, ok: bool, err: bool, abort: bool)

  const NONE := Flags(false, false, false, false, false, false, false, false)
  const FIRST := NONE.(first := true)
  const MID := NONE.(mid := true)
  const LAST := NONE.(last := true)
  const ACK := NONE.(ack := true)
  const NAK := NONE.(nak := true)
  const OK := NONE.(ok := true)
  const ERR := NONE.(err := true)
  const ABORT := NONE.(abort := true)
  const ACK_OK := ACK.(ok := true)
  const ACK_ERR := ACK.(err := true)
  const STATUS_REQ := MID.(ack := true)
  const BITMAP := MID.(nak := true)

  datatype Packet = Packet(flags: Flags, rem: nat, payload: seq<bv8>)

  /** A packet without payload. */
  function Control(flags: Flags, rem: nat): Packet {
    Packet(flags, rem, [])
  }

  /** memcpy(buf + offset, data, |data|). */
  function Splice(buf: seq<bv8>, offset: nat, data: seq<bv8>): (r: seq<bv8>)
    requires offset + |data| <= |buf|
    ensures |r| == |buf|
    ensures forall k | 0 <= k < |buf| :: r[k] == if offset <= k < offset + |data| then data[k - offset] else buf[k]
  {
    buf[..offset] + data + buf[offset + |data|..]
  }
}
