/** Pushing a configuration blob in fragments and putting it together again
    (components/split/split_config_sync.c). */
module ConfigSync {
  import opened Options
  import Bits
  import opened CommPacket
  import opened Numbers

  const SPLIT_CONFIG_SYNC_DATA_MAX: nat := 221
  const SPLIT_CFG_MAX_FRAGMENTS: nat := 255
  const MAP_BYTES: nat := 32

  type Blob = seq<bv8>

  /** Kind and key of a blob. */
  datatype Topic = Topic(kind: nat, key: string)

  datatype Fragment = Fragment(topic: Topic, index: nat, total: nat, data: Blob)

  // ---------- The sender ----------

  /** fragment_total, which is a uint8_t. */
  function Total(blob: Blob): (n: nat)
    ensures n <= SPLIT_CFG_MAX_FRAGMENTS
  {
    (|blob| + SPLIT_CONFIG_SYNC_DATA_MAX - 1) / SPLIT_CONFIG_SYNC_DATA_MAX % 256
  }

  function Chunk(blob: Blob, index: nat): (chunk: Blob)
    requires index < Total(blob)
    ensures |chunk| <= SPLIT_CONFIG_SYNC_DATA_MAX
  {
    ChunkBounds(blob, index);
    var offset := index * SPLIT_CONFIG_SYNC_DATA_MAX;
    blob[offset..Min(offset + SPLIT_CONFIG_SYNC_DATA_MAX, |blob|)]
  }

  lemma ChunkBounds(blob: Blob, index: nat)
    requires index < Total(blob)
    ensures index * SPLIT_CONFIG_SYNC_DATA_MAX < |blob|
  {
  }

  function FragmentOf(topic: Topic, blob: Blob, index: nat): Fragment
    requires index < Total(blob)
  {
    Fragment(topic, index, Total(blob), Chunk(blob, index))
  }

  /** The fragments that split_config_sync_push sends when every send succeeds. */
  function Fragments(topic: Topic, blob: Blob, n: nat): (f: seq<Fragment>)
    requires n <= Total(blob)
    ensures |f| == n && forall i | 0 <= i < n :: f[i] == FragmentOf(topic, blob, i)
  {
    seq(n, i requires 0 <= i < n => FragmentOf(topic, blob, i))
  }

  /** The loop of split_config_sync_push; failedAt is the first fragment whose retries all fail. */
  method Push(topic: Topic, blob: Blob, failedAt: Option<nat>) returns (sent: seq<Fragment>, ok: bool)
    ensures sent == Fragments(topic, blob, if failedAt.Some? then Min(failedAt.value, Total(blob)) else Total(blob))
    ensures ok == (failedAt.Some? ==> failedAt.value >= Total(blob))
  {
    sent, ok := [], true;
    var total := (|blob| + SPLIT_CONFIG_SYNC_DATA_MAX - 1) / SPLIT_CONFIG_SYNC_DATA_MAX % 256;
    for idx := 0 to total
      invariant sent == Fragments(topic, blob, idx)
      invariant failedAt.Some? ==> failedAt.value >= idx
    {
      var offset := idx * SPLIT_CONFIG_SYNC_DATA_MAX;
      ChunkBounds(blob, idx);
      var chunk := |blob| - offset;
      if chunk > SPLIT_CONFIG_SYNC_DATA_MAX {
        chunk := SPLIT_CONFIG_SYNC_DATA_MAX;
      }
      if failedAt == Some(idx) {
        ok := false;
        return;
      }
      sent := sent + [Fragment(topic, idx, total, blob[offset..offset + chunk])];
    }
  }

  // ---------- The receiver ----------

  datatype Rx = Rx(
    active: bool,
    topic: Topic,
    total: nat,
    got: seq<bv8>,         // received_map
    buf: seq<bv8>,
    dataLen: nat,
    pending: bool          // write_pending
  ) {
    predicate Shaped() {
      |got| == MAP_BYTES && total <= SPLIT_CFG_MAX_FRAGMENTS && (active ==> |buf| == total * SPLIT_CONFIG_SYNC_DATA_MAX)
    }
  }

  function Zeros(): (z: seq<bv8>)
    ensures |z| == MAP_BYTES && forall i | 0 <= i < |z| :: z[i] == 0
  {
    seq(MAP_BYTES, i => 0)
  }

  const NO_TOPIC := Topic(0, "")

  function Empty(): (rx: Rx)
    ensures rx.Shaped() && !rx.active && !rx.pending
  {
    Rx(false, NO_TOPIC, 0, Zeros(), [], 0, false)
  }

  /** split_config_sync_reset: a blob that waits to be written is kept. */
  function Reset(rx: Rx): (r: Rx)
    requires rx.Shaped()
    ensures r.Shaped()
  {
    if rx.pending then rx else Empty()
  }

  datatype Outcome = Waiting | Complete | Refused

  datatype Reply = Reply(rx: Rx, outcome: Outcome)

  predicate AllReceived(got: seq<bv8>, total: nat)
    requires |got| == MAP_BYTES && total <= SPLIT_CFG_MAX_FRAGMENTS
  {
    forall i | 0 <= i < total :: Bits.Get(got, i)
  }

  /** A fragment of the transfer that is under way. */
  function Accept(rx: Rx, f: Fragment): (r: Reply)
    requires rx.Shaped() && rx.active && rx.total == f.total
    ensures r.rx.Shaped()
  {
    if f.index >= f.total then Reply(rx, Refused)
    else
      var offset := f.index * SPLIT_CONFIG_SYNC_DATA_MAX;
      if offset + |f.data| > |rx.buf| then Reply(Reset(rx), Refused)
      else
        var stored := if Bits.Get(rx.got, f.index) then rx
                      else rx.(got := Bits.Set(rx.got, f.index), buf := Splice(rx.buf, offset, f.data));
        var end := offset + |f.data|;
        var grown := stored.(dataLen := if end > stored.dataLen then end else stored.dataLen);
        if AllReceived(grown.got, grown.total) && grown.dataLen != 0 then Reply(grown.(pending := true), Complete)
        else Reply(grown, Waiting)
  }

  /** split_config_sync_on_fragment up to the deferred write; memory is what malloc
      returns for a new transfer. */
  function OnFragment(rx: Rx, f: Fragment, memory: Option<seq<bv8>>): (r: Reply)
    requires rx.Shaped() && f.total <= SPLIT_CFG_MAX_FRAGMENTS
    requires memory.Some? ==> |memory.value| == f.total * SPLIT_CONFIG_SYNC_DATA_MAX
    ensures r.rx.Shaped()
  {
    if f.total == 0 then Reply(rx, Refused)
    else if rx.active && rx.topic == f.topic && rx.total == f.total then Accept(rx, f)
    else if rx.pending then Reply(rx, Refused)
    else if memory == None then Reply(Empty(), Refused)
    else Accept(Rx(true, f.topic, f.total, Zeros(), memory.value, 0, false), f)
  }

  class Reassembler {
    var active: bool
    var topic: Topic
    var total: nat
    var got: array<bv8>
    var buf: array<bv8>
    var dataLen: nat
    var pending: bool

    ghost predicate Valid()
      reads this
    {
      got.Length == MAP_BYTES && got != buf && total <= SPLIT_CFG_MAX_FRAGMENTS &&
      (active ==> buf.Length == total * SPLIT_CONFIG_SYNC_DATA_MAX)
    }

    ghost function View(): (rx: Rx)
      requires Valid()
      reads this, got, buf
      ensures rx.Shaped()
    {
      Rx(active, topic, total, got[..], buf[..], dataLen, pending)
    }

    constructor ()
      ensures Valid() && fresh(got) && fresh(buf) && View() == Empty()
    {
      active, topic, total, dataLen, pending := false, NO_TOPIC, 0, 0, false;
      got := new bv8[MAP_BYTES](i => 0);
      buf := new bv8[0];
      new;
      assert got[..] == Zeros() && buf[..] == [];
    }

    method ResetTransfer()
      requires Valid()
      modifies this, got
      ensures Valid() && got == old(got) && (buf == old(buf) || fresh(buf)) && View() == Reset(old(View()))
    {
      if pending {
        return;
      }
      active, topic, total, dataLen, pending := false, NO_TOPIC, 0, 0, false;
      buf := new bv8[0];
      forall i | 0 <= i < got.Length {
        got[i] := 0;
      }
      assert got[..] == Zeros() && buf[..] == [];
    }

    method CheckComplete() returns (complete: bool)
      requires Valid()
      ensures complete == AllReceived(got[..], total)
    {
      for i := 0 to total
        invariant forall j | 0 <= j < i :: Bits.Get(got[..], j)
      {
        var bit := Bits.BitGet(got, i);
        if !bit {
          return false;
        }
      }
      return true;
    }

    method StoreFragment(index: nat, offset: nat, data: seq<bv8>)
      requires Valid() && index < total && offset + |data| <= buf.Length
      modifies got, buf
      ensures Valid()
      ensures View() == if Bits.Get(old(got[..]), index) then old(View())
                        else old(View()).(got := Bits.Set(old(got[..]), index), buf := Splice(old(buf[..]), offset, data))
    {
      hide Bits.Unpack, Bits.Mask;
      var seen := Bits.BitGet(got, index);
      if !seen {
        got[index / 8] := got[index / 8] | Bits.Mask(index % 8);
        assert got[..] == Bits.Set(old(got[..]), index);
        forall i | 0 <= i < |data| {
          buf[offset + i] := data[i];
        }
        assert buf[..] == Splice(old(buf[..]), offset, data);
      }
    }

    method AcceptFragment(f: Fragment) returns (outcome: Outcome)
      requires Valid() && active && total == f.total
      modifies this, got, buf
      ensures Valid() && got == old(got) && (buf == old(buf) || fresh(buf))
      ensures Reply(View(), outcome) == Accept(old(View()), f)
    {
      hide AllReceived, Bits.Get, Bits.Set, Splice;
      if f.index >= f.total {
        return Refused;
      }
      var offset := f.index * SPLIT_CONFIG_SYNC_DATA_MAX;
      if offset + |f.data| > buf.Length {
        ResetTransfer();
        return Refused;
      }
      StoreFragment(f.index, offset, f.data);
      var end := offset + |f.data|;
      if end > dataLen {
        dataLen := end;
      }
      var complete := CheckComplete();
      if !complete || dataLen == 0 {
        return Waiting;
      }
      pending := true;
      return Complete;
    }

    method Receive(f: Fragment, memory: Option<seq<bv8>>) returns (outcome: Outcome)
      requires Valid() && f.total <= SPLIT_CFG_MAX_FRAGMENTS
      requires memory.Some? ==> |memory.value| == f.total * SPLIT_CONFIG_SYNC_DATA_MAX
      modifies this, got, buf
      ensures Valid() && got == old(got) && (buf == old(buf) || fresh(buf))
      ensures Reply(View(), outcome) == OnFragment(old(View()), f, memory)
    {
      hide Accept;
      if f.total == 0 {
        return Refused;
      }
      if !active || topic != f.topic || total != f.total {
        if pending {
          return Refused;
        }
        ResetTransfer();
        if memory == None {
          return Refused;
        }
        active, topic, total, dataLen := true, f.topic, f.total, 0;
        var bytes := memory.value;
        buf := new bv8[f.total * SPLIT_CONFIG_SYNC_DATA_MAX](i requires 0 <= i < |bytes| => bytes[i]);
        assert buf[..] == bytes;
      }
      outcome := AcceptFragment(f);
    }
  }

  // ---------- What is sent ----------

  /** The part of the blob that the fragments cover. */
  function Covered(blob: Blob): (w: Blob)
    ensures |w| == Min(|blob|, Total(blob) * SPLIT_CONFIG_SYNC_DATA_MAX)
  {
    blob[..Min(|blob|, Total(blob) * SPLIT_CONFIG_SYNC_DATA_MAX)]
  }

  function Joined(fragments: seq<Fragment>): Blob {
    if fragments == [] then [] else Joined(fragments[..|fragments| - 1]) + fragments[|fragments| - 1].data
  }

  lemma {:induction false} JoinedIs(topic: Topic, blob: Blob, n: nat)
    requires n <= Total(blob)
    ensures Joined(Fragments(topic, blob, n)) == blob[..Min(|blob|, n * SPLIT_CONFIG_SYNC_DATA_MAX)]
  {
    if n > 0 {
      JoinedIs(topic, blob, n - 1);
      ChunkBounds(blob, n - 1);
      var all := Fragments(topic, blob, n);
      assert all[..n - 1] == Fragments(topic, blob, n - 1);
      hide Total, Fragments;
      var lo, hi := (n - 1) * SPLIT_CONFIG_SYNC_DATA_MAX, Min(|blob|, n * SPLIT_CONFIG_SYNC_DATA_MAX);
      assert blob[..hi] == blob[..lo] + blob[lo..hi];
    }
  }

  /** The fragments of a push make up the blob exactly when it needs at most 255 of
      them; the fragment count of a longer blob wraps around and its tail is not sent. */
  lemma PushCoversIff(topic: Topic, blob: Blob)
    ensures Joined(Fragments(topic, blob, Total(blob))) == blob <==>
            |blob| <= SPLIT_CFG_MAX_FRAGMENTS * SPLIT_CONFIG_SYNC_DATA_MAX
  {
    JoinedIs(topic, blob, Total(blob));
    hide Joined, Fragments;
    if |blob| <= SPLIT_CFG_MAX_FRAGMENTS * SPLIT_CONFIG_SYNC_DATA_MAX {
      assert Total(blob) * SPLIT_CONFIG_SYNC_DATA_MAX >= |blob|;
      assert blob[..|blob|] == blob;
    }
  }

  /** A blob of exactly 256 full fragments is not sent at all. */
  lemma WrappedToNothing(topic: Topic, blob: Blob)
    requires |blob| == 256 * SPLIT_CONFIG_SYNC_DATA_MAX
    ensures Total(blob) == 0 && Fragments(topic, blob, Total(blob)) == []
  {
    assert (|blob| + SPLIT_CONFIG_SYNC_DATA_MAX - 1) / SPLIT_CONFIG_SYNC_DATA_MAX == 256;
  }

  // ---------- What is put together ----------

  /** One fragment that has come: fragment index of this blob. */
  datatype Came = Came(index: nat, blob: Blob)

  predicate Fit(came: seq<Came>, total: nat) {
    forall k | 0 <= k < |came| :: Total(came[k].blob) == total && came[k].index < total
  }

  /** The blob whose fragment i came first. */
  function First(came: seq<Came>, i: nat): Option<Blob> {
    if came == [] then None
    else
      var front, last := came[..|came| - 1], came[|came| - 1];
      if First(front, i).Some? then First(front, i) else if last.index == i then Some(last.blob) else None
  }

  /** Where fragment index of the blob ends. */
  function End(blob: Blob, index: nat): (e: nat)
    requires index < Total(blob)
    ensures index * SPLIT_CONFIG_SYNC_DATA_MAX < e <= (index + 1) * SPLIT_CONFIG_SYNC_DATA_MAX && e <= |Covered(blob)|
    ensures e == index * SPLIT_CONFIG_SYNC_DATA_MAX + |Chunk(blob, index)|
    ensures index + 1 < Total(blob) ==> e == (index + 1) * SPLIT_CONFIG_SYNC_DATA_MAX
  {
    ChunkBounds(blob, index);
    Min((index + 1) * SPLIT_CONFIG_SYNC_DATA_MAX, |blob|)
  }

  /** What byte k of region i holds: that of the first fragment i, as far as it goes, and
      otherwise what the memory held when the transfer began. */
  predicate Region(buf: Blob, memory: Blob, first: Option<Blob>, i: nat)
    requires |buf| == |memory| && (i + 1) * SPLIT_CONFIG_SYNC_DATA_MAX <= |buf|
    requires first.Some? ==> i < Total(first.value)
  {
    forall k | i * SPLIT_CONFIG_SYNC_DATA_MAX <= k < (i + 1) * SPLIT_CONFIG_SYNC_DATA_MAX ::
      buf[k] == if first.Some? && k < End(first.value, i) then first.value[k] else memory[k]
  }

  lemma {:induction false} FirstFits(came: seq<Came>, total: nat, i: nat)
    requires Fit(came, total)
    ensures First(came, i).Some? ==> i < total && Total(First(came, i).value) == total
  {
    hide Total;
    if came != [] {
      FirstFits(came[..|came| - 1], total, i);
    }
  }

  /** The map shows what has come, and the buffer holds it. */
  ghost predicate BytesGood(rx: Rx, memory: Blob, came: seq<Came>)
    requires rx.Shaped() && rx.active && |memory| == rx.total * SPLIT_CONFIG_SYNC_DATA_MAX && Fit(came, rx.total)
  {
    forall i | 0 <= i < rx.total ::
      (First(came, i).Some? ==> i < Total(First(came, i).value)) &&
      Bits.Get(rx.got, i) == First(came, i).Some? && Region(rx.buf, memory, First(came, i), i)
  }

  /** The length is the largest end of what has come. */
  ghost predicate LengthGood(came: seq<Came>, total: nat, len: nat)
    requires Fit(came, total)
  {
    (forall k | 0 <= k < |came| :: End(came[k].blob, came[k].index) <= len) &&
    (if came == [] then len == 0 else exists k :: 0 <= k < |came| && len == End(came[k].blob, came[k].index))
  }

  ghost predicate Full(came: seq<Came>, total: nat) {
    came != [] && forall i | 0 <= i < total :: First(came, i).Some?
  }

  /** The state after these fragments of a transfer. */
  ghost predicate Assembled(rx: Rx, memory: Blob, came: seq<Came>) {
    rx.Shaped() && rx.active && |memory| == rx.total * SPLIT_CONFIG_SYNC_DATA_MAX && Fit(came, rx.total) &&
    BytesGood(rx, memory, came) && LengthGood(came, rx.total, rx.dataLen) && (rx.pending <==> Full(came, rx.total))
  }

  function Stored(rx: Rx, f: Fragment): (r: Rx)
    requires rx.Shaped() && f.index < SPLIT_CFG_MAX_FRAGMENTS && f.index * SPLIT_CONFIG_SYNC_DATA_MAX + |f.data| <= |rx.buf|
    ensures r.Shaped()
  {
    if Bits.Get(rx.got, f.index) then rx
    else rx.(got := Bits.Set(rx.got, f.index), buf := Splice(rx.buf, f.index * SPLIT_CONFIG_SYNC_DATA_MAX, f.data))
  }

  lemma FirstNext(came: seq<Came>, c: Came, i: nat)
    ensures First(came + [c], i) ==
            if First(came, i).Some? then First(came, i) else if c.index == i then Some(c.blob) else None
  {
    assert (came + [c])[..|came|] == came;
  }

  /** Splicing a fragment into its region, and leaving the others. */
  lemma RegionNext(buf: Blob, memory: Blob, c: Came, i: nat, first: Option<Blob>)
    requires |buf| == |memory| == Total(c.blob) * SPLIT_CONFIG_SYNC_DATA_MAX && c.index < Total(c.blob) && i < Total(c.blob)
    requires (first.Some? ==> i < Total(first.value)) && Region(buf, memory, first, i) && (i == c.index ==> first == None)
    ensures c.index * SPLIT_CONFIG_SYNC_DATA_MAX + |Chunk(c.blob, c.index)| <= |buf|
    ensures Region(Splice(buf, c.index * SPLIT_CONFIG_SYNC_DATA_MAX, Chunk(c.blob, c.index)), memory,
                   if i == c.index then Some(c.blob) else first, i)
  {
    var e := End(c.blob, c.index);
    ChunkBounds(c.blob, c.index);
    assert |c.blob| >= e;
    hide Total;
  }

  lemma StoredGood(rx: Rx, memory: Blob, came: seq<Came>, topic: Topic, c: Came)
    requires Assembled(rx, memory, came) && c.index < Total(c.blob) == rx.total
    ensures c.index * SPLIT_CONFIG_SYNC_DATA_MAX + |Chunk(c.blob, c.index)| <= |rx.buf|
    ensures Fit(came + [c], rx.total) && BytesGood(Stored(rx, FragmentOf(topic, c.blob, c.index)), memory, came + [c])
  {
    hide Bits.Set, Bits.Get, Splice, Chunk, Total, Region, First;
    var f := FragmentOf(topic, c.blob, c.index);
    var stored := Stored(rx, f);
    forall i | 0 <= i < rx.total
      ensures First(came + [c], i).Some? ==> i < Total(First(came + [c], i).value)
      ensures Bits.Get(stored.got, i) == First(came + [c], i).Some? && Region(stored.buf, memory, First(came + [c], i), i)
    {
      FirstNext(came, c, i);
      if !Bits.Get(rx.got, c.index) {
        Bits.GetSet(rx.got, c.index, i);
        RegionNext(rx.buf, memory, c, i, First(came, i));
      }
    }
  }

  lemma LengthGrows(came: seq<Came>, total: nat, len: nat, c: Came)
    requires Fit(came, total) && LengthGood(came, total, len) && c.index < Total(c.blob) == total
    ensures Fit(came + [c], total)
    ensures LengthGood(came + [c], total, if End(c.blob, c.index) > len then End(c.blob, c.index) else len)
  {
    hide End, Total;
    var all := came + [c];
    assert all[|came|] == c;
    assert forall k | 0 <= k < |came| :: all[k] == came[k];
    if came != [] {
      var k :| 0 <= k < |came| && len == End(came[k].blob, came[k].index);
      assert len == End(all[k].blob, all[k].index);
    }
    assert End(c.blob, c.index) == End(all[|came|].blob, all[|came|].index);
  }

  lemma BytesUnder(a: Rx, b: Rx, memory: Blob, came: seq<Came>)
    requires a.Shaped() && a.active && |memory| == a.total * SPLIT_CONFIG_SYNC_DATA_MAX && Fit(came, a.total) && BytesGood(a, memory, came)
    requires b.Shaped() && b.active && b.total == a.total && b.got == a.got && b.buf == a.buf
    ensures BytesGood(b, memory, came)
    ensures came != [] ==> (AllReceived(b.got, b.total) <==> Full(came, b.total))
  {
    hide Bits.Get, Region, Total, First;
  }

  lemma FullStays(came: seq<Came>, total: nat, c: Came)
    ensures Full(came, total) ==> Full(came + [c], total)
  {
    hide First;
    forall i | 0 <= i < total ensures First(came, i).Some? ==> First(came + [c], i).Some? {
      FirstNext(came, c, i);
    }
  }

  /** Accepting one more fragment of the transfer. */
  lemma AcceptKeeps(rx: Rx, memory: Blob, came: seq<Came>, topic: Topic, c: Came)
    requires Assembled(rx, memory, came) && c.index < Total(c.blob) == rx.total
    ensures var r := Accept(rx, FragmentOf(topic, c.blob, c.index)).rx;
            r.topic == rx.topic && r.total == rx.total && Assembled(r, memory, came + [c])
  {
    var f := FragmentOf(topic, c.blob, c.index);
    hide Bits.Set, Bits.Get, Splice, Chunk, Total, End, BytesGood, LengthGood, Full, AllReceived;
    StoredGood(rx, memory, came, topic, c);
    var stored := Stored(rx, f);
    var end := End(c.blob, c.index);
    var grown := stored.(dataLen := if end > stored.dataLen then end else stored.dataLen);
    var next := if AllReceived(grown.got, grown.total) then grown.(pending := true) else grown;
    assert Accept(rx, f).rx == next;
    LengthGrows(came, rx.total, rx.dataLen, c);
    BytesUnder(stored, next, memory, came + [c]);
    FullStays(came, rx.total, c);
    hide Accept, Stored, Fit;
  }

  lemma StartsEmpty(topic: Topic, total: nat, memory: Blob)
    requires 0 < total <= SPLIT_CFG_MAX_FRAGMENTS && |memory| == total * SPLIT_CONFIG_SYNC_DATA_MAX
    ensures Assembled(Rx(true, topic, total, Zeros(), memory, 0, false), memory, [])
  {
    forall i | 0 <= i < total ensures !Bits.Get(Zeros(), i) {
      Bits.ZeroGet(Zeros(), i);
    }
    hide Total, Bits.Get;
  }

  // ---------- When what waits is one blob ----------

  /** Region i, as far as blob b has bytes there, would read as those of b. */
  predicate Reads(b: Blob, memory: Blob, first: Blob, i: nat)
    requires i < Total(b) == Total(first) && |memory| == Total(b) * SPLIT_CONFIG_SYNC_DATA_MAX
  {
    forall k | i * SPLIT_CONFIG_SYNC_DATA_MAX <= k < End(b, i) :: b[k] == if k < End(first, i) then first[k] else memory[k]
  }

  lemma LastEnd(blob: Blob)
    ensures Total(blob) > 0 ==> End(blob, Total(blob) - 1) == |Covered(blob)|
  {
  }

  lemma InFragment(blob: Blob, k: nat)
    requires k < |Covered(blob)|
    ensures var i := k / SPLIT_CONFIG_SYNC_DATA_MAX; i < Total(blob) && i * SPLIT_CONFIG_SYNC_DATA_MAX <= k < End(blob, i)
  {
  }

  predicate AllRead(b: Blob, memory: Blob, came: seq<Came>)
    requires |memory| == Total(b) * SPLIT_CONFIG_SYNC_DATA_MAX
  {
    forall i | 0 <= i < Total(b) ::
      First(came, i).Some? && Total(First(came, i).value) == Total(b) && Reads(b, memory, First(came, i).value, i)
  }

  lemma ReadsThere(r: Rx, memory: Blob, came: seq<Came>, b: Blob)
    requires Assembled(r, memory, came) && r.pending && Total(b) == r.total && r.dataLen <= |r.buf|
    requires r.buf[..r.dataLen] == Covered(b)
    ensures AllRead(b, memory, came)
  {
    hide Bits.Get, Total, End, Chunk, First;
    forall i | 0 <= i < r.total
      ensures First(came, i).Some? && Total(First(came, i).value) == r.total && Reads(b, memory, First(came, i).value, i)
    {
      FirstFits(came, r.total, i);
      assert Region(r.buf, memory, First(came, i), i);
      forall k | i * SPLIT_CONFIG_SYNC_DATA_MAX <= k < End(b, i) ensures b[k] == r.buf[k] {
        assert r.buf[..r.dataLen][k] == Covered(b)[k];
      }
    }
  }

  lemma ReadsBack(r: Rx, memory: Blob, came: seq<Came>, b: Blob)
    requires Assembled(r, memory, came) && r.pending && Total(b) == r.total && r.dataLen == |Covered(b)| <= |r.buf|
    requires AllRead(b, memory, came)
    ensures r.buf[..r.dataLen] == Covered(b)
  {
    hide Bits.Get, Total, End, Chunk, First;
    forall k | 0 <= k < r.dataLen ensures r.buf[k] == b[k] {
      InFragment(b, k);
      var i := k / SPLIT_CONFIG_SYNC_DATA_MAX;
      assert Region(r.buf, memory, First(came, i), i) && Reads(b, memory, First(came, i).value, i);
    }
  }

  /** What waits to be written is the blob b exactly when it has its length and every
      region reads as b: the bytes of the fragments that came first, and where the first
      last fragment was shorter, what the memory held. */
  lemma WaitsIff(r: Rx, memory: Blob, came: seq<Came>, b: Blob)
    requires Assembled(r, memory, came) && r.pending && Total(b) == r.total
    ensures r.dataLen <= |r.buf|
    ensures r.buf[..r.dataLen] == Covered(b) <==> r.dataLen == |Covered(b)| && AllRead(b, memory, came)
  {
    LengthInside(came, r.total, r.dataLen);
    hide AllRead, Assembled, Total;
    if r.buf[..r.dataLen] == Covered(b) {
      ReadsThere(r, memory, came, b);
      assert |r.buf[..r.dataLen]| == r.dataLen;
    }
    if r.dataLen == |Covered(b)| && AllRead(b, memory, came) {
      ReadsBack(r, memory, came, b);
    }
  }

  lemma LengthInside(came: seq<Came>, total: nat, len: nat)
    requires Fit(came, total) && LengthGood(came, total, len)
    ensures len <= total * SPLIT_CONFIG_SYNC_DATA_MAX
  {
    hide Total, Chunk;
    if came != [] {
      var k :| 0 <= k < |came| && len == End(came[k].blob, came[k].index);
      Monotone(came[k].index + 1, total, SPLIT_CONFIG_SYNC_DATA_MAX);
    }
  }

  predicate OnlyOf(came: seq<Came>, blob: Blob) {
    forall k | 0 <= k < |came| :: came[k].blob == blob
  }

  lemma {:induction false} FirstOfOnly(came: seq<Came>, blob: Blob, i: nat)
    requires OnlyOf(came, blob)
    ensures First(came, i).Some? ==> First(came, i).value == blob
    ensures First(came, i).Some? <==> exists k :: 0 <= k < |came| && came[k].index == i
  {
    if came != [] {
      FirstOfOnly(came[..|came| - 1], blob, i);
    }
  }

  /** When only fragments of one blob have come since the transfer began, what waits is
      what was sent of it. */
  lemma OneBlobWaits(r: Rx, memory: Blob, came: seq<Came>, b: Blob)
    requires Assembled(r, memory, came) && r.pending && OnlyOf(came, b)
    ensures Total(b) == r.total && r.dataLen == |Covered(b)| <= |r.buf| && r.buf[..r.dataLen] == Covered(b)
  {
    hide Bits.Get, Total, Chunk, First, End;
    assert came[0].blob == b;
    LastEnd(b);
    FirstFits(came, r.total, r.total - 1);
    FirstOfOnly(came, b, r.total - 1);
    var last :| 0 <= last < |came| && came[last].index == r.total - 1;
    assert End(came[last].blob, came[last].index) == |Covered(b)|;
    forall i | 0 <= i < r.total ensures First(came, i).Some? && First(came, i).value == b {
      FirstOfOnly(came, b, i);
    }
    WaitsIff(r, memory, came, b);
  }

  // ---------- One blob ----------

  /** Fragments of one blob arrive in some order, some of them more than once. */
  function Deliver(rx: Rx, topic: Topic, blob: Blob, arrivals: seq<nat>, memory: seq<bv8>): (r: Rx)
    requires rx.Shaped() && |memory| == Total(blob) * SPLIT_CONFIG_SYNC_DATA_MAX
    requires forall k | 0 <= k < |arrivals| :: arrivals[k] < Total(blob)
    ensures r.Shaped()
  {
    if arrivals == [] then rx
    else
      var m := |arrivals| - 1;
      OnFragment(Deliver(rx, topic, blob, arrivals[..m], memory), FragmentOf(topic, blob, arrivals[m]), Some(memory)).rx
  }

  /** No transfer of this blob is under way and none waits to be written. */
  predicate Free(rx: Rx, topic: Topic, blob: Blob) {
    !rx.pending && !(rx.active && rx.topic == topic && rx.total == Total(blob))
  }

  function OfBlob(blob: Blob, arrivals: seq<nat>): (came: seq<Came>)
    ensures |came| == |arrivals| && forall k | 0 <= k < |came| :: came[k] == Came(arrivals[k], blob)
  {
    seq(|arrivals|, k requires 0 <= k < |arrivals| => Came(arrivals[k], blob))
  }

  lemma {:induction false} DeliverAssembles(rx: Rx, topic: Topic, blob: Blob, arrivals: seq<nat>, memory: seq<bv8>)
    requires rx.Shaped() && |memory| == Total(blob) * SPLIT_CONFIG_SYNC_DATA_MAX && Free(rx, topic, blob)
    requires arrivals != [] && forall k | 0 <= k < |arrivals| :: arrivals[k] < Total(blob)
    ensures var r := Deliver(rx, topic, blob, arrivals, memory);
            r.topic == topic && r.total == Total(blob) && Assembled(r, memory, OfBlob(blob, arrivals))
  {
    var m := |arrivals| - 1;
    var c := Came(arrivals[m], blob);
    assert OfBlob(blob, arrivals[..m]) + [c] == OfBlob(blob, arrivals);
    if m == 0 {
      StartsEmpty(topic, Total(blob), memory);
      AcceptKeeps(Rx(true, topic, Total(blob), Zeros(), memory, 0, false), memory, [], topic, c);
      hide Accept, Assembled, Total;
      assert OfBlob(blob, arrivals[..m]) == [];
      assert Deliver(rx, topic, blob, arrivals[..m], memory) == rx;
    } else {
      DeliverAssembles(rx, topic, blob, arrivals[..m], memory);
      var before := Deliver(rx, topic, blob, arrivals[..m], memory);
      assert before.active;
      AcceptKeeps(before, memory, OfBlob(blob, arrivals[..m]), topic, c);
      hide Accept, Assembled, Total;
    }
  }

  predicate Seen(arrivals: seq<nat>, index: nat) {
    index in arrivals
  }

  /** However the fragments of a blob arrive, out of order or repeated: the transfer is
      complete exactly when each has arrived at least once; the length is then that of
      what was sent, and so are the bytes. */
  lemma Reassembled(rx: Rx, topic: Topic, blob: Blob, arrivals: seq<nat>, memory: seq<bv8>)
    requires rx.Shaped() && |memory| == Total(blob) * SPLIT_CONFIG_SYNC_DATA_MAX && Free(rx, topic, blob)
    requires arrivals != [] && forall k | 0 <= k < |arrivals| :: arrivals[k] < Total(blob)
    ensures var r := Deliver(rx, topic, blob, arrivals, memory);
            (r.pending <==> forall i | 0 <= i < Total(blob) :: Seen(arrivals, i)) &&
            (r.pending ==> r.dataLen == |Covered(blob)| <= |r.buf| && r.buf[..r.dataLen] == Covered(blob))
  {
    DeliverAssembles(rx, topic, blob, arrivals, memory);
    var r, came := Deliver(rx, topic, blob, arrivals, memory), OfBlob(blob, arrivals);
    hide Deliver, Total, First, BytesGood, LengthGood;
    forall i | 0 <= i < Total(blob) ensures First(came, i).Some? <==> Seen(arrivals, i) {
      FirstOfOnly(came, blob, i);
      if Seen(arrivals, i) {
        var k :| 0 <= k < |arrivals| && arrivals[k] == i;
        assert came[k].index == i;
      }
    }
    if r.pending {
      OneBlobWaits(r, memory, came, blob);
    }
  }

  /** So a blob that needs at most 255 fragments arrives whole. */
  lemma ArrivesWhole(rx: Rx, topic: Topic, blob: Blob, arrivals: seq<nat>, memory: seq<bv8>)
    requires rx.Shaped() && |memory| == Total(blob) * SPLIT_CONFIG_SYNC_DATA_MAX && Free(rx, topic, blob)
    requires 0 < |blob| <= SPLIT_CFG_MAX_FRAGMENTS * SPLIT_CONFIG_SYNC_DATA_MAX
    requires (forall k | 0 <= k < |arrivals| :: arrivals[k] < Total(blob)) && forall i | 0 <= i < Total(blob) :: Seen(arrivals, i)
    ensures var r := Deliver(rx, topic, blob, arrivals, memory);
            r.pending && r.dataLen == |blob| <= |r.buf| && r.buf[..r.dataLen] == blob
  {
    assert Total(blob) > 0 && Total(blob) * SPLIT_CONFIG_SYNC_DATA_MAX >= |blob|;
    assert Seen(arrivals, 0);
    Reassembled(rx, topic, blob, arrivals, memory);
    hide Deliver, Total;
    assert blob[..|blob|] == blob;
  }

  // ---------- Fragments of many blobs ----------

  /** A fragment of any blob, the end of a deferred write, or a reset. Nothing in a
      fragment says to which push it belongs: blobs may change under one topic. */
  datatype Arrival =
    | Piece(topic: Topic, blob: Blob, index: nat, memory: Option<seq<bv8>>)
    | Written
    | Interrupted

  predicate Genuine(a: Arrival) {
    a.Piece? ==>
      a.index < Total(a.blob) && (a.memory.Some? ==> |a.memory.value| == Total(a.blob) * SPLIT_CONFIG_SYNC_DATA_MAX)
  }

  predicate AllGenuine(arrivals: seq<Arrival>) {
    forall k | 0 <= k < |arrivals| :: Genuine(arrivals[k])
  }

  function Arrived(rx: Rx, a: Arrival): (r: Rx)
    requires rx.Shaped() && Genuine(a)
    ensures r.Shaped()
  {
    match a
    case Piece(topic, blob, index, memory) => OnFragment(rx, FragmentOf(topic, blob, index), memory).rx
    case Written => if rx.pending then Empty() else rx
    case Interrupted => Reset(rx)
  }

  function Stream(arrivals: seq<Arrival>): (r: Rx)
    requires AllGenuine(arrivals)
    ensures r.Shaped()
  {
    if arrivals == [] then Empty() else Arrived(Stream(arrivals[..|arrivals| - 1]), arrivals[|arrivals| - 1])
  }

  predicate Continues(rx: Rx, a: Arrival) {
    a.Piece? && rx.active && rx.topic == a.topic && rx.total == Total(a.blob)
  }

  /** The transfer under way: what has come since it began, and what the memory held then. */
  datatype Transfer = Transfer(came: seq<Came>, memory: Blob)

  const NO_TRANSFER := Transfer([], [])

  function Counted(rx: Rx, before: Transfer, a: Arrival): Transfer {
    match a
    case Written => if rx.pending then NO_TRANSFER else before
    case Interrupted => if rx.pending then before else NO_TRANSFER
    case Piece(_, blob, index, memory) =>
      if Continues(rx, a) then before.(came := before.came + [Came(index, blob)])
      else if rx.pending then before
      else if memory.Some? then Transfer([Came(index, blob)], memory.value)
      else NO_TRANSFER
  }

  function Current(arrivals: seq<Arrival>): Transfer
    requires AllGenuine(arrivals)
  {
    if arrivals == [] then NO_TRANSFER
    else
      var front := arrivals[..|arrivals| - 1];
      Counted(Stream(front), Current(front), arrivals[|arrivals| - 1])
  }

  /** A transfer that begins. */
  function Begun(a: Arrival): (rx: Rx)
    requires a.Piece? && Genuine(a) && a.memory.Some?
    ensures rx.Shaped()
  {
    Rx(true, a.topic, Total(a.blob), Zeros(), a.memory.value, 0, false)
  }

  lemma PieceIs(rx: Rx, a: Arrival)
    requires rx.Shaped() && Genuine(a) && a.Piece?
    ensures var f := FragmentOf(a.topic, a.blob, a.index);
            Arrived(rx, a) ==
            if Continues(rx, a) then Accept(rx, f).rx
            else if rx.pending then rx
            else if a.memory == None then Empty()
            else Accept(Begun(a), f).rx
  {
    hide Accept, Total, Chunk;
  }

  /** A transfer under way holds exactly what has come. */
  ghost predicate Faithful(rx: Rx, t: Transfer) {
    rx.Shaped() && (rx.pending ==> rx.active) && (rx.active ==> t.came != [] && Assembled(rx, t.memory, t.came))
  }

  lemma ArrivalFaithful(rx: Rx, t: Transfer, a: Arrival)
    requires Faithful(rx, t) && Genuine(a)
    ensures Faithful(Arrived(rx, a), Counted(rx, t, a))
    ensures var r := Arrived(rx, a);
            r.active ==> if a.Piece? && (Continues(rx, a) || !rx.pending) then r.topic == a.topic && r.total == Total(a.blob)
                         else rx.active && r.topic == rx.topic && r.total == rx.total
  {
    hide Accept, BytesGood, LengthGood, Full, Fit, Total, Chunk, OnFragment;
    if a.Piece? {
      var c := Came(a.index, a.blob);
      PieceIs(rx, a);
      hide Arrived;
      if Continues(rx, a) {
        AcceptKeeps(rx, t.memory, t.came, a.topic, c);
      } else if !rx.pending && a.memory.Some? {
        StartsEmpty(a.topic, Total(a.blob), a.memory.value);
        AcceptKeeps(Begun(a), a.memory.value, [], a.topic, c);
        assert [] + [c] == [c];
      }
    }
  }

  lemma {:induction false} StreamFaithful(arrivals: seq<Arrival>)
    requires AllGenuine(arrivals)
    ensures Faithful(Stream(arrivals), Current(arrivals))
  {
    hide Arrived, Counted, Assembled, Genuine;
    if arrivals != [] {
      var m := |arrivals| - 1;
      StreamFaithful(arrivals[..m]);
      hide Faithful;
      ArrivalFaithful(Stream(arrivals[..m]), Current(arrivals[..m]), arrivals[m]);
    }
  }

  /** However the fragments of any blobs are mixed, in any order and with repeats,
      interrupted or short of memory, and also when blobs change under one topic: a
      transfer waits to be written as soon as each of its fragments has come since it
      began. What waits is a given blob exactly when it has its length and each region
      reads as the blob, from the fragment that came first; and it is so whenever only
      fragments of that blob have come since. */
  lemma WhatWaits(arrivals: seq<Arrival>, b: Blob)
    requires AllGenuine(arrivals)
    ensures var r, t := Stream(arrivals), Current(arrivals);
            (r.active ==> (r.pending <==> Full(t.came, r.total))) &&
            (r.pending ==> r.active && r.dataLen <= |r.buf| && |t.memory| == r.total * SPLIT_CONFIG_SYNC_DATA_MAX) &&
            (r.pending && Total(b) == r.total ==>
               (r.buf[..r.dataLen] == Covered(b) <==> r.dataLen == |Covered(b)| && AllRead(b, t.memory, t.came))) &&
            (r.pending && OnlyOf(t.came, b) ==> r.dataLen == |Covered(b)| && r.buf[..r.dataLen] == Covered(b))
  {
    StreamFaithful(arrivals);
    var r, t := Stream(arrivals), Current(arrivals);
    hide Stream, Current, AllGenuine, AllRead, Total, BytesGood, LengthGood, Full;
    if r.pending {
      LengthInside(t.came, r.total, r.dataLen);
      if Total(b) == r.total {
        WaitsIff(r, t.memory, t.came, b);
      }
      if OnlyOf(t.came, b) {
        OneBlobWaits(r, t.memory, t.came, b);
      }
    }
  }

  predicate HasCome(arrivals: seq<Arrival>, topic: Topic, c: Came) {
    exists k | 0 <= k < |arrivals| ::
      arrivals[k].Piece? && arrivals[k].topic == topic && arrivals[k].index == c.index && arrivals[k].blob == c.blob
  }

  lemma ComesLater(arrivals: seq<Arrival>, m: nat, topic: Topic, c: Came)
    requires m <= |arrivals| && HasCome(arrivals[..m], topic, c)
    ensures HasCome(arrivals, topic, c)
  {
    var k :| 0 <= k < m && arrivals[..m][k].Piece? && arrivals[..m][k].topic == topic &&
             arrivals[..m][k].index == c.index && arrivals[..m][k].blob == c.blob;
    assert arrivals[k] == arrivals[..m][k];
  }

  /** What counts as come has come, under this topic. */
  lemma {:induction false} CurrentCame(arrivals: seq<Arrival>, c: Came)
    requires AllGenuine(arrivals) && Stream(arrivals).active && c in Current(arrivals).came
    ensures HasCome(arrivals, Stream(arrivals).topic, c)
  {
    var m := |arrivals| - 1;
    var a, rx := arrivals[m], Stream(arrivals[..m]);
    StreamFaithful(arrivals[..m]);
    ArrivalFaithful(rx, Current(arrivals[..m]), a);
    hide Arrived, Genuine, Faithful, Total;
    if rx.active && c in Current(arrivals[..m]).came {
      CurrentCame(arrivals[..m], c);
      ComesLater(arrivals, m, rx.topic, c);
    }
  }

  lemma StreamNext(arrivals: seq<Arrival>, a: Arrival)
    requires AllGenuine(arrivals) && Genuine(a)
    ensures AllGenuine(arrivals + [a]) && Stream(arrivals + [a]) == Arrived(Stream(arrivals), a)
  {
    hide Arrived, Genuine;
    assert (arrivals + [a])[..|arrivals|] == arrivals;
  }

  /** One more fragment of a transfer that is not complete yet. */
  lemma GoesOn(arrivals: seq<Arrival>, memory: Blob, came: seq<Came>, topic: Topic, c: Came)
    requires AllGenuine(arrivals) && Assembled(Stream(arrivals), memory, came) && Stream(arrivals).topic == topic
    requires c.index < Total(c.blob) == Stream(arrivals).total
    ensures var next := arrivals + [Piece(topic, c.blob, c.index, None)];
            AllGenuine(next) && Assembled(Stream(next), memory, came + [c]) &&
            Stream(next).topic == topic && Stream(next).total == Stream(arrivals).total
  {
    hide Accept, Arrived, Total, Chunk, BytesGood, LengthGood, Full, Fit;
    var a := Piece(topic, c.blob, c.index, None);
    StreamNext(arrivals, a);
    PieceIs(Stream(arrivals), a);
    AcceptKeeps(Stream(arrivals), memory, came, topic, c);
  }

  lemma Begins(topic: Topic, memory: Blob, c: Came)
    requires c.index < Total(c.blob) && |memory| == Total(c.blob) * SPLIT_CONFIG_SYNC_DATA_MAX
    ensures var first := [Piece(topic, c.blob, c.index, Some(memory))];
            AllGenuine(first) && Assembled(Stream(first), memory, [c]) &&
            Stream(first).topic == topic && Stream(first).total == Total(c.blob)
  {
    hide Accept, Arrived, Total, Chunk, BytesGood, LengthGood, Full, Fit;
    var a := Piece(topic, c.blob, c.index, Some(memory));
    StreamNext([], a);
    assert [] + [a] == [a] && [] + [c] == [c];
    PieceIs(Empty(), a);
    StartsEmpty(topic, Total(c.blob), memory);
    AcceptKeeps(Begun(a), memory, [], topic, c);
  }

  /** A blob that no push has sent can wait to be written: a push of a is broken off after
      its first fragment, and one of b, which is as long, follows before a reset. */
  lemma TornBlob(topic: Topic, a: Blob, b: Blob, memory: Blob)
    requires |a| == |b| == |memory| == 2 * SPLIT_CONFIG_SYNC_DATA_MAX
    ensures var arrivals := [Piece(topic, a, 0, Some(memory)), Piece(topic, b, 0, None), Piece(topic, b, 1, None)];
            AllGenuine(arrivals) &&
            var r := Stream(arrivals);
            r.pending && r.dataLen == |b| == |r.buf| && r.buf == a[..SPLIT_CONFIG_SYNC_DATA_MAX] + b[SPLIT_CONFIG_SYNC_DATA_MAX..]
  {
    var p0, p1, p2 := Piece(topic, a, 0, Some(memory)), Piece(topic, b, 0, None), Piece(topic, b, 1, None);
    var c0, c1, c2 := Came(0, a), Came(0, b), Came(1, b);
    Begins(topic, memory, c0);
    GoesOn([p0], memory, [c0], topic, c1);
    assert [p0] + [p1] == [p0, p1] && [c0] + [c1] == [c0, c1];
    GoesOn([p0, p1], memory, [c0, c1], topic, c2);
    assert [p0, p1] + [p2] == [p0, p1, p2] && [c0, c1] + [c2] == [c0, c1, c2];
    TornBytes(Stream([p0, p1, p2]), memory, a, b);
    hide Stream, Assembled;
  }

  lemma TornBytes(r: Rx, memory: Blob, a: Blob, b: Blob)
    requires |a| == |b| == 2 * SPLIT_CONFIG_SYNC_DATA_MAX
    requires r.total == 2 && Assembled(r, memory, [Came(0, a), Came(0, b), Came(1, b)])
    ensures r.pending && r.dataLen == |b| == |r.buf|
    ensures r.buf == a[..SPLIT_CONFIG_SYNC_DATA_MAX] + b[SPLIT_CONFIG_SYNC_DATA_MAX..]
  {
    var c0, c1, c2 := Came(0, a), Came(0, b), Came(1, b);
    var came := [c0, c1, c2];
    assert First([], 0) == First([], 1) == None;
    FirstNext([], c0, 0); FirstNext([c0], c1, 0); FirstNext([c0, c1], c2, 0);
    FirstNext([], c0, 1); FirstNext([c0], c1, 1); FirstNext([c0, c1], c2, 1);
    assert [] + [c0] == [c0] && [c0] + [c1] == [c0, c1] && [c0, c1] + [c2] == came;
    hide First, Bits.Get, Region, Chunk;
    assert First(came, 0) == Some(a) && First(came, 1) == Some(b);
    assert End(came[2].blob, came[2].index) == 442 && End(came[0].blob, came[0].index) == 221;
    assert Region(r.buf, memory, Some(a), 0) && Region(r.buf, memory, Some(b), 1);
    RegionIs(r.buf, memory, a, 0);
    RegionIs(r.buf, memory, b, 1);
  }

  lemma RegionIs(buf: Blob, memory: Blob, blob: Blob, i: nat)
    requires |buf| == |memory| == |blob| && (i + 1) * SPLIT_CONFIG_SYNC_DATA_MAX <= |buf| && i < Total(blob)
    requires End(blob, i) == (i + 1) * SPLIT_CONFIG_SYNC_DATA_MAX && Region(buf, memory, Some(blob), i)
    ensures forall k | i * SPLIT_CONFIG_SYNC_DATA_MAX <= k < (i + 1) * SPLIT_CONFIG_SYNC_DATA_MAX :: buf[k] == blob[k]
  {
    hide End;
  }
}
