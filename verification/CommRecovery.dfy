/** How a Blast transfer recovers from losses: what a bitmap makes the sender send,
    and from which states a transfer can still be completed. */
module CommRecovery {
  import opened CommPacket
  import opened Numbers
  import opened CommRx
  import opened CommTx
  import opened CommBlast
  import Bits

  // ---------- What a bitmap makes the sender send ----------

  /** The bitmap does not show packet i. */
  predicate Lacks(bitmap: seq<bv8>, i: nat) {
    !(i < 8 * |bitmap| && Bits.Test(bitmap[i / 8], i % 8))
  }

  /** MID packets from i on that the bitmap lacks, each once and in ascending order. */
  predicate Repairs(packets: seq<Packet>, data: seq<bv8>, mtu: nat, bitmap: seq<bv8>, i: nat)
    requires Fits(data, mtu)
  {
    (forall k | 0 <= k < |packets| ::
       IsMid(packets[k], data, mtu) && packets[k].rem <= Packets(data, mtu) - 1 - i && Lacks(bitmap, Packets(data, mtu) - 1 - packets[k].rem)) &&
    (forall k, m | 0 <= k < m < |packets| :: packets[k].rem > packets[m].rem)
  }

  lemma LacksIs(bitmap: seq<bv8>, i: nat)
    ensures Lacks(bitmap, i) == !Reported(bitmap, i)
  {
    hide Bits.Test;
  }

  lemma RepairsNext(packets: seq<Packet>, data: seq<bv8>, mtu: nat, bitmap: seq<bv8>, i: nat)
    requires Fits(data, mtu) && 1 <= i < Packets(data, mtu) - 1 && Lacks(bitmap, i) && Repairs(packets, data, mtu, bitmap, i + 1)
    ensures Repairs([Genuine(data, mtu, i)] + packets, data, mtu, bitmap, i)
  {
    hide Genuine, IsMid, Lacks, Fits, Packets;
    MidIsMid(data, mtu, i);
    GenuineRem(data, mtu, i);
  }

  lemma RepairsLater(packets: seq<Packet>, data: seq<bv8>, mtu: nat, bitmap: seq<bv8>, i: nat)
    requires Fits(data, mtu) && Repairs(packets, data, mtu, bitmap, i + 1)
    ensures Repairs(packets, data, mtu, bitmap, i)
  {
    hide IsMid, Lacks, Fits;
  }

  /** All of them are sent, unless the transport stops accepting packets. */
  lemma {:induction false} MissingSent(tx: Tx, data: seq<bv8>, mtu: nat, bitmap: seq<bv8>, i: nat, budget: nat)
    requires Fits(data, mtu) && TxGood(tx, data, mtu) && tx.blast && i >= 1
    ensures var r := SendMissing(tx, bitmap, i, budget);
            Repairs(r.packets, data, mtu, bitmap, i) &&
            (if r.ok then forall j | i <= j < Packets(data, mtu) - 1 && Lacks(bitmap, j) :: Genuine(data, mtu, j) in r.packets
             else |r.packets| == budget) &&
            (budget + i >= Packets(data, mtu) ==> r.ok)
    decreases tx.total - i
  {
    hide Lacks, IsMid, PacketAt, Genuine, Reported, Repairs;
    assert Repairs([], data, mtu, bitmap, i) by {
      NothingRepairs(data, mtu, bitmap, i);
    }
    if i + 1 < tx.total {
      LacksIs(bitmap, i);
      if Reported(bitmap, i) {
        MissingSent(tx, data, mtu, bitmap, i + 1, budget);
        RepairsLater(SendMissing(tx, bitmap, i + 1, budget).packets, data, mtu, bitmap, i);
      } else if budget > 0 {
        PacketAtGood(tx, data, mtu, i);
        MissingSent(tx, data, mtu, bitmap, i + 1, budget - 1);
        var rest := SendMissing(tx, bitmap, i + 1, budget - 1);
        RepairsNext(rest.packets, data, mtu, bitmap, i);
        assert SendMissing(tx, bitmap, i, budget).packets == [Genuine(data, mtu, i)] + rest.packets;
      }
    }
  }

  lemma NothingRepairs(data: seq<bv8>, mtu: nat, bitmap: seq<bv8>, i: nat)
    requires Fits(data, mtu)
    ensures Repairs([], data, mtu, bitmap, i)
  {
  }

  lemma MidRem(data: seq<bv8>, mtu: nat, packets: seq<Packet>, bitmap: seq<bv8>, j: nat)
    requires Fits(data, mtu) && 1 <= j < Packets(data, mtu) - 1 && Repairs(packets, data, mtu, bitmap, 1)
    requires Genuine(data, mtu, j) in packets
    ensures Lacks(bitmap, j)
  {
    assert Genuine(data, mtu, j).rem == Packets(data, mtu) - 1 - j;
    hide Genuine, IsMid, Lacks, Packets, Fits;
  }

  /** With a round and the transport left, a bitmap makes the sender send exactly the
      MID packets that it lacks, once each and in ascending order, closed by
      STATUS_REQ; when it lacks none, LAST alone. */
  lemma BitmapRepairsExactly(tx: Tx, data: seq<bv8>, mtu: nat, bitmap: seq<bv8>, budget: nat)
    requires Fits(data, mtu) && TxGood(tx, data, mtu) && tx.blast
    requires tx.attempts < TX_BLAST_MAX_RECONCILE_ROUNDS && budget >= Packets(data, mtu)
    ensures Packets(data, mtu) >= 2
    ensures var n := Packets(data, mtu);
            var o := OnResponse(tx, Packet(BITMAP, 0, bitmap), budget);
            o.tx == tx.(attempts := tx.attempts + 1) &&
            if exists j :: 1 <= j < n - 1 && Lacks(bitmap, j) then
              o.sent != [] && o.sent[|o.sent| - 1] == Control(STATUS_REQ, 0) &&
              Repairs(o.sent[..|o.sent| - 1], data, mtu, bitmap, 1) &&
              forall j | 1 <= j < n - 1 :: Genuine(data, mtu, j) in o.sent[..|o.sent| - 1] <==> Lacks(bitmap, j)
            else o.sent == [Genuine(data, mtu, n - 1)]
  {
    hide SendMissing, OnResponse, Lacks, Reported, Genuine, IsMid, Repairs, Packets;
    PacketBoundsZero(data, mtu);
    var n := Packets(data, mtu);
    var p := Packet(BITMAP, 0, bitmap);
    var tx1 := tx.(attempts := tx.attempts + 1);
    forall j | 1 <= j < n - 1 ensures Lacks(bitmap, j) == !Reported(bitmap, j) {
      LacksIs(bitmap, j);
    }
    MissingSent(tx1, data, mtu, bitmap, 1, budget);
    if j :| 1 <= j < n - 1 && Lacks(bitmap, j) {
      assert !AllReported(tx1, bitmap);
      RepairOutcome(tx, p, budget);
      var sent := SendMissing(tx1, bitmap, 1, budget).packets;
      assert (sent + [Control(STATUS_REQ, 0)])[..|sent|] == sent;
      forall j | 1 <= j < n - 1 && Genuine(data, mtu, j) in sent ensures Lacks(bitmap, j) {
        MidRem(data, mtu, sent, bitmap, j);
      }
    } else {
      assert AllReported(tx1, bitmap);
      LastOutcome(tx, p, data, mtu, budget);
    }
  }

  // ---------- Without further losses ----------

  lemma {:induction false} RunConcat(s: Sys, mtu: nat, a: seq<Event>, b: seq<Event>)
    requires s.rx.Shaped()
    ensures Run(s, mtu, a + b) == Run(Run(s, mtu, a), mtu, b)
  {
    hide Next;
    if b == [] {
      assert a + b == a;
    } else {
      RunConcat(s, mtu, a, b[..|b| - 1]);
      assert (a + b)[..|a + b| - 1] == a + b[..|b| - 1];
    }
  }

  lemma RunOne(s: Sys, mtu: nat, e: Event)
    requires s.rx.Shaped()
    ensures Run(s, mtu, [e]) == Next(s, mtu, e)
  {
    hide Next;
    assert [e][..0] == [];
  }

  /** The events of a continuation that loses nothing. */
  predicate Lossless(events: seq<Event>) {
    forall e | e in events :: e.fate == Intact && (e.Down? ==> e.callbackOk)
  }

  /** Both halves are in the transfer, and STATUS_REQ is on its way behind some MIDs. */
  ghost predicate Asking(s: Sys, data: seq<bv8>, mtu: nat)
    requires Fits(data, mtu)
  {
    Inv(s, data, mtu) && s.tx.blast && s.down != [] && s.down[|s.down| - 1] == Control(STATUS_REQ, 0)
  }

  lemma AskingIs(s: Sys, data: seq<bv8>, mtu: nat)
    requires Fits(data, mtu) && Asking(s, data, mtu)
    ensures s.rx.Shaped() && RxGood(s.rx, data, mtu) && TxGood(s.tx, data, mtu) && s.tx.awaiting
    ensures s.tx.blast && s.rx.blast && s.rx.Has(0) && s.down != [] && s.up == [] && s.delivered == []
    ensures forall k | 0 <= k < |s.down| - 1 :: IsMid(s.down[k], data, mtu)
  {
    PacketBoundsZero(data, mtu);
    Kinds(s.down[|s.down| - 1], data, mtu);
    hide Genuine, Stored, Bits.Get;
  }

  /** The next packet of the queue is stored. */
  lemma TakeMid(s: Sys, data: seq<bv8>, mtu: nat)
    requires Fits(data, mtu) && Asking(s, data, mtu) && |s.down| > 1
    ensures s.rx.Shaped() && IsMid(s.down[0], data, mtu)
    ensures var t := Next(s, mtu, Down(Intact, true));
            Asking(t, data, mtu) && t.tx == s.tx && t.down == s.down[1..] &&
            t.rx.Has(Packets(data, mtu) - 1 - s.down[0].rem) &&
            forall i | 0 <= i < RX_BLAST_MAX_PACKETS && s.rx.Has(i) :: t.rx.Has(i)
  {
    AskingIs(s, data, mtu);
    hide Receive, Genuine, Bits.Get, Stored, TxGood, IsMid, RxGood;
    DownMid(s, data, mtu, true);
    hide Inv;
    MidGood(s.rx, data, mtu, s.down[0], true);
  }

  /** The queue drains up to STATUS_REQ, and everything in it is stored. */
  lemma {:induction false} Drain(s: Sys, data: seq<bv8>, mtu: nat) returns (events: seq<Event>)
    requires Fits(data, mtu) && Asking(s, data, mtu)
    ensures s.rx.Shaped() && Lossless(events)
    ensures var t := Run(s, mtu, events);
            Asking(t, data, mtu) && t.tx == s.tx && t.down == [Control(STATUS_REQ, 0)] &&
            (forall i | 0 <= i < RX_BLAST_MAX_PACKETS && s.rx.Has(i) :: t.rx.Has(i)) &&
            forall i | 1 <= i < Packets(data, mtu) - 1 && Genuine(data, mtu, i) in s.down :: t.rx.Has(i)
    decreases |s.down|
  {
    hide Asking, Next, Genuine, IsMid, RxGood, TxGood, Bits.Get, Inv, Packets;
    AskingIs(s, data, mtu);
    if |s.down| == 1 {
      events := [];
      OnlyAsking(s, data, mtu);
    } else {
      TakeMid(s, data, mtu);
      var e := Down(Intact, true);
      var t := Next(s, mtu, e);
      var rest := Drain(t, data, mtu);
      events := [e] + rest;
      RunConcat(s, mtu, [e], rest);
      RunOne(s, mtu, e);
      forall i | 1 <= i < Packets(data, mtu) - 1 && Genuine(data, mtu, i) in s.down
        ensures Run(s, mtu, events).rx.Has(i)
      {
        GenuineRem(data, mtu, i);
        if Genuine(data, mtu, i) == s.down[0] {
          assert t.rx.Has(i);
        } else {
          assert Genuine(data, mtu, i) in t.down;
        }
      }
    }
  }

  lemma GenuineRem(data: seq<bv8>, mtu: nat, i: nat)
    requires Fits(data, mtu) && i < Packets(data, mtu)
    ensures Genuine(data, mtu, i).rem == Packets(data, mtu) - 1 - i && Packets(data, mtu) <= RX_BLAST_MAX_PACKETS
  {
  }

  lemma OnlyAsking(s: Sys, data: seq<bv8>, mtu: nat)
    requires Fits(data, mtu) && Asking(s, data, mtu) && |s.down| == 1
    ensures s.down == [Control(STATUS_REQ, 0)]
    ensures forall i | 1 <= i < Packets(data, mtu) - 1 :: Genuine(data, mtu, i) !in s.down
  {
    hide Inv;
    forall i | 1 <= i < Packets(data, mtu) - 1 ensures Genuine(data, mtu, i) != Control(STATUS_REQ, 0) {
      MidIsMid(data, mtu, i);
      Kinds(Genuine(data, mtu, i), data, mtu);
    }
    hide Genuine;
  }

  /** The receiver answers STATUS_REQ with what it holds. */
  lemma Answered(s: Sys, data: seq<bv8>, mtu: nat)
    requires Fits(data, mtu) && Asking(s, data, mtu) && s.down == [Control(STATUS_REQ, 0)]
    ensures s.rx.Shaped()
    ensures Next(s, mtu, Down(Intact, true)) == s.(down := [], up := [BitmapReply(s.rx, mtu)])
    ensures Inv(Next(s, mtu, Down(Intact, true)), data, mtu)
  {
    AskingIs(s, data, mtu);
    DownStatus(s, data, mtu, true);
    hide Inv, RxGood, Bits.Get;
  }

  /** A bitmap is on its way to the sender. */
  ghost predicate Reporting(s: Sys, data: seq<bv8>, mtu: nat)
    requires Fits(data, mtu)
  {
    Inv(s, data, mtu) && s.tx.blast && |s.up| == 1 && s.up[0].flags == BITMAP
  }

  lemma ReportingIs(s: Sys, data: seq<bv8>, mtu: nat)
    requires Fits(data, mtu) && Reporting(s, data, mtu)
    ensures s.rx.Shaped() && RxGood(s.rx, data, mtu) && TxGood(s.tx, data, mtu)
    ensures Inv(s, data, mtu) && s.rx.blast && s.rx.Has(0) && s.down == [] && s.delivered == [] && |s.up| == 1 && s.up[0].flags == BITMAP
    ensures forall i | 0 <= i < Packets(data, mtu) && !Lacks(s.up[0].payload, i) :: s.rx.Has(i)
  {
    PacketBoundsZero(data, mtu);
    forall i | 0 <= i < Packets(data, mtu) ensures Lacks(s.up[0].payload, i) == !Reported(s.up[0].payload, i) {
      LacksIs(s.up[0].payload, i);
    }
    hide Genuine, Stored, Bits.Get, Lacks;
  }

  /** The sender answers a bitmap that lacks something with the missing packets. */
  lemma Repaired(s: Sys, data: seq<bv8>, mtu: nat)
    requires Fits(data, mtu) && Reporting(s, data, mtu) && s.tx.attempts < TX_BLAST_MAX_RECONCILE_ROUNDS
    requires exists j :: 1 <= j < Packets(data, mtu) - 1 && Lacks(s.up[0].payload, j)
    ensures s.rx.Shaped()
    ensures var t := Next(s, mtu, Up(Intact, Packets(data, mtu)));
            Asking(t, data, mtu) && t.rx == s.rx && t.tx.attempts == s.tx.attempts + 1 &&
            forall j | 1 <= j < Packets(data, mtu) - 1 && Lacks(s.up[0].payload, j) :: Genuine(data, mtu, j) in t.down
  {
    hide OnResponse, Inv, Genuine, Lacks, Repairs, RxGood, TxGood, Receive, Bits.Get;
    ReportingIs(s, data, mtu);
    var n := Packets(data, mtu);
    var p := s.up[0];
    UpIntact(s, data, mtu, n);
    BitmapRepairsExactly(s.tx, data, mtu, p.payload, n);
    SameBitmap(s.tx, p, n);
    var sent := OnResponse(s.tx, p, n).sent;
    var t := Next(s, mtu, Up(Intact, n));
    assert t.down == sent;
    forall j | 1 <= j < n - 1 && Lacks(p.payload, j) ensures Genuine(data, mtu, j) in sent {
      assert Genuine(data, mtu, j) in sent[..|sent| - 1];
    }
  }

  /** Only flags and payload of a bitmap response matter. */
  lemma SameBitmap(tx: Tx, p: Packet, budget: nat)
    requires p.flags == BITMAP
    ensures OnResponse(tx, p, budget) == OnResponse(tx, Packet(BITMAP, 0, p.payload), budget)
  {
    hide OnBitmap;
  }

  /** A bitmap that lacks nothing makes the sender release LAST, which is delivered. */
  lemma Completed(s: Sys, data: seq<bv8>, mtu: nat)
    requires Fits(data, mtu) && Reporting(s, data, mtu) && s.tx.attempts < TX_BLAST_MAX_RECONCILE_ROUNDS
    requires forall j | 1 <= j < Packets(data, mtu) - 1 :: !Lacks(s.up[0].payload, j)
    ensures s.rx.Shaped()
    ensures |Next(Next(s, mtu, Up(Intact, Packets(data, mtu))), mtu, Down(Intact, true)).delivered| == 1
  {
    ReportingIs(s, data, mtu);
    var n := Packets(data, mtu);
    var p := s.up[0];
    BitmapRepairsExactly(s.tx, data, mtu, p.payload, n);
    SameBitmap(s.tx, p, n);
    AllHeld(s.rx, data, mtu);
    hide OnResponse, Inv, Genuine, Lacks, Repairs, RxGood, TxGood, Receive, AllButLast;
    var t := Next(s, mtu, Up(Intact, n));
    assert t.down == [] + [Genuine(data, mtu, n - 1)] == [Genuine(data, mtu, n - 1)];
    LastDelivers(t, data, mtu);
  }

  lemma AllHeld(rx: Rx, data: seq<bv8>, mtu: nat)
    requires Fits(data, mtu) && RxGood(rx, data, mtu) && rx.blast && rx.Has(0)
    requires forall j | 1 <= j < Packets(data, mtu) - 1 :: rx.Has(j)
    ensures AllButLast(rx, data, mtu)
  {
    hide Stored, Bits.Get;
  }

  lemma LastDelivers(s: Sys, data: seq<bv8>, mtu: nat)
    requires Fits(data, mtu) && RxGood(s.rx, data, mtu) && AllButLast(s.rx, data, mtu) && Packets(data, mtu) >= 2
    requires s.down == [Genuine(data, mtu, Packets(data, mtu) - 1)] && s.delivered == []
    ensures |Next(s, mtu, Down(Intact, true)).delivered| == 1
  {
    CommitGood(s.rx, data, mtu, true);
    hide Receive, Genuine, AllButLast, RxGood;
  }

  /** A receiver that holds everything reports it, when one response can. */
  lemma ReportsAll(s: Sys, data: seq<bv8>, mtu: nat)
    requires Fits(data, mtu) && BitmapSpans(data, mtu) && RxGood(s.rx, data, mtu) && s.rx.blast
    requires forall j | 1 <= j < Packets(data, mtu) - 1 :: s.rx.Has(j)
    ensures forall j | 1 <= j < Packets(data, mtu) - 1 :: !Lacks(BitmapReply(s.rx, mtu).payload, j)
  {
    BitmapGood(s.rx, data, mtu);
    var b := BitmapReply(s.rx, mtu).payload;
    hide Bits.Get, BitmapReply, RxGood, Lacks, Reported;
    forall j | 1 <= j < Packets(data, mtu) - 1 ensures !Lacks(b, j) {
      LacksIs(b, j);
    }
  }

  /** From STATUS_REQ on its way, when everything missing is on its way before it. */
  lemma FromFullQueue(s: Sys, data: seq<bv8>, mtu: nat) returns (events: seq<Event>)
    requires Fits(data, mtu) && BitmapSpans(data, mtu) && Asking(s, data, mtu)
    requires s.tx.attempts + 1 <= TX_BLAST_MAX_RECONCILE_ROUNDS && s.rx.Shaped()
    requires forall j | 1 <= j < Packets(data, mtu) - 1 :: s.rx.Has(j) || Genuine(data, mtu, j) in s.down
    ensures Lossless(events) && |Run(s, mtu, events).delivered| == 1
  {
    hide Next, Genuine, Bits.Get, RxGood, TxGood, Reporting, Asking, Lacks, BitmapReply, Inv;
    var drained := Drain(s, data, mtu);
    var t := Run(s, mtu, drained);
    AskingIs(t, data, mtu);
    Answered(t, data, mtu);
    var answer, last := Up(Intact, Packets(data, mtu)), Down(Intact, true);
    var u := Next(t, mtu, last);
    ReportsAll(t, data, mtu);
    IsReporting(t, u, data, mtu);
    Completed(u, data, mtu);
    events := drained + ([last] + ([answer] + [last]));
    RunConcat(s, mtu, drained, [last] + ([answer] + [last]));
    RunConcat(t, mtu, [last], [answer] + [last]);
    RunOne(t, mtu, last);
    RunConcat(u, mtu, [answer], [last]);
    RunOne(u, mtu, answer);
    RunOne(Next(u, mtu, answer), mtu, last);
  }

  /** From a bitmap on its way, one round of repair and one for LAST deliver. */
  lemma FromReport(s: Sys, data: seq<bv8>, mtu: nat) returns (events: seq<Event>)
    requires Fits(data, mtu) && BitmapSpans(data, mtu) && Reporting(s, data, mtu)
    requires s.tx.attempts + 2 <= TX_BLAST_MAX_RECONCILE_ROUNDS
    ensures s.rx.Shaped() && Lossless(events) && |Run(s, mtu, events).delivered| == 1
  {
    hide Next, Genuine, Bits.Get, RxGood, TxGood, Reporting, Asking, Lacks, BitmapReply, Inv;
    var n := Packets(data, mtu);
    ReportingIs(s, data, mtu);
    var answer, last := Up(Intact, n), Down(Intact, true);
    if exists j :: 1 <= j < n - 1 && Lacks(s.up[0].payload, j) {
      Repaired(s, data, mtu);
      var t := Next(s, mtu, answer);
      forall j | 1 <= j < n - 1 ensures t.rx.Has(j) || Genuine(data, mtu, j) in t.down {
        assert Lacks(s.up[0].payload, j) || s.rx.Has(j);
      }
      var rest := FromFullQueue(t, data, mtu);
      events := [answer] + rest;
      RunConcat(s, mtu, [answer], rest);
      RunOne(s, mtu, answer);
    } else {
      Completed(s, data, mtu);
      events := [answer] + [last];
      RunConcat(s, mtu, [answer], [last]);
      RunOne(s, mtu, answer);
      RunOne(Next(s, mtu, answer), mtu, last);
    }
  }

  lemma IsReporting(s: Sys, t: Sys, data: seq<bv8>, mtu: nat)
    requires Fits(data, mtu) && s.rx.Shaped() && Inv(t, data, mtu) && s.tx.blast
    requires t == s.(down := [], up := [BitmapReply(s.rx, mtu)])
    ensures Reporting(t, data, mtu)
  {
    hide Inv;
  }

  /** From STATUS_REQ on its way. */
  lemma FromAsking(s: Sys, data: seq<bv8>, mtu: nat) returns (events: seq<Event>)
    requires Fits(data, mtu) && BitmapSpans(data, mtu) && Asking(s, data, mtu)
    requires s.tx.attempts + 2 <= TX_BLAST_MAX_RECONCILE_ROUNDS
    ensures s.rx.Shaped() && Lossless(events) && |Run(s, mtu, events).delivered| == 1
  {
    hide Next, Asking, Reporting, BitmapReply;
    AskingIs(s, data, mtu);
    var drained := Drain(s, data, mtu);
    var s1 := Run(s, mtu, drained);
    var e := Down(Intact, true);
    Answered(s1, data, mtu);
    AskingIs(s1, data, mtu);
    var s2 := Next(s1, mtu, e);
    IsReporting(s1, s2, data, mtu);
    var rest := FromReport(s2, data, mtu);
    events := drained + ([e] + rest);
    RunConcat(s, mtu, drained, [e] + rest);
    RunConcat(s1, mtu, [e], rest);
    RunOne(s1, mtu, e);
  }

  /** The answer to FIRST makes the sender send every MID packet. */
  lemma FromAck(s: Sys, data: seq<bv8>, mtu: nat) returns (events: seq<Event>)
    requires Fits(data, mtu) && BitmapSpans(data, mtu) && Inv(s, data, mtu)
    requires s.tx.blast && s.tx.attempts == 0 && |s.up| == 1 && s.up[0].flags == ACK
    ensures s.rx.Shaped() && Lossless(events) && |Run(s, mtu, events).delivered| == 1
  {
    PacketBoundsZero(data, mtu);
    var n := Packets(data, mtu);
    UpIntact(s, data, mtu, n);
    var e := Up(Intact, n);
    var t := Next(s, mtu, e);
    AckQueue(s, data, mtu);
    hide Next, Inv, Genuine, RxGood, TxGood, Bits.Get;
    var rest := FromFullQueue(t, data, mtu);
    events := [e] + rest;
    RunConcat(s, mtu, [e], rest);
    RunOne(s, mtu, e);
  }

  lemma AckQueue(s: Sys, data: seq<bv8>, mtu: nat)
    requires Fits(data, mtu) && Inv(s, data, mtu) && Inv(Next(s, mtu, Up(Intact, Packets(data, mtu))), data, mtu)
    requires s.tx.blast && s.tx.attempts == 0 && |s.up| == 1 && s.up[0].flags == ACK
    ensures var t := Next(s, mtu, Up(Intact, Packets(data, mtu)));
            Asking(t, data, mtu) && t.tx == s.tx && forall j | 1 <= j < Packets(data, mtu) - 1 :: Genuine(data, mtu, j) in t.down
  {
    var n := Packets(data, mtu);
    assert TxGood(s.tx, data, mtu) && s.down == [];
    hide SendMissing, Genuine, Inv, RxGood, Bits.Get, Repairs;
    MissingSent(s.tx, data, mtu, [], 1, n);
    var all := SendMissing(s.tx, [], 1, n);
    assert OnResponse(s.tx, s.up[0], n) == Outcome(s.tx, all.packets + [Control(STATUS_REQ, 0)]);
    var t := Next(s, mtu, Up(Intact, n));
    assert t.down == all.packets + [Control(STATUS_REQ, 0)];
    assert forall j | 1 <= j < n - 1 :: Lacks([], j);
  }

  /** FIRST on its way, in the first round. */
  lemma FromFirst(s: Sys, data: seq<bv8>, mtu: nat) returns (events: seq<Event>)
    requires Fits(data, mtu) && BitmapSpans(data, mtu) && Inv(s, data, mtu)
    requires s.tx.blast && s.tx.attempts == 0 && |s.down| == 1 && IsFirst(s.down[0], data, mtu)
    ensures s.rx.Shaped() && Lossless(events) && |Run(s, mtu, events).delivered| == 1
  {
    var e := Down(Intact, true);
    DownFirst(s, data, mtu, true);
    FirstAcked(s, data, mtu);
    hide Next, Inv, Genuine, RxGood, TxGood, Bits.Get, IsFirst;
    var rest := FromAck(Next(s, mtu, e), data, mtu);
    events := [e] + rest;
    RunConcat(s, mtu, [e], rest);
    RunOne(s, mtu, e);
  }

  lemma FirstAcked(s: Sys, data: seq<bv8>, mtu: nat)
    requires Fits(data, mtu) && Inv(s, data, mtu)
    requires |s.down| == 1 && IsFirst(s.down[0], data, mtu)
    ensures s.rx.Shaped()
    ensures var t := Next(s, mtu, Down(Intact, true)); t.tx == s.tx && |t.up| == 1 && t.up[0].flags == ACK
  {
    FirstGood(s.rx, data, mtu, true);
    assert s.up == [];
    hide Receive, Genuine, Bits.Get, Stored, Inv;
  }

  /** NAK makes the sender send FIRST again, while resends are left. */
  lemma FromNak(s: Sys, data: seq<bv8>, mtu: nat) returns (events: seq<Event>)
    requires Fits(data, mtu) && BitmapSpans(data, mtu) && Inv(s, data, mtu)
    requires s.tx.blast && s.tx.attempts == 0 && s.tx.naks + 1 < TX_NAK_RESEND_MAX_ATTEMPTS && |s.up| == 1 && s.up[0].flags == NAK
    ensures s.rx.Shaped() && Lossless(events) && |Run(s, mtu, events).delivered| == 1
  {
    PacketBoundsZero(data, mtu);
    var n := Packets(data, mtu);
    var e := Up(Intact, n);
    assert TxGood(s.tx, data, mtu) && s.down == [];
    hide Inv, Genuine, RxGood, TxGood, Bits.Get, OnResponse;
    UpIntact(s, data, mtu, n);
    NakOutcome(s.tx, s.up[0], data, mtu, n);
    var t := Next(s, mtu, e);
    assert t.down == [Genuine(data, mtu, 0)];
    hide Next;
    var rest := FromFirst(t, data, mtu);
    events := [e] + rest;
    RunConcat(s, mtu, [e], rest);
    RunOne(s, mtu, e);
  }

  // ---------- Main results ----------

  /** The sender is in the transfer and something is on its way that keeps it going: a
      bitmap, or the STATUS_REQ that asks for one, with a round for repair and one for
      LAST; in the first round FIRST, its answer or a NAK; or LAST itself. */
  predicate Recoverable(s: Sys, data: seq<bv8>, mtu: nat)
    requires Fits(data, mtu)
  {
    s.tx.blast && (
    || (s.tx.attempts + 2 <= TX_BLAST_MAX_RECONCILE_ROUNDS && s.down != [] && s.down[|s.down| - 1] == Control(STATUS_REQ, 0))
    || (s.tx.attempts + 2 <= TX_BLAST_MAX_RECONCILE_ROUNDS && |s.up| == 1 && s.up[0].flags == BITMAP)
    || (s.tx.attempts == 0 && |s.down| == 1 && IsFirst(s.down[0], data, mtu))
    || (s.tx.attempts == 0 && |s.up| == 1 && s.up[0].flags == ACK)
    || (s.tx.attempts == 0 && |s.up| == 1 && s.up[0].flags == NAK && s.tx.naks + 1 < TX_NAK_RESEND_MAX_ATTEMPTS)
    || (|s.down| == 1 && IsLast(s.down[0], data, mtu)))
  }

  lemma FromLast(s: Sys, data: seq<bv8>, mtu: nat) returns (events: seq<Event>)
    requires Fits(data, mtu) && Inv(s, data, mtu) && |s.down| == 1 && IsLast(s.down[0], data, mtu)
    ensures s.rx.Shaped() && Lossless(events) && |Run(s, mtu, events).delivered| == 1
  {
    PacketBoundsZero(data, mtu);
    Kinds(s.down[0], data, mtu);
    var e := Down(Intact, true);
    assert RxGood(s.rx, data, mtu) && AllButLast(s.rx, data, mtu) && s.delivered == [] by {
      hide Genuine, Stored, Bits.Get;
    }
    LastDelivers(s, data, mtu);
    RunOne(s, mtu, e);
    events := [e];
    hide Next, Inv, RxGood, AllButLast;
  }

  /** Whatever has been lost, corrupted or refused before: from every reachable state
      that keeps going, the transfer is delivered if nothing more is lost. */
  lemma Recovers(data: seq<bv8>, mtu: nat, budget: nat, events: seq<Event>) returns (more: seq<Event>)
    requires Fits(data, mtu) && BitmapSpans(data, mtu)
    requires Recoverable(Run(Init(data, mtu, budget), mtu, events), data, mtu)
    ensures Lossless(more) && |Run(Init(data, mtu, budget), mtu, events + more).delivered| == 1
  {
    var s0 := Init(data, mtu, budget);
    var s := Run(s0, mtu, events);
    RunGood(data, mtu, budget, events);
    hide Run, Init, Inv, IsFirst, IsLast;
    if |s.down| == 1 && IsLast(s.down[0], data, mtu) {
      more := FromLast(s, data, mtu);
    } else if s.down != [] && s.down[|s.down| - 1] == Control(STATUS_REQ, 0) {
      more := FromAsking(s, data, mtu);
    } else if |s.up| == 1 && s.up[0].flags == BITMAP {
      more := FromReport(s, data, mtu);
    } else if |s.down| == 1 && IsFirst(s.down[0], data, mtu) {
      more := FromFirst(s, data, mtu);
    } else if s.up[0].flags == ACK {
      more := FromAck(s, data, mtu);
    } else {
      more := FromNak(s, data, mtu);
    }
    RunConcat(s0, mtu, events, more);
  }

  /** OK is on its way back only when the payload has been delivered. */
  lemma OkMeansDelivered(data: seq<bv8>, mtu: nat, budget: nat, events: seq<Event>)
    requires Fits(data, mtu)
    ensures var s := Run(Init(data, mtu, budget), mtu, events); (exists p :: p in s.up && p.flags == ACK_OK) ==> |s.delivered| == 1
  {
    RunGood(data, mtu, budget, events);
    OkDelivered(Run(Init(data, mtu, budget), mtu, events), data, mtu);
    hide Run, Init, Inv;
  }

  lemma OkDelivered(s: Sys, data: seq<bv8>, mtu: nat)
    requires Fits(data, mtu) && Inv(s, data, mtu)
    ensures (exists p :: p in s.up && p.flags == ACK_OK) ==> |s.delivered| == 1
  {
    hide RxGood, TxGood, Genuine, Stored, Bits.Get, Correct, BitmapSpans;
  }

  // ---------- When a transfer can succeed at all ----------

  /** With nothing lost at all it is delivered. */
  lemma LosslessRunDelivers(data: seq<bv8>, mtu: nat) returns (events: seq<Event>)
    requires Fits(data, mtu) && BitmapSpans(data, mtu)
    ensures Lossless(events) && |Run(Init(data, mtu, 1), mtu, events).delivered| == 1
  {
    PacketBoundsZero(data, mtu);
    var tx := Tx(true, true, data, Packets(data, mtu), mtu, 0, 0);
    PacketAtGood(tx, data, mtu, 0);
    hide Genuine;
    assert Init(data, mtu, 1) == Sys(tx, Erased(), [Genuine(data, mtu, 0)], [], [], 0);
    assert Run(Init(data, mtu, 1), mtu, []) == Init(data, mtu, 1);
    hide Run, Init;
    events := Recovers(data, mtu, 1, []);
    assert [] + events == events;
  }

  /** A transfer that fits can be delivered if and only if one bitmap response can
      cover its MID packets; otherwise no run, however kind, releases LAST. */
  lemma DeliverableIff(data: seq<bv8>, mtu: nat)
    requires Fits(data, mtu)
    ensures (exists events :: Run(Init(data, mtu, 1), mtu, events).delivered != []) <==> BitmapSpans(data, mtu)
  {
    if BitmapSpans(data, mtu) {
      var events := LosslessRunDelivers(data, mtu);
    }
    forall events | Run(Init(data, mtu, 1), mtu, events).delivered != [] ensures BitmapSpans(data, mtu) {
      RunGood(data, mtu, 1, events);
    }
  }

  /** Over BLE with the smallest ATT MTU a packet carries 15 bytes: then everything
      from 1816 bytes up to what the receiver can hold is accepted for sending, but
      never delivered. */
  lemma TooLongForSmallPackets(data: seq<bv8>, events: seq<Event>)
    requires 1816 <= |data| <= 15 * RX_BLAST_MAX_PACKETS
    ensures Fits(data, 15) && Run(Init(data, 15, 1), 15, events).delivered == []
  {
    assert Fits(data, 15) && !BitmapSpans(data, 15);
    hide Run, Init, Fits, BitmapSpans;
    DeliverableIff(data, 15);
  }
}
